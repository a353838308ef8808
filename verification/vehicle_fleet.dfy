/** The vehicle configuration list (src/VehicleFleet.cpp): three parallel lists of names,
    front colours and rear colours, read by index with "" past the end. */
module VehicleFleet {
  datatype Fleet = Fleet(names: seq<string>, frontColors: seq<string>, rearColors: seq<string>)

  const EmptyFleet := Fleet([], [], [])

  /** The three lists describe the same vehicles. */
  predicate Aligned(f: Fleet)
  {
    |f.names| == |f.frontColors| == |f.rearColors|
  }

  function VehicleCount(f: Fleet): nat { |f.names| }

  /** `add_vehicle`: the vehicle goes to the end of all three lists. */
  function AddVehicle(f: Fleet, name: string, front: string, rear: string): (r: Fleet)
    ensures Aligned(f) ==> Aligned(r)
    ensures VehicleCount(r) == VehicleCount(f) + 1
    ensures |r.frontColors| == |f.frontColors| + 1 && |r.rearColors| == |f.rearColors| + 1
    ensures r.names[..|f.names|] == f.names && r.frontColors[..|f.frontColors|] == f.frontColors
    ensures r.rearColors[..|f.rearColors|] == f.rearColors
  {
    Fleet(f.names + [name], f.frontColors + [front], f.rearColors + [rear])
  }

  /** The shared shape of the three getters. */
  function Entry(s: seq<string>, index: nat): (r: string)
    ensures index < |s| ==> r == s[index]
    ensures index >= |s| ==> r == ""
  {
    if index < |s| then s[index] else ""
  }

  function VehicleName(f: Fleet, index: nat): string { Entry(f.names, index) }
  function FrontColor(f: Fleet, index: nat): string { Entry(f.frontColors, index) }
  function RearColor(f: Fleet, index: nat): string { Entry(f.rearColors, index) }

  /** Reading back after adding: the new index answers with the added vehicle, earlier
      indices answer as before, later ones with "". */
  lemma {:induction false} AddThenGet(f: Fleet, name: string, front: string, rear: string, index: nat)
    requires Aligned(f)
    ensures var r := AddVehicle(f, name, front, rear);
      && (index == VehicleCount(f) ==> VehicleName(r, index) == name && FrontColor(r, index) == front && RearColor(r, index) == rear)
      && (index < VehicleCount(f) ==> VehicleName(r, index) == VehicleName(f, index) && FrontColor(r, index) == FrontColor(f, index) && RearColor(r, index) == RearColor(f, index))
      && (index > VehicleCount(f) ==> VehicleName(r, index) == "" && FrontColor(r, index) == "" && RearColor(r, index) == "")
  {
    var r := AddVehicle(f, name, front, rear);
    if index < VehicleCount(f) {
      assert r.names[index] == r.names[..|f.names|][index];
      assert r.frontColors[index] == r.frontColors[..|f.frontColors|][index];
      assert r.rearColors[index] == r.rearColors[..|f.rearColors|][index];
    }
  }

  /** A fleet built by adding vehicles one by one stays aligned and lists them in order. */
  function Configure(vehicles: seq<(string, string, string)>): (r: Fleet)
    ensures Aligned(r) && VehicleCount(r) == |vehicles|
    ensures forall i :: 0 <= i < |vehicles| ==> VehicleName(r, i) == vehicles[i].0 && FrontColor(r, i) == vehicles[i].1 && RearColor(r, i) == vehicles[i].2
  {
    if |vehicles| == 0 then EmptyFleet
    else
      var prev := Configure(vehicles[..|vehicles| - 1]);
      var v := vehicles[|vehicles| - 1];
      var r := AddVehicle(prev, v.0, v.1, v.2);
      forall i | 0 <= i < |vehicles| - 1
        ensures VehicleName(r, i) == vehicles[i].0 && FrontColor(r, i) == vehicles[i].1 && RearColor(r, i) == vehicles[i].2
      {
        AddThenGet(prev, v.0, v.1, v.2, i);
        assert vehicles[..|vehicles| - 1][i] == vehicles[i];
      }
      AddThenGet(prev, v.0, v.1, v.2, |vehicles| - 1);
      r
  }
}
