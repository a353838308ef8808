/** The interactive sender (src/direction_speed_sender.cpp): quick keys and typed
    `direction,speed,vehicle` lines become three-field frames for the bridge firmware. */
module KeyboardSender {
  import opened Wrappers
  import opened Text
  import opened SerialLink
  import EspFirmware

  /** The `hSerial` validity and the currently selected vehicle. */
  datatype Sender = Sender(connected: bool, currentVehicle: int)

  const InitialVehicle: int := 1

  /** C's `%` for a positive divisor: the remainder takes the sign of the dividend. */
  function CRem(a: int, n: int): (r: int)
    requires n > 0
    ensures a >= 0 ==> r == a % n
    ensures -n < r < n
  {
    if a >= 0 then a % n else -((-a) % n)
  }

  /** `switchVehicle`: `(currentVehicle % 4) + 1`. */
  function SwitchVehicle(s: Sender): (r: Sender)
    ensures r.connected == s.connected
    ensures 1 <= s.currentVehicle <= 4 ==> 1 <= r.currentVehicle <= 4
    ensures 1 <= s.currentVehicle < 4 ==> r.currentVehicle == s.currentVehicle + 1
    ensures s.currentVehicle == 4 ==> r.currentVehicle == 1
  {
    s.(currentVehicle := CRem(s.currentVehicle, 4) + 1)
  }

  /** Four switches from any selected vehicle come back to it. */
  lemma {:induction false} SwitchCycles(s: Sender)
    requires 1 <= s.currentVehicle <= 4
    ensures SwitchVehicle(SwitchVehicle(SwitchVehicle(SwitchVehicle(s)))) == s
  {
  }

  /** The outcome of `sendCommand`: the return value and the frame handed to `WriteFile`, if any. */
  datatype Sent = Sent(ok: bool, frame: string)

  /** `sendCommand(direction, speed, vehicle)`: nothing when not connected; the target is
      the given vehicle unless it is -1, then the selected one. */
  function SendCommand(s: Sender, direction: int, speed: int, vehicle: int, w: Write): (r: Sent)
    ensures !s.connected ==> r == Sent(false, "")
    ensures s.connected ==> r.frame == FormatThree(direction, speed, if vehicle != -1 then vehicle else s.currentVehicle)
    ensures r.ok <==> s.connected && Delivered(r.frame, w)
  {
    if !s.connected then Sent(false, "")
    else
      var target := if vehicle != -1 then vehicle else s.currentVehicle;
      var frame := FormatThree(direction, speed, target);
      Sent(w.Wrote? && w.bytes == |frame|, frame)
  }

  /** What one input line of the main loop asks for. `vehicle == -1` means the selected vehicle. */
  datatype Action =
    | Skip
    | Quit
    | Help
    | Switch
    | Send(direction: int, speed: int, vehicle: int)
    | Reject

  /** The free-form branch: two commas, three `std::stoi` fields (a throw rejects the line),
      direction 1..5 and vehicle 1..4; the speed is not checked. */
  function ParseTriple(input: string): (a: Action)
    ensures a.Send? ==> 1 <= a.direction <= 5 && 1 <= a.vehicle <= 4
    ensures a.Send? || a.Reject?
    ensures a.Send? ==> Contains(input, ",")
  {
    match Find(input, ",")
    case None => Reject
    case Some(first) =>
      match FindFrom(input, ",", first + 1)
      case None => Reject
      case Some(second) => ParseSplit(input, first, second)
  }

  /** The three texts around the two commas, each converted by `std::stoi`. */
  function ParseSplit(input: string, first: nat, second: nat): (a: Action)
    requires first < second < |input|
    ensures a.Send? ==> 1 <= a.direction <= 5 && 1 <= a.vehicle <= 4
    ensures a.Send? || a.Reject?
  {
    ParseFields(Stoi(input[..first]), Stoi(input[first + 1..second]), Stoi(input[second + 1..]))
  }

  /** The range checks on the three `std::stoi` results; a failed conversion rejects the line. */
  function ParseFields(d: Option<int>, sp: Option<int>, v: Option<int>): (a: Action)
    ensures a.Send? ==> 1 <= a.direction <= 5 && 1 <= a.vehicle <= 4
    ensures a.Send? || a.Reject?
  {
    if d.None? || sp.None? || v.None? then Reject
    else if 1 <= d.value <= 5 && 1 <= v.value <= 4 then Send(d.value, sp.value, v.value)
    else Reject
  }

  /** The `switch` on the first character of a line. */
  function Dispatch(input: string): (a: Action)
    ensures |input| == 0 <==> a.Skip?
    ensures a.Quit? ==> input[0] == 'q'
    ensures |input| > 0 && input[0] == 'w' ==> a == Send(1, 200, -1)
    ensures |input| > 0 && input[0] == 's' ==> a == Send(2, 200, -1)
    ensures |input| > 0 && input[0] == 'a' ==> a == Send(3, 180, -1)
    ensures |input| > 0 && input[0] == 'd' ==> a == Send(4, 180, -1)
    ensures |input| > 0 && input[0] == 'x' ==> a == Send(5, 0, -1)
    ensures |input| > 0 && input[0] == 'v' ==> a == Switch
    ensures |input| > 0 && input[0] == 'h' ==> a == Help
    ensures |input| > 0 && input[0] == 'q' ==> a == Quit
    ensures |input| > 0 && input[0] !in "wsadxvhq" ==> a == ParseTriple(input)
    ensures a.Send? && a.vehicle != -1 ==> 1 <= a.direction <= 5 && 1 <= a.vehicle <= 4
  {
    if |input| == 0 then Skip
    else match input[0]
      case 'w' => Send(1, 200, -1)
      case 's' => Send(2, 200, -1)
      case 'a' => Send(3, 180, -1)
      case 'd' => Send(4, 180, -1)
      case 'x' => Send(5, 0, -1)
      case 'v' => Switch
      case 'h' => Help
      case 'q' => Quit
      case _ => ParseTriple(input)
  }

  /** One line of the main loop: the new sender state and the frame sent, if any. */
  function Step(s: Sender, input: string, w: Write): (r: (Sender, Sent))
    ensures r.0.connected == s.connected
    ensures r.1.ok ==> Dispatch(input).Send?
    ensures !Dispatch(input).Switch? ==> r.0 == s
    ensures Dispatch(input).Switch? ==> r.0 == SwitchVehicle(s) && !r.1.ok
    ensures Dispatch(input).Send? ==>
      var a := Dispatch(input);
      r.1 == SendCommand(s, a.direction, a.speed, a.vehicle, w)
  {
    match Dispatch(input)
    case Switch => (SwitchVehicle(s), Sent(false, ""))
    case Send(d, sp, v) => (s, SendCommand(s, d, sp, v, w))
    case _ => (s, Sent(false, ""))
  }

  /** The selected vehicle stays in 1..4 over any sequence of lines, starting from 1. */
  lemma {:induction false} SelectedVehicleInRange(s: Sender, inputs: seq<string>, w: Write)
    requires 1 <= s.currentVehicle <= 4
    ensures 1 <= Run(s, inputs, w).currentVehicle <= 4
    decreases |inputs|
  {
    if |inputs| > 0 {
      SelectedVehicleInRange(Step(s, inputs[0], w).0, inputs[1..], w);
    }
  }

  /** The main loop over the lines typed in: each line is one step, and a quit line ends
      the program, so nothing after it is read. */
  function Run(s: Sender, inputs: seq<string>, w: Write): (r: Sender)
    ensures r.connected == s.connected
    decreases |inputs|
  {
    if |inputs| == 0 then s
    else if Dispatch(inputs[0]).Quit? then s
    else Run(Step(s, inputs[0], w).0, inputs[1..], w)
  }

  /** The lines after the first quit line change nothing: the session ends where it is. */
  lemma {:induction false} LinesAfterQuitIgnored(s: Sender, before: seq<string>, quit: string, after: seq<string>, w: Write)
    requires forall i :: 0 <= i < |before| ==> !Dispatch(before[i]).Quit?
    requires Dispatch(quit).Quit?
    ensures Run(s, before + [quit] + after, w) == Run(s, before, w)
    decreases |before|
  {
    var all := before + [quit] + after;
    if |before| == 0 {
      assert all[0] == quit;
    } else {
      assert all[0] == before[0];
      assert all[1..] == before[1..] + [quit] + after;
      LinesAfterQuitIgnored(Step(s, before[0], w).0, before[1..], quit, after, w);
    }
  }

  lemma {:induction false} NumeralHasNoComma(n: int)
    ensures forall k :: 0 <= k < |IntToString(n)| ==> IntToString(n)[k] != ','
  {
    var t := IntToString(n);
    if n < 0 {
      var u := NatToString(-n);
      assert forall k :: 1 <= k < |t| ==> t[k] == u[k - 1];
    }
  }

  lemma {:induction false} CommaAfterNumeral(s: string, i: nat, n: int)
    requires i + |IntToString(n)| < |s|
    requires s[i..i + |IntToString(n)|] == IntToString(n)
    requires s[i + |IntToString(n)|] == ','
    ensures FindFrom(s, ",", i) == Some(i + |IntToString(n)|)
  {
    var t := IntToString(n);
    NumeralHasNoComma(n);
    forall k | i <= k < i + |t| ensures !OccursAt(s, ",", k) {
      assert s[k] == t[k - i];
      assert s[k..k + 1] == [s[k]];
    }
    assert s[i + |t|..i + |t| + 1] == [','];
    assert OccursAt(s, ",", i + |t|);
  }

  /** The free-form branch reads the three fields of a line laid out as `d,s,v`. */
  lemma {:induction false} ParseTripleFields(s: string, i: nat, j: nat, d: int, sp: int, v: int)
    requires i < j < |s|
    requires FindFrom(s, ",", 0) == Some(i) && FindFrom(s, ",", i + 1) == Some(j)
    requires s[..i] == IntToString(d) && s[i + 1..j] == IntToString(sp) && s[j + 1..] == IntToString(v)
    requires 1 <= d <= 5 && 1 <= v <= 4 && MinInt32 <= sp <= MaxInt32
    ensures ParseTriple(s) == Send(d, sp, v)
  {
    var dt, st, vt := s[..i], s[i + 1..j], s[j + 1..];
    StoiOfIntToString(d);
    StoiOfIntToString(sp);
    StoiOfIntToString(v);
    assert Stoi(dt) == Some(d) && Stoi(st) == Some(sp) && Stoi(vt) == Some(v);
    assert ParseSplit(s, i, j) == Send(d, sp, v);
    ParseTripleAt(s, i, j);
  }

  /** With the two commas found, the line is judged on the three texts around them. */
  lemma {:induction false} ParseTripleAt(s: string, i: nat, j: nat)
    requires i < j < |s|
    requires FindFrom(s, ",", 0) == Some(i) && FindFrom(s, ",", i + 1) == Some(j)
    ensures ParseTriple(s) == ParseSplit(s, i, j)
  {
  }

  lemma {:induction false} TypedTripleParsed(d: int, sp: int, v: int)
    requires 1 <= d <= 5 && 1 <= v <= 4 && MinInt32 <= sp <= MaxInt32
    ensures ParseTriple(IntToString(d) + "," + IntToString(sp) + "," + IntToString(v)) == Send(d, sp, v)
  {
    var td, ts, tv := IntToString(d), IntToString(sp), IntToString(v);
    var s := td + "," + ts + "," + tv;
    var i := |td|;
    var j := i + 1 + |ts|;
    JoinedParts(td, ts, tv);
    assert s[0..i] == s[..i];
    CommaAfterNumeral(s, 0, d);
    CommaAfterNumeral(s, i + 1, sp);
    ParseTripleFields(s, i, j, d, sp, v);
  }

  /** Where the three parts of `a,b,c` sit. */
  lemma {:induction false} JoinedParts(a: string, b: string, c: string)
    ensures var s, i, j := a + "," + b + "," + c, |a|, |a| + 1 + |b|;
      && |s| == j + 1 + |c|
      && s[..i] == a && s[i] == ',' && s[i + 1..j] == b && s[j] == ',' && s[j + 1..] == c
  {
    var s, i, j := a + "," + b + "," + c, |a|, |a| + 1 + |b|;
    var ab := a + "," + b;
    assert s == ab + "," + c;
    assert ab[..i] == a && ab[i + 1..] == b;
    assert s[..j] == ab;
    assert s[..i] == ab[..i];
    assert s[i + 1..j] == ab[i + 1..];
    assert s[j + 1..] == c;
  }

  /** A typed line `d,s,v` with direction 1..5 and vehicle 1..4 is sent as written. */
  lemma {:induction false} TypedTripleIsSent(d: int, sp: int, v: int)
    requires 1 <= d <= 5 && 1 <= v <= 4 && MinInt32 <= sp <= MaxInt32
    ensures Dispatch(IntToString(d) + "," + IntToString(sp) + "," + IntToString(v)) == Send(d, sp, v)
  {
    var s := IntToString(d) + "," + IntToString(sp) + "," + IntToString(v);
    TypedTripleParsed(d, sp, v);
    assert s[0] == IntToString(d)[0];
    DispatchDigitLine(s);
  }

  lemma {:induction false} DispatchDigitLine(s: string)
    requires |s| > 0 && IsDigit(s[0])
    ensures Dispatch(s) == ParseTriple(s)
  {
  }

  /** End to end: with vehicle `c` selected, the key `w` drives vehicle `c` forward at 200. */
  lemma {:induction false} ForwardKeyReachesVehicle(s: Sender, rest: string, w: Write)
    requires s.connected && 1 <= s.currentVehicle <= 4
    ensures Step(s, "w" + rest, w).1.frame == FormatThree(1, 200, s.currentVehicle)
    ensures EspFirmware.HandleUart(Step(s, "w" + rest, w).1.frame)
         == Some(EspFirmware.Radio(EspFirmware.VehicleMacs[s.currentVehicle - 1],
                                   EspFirmware.DirectionData(s.currentVehicle, 1, 200)))
  {
    assert ("w" + rest)[0] == 'w';
    EspFirmware.ForwardsValidFrame(1, 200, s.currentVehicle);
  }

  /** The sender does not check the speed: a typed forward command with speed 50 is
      sent, and the bridge firmware drops it. */
  lemma {:induction false} UncheckedSpeedDroppedByBridge(v: int)
    requires 1 <= v <= 4
    ensures Dispatch(IntToString(1) + "," + IntToString(50) + "," + IntToString(v)) == Send(1, 50, v)
    ensures EspFirmware.HandleUart(FormatThree(1, 50, v)) == None
  {
    TypedTripleIsSent(1, 50, v);
    EspFirmware.DropsInvalidFrame(1, 50, v);
  }
}
