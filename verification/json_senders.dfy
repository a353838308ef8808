/** The file-watching senders: src/json_sender_simple.cpp (one vehicle, three-field frame),
    src/json_all_vehicles.cpp and src/json_monitor_debug.cpp (all vehicles, two-field frame).
    Each reads a JSON text with a find-based scan, maps the direction to a speed and writes one frame. */
module JsonSenders {
  import opened Wrappers
  import opened Text
  import opened SerialLink
  import EspFirmware

  /** The speed table shared by the three senders (the `switch` in `sendCommand`). */
  function SenderSpeed(direction: int): (speed: int)
    ensures direction == 1 || direction == 2 ==> speed == 125
    ensures direction == 3 || direction == 4 ==> speed == 160
    ensures !(1 <= direction <= 4) ==> speed == 0
  {
    match direction
    case 1 => 125
    case 2 => 125
    case 3 => 160
    case 4 => 160
    case _ => 0
  }

  /** Every direction 1..5 with its table speed is a command the bridge firmware accepts;
      direction 0, which the senders let through, is one it rejects. */
  lemma {:induction false} SenderSpeedsAccepted(direction: int)
    requires 0 <= direction <= 5
    ensures EspFirmware.ValidateCommand(direction, SenderSpeed(direction)) <==> direction != 0
  {
  }

  /** The digit read for a key: the first digit after the first `:` at or after the key,
      as a one-character `atoi`; 0 when there is no colon or no digit. */
  function DigitAfter(content: string, keyPos: nat): (r: int)
    ensures 0 <= r <= 9
    ensures r != 0 ==> exists k :: keyPos <= k < |content| && IsDigit(content[k]) && DigitValue(content[k]) == r
  {
    match FindFrom(content, ":", keyPos)
    case None => 0
    case Some(colon) =>
      match FindDigitFrom(content, colon)
      case None => 0
      case Some(k) => DigitValue(content[k])
  }

  /** The outcome of `sendCommand`: the return value and the frame handed to `WriteFile`. */
  datatype Sent = Sent(ok: bool, frame: string)

  /** json_sender_simple `sendCommand(direction, vehicle_id)`. */
  function SendToOne(connected: bool, direction: int, vehicleId: int, w: Write): (r: Sent)
    ensures !connected ==> r == Sent(false, "")
    ensures connected ==> r.frame == FormatThree(direction, SenderSpeed(direction), vehicleId)
    ensures r.ok <==> connected && Delivered(r.frame, w)
  {
    if !connected then Sent(false, "")
    else
      var frame := FormatThree(direction, SenderSpeed(direction), vehicleId);
      Sent(Delivered(frame, w), frame)
  }

  /** json_sender_simple `parseAndSend`: the (vehicle, direction) pair it sends, if any. */
  function ParseSimple(content: string): (r: Option<(int, int)>)
    ensures r.Some? ==> Contains(content, "\"vehicle_id\"") && Contains(content, "\"direction\"")
    ensures r.Some? ==> 1 <= r.value.0 <= 4 && 0 <= r.value.1 <= 5
    ensures r.Some? ==> r.value.0 == DigitAfter(content, Find(content, "\"vehicle_id\"").value)
    ensures r.Some? ==> r.value.1 == DigitAfter(content, Find(content, "\"direction\"").value)
    ensures var vp, dp := Find(content, "\"vehicle_id\""), Find(content, "\"direction\"");
      vp.Some? && dp.Some? && 1 <= DigitAfter(content, vp.value) <= 4 && DigitAfter(content, dp.value) <= 5 ==> r.Some?
  {
    match (Find(content, "\"vehicle_id\""), Find(content, "\"direction\""))
    case (Some(vp), Some(dp)) =>
      var vehicleId := DigitAfter(content, vp);
      var direction := DigitAfter(content, dp);
      if 1 <= vehicleId <= 4 && 0 <= direction <= 5 then Some((vehicleId, direction)) else None
    case _ => None
  }

  /** A whole pass of json_sender_simple over one file content. */
  function HandleSimple(connected: bool, content: string, w: Write): (r: Option<Sent>)
    ensures r.Some? <==> ParseSimple(content).Some?
    ensures r.Some? ==> r.value == SendToOne(connected, ParseSimple(content).value.1, ParseSimple(content).value.0, w)
  {
    match ParseSimple(content)
    case None => None
    case Some((v, d)) => Some(SendToOne(connected, d, v, w))
  }

  /** Whatever json_sender_simple sends is a well-formed three-field frame: the bridge firmware
      forwards it to the named vehicle unless the direction is 0. */
  lemma {:induction false} SimpleFrameReachesVehicle(content: string, w: Write)
    requires ParseSimple(content).Some?
    ensures var (v, d) := ParseSimple(content).value;
      EspFirmware.HandleUart(FormatThree(d, SenderSpeed(d), v)).Some? <==> d != 0
  {
    var (v, d) := ParseSimple(content).value;
    SenderSpeedsAccepted(d);
    if d != 0 {
      EspFirmware.ForwardsValidFrame(d, SenderSpeed(d), v);
    } else {
      EspFirmware.DropsInvalidFrame(d, SenderSpeed(d), v);
    }
  }

  /** A multi-digit value is cut to its first digit: `"vehicle_id": 12` reads as vehicle 1. */
  lemma FirstDigitOnly()
    ensures DigitAfter("\"vehicle_id\": 12", 0) == 1
  {
    var c := "\"vehicle_id\": 12";
    VehicleIdColon(c);
    VehicleIdDigit(c);
  }

  lemma VehicleIdColon(c: string)
    requires c == "\"vehicle_id\": 12"
    ensures FindFrom(c, ":", 0) == Some(12)
  {
    assert c[12..13] == [c[12]] == ":";
    assert OccursAt(c, ":", 12);
    forall k | 0 <= k < 12 ensures !OccursAt(c, ":", k) {
      assert c[k..k + 1] == [c[k]];
    }
  }

  lemma VehicleIdDigit(c: string)
    requires c == "\"vehicle_id\": 12"
    ensures FindDigitFrom(c, 12) == Some(14) && c[14] == '1'
  {
    assert !IsDigit(c[12]) && !IsDigit(c[13]) && IsDigit(c[14]);
  }

  /** json_all_vehicles / json_monitor_debug `sendCommand(direction)`: a frame without a vehicle. */
  function SendToAll(connected: bool, direction: int, w: Write): (r: Sent)
    ensures !connected ==> r == Sent(false, "")
    ensures connected ==> r.frame == FormatTwo(direction, SenderSpeed(direction))
    ensures r.ok <==> connected && Delivered(r.frame, w)
  {
    if !connected then Sent(false, "")
    else
      var frame := FormatTwo(direction, SenderSpeed(direction));
      Sent(Delivered(frame, w), frame)
  }

  /** The direction-only `parseAndSend` of json_all_vehicles and json_monitor_debug: needs the
      `"direction"` key; a missing digit reads as 0; sent only when 0..5. */
  function ParseDirection(content: string): (r: Option<int>)
    ensures r.Some? ==> Contains(content, "\"direction\"") && 0 <= r.value <= 5
    ensures Contains(content, "\"direction\"") && DigitAfter(content, Find(content, "\"direction\"").value) <= 5
      ==> r.Some?
  {
    match Find(content, "\"direction\"")
    case None => None
    case Some(dp) =>
      var direction := DigitAfter(content, dp);
      if 0 <= direction <= 5 then Some(direction) else None
  }

  /** A pass of json_all_vehicles over one file content. */
  function HandleAll(connected: bool, content: string, w: Write): (r: Option<Sent>)
    ensures r.Some? <==> ParseDirection(content).Some?
    ensures r.Some? ==> r.value == SendToAll(connected, ParseDirection(content).value, w)
  {
    match ParseDirection(content)
    case None => None
    case Some(d) => Some(SendToAll(connected, d, w))
  }

  /** json_monitor_debug keeps a count of frames written completely. */
  datatype Monitor = Monitor(connected: bool, messageCount: nat)

  /** A pass of json_monitor_debug: the new state and the send outcome, if a send was attempted. */
  function HandleMonitor(m: Monitor, content: string, w: Write): (r: (Monitor, Option<Sent>))
    ensures r.0.connected == m.connected
    ensures r.1 == HandleAll(m.connected, content, w)
    ensures r.0.messageCount == m.messageCount + (if r.1.Some? && r.1.value.ok then 1 else 0)
  {
    match ParseDirection(content)
    case None => (m, None)
    case Some(d) =>
      var sent := SendToAll(m.connected, d, w);
      (if sent.ok then m.(messageCount := m.messageCount + 1) else m, Some(sent))
  }

  /** The all-vehicles frames are two-field frames, which the bridge firmware never forwards. */
  lemma {:induction false} AllVehiclesFrameDropped(connected: bool, content: string, w: Write)
    requires connected && HandleAll(connected, content, w).Some?
    ensures EspFirmware.HandleUart(HandleAll(connected, content, w).value.frame) == None
  {
    var d := ParseDirection(content).value;
    EspFirmware.DropsTwoFieldFrame(d, SenderSpeed(d));
  }
}
