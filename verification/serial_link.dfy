/** The serial side of the PC tools (src/serial_communication.cpp): the port
    state, `sendData`, `sendCommand` and `sendVehicleCommands`. The Win32 calls
    are not modelled; what `WriteFile` reports is a parameter. */
module SerialLink {
  import opened Text

  /** What one `WriteFile` call reports: failure, or the number of bytes written. */
  datatype Write = Failed | Wrote(bytes: nat)

  /** A frame counts as sent only when every byte of it was written. */
  predicate Delivered(frame: string, w: Write)
  {
    w.Wrote? && w.bytes == |frame|
  }

  /** `hSerial != INVALID_HANDLE_VALUE` and the `isConnected` flag. */
  datatype Port = Port(handleValid: bool, connected: bool)

  /** `disconnect`: closing an open handle clears both flags; otherwise nothing changes. */
  function Disconnect(p: Port): (r: Port)
    ensures !r.handleValid
    ensures p.handleValid ==> !r.connected
    ensures !p.handleValid ==> r == p
  {
    if p.handleValid then Port(false, false) else p
  }

  lemma {:induction false} DisconnectIdempotent(p: Port)
    ensures Disconnect(Disconnect(p)) == Disconnect(p)
  {
  }

  /** `sendData`: false when not connected or when the write fails, otherwise
      whether every byte was written. */
  function SendData(p: Port, data: string, w: Write): (ok: bool)
    ensures ok <==> p.connected && p.handleValid && Delivered(data, w)
  {
    if !p.connected || !p.handleValid then false
    else if w.Failed? then false
    else w.bytes == |data|
  }

  /** `sendCommand(direction, speed)`: the two-field frame `"d,s\n"`; nothing when not connected. */
  function SendCommand(p: Port, direction: int, speed: int, w: Write): (ok: bool)
    ensures ok ==> p.connected
    ensures p.connected ==> ok == SendData(p, FormatTwo(direction, speed), w)
  {
    if !p.connected then false else SendData(p, FormatTwo(direction, speed), w)
  }

  /** The speed `sendVehicleCommands` derives from a direction. */
  function CommandSpeed(direction: int): (speed: int)
    ensures direction == 0 || direction == 5 ==> speed == 0
    ensures direction == 1 || direction == 2 ==> speed == 130
    ensures direction == 3 || direction == 4 ==> speed == 160
    ensures !(0 <= direction <= 5) ==> speed == 130
  {
    if direction == 5 || direction == 0 then 0
    else if direction == 1 || direction == 2 then 130
    else if direction == 3 || direction == 4 then 160
    else 130
  }

  /** One regex match of `"id": <digits>, "command": <digits>` after `std::stoi`. */
  datatype VehicleCommand = VehicleCommand(vehicleId: int, direction: int)

  /** The outcome of `sendVehicleCommands`: the return value and the frames handed to the port. */
  datatype BatchResult = BatchResult(ok: bool, frames: seq<string>)

  /** The frames sent for a list of matched commands, in order. */
  function Frames(cmds: seq<VehicleCommand>): (r: seq<string>)
    ensures |r| == |cmds|
    ensures forall i :: 0 <= i < |cmds| ==>
      r[i] == FormatTwo(cmds[i].direction, CommandSpeed(cmds[i].direction))
  {
    if |cmds| == 0 then []
    else [FormatTwo(cmds[0].direction, CommandSpeed(cmds[0].direction))] + Frames(cmds[1..])
  }

  /** Whether every send of the batch succeeded (the `success` flag of the loop). */
  function AllSent(p: Port, cmds: seq<VehicleCommand>, writes: seq<Write>): (ok: bool)
    requires |writes| == |cmds|
    ensures ok <==> forall i :: 0 <= i < |cmds| ==>
      SendCommand(p, cmds[i].direction, CommandSpeed(cmds[i].direction), writes[i])
  {
    if |cmds| == 0 then true
    else
      var first := SendCommand(p, cmds[0].direction, CommandSpeed(cmds[0].direction), writes[0]);
      var rest := AllSent(p, cmds[1..], writes[1..]);
      assert forall i :: 1 <= i < |cmds| ==> cmds[i] == cmds[1..][i - 1] && writes[i] == writes[1..][i - 1];
      first && rest
  }

  /** `sendVehicleCommands`: `fileOpened` is whether vehicle_commands.json could be opened,
      `cmds` the regex matches in file order and `writes` what each write reported. */
  function SendVehicleCommands(p: Port, fileOpened: bool, cmds: seq<VehicleCommand>, writes: seq<Write>): (r: BatchResult)
    requires |writes| == |cmds|
    ensures !p.connected || !fileOpened ==> r == BatchResult(false, [])
    ensures r.ok ==> |cmds| > 0
    ensures p.connected && fileOpened ==> r.frames == Frames(cmds)
    ensures p.connected && fileOpened && |cmds| > 0 ==>
      (r.ok <==> forall i :: 0 <= i < |cmds| ==> Delivered(r.frames[i], writes[i]) && p.handleValid)
  {
    if !p.connected || !fileOpened then BatchResult(false, [])
    else if |cmds| == 0 then BatchResult(false, [])
    else BatchResult(AllSent(p, cmds, writes), Frames(cmds))
  }

  /** The vehicle id of a command is parsed but never transmitted: two batches
      differing only in vehicle ids produce the same frames and the same result. */
  lemma {:induction false} VehicleIdNotTransmitted(p: Port, fileOpened: bool, a: seq<VehicleCommand>, b: seq<VehicleCommand>, writes: seq<Write>)
    requires |a| == |b| == |writes|
    requires forall i :: 0 <= i < |a| ==> a[i].direction == b[i].direction
    ensures SendVehicleCommands(p, fileOpened, a, writes) == SendVehicleCommands(p, fileOpened, b, writes)
  {
    assert Frames(a) == Frames(b);
    if p.connected && fileOpened && |a| > 0 {
      assert AllSent(p, a, writes) == AllSent(p, b, writes);
    }
  }
}
