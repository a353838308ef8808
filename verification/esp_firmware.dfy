/** The bridge firmware (esp_vehicle/main/main.cpp): it reads `"direction,speed,vehicle"`
    from the UART, validates the command and forwards it over ESP-NOW to one vehicle.
    The radio and the rate-limit delay are not modelled; a forwarded message is a value. */
module EspFirmware {
  import opened Wrappers
  import opened Text

  const NumVehicles: int := 4

  /** The peer address of vehicle `id` is `VehicleMacs[id - 1]`. */
  const VehicleMacs: seq<seq<int>> := [
    [0x48, 0xCA, 0x43, 0x2E, 0x34, 0x44],
    [0x74, 0x4D, 0xBD, 0xA1, 0xBF, 0x04],
    [0x74, 0x4D, 0xBD, 0xA0, 0x72, 0x1C],
    [0xDC, 0xDA, 0x0C, 0x20, 0xF2, 0x64]
  ]

  /** `direction_data_t` without its timestamp. */
  datatype DirectionData = DirectionData(id: int, direction: int, speed: int)

  /** One `esp_now_send` call: the peer address and the payload. */
  datatype Radio = Radio(mac: seq<int>, data: DirectionData)

  /** `validate_command`. */
  function ValidateCommand(direction: int, speed: int): (ok: bool)
    ensures !(1 <= direction <= 5) ==> !ok
    ensures direction == 5 ==> ok
    ensures 1 <= direction <= 4 ==> (ok <==> 120 <= speed <= 255)
  {
    if direction < 1 || direction > 5 then false
    else if direction == 5 then true
    else !(speed < 120 || speed > 255)
  }

  /** `send_to_vehicle`: nothing for an id outside 1..4, otherwise one message to that vehicle's address. */
  function SendToVehicle(direction: int, speed: int, target: int): (r: Option<Radio>)
    ensures r.Some? <==> 1 <= target <= NumVehicles
    ensures r.Some? ==> r.value.mac == VehicleMacs[target - 1]
    ensures r.Some? ==> r.value.data == DirectionData(target, direction, speed)
  {
    if target < 1 || target > NumVehicles then None
    else Some(Radio(VehicleMacs[target - 1], DirectionData(target, direction, speed)))
  }

  /** One pass of `uart_task` over the bytes of one read (`data` is the text up to the terminator). */
  function HandleUart(data: string): (r: Option<Radio>)
    ensures r.Some? ==> ScanThreeInts(data).count == 3
    ensures r.Some? ==> ValidateCommand(ScanThreeInts(data).values[0], ScanThreeInts(data).values[1])
    ensures r.Some? ==> 1 <= r.value.data.id <= NumVehicles && r.value.data.id == ScanThreeInts(data).values[2]
    ensures r.Some? && r.value.data.direction == 5 ==> r.value.data.speed == 0
    ensures r.Some? && r.value.data.direction != 5 ==> 120 <= r.value.data.speed <= 255
    ensures r.Some? ==> var scan := ScanThreeInts(data);
      && r.value.mac == VehicleMacs[r.value.data.id - 1]
      && r.value.data.direction == scan.values[0]
      && (scan.values[0] != 5 ==> r.value.data.speed == scan.values[1])
    ensures var scan := ScanThreeInts(data);
      scan.count == 3 && ValidateCommand(scan.values[0], scan.values[1]) && 1 <= scan.values[2] <= NumVehicles ==> r.Some?
  {
    if |data| == 0 then None
    else
      var scan := ScanThreeInts(data);
      if scan.count != 3 then None
      else
        var direction, speed, target := scan.values[0], scan.values[1], scan.values[2];
        if !ValidateCommand(direction, speed) then None
        else SendToVehicle(direction, if direction == 5 then 0 else speed, target)
  }

  /** A well-formed three-field frame with a valid command reaches exactly the addressed
      vehicle, with the speed forced to 0 for a stop. */
  lemma {:induction false} ForwardsValidFrame(direction: int, speed: int, target: int)
    requires ValidateCommand(direction, speed)
    requires 1 <= target <= NumVehicles
    ensures HandleUart(FormatThree(direction, speed, target))
         == Some(Radio(VehicleMacs[target - 1],
                       DirectionData(target, direction, if direction == 5 then 0 else speed)))
  {
    ScanFormatThree(direction, speed, target);
  }

  /** A three-field frame is dropped when the command is invalid or the vehicle id is out of range. */
  lemma {:induction false} DropsInvalidFrame(direction: int, speed: int, target: int)
    requires !ValidateCommand(direction, speed) || !(1 <= target <= NumVehicles)
    ensures HandleUart(FormatThree(direction, speed, target)) == None
  {
    ScanFormatThree(direction, speed, target);
  }

  /** A two-field frame `"d,s\n"` yields only two conversions and is never forwarded. */
  lemma {:induction false} DropsTwoFieldFrame(direction: int, speed: int)
    ensures HandleUart(FormatTwo(direction, speed)) == None
  {
    ScanFormatTwo(direction, speed);
  }
}
