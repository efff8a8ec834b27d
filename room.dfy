/** A room: a name fixed at creation and an ordered list of devices whose names are distinct.
    The devices are owned records, changed in place through the room's methods. */
module Rooms {
  import opened Wrappers
  import opened Text
  import opened Keyed
  import opened DeviceModel
  import opened Lesson8Devices
  import opened Errors

  class Room {
    /** `Room::name`: set by `Room::new` and never changed. */
    const name: string
    var devices: seq<Device>

    /** No two devices of the room share a name. */
    ghost predicate Valid()
      reads this
    {
      Distinct(Names(devices))
    }

    /** `Room::new`: an empty room with the given name. */
    constructor (name: string)
      ensures this.name == name && devices == [] && Valid()
    {
      this.name := name;
      devices := [];
    }

    /** `Room::add_device`: a device whose name is taken is refused and nothing changes;
        otherwise it is appended. */
    method AddDevice(device: Device) returns (r: Result<(), RoomErrors>)
      requires Valid()
      modifies this
      ensures Valid()
      ensures device.name in old(Names(devices)) ==>
        r == Failure(DeviceNameExists(device.name)) && devices == old(devices)
      ensures device.name !in old(Names(devices)) ==>
        r == Success(()) && devices == old(devices) + [device]
    {
      if device.name in Names(devices) {
        return Failure(DeviceNameExists(device.name));
      }
      DistinctAppend(devices, NameOf, device);
      devices := devices + [device];
      r := Success(());
    }

    /** `Room::remove_device`: the named device is removed and the others keep their order;
        an absent name is an error and nothing changes. */
    method RemoveDevice(deviceName: string) returns (r: Result<(), RoomErrors>)
      requires Valid()
      modifies this
      ensures Valid()
      ensures deviceName !in old(Names(devices)) ==>
        r == Failure(DeviceNameDoesNotExist(deviceName)) && devices == old(devices)
      ensures forall i :: 0 <= i < |old(devices)| && old(devices)[i].name == deviceName ==>
        r == Success(()) && devices == old(devices)[..i] + old(devices)[i + 1..]
    {
      if deviceName in Names(devices) {
        var i := Find(Names(devices), deviceName).value;
        WithoutAt(devices, NameOf, i);
        DistinctRemove(devices, NameOf, i);
        devices := Without(devices, NameOf, deviceName);
        return Success(());
      }
      r := Failure(DeviceNameDoesNotExist(deviceName));
    }

    /** `Room::get_device_report`: the report of the named device, drawn with `sample`. */
    function GetDeviceReport(deviceName: string, sample: Sample): (r: Result<string, RoomErrors>)
      reads this
      ensures deviceName !in Names(devices) ==> r == Failure(DeviceNameDoesNotExist(deviceName))
      ensures Valid() ==> forall i :: 0 <= i < |devices| && devices[i].name == deviceName ==>
        r == Success(Lesson8Devices.Report(devices[i], sample))
    {
      match Find(Names(devices), deviceName)
      case None => Failure(DeviceNameDoesNotExist(deviceName))
      case Some(i) => Success(Lesson8Devices.Report(devices[i], sample))
    }

    /** `Room::get_devices`: the device names in insertion order. */
    function GetDevices(): (names: seq<string>)
      reads this
      ensures |names| == |devices|
      ensures forall i :: 0 <= i < |devices| ==> names[i] == devices[i].name
    {
      Names(devices)
    }

    /** `Room::turn_on`: only the named device changes, and it becomes On. */
    method TurnOn(deviceName: string) returns (r: Result<(), RoomErrors>)
      requires Valid()
      modifies this
      ensures Valid() && Names(devices) == old(Names(devices))
      ensures deviceName !in old(Names(devices)) ==>
        r == Failure(DeviceNameDoesNotExist(deviceName)) && devices == old(devices)
      ensures forall i :: 0 <= i < |old(devices)| && old(devices)[i].name == deviceName ==>
        r == Success(()) && devices == old(devices)[i := TurnedOn(old(devices)[i])]
    {
      var found := Find(Names(devices), deviceName);
      if found.None? {
        return Failure(DeviceNameDoesNotExist(deviceName));
      }
      var i := found.value;
      KeysUpdate(devices, NameOf, i, TurnedOn(devices[i]));
      devices := devices[i := TurnedOn(devices[i])];
      r := Success(());
    }

    /** `Room::turn_off`: only the named device changes, and it becomes Off. */
    method TurnOff(deviceName: string) returns (r: Result<(), RoomErrors>)
      requires Valid()
      modifies this
      ensures Valid() && Names(devices) == old(Names(devices))
      ensures deviceName !in old(Names(devices)) ==>
        r == Failure(DeviceNameDoesNotExist(deviceName)) && devices == old(devices)
      ensures forall i :: 0 <= i < |old(devices)| && old(devices)[i].name == deviceName ==>
        r == Success(()) && devices == old(devices)[i := TurnedOff(old(devices)[i])]
    {
      var found := Find(Names(devices), deviceName);
      if found.None? {
        return Failure(DeviceNameDoesNotExist(deviceName));
      }
      var i := found.value;
      KeysUpdate(devices, NameOf, i, TurnedOff(devices[i]));
      devices := devices[i := TurnedOff(devices[i])];
      r := Success(());
    }

    /** `Display for Room` (also `get_report`): the name, then every device report run
        together in insertion order; `draws(i)` is the draw of the i-th device. */
    function Report(draws: nat -> Sample): (r: string)
      reads this
      ensures var head := "Room name: " + name + "\n\tdevices: [\n";
        |r| >= |head| + 2 && r[..|head|] == head && r[|r| - 2..] == "]\n"
      ensures devices == [] ==> r == "Room name: " + name + "\n\tdevices: [\n]\n"
    {
      var reports := seq(|devices|, i requires 0 <= i < |devices| reads this =>
        Lesson8Devices.Report(devices[i], draws(i)));
      "Room name: " + name + "\n\tdevices: [\n" + Join(reports, "") + "]\n"
    }
  }
}
