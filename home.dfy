/** A home: a name and an ordered list of rooms whose names are distinct. Every
    operation on a device first finds the room by name and then defers to it. */
module Homes {
  import opened Wrappers
  import opened Text
  import opened Keyed
  import opened DeviceModel
  import opened Lesson8Devices
  import opened Errors
  import opened Rooms

  function RoomName(r: Room): string { r.name }

  function RoomNames(rooms: seq<Room>): seq<string> { Keys(rooms, RoomName) }

  /** Rooms with distinct names are distinct objects. */
  lemma DistinctRoomObjects(rooms: seq<Room>, a: nat, b: nat)
    requires Distinct(RoomNames(rooms)) && a < |rooms| && b < |rooms| && a != b
    ensures rooms[a] != rooms[b]
  {
    assert RoomNames(rooms)[a] == rooms[a].name && RoomNames(rooms)[b] == rooms[b].name;
  }

  class Home {
    /** `Home::name`: set by `Home::new` and never changed. */
    const name: string
    var rooms: seq<Room>

    /** Room names are distinct and every room keeps its own invariant. */
    ghost predicate Valid()
      reads this, rooms
    {
      && Distinct(RoomNames(rooms))
      && forall i :: 0 <= i < |rooms| ==> rooms[i].Valid()
    }

    /** `Home::new`: a home with no rooms. */
    constructor (name: string)
      ensures this.name == name && rooms == [] && Valid()
    {
      this.name := name;
      rooms := [];
    }

    /** `Home::add_room`: a taken name is refused and nothing changes; otherwise a new
        empty room is appended. */
    method AddRoom(roomName: string) returns (r: Result<(), HomeErrors>)
      requires Valid()
      modifies this
      ensures Valid()
      ensures roomName in old(RoomNames(rooms)) ==>
        r == Failure(RoomNameExists(roomName)) && rooms == old(rooms)
      ensures roomName !in old(RoomNames(rooms)) ==>
        && r == Success(())
        && |rooms| == |old(rooms)| + 1 && rooms[..|old(rooms)|] == old(rooms)
        && fresh(rooms[|old(rooms)|])
        && rooms[|old(rooms)|].name == roomName && rooms[|old(rooms)|].devices == []
        && RoomNames(rooms) == old(RoomNames(rooms)) + [roomName]
    {
      if roomName in RoomNames(rooms) {
        return Failure(RoomNameExists(roomName));
      }
      var room := new Room(roomName);
      DistinctAppend(rooms, RoomName, room);
      rooms := rooms + [room];
      r := Success(());
    }

    /** `Home::remove_room`: the named room is removed and the others keep their order;
        an absent name is an error and nothing changes. */
    method RemoveRoom(roomName: string) returns (r: Result<(), HomeErrors>)
      requires Valid()
      modifies this
      ensures Valid()
      ensures roomName !in old(RoomNames(rooms)) ==>
        r == Failure(RoomNameDoesNotExist(roomName)) && rooms == old(rooms)
      ensures forall i :: 0 <= i < |old(rooms)| && old(rooms)[i].name == roomName ==>
        r == Success(()) && rooms == old(rooms)[..i] + old(rooms)[i + 1..]
    {
      if roomName in RoomNames(rooms) {
        var i := Find(RoomNames(rooms), roomName).value;
        WithoutAt(rooms, RoomName, i);
        DistinctRemove(rooms, RoomName, i);
        rooms := Without(rooms, RoomName, roomName);
        assert forall k :: 0 <= k < |rooms| ==> rooms[k] in old(rooms);
        return Success(());
      }
      r := Failure(RoomNameDoesNotExist(roomName));
    }

    /** The index of the room named `roomName`, after proving the other rooms are
        different objects. */
    method Locate(roomName: string) returns (found: Option<nat>)
      requires Valid()
      ensures roomName !in RoomNames(rooms) <==> found.None?
      ensures found.Some? ==> found.value < |rooms| && rooms[found.value].name == roomName
      ensures found.Some? ==> forall k :: 0 <= k < |rooms| && k != found.value ==>
        rooms[k] != rooms[found.value] && rooms[k].name != roomName
    {
      found := Find(RoomNames(rooms), roomName);
      if found.Some? {
        var j := found.value;
        forall k | 0 <= k < |rooms| && k != j
          ensures rooms[k] != rooms[j] && rooms[k].name != roomName
        {
          DistinctRoomObjects(rooms, k, j);
          assert RoomNames(rooms)[k] == rooms[k].name;
        }
      }
    }

    /** `Home::add_device`: the room is looked up by name and the device is added to it;
        a room error comes back wrapped as `InternalError`. No other room changes. */
    method AddDevice(roomName: string, device: Device) returns (r: Result<(), HomeErrors>)
      requires Valid()
      modifies rooms
      ensures Valid() && rooms == old(rooms)
      ensures forall k :: 0 <= k < |rooms| && rooms[k].name != roomName ==>
        rooms[k].devices == old(rooms[k].devices)
      ensures roomName !in RoomNames(rooms) ==> r == Failure(RoomNameDoesNotExist(roomName))
      ensures forall k :: 0 <= k < |rooms| && rooms[k].name == roomName ==>
        if device.name in old(Names(rooms[k].devices))
        then r == Failure(InternalError(DeviceNameExists(device.name)))
          && rooms[k].devices == old(rooms[k].devices)
        else r == Success(()) && rooms[k].devices == old(rooms[k].devices) + [device]
    {
      var found := Locate(roomName);
      if found.None? {
        return Failure(RoomNameDoesNotExist(roomName));
      }
      var room := rooms[found.value];
      var res := room.AddDevice(device);
      r := res.MapFailure(FromRoomErrors);
    }

    /** `Home::remove_device`: the room is looked up by name and the device removed from
        it; a room error comes back wrapped as `InternalError`. No other room changes. */
    method RemoveDevice(info: DeviceInfo) returns (r: Result<(), HomeErrors>)
      requires Valid()
      modifies rooms
      ensures Valid() && rooms == old(rooms)
      ensures forall k :: 0 <= k < |rooms| && rooms[k].name != info.roomName ==>
        rooms[k].devices == old(rooms[k].devices)
      ensures info.roomName !in RoomNames(rooms) ==>
        r == Failure(RoomNameDoesNotExist(info.roomName))
      ensures forall k :: 0 <= k < |rooms| && rooms[k].name == info.roomName ==>
        && (info.deviceName !in old(Names(rooms[k].devices)) ==>
             r == Failure(InternalError(DeviceNameDoesNotExist(info.deviceName)))
             && rooms[k].devices == old(rooms[k].devices))
        && (forall i :: 0 <= i < |old(rooms[k].devices)| && old(rooms[k].devices)[i].name == info.deviceName ==>
             r == Success(())
             && rooms[k].devices == old(rooms[k].devices)[..i] + old(rooms[k].devices)[i + 1..])
    {
      var found := Locate(info.roomName);
      if found.None? {
        return Failure(RoomNameDoesNotExist(info.roomName));
      }
      var room := rooms[found.value];
      var res := room.RemoveDevice(info.deviceName);
      r := res.MapFailure(FromRoomErrors);
    }

    /** `Home::turn_on`: only the named device of the named room changes, and it becomes On. */
    method TurnOn(info: DeviceInfo) returns (r: Result<(), HomeErrors>)
      requires Valid()
      modifies rooms
      ensures Valid() && rooms == old(rooms)
      ensures forall k :: 0 <= k < |rooms| && rooms[k].name != info.roomName ==>
        rooms[k].devices == old(rooms[k].devices)
      ensures info.roomName !in RoomNames(rooms) ==>
        r == Failure(RoomNameDoesNotExist(info.roomName))
      ensures forall k :: 0 <= k < |rooms| && rooms[k].name == info.roomName ==>
        && (info.deviceName !in old(Names(rooms[k].devices)) ==>
             r == Failure(InternalError(DeviceNameDoesNotExist(info.deviceName)))
             && rooms[k].devices == old(rooms[k].devices))
        && (forall i :: 0 <= i < |old(rooms[k].devices)| && old(rooms[k].devices)[i].name == info.deviceName ==>
             r == Success(())
             && rooms[k].devices == old(rooms[k].devices)[i := TurnedOn(old(rooms[k].devices)[i])])
    {
      var found := Locate(info.roomName);
      if found.None? {
        return Failure(RoomNameDoesNotExist(info.roomName));
      }
      var room := rooms[found.value];
      var res := room.TurnOn(info.deviceName);
      r := res.MapFailure(FromRoomErrors);
    }

    /** `Home::turn_off`: only the named device of the named room changes, and it becomes Off. */
    method TurnOff(info: DeviceInfo) returns (r: Result<(), HomeErrors>)
      requires Valid()
      modifies rooms
      ensures Valid() && rooms == old(rooms)
      ensures forall k :: 0 <= k < |rooms| && rooms[k].name != info.roomName ==>
        rooms[k].devices == old(rooms[k].devices)
      ensures info.roomName !in RoomNames(rooms) ==>
        r == Failure(RoomNameDoesNotExist(info.roomName))
      ensures forall k :: 0 <= k < |rooms| && rooms[k].name == info.roomName ==>
        && (info.deviceName !in old(Names(rooms[k].devices)) ==>
             r == Failure(InternalError(DeviceNameDoesNotExist(info.deviceName)))
             && rooms[k].devices == old(rooms[k].devices))
        && (forall i :: 0 <= i < |old(rooms[k].devices)| && old(rooms[k].devices)[i].name == info.deviceName ==>
             r == Success(())
             && rooms[k].devices == old(rooms[k].devices)[i := TurnedOff(old(rooms[k].devices)[i])])
    {
      var found := Locate(info.roomName);
      if found.None? {
        return Failure(RoomNameDoesNotExist(info.roomName));
      }
      var room := rooms[found.value];
      var res := room.TurnOff(info.deviceName);
      r := res.MapFailure(FromRoomErrors);
    }

    /** `Home::get_room_names`: the room names in insertion order. */
    function GetRoomNames(): (names: seq<string>)
      reads this, rooms
      ensures |names| == |rooms|
      ensures forall i :: 0 <= i < |rooms| ==> names[i] == rooms[i].name
    {
      RoomNames(rooms)
    }

    /** `Home::get_device_report`: a missing room is `RoomNameDoesNotExist`; otherwise the
        room's answer, its error wrapped as `InternalError`. */
    function GetDeviceReport(info: DeviceInfo, sample: Sample): (r: Result<string, HomeErrors>)
      reads this, rooms
      ensures info.roomName !in RoomNames(rooms) ==>
        r == Failure(RoomNameDoesNotExist(info.roomName))
      ensures Valid() ==> forall k :: 0 <= k < |rooms| && rooms[k].name == info.roomName ==>
        && (info.deviceName !in Names(rooms[k].devices) ==>
             r == Failure(InternalError(DeviceNameDoesNotExist(info.deviceName))))
        && (forall i :: 0 <= i < |rooms[k].devices| && rooms[k].devices[i].name == info.deviceName ==>
             r == Success(Lesson8Devices.Report(rooms[k].devices[i], sample)))
    {
      match Find(RoomNames(rooms), info.roomName)
      case None => Failure(RoomNameDoesNotExist(info.roomName))
      case Some(j) => rooms[j].GetDeviceReport(info.deviceName, sample).MapFailure(FromRoomErrors)
    }

    /** `Home::get_devices_report`: one answer per request, in request order; `draws(k)`
        is the draw used for the k-th request. */
    function GetDevicesReport(infos: seq<DeviceInfo>, draws: nat -> Sample)
      : (rs: seq<Result<string, HomeErrors>>)
      reads this, rooms
      ensures |rs| == |infos|
      ensures forall k :: 0 <= k < |infos| ==> rs[k] == GetDeviceReport(infos[k], draws(k))
    {
      seq(|infos|, k requires 0 <= k < |infos| reads this, rooms =>
        GetDeviceReport(infos[k], draws(k)))
    }

    /** `Home::get_devices_in_room`: the device names of the named room. */
    function GetDevicesInRoom(roomName: string): (r: Result<seq<string>, HomeErrors>)
      reads this, rooms
      ensures roomName !in RoomNames(rooms) ==> r == Failure(RoomNameDoesNotExist(roomName))
      ensures Valid() ==> forall k :: 0 <= k < |rooms| && rooms[k].name == roomName ==>
        r == Success(Names(rooms[k].devices))
    {
      match Find(RoomNames(rooms), roomName)
      case None => Failure(RoomNameDoesNotExist(roomName))
      case Some(j) => Success(rooms[j].GetDevices())
    }

    /** `Display for Home` (also `get_home_report`): the name, then every room report run
        together in insertion order; `draws(i)` feeds the devices of the i-th room. */
    function Report(draws: nat -> nat -> Sample): (r: string)
      reads this, rooms
      ensures var head := "Home name: " + name + "\nrooms: [\n";
        |r| >= |head| + 1 && r[..|head|] == head && r[|r| - 1] == ']'
      ensures rooms == [] ==> r == "Home name: " + name + "\nrooms: [\n]"
    {
      var reports := seq(|rooms|, i requires 0 <= i < |rooms| reads this, rooms =>
        rooms[i].Report(draws(i)));
      "Home name: " + name + "\nrooms: [\n" + Join(reports, "") + "]"
    }
  }
}
