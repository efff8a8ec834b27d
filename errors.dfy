/** The registry's error values (`RoomErrors`, `HomeErrors`), the conversion between them and
    their messages. */
module Errors {

  /** Failures reported by a room. */
  datatype RoomErrors = DeviceNameExists(name: string) | DeviceNameDoesNotExist(name: string)

  /** Failures reported by a home; a room's failure is wrapped, so the two levels stay apart. */
  datatype HomeErrors =
    | RoomNameExists(name: string)
    | RoomNameDoesNotExist(name: string)
    | InternalError(cause: RoomErrors)

  /** `From<RoomErrors> for HomeErrors` */
  function FromRoomErrors(e: RoomErrors): (h: HomeErrors)
    ensures h.InternalError? && h.cause == e
  {
    InternalError(e)
  }

  const DevicePrefix := "Device with name "
  const RoomPrefix := "Room with name "

  /** `Display for RoomErrors` */
  function RoomErrorMessage(e: RoomErrors): (m: string)
    ensures e.DeviceNameExists? ==> m == "Device with name " + e.name + " already exists!"
    ensures e.DeviceNameDoesNotExist? ==> m == "Device with name " + e.name + " does not exist"
  {
    DevicePrefix +
    match e
    case DeviceNameExists(n) => n + " " + "already exists!"
    case DeviceNameDoesNotExist(n) => n + " " + "does not exist"
  }

  /** `Display for HomeErrors`: a wrapped room error displays exactly as the room error. */
  function HomeErrorMessage(e: HomeErrors): (m: string)
    ensures e.InternalError? ==> m == RoomErrorMessage(e.cause)
    ensures e.RoomNameExists? ==> m == "Room with name " + e.name + " already exists!"
    ensures e.RoomNameDoesNotExist? ==> m == "Room with name " + e.name + " does not exist!"
  {
    match e
    case InternalError(value) => RoomErrorMessage(value)
    case RoomNameExists(name) => RoomPrefix + name + " already exists!"
    case RoomNameDoesNotExist(name) => RoomPrefix + name + " does not exist!"
  }

  /** Converting a room error and displaying it gives the room error's own message. */
  lemma ConvertedMessage(e: RoomErrors)
    ensures HomeErrorMessage(FromRoomErrors(e)) == RoomErrorMessage(e)
  {
  }

  /** Distinct room errors display differently: the last character tells the variant, and the
      length then fixes where the name ends. */
  lemma RoomErrorMessageInjective(a: RoomErrors, b: RoomErrors)
    requires RoomErrorMessage(a) == RoomErrorMessage(b)
    ensures a == b
  {
    var m := RoomErrorMessage(a);
    assert m[|m| - 1] == (if a.DeviceNameExists? then '!' else 't');
    assert m[|m| - 1] == (if b.DeviceNameExists? then '!' else 't');
    assert m[|DevicePrefix|..|DevicePrefix| + |a.name|] == a.name;
    assert m[|DevicePrefix|..|DevicePrefix| + |b.name|] == b.name;
  }

  /** Distinct home errors display differently, so a message tells whether the room lookup or
      the device lookup failed, and for which name. */
  lemma HomeErrorMessageInjective(a: HomeErrors, b: HomeErrors)
    requires HomeErrorMessage(a) == HomeErrorMessage(b)
    ensures a == b
  {
    var m := HomeErrorMessage(a);
    assert m[0] == (if a.InternalError? then 'D' else 'R');
    assert m[0] == (if b.InternalError? then 'D' else 'R');
    if a.InternalError? {
      RoomErrorMessageInjective(a.cause, b.cause);
    } else {
      assert m[|m| - 2] == (if a.RoomNameExists? then 's' else 't');
      assert m[|m| - 2] == (if b.RoomNameExists? then 's' else 't');
      assert m[|RoomPrefix|..|RoomPrefix| + |a.name|] == a.name;
      assert m[|RoomPrefix|..|RoomPrefix| + |b.name|] == b.name;
    }
  }
}
