/** The device capability shared by the registry and the servers: an on/off state with its
    rendering, device records of a closed set of kinds, and the (device, room) locator. */
module DeviceModel {
  import opened Keyed

  datatype DeviceState = On | Off

  /** `#[derive(Default)]` with `#[default] Off`. */
  function DefaultState(): (s: DeviceState)
    ensures s == Off
  {
    Off
  }

  /** `Display for DeviceState`. The two renderings differ, so the state can be read back. */
  function StateName(s: DeviceState): (r: string)
    ensures s == On <==> r == "On"
    ensures s == Off <==> r == "Off"
  {
    match s
    case On => "On"
    case Off => "Off"
  }

  /** The kinds of device the registry holds. */
  datatype Kind = Socket | Thermometer

  /** A device as the registry owns it: its kind, its name (fixed at creation) and its state. */
  datatype Device = Device(kind: Kind, name: string, state: DeviceState)

  function NameOf(d: Device): string {
    d.name
  }

  /** The names of a list of devices, in order. */
  function Names(ds: seq<Device>): seq<string> {
    Keys(ds, NameOf)
  }

  /** `Socket::new(name)` / `Thermometer::new(name)`: a device that starts in the default state. */
  function NewDevice(kind: Kind, name: string): (d: Device)
    ensures d.kind == kind && d.name == name && d.state == DefaultState()
  {
    Device(kind, name, DefaultState())
  }

  /** `Device::turn_on`: the state becomes On; nothing else about the device changes. */
  function TurnedOn(d: Device): (r: Device)
    ensures r.state == On && r.name == d.name && r.kind == d.kind
  {
    d.(state := On)
  }

  /** `Device::turn_off`: the state becomes Off; nothing else about the device changes. */
  function TurnedOff(d: Device): (r: Device)
    ensures r.state == Off && r.name == d.name && r.kind == d.kind
  {
    d.(state := Off)
  }

  /** Switching is idempotent and the last switch wins. */
  lemma SwitchingIdempotent(d: Device)
    ensures TurnedOn(TurnedOn(d)) == TurnedOn(d) && TurnedOff(TurnedOff(d)) == TurnedOff(d)
    ensures TurnedOn(TurnedOff(d)) == TurnedOn(d) && TurnedOff(TurnedOn(d)) == TurnedOff(d)
  {
  }

  /** `DeviceInfo`: the locator of a device, device name first. */
  datatype DeviceInfo = DeviceInfo(deviceName: string, roomName: string)

  /** `DeviceInfo::new(device_name, room_name)` */
  function NewDeviceInfo(deviceName: string, roomName: string): (info: DeviceInfo)
    ensures info.deviceName == deviceName && info.roomName == roomName
  {
    DeviceInfo(deviceName, roomName)
  }
}
