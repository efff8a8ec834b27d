/** The first smart socket and thermometer: a socket with an optional description, an on/off
    state and a power reading it stores, and a thermometer that stores what it calculates. */
module Lesson4 {
  import opened Wrappers

  datatype WorkingState = On | Off

  /** What `calculate_power` reports, in watts. */
  const CalculatedPower := 10
  /** What `internal_calculate_temperature` reports, in degrees. */
  const CalculatedTemperature := 22

  class SmartSocket {
    var description: Option<string>
    var state: WorkingState
    var power: nat

    /** The stored power is the initial 0 or the last reading taken. */
    ghost predicate Valid()
      reads this
    {
      power == 0 || power == CalculatedPower
    }

    /** `SmartSocket::new`: described, Off, no power. */
    constructor (description: string)
      ensures this.description == Some(description) && state == Off && power == 0
      ensures Valid()
    {
      this.description := Some(description);
      state := Off;
      power := 0;
    }

    /** `SmartSocket::default()`: no description, and the default state and power. */
    constructor Default()
      ensures description == None && state == Off && power == 0
      ensures Valid()
    {
      description := None;
      state := Off;
      power := 0;
    }

    /** `get_power`: while On the power is calculated, stored and returned; while Off there is
        no reading and the stored power is kept. */
    method GetPower() returns (p: Option<nat>)
      requires Valid()
      modifies this
      ensures Valid()
      ensures old(state) == On ==> p == Some(CalculatedPower) && power == CalculatedPower
      ensures old(state) == Off ==> p == None && power == old(power)
      ensures p.Some? <==> state == On
      ensures state == old(state) && description == old(description)
    {
      match state {
        case On =>
          power := CalculatedPower;
          p := Some(power);
        case Off =>
          p := None;
      }
    }

    /** `turn_on`: the state becomes On, the rest is kept; turning on twice is turning on once. */
    method TurnOn()
      requires Valid()
      modifies this
      ensures Valid()
      ensures state == On && description == old(description) && power == old(power)
    {
      state := On;
    }

    /** `turn_off`: the state becomes Off, the rest is kept. */
    method TurnOff()
      requires Valid()
      modifies this
      ensures Valid()
      ensures state == Off && description == old(description) && power == old(power)
    {
      state := Off;
    }

    /** `get_state`: the current state, nothing changed. The next `get_power` reads exactly
        when it is On. */
    method GetState() returns (s: WorkingState)
      ensures s == state
    {
      s := state;
    }
  }

  class Thermometer {
    var temperature: int

    /** `Thermometer::default()`: 0 degrees until the first calculation. */
    constructor Default()
      ensures temperature == 0
    {
      temperature := 0;
    }

    /** `calculate_temperature`: the calculated temperature is stored and returned. */
    method CalculateTemperature() returns (t: int)
      modifies this
      ensures t == CalculatedTemperature && temperature == t
    {
      temperature := CalculatedTemperature;
      t := temperature;
    }
  }
}
