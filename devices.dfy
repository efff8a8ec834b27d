/** The registry's two device kinds and their reports: a socket that measures power and a
    thermometer that measures temperature while On. The random generator is a parameter. */
module Lesson8Devices {
  import opened Wrappers
  import opened Text
  import opened DeviceModel

  /** One draw of the random generator for each kind of measurement. */
  datatype Sample = Sample(power: nat, temperature: int)

  /** The ranges `gen_range(1..100)` and `gen_range(-30..40)` draw from. */
  predicate ValidSample(s: Sample) {
    1 <= s.power < 100 && -30 <= s.temperature < 40
  }

  /** `Socket::measure_power`: 0 while Off, the drawn power while On. */
  function MeasurePower(d: Device, s: Sample): (p: nat)
    ensures d.state == Off ==> p == 0
    ensures d.state == On && ValidSample(s) ==> 1 <= p < 100
  {
    match d.state
    case On => s.power
    case Off => 0
  }

  /** `Thermometer::measure_temperature`: 0 while Off, the drawn temperature while On. */
  function MeasureTemperature(d: Device, s: Sample): (t: int)
    ensures d.state == Off ==> t == 0
    ensures d.state == On && ValidSample(s) ==> -30 <= t < 40
  {
    match d.state
    case On => s.temperature
    case Off => 0
  }

  /** The label both kinds print before the name (the thermometer says "Socket" too). */
  const NameLabel := "Socket name: "
  const StateLabel := "\nstate: "
  const PowerLabel := "\ncurrent power: "
  const TemperatureLabel := "\ncurrent temperature: "

  /** `Display` of a device, which is also its `get_report`: the name, the state, and the drawn
      measurement while On or 0 while Off. */
  function Report(d: Device, s: Sample): (r: string)
    ensures d.kind == Socket && d.state == On ==>
      r == NameLabel + d.name + (StateLabel + "On" + (PowerLabel + NatToString(s.power)))
    ensures d.kind == Socket && d.state == Off ==>
      r == NameLabel + d.name + (StateLabel + "Off" + (PowerLabel + "0"))
    ensures d.kind == Thermometer && d.state == On ==>
      r == NameLabel + d.name + (StateLabel + "On" + (TemperatureLabel + IntToString(s.temperature)))
    ensures d.kind == Thermometer && d.state == Off ==>
      r == NameLabel + d.name + (StateLabel + "Off" + (TemperatureLabel + "0"))
  {
    NameLabel + d.name + ReportTail(d, s)
  }

  /** What a report prints after the name: the state, then the measurement. */
  function ReportTail(d: Device, s: Sample): string {
    StateLabel + StateName(d.state) +
    match d.kind
    case Socket => PowerLabel + NatToString(MeasurePower(d, s))
    case Thermometer => TemperatureLabel + IntToString(MeasureTemperature(d, s))
  }

  /** In a report, the name is followed by the first newline after the label. */
  lemma ReportNameEnd(d: Device, s: Sample)
    requires '\n' !in d.name
    ensures FindFrom(Report(d, s), "\n", |NameLabel|) == Some(|NameLabel| + |d.name|)
  {
    NameEnd(NameLabel, d.name, ReportTail(d, s));
  }

  /** After a lead, a newline-free name runs up to the first newline. */
  lemma NameEnd(lead: string, name: string, tail: string)
    requires forall i :: 0 <= i < |name| ==> name[i] != '\n'
    requires tail != [] && tail[0] == '\n'
    ensures FindFrom(lead + name + tail, "\n", |lead|) == Some(|lead| + |name|)
  {
    var r, k := lead + name + tail, |lead| + |name|;
    assert r[k] == tail[0];
    NewlineAt(r, k);
    forall j | |lead| <= j < k ensures r[j] != '\n' {
      assert r[j] == name[j - |lead|];
    }
    NoNewlineBetween(r, |lead|, k);
    FindFromAt(r, "\n", |lead|, k);
  }

  lemma NewlineAt(r: string, k: nat)
    requires k < |r| && r[k] == '\n'
    ensures OccursAt(r, "\n", k)
  {
    assert r[k..k + 1] == [r[k]];
  }

  lemma NoNewlineBetween(r: string, lo: nat, hi: nat)
    requires hi <= |r| && forall j :: lo <= j < hi ==> r[j] != '\n'
    ensures forall j: nat :: lo <= j < hi ==> !OccursAt(r, "\n", j)
  {
    forall j: nat | lo <= j < hi ensures !OccursAt(r, "\n", j) {
      assert r[j..j + 1][0] == r[j];
    }
  }

  /** A report tells the device's name and state: two devices with newline-free names and the
      same report have the same name and the same state, whatever was measured. */
  lemma ReportDeterminesNameAndState(d1: Device, s1: Sample, d2: Device, s2: Sample)
    requires '\n' !in d1.name && '\n' !in d2.name
    requires Report(d1, s1) == Report(d2, s2)
    ensures d1.name == d2.name && d1.state == d2.state
  {
    ReportNameEnd(d1, s1);
    ReportNameEnd(d2, s2);
    LabelledParts(d1.name, ReportTail(d1, s1));
    LabelledParts(d2.name, ReportTail(d2, s2));
    TailState(d1, s1);
    TailState(d2, s2);
  }

  /** A labelled name splits back into its name and what follows it. */
  lemma LabelledParts(name: string, tail: string)
    ensures var r, k := NameLabel + name + tail, |NameLabel| + |name|;
      r[|NameLabel|..k] == name && r[k..] == tail
  {
  }

  /** The second letter of the state name, which tells `On` from `Off`, follows the newline and
      `state: ` after the name. */
  lemma TailState(d: Device, s: Sample)
    ensures |ReportTail(d, s)| > 9 && ReportTail(d, s)[9] == (if d.state == On then 'n' else 'f')
  {
    var t := ReportTail(d, s);
    assert t[9] == ("\nstate: " + StateName(d.state))[9];
  }
}
