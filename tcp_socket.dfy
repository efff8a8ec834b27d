/** The HTTP server's example socket: its power reading is optional, and its report ends with a
    newline. The random draw is a parameter. */
module TcpSocket {
  import opened Wrappers
  import opened Text
  import opened DeviceModel
  import Lesson8Devices

  /** `Socket::measure_power`: nothing while Off, the drawn power while On. */
  function MeasurePower(d: Device, draw: nat): (r: Option<nat>)
    ensures r.Some? <==> d.state == On
    ensures r.Some? ==> r.value == draw
  {
    match d.state
    case On => Some(draw)
    case Off => None
  }

  /** The range `gen_range(1..100)` draws from. */
  predicate ValidDraw(draw: nat) {
    1 <= draw < 100
  }

  /** A reading, when there is one, lies in the generator's range. */
  lemma MeasurePowerRange(d: Device, draw: nat)
    requires ValidDraw(draw)
    ensures MeasurePower(d, draw).Some? ==> 1 <= MeasurePower(d, draw).value < 100
    ensures MeasurePower(d, draw).GetOr(0) == 0 <==> d.state == Off
  {
  }

  /** The report's three lines before the final newline. */
  function ReportLines(d: Device, draw: nat): (r: string)
    ensures d.state == Off ==> r == "Socket name: " + d.name + "\nstate: Off\ncurrent power: 0"
  {
    "Socket name: " + d.name + "\nstate: " + StateName(d.state)
    + "\ncurrent power: " + NatToString(MeasurePower(d, draw).GetOr(0))
  }

  /** `Display for Socket`, which is also its `get_report`: a missing reading shows as 0, and the
      report ends with a newline. */
  function Report(d: Device, draw: nat): (r: string)
    ensures d.state == Off ==>
      r == "Socket name: " + d.name + "\nstate: Off\ncurrent power: 0\n"
    ensures r != [] && r[|r| - 1] == '\n'
  {
    ReportLines(d, draw) + "\n"
  }

  /** The report is the registry socket's report, with the same draw, plus a final newline. */
  lemma ReportExtendsRegistry(d: Device, draw: nat)
    requires d.kind == Socket
    ensures Report(d, draw) == Lesson8Devices.Report(d, Lesson8Devices.Sample(draw, 0)) + "\n"
  {
    assert MeasurePower(d, draw).GetOr(0)
      == Lesson8Devices.MeasurePower(d, Lesson8Devices.Sample(draw, 0));
  }

  /** So a report tells the socket's name and state, whatever was drawn. */
  lemma ReportDeterminesNameAndState(d1: Device, draw1: nat, d2: Device, draw2: nat)
    requires d1.kind == Socket && d2.kind == Socket
    requires '\n' !in d1.name && '\n' !in d2.name
    requires Report(d1, draw1) == Report(d2, draw2)
    ensures d1.name == d2.name && d1.state == d2.state
  {
    var s1, s2 := Lesson8Devices.Sample(draw1, 0), Lesson8Devices.Sample(draw2, 0);
    ReportExtendsRegistry(d1, draw1);
    ReportExtendsRegistry(d2, draw2);
    var r1, r2 := Lesson8Devices.Report(d1, s1), Lesson8Devices.Report(d2, s2);
    assert r1 == (r1 + "\n")[..|r1|];
    assert r2 == (r2 + "\n")[..|r2|];
    Lesson8Devices.ReportDeterminesNameAndState(d1, s1, d2, s2);
  }
}
