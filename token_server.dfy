/** The one-line device server: it owns a list of devices with distinct names and answers one
    request per connection. A device's `Display` text, which this server sends but does not
    define, is the parameter `show`. */
module TokenServer {
  import opened Wrappers
  import opened Text
  import opened Keyed
  import opened DeviceModel
  import Rq = TokenRequest
  import opened TokenResponse

  const NamesSep := ", "
  const StatusSep := ";;;"

  /** The reason given for a request naming an unknown device. */
  function NotFound(n: string): string {
    "Device with name '" + n + "' does not exist"
  }

  /** The reply to a request the parser turned into `Request::Error`: the parser's reason is
      passed on to the client. */
  function CatchAll(reason: string): (r: Response)
    ensures r.Error? && r.reason == reason
  {
    Error(reason)
  }

  /** The catch-all arm as written: every `Request::Error` is answered with an empty reason. */
  function CatchAllAsWritten(reason: string): (r: Response)
    ensures r.Error? && r.reason == ""
  {
    Error("")
  }

  /** The reply the server sends for `req` when it holds `ds`. The empty-list special cases of
      the listing commands agree with joining nothing. */
  function Answer(ds: seq<Device>, req: Rq.Request, show: Device -> string): (r: Response)
    ensures req.GetDeviceNames? ==> r == Ok(Some(Join(Names(ds), NamesSep)))
    ensures req.StatusAll? ==> r == Ok(Some(Join(Keys(ds, show), StatusSep)))
    ensures (req.StatusDevice? || req.TurnOn? || req.TurnOff?) ==>
      (r.Error? <==> req.deviceName !in Names(ds))
      && (r.Error? ==> r.reason == NotFound(req.deviceName))
    ensures (req.TurnOn? || req.TurnOff?) && r.Ok? ==> r.result.None?
    ensures req.StatusDevice? && Distinct(Names(ds)) ==>
      forall i :: 0 <= i < |ds| && ds[i].name == req.deviceName ==> r == Ok(Some(show(ds[i])))
    ensures req.Error? ==> r == Error(req.reason)
  {
    match req
    case GetDeviceNames =>
      if ds == [] then Ok(Some("")) else Ok(Some(Join(Names(ds), NamesSep)))
    case StatusAll =>
      if ds == [] then Ok(Some("")) else Ok(Some(Join(Keys(ds, show), StatusSep)))
    case StatusDevice(n) =>
      (match Find(Names(ds), n)
       case Some(i) => Ok(Some(show(ds[i])))
       case None => Error(NotFound(n)))
    case TurnOn(n) =>
      if n in Names(ds) then Ok(None) else Error(NotFound(n))
    case TurnOff(n) =>
      if n in Names(ds) then Ok(None) else Error(NotFound(n))
    case Error(reason) => CatchAll(reason)
  }

  /** `Answer` with the catch-all arm as written. */
  function AnswerAsWritten(ds: seq<Device>, req: Rq.Request, show: Device -> string): (r: Response)
    ensures !req.Error? ==> r == Answer(ds, req, show)
    ensures req.Error? ==> r == CatchAllAsWritten(req.reason)
  {
    if req.Error? then CatchAllAsWritten(req.reason) else Answer(ds, req, show)
  }

  /** As written, a client sending a switch or status command without a name (`turn_on`, say)
      is told nothing about why; the corrected catch-all passes the parser's reason on. */
  lemma CatchAllDropsReason(ds: seq<Device>, show: Device -> string, command: string)
    requires Rq.Targeted(command)
    ensures var req := Rq.ParseRequest(command + "\n").value;
      && Render(AnswerAsWritten(ds, req, show)) == "Error::\n"
      && Render(Answer(ds, req, show)) == "Error::" + Rq.NoDeviceName + "\n"
  {
    Rq.ParseMissingName(command);
  }

  /** The devices after serving `req`: a switch changes the first device with that name and
      nothing else; every other request leaves the devices alone. */
  function Apply(ds: seq<Device>, req: Rq.Request): (r: seq<Device>)
    ensures Names(r) == Names(ds)
    ensures !(req.TurnOn? || req.TurnOff?) ==> r == ds
    ensures (req.TurnOn? || req.TurnOff?) && req.deviceName !in Names(ds) ==> r == ds
    ensures (req.TurnOn? || req.TurnOff?) && Distinct(Names(ds)) ==>
      forall i :: 0 <= i < |ds| && ds[i].name == req.deviceName ==>
        r == ds[i := if req.TurnOn? then TurnedOn(ds[i]) else TurnedOff(ds[i])]
  {
    match req
    case TurnOn(n) =>
      (match Find(Names(ds), n)
       case Some(i) =>
         KeysUpdate(ds, NameOf, i, TurnedOn(ds[i]));
         ds[i := TurnedOn(ds[i])]
       case None => ds)
    case TurnOff(n) =>
      (match Find(Names(ds), n)
       case Some(i) =>
         KeysUpdate(ds, NameOf, i, TurnedOff(ds[i]));
         ds[i := TurnedOff(ds[i])]
       case None => ds)
    case _ => ds
  }

  /** Switching a device twice leaves it as the second switch put it, whatever the first did. */
  lemma LastSwitchWins(ds: seq<Device>, n: string, first: bool, second: bool)
    requires Distinct(Names(ds))
    ensures var a := if first then Rq.TurnOn(n) else Rq.TurnOff(n);
      var b := if second then Rq.TurnOn(n) else Rq.TurnOff(n);
      Apply(Apply(ds, a), b) == Apply(ds, b)
  {
    var a := if first then Rq.TurnOn(n) else Rq.TurnOff(n);
    var b := if second then Rq.TurnOn(n) else Rq.TurnOff(n);
    match Find(Names(ds), n)
    case None =>
    case Some(i) =>
      var once := Apply(ds, a);
      assert once[i].name == n;
      assert once == ds[i := once[i]];
      assert Apply(once, b) == once[i := if second then TurnedOn(once[i]) else TurnedOff(once[i])];
  }

  /** The device listing can be split back into the names when no name contains the separator
      and none ends in one of its characters. */
  lemma NamesRecoverable(ds: seq<Device>)
    requires |ds| >= 1
    requires forall i :: 0 <= i < |ds| ==>
      !Contains(ds[i].name, NamesSep)
      && (ds[i].name == [] || ds[i].name[|ds[i].name| - 1] !in NamesSep)
    ensures Split(Answer(ds, Rq.GetDeviceNames, (d: Device) => "").result.value, NamesSep) == Names(ds)
  {
    SplitJoinClean(Names(ds), NamesSep);
  }

  /** The status listing can be split back into one report per device, in order, on the same
      conditions for the reports. */
  lemma StatusRecoverable(ds: seq<Device>, show: Device -> string)
    requires |ds| >= 1
    requires forall i :: 0 <= i < |ds| ==>
      !Contains(show(ds[i]), StatusSep)
      && (show(ds[i]) == [] || show(ds[i])[|show(ds[i])| - 1] !in StatusSep)
    ensures var parts := Split(Answer(ds, Rq.StatusAll, show).result.value, StatusSep);
      |parts| == |ds| && forall i :: 0 <= i < |ds| ==> parts[i] == show(ds[i])
  {
    SplitJoinClean(Keys(ds, show), StatusSep);
  }

  /** The devices after a sequence of request lines, served in order. */
  function Replay(ds: seq<Device>, lines: seq<string>): (r: seq<Device>)
    ensures Names(r) == Names(ds)
    decreases |lines|
  {
    if lines == [] then ds
    else Apply(Replay(ds, lines[..|lines| - 1]), Rq.ParseRequest(lines[|lines| - 1]).value)
  }

  /** The reply line to one request line. */
  function Reply(ds: seq<Device>, line: string, show: Device -> string): string {
    Render(Answer(ds, Rq.ParseRequest(line).value, show))
  }

  /** The reply line to one request line, with the catch-all arm as written. */
  function ReplyAsWritten(ds: seq<Device>, line: string, show: Device -> string): string {
    Render(AnswerAsWritten(ds, Rq.ParseRequest(line).value, show))
  }

  /** The corrected reply differs from the one as written only on lines the parser turns into
      an error: there the source sends "Error::\n" and the corrected server passes the reason
      on. The effect on the devices is the same either way. */
  lemma ReplyAgreesExceptErrors(ds: seq<Device>, line: string, show: Device -> string)
    ensures var req := Rq.ParseRequest(line).value;
      && (!req.Error? ==> ReplyAsWritten(ds, line, show) == Reply(ds, line, show))
      && (req.Error? ==>
           ReplyAsWritten(ds, line, show) == "Error::\n"
           && Reply(ds, line, show) == "Error::" + req.reason + "\n"
           && Apply(ds, req) == ds)
  {
  }

  /** The replies to a sequence of request lines: each line is answered from the devices the
      lines before it left behind. */
  function Replies(ds: seq<Device>, lines: seq<string>, show: Device -> string): (r: seq<string>)
    ensures |r| == |lines|
    decreases |lines|
  {
    if lines == [] then []
    else
      var before := lines[..|lines| - 1];
      Replies(ds, before, show) + [Reply(Replay(ds, before), lines[|lines| - 1], show)]
  }

  /** Serving one more line appends its reply and applies its effect. */
  lemma ServeStep(ds: seq<Device>, lines: seq<string>, show: Device -> string, i: nat)
    requires i < |lines|
    ensures var before := Replay(ds, lines[..i]);
      && Replies(ds, lines[..i + 1], show) == Replies(ds, lines[..i], show) + [Reply(before, lines[i], show)]
      && Replay(ds, lines[..i + 1]) == Apply(before, Rq.ParseRequest(lines[i]).value)
  {
    assert lines[..i + 1][..i] == lines[..i];
  }

  /** Each line is answered from the devices the lines before it left behind. */
  lemma {:induction false} RepliesAt(ds: seq<Device>, lines: seq<string>, show: Device -> string,
                                     k: nat)
    requires k < |lines|
    ensures Replies(ds, lines, show)[k] == Reply(Replay(ds, lines[..k]), lines[k], show)
    decreases |lines|
  {
    var before := lines[..|lines| - 1];
    if k < |before| {
      RepliesAt(ds, before, show, k);
      assert before[..k] == lines[..k] && before[k] == lines[k];
    } else {
      assert lines[..k] == before;
    }
  }


  class Server {
    /** `address:port`, the address the server listens on. */
    const address: string
    var devices: seq<Device>

    /** No two devices share a name. */
    ghost predicate Valid()
      reads this
    {
      Distinct(Names(devices))
    }

    /** `Server::new`: the port is a `u32`. */
    constructor (address: string, port: nat)
      requires port < 0x1_0000_0000
      ensures this.address == address + ":" + NatToString(port)
      ensures devices == [] && Valid()
    {
      this.address := address + ":" + NatToString(port);
      devices := [];
    }

    /** `Server::add_device`: a taken name is refused with a message and nothing changes;
        otherwise the device is appended. */
    method AddDevice(device: Device) returns (r: Result<(), string>)
      requires Valid()
      modifies this
      ensures Valid()
      ensures device.name in old(Names(devices)) ==>
        r == Failure("Device with name " + device.name + " exists!") && devices == old(devices)
      ensures device.name !in old(Names(devices)) ==>
        r == Success(()) && devices == old(devices) + [device]
    {
      if device.name in Names(devices) {
        return Failure("Device with name " + device.name + " exists!");
      }
      DistinctAppend(devices, NameOf, device);
      devices := devices + [device];
      r := Success(());
    }

    /** One arm of the `match` in `Server::run`: the reply to `req`, switching the device it
        names in place. */
    method Dispatch(req: Rq.Request, show: Device -> string) returns (response: Response)
      requires Valid()
      modifies this
      ensures Valid()
      ensures response == Answer(old(devices), req, show)
      ensures devices == Apply(old(devices), req)
    {
      match req {
        case GetDeviceNames =>
          if |devices| == 0 {
            response := Ok(Some(""));
          } else {
            response := Ok(Some(Join(Names(devices), NamesSep)));
          }
        case StatusAll =>
          if |devices| == 0 {
            response := Ok(Some(""));
          } else {
            response := Ok(Some(Join(Keys(devices, show), StatusSep)));
          }
        case StatusDevice(n) =>
          var found := Find(Names(devices), n);
          if found.Some? {
            response := Ok(Some(show(devices[found.value])));
          } else {
            response := Error(NotFound(n));
          }
        case TurnOn(n) =>
          var found := Find(Names(devices), n);
          if found.Some? {
            var i := found.value;
            KeysUpdate(devices, NameOf, i, TurnedOn(devices[i]));
            devices := devices[i := TurnedOn(devices[i])];
            response := Ok(None);
          } else {
            response := Error(NotFound(n));
          }
        case TurnOff(n) =>
          var found := Find(Names(devices), n);
          if found.Some? {
            var i := found.value;
            KeysUpdate(devices, NameOf, i, TurnedOff(devices[i]));
            devices := devices[i := TurnedOff(devices[i])];
            response := Ok(None);
          } else {
            response := Error(NotFound(n));
          }
        case Error(reason) =>
          response := CatchAll(reason);
      }
    }

    /** One connection of `Server::run`: the request line is parsed (which never fails), served,
        and the reply rendered. */
    method Serve(line: string, show: Device -> string) returns (reply: string)
      requires Valid()
      modifies this
      ensures Valid()
      ensures reply == Reply(old(devices), line, show)
      ensures devices == Apply(old(devices), Rq.ParseRequest(line).value)
    {
      var request := Rq.ParseRequest(line).value;
      var response := Dispatch(request, show);
      reply := Render(response);
    }

    /** `Server::run`: the connections, one request line each, served in order. */
    method Run(lines: seq<string>, show: Device -> string) returns (replies: seq<string>)
      requires Valid()
      modifies this
      ensures Valid()
      ensures replies == Replies(old(devices), lines, show)
      ensures devices == Replay(old(devices), lines)
    {
      replies := [];
      var i := 0;
      while i < |lines|
        invariant 0 <= i <= |lines| && Valid()
        invariant devices == Replay(old(devices), lines[..i])
        invariant replies == Replies(old(devices), lines[..i], show)
      {
        ServeStep(old(devices), lines, show, i);
        var reply := Serve(lines[i], show);
        replies := replies + [reply];
        i := i + 1;
      }
      assert lines[..|lines|] == lines;
    }
  }
}
