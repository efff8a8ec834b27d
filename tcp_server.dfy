/** The HTTP device server: it owns a list of devices with distinct names and answers one
    request line per connection with a framed page. The HTML of a page, which a library
    builds, is the parameter `html`; a device's `Display` text is the parameter `show`. */
module TcpServer {
  import opened Wrappers
  import opened Text
  import opened Keyed
  import opened DeviceModel
  import opened TcpCommand
  import opened TcpRequest
  import opened HttpFrame

  /** The pages the server sends, each with the text it formats itself into the page. */
  datatype Page =
    | Hello(devicesText: string)
    | StateAll(listing: string)
    | StateDevice(report: string)
    | SwitchedOn(text: string)
    | SwitchedOff(text: string)
    | ErrorPage(text: string)

  const NoDevices := "No devices registered"
  const PageNotFound := "Page not found"
  const NamesSep := ", "
  const ReportsSep := "\n"

  /** The text of the error page for `msg`. */
  function ErrorText(msg: string): string {
    "Error message: " + msg
  }

  /** The message for a request naming an unknown device. */
  function Missing(n: string): string {
    "Device with name " + n + " does not exist"
  }

  // ---------------------------------------------------------------- framing

  const OkStatus := "HTTP/1.1 200 OK"
  const ErrorStatus := "HTTP/1.1 503 OK"
  /** Error pages go out as 503, every other page as 200. */
  function StatusLine(p: Page): (r: string)
    ensures r == ErrorStatus <==> p.ErrorPage?
    ensures r == OkStatus <==> !p.ErrorPage?
    ensures '\r' !in r
  {
    if p.ErrorPage? then ErrorStatus else OkStatus
  }

  // ---------------------------------------------------------------- dispatch

  /** The page a `GET` of `command` yields when the server holds `ds`; `Ignore` yields none. */
  function RespondGet(ds: seq<Device>, command: Command, show: Device -> string)
    : (r: Option<Page>)
    ensures r.None? <==> command.Ignore?
    ensures command.ShowMain? ==>
      r == Some(Hello(if ds == [] then NoDevices else Join(Names(ds), NamesSep)))
    ensures command.GetStatus? ==>
      r == Some(StateAll(if ds == [] then NoDevices else Join(Keys(ds, show), ReportsSep)))
    ensures command.Error? ==> r == Some(ErrorPage(ErrorText(command.errorMsg)))
    ensures (command.TurnOn? || command.TurnOff? || command.GetDeviceStatus?) ==>
      (r.value.ErrorPage? <==> command.deviceName !in Names(ds))
      && (r.value.ErrorPage? ==> r.value.text == ErrorText(Missing(command.deviceName)))
    ensures command.TurnOn? && command.deviceName in Names(ds) ==>
      r == Some(SwitchedOn("Device " + command.deviceName + " is on"))
    ensures command.TurnOff? && command.deviceName in Names(ds) ==>
      r == Some(SwitchedOff("Device " + command.deviceName + " is off"))
    ensures command.GetDeviceStatus? && Distinct(Names(ds)) ==>
      forall i :: 0 <= i < |ds| && ds[i].name == command.deviceName ==>
        r == Some(StateDevice(show(ds[i])))
  {
    match command
    case TurnOn(n) =>
      if n in Names(ds) then Some(SwitchedOn("Device " + n + " is on"))
      else Some(ErrorPage(ErrorText(Missing(n))))
    case TurnOff(n) =>
      if n in Names(ds) then Some(SwitchedOff("Device " + n + " is off"))
      else Some(ErrorPage(ErrorText(Missing(n))))
    case GetStatus =>
      Some(StateAll(if ds == [] then NoDevices else Join(Keys(ds, show), ReportsSep)))
    case ShowMain =>
      Some(Hello(if ds == [] then NoDevices else Join(Names(ds), NamesSep)))
    case Error(msg) => Some(ErrorPage(ErrorText(msg)))
    case GetDeviceStatus(n) =>
      (match Find(Names(ds), n)
       case Some(i) => Some(StateDevice(show(ds[i])))
       case None => Some(ErrorPage(ErrorText(Missing(n)))))
    case Ignore => None
  }

  /** The `match` in `Server::run`: `Ignore` is answered with nothing whatever the method, any
      other command through another method than `GET` with "Page not found". */
  function Respond(ds: seq<Device>, req: Request, show: Device -> string): (r: Option<Page>)
    ensures r.None? <==> req.command.Ignore?
    ensures req.reqType != Get && !req.command.Ignore? ==>
      r == Some(ErrorPage(ErrorText(PageNotFound)))
    ensures req.reqType == Get ==> r == RespondGet(ds, req.command, show)
  {
    if req.command.Ignore? then None
    else if req.reqType != Get then Some(ErrorPage(ErrorText(PageNotFound)))
    else RespondGet(ds, req.command, show)
  }

  /** The devices with the first one named `n` switched on or off; an unknown name changes
      nothing. */
  function Switch(ds: seq<Device>, n: string, on: bool): (r: seq<Device>)
    ensures Names(r) == Names(ds)
    ensures n !in Names(ds) ==> r == ds
    ensures Distinct(Names(ds)) ==>
      forall i :: 0 <= i < |ds| && ds[i].name == n ==>
        r == ds[i := if on then TurnedOn(ds[i]) else TurnedOff(ds[i])]
  {
    match Find(Names(ds), n)
    case Some(i) =>
      var d := if on then TurnedOn(ds[i]) else TurnedOff(ds[i]);
      KeysUpdate(ds, NameOf, i, d);
      ds[i := d]
    case None => ds
  }

  /** The devices after serving `req`: only a `GET` of a switch command changes anything, and
      `turn_off` switches off. */
  function Effect(ds: seq<Device>, req: Request): (r: seq<Device>)
    ensures Names(r) == Names(ds)
    ensures req.reqType != Get || !(req.command.TurnOn? || req.command.TurnOff?) ==> r == ds
    ensures req.reqType == Get && (req.command.TurnOn? || req.command.TurnOff?) ==>
      r == Switch(ds, req.command.deviceName, req.command.TurnOn?)
  {
    match req
    case Request(Get, TurnOn(n)) => Switch(ds, n, true)
    case Request(Get, TurnOff(n)) => Switch(ds, n, false)
    case _ => ds
  }

  /** `Effect` as written: `turn_off_device` calls `turn_on`. */
  function EffectAsWritten(ds: seq<Device>, req: Request): (r: seq<Device>)
    ensures Names(r) == Names(ds)
    ensures !(req.reqType == Get && req.command.TurnOff?) ==> r == Effect(ds, req)
    ensures req.reqType == Get && req.command.TurnOff? ==>
      r == Switch(ds, req.command.deviceName, true)
  {
    match req
    case Request(Get, TurnOff(n)) => Switch(ds, n, true)
    case _ => Effect(ds, req)
  }

  /** As written, `/turn_off/<n>` reports "Device n is off" and leaves the device on; the
      corrected effect leaves it off, as the page says. */
  lemma TurnOffLeavesOn(ds: seq<Device>, i: nat, show: Device -> string)
    requires Distinct(Names(ds)) && i < |ds|
    ensures var req := Request(Get, TurnOff(ds[i].name));
      && Respond(ds, req, show) == Some(SwitchedOff("Device " + ds[i].name + " is off"))
      && EffectAsWritten(ds, req)[i].state == On
      && Effect(ds, req)[i].state == Off
  {
    assert ds[i].name == Names(ds)[i];
  }

  /** Switching on and off through requests: the last switch wins. */
  lemma LastSwitchWins(ds: seq<Device>, n: string, first: bool, second: bool)
    requires Distinct(Names(ds))
    ensures Switch(Switch(ds, n, first), n, second) == Switch(ds, n, second)
  {
    match Find(Names(ds), n)
    case None =>
    case Some(i) =>
      var once := Switch(ds, n, first);
      assert once[i].name == n;
      assert once == ds[i := once[i]];
  }

  /** The main page's device list can be split back into the names when no name contains the
      separator and none ends in one of its characters. */
  lemma HelloNamesRecoverable(ds: seq<Device>, show: Device -> string)
    requires |ds| >= 1
    requires forall i :: 0 <= i < |ds| ==>
      !Contains(ds[i].name, NamesSep)
      && (ds[i].name == [] || ds[i].name[|ds[i].name| - 1] !in NamesSep)
    ensures Split(Respond(ds, DefaultRequest, show).value.devicesText, NamesSep) == Names(ds)
  {
    SplitJoinClean(Names(ds), NamesSep);
  }

  /** The response to one connection: the line read (`None` when the connection sent none),
      served, and the page framed. */
  function Reply(ds: seq<Device>, line: Option<string>, show: Device -> string,
                 html: Page -> string): (r: Option<string>)
    ensures r.None? <==> RequestFor(line).command.Ignore?
  {
    Framed(Respond(ds, RequestFor(line), show), html)
  }

  /** The bytes sent for a page, if any. */
  function Framed(page: Option<Page>, html: Page -> string): (r: Option<string>)
    ensures r.None? <==> page.None?
  {
    match page
    case None => None
    case Some(p) => Some(Frame(StatusLine(p), html(p)))
  }

  /** The devices after a sequence of connections, served in order. */
  function Replay(ds: seq<Device>, lines: seq<Option<string>>): (r: seq<Device>)
    ensures Names(r) == Names(ds)
    decreases |lines|
  {
    if lines == [] then ds
    else Effect(Replay(ds, lines[..|lines| - 1]), RequestFor(lines[|lines| - 1]))
  }

  /** The responses to a sequence of connections: each is answered from the devices the
      connections before it left behind. */
  function Replies(ds: seq<Device>, lines: seq<Option<string>>, show: Device -> string,
                   html: Page -> string): (r: seq<Option<string>>)
    ensures |r| == |lines|
    decreases |lines|
  {
    if lines == [] then []
    else
      var before := lines[..|lines| - 1];
      Replies(ds, before, show, html)
        + [Reply(Replay(ds, before), lines[|lines| - 1], show, html)]
  }

  /** Serving one more connection appends its response and applies its effect. */
  lemma ServeStep(ds: seq<Device>, lines: seq<Option<string>>, show: Device -> string,
                  html: Page -> string, i: nat)
    requires i < |lines|
    ensures var before := Replay(ds, lines[..i]);
      && Replies(ds, lines[..i + 1], show, html)
         == Replies(ds, lines[..i], show, html) + [Reply(before, lines[i], show, html)]
      && Replay(ds, lines[..i + 1]) == Effect(before, RequestFor(lines[i]))
  {
    assert lines[..i + 1][..i] == lines[..i];
  }

  /** Each connection is answered from the devices the connections before it left behind. */
  lemma {:induction false} RepliesAt(ds: seq<Device>, lines: seq<Option<string>>,
                                     show: Device -> string, html: Page -> string, k: nat)
    requires k < |lines|
    ensures Replies(ds, lines, show, html)[k] == Reply(Replay(ds, lines[..k]), lines[k], show, html)
    decreases |lines|
  {
    var before := lines[..|lines| - 1];
    var earlier := Replies(ds, before, show, html);
    var last := Reply(Replay(ds, before), lines[|lines| - 1], show, html);
    assert Replies(ds, lines, show, html) == earlier + [last];
    if k < |before| {
      RepliesAt(ds, before, show, html, k);
      assert before[..k] == lines[..k] && before[k] == lines[k];
      assert (earlier + [last])[k] == earlier[k];
    } else {
      assert lines[..k] == before;
      assert (earlier + [last])[k] == last;
    }
  }



  class Server {
    /** `address:port`, the address the server listens on. */
    const address: string
    var devices: seq<Device>

    /** No two devices share a name. */
    ghost predicate Valid()
      reads this
    {
      Distinct(Names(devices))
    }

    /** `Server::new`: the port is a `u32`. */
    constructor (address: string, port: nat)
      requires port < 0x1_0000_0000
      ensures this.address == address + ":" + NatToString(port)
      ensures devices == [] && Valid()
    {
      this.address := address + ":" + NatToString(port);
      devices := [];
    }

    /** `Server::add_device`: a taken name is refused with a message and nothing changes;
        otherwise the device is appended. */
    method AddDevice(device: Device) returns (r: Result<(), string>)
      requires Valid()
      modifies this
      ensures Valid()
      ensures device.name in old(Names(devices)) ==>
        r == Failure("Device with name " + device.name + " exists!") && devices == old(devices)
      ensures device.name !in old(Names(devices)) ==>
        r == Success(()) && devices == old(devices) + [device]
    {
      if device.name in Names(devices) {
        return Failure("Device with name " + device.name + " exists!");
      }
      DistinctAppend(devices, NameOf, device);
      devices := devices + [device];
      r := Success(());
    }

    /** The lookup-and-mutate step of `turn_on_device` and `turn_off_device`: the first
        device named `n` is switched in place; an unknown name changes nothing. */
    method SwitchDevice(n: string, on: bool) returns (found: bool)
      requires Valid()
      modifies this
      ensures Valid()
      ensures found <==> n in old(Names(devices))
      ensures devices == Switch(old(devices), n, on)
    {
      var i := Find(Names(devices), n);
      if i.None? {
        return false;
      }
      var d := if on then TurnedOn(devices[i.value]) else TurnedOff(devices[i.value]);
      KeysUpdate(devices, NameOf, i.value, d);
      devices := devices[i.value := d];
      found := true;
    }

    /** `Server::turn_on_device`: the device is switched on and the page says so, or the
        error page names the missing device. */
    method TurnOnDevice(n: string, show: Device -> string) returns (page: Page)
      requires Valid()
      modifies this
      ensures Valid()
      ensures Some(page) == Respond(old(devices), Request(Get, TurnOn(n)), show)
      ensures devices == Effect(old(devices), Request(Get, TurnOn(n)))
    {
      var found := SwitchDevice(n, true);
      if !found {
        return ErrorPage(ErrorText(Missing(n)));
      }
      page := SwitchedOn("Device " + n + " is on");
    }

    /** `Server::turn_off_device`, switching the device off as its page says. */
    method TurnOffDevice(n: string, show: Device -> string) returns (page: Page)
      requires Valid()
      modifies this
      ensures Valid()
      ensures Some(page) == Respond(old(devices), Request(Get, TurnOff(n)), show)
      ensures devices == Effect(old(devices), Request(Get, TurnOff(n)))
    {
      var found := SwitchDevice(n, false);
      if !found {
        return ErrorPage(ErrorText(Missing(n)));
      }
      page := SwitchedOff("Device " + n + " is off");
    }

    /** `Server::turn_off_device` as written: it switches the device on. */
    method TurnOffDeviceAsWritten(n: string, show: Device -> string) returns (page: Page)
      requires Valid()
      modifies this
      ensures Valid()
      ensures Some(page) == Respond(old(devices), Request(Get, TurnOff(n)), show)
      ensures devices == EffectAsWritten(old(devices), Request(Get, TurnOff(n)))
    {
      var found := SwitchDevice(n, true);
      if !found {
        return ErrorPage(ErrorText(Missing(n)));
      }
      page := SwitchedOff("Device " + n + " is off");
    }

    /** One connection of `Server::run`: the request is read and dispatched, switching
        commands change the device in place, and the page is framed. */
    method Handle(line: Option<string>, show: Device -> string, html: Page -> string)
      returns (response: Option<string>)
      requires Valid()
      modifies this
      ensures Valid()
      ensures response == Reply(old(devices), line, show, html)
      ensures devices == Effect(old(devices), RequestFor(line))
    {
      var request := RequestFor(line);
      var page: Option<Page>;
      if request.reqType == Get && request.command.TurnOn? {
        var p := TurnOnDevice(request.command.deviceName, show);
        page := Some(p);
      } else if request.reqType == Get && request.command.TurnOff? {
        var p := TurnOffDevice(request.command.deviceName, show);
        page := Some(p);
      } else {
        page := Respond(devices, request, show);
      }
      response := Framed(page, html);
    }

    /** `Server::run`: the connections, served in order. */
    method Run(lines: seq<Option<string>>, show: Device -> string, html: Page -> string)
      returns (responses: seq<Option<string>>)
      requires Valid()
      modifies this
      ensures Valid()
      ensures responses == Replies(old(devices), lines, show, html)
      ensures devices == Replay(old(devices), lines)
    {
      responses := [];
      var i := 0;
      while i < |lines|
        invariant 0 <= i <= |lines| && Valid()
        invariant devices == Replay(old(devices), lines[..i])
        invariant responses == Replies(old(devices), lines[..i], show, html)
      {
        ServeStep(old(devices), lines, show, html, i);
        var response := Handle(lines[i], show, html);
        responses := responses + [response];
        i := i + 1;
      }
      assert lines[..|lines|] == lines;
    }
  }
}
