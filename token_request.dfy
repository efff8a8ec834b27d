/** The one-line text protocol of the device server: a command word, optionally followed by a
    device name, separated by whitespace. */
module TokenRequest {
  import opened Wrappers
  import opened Text

  datatype Request =
    | GetDeviceNames
    | StatusAll
    | StatusDevice(deviceName: string)
    | TurnOn(deviceName: string)
    | TurnOff(deviceName: string)
    | Error(reason: string)

  const NoDeviceName := "No device name specified"
  const UnknownCommand := "Unknown command"

  /** The three commands that need a device name. */
  predicate Targeted(command: string) {
    command == "status_device" || command == "turn_on" || command == "turn_off"
  }

  predicate Keyword(command: string) {
    command == "get_device_names" || command == "status_all" || Targeted(command)
  }

  /** The request the tokens of a line select: the first token picks the command and the
      second, when present, names the device; further tokens are ignored. */
  function Classify(tokens: seq<string>): Request {
    var command := if tokens == [] then "" else tokens[0];
    var deviceName := if |tokens| < 2 then None else Some(tokens[1]);
    match command
    case "get_device_names" => GetDeviceNames
    case "status_all" => StatusAll
    case "status_device" =>
      (match deviceName
       case Some(n) => StatusDevice(n)
       case None => Error(NoDeviceName))
    case "turn_on" =>
      (match deviceName
       case Some(n) => TurnOn(n)
       case None => Error(NoDeviceName))
    case "turn_off" =>
      (match deviceName
       case Some(n) => TurnOff(n)
       case None => Error(NoDeviceName))
    case _ => Error(UnknownCommand)
  }

  /** `Request::from_str`: the whitespace-separated tokens of the line, classified. Parsing
      never fails. */
  function ParseRequest(s: string): (r: Result<Request, ()>)
    ensures r.Success?
    ensures (r.value.StatusDevice? || r.value.TurnOn? || r.value.TurnOff?) ==>
      IsWord(r.value.deviceName) && |SplitWhitespace(s)| >= 2
      && r.value.deviceName == SplitWhitespace(s)[1]
    ensures r.value.Error? ==> r.value.reason == NoDeviceName || r.value.reason == UnknownCommand
    ensures r.value.Error? && r.value.reason == NoDeviceName <==>
      |SplitWhitespace(s)| == 1 && Targeted(SplitWhitespace(s)[0])
    ensures var ws := SplitWhitespace(s);
      && (ws == [] ==> r.value == Error(UnknownCommand))
      && (ws != [] && !Keyword(ws[0]) ==> r.value == Error(UnknownCommand))
      && (ws != [] && ws[0] == "get_device_names" ==> r.value == GetDeviceNames)
      && (ws != [] && ws[0] == "status_all" ==> r.value == StatusAll)
      && (|ws| >= 2 && ws[0] == "status_device" ==> r.value == StatusDevice(ws[1]))
      && (|ws| >= 2 && ws[0] == "turn_on" ==> r.value == TurnOn(ws[1]))
      && (|ws| >= 2 && ws[0] == "turn_off" ==> r.value == TurnOff(ws[1]))
  {
    Success(Classify(SplitWhitespace(s)))
  }

  /** The command words contain no whitespace. */
  lemma KeywordsAreWords()
    ensures IsWord("get_device_names") && IsWord("status_all")
    ensures IsWord("status_device") && IsWord("turn_on") && IsWord("turn_off")
  {
  }

  /** Whitespace around the line, such as the newline `read_line` keeps, changes nothing. */
  lemma ParsePadded(w1: string, s: string, w2: string)
    requires IsBlank(w1) && IsBlank(w2)
    ensures ParseRequest(w1 + s + w2) == ParseRequest(s)
  {
    SplitBlankPrefix(w1, s + w2);
    SplitBlankSuffix(s, w2);
    assert w1 + s + w2 == w1 + (s + w2);
  }

  /** The request of a line depends only on its tokens. */
  lemma ParseTokens(s: string, ws: seq<string>)
    requires SplitWhitespace(s) == ws
    ensures ParseRequest(s).value == Classify(ws)
  {
  }

  /** What the first two tokens select. */
  lemma ClassifyCases(ws: seq<string>)
    requires |ws| >= 1
    ensures !Keyword(ws[0]) ==> Classify(ws) == Error(UnknownCommand)
    ensures |ws| >= 2 ==>
      && (ws[0] == "turn_on" ==> Classify(ws) == TurnOn(ws[1]))
      && (ws[0] == "turn_off" ==> Classify(ws) == TurnOff(ws[1]))
      && (ws[0] == "status_device" ==> Classify(ws) == StatusDevice(ws[1]))
  {
  }

  /** A line of words separated by single spaces is parsed from exactly those words. */
  lemma ParseWords(ws: seq<string>)
    requires forall k :: 0 <= k < |ws| ==> IsWord(ws[k])
    ensures ParseRequest(Join(ws, " ")).value == Classify(ws)
  {
    SplitJoinedWords(ws);
    ParseTokens(Join(ws, " "), ws);
  }

  /** `[head] + rest` is a list of words when its parts are. */
  lemma WordsPrefixed(head: seq<string>, rest: seq<string>)
    requires forall k :: 0 <= k < |head| ==> IsWord(head[k])
    requires forall k :: 0 <= k < |rest| ==> IsWord(rest[k])
    ensures forall k :: 0 <= k < |head + rest| ==> IsWord((head + rest)[k])
  {
    var ws := head + rest;
    forall k | 0 <= k < |ws| ensures IsWord(ws[k]) {
      if k >= |head| {
        assert ws[k] == rest[k - |head|];
      }
    }
  }

  /** Commands without an argument ignore whatever tokens follow. */
  lemma ParseNoArgument(command: string, rest: seq<string>)
    requires command == "get_device_names" || command == "status_all"
    requires forall k :: 0 <= k < |rest| ==> IsWord(rest[k])
    ensures ParseRequest(Join([command] + rest, " ")).value
      == if command == "status_all" then StatusAll else GetDeviceNames
  {
    KeywordsAreWords();
    WordsPrefixed([command], rest);
    ParseWords([command] + rest);
  }

  /** A line of words whose first is a switch or status command targets exactly the device its
      second word names, whatever follows. */
  lemma ParseTargeted(ws: seq<string>)
    requires |ws| >= 2 && Targeted(ws[0])
    requires forall k :: 0 <= k < |ws| ==> IsWord(ws[k])
    ensures var r := ParseRequest(Join(ws, " ")).value;
      if ws[0] == "turn_on" then r == TurnOn(ws[1])
      else if ws[0] == "turn_off" then r == TurnOff(ws[1])
      else r == StatusDevice(ws[1])
  {
    ParseWords(ws);
    ClassifyCases(ws);
  }

  /** A targeted command alone, as read with its newline, asks for the device name. */
  lemma ParseMissingName(command: string)
    requires Targeted(command)
    ensures ParseRequest(command + "\n").value == Error(NoDeviceName)
  {
    KeywordsAreWords();
    SplitJoinedWords([command]);
    SplitBlankSuffix(command, "\n");
  }

  /** A first token that is not a command word is an unknown command. */
  lemma ParseUnknown(command: string, rest: seq<string>)
    requires IsWord(command) && !Keyword(command)
    requires forall k :: 0 <= k < |rest| ==> IsWord(rest[k])
    ensures ParseRequest(Join([command] + rest, " ")).value == Error(UnknownCommand)
  {
    WordsPrefixed([command], rest);
    ParseWords([command] + rest);
    ClassifyCases([command] + rest);
  }

  /** A blank line is an unknown command too. */
  lemma ParseBlank(s: string)
    requires IsBlank(s)
    ensures ParseRequest(s).value == Error(UnknownCommand)
  {
    SplitBlankPrefix(s, []);
    assert s + [] == s;
    ParseTokens(s, []);
  }
}
