/** The path part of an HTTP request line, read as a command for the device server:
    `/<section>/<device name>`, the section trimmed and lower-cased. */
module TcpCommand {
  import opened Wrappers
  import opened Text

  datatype Command =
    | TurnOn(deviceName: string)
    | TurnOff(deviceName: string)
    | GetStatus
    | GetDeviceStatus(deviceName: string)
    | ShowMain
    | Error(errorMsg: string)
    | Ignore

  const Slash := "/"
  const CannotParse := "Cannot parse request"
  const UnknownRequest := "Unknown request"

  /** The section `Command::from_str` ignores, as written. */
  const IgnoredAsWritten := "flavicon.ico"
  /** The icon path browsers ask for on their own, which the `Ignore` command is evidently for. */
  const Favicon := "favicon.ico"

  /** The three sections that need a device name. */
  predicate Targeted(section: string) {
    section == "turn_on" || section == "turn_off" || section == "status_device"
  }

  /** The command word of a path segment: trimmed, then lower-cased. */
  function Section(piece: string): string {
    ToLower(Trim(piece))
  }

  /** The command a section selects, given the device segment when there is one; `ignored`
      is the section answered with `Ignore`. */
  function Choose(section: string, deviceName: Option<string>, ignored: string)
    : (r: Result<Command, ()>)
    ensures r.Failure? <==> Targeted(section) && deviceName.None?
    ensures r.Success? && (r.value.TurnOn? || r.value.TurnOff? || r.value.GetDeviceStatus?) ==>
      deviceName == Some(r.value.deviceName)
    ensures r.Success? && r.value.Error? ==> r.value.errorMsg == UnknownRequest
    ensures r == Success(Ignore) <==>
      section == ignored && !Targeted(section) && section != "" && section != "status_all"
  {
    match section
    case "" => Success(ShowMain)
    case "turn_on" =>
      if deviceName.None? then Failure(()) else Success(TurnOn(deviceName.value))
    case "turn_off" =>
      if deviceName.None? then Failure(()) else Success(TurnOff(deviceName.value))
    case "status_all" => Success(GetStatus)
    case "status_device" =>
      if deviceName.None? then Failure(()) else Success(GetDeviceStatus(deviceName.value))
    case _ => if section == ignored then Success(Ignore) else Success(Error(UnknownRequest))
  }

  /** The command the `/`-separated pieces of a path select: the first piece (what precedes the
      leading `/`) is skipped, the second is the section and the third the device name. */
  function Select(pieces: seq<string>, ignored: string): Result<Command, ()> {
    if |pieces| < 2 then Success(Error(CannotParse))
    else Choose(Section(pieces[1]), if |pieces| < 3 then None else Some(pieces[2]), ignored)
  }

  /** `Command::from_str`, with the ignored section as a parameter. */
  function ParseCommandWith(s: string, ignored: string): Result<Command, ()> {
    Select(Split(s, Slash), ignored)
  }

  /** What any path parses to: device names hold no `/`; the only error messages are the two
      constants, and "Cannot parse request" is given exactly to paths without `/`; a failure
      needs a targeted section with no segment after it. */
  lemma ParseCommandContract(s: string, ignored: string)
    ensures var r := ParseCommandWith(s, ignored);
      && (r.Success? && (r.value.TurnOn? || r.value.TurnOff? || r.value.GetDeviceStatus?) ==>
           !Contains(r.value.deviceName, Slash))
      && (r.Success? && r.value.Error? ==>
           r.value.errorMsg == CannotParse || r.value.errorMsg == UnknownRequest)
      && (r == Success(Error(CannotParse)) <==> !Contains(s, Slash))
      && (r.Failure? ==> |Split(s, Slash)| == 2 && Targeted(Section(Split(s, Slash)[1])))
  {
    SplitSingle(s, Slash);
  }

  /** The section of path `s` is `section`. */
  predicate SectionIs(s: string, section: string) {
    |Split(s, Slash)| >= 2 && Section(Split(s, Slash)[1]) == section
  }

  /** `Command::from_str` as written, ignoring `flavicon.ico`. */
  function ParseCommandAsWritten(s: string): Result<Command, ()> {
    ParseCommandWith(s, IgnoredAsWritten)
  }

  /** `Command::from_str` with the ignored section corrected to `favicon.ico`. */
  function ParseCommand(s: string): Result<Command, ()> {
    ParseCommandWith(s, Favicon)
  }

  /** A path is ignored exactly when its section is the ignored one: `flavicon.ico` as written,
      `favicon.ico` corrected. */
  lemma IgnoredExactly(s: string)
    ensures ParseCommandAsWritten(s) == Success(Ignore) <==> SectionIs(s, IgnoredAsWritten)
    ensures ParseCommand(s) == Success(Ignore) <==> SectionIs(s, Favicon)
  {
  }

  /** Two ignored sections give the same command for any other section. */
  lemma ChooseAgrees(section: string, deviceName: Option<string>, i1: string, i2: string)
    requires section != i1 && section != i2
    ensures Choose(section, deviceName, i1) == Choose(section, deviceName, i2)
  {
  }

  /** The corrected parser differs from the one as written only on paths whose section is
      `favicon.ico` or `flavicon.ico`. */
  lemma ParseCommandAgrees(s: string)
    ensures !SectionIs(s, Favicon) && !SectionIs(s, IgnoredAsWritten) ==>
      ParseCommandAsWritten(s) == ParseCommand(s)
  {
    var pieces := Split(s, Slash);
    if !SectionIs(s, Favicon) && !SectionIs(s, IgnoredAsWritten) && |pieces| >= 2 {
      var name := if |pieces| < 3 then None else Some(pieces[2]);
      ChooseAgrees(Section(pieces[1]), name, IgnoredAsWritten, Favicon);
    }
  }

  /** The text before a leading `/` is the empty piece. */
  lemma SplitLeading(y: string)
    ensures Split(Slash + y, Slash) == [""] + Split(y, Slash)
  {
    assert !Contains("", Slash);
    DelimitsChar("", '/');
    assert Slash + y == "" + Slash + y;
    SplitAfter("", Slash, y);
  }

  /** A segment without `/` followed by `/` is one piece. */
  lemma SplitSegment(x: string, z: string)
    requires !Contains(x, Slash)
    ensures Split(x + Slash + z, Slash) == [x] + Split(z, Slash)
  {
    DelimitsChar(x, '/');
    SplitAfter(x, Slash, z);
  }

  /** A path `/x` followed by nothing or by further `/` segments splits into the skipped empty
      piece, `x`, and the pieces of the rest. */
  lemma SplitPath(x: string, tail: string)
    requires !Contains(x, Slash) && (tail == [] || tail[0] == '/')
    ensures var pieces := Split(Slash + x + tail, Slash);
      && |pieces| >= 2 && pieces[..2] == ["", x]
      && (tail == [] ==> |pieces| == 2)
      && (tail != [] ==> pieces[2..] == Split(tail[1..], Slash))
  {
    if tail == [] {
      assert Slash + x + tail == Slash + x;
      SplitLeading(x);
      SplitWhole(x, Slash);
    } else {
      assert Slash + x + tail == Slash + (x + Slash + tail[1..]);
      SplitLeading(x + Slash + tail[1..]);
      SplitSegment(x, tail[1..]);
    }
  }

  /** Lower-case letters, `_` and `.`: what the section keywords are made of. */
  predicate LowerWord(s: string) {
    forall i :: 0 <= i < |s| ==> 'a' <= s[i] <= 'z' || s[i] == '_' || s[i] == '.'
  }

  lemma LowerWordNoSlash(s: string)
    requires LowerWord(s)
    ensures !Contains(s, Slash)
  {
    forall j: nat | j <= |s| ensures !OccursAt(s, Slash, j) {
      if j < |s| {
        assert s[j] != '/';
      }
    }
  }

  lemma LowerWordTrimmed(s: string)
    requires LowerWord(s)
    ensures Trim(s) == s
  {
    assert s == [] || (!IsWhitespace(s[0]) && !IsWhitespace(s[|s| - 1]));
    TrimUnpadded(s);
  }

  lemma LowerWordLower(s: string)
    requires LowerWord(s)
    ensures ToLower(s) == s
  {
    LowerFixed(s);
  }

  lemma SectionFixed(s: string)
    requires Trim(s) == s && ToLower(s) == s
    ensures Section(s) == s
  {
  }

  /** A keyword-like word is its own section and holds no `/`. */
  lemma SectionOfLower(s: string)
    requires LowerWord(s)
    ensures Section(s) == s && !Contains(s, Slash)
  {
    LowerWordTrimmed(s);
    LowerWordLower(s);
    SectionFixed(s);
    LowerWordNoSlash(s);
  }

  /** The section keywords are keyword-like. */
  lemma KeywordsLower()
    ensures LowerWord("") && LowerWord("status_all")
    ensures LowerWord("turn_on") && LowerWord("turn_off") && LowerWord("status_device")
    ensures LowerWord(Favicon) && LowerWord(IgnoredAsWritten)
  {
  }

  /** A segment without `/`, followed by nothing or by a further `/`, is the first piece. */
  lemma SplitFirst(x: string, tail: string)
    requires !Contains(x, Slash) && (tail == [] || tail[0] == '/')
    ensures Split(x + tail, Slash)[0] == x
  {
    if tail == [] {
      assert x + tail == x;
      SplitWhole(x, Slash);
    } else {
      assert x + tail == x + Slash + tail[1..];
      SplitSegment(x, tail[1..]);
    }
  }

  /** The command of a path `/x...` is chosen by the section of `x` and the segment after it. */
  lemma ParsePath(x: string, tail: string, ignored: string)
    requires !Contains(x, Slash) && (tail == [] || tail[0] == '/')
    ensures ParseCommandWith(Slash + x + tail, ignored)
      == Choose(Section(x), if tail == [] then None else Some(Split(tail[1..], Slash)[0]), ignored)
  {
    var s := Slash + x + tail;
    var pieces := Split(s, Slash);
    SplitPath(x, tail);
    assert pieces[1] == pieces[..2][1] == x;
    if tail != [] {
      assert pieces[2] == pieces[2..][0];
    }
    ParsePieces(s, pieces, ignored);
  }

  /** The command of a path depends only on its pieces. */
  lemma ParsePieces(s: string, pieces: seq<string>, ignored: string)
    requires Split(s, Slash) == pieces
    ensures ParseCommandWith(s, ignored) == Select(pieces, ignored)
  {
  }

  /** `/turn_on/<name>`, `/turn_off/<name>` and `/status_device/<name>` name the device in their
      second segment; later segments are ignored. */
  lemma ParseTargetedPath(section: string, name: string, tail: string)
    requires Targeted(section) && !Contains(name, Slash) && (tail == [] || tail[0] == '/')
    ensures var r := ParseCommand(Slash + section + Slash + name + tail);
      if section == "turn_on" then r == Success(TurnOn(name))
      else if section == "turn_off" then r == Success(TurnOff(name))
      else r == Success(GetDeviceStatus(name))
  {
    KeywordsLower();
    TargetedWith(section, name, tail, Favicon);
    ChooseTargeted(section, name, Favicon);
  }

  lemma TargetedWith(section: string, name: string, tail: string, ignored: string)
    requires LowerWord(section)
    requires !Contains(name, Slash) && (tail == [] || tail[0] == '/')
    ensures ParseCommandWith(Slash + section + Slash + name + tail, ignored)
      == Choose(section, Some(name), ignored)
  {
    SectionOfLower(section);
    var s := Slash + section + Slash + name + tail;
    SplitTargeted(section, name, tail);
    var pieces := Split(s, Slash);
    SelectTargeted(pieces, section, name, ignored);
    ParsePieces(s, pieces, ignored);
  }

  lemma SelectTargeted(pieces: seq<string>, section: string, name: string, ignored: string)
    requires |pieces| >= 3 && Section(pieces[1]) == section && pieces[2] == name
    ensures Select(pieces, ignored) == Choose(section, Some(name), ignored)
  {
  }

  /** `/x/name...` splits into the skipped empty piece, `x` and `name` first. */
  lemma SplitTargeted(x: string, name: string, tail: string)
    requires !Contains(x, Slash) && !Contains(name, Slash) && (tail == [] || tail[0] == '/')
    ensures var pieces := Split(Slash + x + Slash + name + tail, Slash);
      |pieces| >= 3 && pieces[1] == x && pieces[2] == name
  {
    var z := name + tail;
    assert Slash + x + Slash + name + tail == Slash + x + Slash + z;
    SplitTwo(x, z);
    SplitFirst(name, tail);
    var pieces := Split(Slash + x + Slash + z, Slash);
    assert pieces[2] == Split(z, Slash)[0];
  }

  lemma SplitTwo(x: string, z: string)
    requires !Contains(x, Slash)
    ensures Split(Slash + x + Slash + z, Slash) == [""] + ([x] + Split(z, Slash))
  {
    var y := x + Slash + z;
    assert Slash + x + Slash + z == Slash + y;
    SplitLeading(y);
    SplitSegment(x, z);
  }

  /** The three targeted sections name their commands. */
  lemma ChooseTargeted(section: string, name: string, ignored: string)
    requires Targeted(section)
    ensures var r := Choose(section, Some(name), ignored);
      if section == "turn_on" then r == Success(TurnOn(name))
      else if section == "turn_off" then r == Success(TurnOff(name))
      else r == Success(GetDeviceStatus(name))
  {
  }

  /** A targeted section without a device segment is refused. */
  lemma ParseMissingName(section: string)
    requires Targeted(section)
    ensures ParseCommand(Slash + section) == Failure(())
  {
    KeywordsLower();
    SectionOfLower(section);
    MissingNameWith(section, Favicon);
  }

  lemma MissingNameWith(section: string, ignored: string)
    requires Targeted(section) && LowerWord(section)
    ensures ParseCommandWith(Slash + section, ignored) == Failure(())
  {
    SectionOfLower(section);
    SplitLone(section);
    ParsePieces(Slash + section, ["", section], ignored);
  }

  /** `/x` splits into the skipped empty piece and `x`. */
  lemma SplitLone(x: string)
    requires !Contains(x, Slash)
    ensures Split(Slash + x, Slash) == ["", x]
  {
    SplitLeading(x);
    SplitWhole(x, Slash);
  }

  lemma SplitEmpty()
    ensures Split("", Slash) == [""]
  {
    assert !Contains("", Slash);
    SplitWhole("", Slash);
  }

  /** With an empty device segment, a targeted section names the device with the empty name. */
  lemma ParseEmptyName(section: string)
    requires Targeted(section)
    ensures var r := ParseCommand(Slash + section + Slash);
      if section == "turn_on" then r == Success(TurnOn(""))
      else if section == "turn_off" then r == Success(TurnOff(""))
      else r == Success(GetDeviceStatus(""))
  {
    assert !Contains("", Slash);
    ParseTargetedPath(section, "", []);
    assert Slash + section + Slash + "" + [] == Slash + section + Slash;
  }

  /** The root path shows the main page, as does a section of blanks. */
  lemma ParseRoot(w: string, tail: string)
    requires IsBlank(w) && !Contains(w, Slash) && (tail == [] || tail[0] == '/')
    ensures ParseCommand(Slash + w + tail) == Success(ShowMain)
  {
    TrimPadded(w, [], []);
    assert w + [] + [] == w;
    ParsePath(w, tail, Favicon);
  }

  /** Padding a section and lower-casing it give the same section as lower-casing alone. */
  lemma SectionNormalised(w1: string, section: string, w2: string)
    requires IsBlank(w1) && IsBlank(w2)
    requires section == [] || (!IsWhitespace(section[0]) && !IsWhitespace(section[|section| - 1]))
    ensures Section(w1 + section + w2) == Section(ToLower(section))
  {
    TrimPadded(w1, section, w2);
    LowerTrimCommute(section);
    TrimUnpadded(section);
    LowerIdempotent(section);
  }

  /** The section is matched after trimming and lower-casing: padding and capitals in it do not
      change the command. */
  lemma ParseSectionNormalised(w1: string, section: string, w2: string, tail: string)
    requires IsBlank(w1) && IsBlank(w2)
    requires section == [] || (!IsWhitespace(section[0]) && !IsWhitespace(section[|section| - 1]))
    requires !Contains(w1 + section + w2, Slash) && !Contains(ToLower(section), Slash)
    requires tail == [] || tail[0] == '/'
    ensures ParseCommand(Slash + w1 + section + w2 + tail) == ParseCommand(Slash + ToLower(section) + tail)
  {
    assert Slash + w1 + section + w2 + tail == Slash + (w1 + section + w2) + tail;
    ParsePath(w1 + section + w2, tail, Favicon);
    ParsePath(ToLower(section), tail, Favicon);
    SectionNormalised(w1, section, w2);
  }

  /** A one-segment path `/x` is chosen by the section of `x` alone. */
  lemma ParseSingleSegment(x: string, ignored: string)
    requires LowerWord(x)
    ensures ParseCommandWith(Slash + x, ignored) == Choose(x, None, ignored)
  {
    SectionOfLower(x);
    SplitLone(x);
    ParsePieces(Slash + x, ["", x], ignored);
  }

  /** A one-segment path whose section is no command word is ignored exactly when it is the
      ignored section, and is an unknown request otherwise. */
  lemma ParseOtherSection(x: string)
    requires LowerWord(x) && !Targeted(x) && x != "" && x != "status_all"
    ensures ParseCommandAsWritten(Slash + x)
      == Success(if x == IgnoredAsWritten then Ignore else Error(UnknownRequest))
    ensures ParseCommand(Slash + x) == Success(if x == Favicon then Ignore else Error(UnknownRequest))
  {
    OtherSectionWith(x, IgnoredAsWritten);
    OtherSectionWith(x, Favicon);
  }

  lemma OtherSectionWith(x: string, ignored: string)
    requires LowerWord(x) && !Targeted(x) && x != "" && x != "status_all"
    ensures ParseCommandWith(Slash + x, ignored)
      == Success(if x == ignored then Ignore else Error(UnknownRequest))
  {
    ParseSingleSegment(x, ignored);
    ChooseOther(x, ignored);
  }

  lemma ChooseOther(x: string, ignored: string)
    requires !Targeted(x) && x != "" && x != "status_all"
    ensures Choose(x, None, ignored) == Success(if x == ignored then Ignore else Error(UnknownRequest))
  {
  }

  /** As written, a browser's request for `/favicon.ico` is an unknown request (answered with an
      error page) while only the misspelt `/flavicon.ico` is ignored; corrected, the icon request
      is ignored. */
  lemma FaviconNotIgnored()
    ensures ParseCommandAsWritten(Slash + Favicon) == Success(Error(UnknownRequest))
    ensures ParseCommandAsWritten(Slash + IgnoredAsWritten) == Success(Ignore)
    ensures ParseCommand(Slash + Favicon) == Success(Ignore)
  {
    KeywordsLower();
    ParseOtherSection(Favicon);
    ParseOtherSection(IgnoredAsWritten);
  }
}
