/** The server's one-line reply: `Ok`, `Ok::<result>` or `Error::<reason>`, ended by a newline. */
module TokenResponse {
  import opened Wrappers
  import opened Text

  datatype Response = Ok(result: Option<string>) | Error(reason: string)

  const Sep := "::"

  /** `Display for Response`, as written with `writeln!`. */
  function Render(r: Response): (s: string)
    ensures |s| >= 3 && s[|s| - 1] == '\n'
    ensures r.Ok? ==> s[..2] == "Ok"
    ensures r.Error? ==> |s| >= 8 && s[..7] == "Error::"
  {
    match r
    case Ok(None) => "Ok\n"
    case Ok(Some(p)) => "Ok::" + p + "\n"
    case Error(reason) => "Error::" + reason + "\n"
  }

  /** The text a reply carries after its tag: the payload, the reason, or nothing. */
  function Carried(r: Response): string {
    match r
    case Ok(None) => ""
    case Ok(Some(p)) => p
    case Error(reason) => reason
  }

  /** A reply whose payload or reason holds no newline is one line: its only newline is the
      last character. */
  lemma RenderOneLine(r: Response)
    requires forall i :: 0 <= i < |Carried(r)| ==> Carried(r)[i] != '\n'
    ensures forall i :: 0 <= i < |Render(r)| - 1 ==> Render(r)[i] != '\n'
  {
    var s, lead := Render(r), |Render(r)| - 1 - |Carried(r)|;
    assert 0 <= lead <= 7;
    forall i | 0 <= i < |s| - 1 ensures s[i] != '\n' {
      if i >= lead {
        assert s[i] == Carried(r)[i - lead];
      }
    }
  }

  /** `Response::from_str`: the text before the first `::` is the tag and the text between the
      first and the second `::`, when there is one, is the payload; anything after a second `::`
      is dropped. A tag other than `Ok` and `Error` is refused. */
  function ParseResponse(s: string): (r: Result<Response, ()>)
    ensures r.Success? ==>
      || (r.value.Ok? && (s == "Ok" || (|s| >= 4 && s[..4] == "Ok::")))
      || (r.value.Error? && (s == "Error" || (|s| >= 7 && s[..7] == "Error::")))
    ensures r.Success? && r.value.Ok? && r.value.result.Some? ==> |s| >= 4 && s[..4] == "Ok::"
  {
    var pieces := Split(s, Sep);
    var tag := pieces[0];
    var payload := if |pieces| >= 2 then Some(pieces[1]) else None;
    assert |pieces| >= 2 ==> s == tag + Sep + Join(pieces[1..], Sep);
    if tag == "Ok" then Success(Ok(payload))
    else if tag == "Error" then Success(Error(payload.GetOr("")))
    else Failure(())
  }

  /** The tags end in a character that is no part of the separator. */
  lemma TagsDelimit()
    ensures Delimits("Ok", Sep) && Delimits("Error", Sep)
  {
    assert !Contains("Ok", Sep) by {
      forall j: nat | j <= 2 ensures !OccursAt("Ok", Sep, j) {
        if j == 0 { assert "Ok"[1] != ':'; }
      }
    }
    assert !Contains("Error", Sep) by {
      forall j: nat | j <= 5 ensures !OccursAt("Error", Sep, j) {
        if j + 2 <= 5 { assert "Error"[j] != ':'; }
      }
    }
    DelimitsClean("Ok", Sep);
    DelimitsClean("Error", Sep);
  }

  /** Parsing a reply line, its newline removed, gives the reply back when the payload does not
      itself contain the separator. */
  lemma ParseRender(r: Response)
    requires r.Ok? && r.result.Some? ==> !Contains(r.result.value, Sep)
    requires r.Error? ==> !Contains(r.reason, Sep)
    ensures var s := Render(r); ParseResponse(s[..|s| - 1]) == Success(r)
  {
    TagsDelimit();
    var s := Render(r);
    match r
    case Ok(None) =>
      assert s[..|s| - 1] == "Ok";
      SplitWhole("Ok", Sep);
    case Ok(Some(p)) =>
      assert s[..|s| - 1] == "Ok" + Sep + p;
      SplitAfter("Ok", Sep, p);
      SplitWhole(p, Sep);
    case Error(reason) =>
      assert s[..|s| - 1] == "Error" + Sep + reason;
      SplitAfter("Error", Sep, reason);
      SplitWhole(reason, Sep);
  }

  /** With the newline still attached, a bare `Ok` is no longer recognised, and a payload comes
      back with the newline at its end. */
  lemma ParseRenderNewline(p: string)
    requires !Contains(p + "\n", Sep)
    ensures ParseResponse(Render(Ok(None))) == Failure(())
    ensures ParseResponse(Render(Ok(Some(p)))) == Success(Ok(Some(p + "\n")))
  {
    TagsDelimit();
    assert !Contains("Ok\n", Sep) by {
      forall j: nat | j <= 3 ensures !OccursAt("Ok\n", Sep, j) {
        if j + 2 <= 3 { assert "Ok\n"[j + 1] != ':'; }
      }
    }
    SplitWhole("Ok\n", Sep);
    assert "Ok::" + p + "\n" == "Ok" + Sep + (p + "\n");
    SplitAfter("Ok", Sep, p + "\n");
    SplitWhole(p + "\n", Sep);
  }

  /** Only the first payload segment is kept. */
  lemma ParseDropsExtraSegments(p: string, rest: string)
    requires Delimits(p, Sep)
    ensures ParseResponse("Ok::" + p + "::" + rest) == Success(Ok(Some(p)))
    ensures ParseResponse("Error::" + p + "::" + rest) == Success(Error(p))
  {
    TagsDelimit();
    assert "Ok::" + p + "::" + rest == "Ok" + Sep + (p + Sep + rest);
    SplitAfter("Ok", Sep, p + Sep + rest);
    assert "Error::" + p + "::" + rest == "Error" + Sep + (p + Sep + rest);
    SplitAfter("Error", Sep, p + Sep + rest);
    SplitAfter(p, Sep, rest);
  }

  /** `Error` without a payload reads as an empty reason. */
  lemma ParseBareError()
    ensures ParseResponse("Error") == Success(Error(""))
  {
    assert !Contains("Error", Sep) by {
      forall j: nat | j <= 5 ensures !OccursAt("Error", Sep, j) {
        if j + 2 <= 5 { assert "Error"[j] != ':'; }
      }
    }
    SplitWhole("Error", Sep);
  }
}
