/** The framing of the HTTP device server's answers: a status line, a Content-Length header
    holding the content's length in UTF-8 bytes, a blank line, and the content. */
module HttpFrame {
  import opened Wrappers
  import opened Text

  const HeaderLead := "\r\nContent-Length: "
  const HeaderEnd := "\r\n\r\n"

  /** `format!("{status_line}\r\nContent-Length: {content_length}\r\n\r\n{content}")`, where the
      length is `String::len`, in bytes. */
  function Frame(status: string, content: string): string {
    FrameWith(status, NatToString(Utf8Length(content)), content)
  }

  /** A frame whose Content-Length field is `field`. */
  function FrameWith(status: string, field: string, content: string): string {
    status + HeaderLead + field + HeaderEnd + content
  }

  /** A reader can take a frame apart: the first blank line ends the header, right after the
      Content-Length field. */
  lemma FrameHeaderEnd(status: string, content: string)
    requires '\r' !in status
    ensures var d := NatToString(Utf8Length(content));
      FindFrom(Frame(status, content), HeaderEnd, 0) == Some(|status| + |HeaderLead| + |d|)
  {
    FrameParts(status, NatToString(Utf8Length(content)), content);
  }

  /** The status line leads a frame, the content follows the blank line, and between the header
      lead and the blank line the frame holds the content's byte length in decimal digits. */
  lemma FrameContentLength(status: string, content: string)
    requires '\r' !in status
    ensures var f, d := Frame(status, content), NatToString(Utf8Length(content));
      var h := |status| + |HeaderLead| + |d|;
      && f[..|status|] == status
      && f[h + |HeaderEnd|..] == content
      && (forall k :: |status| + |HeaderLead| <= k < h ==> IsDigit(f[k]))
      && DigitsValue(f[|status| + |HeaderLead|..h]) == Utf8Length(content)
  {
    FrameSlices(status, NatToString(Utf8Length(content)), content);
    NatToStringValue(Utf8Length(content));
  }

  /** The first blank line of a frame with any field `d` of digits follows the field. */
  lemma FrameParts(status: string, d: string, content: string)
    requires '\r' !in status && forall i :: 0 <= i < |d| ==> IsDigit(d[i])
    ensures FindFrom(FrameWith(status, d, content), HeaderEnd, 0)
      == Some(|status| + |HeaderLead| + |d|)
  {
    var p := status + HeaderLead + d;
    assert FrameWith(status, d, content) == p + HeaderEnd + content;
    LeadCarriageReturn(status, d);
    BlankLineAfter(p, content, |status|);
  }

  /** The slices of a frame with any field `d` of digits: the status, the field and the content. */
  lemma FrameSlices(status: string, d: string, content: string)
    requires forall i :: 0 <= i < |d| ==> IsDigit(d[i])
    ensures var f, h := FrameWith(status, d, content), |status| + |HeaderLead| + |d|;
      && f[..|status|] == status
      && f[h + |HeaderEnd|..] == content
      && (forall k :: |status| + |HeaderLead| <= k < h ==> IsDigit(f[k]))
      && f[|status| + |HeaderLead|..h] == d
  {
    var a := |status| + |HeaderLead|;
    var p := status + HeaderLead + d;
    var f := FrameWith(status, d, content);
    assert f == p + HeaderEnd + content;
    assert f[..|status|] == p[..|status|] == status;
    assert f[a..|p|] == p[a..] == d;
    assert f[|p| + |HeaderEnd|..] == content;
    forall k | a <= k < |p| ensures IsDigit(f[k]) {
      assert f[k] == d[k - a];
    }
  }

  /** In `status + HeaderLead + d`, the only carriage return is the one that ends the status
      line, and it is not followed by a blank line. */
  lemma LeadCarriageReturn(status: string, d: string)
    requires '\r' !in status && forall i :: 0 <= i < |d| ==> IsDigit(d[i])
    ensures var p := status + HeaderLead + d;
      && (forall j :: 0 <= j < |p| && j != |status| ==> p[j] != '\r')
      && p[|status| + 2] == 'C'
  {
    var p := status + HeaderLead + d;
    var a := |status| + |HeaderLead|;
    forall j | 0 <= j < |p| && j != |status| ensures p[j] != '\r' {
      if j < |status| {
        assert p[j] == status[j];
      } else if j < a {
        assert p[j] == HeaderLead[j - |status|];
      } else {
        assert p[j] == d[j - a];
      }
    }
    assert p[|status| + 2] == HeaderLead[2];
  }

  /** When `p` has at most one carriage return, at `lead`, with no `\r` two places later, the
      first blank line of `p + HeaderEnd + c` is the one after `p`. */
  lemma BlankLineAfter(p: string, c: string, lead: nat)
    requires lead + 2 < |p| && p[lead + 2] != '\r'
    requires forall j :: 0 <= j < |p| && j != lead ==> p[j] != '\r'
    ensures FindFrom(p + HeaderEnd + c, HeaderEnd, 0) == Some(|p|)
  {
    var f := p + HeaderEnd + c;
    forall j: nat | j < |p| ensures !OccursAt(f, HeaderEnd, j) {
      assert f[j..j + |HeaderEnd|][0] == f[j] && f[j..j + |HeaderEnd|][2] == f[j + 2];
      if j == lead {
        assert f[j + 2] == p[j + 2];
      } else {
        assert f[j] == p[j];
      }
    }
    assert f[|p|..|p| + |HeaderEnd|] == HeaderEnd;
    FindFromAt(f, HeaderEnd, 0, |p|);
  }
}
