/** The pieces of Rust's `str` API the core uses: whitespace splitting, trimming, ASCII
    lower-casing, splitting on a separator, joining, decimal rendering and UTF-8 length. */
module Text {
  import opened Wrappers

  /** Unicode White_Space, the set `char::is_whitespace`, `str::trim` and
      `str::split_whitespace` use. */
  predicate IsWhitespace(c: char) {
    c == ' ' || ('\t' <= c <= '\r') || c == '\U{85}' || c == '\U{A0}' || c == '\U{1680}'
    || ('\U{2000}' <= c <= '\U{200A}') || c == '\U{2028}' || c == '\U{2029}'
    || c == '\U{202F}' || c == '\U{205F}' || c == '\U{3000}'
  }

  /** A string made only of whitespace (possibly empty). */
  predicate IsBlank(s: string) {
    forall i :: 0 <= i < |s| ==> IsWhitespace(s[i])
  }

  /** A non-empty string without whitespace: what `split_whitespace` yields. */
  predicate IsWord(s: string) {
    s != [] && forall i :: 0 <= i < |s| ==> !IsWhitespace(s[i])
  }

  // ---------------------------------------------------------------- split_whitespace

  /** Length of the longest whitespace-free prefix of `s`. */
  function WordLength(s: string): (n: nat)
    ensures n <= |s|
    ensures forall i :: 0 <= i < n ==> !IsWhitespace(s[i])
    ensures n < |s| ==> IsWhitespace(s[n])
  {
    if s == [] || IsWhitespace(s[0]) then 0 else 1 + WordLength(s[1..])
  }

  /** `str::split_whitespace`: the maximal whitespace-free runs of `s`, in order. */
  function SplitWhitespace(s: string): (r: seq<string>)
    ensures forall k :: 0 <= k < |r| ==> IsWord(r[k])
    decreases |s|
  {
    if s == [] then []
    else if IsWhitespace(s[0]) then SplitWhitespace(s[1..])
    else
      var n := WordLength(s);
      [s[..n]] + SplitWhitespace(s[n..])
  }

  /** A word followed by whitespace (or nothing) is one token. */
  lemma {:induction false} WordLengthOfWord(w: string, t: string)
    requires forall i :: 0 <= i < |w| ==> !IsWhitespace(w[i])
    requires t == [] || IsWhitespace(t[0])
    ensures WordLength(w + t) == |w|
  {
    if w != [] {
      assert (w + t)[1..] == w[1..] + t;
      WordLengthOfWord(w[1..], t);
    }
  }

  /** Leading whitespace does not change the tokens. */
  lemma {:induction false} SplitBlankPrefix(w: string, s: string)
    requires IsBlank(w)
    ensures SplitWhitespace(w + s) == SplitWhitespace(s)
  {
    if w != [] {
      assert IsWhitespace((w + s)[0]);
      assert (w + s)[1..] == w[1..] + s;
      assert SplitWhitespace(w + s) == SplitWhitespace(w[1..] + s);
      SplitBlankPrefix(w[1..], s);
    } else {
      assert w + s == s;
    }
  }

  /** Trailing whitespace (a newline, say) does not change the tokens. */
  lemma {:induction false} SplitBlankSuffix(s: string, w: string)
    requires IsBlank(w)
    ensures SplitWhitespace(s + w) == SplitWhitespace(s)
    decreases |s|
  {
    if s == [] {
      assert s + w == w + [];
      SplitBlankPrefix(w, []);
    } else if IsWhitespace(s[0]) {
      assert (s + w)[1..] == s[1..] + w;
      SplitBlankSuffix(s[1..], w);
    } else {
      var n := WordLength(s);
      assert s == s[..n] + s[n..];
      assert s + w == s[..n] + (s[n..] + w);
      WordLengthOfWord(s[..n], s[n..] + w);
      assert (s + w)[..n] == s[..n];
      assert (s + w)[n..] == s[n..] + w;
      SplitBlankSuffix(s[n..], w);
    }
  }

  /** Words joined by single spaces split back into the same words. */
  lemma {:induction false} SplitJoinedWords(words: seq<string>)
    requires forall k :: 0 <= k < |words| ==> IsWord(words[k])
    ensures SplitWhitespace(Join(words, " ")) == words
  {
    if |words| == 1 {
      var w := words[0];
      WordLengthOfWord(w, []);
      assert w + [] == w;
      assert w[|w|..] == [];
    } else if |words| > 1 {
      var w, rest := words[0], Join(words[1..], " ");
      assert Join(words, " ") == w + (" " + rest);
      WordLengthOfWord(w, " " + rest);
      assert (w + (" " + rest))[..|w|] == w;
      assert (w + (" " + rest))[|w|..] == " " + rest;
      assert (" " + rest)[1..] == rest;
      SplitJoinedWords(words[1..]);
    }
  }

  // ---------------------------------------------------------------- trim

  /** `str::trim_start` */
  function TrimStart(s: string): (r: string)
    ensures |r| <= |s| && r == s[|s| - |r|..] && IsBlank(s[..|s| - |r|])
    ensures r == [] || !IsWhitespace(r[0])
  {
    if s != [] && IsWhitespace(s[0]) then
      var r := TrimStart(s[1..]);
      assert s[..|s| - |r|] == [s[0]] + s[1..][..|s| - 1 - |r|];
      r
    else s
  }

  /** `str::trim_end` */
  function TrimEnd(s: string): (r: string)
    ensures |r| <= |s| && r == s[..|r|] && IsBlank(s[|r|..])
    ensures r == [] || !IsWhitespace(r[|r| - 1])
  {
    if s != [] && IsWhitespace(s[|s| - 1]) then
      var r := TrimEnd(s[..|s| - 1]);
      assert s[|r|..] == s[..|s| - 1][|r|..] + [s[|s| - 1]];
      r
    else s
  }

  /** `str::trim`: whitespace removed at both ends. */
  function Trim(s: string): string {
    TrimEnd(TrimStart(s))
  }

  lemma {:induction false} TrimStartPadded(w: string, s: string)
    requires IsBlank(w) && (s == [] || !IsWhitespace(s[0]))
    ensures TrimStart(w + s) == s
  {
    if w != [] {
      assert (w + s)[1..] == w[1..] + s;
      TrimStartPadded(w[1..], s);
    }
  }

  lemma {:induction false} TrimEndPadded(s: string, w: string)
    requires IsBlank(w) && (s == [] || !IsWhitespace(s[|s| - 1]))
    ensures TrimEnd(s + w) == s
    decreases |w|
  {
    if w != [] {
      var w' := w[..|w| - 1];
      assert (s + w)[..|s + w| - 1] == s + w';
      TrimEndPadded(s, w');
    }
  }

  /** Trimming a padded word-like string recovers it. */
  lemma TrimPadded(w1: string, s: string, w2: string)
    requires IsBlank(w1) && IsBlank(w2)
    requires s == [] || (!IsWhitespace(s[0]) && !IsWhitespace(s[|s| - 1]))
    ensures Trim(w1 + s + w2) == s
  {
    if s == [] {
      assert w1 + s + w2 == w1 + w2;
      TrimStartPadded(w1 + w2, []);
      assert w1 + w2 + [] == w1 + w2;
    } else {
      assert w1 + s + w2 == w1 + (s + w2);
      TrimStartPadded(w1, s + w2);
      TrimEndPadded(s, w2);
    }
  }

  /** A string that neither starts nor ends with whitespace is its own trim. */
  lemma TrimUnpadded(s: string)
    requires s == [] || (!IsWhitespace(s[0]) && !IsWhitespace(s[|s| - 1]))
    ensures Trim(s) == s
  {
    assert TrimStart(s) == s;
    assert TrimEnd(s) == s;
  }

  // ---------------------------------------------------------------- to_lowercase

  /** ASCII lower-casing of one character; other characters are kept. */
  function LowerChar(c: char): char {
    if 'A' <= c <= 'Z' then (c as int + 32) as char else c
  }

  /** `str::to_lowercase`, restricted to ASCII letters. */
  function ToLower(s: string): (r: string)
    ensures |r| == |s|
    ensures forall i :: 0 <= i < |s| ==> r[i] == LowerChar(s[i])
  {
    seq(|s|, i requires 0 <= i < |s| => LowerChar(s[i]))
  }

  /** A string without ASCII capitals is its own lower-case form. */
  lemma LowerFixed(s: string)
    requires forall i :: 0 <= i < |s| ==> !('A' <= s[i] <= 'Z')
    ensures ToLower(s) == s
  {
  }

  /** Lower-casing twice is lower-casing once. */
  lemma LowerIdempotent(s: string)
    ensures ToLower(ToLower(s)) == ToLower(s)
  {
  }

  /** Lower-casing neither creates nor removes whitespace, so it commutes with `trim`. */
  lemma LowerTrimCommute(s: string)
    ensures ToLower(Trim(s)) == Trim(ToLower(s))
  {
    assert forall c: char :: IsWhitespace(LowerChar(c)) == IsWhitespace(c);
    LowerTrimStart(s);
    LowerTrimEnd(TrimStart(s));
  }

  lemma {:induction false} LowerTrimStart(s: string)
    ensures ToLower(TrimStart(s)) == TrimStart(ToLower(s))
  {
    assert forall c: char :: IsWhitespace(LowerChar(c)) == IsWhitespace(c);
    if s != [] && IsWhitespace(s[0]) {
      assert ToLower(s)[1..] == ToLower(s[1..]);
      LowerTrimStart(s[1..]);
    }
  }

  lemma {:induction false} LowerTrimEnd(s: string)
    ensures ToLower(TrimEnd(s)) == TrimEnd(ToLower(s))
  {
    assert forall c: char :: IsWhitespace(LowerChar(c)) == IsWhitespace(c);
    if s != [] && IsWhitespace(s[|s| - 1]) {
      assert ToLower(s)[..|s| - 1] == ToLower(s[..|s| - 1]);
      LowerTrimEnd(s[..|s| - 1]);
    }
  }

  // ---------------------------------------------------------------- join and split

  /** `[String]::join(sep)` (and, with `sep == ""`, `collect::<String>()`). */
  function Join(parts: seq<string>, sep: string): string {
    if parts == [] then ""
    else if |parts| == 1 then parts[0]
    else parts[0] + sep + Join(parts[1..], sep)
  }

  /** `sep` occurs in `s` starting at index `i`. */
  predicate OccursAt(s: string, sep: string, i: nat) {
    i + |sep| <= |s| && s[i..i + |sep|] == sep
  }

  predicate Contains(s: string, sep: string) {
    exists i: nat | i <= |s| :: OccursAt(s, sep, i)
  }

  /** The first occurrence of `sep` in `s` at or after index `i`. */
  function FindFrom(s: string, sep: string, i: nat): (r: Option<nat>)
    requires sep != [] && i <= |s|
    ensures r.Some? ==> i <= r.value && OccursAt(s, sep, r.value)
    ensures r.Some? ==> forall j: nat :: i <= j < r.value ==> !OccursAt(s, sep, j)
    ensures r.None? ==> forall j: nat :: i <= j ==> !OccursAt(s, sep, j)
    decreases |s| - i
  {
    if i + |sep| > |s| then None
    else if s[i..i + |sep|] == sep then Some(i)
    else FindFrom(s, sep, i + 1)
  }

  /** `str::split(sep)`: the pieces between non-overlapping occurrences of `sep`, found left to
      right. There is always at least one piece, and no piece contains `sep`. */
  function Split(s: string, sep: string): (r: seq<string>)
    requires sep != []
    ensures |r| >= 1
    ensures forall k :: 0 <= k < |r| ==> !Contains(r[k], sep)
    ensures Join(r, sep) == s
    decreases |s|
  {
    match FindFrom(s, sep, 0)
    case None => [s]
    case Some(i) =>
      var head, rest := s[..i], Split(s[i + |sep|..], sep);
      assert !Contains(head, sep) by {
        forall j: nat | j <= |head| ensures !OccursAt(head, sep, j) {
          if j + |sep| <= |head| {
            assert head[j..j + |sep|] == s[j..j + |sep|];
            assert !OccursAt(s, sep, j);
          }
        }
      }
      assert s == head + sep + s[i + |sep|..];
      [head] + rest
  }

  /** The first occurrence of `sep` in `p + sep` is the appended one; this is what a piece
      needs for `Split` to stop exactly after it. */
  predicate Delimits(p: string, sep: string)
    requires sep != []
  {
    FindFrom(p + sep, sep, 0) == Some(|p|)
  }

  /** Scanning from `i` stops at `k` when `k` is the first occurrence from `i` on. */
  lemma {:induction false} FindFromAt(s: string, sep: string, i: nat, k: nat)
    requires sep != [] && i <= k && OccursAt(s, sep, k)
    requires forall j: nat :: i <= j < k ==> !OccursAt(s, sep, j)
    ensures FindFrom(s, sep, i) == Some(k)
    decreases k - i
  {
    if i < k {
      FindFromAt(s, sep, i + 1, k);
    }
  }

  /** A first occurrence found in a prefix is the first occurrence in the whole string. */
  lemma {:induction false} FindFromExtend(s: string, t: string, sep: string, i: nat)
    requires sep != [] && i <= |s| && FindFrom(s, sep, i).Some?
    ensures FindFrom(s + t, sep, i) == FindFrom(s, sep, i)
    decreases |s| - i
  {
    assert (s + t)[i..i + |sep|] == s[i..i + |sep|];
    if s[i..i + |sep|] != sep {
      FindFromExtend(s, t, sep, i + 1);
    }
  }

  /** Splitting after a delimiting head. */
  lemma SplitAfter(head: string, sep: string, tail: string)
    requires sep != [] && Delimits(head, sep)
    ensures Split(head + sep + tail, sep) == [head] + Split(tail, sep)
  {
    FindFromExtend(head + sep, tail, sep, 0);
    var s := head + sep + tail;
    assert s[..|head|] == head;
    assert s[|head| + |sep|..] == tail;
  }

  /** A string without `sep` is a single piece. */
  lemma SplitWhole(s: string, sep: string)
    requires sep != [] && !Contains(s, sep)
    ensures Split(s, sep) == [s]
  {
  }

  /** Splitting undoes joining, when every piece but the last delimits and the last is free of
      the separator. */
  lemma {:induction false} SplitJoin(parts: seq<string>, sep: string)
    requires sep != [] && |parts| >= 1
    requires forall k :: 0 <= k < |parts| - 1 ==> Delimits(parts[k], sep)
    requires !Contains(parts[|parts| - 1], sep)
    ensures Split(Join(parts, sep), sep) == parts
  {
    if |parts| == 1 {
      SplitWhole(parts[0], sep);
    } else {
      SplitJoin(parts[1..], sep);
      SplitAfter(parts[0], sep, Join(parts[1..], sep));
    }
  }

  /** A piece that does not contain `sep` and does not end in any character of `sep`
      delimits: an occurrence overlapping the appended `sep` would have to end the piece with
      one of its characters. */
  lemma DelimitsClean(p: string, sep: string)
    requires sep != [] && !Contains(p, sep)
    requires p == [] || p[|p| - 1] !in sep
    ensures Delimits(p, sep)
  {
    var s := p + sep;
    assert OccursAt(s, sep, |p|);
    forall j: nat | j < |p| ensures !OccursAt(s, sep, j) {
      if j + |sep| <= |p| {
        assert s[j..j + |sep|] == p[j..j + |sep|];
        assert !OccursAt(p, sep, j);
      } else {
        var d := |p| - 1 - j;
        assert s[|p| - 1] == p[|p| - 1];
        assert sep[d] in sep;
        assert s[j..j + |sep|][d] != sep[d];
      }
    }
    FindFromAt(s, sep, 0, |p|);
  }

  /** For a one-character separator, delimiting is just not containing it. */
  lemma DelimitsChar(p: string, c: char)
    requires !Contains(p, [c])
    ensures Delimits(p, [c])
  {
    if p != [] {
      assert OccursAt(p, [c], |p| - 1) <==> p[|p| - 1] == c;
    }
    DelimitsClean(p, [c]);
  }

  /** `split` yields a single piece exactly when the separator does not occur. */
  lemma SplitSingle(s: string, sep: string)
    requires sep != []
    ensures |Split(s, sep)| == 1 <==> !Contains(s, sep)
  {
    var r := Split(s, sep);
    if |r| >= 2 {
      assert s == r[0] + sep + Join(r[1..], sep);
      assert OccursAt(s, sep, |r[0]|);
    }
  }

  /** Splitting undoes joining when no piece contains the separator and no piece but the last
      ends in one of its characters. */
  lemma SplitJoinClean(parts: seq<string>, sep: string)
    requires sep != [] && |parts| >= 1
    requires forall k :: 0 <= k < |parts| ==> !Contains(parts[k], sep)
    requires forall k :: 0 <= k < |parts| - 1 ==> parts[k] == [] || parts[k][|parts[k]| - 1] !in sep
    ensures Split(Join(parts, sep), sep) == parts
  {
    forall k | 0 <= k < |parts| - 1 ensures Delimits(parts[k], sep) {
      DelimitsClean(parts[k], sep);
    }
    SplitJoin(parts, sep);
  }

  // ---------------------------------------------------------------- decimal rendering

  predicate IsDigit(c: char) {
    '0' <= c <= '9'
  }

  function DigitChar(d: nat): (c: char)
    requires d < 10
    ensures IsDigit(c) && c as int - '0' as int == d
  {
    ('0' as int + d) as char
  }

  /** `Display` of an unsigned integer: decimal digits without leading zeros. */
  function NatToString(n: nat): (r: string)
    ensures r != [] && forall i :: 0 <= i < |r| ==> IsDigit(r[i])
    ensures r[0] == '0' ==> n == 0
    decreases n
  {
    if n < 10 then [DigitChar(n)] else NatToString(n / 10) + [DigitChar(n % 10)]
  }

  /** The value of a string of decimal digits, as a reference for `NatToString`. */
  function DigitsValue(s: string): nat
    requires forall i :: 0 <= i < |s| ==> IsDigit(s[i])
  {
    if s == [] then 0
    else
      assert IsDigit(s[|s| - 1]);
      DigitsValue(s[..|s| - 1]) * 10 + (s[|s| - 1] as int - '0' as int)
  }

  /** Rendering is faithful: reading the digits back gives the number. */
  lemma {:induction false} NatToStringValue(n: nat)
    ensures DigitsValue(NatToString(n)) == n
    decreases n
  {
    if n >= 10 {
      var s := NatToString(n);
      assert s[..|s| - 1] == NatToString(n / 10);
      NatToStringValue(n / 10);
    }
  }

  /** `Display` of a signed integer. */
  function IntToString(i: int): (r: string)
    ensures r != []
    ensures i < 0 <==> r[0] == '-'
    ensures forall k :: 0 < k < |r| ==> IsDigit(r[k])
  {
    if i < 0 then "-" + NatToString(-i) else NatToString(i)
  }

  // ---------------------------------------------------------------- UTF-8 length

  /** Bytes that UTF-8 uses for one scalar value. */
  function Utf8Width(c: char): nat {
    if c < '\U{80}' then 1 else if c < '\U{800}' then 2 else if c < '\U{10000}' then 3 else 4
  }

  /** `String::len`: the length in UTF-8 bytes, not in characters. */
  function Utf8Length(s: string): (n: nat)
    ensures |s| <= n <= 4 * |s|
  {
    if s == [] then 0 else Utf8Width(s[0]) + Utf8Length(s[1..])
  }

  lemma {:induction false} Utf8LengthAppend(a: string, b: string)
    ensures Utf8Length(a + b) == Utf8Length(a) + Utf8Length(b)
  {
    if a != [] {
      assert (a + b)[0] == a[0];
      assert (a + b)[1..] == a[1..] + b;
      assert Utf8Length(a + b) == Utf8Width(a[0]) + Utf8Length(a[1..] + b);
      Utf8LengthAppend(a[1..], b);
    } else {
      assert a + b == b;
    }
  }

  /** For ASCII text bytes and characters agree. */
  lemma {:induction false} Utf8LengthAscii(s: string)
    requires forall i :: 0 <= i < |s| ==> s[i] < '\U{80}'
    ensures Utf8Length(s) == |s|
  {
    if s != [] {
      Utf8LengthAscii(s[1..]);
    }
  }
}
