/** Name-keyed ordered collections: the linear scans (`iter().any`, `iter().find`, `retain`)
    that rooms, homes and servers run over their vectors. */
module Keyed {
  import opened Wrappers

  /** The key of every element, in order (`iter().map(|x| x.name()).collect()`). */
  function Keys<T>(s: seq<T>, key: T -> string): (r: seq<string>)
    ensures |r| == |s| && forall i :: 0 <= i < |s| ==> r[i] == key(s[i])
  {
    seq(|s|, i requires 0 <= i < |s| => key(s[i]))
  }

  /** No name occurs twice. */
  predicate Distinct(names: seq<string>) {
    forall i, j :: 0 <= i < j < |names| ==> names[i] != names[j]
  }

  /** `iter().position(|x| x == n)`: the first index holding `n`. */
  function Find(names: seq<string>, n: string): (r: Option<nat>)
    ensures r.None? <==> n !in names
    ensures r.Some? ==> r.value < |names| && names[r.value] == n && n !in names[..r.value]
  {
    if names == [] then None
    else if names[0] == n then Some(0)
    else
      match Find(names[1..], n)
      case None => None
      case Some(k) =>
        assert names[..k + 1] == [names[0]] + names[1..][..k];
        Some(k + 1)
  }

  /** With distinct names, the first index of a name is its only index. */
  lemma FindDistinct(names: seq<string>, i: nat)
    requires Distinct(names) && i < |names|
    ensures Find(names, names[i]) == Some(i)
  {
  }

  /** `retain(|x| key(x) != n)`: every element keyed `n` dropped, the rest kept in order. */
  function Without<T>(s: seq<T>, key: T -> string, n: string): (r: seq<T>)
    ensures |r| <= |s|
    ensures forall x :: x in r ==> x in s && key(x) != n
    ensures forall x :: x in s && key(x) != n ==> x in r
  {
    if s == [] then []
    else (if key(s[0]) == n then [] else [s[0]]) + Without(s[1..], key, n)
  }

  /** Retaining elements whose key is not `n` keeps everything when `n` is absent. */
  lemma {:induction false} WithoutAbsent<T>(s: seq<T>, key: T -> string, n: string)
    requires n !in Keys(s, key)
    ensures Without(s, key, n) == s
  {
    if s != [] {
      assert Keys(s[1..], key) == Keys(s, key)[1..];
      WithoutAbsent(s[1..], key, n);
    }
  }

  /** With distinct keys, retaining removes exactly the one element keyed `n` and keeps the
      relative order of the others. */
  lemma {:induction false} WithoutAt<T>(s: seq<T>, key: T -> string, i: nat)
    requires Distinct(Keys(s, key)) && i < |s|
    ensures Without(s, key, key(s[i])) == s[..i] + s[i + 1..]
  {
    var n := key(s[i]);
    DistinctTail(s, key);
    if i == 0 {
      assert n !in Keys(s[1..], key);
      WithoutAbsent(s[1..], key, n);
    } else {
      assert key(s[0]) != n by { assert Keys(s, key)[0] != Keys(s, key)[i]; }
      assert s[1..][i - 1] == s[i];
      WithoutAt(s[1..], key, i - 1);
      Splice(s, i);
    }
  }

  /** Cutting out element `i > 0` keeps the head in front of the cut tail. */
  lemma Splice<T>(s: seq<T>, i: nat)
    requires 0 < i < |s|
    ensures s[..i] + s[i + 1..] == [s[0]] + (s[1..][..i - 1] + s[1..][i..])
  {
    assert s[..i] == [s[0]] + s[1..][..i - 1];
  }

  /** The keys of the tail are the tail of the keys, and stay distinct. */
  lemma DistinctTail<T>(s: seq<T>, key: T -> string)
    requires Distinct(Keys(s, key)) && s != []
    ensures Keys(s[1..], key) == Keys(s, key)[1..] && Distinct(Keys(s[1..], key))
  {
    assert Keys(s[1..], key) == Keys(s, key)[1..];
  }

  /** Appending an element with a fresh key keeps the keys distinct. */
  lemma DistinctAppend<T>(s: seq<T>, key: T -> string, x: T)
    requires Distinct(Keys(s, key)) && key(x) !in Keys(s, key)
    ensures Distinct(Keys(s + [x], key))
  {
    assert Keys(s + [x], key) == Keys(s, key) + [key(x)];
  }

  /** Removing one element keeps the keys distinct. */
  lemma DistinctRemove<T>(s: seq<T>, key: T -> string, i: nat)
    requires Distinct(Keys(s, key)) && i < |s|
    ensures Distinct(Keys(s[..i] + s[i + 1..], key))
  {
    var k := Keys(s[..i] + s[i + 1..], key);
    forall a, b | 0 <= a < b < |k| ensures k[a] != k[b] {
      var a' := if a < i then a else a + 1;
      var b' := if b < i then b else b + 1;
      assert k[a] == Keys(s, key)[a'] && k[b] == Keys(s, key)[b'];
    }
  }

  /** Replacing an element by one with the same key keeps the keys. */
  lemma KeysUpdate<T>(s: seq<T>, key: T -> string, i: nat, x: T)
    requires i < |s| && key(x) == key(s[i])
    ensures Keys(s[i := x], key) == Keys(s, key)
  {
  }
}
