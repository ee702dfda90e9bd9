/** Sequence and string helpers shared by the modules below (Python's
    `startswith`, `endswith`, `split`, `in` on strings and list filters). */
module Strings {
  import opened Results

  predicate StartsWith<T(==)>(s: seq<T>, prefix: seq<T>) {
    |prefix| <= |s| && s[..|prefix|] == prefix
  }

  predicate EndsWith<T(==)>(s: seq<T>, suffix: seq<T>) {
    |suffix| <= |s| && s[|s| - |suffix|..] == suffix
  }

  /** Index of the first occurrence of `x` in `s`. */
  function IndexOf<T(==)>(s: seq<T>, x: T): (i: nat)
    requires x in s
    ensures i < |s| && s[i] == x && x !in s[..i]
  {
    if s[0] == x then 0 else
      var j := IndexOf(s[1..], x);
      assert s[1..][..j] == s[1..j + 1];
      1 + j
  }

  /** The elements of `s` satisfying `p`, in their original order. */
  function Filter<T>(s: seq<T>, p: T -> bool): (r: seq<T>)
    ensures |r| <= |s|
    ensures forall i :: 0 <= i < |r| ==> r[i] in s && p(r[i])
    ensures forall i :: 0 <= i < |s| && p(s[i]) ==> s[i] in r
  {
    if s == [] then [] else
      (if p(s[0]) then [s[0]] else []) + Filter(s[1..], p)
  }

  /** An element is kept exactly when it occurs and satisfies `p`. */
  lemma FilterMembers<T>(s: seq<T>, p: T -> bool, x: T)
    ensures x in Filter(s, p) <==> x in s && p(x)
  {
    if x in Filter(s, p) {
      var k :| 0 <= k < |Filter(s, p)| && Filter(s, p)[k] == x;
    }
    if x in s {
      var k :| 0 <= k < |s| && s[k] == x;
    }
  }

  lemma {:induction false} FilterAppend<T>(a: seq<T>, b: seq<T>, p: T -> bool)
    ensures Filter(a + b, p) == Filter(a, p) + Filter(b, p)
  {
    if a == [] {
      assert a + b == b;
    } else {
      assert (a + b)[1..] == a[1..] + b;
      FilterAppend(a[1..], b, p);
    }
  }

  /** Filtering one more element of a prefix. */
  lemma FilterStep<T>(s: seq<T>, i: nat, p: T -> bool)
    requires i < |s|
    ensures Filter(s[..i + 1], p) == Filter(s[..i], p) + if p(s[i]) then [s[i]] else []
  {
    assert s[..i + 1] == s[..i] + [s[i]];
    FilterAppend(s[..i], [s[i]], p);
  }

  /** The position of the first non-empty string, which is what
      `next(x for x in xs if x)` picks. */
  function FirstNonEmpty(xs: seq<string>): (i: nat)
    requires exists k :: 0 <= k < |xs| && xs[k] != ""
    ensures i < |xs| && xs[i] != ""
    ensures forall k :: 0 <= k < i ==> xs[k] == ""
  {
    if xs[0] != "" then 0
    else
      assert exists k :: 0 <= k < |xs[1..]| && xs[1..][k] != "" by {
        var k :| 0 <= k < |xs| && xs[k] != "";
        assert xs[1..][k - 1] == xs[k];
      }
      1 + FirstNonEmpty(xs[1..])
  }

  /** Python's `s.split(c, 1)`: the parts before and after the first `c`,
      or None when `s` holds no `c`. */
  function SplitFirst(s: string, c: char): (r: Option<(string, string)>)
    ensures r.None? <==> c !in s
    ensures r.Some? ==> c !in r.value.0 && r.value.0 + [c] + r.value.1 == s
  {
    if c !in s then None else
      var k := IndexOf(s, c);
      assert s == s[..k] + [c] + s[k + 1..];
      Some((s[..k], s[k + 1..]))
  }

  /** `split(c, 1)` cuts at the first `c`, whatever the second part holds. */
  lemma SplitFirstAt(l: string, c: char, r: string)
    requires c !in l
    ensures SplitFirst(l + [c] + r, c) == Some((l, r))
  {
    var s := l + [c] + r;
    var (l', r') := SplitFirst(s, c).value;
    assert |l'| == |l| by {
      assert s[|l'|] == c && s[|l|] == c;
      assert |l'| >= |l| ==> s[..|l|] == l;
      assert |l| >= |l'| ==> s[..|l'|] == l';
    }
    assert l' == s[..|l|] == l;
    assert r' == s[|l| + 1..] == r;
  }

  /** Python's `s.split(c)`: the pieces between the occurrences of `c`. */
  function Split(s: string, c: char): (r: seq<string>)
    ensures |r| >= 1
    ensures forall i :: 0 <= i < |r| ==> c !in r[i]
    decreases |s|
  {
    match SplitFirst(s, c)
    case None => [s]
    case Some((head, tail)) => [head] + Split(tail, c)
  }

  /** The inverse of `Split`: the pieces glued back with `c`. */
  function Join(pieces: seq<string>, c: char): string {
    if |pieces| == 0 then "" else
    if |pieces| == 1 then pieces[0] else
      pieces[0] + [c] + Join(pieces[1..], c)
  }

  lemma {:induction false} JoinSplit(s: string, c: char)
    ensures Join(Split(s, c), c) == s
    decreases |s|
  {
    match SplitFirst(s, c)
    case None =>
    case Some((head, tail)) =>
      JoinSplit(tail, c);
      assert Split(s, c) == [head] + Split(tail, c);
  }

  predicate NonEmpty(s: string) { s != "" }

  /** `[line for line in s.split("\n") if line]`. */
  function NonEmptyLines(s: string): (r: seq<string>)
    ensures forall i :: 0 <= i < |r| ==> r[i] != "" && '\n' !in r[i]
  {
    Filter(Split(s, '\n'), NonEmpty)
  }

  /** Python's `str.rstrip(c)`. */
  function RStrip(s: string, c: char): (r: string)
    ensures StartsWith(s, r)
    ensures r == "" || r[|r| - 1] != c
  {
    if s == [] || s[|s| - 1] != c then s else RStrip(s[..|s| - 1], c)
  }

  /** `rstrip` removes only copies of `c`. */
  lemma {:induction false} RStripRemovesOnly(s: string, c: char)
    ensures forall i :: |RStrip(s, c)| <= i < |s| ==> s[i] == c
  {
    if s != [] && s[|s| - 1] == c {
      RStripRemovesOnly(s[..|s| - 1], c);
    }
  }
}
