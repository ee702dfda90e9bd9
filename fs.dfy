/** Walking a directory hierarchy upwards (`iterate_hierarchy` in
    `tem/fs.py`), over POSIX path text. */
module Fs {
  import opened Results
  import opened Strings

  /** One past the last `/` of `p`, or 0 when it has none. */
  function LastSepEnd(p: string): (i: nat)
    ensures i <= |p|
    ensures i > 0 ==> p[i - 1] == '/'
  {
    if p == [] then 0
    else if p[|p| - 1] == '/' then |p|
    else LastSepEnd(p[..|p| - 1])
  }

  /** No `/` follows the one `LastSepEnd` finds. */
  lemma {:induction false} LastSepEndIsLast(p: string)
    ensures forall k :: LastSepEnd(p) <= k < |p| ==> p[k] != '/'
  {
    if p != [] && p[|p| - 1] != '/' {
      LastSepEndIsLast(p[..|p| - 1]);
    }
  }

  predicate AllSlashes(s: string) {
    forall k :: 0 <= k < |s| ==> s[k] == '/'
  }

  /** POSIX `os.path.dirname`: everything up to the last `/`, with trailing
      slashes removed unless it is made of slashes only. */
  function Dirname(p: string): (r: string)
    ensures StartsWith(p, r)
  {
    var head := p[..LastSepEnd(p)];
    if head != "" && !AllSlashes(head) then RStrip(head, '/') else head
  }

  /** A path is its own parent exactly when it is made of slashes only;
      any other path has a shorter parent. */
  lemma DirnameFixed(p: string)
    ensures Dirname(p) == p <==> AllSlashes(p)
    ensures Dirname(p) != p ==> |Dirname(p)| < |p|
  {
    var i := LastSepEnd(p);
    var head := p[..i];
    if AllSlashes(p) && p != "" {
      assert i == |p|;
      assert head == p;
    }
  }

  /** A path whose parent is itself: `/`, `//`, or the empty path. */
  predicate IsRoot(p: string) {
    Dirname(p) == p
  }

  /** The paths yielded after `path`, each the parent of the one before,
      up to and including the first root. */
  function Ascend(path: string): (r: seq<string>)
    decreases |path| + if IsRoot(path) then 1 else 0
    ensures |r| >= 1 && r[0] == Dirname(path)
  {
    var next := Dirname(path);
    DirnameFixed(path);
    [next] + if IsRoot(next) then [] else Ascend(next)
  }

  /** One step of the walk: the parent comes first, and unless it is a root
      the walk goes on from it, which is shorter. */
  lemma AscendStep(path: string)
    ensures Ascend(path) == [Dirname(path)] + if IsRoot(Dirname(path)) then [] else Ascend(Dirname(path))
    ensures !IsRoot(Dirname(path)) ==> |Dirname(path)| < |path|
  {
    DirnameFixed(path);
  }

  /** Each path of the walk is the parent of the one before, the walk ends
      at a root, and it meets no root before its end. */
  lemma {:induction false} AscendChain(path: string)
    decreases |path| + if IsRoot(path) then 1 else 0
    ensures var r := Ascend(path);
      && (forall i :: 0 < i < |r| ==> r[i] == Dirname(r[i - 1]))
      && IsRoot(r[|r| - 1])
      && (forall i :: 0 <= i < |r| - 1 ==> !IsRoot(r[i]))
  {
    var next := Dirname(path);
    AscendStep(path);
    if !IsRoot(next) {
      AscendChain(next);
    }
  }

  /** `iterate_hierarchy(path)`: the absolute path, then each parent in
      turn, ending with the root. The loop stops at the root it reaches,
      which is `/` for every path below `/`. */
  method IterateHierarchy(start: string, abspath: string -> string) returns (yielded: seq<string>)
    ensures yielded == [abspath(start)] + Ascend(abspath(start))
  {
    var path := abspath(start);
    yielded := [path];
    while true
      invariant yielded + Ascend(path) == [abspath(start)] + Ascend(abspath(start))
      decreases |path| + if IsRoot(path) then 1 else 0
    {
      var next := Dirname(path);
      AscendStep(path);
      path := next;
      yielded := yielded + [path];
      if IsRoot(path) {
        return;
      }
    }
  }

  /** Starting at `/` yields `/` twice. */
  lemma RootYieldedTwice(abspath: string -> string, start: string)
    requires abspath(start) == "/"
    ensures [abspath(start)] + Ascend(abspath(start)) == ["/", "/"]
  {
    DirnameFixed("/");
    assert AllSlashes("/");
    assert Ascend("/") == ["/"];
  }

  /** The loop as written: after `path`, yield its parent and stop once
      that parent is exactly `/`; `None` when `fuel` steps do not reach it. */
  function AscendAsWritten(path: string, fuel: nat): Option<seq<string>>
    decreases fuel
  {
    if fuel == 0 then None
    else
      var next := Dirname(path);
      if next == "/" then Some([next])
      else match AscendAsWritten(next, fuel - 1) {
        case None => None
        case Some(rest) => Some([next] + rest)
      }
  }

  /** From `//`, which POSIX normalisation keeps as it is, the loop as
      written never reaches `/`: every step yields `//` again. */
  lemma {:induction false} AsWrittenNeverEndsAtDoubleSlash(fuel: nat)
    ensures AscendAsWritten("//", fuel) == None
  {
    DirnameFixed("//");
    assert AllSlashes("//");
    if fuel > 0 {
      AsWrittenNeverEndsAtDoubleSlash(fuel - 1);
    }
  }

  /** Paths under the single root `/`. */
  predicate UnderSlash(p: string) {
    StartsWith(p, "/") && !StartsWith(p, "//")
  }

  /** Below `/` the parent stays below `/`, and the only root is `/`. */
  lemma DirnameUnderSlash(p: string)
    requires UnderSlash(p)
    ensures UnderSlash(Dirname(p))
    ensures IsRoot(p) <==> p == "/"
  {
    var r := Dirname(p);
    var i := LastSepEnd(p);
    assert i >= 1 by {
      LastSepEndIsLast(p);
      assert p[0] == '/';
    }
    assert r[0] == '/' by {
      var head := p[..i];
      if head != "" && !AllSlashes(head) {
        var k :| 0 <= k < |head| && head[k] != '/';
        RStripRemovesOnly(head, '/');
        assert |RStrip(head, '/')| > k;
      }
    }
    DirnameFixed(p);
    if p == "/" { assert AllSlashes(p); }
  }

  /** Below `/` the corrected loop and the loop as written yield the same
      paths, the latter with `|path|` steps at most. */
  lemma {:induction false} AscendAgreesUnderSlash(path: string, fuel: nat)
    requires UnderSlash(path) && fuel > |path|
    ensures AscendAsWritten(path, fuel) == Some(Ascend(path))
    decreases |path|
  {
    var next := Dirname(path);
    assert UnderSlash(next) && (IsRoot(next) <==> next == "/") && (next != "/" ==> |next| < |path|) by {
      DirnameUnderSlash(path);
      DirnameUnderSlash(next);
      DirnameFixed(path);
    }
    if next == "/" {
      assert Ascend(path) == [next];
      assert AscendAsWritten(path, fuel) == Some([next]);
    } else {
      AscendAgreesUnderSlash(next, fuel - 1);
      assert Ascend(path) == [next] + Ascend(next);
      assert AscendAsWritten(path, fuel) == Some([next] + Ascend(next));
    }
  }
}
