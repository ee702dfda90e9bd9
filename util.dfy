/** The pure helpers of tem/util/__init__.py: `unique`, `explicit_path` and
    `shortpath`. The file system (`os.path.isdir`) and the home directory
    (`os.path.expanduser("~")`) are parameters. */
module Util {
  import opened Strings

  predicate NoDuplicates<T(==)>(s: seq<T>) {
    forall i, j :: 0 <= i < j < |s| ==> s[i] != s[j]
  }

  /** `unique(iterable)`, i.e. `dict.fromkeys(iterable)`: every element once,
      at the position of its first occurrence. */
  function Unique<T(==)>(s: seq<T>): (r: seq<T>)
    ensures NoDuplicates(r)
    ensures forall i :: 0 <= i < |r| ==> r[i] in s
    ensures forall i :: 0 <= i < |s| ==> s[i] in r
    decreases |s|
  {
    if |s| == 0 then [] else
      var init := s[..|s| - 1];
      var u := Unique(init);
      var x := s[|s| - 1];
      assert s == init + [x];
      if x in u then u else u + [x]
  }

  /** The elements of `unique(s)` come in the order of their first
      occurrence in `s`. */
  lemma {:induction false} UniqueKeepsFirstOccurrenceOrder<T>(s: seq<T>)
    ensures forall i, j :: 0 <= i < j < |Unique(s)| ==> IndexOf(s, Unique(s)[i]) < IndexOf(s, Unique(s)[j])
    decreases |s|
  {
    if |s| > 0 {
      var init, x := s[..|s| - 1], s[|s| - 1];
      var u := Unique(init);
      UniqueKeepsFirstOccurrenceOrder(init);
      assert s == init + [x];
      forall y | y in init ensures IndexOf(s, y) == IndexOf(init, y) {
        IndexOfPrefix(init, x, y);
      }
      if x !in u {
        assert x !in init;
        IndexOfLast(init, x);
        assert Unique(s) == u + [x];
      }
    }
  }

  lemma {:induction false} IndexOfPrefix<T>(init: seq<T>, x: T, y: T)
    requires y in init
    ensures IndexOf(init + [x], y) == IndexOf(init, y)
  {
    if init[0] != y {
      assert (init + [x])[1..] == init[1..] + [x];
      IndexOfPrefix(init[1..], x, y);
    }
  }

  lemma IndexOfLast<T>(init: seq<T>, x: T)
    requires x !in init
    ensures IndexOf(init + [x], x) == |init|
  {
    var s := init + [x];
    assert forall j :: 0 <= j < |init| ==> s[j] == init[j] != x;
  }

  /** A sequence without duplicates is its own `unique`. */
  lemma {:induction false} UniqueOfDistinct<T>(s: seq<T>)
    requires NoDuplicates(s)
    ensures Unique(s) == s
    decreases |s|
  {
    if |s| > 0 {
      var init, x := s[..|s| - 1], s[|s| - 1];
      UniqueOfDistinct(init);
      assert x !in init;
      assert Unique(s) == Unique(init) + [x];
    }
  }

  /** Extending a sequence keeps the `unique` of the original as a prefix:
      new elements only ever go after the old ones. */
  lemma {:induction false} UniquePrefix<T>(a: seq<T>, b: seq<T>)
    ensures StartsWith(Unique(a + b), Unique(a))
    decreases |b|
  {
    if b == [] {
      assert a + b == a;
    } else {
      var b', x := b[..|b| - 1], b[|b| - 1];
      var u, ua := Unique(a + b'), Unique(a);
      assert |ua| <= |u| && u[..|ua|] == ua by { UniquePrefix(a, b'); }
      assert Unique(a + b) == if x in u then u else u + [x] by {
        assert a + b == (a + b') + [x];
        UniqueSnoc(a + b', x);
      }
      if x !in u {
        assert (u + [x])[..|ua|] == ua;
      }
    }
  }

  /** `unique` of a sequence extended by one element. */
  lemma UniqueSnoc<T>(s: seq<T>, x: T)
    ensures Unique(s + [x]) == if x in Unique(s) then Unique(s) else Unique(s) + [x]
  {
    assert (s + [x])[..|s|] == s;
  }

  /** `unique` is idempotent. */
  lemma UniqueIdempotent<T>(s: seq<T>)
    ensures Unique(Unique(s)) == Unique(s)
  {
    UniqueOfDistinct(Unique(s));
  }

  /** The condition under which `explicit_path` prepends `./`. (Python reads
      `path[1]` whenever `path[0] == '.'`; it exists, since `path != "."`.) */
  predicate NeedsDotSlash(path: string) {
    && path != ""
    && path != "."
    && path[0] != '/'
    && path[0] != '~'
    && (path[0] != '.' || |path| < 2 || path[1] != '/')
  }

  /** The text ends in a newline. */
  predicate EndsInNewline(s: string) {
    s != "" && s[|s| - 1] == '\n'
  }

  /** `re.sub(r"([^/])$", r"\1/", path)`. Python's `$` matches at the end
      and also just before a final newline, so a path ending in a newline
      can take a slash on both sides of it. */
  function WithTrailingSlash(path: string): (r: string)
    ensures path != "" ==> r != "" && r[|r| - 1] == '/'
    ensures !EndsInNewline(path) ==> (r == path <==> path == "" || path[|path| - 1] == '/')
    ensures !EndsInNewline(path) && r != path ==> r == path + "/"
    ensures EndsInNewline(path) ==>
      r == (if |path| >= 2 && path[|path| - 2] != '/' then path[..|path| - 1] + "/\n/" else path + "/")
  {
    if path == "" then path
    else if path[|path| - 1] != '\n' then
      if path[|path| - 1] != '/' then path + "/" else path
    else if |path| >= 2 && path[|path| - 2] != '/' then path[..|path| - 1] + "/\n/"
    else path + "/"
  }

  /** `explicit_path(path)`; `isDir` stands for `os.path.isdir`. */
  function ExplicitPath(path: string, isDir: string -> bool): (r: string)
    ensures var p := if NeedsDotSlash(path) then "./" + path else path;
            && (!isDir(p) ==> r == p)
            && (isDir(p) ==> r == WithTrailingSlash(p))
  {
    var p := if NeedsDotSlash(path) then "./" + path else path;
    if isDir(p) then WithTrailingSlash(p) else p
  }

  /** The result is `path`, with `./` in front exactly when
      `NeedsDotSlash(path)`; a directory also gets a `/` at the end, and one
      more before a final newline that follows something other than `/`. */
  lemma ExplicitPathShape(path: string, isDir: string -> bool)
    ensures var r := ExplicitPath(path, isDir);
            var p := if NeedsDotSlash(path) then "./" + path else path;
            && (!isDir(p) ==> r == p)
            && (isDir(p) ==> r == p + "/" || r == p || (EndsInNewline(path) && r == p[..|p| - 1] + "/\n/"))
            && (isDir(p) && p != "" ==> (r != "" && r[|r| - 1] == '/'))
            && (isDir(p) && !EndsInNewline(path) ==> StartsWith(r, p))
  {
    var p := if NeedsDotSlash(path) then "./" + path else path;
    if EndsInNewline(path) {
      assert p[|p| - 1] == path[|path| - 1];
      assert EndsInNewline(p);
    } else if path != "" {
      assert p[|p| - 1] == path[|path| - 1];
      assert !EndsInNewline(p);
    }
  }

  /** For a directory `d\n` the result is `./d/\n/`: a slash lands before the
      newline as well as after it. */
  lemma ExplicitPathNewline()
    ensures ExplicitPath("d\n", p => true) == "./d/\n/"
  {
    assert NeedsDotSlash("d\n");
    assert ("./d\n")[..3] == "./d";
  }

  /** Adding the slash keeps the first character of a path, and the second
      one unless it is a final newline that a slash now precedes. */
  lemma WithTrailingSlashFront(p: string)
    requires p != ""
    ensures var r := WithTrailingSlash(p);
            && (r != "" && r[|r| - 1] == '/') && r[0] == p[0]
            && (|p| >= 2 ==> |r| >= 2 && (r[1] == p[1] || r[1] == '/'))
            && (p == "." ==> r == "./")
  {
  }

  /** `explicit_path` is idempotent, whatever the directory test says. */
  lemma ExplicitPathIdempotent(path: string, isDir: string -> bool)
    ensures ExplicitPath(ExplicitPath(path, isDir), isDir) == ExplicitPath(path, isDir)
  {
    var p := if NeedsDotSlash(path) then "./" + path else path;
    var r := ExplicitPath(path, isDir);
    assert !NeedsDotSlash(p);
    if isDir(p) && p != "" {
      WithTrailingSlashFront(p);
      assert !NeedsDotSlash(r);
      assert WithTrailingSlash(r) == r;
    }
  }

  /** `s.rstrip("/")`. */
  function RStripSlash(s: string): (r: string)
    ensures StartsWith(s, r)
    ensures r == "" || r[|r| - 1] != '/'
    ensures forall k :: |r| <= k < |s| ==> s[k] == '/'
  {
    if s != [] && s[|s| - 1] == '/' then RStripSlash(s[..|s| - 1]) else s
  }

  /** Python's `os.path.expanduser` on POSIX for paths starting with `~` or
      `~/`, given the value of `$HOME` (the `~user` form is left as it is):
      the home directory, less its trailing slashes, replaces the `~`, and
      an empty result becomes `/`. */
  function ExpandUser(path: string, home: string): (r: string)
    ensures path != "~" && !StartsWith(path, "~/") ==> r == path
    ensures (path == "~" || StartsWith(path, "~/")) && RStripSlash(home) + path[1..] != "" ==>
      r == RStripSlash(home) + path[1..]
    ensures r != "" || path == ""
  {
    if path == "~" || StartsWith(path, "~/") then
      var e := RStripSlash(home) + path[1..];
      if e == "" then "/" else e
    else path
  }

  /** `os.path.expanduser("~")`: the home directory without trailing
      slashes, or `/` when nothing else is left. */
  function HomeDir(home: string): (r: string)
    ensures r != "" && (r == "/" || r[|r| - 1] != '/')
    ensures RStripSlash(home) != "" ==> r == RStripSlash(home)
  {
    ExpandUser("~", home)
  }

  /** With `$HOME` at `/`, `~/x` expands to `/x` and `~` to `/`. */
  lemma ExpandUserRootHome()
    ensures ExpandUser("~/x", "/") == "/x"
    ensures ExpandUser("~", "/") == "/"
  {
    assert RStripSlash("/") == RStripSlash("");
  }

  /** `shortpath(path)` as written: the expanded home directory is replaced
      wherever it is a prefix of `path`, also inside a longer directory
      name. */
  function ShortPathAsWritten(path: string, home: string): (r: string)
    ensures StartsWith(path, HomeDir(home)) ==> r == "~" + path[|HomeDir(home)|..]
    ensures !StartsWith(path, HomeDir(home)) ==> r == path
  {
    var h := HomeDir(home);
    if StartsWith(path, h) then "~" + path[|h|..] else path
  }

  /** With `$HOME` at `/home/user`, that directory is a prefix of
      `/home/user2/x`, which `shortpath` turns into `~2/x`: a path that
      expands to something else. */
  lemma ShortPathAsWrittenBreaksExpansion()
    ensures ShortPathAsWritten("/home/user2/x", "/home/user") == "~2/x"
    ensures ExpandUser(ShortPathAsWritten("/home/user2/x", "/home/user"), "/home/user") != "/home/user2/x"
  {
    assert RStripSlash("/home/user") == "/home/user";
    assert StartsWith("/home/user2/x", "/home/user");
    assert "/home/user2/x"[|"/home/user"|..] == "2/x";
    assert "~2/x"[..2][1] == '2';
  }

  /** True when `path` is the home directory or lies inside it. */
  predicate InHome(path: string, home: string) {
    home != "" && (path == home || StartsWith(path, home + "/"))
  }

  /** `shortpath` as intended: the expanded home directory becomes `~` only
      when it is a whole leading part of `path`. */
  function ShortPath(path: string, home: string): (r: string)
    ensures InHome(path, HomeDir(home)) ==> StartsWith(r, "~") && r[1..] == path[|HomeDir(home)|..]
    ensures !InHome(path, HomeDir(home)) ==> r == path
  {
    var h := HomeDir(home);
    if InHome(path, h) then "~" + path[|h|..] else path
  }

  /** `~` followed by nothing or by `/...` expands to the expanded home
      directory followed by the same text. */
  lemma ExpandTilde(rest: string, home: string)
    requires RStripSlash(home) != ""
    requires rest == "" || rest[0] == '/'
    ensures ExpandUser("~" + rest, home) == HomeDir(home) + rest
  {
    var t := "~" + rest;
    assert t[1..] == rest;
    if rest != "" {
      assert t[..2] == "~/";
    }
  }

  /** A path that does not start with `~` expands to itself. */
  lemma ExpandPlain(path: string, home: string)
    requires !StartsWith(path, "~")
    ensures ExpandUser(path, home) == path
  {
    if |path| >= 2 {
      assert path[..1] == path[..2][..1];
    }
  }

  /** A path that is `h` or lies under `h/` is `h` followed by nothing or by
      a `/...` rest. */
  lemma UnderSplit(path: string, h: string)
    requires path == h || StartsWith(path, h + "/")
    ensures |h| <= |path| && path == h + path[|h|..]
    ensures path[|h|..] == "" || path[|h|..][0] == '/'
  {
    if path != h {
      assert path[..|h| + 1] == h + "/";
      assert path[..|h|] == path[..|h| + 1][..|h|];
      assert path == path[..|h|] + path[|h|..];
    }
  }

  /** Expanding `~` undoes `ShortPath` on every expanded path, when the
      home directory is more than slashes. */
  lemma ShortPathRoundTrip(path: string, home: string)
    requires !StartsWith(path, "~")
    requires RStripSlash(home) != ""
    ensures ExpandUser(ShortPath(path, home), home) == path
  {
    var h := HomeDir(home);
    if InHome(path, h) {
      UnderSplit(path, h);
      ExpandTilde(path[|h|..], home);
    } else {
      ExpandPlain(path, home);
    }
  }
}
