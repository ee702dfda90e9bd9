/** The configuration parser and the configuration globals of
    `tem/config.py`, over an abstract section -> option -> value map
    (configparser's file syntax is not part of this model). */
module Config {
  import opened Results
  import opened Strings
  import opened Util

  type Sections = map<string, map<string, string>>

  /** The section of a key written without a `.`. */
  const GENERAL := "general"

  /** `option.split(".", 1)`, with `general` put in front of a lone option:
      the section and the option a dotted key names. */
  function SplitKey(key: string): (r: (string, string))
    ensures '.' !in key ==> r == (GENERAL, key)
    ensures '.' in key ==> '.' !in r.0 && r.0 + "." + r.1 == key
  {
    match SplitFirst(key, '.')
    case None => (GENERAL, key)
    case Some((section, option)) => (section, option)
  }

  /** `a.b.c` names option `b.c` of section `a`. */
  lemma SplitKeyAtFirstDot(section: string, option: string)
    requires '.' !in section
    ensures SplitKey(section + "." + option) == (section, option)
  {
    SplitFirstAt(section, '.', option);
  }

  /** `get(section, option, fallback="")`. */
  function Lookup(sections: Sections, section: string, option: string): string {
    if section in sections && option in sections[section] then sections[section][option] else ""
  }

  /** `set(section, option, value)`, adding the section when it is missing:
      the one option takes the value and every other lookup is as before. */
  function Store(sections: Sections, section: string, option: string, value: string): (r: Sections)
    ensures r.Keys == sections.Keys + {section}
    ensures Lookup(r, section, option) == value
    ensures forall s, o :: (s, o) != (section, option) ==> Lookup(r, s, o) == Lookup(sections, s, o)
  {
    sections[section := (if section in sections then sections[section] else map[])[option := value]]
  }

  /** The sections after a file's sections are read in: options of the file
      replace options of the same name, the rest stay. */
  function Merge(sections: Sections, file: Sections): (r: Sections)
    ensures r.Keys == sections.Keys + file.Keys
  {
    map s | s in sections.Keys + file.Keys ::
      (if s in sections then sections[s] else map[]) + (if s in file then file[s] else map[])
  }

  lemma LookupMerge(sections: Sections, file: Sections, s: string, o: string)
    ensures Lookup(Merge(sections, file), s, o) ==
      if s in file && o in file[s] then file[s][o] else Lookup(sections, s, o)
  {
  }

  /** `read(paths)`: the files that exist, read in order; `files` holds the
      parsed contents of every readable file. */
  function ReadInto(sections: Sections, paths: seq<string>, files: map<string, Sections>): Sections
    decreases |paths|
  {
    if paths == [] then sections
    else
      var before := ReadInto(sections, paths[..|paths| - 1], files);
      var p := paths[|paths| - 1];
      if p in files then Merge(before, files[p]) else before
  }

  /** The file read last that sets an option decides it; when no file read
      sets it, it keeps the value it had. */
  lemma {:induction false} ReadLastWins(sections: Sections, paths: seq<string>, files: map<string, Sections>,
                                        s: string, o: string)
    decreases |paths|
    ensures (forall i :: 0 <= i < |paths| ==> !Sets(files, paths[i], s, o)) ==>
      Lookup(ReadInto(sections, paths, files), s, o) == Lookup(sections, s, o)
    ensures paths != [] && Sets(files, paths[|paths| - 1], s, o) ==>
      Lookup(ReadInto(sections, paths, files), s, o) == files[paths[|paths| - 1]][s][o]
  {
    if paths != [] {
      var init := paths[..|paths| - 1];
      ReadLastWins(sections, init, files, s, o);
      LookupMerge(ReadInto(sections, init, files), if paths[|paths| - 1] in files then files[paths[|paths| - 1]] else map[], s, o);
      if forall i :: 0 <= i < |paths| ==> !Sets(files, paths[i], s, o) {
        assert forall i :: 0 <= i < |init| ==> !Sets(files, init[i], s, o) by {
          forall i | 0 <= i < |init| ensures !Sets(files, init[i], s, o) {
            assert init[i] == paths[i];
          }
        }
      }
    }
  }

  /** The readable file `p` sets option `o` of section `s`. */
  predicate Sets(files: map<string, Sections>, p: string, s: string, o: string) {
    p in files && s in files[p] && o in files[p][s]
  }

  /** The parser object: its sections, changed in place by `set`. */
  class Parser {
    var sections: Sections

    constructor()
      ensures sections == map[]
    {
      sections := map[];
    }

    /** `cfg[key]`: the option the dotted key names, or `""` when it is
        missing. */
    function GetItem(key: string): (r: string)
      reads this
      ensures r == Lookup(sections, SplitKey(key).0, SplitKey(key).1)
      ensures '.' !in key ==> r == Lookup(sections, GENERAL, key)
      ensures SplitKey(key).0 !in sections ==> r == ""
      ensures SplitKey(key).0 in sections && SplitKey(key).1 !in sections[SplitKey(key).0] ==> r == ""
    {
      var (section, option) := SplitKey(key);
      Lookup(sections, section, option)
    }

    /** `set(section, option, value)`. */
    method Set(section: string, option: string, value: string)
      modifies this
      ensures sections == Store(old(sections), section, option, value)
    {
      if section !in sections {
        sections := sections[section := map[]];
      }
      sections := sections[section := sections[section][option := value]];
    }

    /** `cfg[key] = value`. */
    method SetItem(key: string, value: string)
      modifies this
      ensures sections == Store(old(sections), SplitKey(key).0, SplitKey(key).1, value)
    {
      var (section, option) := SplitKey(key);
      Set(section, option, value);
    }

    /** `items(section)`: the options of the section, none when it is
        missing. */
    function Items(section: string): (r: map<string, string>)
      reads this
      ensures section !in sections ==> r == map[]
      ensures forall o :: o in r <==> section in sections && o in sections[section]
      ensures forall o | o in r :: r[o] == Lookup(sections, section, o)
    {
      if section in sections then sections[section] else map[]
    }

    /** `read(paths)`: reads the readable files in order and returns them. */
    method Read(paths: seq<string>, files: map<string, Sections>) returns (read: seq<string>)
      modifies this
      ensures sections == ReadInto(old(sections), paths, files)
      ensures read == Filter(paths, p => p in files)
    {
      read := [];
      var i := 0;
      while i < |paths|
        invariant 0 <= i <= |paths|
        invariant sections == ReadInto(old(sections), paths[..i], files)
        invariant read == Filter(paths[..i], p => p in files)
      {
        FilterStep(paths, i, p => p in files);
        assert paths[..i + 1][..i] == paths[..i];
        if paths[i] in files {
          sections := Merge(sections, files[paths[i]]);
          read := read + [paths[i]];
        }
        i := i + 1;
      }
      assert paths[..i] == paths;
    }
  }

  /** Setting a key and reading it back gives the value; every key naming
      another option reads as before. */
  lemma SetThenGet(sections: Sections, key: string, value: string, other: string)
    ensures var after := Store(sections, SplitKey(key).0, SplitKey(key).1, value);
      && Lookup(after, SplitKey(key).0, SplitKey(key).1) == value
      && (SplitKey(other) != SplitKey(key) ==>
            Lookup(after, SplitKey(other).0, SplitKey(other).1) == Lookup(sections, SplitKey(other).0, SplitKey(other).1))
  {
  }

  /** `cfg[key] = value` on a parser, then `cfg[key]` and `cfg[other]`:
      the key reads back the value, and a key naming another option reads
      what it read before. */
  method SetItemThenGet(cfg: Parser, key: string, value: string, other: string)
    returns (got: string, gotOther: string)
    modifies cfg
    ensures got == value
    ensures SplitKey(other) != SplitKey(key) ==> gotOther == old(cfg.GetItem(other))
    ensures SplitKey(other) == SplitKey(key) ==> gotOther == value
  {
    cfg.SetItem(key, value);
    got := cfg.GetItem(key);
    gotOther := cfg.GetItem(other);
  }

  /** `x` and `general.x` name the same option. */
  lemma GeneralIsDefault(option: string)
    requires '.' !in option
    ensures SplitKey(GENERAL + "." + option) == SplitKey(option)
  {
    SplitKeyAtFirstDot(GENERAL, option);
  }

  /** `user_default_path(...)`'s candidates, highest priority first:
      `$TEM_CONFIG`, `$XDG_CONFIG_HOME/tem/config`, `~/.config/tem/config`,
      `~/.temconfig`; an unset variable is `""`. */
  function UserPathsByPriority(home: string, xdgConfigHome: string, temConfig: string): seq<string> {
    [ temConfig,
      if xdgConfigHome != "" then xdgConfigHome + "/tem/config" else "",
      ExpandUser("~/.config/tem/config", home),
      ExpandUser("~/.temconfig", home) ]
  }

  /** `user_default_path()`: the first non-empty candidate. */
  function UserDefaultPath(home: string, xdgConfigHome: string, temConfig: string): (r: string)
    ensures temConfig != "" ==> r == temConfig
    ensures temConfig == "" && xdgConfigHome != "" ==> r == xdgConfigHome + "/tem/config"
    ensures temConfig == "" && xdgConfigHome == "" ==> r == RStripSlash(home) + "/.config/tem/config"
  {
    var paths := UserPathsByPriority(home, xdgConfigHome, temConfig);
    assert StartsWith("~/.config/tem/config", "~/");
    assert paths[2] != "";
    assert xdgConfigHome != "" ==> paths[1] != "" by {
      assert |xdgConfigHome + "/tem/config"| > 0;
    }
    paths[FirstNonEmpty(paths)]
  }

  /** `repo_path_from_config(cfg)`: the non-empty lines of
      `general.repo_path`, each with `~` expanded. */
  function RepoPathFromConfig(sections: Sections, home: string): (r: seq<string>)
    ensures var lines := NonEmptyLines(Lookup(sections, GENERAL, "repo_path"));
      |r| == |lines| && forall i :: 0 <= i < |r| ==> r[i] == ExpandUser(lines[i], home)
  {
    var lines := NonEmptyLines(Lookup(sections, GENERAL, "repo_path"));
    seq(|lines|, i requires 0 <= i < |lines| => ExpandUser(lines[i], home))
  }

  /** `load(paths)`: reads the files into `cfg`, extends the lookup path with
      the configured repositories and drops repeats, and returns the paths
      that could not be read. Nothing happens for no paths. */
  method Load(paths: seq<string>, files: map<string, Sections>, home: string, cfg: Parser,
              repoPath: seq<string>)
    returns (failed: set<string>, newRepoPath: seq<string>)
    modifies cfg
    ensures paths == [] ==> failed == {} && newRepoPath == repoPath && cfg.sections == old(cfg.sections)
    ensures paths != [] ==> cfg.sections == ReadInto(old(cfg.sections), paths, files)
    ensures paths != [] ==> newRepoPath == Unique(repoPath + RepoPathFromConfig(cfg.sections, home))
    ensures failed == set p | p in paths && p !in files
  {
    if paths == [] {
      return {}, repoPath;
    }
    var read := cfg.Read(paths, files);
    newRepoPath := repoPath + RepoPathFromConfig(cfg.sections, home);
    newRepoPath := Unique(newRepoPath);
    failed := (set p | p in paths) - (set p | p in read);
    forall p ensures p in read <==> p in paths && p in files {
      FilterMembers(paths, q => q in files, p);
    }
  }

  /** After loading, the lookup path holds no repeats, keeps its earlier
      entries first and in order, and holds every configured repository. */
  lemma LoadedRepoPath(repoPath: seq<string>, configured: seq<string>)
    requires NoDuplicates(repoPath)
    ensures NoDuplicates(Unique(repoPath + configured))
    ensures StartsWith(Unique(repoPath + configured), repoPath)
    ensures forall p :: p in configured ==> p in Unique(repoPath + configured)
  {
    UniquePrefix(repoPath, configured);
    UniqueOfDistinct(repoPath);
    ConfiguredKept(repoPath, configured);
  }

  lemma ConfiguredKept(repoPath: seq<string>, configured: seq<string>)
    ensures forall p :: p in configured ==> p in Unique(repoPath + configured)
  {
    var all := repoPath + configured;
    forall p | p in configured ensures p in Unique(all) {
      var k :| 0 <= k < |configured| && configured[k] == p;
      assert all[|repoPath| + k] == p;
    }
  }
}
