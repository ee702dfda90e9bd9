/** Alias expansion and editor choice of `tem/cli/common.py`. The shell
    that splits an alias into words (`ext.shell_arglist`) is a parameter. */
module Common {
  import opened Results
  import opened Strings
  import opened Config

  datatype IndexError = IndexError

  /** The position Python's `args_[index]` reads, or None when it raises. */
  function Position(index: int, n: nat): (r: Option<nat>)
    ensures r.Some? <==> -(n as int) <= index < n
    ensures r.Some? ==> r.value < n && (index >= 0 ==> r.value == index) && (index < 0 ==> r.value == n + index)
  {
    if 0 <= index < n then Some(index)
    else if -(n as int) <= index < 0 then Some(n + index)
    else None
  }

  /** `args[j:j + 1] = words`. */
  function Splice(args: seq<string>, j: nat, words: seq<string>): (r: seq<string>)
    requires j < |args|
    ensures |r| == |args| - 1 + |words|
    ensures r[..j] == args[..j]
    ensures r[j..j + |words|] == words
    ensures r[j + |words|..] == args[j + 1..]
  {
    args[..j] + words + args[j + 1..]
  }

  /** The key under which the alias `alias` is configured. */
  function AliasKey(alias: string): string {
    "alias." + alias
  }

  /** The option of section `alias` that `AliasKey` names is the alias
      itself, dots and all. */
  lemma AliasKeyNamesAlias(alias: string)
    ensures SplitKey(AliasKey(alias)) == ("alias", alias)
  {
    assert AliasKey(alias) == "alias" + "." + alias;
    SplitKeyAtFirstDot("alias", alias);
  }

  /** A command line, changed in place by alias expansion. */
  class ArgList {
    var args: seq<string>

    constructor(args: seq<string>)
      ensures this.args == args
    {
      this.args := args;
    }

    /** `expand_alias(index, args_)`: when `args_[index]` is configured as
        an alias, that one argument is replaced by the words of the alias
        (at `-1`, the last one); otherwise the list stays as it is. */
    method ExpandAlias(index: int, cfg: Parser, shellArglist: string -> seq<string>)
      returns (r: Outcome<IndexError>)
      modifies this
      ensures Position(index, |old(args)|).None? ==> r == Fail(IndexError) && args == old(args)
      ensures Position(index, |old(args)|).Some? ==> r == Pass
      ensures Position(index, |old(args)|).Some? ==>
        var j := Position(index, |old(args)|).value;
        var aliased := cfg.GetItem(AliasKey(old(args)[j]));
        args == if aliased == "" then old(args) else Splice(old(args), j, shellArglist(aliased))
    {
      var n := |args|;
      if !(-n <= index < n) {
        return Fail(IndexError);
      }
      var j := if index >= 0 then index else n + index;
      assert Position(index, n) == Some(j);
      var alias := args[j];
      var aliased := cfg.GetItem(AliasKey(alias));
      if aliased == "" {
        return Pass;
      }
      var expanded := shellArglist(aliased);
      if index == -1 {
        assert args[j + 1..] == [];
        args := args[..n - 1] + expanded;
      } else {
        args := args[..j] + expanded + args[j + 1..];
      }
      return Pass;
    }
  }

  /** At `-1` the expansion replaces the last argument: everything before it
      stays, and the words of the alias end the list. */
  lemma ExpandLast(args: seq<string>, words: seq<string>)
    requires args != []
    ensures Position(-1, |args|) == Some(|args| - 1)
    ensures Splice(args, |args| - 1, words) == args[..|args| - 1] + words
  {
  }

  /** The editor used when none is configured anywhere. */
  const DEFAULT_EDITOR := "vim"

  /** The value of an environment variable, `""` when it is unset. */
  function EnvValue(environ: map<string, string>, name: string): string {
    if name in environ then environ[name] else ""
  }

  /** The first of the override, the configured editor, `$EDITOR` and
      `$VISUAL` that is set and non-empty, else `vim`. */
  function ChooseEditor(override: string, configured: string, environ: map<string, string>): (r: string)
    ensures r != ""
    ensures override != "" ==> r == override
    ensures override == "" && configured != "" ==> r == configured
    ensures override == "" && configured == "" && EnvValue(environ, "EDITOR") != "" ==>
      r == EnvValue(environ, "EDITOR")
    ensures override == "" && configured == "" && EnvValue(environ, "EDITOR") == "" ==>
      r == if EnvValue(environ, "VISUAL") != "" then EnvValue(environ, "VISUAL") else DEFAULT_EDITOR
  {
    var editors := [override, configured, EnvValue(environ, "EDITOR"), EnvValue(environ, "VISUAL"), DEFAULT_EDITOR];
    assert editors[4] != "";
    var i := FirstNonEmpty(editors);
    assert editors[0] == override && editors[1] == configured && editors[2] == EnvValue(environ, "EDITOR") &&
           editors[3] == EnvValue(environ, "VISUAL") && editors[4] == DEFAULT_EDITOR;
    assert forall k :: 0 <= k < |editors| && editors[k] != "" ==> i <= k;
    editors[i]
  }

  /** `get_editor(override)`, reading `general.editor` from the parser. */
  function GetEditor(override: string, cfg: Parser, environ: map<string, string>): (r: string)
    reads cfg
    ensures r != ""
    ensures override != "" ==> r == override
    ensures override == "" && cfg.GetItem("general.editor") != "" ==> r == cfg.GetItem("general.editor")
  {
    ChooseEditor(override, cfg.GetItem("general.editor"), environ)
  }
}
