/** Argument classification of `tem ls` (`tem/cli/ls.py`). */
module Ls {
  import opened Strings

  /** A file argument is non-empty and does not start with `-`; everything
      else, the empty string included, is an option. */
  predicate IsFileArg(arg: string) {
    arg != "" && arg[0] != '-'
  }

  predicate IsOptionArg(arg: string) {
    !IsFileArg(arg)
  }

  /** `separate_files_and_options`: the file arguments and the options, each
      in the order given. */
  method SeparateFilesAndOptions(args: seq<string>) returns (files: seq<string>, options: seq<string>)
    ensures files == Filter(args, IsFileArg)
    ensures options == Filter(args, IsOptionArg)
  {
    files, options := [], [];
    var i := 0;
    while i < |args|
      invariant 0 <= i <= |args|
      invariant files == Filter(args[..i], IsFileArg)
      invariant options == Filter(args[..i], IsOptionArg)
    {
      FilterStep(args, i, IsFileArg);
      FilterStep(args, i, IsOptionArg);
      if args[i] != "" && args[i][0] != '-' {
        files := files + [args[i]];
      } else {
        options := options + [args[i]];
      }
      i := i + 1;
    }
    assert args[..i] == args;
  }

  /** Every argument lands in exactly one of the two lists, as often as it
      was given. */
  lemma {:induction false} SeparationPartitions(args: seq<string>)
    ensures multiset(Filter(args, IsFileArg)) + multiset(Filter(args, IsOptionArg)) == multiset(args)
  {
    if args != [] {
      var rest := args[1..];
      SeparationPartitions(rest);
      assert args == [args[0]] + rest;
      assert multiset(args) == multiset{args[0]} + multiset(rest);
      if IsFileArg(args[0]) {
        assert Filter(args, IsFileArg) == [args[0]] + Filter(rest, IsFileArg);
        assert Filter(args, IsOptionArg) == Filter(rest, IsOptionArg);
      } else {
        assert Filter(args, IsFileArg) == Filter(rest, IsFileArg);
        assert Filter(args, IsOptionArg) == [args[0]] + Filter(rest, IsOptionArg);
      }
    }
  }

  /** The empty argument is an option, never a file. */
  lemma EmptyArgIsOption(args: seq<string>)
    requires "" in args
    ensures "" in Filter(args, IsOptionArg) && "" !in Filter(args, IsFileArg)
  {
    var files := Filter(args, IsFileArg);
    forall j | 0 <= j < |files| ensures files[j] != "" {
      assert IsFileArg(files[j]);
    }
  }
}
