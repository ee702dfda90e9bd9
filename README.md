# tem core, modelled in Dafny

This project models the core of `tem`, a command-line tool that manages
templates, template repositories and per-directory environments. The model
covers these parts of the program:

- **Variables** (`tem/var.py`): typed variables declared in a directory's
  `.tem/vars.py`, and variants, which are boolean variables that can exclude
  one another. A variable's value is type-checked when it is set, mirrored to
  an environment variable (`to_env`) and optionally read from one
  (`from_env`). The `VariableContainer` holds the loaded variables. `load`
  and `save` move values between the variables and the per-directory variable
  stores along a directory hierarchy.
- **Variable expressions** (`tem/cli/var/expr.py`): `name=value`, `name!`
  (cycle), `name` (get) and `name:value` (query), as the `tem var` command
  parses and runs them.
- **Repositories** (`tem/repo.py`): repository specs with the INCLUDE,
  EXCLUDE and FROM_LOOKUP_PATH flags, their resolution into absolute paths,
  repository names, and template lookup.
- **Configuration** (`tem/config.py`): the `Parser` with dotted keys
  (`section.option`, where `general` is the default section), the default
  user config path, `repo_path` from the configuration, and `load`.
- **Utilities and the command-line interface**:
  - `iterate_hierarchy` (`tem/fs.py`);
  - `unique`, `explicit_path` and `shortpath` (`tem/util/__init__.py`);
  - `separate_files_and_options` (`tem/cli/ls.py`);
  - `expand_alias` and `get_editor` (`tem/cli/common.py`);
  - the hook registry (`tem/hook.py`).

Code that builds values from expressions is modelled as datatypes and
functions. Objects the program updates in place are classes with
`modifies` clauses:
- `Variable`, `MutexGraph`, `VariableContainer` and `Environ` (the process
  environment);
- the variable store `Disk`;
- `RepoSpec`, `Parser`, the alias argument list `ArgList` and `HookDict`.

Each method is proved against a function of the old state, and lemmas prove
what the program promises about those functions.

Python values are modelled by `VarTypes.Val`. The value `None` and `bool`,
`int`, `float` and `str` values each have a constructor. Floats are kept as
their literal text. A variable's type is `AnyType` (for `None`), a primitive
type, or a list of allowed values. `Variable` objects that Python code
rebinds by name are modelled by their `VarState` where a value is enough.

## Model

| member | source | states |
|---|---|---|
| VarTypes.DefaultValueForType | tem/var.py:135-142 | a primitive type gets a falsy value of that type; a list type gets its first allowed value; `None`/`Any` and the empty list get `None` |
| VarTypes.CallType | tem/var.py:144-166 | calling a primitive type on text gives an instance of that type: `int` gives the value `int()` parses, `str` the text, `bool` whether the text is non-empty, `float` succeeds exactly on a decimal literal |
| VarTypes.FirstConvertible | tem/var.py:144-166 | for a list type, the result is the first allowed value that the text converts to, and no earlier one converts; `None` when none converts |
| VarTypes.Convert | tem/var.py:144-166 | a successful conversion matches the variable type; a failed one reports the text as the mismatching value |
| VarTypes.NatToDigits | tem/var.py:144-166 | a natural number prints as a non-empty string of decimal digits |
| VarTypes.DigitsRoundTrip | tem/var.py:144-166 | parsing the printed digits of `n` gives back `n` |
| VarTypes.StripSpace | tem/var.py:144-166 | the text `int()` reads has no white space at either end |
| VarTypes.StripSpaceKeeps | tem/var.py:144-166 | text with no white space at its ends is left as it is |
| VarTypes.DropUnderscores | tem/var.py:144-166 | digits with `_` separators leave only digits; plain digits are unchanged |
| VarTypes.DigitGroupsOfDigits | tem/var.py:144-166 | a non-empty digit string is a well-formed digit group with nothing to drop |
| VarTypes.ParseIntStripsSpace | tem/var.py:144-166 | `int(" 7\n")` is 7 |
| VarTypes.ParseIntDropsUnderscores | tem/var.py:144-166 | `int("1_0")` is 10 |
| VarTypes.ParseIntSignedGroups | tem/var.py:144-166 | `int("-0_1")` is -1 |
| VarTypes.ParseIntRefusesStrayUnderscores | tem/var.py:144-166 | `int("1__0")` and `int("_1")` raise |
| VarTypes.IntRoundTrip | tem/var.py:144-166 | `int(str(i)) == i` for every integer, negatives included |
| VarTypes.EnvRoundTrip | tem/var.py:168-186 | an `int` or `str` value mirrored to the environment converts back to the same value |
| VarTypes.BoolFromEnvIsNonEmptiness | tem/var.py:144-166 | a `bool` variable read from the environment is true exactly when the text is non-empty, so the mirrored `"False"` reads back as true |
| VarTypes.FilterVariables | tem/var.py:552-563 | keeps exactly the bindings that are variables and whose names are not dunder-style, with their values unchanged |
| Variables.Environ.constructor | tem/var.py:57-64 | the environment holds the given variables |
| Variables.KindOf | tem/var.py:101-118 | a variable is created as a variant exactly when its type is `bool` |
| Variables.Assigned | tem/var.py:57-64 | setting a value succeeds iff it matches the type and is not a true value for a blocked variant; on success only the value changes; a blocked variant reports exclusion |
| Variables.AssignedKeepsInvariant | tem/var.py:57-64 | a successful assignment keeps the variable well formed and sets the `to_env` mirror, leaving the environment alone when there is none |
| Variables.ExclusionOnlyGuardsTrue | tem/var.py:315-333 | exclusion matters only when a variant is set to a true value |
| Variables.FromEnv | tem/var.py:168-186 | reports "not set" iff there is no `from_env` name or it is absent from the environment; otherwise converts the text and assigns it |
| Variables.Construct | tem/var.py:66-99 | a created variable has a valid declaration, is well formed and keeps the declared type and environment names |
| Variables.ConstructRejects | tem/var.py:66-99 | a list type without default fails with `DefaultRequired`; a default of the wrong type fails with `DefaultMismatch` |
| Variables.ConstructWithoutEnv | tem/var.py:66-99 | without a usable `from_env`, the initial value is the default or the type's default value, and it is mirrored to `to_env` |
| Variables.ConstructFromEnv | tem/var.py:66-99 | with a `from_env` variable present, the value converted from it wins, or creation fails when it does not convert |
| Variables.Register | tem/var.py:303-312 | registering exclusions appends to the variant's list of excluders and changes no other entry |
| Variables.RegisterAsWrittenDefect | tem/var.py:303-312 | the registration as written fails on an empty registry and throws away the existing excluders (see Findings) |
| Variables.RegisterAccumulates | tem/var.py:303-312 | two registrations for one variant give the concatenation of both lists |
| Variables.MutexGraph.constructor | tem/var.py:337 | the exclusion registry starts empty |
| Variables.MutexGraph.IsBlocked | tem/var.py:315-333 | the loop over the excluders returns true iff one of them is true |
| Variables.MutexGraph.Mutex | tem/var.py:303-312 | `mutex(variants)(variant)` returns the variant and updates the registry as `Register` says |
| Variables.Variable.constructor | tem/var.py:66-99 | a new object holds the given well-formed state and no value docs |
| Variables.Variable.ConvertToVarType | tem/var.py:144-166 | the loop over the allowed values returns what `Convert` specifies |
| Variables.Variable.SetValue | tem/var.py:57-64 | the value setter fails with no change, or stores the value and mirrors it, as `Assigned` says |
| Variables.Variable.SetFromEnv | tem/var.py:168-186 | returns false with no change when `from_env` does not apply, fails with no change, or sets the converted value and returns true |
| Variables.Variable.SetValueDoc | tem/var.py:198-202 | documenting a value of the right type records the doc; a value of the wrong type fails and records nothing |
| Variables.NewVariable | tem/var.py:101-118 | creation fails with no environment change, or returns a fresh valid variable with the constructed state |
| Container.VariableContainer.Values | tem/var.py:384-393 | the values map has the container's names and each variable's value |
| Container.VariableContainer.constructor | tem/var.py:378-382 | the container keeps exactly the public variables of the given namespace |
| Container.VariableContainer.GetAttr | tem/var.py:384-393 | reading an attribute gives the variable's value, or fails for an unknown name |
| Container.VariableContainer.SetAttr | tem/var.py:395-400 | setting an attribute sets that one variable through its setter and leaves the other values unchanged; an unknown name fails |
| Container.VariableContainer.GetItem | tem/var.py:402-404 | indexing gives the variable object, or fails for an unknown name |
| Container.VariableContainer.SetItem | tem/var.py:406-411 | item assignment binds the name to the definition |
| Container.VariableContainer.Len | tem/var.py:413-414 | the length is the number of variables |
| Container.FilterIdempotent | tem/var.py:552-563 | filtering an already filtered namespace changes nothing |
| VarStore.Disk.constructor | tem/var.py:502-515 | the disk holds the given stores |
| VarStore.Exec | tem/var.py:536-541 | every name left after running `vars.py` is public |
| VarStore.Names | tem/var.py:536-541 | the names bound by `vars.py`, in order |
| VarStore.OverlayOrder | tem/var.py:518-533 | the stored names to restore are all stored and distinct |
| VarStore.Restore | tem/var.py:518-533 | restoring one stored value changes only the variable's value |
| VarStore.Overlay | tem/var.py:518-533 | restoring the stored values keeps the same set of variables |
| VarStore.LoadDir | tem/var.py:518-533 | a directory loads only public names |
| VarStore.Owner | tem/var.py:489-497 | the owner of a name is a directory of the hierarchy that declares it; with no owner, no directory declares it |
| VarStore.Targets | tem/var.py:502-515 | every directory of the hierarchy, and only those, gets a new store |
| VarStore.States | tem/var.py:518-533 | the states of a map of variables have the same names |
| VarStore.ExecDefinitions | tem/var.py:536-541 | running `vars.py` over objects fails as `Exec` does or gives fresh, distinct, valid variables with the states `Exec` computes |
| VarStore.LoadDirectory | tem/var.py:518-533 | `_load` over objects agrees with `LoadDir` |
| VarStore.RestoreVariable | tem/var.py:518-533 | one step of the restore loop over an object agrees with `Restore` |
| VarStore.RestoreNamed | tem/var.py:518-533 | restoring one named variable updates that variable only |
| VarStore.OverlayStored | tem/var.py:518-533 | the restore loop over objects agrees with `Overlay` |
| VarStore.LoadDefinitions | tem/var.py:420-457 | loading the hierarchy over objects agrees with `LoadAll`; every loaded name is public |
| VarStore.Load | tem/var.py:420-457 | `load` fails as `LoadAll` does or returns a fresh container with the loaded states |
| VarStore.LoadAllSuffixErr | tem/var.py:420-457 | a failure while loading the less specific directories is the failure of the whole load |
| VarStore.LoadAllAdvance | tem/var.py:420-457 | one more directory of `load`: its failure, or its definitions over the earlier ones |
| VarStore.ExecDeclares | tem/var.py:536-541 | running `vars.py` defines exactly its declared names, each fitting its declaration |
| VarStore.DefinedNames | tem/var.py:489-497 | running a `vars.py` fails as `Exec` does or yields exactly its declared names |
| VarStore.ExecFromAdvance | tem/var.py:536-541 | one more binding of `vars.py`: a plain binding, a failing `Variable(...)` call, or a new variable |
| VarStore.ExecDirsSuffixErr | tem/var.py:460-515 | a failure while running the less specific `vars.py` files is the failure of the whole save |
| VarStore.ExecDirsAdvance | tem/var.py:489-497 | one more directory of the first loop of `save`: skipped without `vars.py`, otherwise its failure or its environment |
| VarStore.OwnDirectory | tem/var.py:489-497 | one directory of the owner loop: its failure is the failure of running the hierarchy, otherwise the owners found so far extend to it |
| VarStore.FindOwners | tem/var.py:489-497 | the owner loop runs every `vars.py` and finds for each value the most specific directory that declares it |
| VarStore.OwnedByOwners | tem/var.py:489-497 | the values the loop assigns to a directory are exactly those it owns |
| VarStore.WriteStores | tem/var.py:502-515 | the write loop leaves the stores as `Saved` specifies |
| VarStore.Save | tem/var.py:460-515 | `save` fails with the stores unchanged (a failing `vars.py`, or a value no directory defines) or writes the stores of `SaveAll` |
| VarStoreLaws.DefaultsIgnoreStores | tem/var.py:518-533 | loading with `defaults` does not depend on the stores |
| VarStoreLaws.OverlayKeepsShape | tem/var.py:518-533 | restoring stored values changes only values, never types or environment names |
| VarStoreLaws.LoadDirDeclares | tem/var.py:518-533 | a directory without `vars.py` loads nothing; otherwise it loads exactly its declared names, each fitting its declaration |
| VarStoreLaws.LoadYieldsOwners | tem/var.py:420-457 | a name is loaded iff some directory declares it, and it fits the declaration of the most specific one (the value itself is stated by `LoadAllQuiet`) |
| VarStoreLaws.EnvironmentOutranksStore | tem/var.py:518-533 | when `from_env` applies, the stored value is ignored and the environment's converted value is used |
| VarStoreLaws.ShapeFromEntries | tem/var.py:536-541 | every name left by `vars.py` was bound by it or was there before |
| VarStoreLaws.DeclaredIsBound | tem/var.py:536-541 | every declared variable comes from a binding of `vars.py` |
| VarStoreLaws.ExecFromQuiet | tem/var.py:536-541 | without environment interaction, running `vars.py` succeeds and leaves the environment alone |
| VarStoreLaws.ExecDirsQuiet | tem/var.py:460-515 | the same for every `vars.py` of the hierarchy |
| VarStoreLaws.OverlayQuiet | tem/var.py:518-533 | restoring well-typed stored values succeeds and sets exactly the stored names to their stored values |
| VarStoreLaws.ExecFromStartsAtInitial | tem/var.py:536-541 | in a quiet environment every variable `vars.py` creates starts at the initial value of its declaration |
| VarStoreLaws.ExecQuiet | tem/var.py:536-541 | in a quiet environment running `vars.py` succeeds, leaves the environment alone, and yields exactly the declared names at their initial values |
| VarStoreLaws.LoadDirQuiet | tem/var.py:518-533 | in a quiet environment a directory whose store fits its declarations yields its declared names, each with its stored value, or its initial value when `defaults` is set or nothing is stored |
| VarStoreLaws.LoadAllQuiet | tem/var.py:420-457 | in a quiet environment `load` succeeds, and every loaded name has an owning directory and takes that directory's stored value, or its initial value when `defaults` is set or nothing is stored |
| VarStoreLaws.SavedFits | tem/var.py:460-515 | saving well-typed values keeps every store fitting its declarations |
| VarStoreLaws.SaveThenLoad | tem/var.py:420-515 | saving well-typed owned values succeeds, and loading afterwards gives back every saved value |
| VarStoreLaws.SaveQuiet | tem/var.py:460-515 | when no `vars.py` fails and every value has an owner, `save` succeeds with the saved stores |
| VarStoreLaws.SavedHolds | tem/var.py:460-515 | after a save, every value sits in the store of its owner |
| Expr.CliState.constructor | tem/cli/var/expr.py:192-200 | the exit code starts at 0 |
| Expr.ParseRhs | tem/cli/var/expr.py:50-74 | text is taken as-is for `str` and string-list types; otherwise a literal wins; otherwise `true`/`false` become bools for `bool` and `Any`, other text becomes a string for `Any`, and anything else is a syntax error |
| Expr.ParseRhsAsWrittenRejectsAny | tem/cli/var/expr.py:50-74 | the check as written rejects bare `true` and `hello` for an untyped variable; the corrected parse accepts them (see Findings) |
| Expr.ParseRhsAgrees | tem/cli/var/expr.py:50-74 | apart from untyped variables, the corrected parse and the parse as written agree |
| Expr.ParseRhsTotalOnAny | tem/cli/var/expr.py:50-74 | for an untyped variable every right-hand side parses, to a value of the variable's type |
| Expr.Classify | tem/cli/var/expr.py:84-100 | an expression is an assignment iff it contains `=`, a cycle iff not and it ends in `!`, and a get otherwise |
| Expr.Named | tem/cli/var/expr.py:102-170 | the left side names a variable of the container; otherwise a syntax error or an unknown-name error |
| Expr.ParseSimple | tem/cli/var/expr.py:84-170 | a parsed expression names a variable of the container, has the form `Classify` gives, cycles only finite-valued variables, and assigns the parsed right-hand side |
| Expr.AssignSplitsAtFirstEquals | tem/cli/var/expr.py:102-111 | `name=rhs` splits at the first `=` and assigns the parsed rhs, or fails with the whole text as a syntax error |
| Expr.CycleNeedsFiniteValues | tem/cli/var/expr.py:133-147 | cycling a variable that is neither a variant nor list-typed is a syntax error with the explanatory message |
| Expr.FromPair | tem/cli/var/expr.py:121-131 | `from_pair` assigns the value to the named variable, or fails for an unknown name |
| Expr.CycleNext | tem/cli/var/expr.py:149-158 | the next value of a cycle is an allowed value |
| Expr.CycleSteps | tem/cli/var/expr.py:149-158 | every value reached by cycling is allowed |
| Expr.StepIndexAdd | tem/cli/var/expr.py:149-158 | cycling `a + b` times is cycling `a` times and then `b` times |
| Expr.StepIndexReaches | tem/cli/var/expr.py:149-158 | every position is reached from every other, and `n` steps return to the start |
| Expr.CycleStepsIndex | tem/cli/var/expr.py:149-158 | with distinct allowed values, `k` cycles move `k` positions round the list |
| Expr.CycleReaches | tem/cli/var/expr.py:149-158 | every allowed value is reached by cycling from any other |
| Expr.CycleReturns | tem/cli/var/expr.py:149-158 | cycling as many times as there are allowed values returns to the start |
| Expr.CycleVisitsAll | tem/cli/var/expr.py:149-158 | a full round of cycling visits every allowed value and ends where it began |
| Expr.NextAllowed | tem/cli/var/expr.py:149-158 | the search loop for the value after the current one returns `CycleNext` |
| Expr.Cycled | tem/cli/var/expr.py:149-158 | the cycled value matches the variable's type |
| Expr.ExecuteSimple | tem/cli/var/expr.py:113-158 | running an expression fails with no change or sets the variable as `Effect` specifies |
| Expr.CycleOnListSucceeds | tem/cli/var/expr.py:149-158 | cycling a list-typed variable always succeeds and moves to the next allowed value |
| Expr.CycleVariantTwice | tem/cli/var/expr.py:149-151 | cycling an unblocked variant negates it, and cycling it twice restores the original state |
| Expr.AssignRejectsMismatch | tem/cli/var/expr.py:113-118 | assigning a mistyped value fails with the variable's name attached |
| Expr.ParseQuery | tem/cli/var/expr.py:172-190 | a query names a variable of the container; it has a right-hand side iff it contains `:`, parsed for the variable's type; a syntax error reports the whole query |
| Expr.QueryFails | tem/cli/var/expr.py:192-200 | a bare query of a non-variant is a syntax error; a bare query of a variant fails when it is false; a `name:value` query fails when the value differs |
| Expr.ExecuteQuery | tem/cli/var/expr.py:192-200 | a failing query sets the exit code to 1; otherwise it is unchanged |
| Expr.AssignThenQuery | tem/cli/var/expr.py:113-200 | after a successful assignment, querying the assigned value succeeds |
| Expr.CycleThenQuery | tem/cli/var/expr.py:149-200 | after cycling a false variant, the bare query of it succeeds |
| Repo.PathItems | tem/repo.py:90-104 | one path item per line, in order |
| Repo.Appended | tem/repo.py:90-104 | `append` accepts text, a spec, or a list of strings and specs, and nothing else (`BadSpecs`); text adds its non-empty lines, a list adds its elements in order |
| Repo.Construct | tem/repo.py:56-88 | a created spec has a flag and never both INCLUDE and EXCLUDE; FROM_LOOKUP_PATH leaves it empty; no type means INCLUDE; a lone number is taken as the type; a type without a flag, with both INCLUDE and EXCLUDE, or with FROM_LOOKUP_PATH and specs raises that error; otherwise the spec holds what `append` adds, or `append`'s error |
| Repo.NamedRepo | tem/repo.py:179-189 | the result is a lookup-path repository with that name, if any, and otherwise the name itself |
| Repo.NamedRepoIsFirst | tem/repo.py:179-189 | the repository found is the first one with that name |
| Repo.Named | tem/repo.py:179-189 | the search loop returns `NamedRepo` |
| Repo.Resolve | tem/repo.py:192-207 | an empty argument resolves to empty; a valid name resolves through `named`; anything else becomes an absolute path |
| Repo.SpecPaths | tem/repo.py:106-153 | an EXCLUDE spec includes nothing and a non-EXCLUDE spec excludes nothing; an empty or FROM_LOOKUP_PATH spec gives the lookup path |
| Repo.GatherMembers | tem/repo.py:132-151 | a path survives the loop iff it was there and no later item removes it, or an item adds it and no later item removes it |
| Repo.AddedFromStep | tem/repo.py:132-151 | a path is added from position `i` iff item `i` adds it and no later item removes it, or it is added after `i` |
| Repo.AddedWitness | tem/repo.py:132-151 | an item that adds a path no later item removes makes the path added |
| Repo.ApplyMembers | tem/repo.py:132-151 | after one item a path is present iff it was and the item does not remove it, or the item adds it |
| Repo.SpecPathsMembers | tem/repo.py:106-153 | the resolved paths have no duplicates, and a path is among them iff it is added or (for an all-exclusion spec) in the lookup path and not removed |
| Repo.ExcludeOnlyMembers | tem/repo.py:123-153 | an all-exclusion spec gives the lookup path minus every excluded path |
| Repo.LastExclusionWins | tem/repo.py:132-151 | a path that the last item excludes is never in the result |
| Repo.RepoSpec.constructor | tem/repo.py:56-88 | a new spec has the given type and no data |
| Repo.RepoSpec.Append | tem/repo.py:90-104 | `append` adds the accepted items in order, or fails with `BadSpecs` and leaves the data unchanged |
| Repo.RepoSpec.AppendLines | tem/repo.py:90-104 | the non-empty lines of a text are appended in order |
| Repo.RepoSpec.Abspaths | tem/repo.py:106-157 | the two loops compute `SpecPaths` |
| Repo.NewRepoSpec | tem/repo.py:56-88 | creation fails as `Construct` does or gives a fresh spec with the constructed content |
| Repo.Candidates | tem/repo.py:210-229 | one candidate per repository: the absolute path of the template inside it |
| Repo.FindTemplate | tem/repo.py:210-229 | with `all_repos`, every existing candidate in repository order; otherwise the first one, or none |
| Ls.SeparateFilesAndOptions | tem/cli/ls.py:70-86 | the loop splits the arguments, in order, into those not starting with `-` and the rest |
| Ls.SeparationPartitions | tem/cli/ls.py:70-86 | files and options together are exactly the arguments |
| Ls.EmptyArgIsOption | tem/cli/ls.py:70-86 | an empty argument goes with the options, never the files |
| Fs.Dirname | tem/fs.py:263-276 | the parent of a path is a prefix of it |
| Fs.LastSepEnd | tem/fs.py:272-276 | the position after the last `/`, which is a `/` when there is one |
| Fs.LastSepEndIsLast | tem/fs.py:272-276 | no `/` follows the one found |
| Fs.DirnameFixed | tem/fs.py:272-276 | a path is its own parent iff it is all slashes; any other parent is shorter |
| Fs.Ascend | tem/fs.py:272-276 | the walk after a path starts with its parent |
| Fs.AscendStep | tem/fs.py:272-276 | the walk is the parent followed, unless the parent is a root, by the walk from the parent, which is shorter |
| Fs.AscendChain | tem/fs.py:272-276 | each yielded path is the parent of the one before; the walk ends at a root and meets no root earlier |
| Fs.IterateHierarchy | tem/fs.py:263-276 | the loop yields the absolute path followed by the walk up to the root |
| Fs.RootYieldedTwice | tem/fs.py:263-276 | starting at `/` yields `/` twice |
| Fs.AsWrittenNeverEndsAtDoubleSlash | tem/fs.py:272-276 | the loop as written never ends from `//` (see Findings) |
| Fs.DirnameUnderSlash | tem/fs.py:272-276 | below `/` parents stay below `/`, and `/` is the only root |
| Fs.AscendAgreesUnderSlash | tem/fs.py:272-276 | below `/`, the loop as written ends and yields the same paths as the corrected walk |
| Config.SplitKey | tem/config.py:29-40 | a key without `.` is in section `general`; otherwise it is split at the first `.` |
| Config.SplitKeyAtFirstDot | tem/config.py:29-40 | `section.option` splits back into its parts when the section has no dot |
| Config.Store | tem/config.py:17-20 | setting an option creates the section if needed, sets that option and changes no other lookup |
| Config.Merge | tem/config.py:84-97 | reading a file adds its sections |
| Config.LookupMerge | tem/config.py:84-97 | after reading a file, an option it sets has the file's value and every other option keeps its value |
| Config.ReadLastWins | tem/config.py:84-97 | options no file sets keep their value; an option the last file sets has that file's value |
| Config.Parser.constructor | tem/config.py:11-15 | a new parser is empty |
| Config.Parser.GetItem | tem/config.py:29-33 | `parser[key]` is the option the split key names, with `general` as default section and `""` for a missing section or option |
| Config.Parser.Set | tem/config.py:17-20 | `set` updates the sections as `Store` says |
| Config.Parser.SetItem | tem/config.py:35-40 | `parser[key] = value` stores under the split key |
| Config.Parser.Items | tem/config.py:22-27 | the items of a section are its options and values; a missing section has none |
| Config.Parser.Read | tem/config.py:84-97 | reading files merges them in order and returns the paths that could be read |
| Config.SetItemThenGet | tem/config.py:29-40 | on a parser, `parser[key] = v` then `parser[key]` gives `v`, and a key naming another option reads as before |
| Config.SetThenGet | tem/config.py:29-40 | after `parser[key] = v`, `parser[key]` is `v` and other keys are unchanged |
| Config.GeneralIsDefault | tem/config.py:29-40 | `general.option` and `option` name the same entry |
| Config.UserDefaultPath | tem/config.py:62-70 | `TEM_CONFIG` wins, then `$XDG_CONFIG_HOME/tem/config`, then `~/.config/tem/config` under the home directory less its trailing slashes |
| Config.RepoPathFromConfig | tem/config.py:73-81 | one entry per non-empty line of `general.repo_path`, with `~` expanded |
| Config.Load | tem/config.py:84-97 | no paths changes nothing; otherwise the files are read in order and the configured repositories are appended to the lookup path without duplicates; the unreadable paths are reported |
| Config.LoadedRepoPath | tem/config.py:84-97 | the new lookup path has no duplicates, keeps the old path as its prefix and contains every configured repository |
| Config.ConfiguredKept | tem/config.py:84-97 | every configured repository ends up in the lookup path |
| Common.Position | tem/cli/common.py:291-311 | Python indexing: valid iff `-n <= index < n`, counting from the end for negative indices |
| Common.Splice | tem/cli/common.py:305-309 | the alias words replace one argument; the arguments before and after are unchanged |
| Common.AliasKeyNamesAlias | tem/cli/common.py:291-311 | the alias of `a` is the option `a` of section `alias` |
| Common.ArgList.constructor | tem/cli/common.py:291-311 | the list holds the given arguments |
| Common.ArgList.ExpandAlias | tem/cli/common.py:291-311 | an index out of range raises `IndexError` and changes nothing; no alias changes nothing; otherwise the argument is replaced by the alias's words |
| Common.ExpandLast | tem/cli/common.py:291-311 | index `-1` expands the last argument |
| Common.ChooseEditor | tem/cli/common.py:181-194 | the editor is the first non-empty one of: the override, `general.editor`, `$EDITOR`, `$VISUAL` and `vim`; the result is never empty |
| Common.GetEditor | tem/cli/common.py:181-194 | the override wins, then `general.editor` from the parser; the result is never empty |
| Hook.Register | tem/hook.py:31-33 | registering sets the hook for that subcommand and `when`, and changes no other entry |
| Hook.RegisterKeepsDefaults | tem/hook.py:31-40 | every `when` entry keeps its `PRE` and `POST` slots |
| Hook.RegisterReplaces | tem/hook.py:31-33 | registering twice for the same subcommand and `when` keeps only the second hook |
| Hook.HookDict.constructor | tem/hook.py:36-43 | the registry starts empty |
| Hook.HookDict.GetItem | tem/hook.py:36-40 | a missing key is inserted with empty `PRE` and `POST` lists; a present key is returned unchanged |
| Hook.HookDict.RegisterHook | tem/hook.py:31-33 | `register_hook` updates the registry as `Register` says |
| Hook.HookDict.Decorate | tem/hook.py:8-22 | the `hook` decorator registers the function and returns it unchanged |
| Util.Unique | tem/util/__init__.py:126-128 | no duplicates and the same elements |
| Util.UniqueKeepsFirstOccurrenceOrder | tem/util/__init__.py:126-128 | the elements come in the order of their first occurrence |
| Util.UniqueSnoc | tem/util/__init__.py:126-128 | one more element is appended iff it is new |
| Util.UniqueOfDistinct | tem/util/__init__.py:126-128 | a list without duplicates is unchanged |
| Util.UniquePrefix | tem/util/__init__.py:126-128 | deduplicating `a + b` starts with the deduplicated `a` |
| Util.UniqueIdempotent | tem/util/__init__.py:126-128 | deduplicating twice is deduplicating once |
| Util.WithTrailingSlash | tem/util/__init__.py:53-55 | a non-empty path ends in `/`; without a final newline, a `/` is added exactly when the path does not end in one; with one, Python's `$` also puts a `/` before the newline unless one is there |
| Util.ExplicitPath | tem/util/__init__.py:40-56 | a bare relative path gets `./`, and a directory gets the trailing slash of `WithTrailingSlash` |
| Util.ExplicitPathShape | tem/util/__init__.py:40-56 | the result is the path with `./` in front when it needs it, and for a directory a `/` behind, plus one before a final newline |
| Util.ExplicitPathNewline | tem/util/__init__.py:53-55 | a directory `d\n` becomes `./d/\n/` |
| Util.WithTrailingSlashFront | tem/util/__init__.py:53-55 | adding the slash keeps the first character, and the second unless a `/` now stands there |
| Util.ExplicitPathIdempotent | tem/util/__init__.py:40-56 | applying it twice is applying it once, whatever the directory test answers |
| Util.RStripSlash | tem/util/__init__.py:19-21 | the result is a prefix of the text, ends in something other than `/`, and only `/` was removed |
| Util.ExpandUser | tem/util/__init__.py:19-21 | `~` and `~/...` get the home directory less its trailing slashes in front, `/` when nothing is left; other paths are unchanged |
| Util.HomeDir | tem/util/__init__.py:34-37 | the expanded `~` is never empty and ends in `/` only when it is `/` |
| Util.ExpandUserRootHome | tem/util/__init__.py:19-21 | with home `/`, `~/x` expands to `/x` and `~` to `/` |
| Util.ShortPathAsWritten | tem/util/__init__.py:34-37 | as written, any path that starts with the expanded home text has it replaced by `~` |
| Util.ShortPathAsWrittenBreaksExpansion | tem/util/__init__.py:34-37 | `/home/user2/x` becomes `~2/x`, which does not expand back (see Findings) |
| Util.ShortPath | tem/util/__init__.py:34-37 | a path inside the expanded home directory starts with `~` followed by the rest; others are unchanged |
| Util.ShortPathRoundTrip | tem/util/__init__.py:34-37 | expanding the shortened path gives back the path, for a home directory that is more than slashes |
| Strings.IndexOf | tem/util/__init__.py:126-128 | the first position of an element |
| Strings.Filter | tem/cli/ls.py:70-86 | a filter keeps exactly the elements that satisfy the predicate |
| Strings.FilterMembers | tem/cli/ls.py:70-86 | an element is kept iff it is present and satisfies the predicate |
| Strings.FilterAppend | tem/cli/ls.py:70-86 | filtering distributes over concatenation |
| Strings.FirstNonEmpty | tem/cli/common.py:181-194 | the first non-empty string of a list, with every earlier one empty |
| Strings.SplitFirst | tem/cli/var/expr.py:106 | splitting once at a character: none iff the character is absent; otherwise the left part has none of it and the parts rejoin to the text |
| Strings.SplitFirstAt | tem/cli/var/expr.py:106 | text with one separator after a separator-free part splits there |
| Strings.Split | tem/config.py:29-33 | splitting gives at least one piece, none containing the separator |
| Strings.JoinSplit | tem/config.py:29-33 | joining the pieces with the separator gives back the text |
| Strings.NonEmptyLines | tem/repo.py:90-104 | the lines kept are non-empty and contain no newline |
| Strings.RStrip | tem/fs.py:263-276 | stripping a character from the right leaves a prefix that does not end in it |
| Strings.RStripRemovesOnly | tem/fs.py:263-276 | stripping removes only copies of the character |

## Left out

- Running Python code: executing a directory's `vars.py` is modelled by an
  ordered list of bindings, each either a `Variable(...)` declaration or
  another object. The `when` decorator, `__NoInit` and the `VariableDoc`
  text rendering are not modelled.
- Shelve files: a store is a map from names to values plus the tem version
  that wrote it. The version string is a parameter of `save`, and the order
  of a shelf's dictionary is not modelled: stored values are restored in the
  order `vars.py` binds the names.
- Python equality: `1 == True`, `1 == 1.0` and `isinstance(True, int)` are
  replaced by structural equality of values.
- `VarTypes.CallType`: `float()` is modelled as accepting decimal literals
  only. Surrounding white space, `_` separators, exponents, `inf` and `nan`
  are not modelled. For `int()`, only ASCII white space and ASCII digits are
  modelled, not the other Unicode ones Python also accepts.
- `Variable.__setattr__` for `doc`, and the variable description text, are
  not modelled beyond `SetValueDoc`.
- `VarStore.Load`: an empty hierarchy loads an empty container, as the code
  does. A stored name that no definition declares is an error, as the
  code's `KeyError` is.
- `VarStore.Restore`: the variables a load creates carry no exclusions.
  Exclusions come only from `Variant.mutex` running inside a `vars.py`. The
  model's `vars.py` binds names and runs no decorators, and `mutex` as
  written raises for a variant it has not seen (see Findings). So the
  exclusion error of the restore loop (tem/var.py:320-329) is not reached
  on load.
- `Util.ExpandUser`: the `~user` form and the password-database fallback
  for an unset `$HOME` are not modelled. `$HOME` is a parameter.
- `Repo.SpecPaths`: sub-specs are values. The aliasing of a spec appended
  into two others is not captured, and negative spec types are not
  modelled.
- Repository names, `os.path.abspath` and path existence are function
  parameters (`RepoEnv`, `pathExists`). The file system, the process
  environment and the shell (`ext.shell_arglist`) are likewise parameters
  or `Environ`/`Disk` objects.
- `Config.RepoPathFromConfig`: the `if not config` guard of the source never
  fires, because a `ConfigParser` always has at least its DEFAULT section.
  The model reads the parser's sections directly.
- `Config.Parser.Items`: it returns a map, so the order of items is not
  modelled. ConfigParser's DEFAULT section, the lower-casing of option names
  and interpolation are not modelled.
- `Config.Load`: the parsing of configuration file text is replaced by a map
  from readable paths to their parsed sections.
- `Hook.HookDict`: the inner dictionaries are values, so the aliasing of the
  dictionary `GetItem` returns is not captured. `run_hooks` runs
  environment directories and is not part of this model.
- `Fs.Dirname`: POSIX `dirname` on text only. `abspath` is a parameter, and
  symbolic links are not resolved.
- `Expr.ParseRhs`: Python's `ast` parsing of names and constants is the
  abstract `Syntax` parameter (`name` and `literal`).
- `Common.GetEditor`: it states only the override and `general.editor`
  steps. `Common.ChooseEditor` states the `$EDITOR`, `$VISUAL` and `vim`
  fallbacks.
- `VarTypes.BoolFromEnvIsNonEmptiness`: mirroring `False` and reading it
  back gives `True`. This is stated as the code behaves and is not
  corrected.

## Findings

| source | as written | input that shows it | evidently intended | confidence | as-written member | corrected member |
|---|---|---|---|---|---|---|
| tem/var.py:303-312 | `mutex` resets the variant's excluders to `[]` when the variant is already registered, and creates no entry when it is not: the membership test is inverted | a first `mutex` call for a variant (empty registry) raises `KeyError`; a second call with an empty list drops the registered excluders | append the variants to the variant's excluders, starting from an empty list | not executed | Variables.RegisterAsWrittenDefect | Variables.RegisterAccumulates |
| tem/cli/var/expr.py:50-74 | `_parse_rhs` tests `var_type is None`, but `Variable.__init__` stores `Any` for an untyped variable | `x=hello` or `x=true` for `Variable()` raises a syntax error | untyped variables accept `true`/`false` as bools and other bare text as strings | not executed | Expr.ParseRhsAsWrittenRejectsAny | Expr.ParseRhsTotalOnAny |
| tem/util/__init__.py:34-37 | `shortpath` replaces the home text as a plain prefix | home `/home/user`, path `/home/user2/x` gives `~2/x`, which expands to a different path | replace the home directory only at a path component boundary | not executed | Util.ShortPathAsWrittenBreaksExpansion | Util.ShortPathRoundTrip |
| tem/fs.py:272-276 | the loop stops only when the parent is exactly `/` | `iterate_hierarchy("//")`: POSIX `abspath` keeps `//` and its parent is `//`, so the loop never ends | stop at the first path that is its own parent | not executed | Fs.AsWrittenNeverEndsAtDoubleSlash | Fs.AscendAgreesUnderSlash |
