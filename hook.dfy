/** The registry of Python hooks (`tem/hook.py`): a dictionary keyed by when
    a hook runs, whose entries spring into existence on first read. */
module Hook {

  /** When a hook runs: before, after, or (`PRE & POST`) neither bit. */
  const PRE: int := 1
  const POST: int := 2

  /** A registered Python function, known by its identity. */
  datatype Callable = Callable(id: nat)

  /** The keys of an inner dictionary: the `PRE`/`POST` keys of its initial
      value, and the subcommands hooks are registered for. */
  datatype Key = WhenKey(when: int) | SubcommandKey(subcommand: string)
  datatype Entry = HookList(hooks: seq<Callable>) | Registered(hook: Callable)

  type Inner = map<Key, Entry>

  /** `{PRE: [], POST: []}`. */
  function Fresh(): Inner {
    map[WhenKey(PRE) := HookList([]), WhenKey(POST) := HookList([])]
  }

  /** Every inner dictionary keeps the `PRE` and `POST` keys it started
      with. */
  ghost predicate KeepsDefaults(entries: map<int, Inner>) {
    forall w | w in entries :: WhenKey(PRE) in entries[w] && WhenKey(POST) in entries[w]
  }

  /** The registry after `register_hook(hook, subcommand, when)`: the entry
      for `when` exists (created as `Fresh()` if need be) and maps the
      subcommand to the hook. */
  function Register(entries: map<int, Inner>, hook: Callable, subcommand: string, when: int): (r: map<int, Inner>)
    ensures r.Keys == entries.Keys + {when}
    ensures when in r && SubcommandKey(subcommand) in r[when]
    ensures r[when][SubcommandKey(subcommand)] == Registered(hook)
    ensures forall w | w in entries && w != when :: r[w] == entries[w]
    ensures forall k | k in r[when] && k != SubcommandKey(subcommand) ::
      k in (if when in entries then entries[when] else Fresh()) &&
      r[when][k] == (if when in entries then entries[when] else Fresh())[k]
  {
    var inner := if when in entries then entries[when] else Fresh();
    entries[when := inner[SubcommandKey(subcommand) := Registered(hook)]]
  }

  /** Registering keeps the `PRE`/`POST` keys of every inner dictionary. */
  lemma RegisterKeepsDefaults(entries: map<int, Inner>, hook: Callable, subcommand: string, when: int)
    requires KeepsDefaults(entries)
    ensures KeepsDefaults(Register(entries, hook, subcommand, when))
  {
    var r := Register(entries, hook, subcommand, when);
    forall w | w in r ensures WhenKey(PRE) in r[w] && WhenKey(POST) in r[w] {
      if w == when {
        assert WhenKey(PRE) != SubcommandKey(subcommand);
        assert WhenKey(PRE) in (if when in entries then entries[when] else Fresh());
        assert WhenKey(POST) in (if when in entries then entries[when] else Fresh());
      }
    }
  }

  /** A later registration for the same subcommand and time replaces the
      earlier one. */
  lemma RegisterReplaces(entries: map<int, Inner>, first: Callable, second: Callable, subcommand: string, when: int)
    ensures Register(Register(entries, first, subcommand, when), second, subcommand, when) ==
            Register(entries, second, subcommand, when)
  {
    var inner := if when in entries then entries[when] else Fresh();
    var k := SubcommandKey(subcommand);
    var once := Register(entries, first, subcommand, when);
    assert once == entries[when := inner[k := Registered(first)]];
    assert once[when][k := Registered(second)] == inner[k := Registered(second)];
    assert Register(once, second, subcommand, when) == entries[when := inner[k := Registered(second)]];
  }

  /** `_HookDict`, whose one instance is `_registered_hooks`. */
  class HookDict {
    var entries: map<int, Inner>

    constructor()
      ensures entries == map[]
    {
      entries := map[];
    }

    /** `d[key]`: a missing key is first set to `{PRE: [], POST: []}`. */
    method GetItem(key: int) returns (r: Inner)
      modifies this
      ensures key in old(entries) ==> entries == old(entries) && r == old(entries)[key]
      ensures key !in old(entries) ==> entries == old(entries)[key := Fresh()] && r == Fresh()
      ensures KeepsDefaults(old(entries)) ==> KeepsDefaults(entries)
    {
      if key !in entries {
        entries := entries[key := Fresh()];
      }
      r := entries[key];
    }

    /** `register_hook(hook, subcommand, when)`:
        `_registered_hooks[when][subcommand] = hook`. */
    method RegisterHook(hook: Callable, subcommand: string, when: int)
      modifies this
      ensures entries == Register(old(entries), hook, subcommand, when)
      ensures KeepsDefaults(old(entries)) ==> KeepsDefaults(entries)
    {
      if KeepsDefaults(entries) {
        RegisterKeepsDefaults(entries, hook, subcommand, when);
      }
      var inner := GetItem(when);
      entries := entries[when := inner[SubcommandKey(subcommand) := Registered(hook)]];
    }

    /** `hook(subcommand, when)(func)`: registers `func` and hands it back
        unchanged. */
    method Decorate(func: Callable, subcommand: string, when: int) returns (r: Callable)
      modifies this
      ensures r == func
      ensures entries == Register(old(entries), func, subcommand, when)
    {
      RegisterHook(func, subcommand, when);
      return func;
    }
  }
}
