/** The expressions of the `tem var` command (tem/cli/var/expr.py): `name`
    reads a variable, `name=value` assigns it, `name!` cycles it through its
    allowed values, and the query `name` or `name:value` sets the exit code
    when it does not hold.

    Python's own parser decides which texts are a bare name and which are a
    literal constant; here it is the `Syntax` parameter. */
module Expr {
  import opened Results
  import opened Strings
  import opened Util
  import opened VarTypes
  import opened Variables
  import opened Container

  /** What the Python parser makes of a text, as far as `tem var` asks: the
      identifier of a text that is a single bare name, and the value of a
      text that is a single literal constant. */
  datatype Syntax = Syntax(name: string -> Option<string>, literal: string -> Option<Val>)

  /** The failures of an expression: a `SyntaxError` with its text, the
      `KeyError` of an unknown variable, a `TemVariableValueError` annotated
      with the variable's name, and an error of the setter passed on as it
      is. */
  datatype ExprError =
    | SyntaxErr(text: string)
    | UnknownName(name: string)
    | Invalid(name: string, error: VarError)
    | Raised(error: VarError)

  const CycleMessage := " (only variables with a finite set of values can be cycled)"
  const QueryMessage := " (only variants can be queried this way)"

  /** The exit code of the command line (`cli.exit_code`). */
  class CliState {
    var exitCode: int

    constructor ()
      ensures exitCode == 0
    {
      exitCode := 0;
    }
  }

  // ---------------------------------------------------------------------
  // Right-hand sides

  predicate AllStrings(allowed: seq<Val>) {
    forall k | 0 <= k < |allowed| :: allowed[k].VStr?
  }

  /** The variable takes strings only, and its right-hand side is taken as
      written. */
  predicate TakesText(t: VarType) {
    t == PrimType(StrType) || (t.ListType? && AllStrings(t.allowed))
  }

  /** `_parse_rhs` as written: it tests `var_type` against `None`, but a
      variable never has that type, since `Variable.__init__` turns `None`
      into `Any`. */
  function ParseRhsAsWritten(text: string, t: VarType, syn: Syntax): Option<Val> {
    if TakesText(t) then Some(VStr(text))
    else if syn.literal(text).Some? then syn.literal(text)
    else if t == BoolVar && (text == "true" || text == "false") then Some(VBool(text == "true"))
    else None
  }

  /** `_parse_rhs` with `Any` in the place of `None`: a text is taken as
      written for a string variable, as a literal when it is one, as a
      boolean when it is `true` or `false` and the variable is `bool` or
      `Any`, and as a plain string for `Any`; anything else is a syntax
      error. */
  function ParseRhs(text: string, t: VarType, syn: Syntax): (r: Option<Val>)
    ensures TakesText(t) ==> r == Some(VStr(text))
    ensures !TakesText(t) && syn.literal(text).Some? ==> r == syn.literal(text)
    ensures !TakesText(t) && syn.literal(text).None? ==>
              && ((t == BoolVar || t == AnyType) && (text == "true" || text == "false") ==> r == Some(VBool(text == "true")))
              && (t == AnyType && text != "true" && text != "false" ==> r == Some(VStr(text)))
              && (t != BoolVar && t != AnyType ==> r.None?)
              && (t == BoolVar && text != "true" && text != "false" ==> r.None?)
  {
    if TakesText(t) then Some(VStr(text))
    else if syn.literal(text).Some? then syn.literal(text)
    else if (t == BoolVar || t == AnyType) && (text == "true" || text == "false") then Some(VBool(text == "true"))
    else if t == AnyType then Some(VStr(text))
    else None
  }

  /** For an `Any` variable the unquoted texts `true` and `hello`, which
      Python does not read as literals, are syntax errors as written; the
      docstring promises a boolean and a string. */
  lemma ParseRhsAsWrittenRejectsAny(syn: Syntax)
    requires syn.literal("true") == None && syn.literal("hello") == None
    ensures ParseRhsAsWritten("true", AnyType, syn) == None
    ensures ParseRhsAsWritten("hello", AnyType, syn) == None
    ensures ParseRhs("true", AnyType, syn) == Some(VBool(true))
    ensures ParseRhs("hello", AnyType, syn) == Some(VStr("hello"))
  {
  }

  /** The two agree on every type but `Any`. */
  lemma ParseRhsAgrees(text: string, t: VarType, syn: Syntax)
    requires t != AnyType
    ensures ParseRhs(text, t, syn) == ParseRhsAsWritten(text, t, syn)
  {
  }

  /** An `Any` variable accepts every right-hand side. */
  lemma ParseRhsTotalOnAny(text: string, syn: Syntax)
    ensures ParseRhs(text, AnyType, syn).Some?
    ensures MatchesType(ParseRhs(text, AnyType, syn).value, AnyType)
  {
  }

  // ---------------------------------------------------------------------
  // Simple expressions

  datatype Form = AssignForm | CycleForm | GetForm

  /** The dispatch of `SimpleExpression`: `=` anywhere makes an assignment,
      else a final `!` a cycle, else a read. */
  function Classify(text: string): (f: Form)
    ensures f == AssignForm <==> '=' in text
    ensures f == CycleForm <==> '=' !in text && EndsWith(text, "!")
    ensures f == GetForm <==> '=' !in text && !EndsWith(text, "!")
  {
    if '=' in text then AssignForm
    else if EndsWith(text, "!") then CycleForm
    else GetForm
  }

  /** A parsed simple expression with the variable it names. */
  datatype Simple =
    | Assign(name: string, variable: Variable, rhs: Val)
    | Cycle(name: string, variable: Variable)
    | Get(name: string, variable: Variable)

  /** Only a variant or a variable with a list of allowed values can be
      cycled. */
  predicate Cyclable(x: Variable) {
    x.kind == VariantKind || x.varType.ListType?
  }

  /** The variable named by the text `left`, or the error of the lookup. */
  function Named(text: string, left: string, syn: Syntax, c: VariableContainer): (r: Result<(string, Variable), ExprError>)
    reads c
    ensures r.Ok? ==> syn.name(left) == Some(r.value.0) && r.value.0 in c.vars && r.value.1 == c.vars[r.value.0]
    ensures r.Err? ==> (syn.name(left).None? && r.error == SyntaxErr(text))
                       || (syn.name(left).Some? && syn.name(left).value !in c.vars && r.error == UnknownName(syn.name(left).value))
  {
    match syn.name(left)
    case None => Err(SyntaxErr(text))
    case Some(n) => if n in c.vars then Ok((n, c.vars[n])) else Err(UnknownName(n))
  }

  /** `SimpleExpression(text, container)`. */
  function ParseSimple(text: string, syn: Syntax, c: VariableContainer): (r: Result<Simple, ExprError>)
    reads c
    ensures r.Ok? ==> r.value.name in c.vars && r.value.variable == c.vars[r.value.name]
    ensures r.Ok? ==> (r.value.Assign? <==> Classify(text) == AssignForm)
                      && (r.value.Cycle? <==> Classify(text) == CycleForm)
    ensures r.Ok? && r.value.Cycle? ==> Cyclable(r.value.variable)
    ensures r.Ok? && r.value.Assign? ==>
              var (left, right) := SplitFirst(text, '=').value;
              ParseRhs(right, r.value.variable.varType, syn) == Some(r.value.rhs)
  {
    match Classify(text)
    case AssignForm =>
      var (left, right) := SplitFirst(text, '=').value;
      (match Named(text, left, syn, c)
       case Err(e) => Err(e)
       case Ok((n, x)) =>
         match ParseRhs(right, x.varType, syn)
         case None => Err(SyntaxErr(text))
         case Some(v) => Ok(Assign(n, x, v)))
    case CycleForm =>
      (match Named(text, text[..|text| - 1], syn, c)
       case Err(e) => Err(e)
       case Ok((n, x)) => if Cyclable(x) then Ok(Cycle(n, x)) else Err(SyntaxErr(text + CycleMessage)))
    case GetForm =>
      (match Named(text, text, syn, c)
       case Err(e) => Err(e)
       case Ok((n, x)) => Ok(Get(n, x)))
  }

  /** `Assign` cuts at the first `=` only: the value may hold more. */
  lemma AssignSplitsAtFirstEquals(left: string, right: string, syn: Syntax, c: VariableContainer)
    requires '=' !in left
    requires syn.name(left).Some? && syn.name(left).value in c.vars
    ensures var n := syn.name(left).value;
            var t := c.vars[n].varType;
            && (ParseRhs(right, t, syn).Some? ==>
                  ParseSimple(left + "=" + right, syn, c) == Ok(Assign(n, c.vars[n], ParseRhs(right, t, syn).value)))
            && (ParseRhs(right, t, syn).None? ==>
                  ParseSimple(left + "=" + right, syn, c) == Err(SyntaxErr(left + "=" + right)))
  {
    SplitFirstAt(left, '=', right);
  }

  /** Cycling a variable that is neither a variant nor limited to a list of
      values is a syntax error naming the reason. */
  lemma CycleNeedsFiniteValues(text: string, syn: Syntax, c: VariableContainer)
    requires '=' !in text && EndsWith(text, "!")
    requires var left := text[..|text| - 1];
             syn.name(left).Some? && syn.name(left).value in c.vars && !Cyclable(c.vars[syn.name(left).value])
    ensures ParseSimple(text, syn, c) == Err(SyntaxErr(text + CycleMessage))
  {
  }

  /** `Assign.from_pair`: an assignment built from a name and a value. */
  function FromPair(name: string, v: Val, c: VariableContainer): (r: Result<Simple, ExprError>)
    reads c
    ensures name in c.vars ==> r == Ok(Assign(name, c.vars[name], v))
    ensures name !in c.vars ==> r == Err(UnknownName(name))
  {
    if name in c.vars then Ok(Assign(name, c.vars[name], v)) else Err(UnknownName(name))
  }

  // ---------------------------------------------------------------------
  // Cycling

  /** The allowed value after the first occurrence of `v`, the first one
      after the last. */
  function CycleNext(allowed: seq<Val>, v: Val): (w: Val)
    requires v in allowed
    ensures w in allowed
  {
    var j := IndexOf(allowed, v) + 1;
    if j < |allowed| then allowed[j] else allowed[0]
  }

  /** `k` steps of `CycleNext`. */
  function CycleSteps(allowed: seq<Val>, v: Val, k: nat): (w: Val)
    requires v in allowed
    ensures w in allowed
    decreases k
  {
    if k == 0 then v else CycleSteps(allowed, CycleNext(allowed, v), k - 1)
  }

  /** The position after `i` in a cycle of `n` positions. */
  function NextIndex(i: nat, n: nat): (j: nat)
    requires i < n
    ensures j < n
  {
    if i + 1 < n then i + 1 else 0
  }

  /** The position `k` steps after `i`. */
  function StepIndex(i: nat, k: nat, n: nat): (j: nat)
    requires i < n
    ensures j < n
    decreases k
  {
    if k == 0 then i else StepIndex(NextIndex(i, n), k - 1, n)
  }

  lemma {:induction false} StepIndexAdd(i: nat, a: nat, b: nat, n: nat)
    requires i < n
    ensures StepIndex(i, a + b, n) == StepIndex(StepIndex(i, a, n), b, n)
    decreases a
  {
    if a > 0 {
      StepIndexAdd(NextIndex(i, n), a - 1, b, n);
    }
  }

  lemma {:induction false} StepIndexForward(i: nat, k: nat, n: nat)
    requires i + k < n
    ensures StepIndex(i, k, n) == i + k
    decreases k
  {
    if k > 0 {
      StepIndexForward(i + 1, k - 1, n);
    }
  }

  /** From position `i`, `n - i` steps lead around to position 0. */
  lemma StepIndexAround(i: nat, n: nat)
    requires i < n
    ensures StepIndex(i, n - i, n) == 0
  {
    StepIndexForward(i, n - 1 - i, n);
    StepIndexAdd(i, n - 1 - i, 1, n);
  }

  /** The number of steps from position `i` to position `j`. */
  function Distance(i: nat, j: nat, n: nat): (k: nat)
    requires i < n && j < n
    ensures k < n
  {
    if i <= j then j - i else n - i + j
  }

  lemma StepIndexReaches(i: nat, j: nat, n: nat)
    requires i < n && j < n
    ensures StepIndex(i, Distance(i, j, n), n) == j
    ensures StepIndex(i, n, n) == i
  {
    StepIndexAround(i, n);
    StepIndexForward(0, j, n);
    StepIndexForward(0, i, n);
    StepIndexAdd(i, n - i, i, n);
    if i <= j {
      StepIndexForward(i, j - i, n);
    } else {
      StepIndexAdd(i, n - i, j, n);
    }
  }

  lemma IndexOfDistinct<T>(s: seq<T>, i: nat)
    requires NoDuplicates(s) && i < |s|
    ensures IndexOf(s, s[i]) == i
  {
  }

  /** Over distinct allowed values, cycling from the `i`-th value moves
      along the positions. */
  lemma {:induction false} CycleStepsIndex(allowed: seq<Val>, i: nat, k: nat)
    requires NoDuplicates(allowed) && i < |allowed|
    ensures CycleSteps(allowed, allowed[i], k) == allowed[StepIndex(i, k, |allowed|)]
    decreases k
  {
    if k > 0 {
      IndexOfDistinct(allowed, i);
      CycleStepsIndex(allowed, NextIndex(i, |allowed|), k - 1);
    }
  }

  /** Cycling from `v` reaches `w` in fewer steps than there are values. */
  ghost predicate CycleReachesIn(allowed: seq<Val>, v: Val, w: Val)
    requires v in allowed
  {
    exists k: nat | k < |allowed| :: CycleSteps(allowed, v, k) == w
  }

  /** Over distinct allowed values, cycling from `v` reaches every `w`. */
  lemma CycleReaches(allowed: seq<Val>, v: Val, w: Val)
    requires NoDuplicates(allowed) && v in allowed && w in allowed
    ensures CycleReachesIn(allowed, v, w)
  {
    var i, j := IndexOf(allowed, v), IndexOf(allowed, w);
    var k := Distance(i, j, |allowed|);
    CycleStepsIndex(allowed, i, k);
    StepIndexReaches(i, j, |allowed|);
    assert CycleSteps(allowed, v, k) == w;
  }

  lemma CycleReturns(allowed: seq<Val>, v: Val)
    requires NoDuplicates(allowed) && v in allowed
    ensures CycleSteps(allowed, v, |allowed|) == v
  {
    var i := IndexOf(allowed, v);
    CycleStepsIndex(allowed, i, |allowed|);
    StepIndexReaches(i, i, |allowed|);
  }

  /** Cycling through distinct allowed values visits every one of them and
      comes back after as many steps as there are values. */
  lemma CycleVisitsAll(allowed: seq<Val>, v: Val)
    requires NoDuplicates(allowed) && v in allowed
    ensures CycleSteps(allowed, v, |allowed|) == v
    ensures forall w | w in allowed :: CycleReachesIn(allowed, v, w)
  {
    forall w | w in allowed ensures CycleReachesIn(allowed, v, w) {
      CycleReaches(allowed, v, w);
    }
    CycleReturns(allowed, v);
  }

  /** The loop that `dropwhile` over `cycle(allowed)` performs. */
  method NextAllowed(allowed: seq<Val>, v: Val) returns (w: Val)
    requires v in allowed
    ensures w == CycleNext(allowed, v)
  {
    var i := 0;
    while allowed[i] != v
      invariant 0 <= i <= IndexOf(allowed, v)
      decreases IndexOf(allowed, v) - i
    {
      i := i + 1;
    }
    w := if i + 1 < |allowed| then allowed[i + 1] else allowed[0];
  }

  /** The value `name!` sets: the negation of a boolean, the next allowed
      value of a list. */
  function Cycled(s: VarState): (v: Val)
    requires WellFormed(s) && (s.kind == VariantKind || s.varType.ListType?)
    ensures MatchesType(v, s.varType)
  {
    if s.varType == BoolVar then VBool(!s.value.b) else CycleNext(s.varType.allowed, s.value)
  }

  // ---------------------------------------------------------------------
  // Execution

  /** What executing a simple expression does to its variable's state and
      to the environment. */
  function Effect(e: Simple, s: VarState, env: Env, blocked: bool): (r: Result<(VarState, Env), ExprError>)
    requires e.Cycle? ==> WellFormed(s) && (s.kind == VariantKind || s.varType.ListType?)
  {
    match e
    case Assign(name, _, v) =>
      (match Assigned(s, v, env, blocked)
       case Ok(p) => Ok(p)
       case Err(ValueMismatch(w)) => Err(Invalid(name, ValueMismatch(w)))
       case Err(err) => Err(Raised(err)))
    case Cycle(_, _) =>
      (match Assigned(s, Cycled(s), env, blocked)
       case Ok(p) => Ok(p)
       case Err(err) => Err(Raised(err)))
    case Get(_, _) => Ok((s, env))
  }

  /** `execute()` of a simple expression. */
  method ExecuteSimple(e: Simple, env: Environ, graph: MutexGraph) returns (r: Outcome<ExprError>)
    requires e.variable.Valid()
    requires e.Cycle? ==> Cyclable(e.variable)
    modifies e.variable`value, env
    ensures e.variable.Valid()
    ensures var res := Effect(e, old(e.variable.State()), old(env.vars), old(graph.Blocked(e.variable)));
            && (res.Err? ==> r == Fail(res.error) && e.variable.value == old(e.variable.value) && env.vars == old(env.vars))
            && (res.Ok? ==> r == Pass && e.variable.State() == res.value.0 && env.vars == res.value.1)
  {
    match e
    case Assign(name, x, v) =>
      var outcome := x.SetValue(v, env, graph);
      if outcome.Fail? {
        if outcome.error.ValueMismatch? {
          return Fail(Invalid(name, outcome.error));
        }
        return Fail(Raised(outcome.error));
      }
      r := Pass;
    case Cycle(_, x) =>
      var next;
      if x.varType == BoolVar {
        next := VBool(!x.value.b);
      } else {
        next := NextAllowed(x.varType.allowed, x.value);
      }
      var outcome := x.SetValue(next, env, graph);
      if outcome.Fail? {
        return Fail(Raised(outcome.error));
      }
      r := Pass;
    case Get(_, _) =>
      r := Pass;
  }

  /** Cycling a list-typed variable always succeeds and visits its allowed
      values in order. */
  lemma CycleOnListSucceeds(e: Simple, s: VarState, env: Env, blocked: bool)
    requires e.Cycle? && WellFormed(s) && s.varType.ListType?
    ensures Effect(e, s, env, blocked).Ok?
    ensures Effect(e, s, env, blocked).value.0.value == CycleNext(s.varType.allowed, s.value)
  {
  }

  /** Cycling a variant twice, with nothing excluding it, restores it. */
  lemma CycleVariantTwice(e: Simple, s: VarState, env: Env)
    requires e.Cycle? && WellFormed(s) && s.kind == VariantKind
    ensures var once := Effect(e, s, env, false);
            && once.Ok? && once.value.0.value == VBool(!s.value.b)
            && Effect(e, once.value.0, once.value.1, false).Ok?
            && Effect(e, once.value.0, once.value.1, false).value.0 == s
  {
    var once := Effect(e, s, env, false);
    assert once.value.0 == s.(value := VBool(!s.value.b));
  }

  /** A rejected assignment names the variable and keeps the old value. */
  lemma AssignRejectsMismatch(name: string, x: Variable, v: Val, s: VarState, env: Env, blocked: bool)
    requires !MatchesType(v, s.varType) && !(s.kind == VariantKind && Truthy(v) && blocked)
    ensures Effect(Assign(name, x, v), s, env, blocked) == Err(Invalid(name, ValueMismatch(v)))
  {
  }

  // ---------------------------------------------------------------------
  // Queries

  /** A parsed query: the variable and the value it is compared with, if
      any. */
  datatype Query = Query(name: string, variable: Variable, rhs: Option<Val>)

  /** `Query(text, container)`. */
  function ParseQuery(text: string, syn: Syntax, c: VariableContainer): (r: Result<Query, ExprError>)
    reads c
    ensures r.Ok? ==> r.value.name in c.vars && r.value.variable == c.vars[r.value.name]
    ensures r.Ok? ==> (r.value.rhs.Some? <==> ':' in text)
    ensures r.Ok? && r.value.rhs.Some? ==>
              var (left, right) := SplitFirst(text, ':').value;
              syn.name(left) == Some(r.value.name) && ParseRhs(right, r.value.variable.varType, syn) == r.value.rhs
    ensures r.Err? ==> r.error.SyntaxErr? ==> r.error == SyntaxErr(text)
  {
    if ':' !in text then
      match Named(text, text, syn, c)
      case Err(e) => Err(e)
      case Ok((n, x)) => Ok(Query(n, x, None))
    else
      var (left, right) := SplitFirst(text, ':').value;
      match Named(text, left, syn, c)
      case Err(e) => Err(e)
      case Ok((n, x)) =>
        match ParseRhs(right, x.varType, syn)
        case None => Err(SyntaxErr(text))
        case Some(v) => Ok(Query(n, x, Some(v)))
  }

  /** Whether the query fails for a variable in state `s`: a bare name asks
      a variant to be true, `name:value` asks the value to equal `value`. */
  function QueryFails(q: Query, s: VarState): (r: Result<bool, ExprError>)
    ensures q.rhs.None? && s.kind != VariantKind ==> r == Err(SyntaxErr(q.name + QueryMessage))
    ensures q.rhs.None? && s.kind == VariantKind ==> r == Ok(!Truthy(s.value))
    ensures q.rhs.Some? ==> r == Ok(s.value != q.rhs.value)
  {
    if q.rhs.None? then
      if s.kind != VariantKind then Err(SyntaxErr(q.name + QueryMessage)) else Ok(!Truthy(s.value))
    else Ok(s.value != q.rhs.value)
  }

  /** `Query.execute()`: a failing query sets the exit code to 1. */
  method ExecuteQuery(q: Query, cli: CliState) returns (r: Outcome<ExprError>)
    modifies cli
    ensures var res := QueryFails(q, q.variable.State());
            && (res.Err? ==> r == Fail(res.error) && cli.exitCode == old(cli.exitCode))
            && (res.Ok? ==> r == Pass && cli.exitCode == if res.value then 1 else old(cli.exitCode))
  {
    var x := q.variable;
    if q.rhs.None? {
      if x.kind != VariantKind {
        return Fail(SyntaxErr(q.name + QueryMessage));
      }
      if !Truthy(x.value) {
        cli.exitCode := 1;
      }
    } else if x.value != q.rhs.value {
      cli.exitCode := 1;
    }
    r := Pass;
  }

  /** After a successful `name=value`, the query `name:value` holds. */
  lemma AssignThenQuery(name: string, x: Variable, v: Val, s: VarState, env: Env, blocked: bool)
    requires Effect(Assign(name, x, v), s, env, blocked).Ok?
    ensures QueryFails(Query(name, x, Some(v)), Effect(Assign(name, x, v), s, env, blocked).value.0) == Ok(false)
  {
  }

  /** Cycling a false variant makes the bare query of it hold, unless
      something excludes it. */
  lemma CycleThenQuery(e: Simple, s: VarState, env: Env)
    requires e.Cycle? && WellFormed(s) && s.kind == VariantKind && s.value == VBool(false)
    ensures Effect(e, s, env, false).Ok?
    ensures QueryFails(Query(e.name, e.variable, None), Effect(e, s, env, false).value.0) == Ok(false)
  {
  }
}
