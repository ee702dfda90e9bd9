/** The value-level part of tem/var.py: the type descriptors a variable may
    have, the type test `_matches_type`, the zero values of
    `_default_value_for_type`, the conversion of an environment string
    (`_convert_to_var_type`), `str(value)` as written to `to_env`, and the
    namespace filter `_filter_variables`.

    Python values are modelled by `Val`. Equality of `Val` is structural:
    `VInt(1)`, `VBool(true)` and `VFloat("1.0")` are three different values,
    unlike Python where `1 == True == 1.0`. A float is an opaque token that
    keeps its decimal text. */
module VarTypes {
  import opened Results
  import opened Strings

  datatype Val =
    | VNone
    | VInt(i: int)
    | VStr(s: string)
    | VFloat(text: string)
    | VBool(b: bool)

  /** The primitive types a variable can be declared with (`int`, `str`,
      `float`, `bool`). */
  datatype Prim = IntType | StrType | FloatType | BoolType

  /** `var_type`: `Any`, a type, or a list of allowed values. */
  datatype VarType =
    | AnyType
    | PrimType(prim: Prim)
    | ListType(allowed: seq<Val>)

  /** The failures of the variable engine: `TemVariableValueError` (the first
      three), the mutual-exclusion failure of a `Variant`, a missing name
      (`AttributeError`/`KeyError`), a stored value whose name the directory
      no longer defines (`KeyError` in `_load`) and
      `TemVariableNotDefinedError`. */
  datatype VarError =
    | ValueMismatch(value: Val)
    | DefaultRequired
    | DefaultMismatch(default: Val)
    | Excluded
    | NoSuchVariable(name: string)
    | StoredNameUndefined
    | NotDefined

  const BoolVar := PrimType(BoolType)

  /** `isinstance(value, var_type)` for a primitive type. */
  predicate IsInstance(v: Val, p: Prim) {
    match p
    case IntType => v.VInt?
    case StrType => v.VStr?
    case FloatType => v.VFloat?
    case BoolType => v.VBool?
  }

  /** `Variable._matches_type`. */
  predicate MatchesType(v: Val, t: VarType) {
    match t
    case AnyType => true
    case PrimType(p) => IsInstance(v, p)
    case ListType(allowed) => v in allowed
  }

  /** `Variable._default_value_for_type`: the type's zero value, the first
      allowed value, or `None`. */
  function DefaultValueForType(t: VarType): (r: Val)
    ensures t.PrimType? ==> MatchesType(r, t) && !Truthy(r)
    ensures t.ListType? && t.allowed != [] ==> r == t.allowed[0]
    ensures t.AnyType? || t == ListType([]) ==> r == VNone
  {
    match t
    case PrimType(IntType) => VInt(0)
    case PrimType(StrType) => VStr("")
    case PrimType(FloatType) => VFloat("0.0")
    case PrimType(BoolType) => VBool(false)
    case ListType(allowed) => if allowed != [] then allowed[0] else VNone
    case AnyType => VNone
  }

  /** Python truthiness (`if value`, `not value`). */
  predicate Truthy(v: Val) {
    match v
    case VNone => false
    case VInt(i) => i != 0
    case VStr(s) => s != ""
    case VFloat(text) => exists k :: 0 <= k < |text| && '1' <= text[k] <= '9'
    case VBool(b) => b
  }

  // ---------------------------------------------------------------------
  // Decimal text

  predicate IsDigit(c: char) { '0' <= c <= '9' }

  predicate AllDigits(s: string) { forall k :: 0 <= k < |s| ==> IsDigit(s[k]) }

  /** The number written by a string of decimal digits. */
  function DigitsValue(s: string): (n: nat)
    requires AllDigits(s)
  {
    if s == [] then 0 else DigitsValue(s[..|s| - 1]) * 10 + (s[|s| - 1] - '0') as int
  }

  /** The decimal digits of `n`, without leading zeros. */
  function NatToDigits(n: nat): (s: string)
    ensures s != [] && AllDigits(s)
  {
    if n < 10 then [('0' as int + n) as char]
    else NatToDigits(n / 10) + [('0' as int + n % 10) as char]
  }

  lemma {:induction false} DigitsRoundTrip(n: nat)
    ensures DigitsValue(NatToDigits(n)) == n
  {
    if n >= 10 {
      DigitsRoundTrip(n / 10);
      var s := NatToDigits(n);
      assert s[..|s| - 1] == NatToDigits(n / 10);
    }
  }

  /** The characters `int()` strips from either end of its argument: the
      ASCII white space of `str.isspace`. */
  predicate IsSpace(c: char) {
    c == ' ' || 9 <= c as int <= 13 || 28 <= c as int <= 31
  }

  /** `text.strip()`. */
  function StripSpace(text: string): (r: string)
    ensures r != [] ==> !IsSpace(r[0]) && !IsSpace(r[|r| - 1])
    decreases |text|
  {
    if text != [] && IsSpace(text[0]) then StripSpace(text[1..])
    else if text != [] && IsSpace(text[|text| - 1]) then StripSpace(text[..|text| - 1])
    else text
  }

  /** Decimal digits in groups: it starts and ends with a digit, and every
      `_` stands alone between two digits. */
  predicate IsDigitGroups(s: string) {
    && s != [] && IsDigit(s[0]) && IsDigit(s[|s| - 1])
    && (forall k :: 0 <= k < |s| ==> IsDigit(s[k]) || s[k] == '_')
    && (forall k :: 0 <= k < |s| - 1 && s[k] == '_' ==> s[k + 1] != '_')
  }

  /** The digits of `s` without its `_` separators. */
  function DropUnderscores(s: string): (r: string)
    ensures (forall k :: 0 <= k < |s| ==> IsDigit(s[k]) || s[k] == '_') ==> AllDigits(r)
    ensures AllDigits(s) ==> r == s
  {
    if s == [] then [] else (if s[0] == '_' then [] else [s[0]]) + DropUnderscores(s[1..])
  }

  /** `int(text)`: white space around an optional sign and decimal digits,
      which `_` may separate. */
  function ParseInt(text: string): Option<int> {
    ParseSigned(StripSpace(text))
  }

  /** `int()` of the stripped text: an optional sign, then digit groups. */
  function ParseSigned(t: string): Option<int> {
    var body := if t != [] && (t[0] == '-' || t[0] == '+') then t[1..] else t;
    if IsDigitGroups(body) then
      var n := DigitsValue(DropUnderscores(body));
      Some(if t[0] == '-' then 0 - n else n)
    else None
  }

  /** Text that starts and ends with something other than white space is
      already stripped. */
  lemma StripSpaceKeeps(text: string)
    requires text != [] && !IsSpace(text[0]) && !IsSpace(text[|text| - 1])
    ensures StripSpace(text) == text
  {
  }

  /** `int()` ignores the white space around its argument. */
  lemma ParseIntStripsSpace()
    ensures ParseInt(" 7\n") == Some(7)
  {
    assert " 7\n"[1..] == "7\n" && "7\n"[..1] == "7";
    assert StripSpace(" 7\n") == StripSpace("7\n") == StripSpace("7") == "7";
    assert DigitsValue("7"[..0]) == 0;
    assert ParseSigned("7") == Some(7);
  }

  /** `int()` drops the `_` that separate digit groups. */
  lemma ParseIntDropsUnderscores()
    ensures ParseInt("1_0") == Some(10)
  {
    var s := "1_0";
    StripSpaceKeeps(s);
    assert IsDigitGroups(s) by {
      assert s[1] == '_' && IsDigit(s[0]) && IsDigit(s[2]);
    }
    assert DropUnderscores(s) == "10" by {
      assert s[1..] == "_0" && "_0"[1..] == "0" && "0"[1..] == "";
      assert DropUnderscores("0") == "0";
      assert DropUnderscores("_0") == "0";
    }
    assert DigitsValue("10") == 10 by {
      assert "10"[..1] == "1" && "1"[..0] == "";
    }
    assert ParseSigned(s) == Some(10) by {
      assert s[0] == '1';
    }
  }

  /** A sign may precede the digit groups. */
  lemma ParseIntSignedGroups()
    ensures ParseInt("-0_1") == Some(-1)
  {
    var m := "-0_1";
    StripSpaceKeeps(m);
    var body := m[1..];
    assert body == "0_1";
    assert IsDigitGroups(body) by {
      assert body[1] == '_' && IsDigit(body[0]) && IsDigit(body[2]);
    }
    assert DropUnderscores(body) == "01" by {
      assert body[1..] == "_1" && "_1"[1..] == "1" && "1"[1..] == "";
      assert DropUnderscores("1") == "1";
      assert DropUnderscores("_1") == "1";
    }
    assert DigitsValue("01") == 1 by {
      assert "01"[..1] == "0" && "0"[..0] == "";
    }
    assert ParseSigned(m) == Some(-1) by {
      assert m[0] == '-';
    }
  }

  /** `int()` refuses a `_` that does not stand between two digits. */
  lemma ParseIntRefusesStrayUnderscores()
    ensures ParseInt("1__0") == None && ParseInt("_1") == None
  {
    StripSpaceKeeps("1__0");
    assert "1__0"[1] == '_' && "1__0"[2] == '_';
    StripSpaceKeeps("_1");
    assert ParseSigned("1__0") == None && ParseSigned("_1") == None;
  }

  /** `str(i)`. */
  function IntToString(i: int): string {
    if i < 0 then "-" + NatToDigits(-i) else NatToDigits(i)
  }

  /** Bare digits are digit groups with nothing to drop. */
  lemma DigitGroupsOfDigits(s: string)
    requires s != [] && AllDigits(s)
    ensures IsDigitGroups(s) && DropUnderscores(s) == s
  {
    assert IsDigit(s[0]) && IsDigit(s[|s| - 1]);
  }

  lemma IntRoundTrip(i: int)
    ensures ParseInt(IntToString(i)) == Some(i)
  {
    var s := IntToString(i);
    var digits := NatToDigits(if i < 0 then -i else i);
    assert s == (if i < 0 then "-" else "") + digits;
    assert IsDigit(digits[0]) && IsDigit(digits[|digits| - 1]);
    StripSpaceKeeps(s);
    assert (if s[0] == '-' || s[0] == '+' then s[1..] else s) == digits;
    DigitGroupsOfDigits(digits);
    DigitsRoundTrip(if i < 0 then -i else i);
    assert ParseSigned(s) == Some(i);
  }

  /** `float(text)` succeeds on a decimal literal: an optional sign, digits,
      and at most one `.`, with at least one digit. */
  predicate IsDecimalLiteral(text: string) {
    var body := if text != [] && (text[0] == '-' || text[0] == '+') then text[1..] else text;
    match SplitFirst(body, '.')
    case None => body != [] && AllDigits(body)
    case Some((whole, fraction)) => AllDigits(whole) && AllDigits(fraction) && whole + fraction != []
  }

  /** `str(value)`, as written into the `to_env` environment variable. */
  function Str(v: Val): string {
    match v
    case VNone => "None"
    case VInt(i) => IntToString(i)
    case VStr(s) => s
    case VFloat(text) => text
    case VBool(b) => if b then "True" else "False"
  }

  // ---------------------------------------------------------------------
  // Conversion of an environment string

  /** `var_type(text)` for a primitive type: None when the call raises. */
  function CallType(p: Prim, text: string): (r: Option<Val>)
    ensures r.Some? ==> IsInstance(r.value, p)
    ensures p == IntType ==> r == (if ParseInt(text).Some? then Some(VInt(ParseInt(text).value)) else None)
    ensures p == StrType ==> r == Some(VStr(text))
    ensures p == FloatType ==> (r.Some? <==> IsDecimalLiteral(text))
    ensures p == BoolType ==> r == Some(VBool(text != ""))
  {
    match p
    case IntType => (match ParseInt(text) case Some(i) => Some(VInt(i)) case None => None)
    case StrType => Some(VStr(text))
    case FloatType => if IsDecimalLiteral(text) then Some(VFloat(text)) else None
    case BoolType => Some(VBool(text != ""))
  }

  /** `type(allowed_value)(text)`; `type(None)` cannot be called with an
      argument. */
  function CallTypeOf(allowed: Val, text: string): Option<Val> {
    match allowed
    case VNone => None
    case VInt(_) => CallType(IntType, text)
    case VStr(_) => CallType(StrType, text)
    case VFloat(_) => CallType(FloatType, text)
    case VBool(_) => CallType(BoolType, text)
  }

  /** The value that `text` converts to for some allowed value: the first
      allowed value whose own type turns `text` into it. */
  function FirstConvertible(allowed: seq<Val>, text: string): (r: Option<Val>)
    ensures r.Some? ==> && r.value in allowed
                        && CallTypeOf(r.value, text) == Some(r.value)
                        && forall j :: 0 <= j < IndexOf(allowed, r.value) ==>
                             CallTypeOf(allowed[j], text) != Some(allowed[j])
    ensures r.None? ==> forall k :: 0 <= k < |allowed| ==> CallTypeOf(allowed[k], text) != Some(allowed[k])
  {
    if allowed == [] then None
    else if CallTypeOf(allowed[0], text) == Some(allowed[0]) then Some(allowed[0])
    else FirstConvertible(allowed[1..], text)
  }

  /** `Variable._convert_to_var_type(text)`. */
  function Convert(text: string, t: VarType): (r: Result<Val, VarError>)
    ensures r.Ok? ==> MatchesType(r.value, t)
    ensures r.Err? ==> r.error == ValueMismatch(VStr(text))
  {
    match t
    case AnyType => Ok(VStr(text))
    case PrimType(p) =>
      (match CallType(p, text) case Some(v) => Ok(v) case None => Err(ValueMismatch(VStr(text))))
    case ListType(allowed) =>
      (match FirstConvertible(allowed, text) case Some(v) => Ok(v) case None => Err(ValueMismatch(VStr(text))))
  }

  /** What `to_env` writes, `from_env` reads back, for `int` and `str`
      variables. */
  lemma EnvRoundTrip(v: Val, t: VarType)
    requires t == PrimType(IntType) || t == PrimType(StrType)
    requires MatchesType(v, t)
    ensures Convert(Str(v), t) == Ok(v)
  {
    if t == PrimType(IntType) {
      IntRoundTrip(v.i);
    }
  }

  /** A `bool` variable converts by calling `bool`: every non-empty text,
      `"False"` included, is true. */
  lemma BoolFromEnvIsNonEmptiness(text: string)
    ensures Convert(text, BoolVar) == Ok(VBool(text != ""))
    ensures Convert(Str(VBool(false)), BoolVar) == Ok(VBool(true))
  {
  }

  // ---------------------------------------------------------------------
  // Namespaces

  /** An entry of a Python namespace: a `Variable` or any other object. */
  datatype Binding<+T> = IsVariable(v: T) | NotVariable

  /** Names that both start and end with `_` are private. */
  predicate IsPublic(name: string) {
    !(StartsWith(name, "_") && EndsWith(name, "_"))
  }

  /** `_filter_variables`: the public entries that are variables. */
  function FilterVariables<T>(ns: map<string, Binding<T>>): (r: map<string, T>)
    ensures forall n :: n in r <==> n in ns && ns[n].IsVariable? && IsPublic(n)
    ensures forall n :: n in r ==> r[n] == ns[n].v
  {
    map n | n in ns && ns[n].IsVariable? && IsPublic(n) :: ns[n].v
  }
}
