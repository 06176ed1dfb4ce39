/** The `validate` rule engine of the project form (src/app.ts): a value that is either
    text or a number, checked against whichever optional constraints the caller sets.
    Only the checks that apply to the value's shape are ANDed together. */
module Validation {

  datatype Option<T> = None | Some(value: T)

  /** `string | number`. Numbers are modelled as integers. */
  datatype Value = Str(text: string) | Num(number: int)

  /** The `Validatable` record. An absent `required` behaves like `false`, so it is a
      plain flag; each bound is either absent (`None`) or present. */
  datatype Validatable = Validatable(
    value: Value,
    required: bool,
    minLength: Option<int>,
    maxLength: Option<int>,
    min: Option<int>,
    max: Option<int>)

  // ---------------------------------------------------------------------------
  // String.prototype.trim
  // ---------------------------------------------------------------------------

  /** The white-space characters `trim` removes (the ASCII ones). */
  predicate IsWhitespace(c: char) {
    c == ' ' || c == '\t' || c == '\n' || c == '\r' || c == '\U{000B}' || c == '\U{000C}'
  }

  /** True when `s` holds at least one character that is not white space. */
  predicate HasText(s: string) {
    exists i :: 0 <= i < |s| && !IsWhitespace(s[i])
  }

  /** Drops the longest all-white-space prefix. */
  function TrimStart(s: string): (r: string)
    ensures |r| <= |s| && r == s[|s| - |r|..]
    ensures forall i :: 0 <= i < |s| - |r| ==> IsWhitespace(s[i])
    ensures r != [] ==> !IsWhitespace(r[0])
  {
    if s == [] || !IsWhitespace(s[0]) then s else TrimStart(s[1..])
  }

  /** Drops the longest all-white-space suffix. */
  function TrimEnd(s: string): (r: string)
    ensures |r| <= |s| && r == s[..|r|]
    ensures forall i :: |r| <= i < |s| ==> IsWhitespace(s[i])
    ensures r != [] ==> !IsWhitespace(r[|r| - 1])
  {
    if s == [] || !IsWhitespace(s[|s| - 1]) then s else TrimEnd(s[..|s| - 1])
  }

  /** `r` is the slice of `s` starting at `a`, and everything of `s` before and after it is
      white space. */
  predicate DropsBlankEnds(s: string, r: string, a: int) {
    && 0 <= a <= |s| - |r|
    && r == s[a..a + |r|]
    && (forall i :: 0 <= i < a ==> IsWhitespace(s[i]))
    && (forall i :: a + |r| <= i < |s| ==> IsWhitespace(s[i]))
  }

  /** `s.trim()`: a slice of `s` that neither starts nor ends with white space. */
  function Trim(s: string): (r: string)
    ensures |r| <= |s|
    ensures r != [] ==> !IsWhitespace(r[0]) && !IsWhitespace(r[|r| - 1])
  {
    TrimEnd(TrimStart(s))
  }

  /** `trim` keeps the slice of `s` between an all-white-space prefix and an
      all-white-space suffix. */
  lemma TrimKeepsMiddle(s: string)
    ensures exists a :: DropsBlankEnds(s, Trim(s), a)
  {
    var t := TrimStart(s);
    BlankEndsDropped(s, t, TrimEnd(t));
    assert Trim(s) == TrimEnd(t);
    assert DropsBlankEnds(s, Trim(s), |s| - |t|);
  }

  /** Dropping a white-space prefix of `s` to get `t`, then a white-space suffix of `t` to
      get `r`, leaves `r` as a slice of `s` with white space on either side. */
  lemma BlankEndsDropped(s: string, t: string, r: string)
    requires |t| <= |s| && t == s[|s| - |t|..]
    requires forall i :: 0 <= i < |s| - |t| ==> IsWhitespace(s[i])
    requires |r| <= |t| && r == t[..|r|]
    requires forall i :: |r| <= i < |t| ==> IsWhitespace(t[i])
    ensures DropsBlankEnds(s, r, |s| - |t|)
  {
    var a := |s| - |t|;
    assert r == s[a..a + |r|] by {
      PrefixOfSuffix(s, a, |r|);
    }
    forall i | a + |r| <= i < |s|
      ensures IsWhitespace(s[i])
    {
      assert s[i] == t[i - a];
    }
  }

  /** The first `k` characters of the suffix from `a` are the slice from `a` to `a + k`. */
  lemma PrefixOfSuffix(s: string, a: nat, k: nat)
    requires a + k <= |s|
    ensures s[a..][..k] == s[a..a + k]
  {
  }

  /** Trimming leaves nothing exactly when the text is blank. */
  lemma TrimEmptyIffBlank(s: string)
    ensures Trim(s) == [] <==> !HasText(s)
  {
    var t := TrimStart(s);
    if Trim(s) == [] {
      assert t == [];
    } else {
      var r := Trim(s);
      assert t[..|r|] == r;
      assert s[|s| - |t|] == t[0] == r[0];
    }
  }

  // ---------------------------------------------------------------------------
  // Number.prototype.toString, for integers
  // ---------------------------------------------------------------------------

  function DigitChar(d: nat): (c: char)
    requires d < 10
    ensures '0' <= c <= '9' && (c == '0' <==> d == 0)
  {
    (48 + d) as char
  }

  /** The number a string of decimal digits denotes, most significant digit first. */
  function DigitsValue(s: string): int {
    if s == [] then 0 else 10 * DigitsValue(s[..|s| - 1]) + (s[|s| - 1] as int - 48)
  }

  /** Decimal text of a natural number, without leading zeros. */
  function NaturalToString(n: nat): (r: string)
    ensures r != []
    ensures forall i :: 0 <= i < |r| ==> '0' <= r[i] <= '9'
    ensures r[0] == '0' <==> n == 0
    ensures DigitsValue(r) == n
  {
    if n < 10 then [DigitChar(n)] else NaturalToString(n / 10) + [DigitChar(n % 10)]
  }

  /** Decimal text of an integer, with a leading `-` when it is negative. */
  function NumberToString(n: int): (r: string)
    ensures r != []
    ensures (r[0] == '-') == (n < 0)
    ensures forall i :: 0 <= i < |r| ==> !IsWhitespace(r[i])
    ensures forall i :: (if n < 0 then 1 else 0) <= i < |r| ==> '0' <= r[i] <= '9'
    ensures n >= 0 ==> DigitsValue(r) == n
    ensures n < 0 ==> DigitsValue(r[1..]) == -n
  {
    if n < 0 then ['-'] + NaturalToString(-n) else NaturalToString(n)
  }

  /** `value.toString()`. */
  function ToText(v: Value): string {
    match v
    case Str(s) => s
    case Num(n) => NumberToString(n)
  }

  /** A number's text is never blank, so `required` holds of every number. */
  lemma NumberTextNeverBlank(n: int)
    ensures Trim(ToText(Num(n))) != []
  {
    var r := NumberToString(n);
    assert !IsWhitespace(r[0]);
    TrimEmptyIffBlank(r);
  }

  // ---------------------------------------------------------------------------
  // The rule: every present constraint that applies to the value holds
  // ---------------------------------------------------------------------------

  datatype Constraint = Required | MinLength(bound: int) | MaxLength(bound: int) | Min(bound: int) | Max(bound: int)

  /** The record sets constraint `c`. */
  predicate Sets(v: Validatable, c: Constraint) {
    match c
    case Required => v.required
    case MinLength(b) => v.minLength == Some(b)
    case MaxLength(b) => v.maxLength == Some(b)
    case Min(b) => v.min == Some(b)
    case Max(b) => v.max == Some(b)
  }

  /** Length bounds apply to text only, numeric bounds to numbers only. */
  predicate AppliesTo(c: Constraint, v: Value) {
    match c
    case Required => true
    case MinLength(_) => v.Str?
    case MaxLength(_) => v.Str?
    case Min(_) => v.Num?
    case Max(_) => v.Num?
  }

  /** What each constraint demands of a value it applies to. */
  predicate HoldsFor(c: Constraint, v: Value) {
    match c
    case Required => Trim(ToText(v)) != []
    case MinLength(b) => v.Str? && |v.text| >= b
    case MaxLength(b) => v.Str? && |v.text| <= b
    case Min(b) => v.Num? && v.number >= b
    case Max(b) => v.Num? && v.number <= b
  }

  /** The meaning of `validate`: no set, applicable constraint is violated. */
  ghost predicate Satisfies(v: Validatable) {
    forall c :: Sets(v, c) && AppliesTo(c, v.value) ==> HoldsFor(c, v.value)
  }

  /** The rule written out check by check. */
  lemma SatisfiesExactly(v: Validatable)
    ensures Satisfies(v) <==>
      && (v.required ==> Trim(ToText(v.value)) != [])
      && (v.minLength.Some? && v.value.Str? ==> |v.value.text| >= v.minLength.value)
      && (v.maxLength.Some? && v.value.Str? ==> |v.value.text| <= v.maxLength.value)
      && (v.min.Some? && v.value.Num? ==> v.value.number >= v.min.value)
      && (v.max.Some? && v.value.Num? ==> v.value.number <= v.max.value)
  {
    if v.required { assert Sets(v, Required); }
    if v.minLength.Some? { assert Sets(v, MinLength(v.minLength.value)); }
    if v.maxLength.Some? { assert Sets(v, MaxLength(v.maxLength.value)); }
    if v.min.Some? { assert Sets(v, Min(v.min.value)); }
    if v.max.Some? { assert Sets(v, Max(v.max.value)); }
  }

  /** `validate`: threads one accumulator through the five checks in turn. */
  method Validate(input: Validatable) returns (isValid: bool)
    ensures isValid <==> Satisfies(input)
  {
    isValid := true;
    if input.required {
      isValid := isValid && |Trim(ToText(input.value))| != 0;
    }
    if input.minLength.Some? && input.value.Str? {
      isValid := isValid && |input.value.text| >= input.minLength.value;
    }
    if input.maxLength.Some? && input.value.Str? {
      isValid := isValid && |input.value.text| <= input.maxLength.value;
    }
    if input.min.Some? && input.value.Num? {
      isValid := isValid && input.value.number >= input.min.value;
    }
    if input.max.Some? && input.value.Num? {
      isValid := isValid && input.value.number <= input.max.value;
    }
    SatisfiesExactly(input);
  }

  // ---------------------------------------------------------------------------
  // Properties of the rule
  // ---------------------------------------------------------------------------

  /** With nothing set, every value passes. */
  lemma EmptyConfigAlwaysValid(value: Value)
    ensures Satisfies(Validatable(value, false, None, None, None, None))
  {
  }

  /** `minLength` and `maxLength` have no effect on a number. */
  lemma LengthBoundsIgnoredForNumbers(v: Validatable, minLength: Option<int>, maxLength: Option<int>)
    requires v.value.Num?
    ensures Satisfies(v) <==> Satisfies(v.(minLength := minLength, maxLength := maxLength))
  {
    SatisfiesExactly(v);
    SatisfiesExactly(v.(minLength := minLength, maxLength := maxLength));
  }

  /** `min` and `max` have no effect on text. */
  lemma RangeBoundsIgnoredForStrings(v: Validatable, min: Option<int>, max: Option<int>)
    requires v.value.Str?
    ensures Satisfies(v) <==> Satisfies(v.(min := min, max := max))
  {
    SatisfiesExactly(v);
    SatisfiesExactly(v.(min := min, max := max));
  }

  /** A lower bound `b` is at least as strict as `a` (an absent bound is the loosest). */
  predicate LowerAtLeast(b: Option<int>, a: Option<int>) {
    a.None? || (b.Some? && b.value >= a.value)
  }

  /** An upper bound `b` is at least as strict as `a`. */
  predicate UpperAtMost(b: Option<int>, a: Option<int>) {
    a.None? || (b.Some? && b.value <= a.value)
  }

  /** `stricter` checks the same value with every constraint of `looser` kept or tightened,
      and possibly more constraints added. */
  predicate Tightens(stricter: Validatable, looser: Validatable) {
    && stricter.value == looser.value
    && (looser.required ==> stricter.required)
    && LowerAtLeast(stricter.minLength, looser.minLength)
    && UpperAtMost(stricter.maxLength, looser.maxLength)
    && LowerAtLeast(stricter.min, looser.min)
    && UpperAtMost(stricter.max, looser.max)
  }

  /** Monotonicity: adding or tightening constraints can only turn a pass into a fail. */
  lemma TighteningNeverAdmits(stricter: Validatable, looser: Validatable)
    requires Tightens(stricter, looser)
    ensures Satisfies(stricter) ==> Satisfies(looser)
  {
    SatisfiesExactly(stricter);
    SatisfiesExactly(looser);
  }
}
