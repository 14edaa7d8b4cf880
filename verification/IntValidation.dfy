/** The integer rules and the schemas generated for them
    (buf/jsonschema.go:687-1003). */
module IntValidation {
  import opened Json
  import opened JsonSchema

  /** The integer kinds, by width and sign; sint, fixed and sfixed fields behave
      like the plain kind of their width. */
  datatype IntType = Int32 | Int64 | Uint32 | Uint64 {
    predicate Wide() { Int64? || Uint64? }
    predicate Signed() { Int32? || Int64? }
    function Min(): int {
      match this
      case Int32 => -0x8000_0000
      case Int64 => -0x8000_0000_0000_0000
      case _ => 0
    }
    function Max(): int {
      match this
      case Int32 => 0x7FFF_FFFF
      case Int64 => 0x7FFF_FFFF_FFFF_FFFF
      case Uint32 => 0xFFFF_FFFF
      case Uint64 => 0xFFFF_FFFF_FFFF_FFFF
    }
    predicate Holds(n: int) { Min() <= n <= Max() }
    function Text(): Pattern { if Signed() then SignedDigits else Digits }
  }

  datatype Lower = NoLower | Gt(bound: int) | Gte(bound: int) {
    predicate Admits(n: int) {
      match this
      case NoLower => true
      case Gt(b) => b < n
      case Gte(b) => b <= n
    }
  }

  datatype Upper = NoUpper | Lt(bound: int) | Lte(bound: int) {
    predicate Admits(n: int) {
      match this
      case NoUpper => true
      case Lt(b) => n < b
      case Lte(b) => n <= b
    }
  }

  datatype IntRules = IntRules(
    constant: Option<int>, allowed: seq<int>, denied: seq<int>, lower: Lower, upper: Upper)
  {
    /** Every number in the rules is a value of type `t`. */
    predicate Fits(t: IntType) {
      && (constant.Some? ==> t.Holds(constant.value))
      && (forall n | n in allowed :: t.Holds(n))
      && (lower != NoLower ==> t.Holds(lower.bound))
      && (upper != NoUpper ==> t.Holds(upper.bound))
    }
  }

  /** The range rule as protovalidate documents it: an upper bound below the
      lower bound reverses the range. */
  predicate InRange(lower: Lower, upper: Upper, n: int) {
    if lower != NoLower && upper != NoUpper && upper.bound < lower.bound
    then lower.Admits(n) || upper.Admits(n)
    else lower.Admits(n) && upper.Admits(n)
  }

  predicate Satisfies(r: IntRules, n: int) {
    && (r.constant.Some? ==> n == r.constant.value)
    && (r.allowed != [] ==> n in r.allowed)
    && n !in r.denied
    && InRange(r.lower, r.upper, n)
  }

  /** The generator's own test for a reversed range. It also takes equal bounds
      as reversed, unless both are inclusive. */
  predicate Reversed(lower: Lower, upper: Upper) {
    match (lower, upper)
    case (NoLower, _) => false
    case (_, NoUpper) => false
    case (Gte(b), Lte(c)) => c < b
    case _ => upper.bound <= lower.bound
  }

  /** Equal bounds, at least one of them exclusive: the rule admits nothing. */
  predicate Degenerate(lower: Lower, upper: Upper) {
    && lower != NoLower && upper != NoUpper && lower.bound == upper.bound
    && !(lower.Gte? && upper.Lte?)
  }

  // ----- The emitted branches

  function Integers(ns: seq<int>): seq<Json> {
    seq(|ns|, i requires 0 <= i < |ns| => Int(ns[i]))
  }

  function ConstOrIn(r: IntRules): Option<seq<Json>> {
    if r.constant.Some? then Some([Int(r.constant.value)])
    else if r.allowed != [] then Some(Integers(r.allowed))
    else None
  }

  function Number(enumeration: Option<seq<Json>>, bounds: Bounds): Schema {
    Scalar(Some(TInteger), enumeration, bounds, NO_TEXT)
  }

  /** Adds the lower bound to a branch; a 64-bit signed bound that no safe
      integer is below is dropped. */
  function WithLower(b: Bounds, t: IntType, lower: Lower): Bounds {
    match lower
    case NoLower => b
    case Gt(n) => if t.Signed() && n < -MAX_SAFE_INTEGER then b else b.(exclusiveMinimum := Some(n))
    case Gte(n) => if t.Signed() && n <= -MAX_SAFE_INTEGER then b else b.(minimum := Some(n))
  }

  /** Adds the upper bound to a branch; a bound that no safe integer is above is
      dropped. */
  function WithUpper(b: Bounds, upper: Upper): Bounds {
    match upper
    case NoUpper => b
    case Lt(n) => if n <= MAX_SAFE_INTEGER then b.(exclusiveMaximum := Some(n)) else b
    case Lte(n) => if n < MAX_SAFE_INTEGER then b.(maximum := Some(n)) else b
  }

  function TypeMinimum(b: Bounds, t: IntType): Bounds {
    if t.Int64? then b else b.(minimum := Some(t.Min()))
  }

  function TypeMaximum(b: Bounds, t: IntType): Bounds {
    if t.Wide() then b else b.(exclusiveMaximum := Some(t.Max() + 1))
  }

  /** The bounds every rule has: the whole range, or the part below the upper
      bound when the range is reversed. */
  function MainBounds(t: IntType, lower: Lower, upper: Upper): Bounds {
    if Reversed(lower, upper) then TypeMinimum(WithUpper(NO_BOUNDS, upper), t)
    else
      var low := if lower == NoLower then TypeMinimum(NO_BOUNDS, t) else WithLower(NO_BOUNDS, t, lower);
      if upper == NoUpper then TypeMaximum(low, t) else WithUpper(low, upper)
  }

  /** The part above the lower bound of a reversed range. */
  function AboveBounds(t: IntType, lower: Lower): Bounds {
    TypeMaximum(if !t.Signed() && lower.Gt? && lower.bound > MAX_SAFE_INTEGER then NO_BOUNDS
                else WithLower(NO_BOUNDS, t, lower), t)
  }

  function NumberBranches(t: IntType, r: IntRules): seq<Schema> {
    [Number(ConstOrIn(r), MainBounds(t, r.lower, r.upper))] +
    if Reversed(r.lower, r.upper) then [Number(None, AboveBounds(t, r.lower))] else []
  }

  function TextSchema(t: IntType): Schema {
    Scalar(Some(TString), None, NO_BOUNDS, NO_TEXT.(pattern := Some(t.Text())))
  }

  function RuledSchema(strict: bool, t: IntType, r: IntRules): Schema {
    Alternatives(NumberBranches(t, r) + if strict then [] else [TextSchema(t)])
  }

  /** The bounds of a field without integer rules. */
  function PlainBounds(strict: bool, t: IntType): Bounds {
    if !t.Wide() then Bounds(Some(t.Min()), None, Some(t.Max()), None)
    else if strict then TypeMinimum(NO_BOUNDS, t)
    else Bounds(Some(if t.Signed() then -MAX_SAFE_INTEGER else 0), None, Some(MAX_SAFE_INTEGER), None)
  }

  function IntSchema(strict: bool, string64: bool, t: IntType, rules: Option<IntRules>): Schema {
    if string64 && t.Wide() then TextSchema(t)
    else match rules
      case Some(r) => RuledSchema(strict, t, r)
      case None => Alternatives([Number(None, PlainBounds(strict, t))] + if strict then [] else [TextSchema(t)])
  }

  // ----- What the branches accept

  /** Some number branch accepts the integer `n`. */
  predicate NumberAccepts(t: IntType, r: IntRules, n: int) {
    || ((ConstOrIn(r).Some? ==> Int(n) in ConstOrIn(r).value) && InBounds(MainBounds(t, r.lower, r.upper), n))
    || (Reversed(r.lower, r.upper) && InBounds(AboveBounds(t, r.lower), n))
  }

  lemma NumberMeaning(enumeration: Option<seq<Json>>, bounds: Bounds, j: Json)
    ensures Accepts(Number(enumeration, bounds), j) <==>
            j.Int? && (enumeration.Some? ==> j in enumeration.value) && InBounds(bounds, j.n)
  {
    ScalarMeaning(Number(enumeration, bounds), j);
  }

  lemma TextMeaning(t: IntType, j: Json)
    ensures Accepts(TextSchema(t), j) <==> j.Str? && Matches(t.Text(), j.s)
  {
    ScalarMeaning(TextSchema(t), j);
  }

  lemma UnionMeaning(strict: bool, numbers: seq<Schema>, text: Schema, j: Json)
    ensures Accepts(Alternatives(numbers + if strict then [] else [text]), j) <==>
            (exists i | 0 <= i < |numbers| :: Accepts(numbers[i], j)) || (!strict && Accepts(text, j))
  {
    var all := numbers + if strict then [] else [text];
    AlternativesMeaning(all, j);
    assert forall i | 0 <= i < |numbers| :: all[i] == numbers[i];
    if !strict {
      assert all[|numbers|] == text;
    }
  }

  lemma RuledMeaning(strict: bool, t: IntType, r: IntRules, j: Json)
    ensures Accepts(RuledSchema(strict, t, r), j) <==>
            (j.Int? && NumberAccepts(t, r, j.n)) || (j.Str? && !strict && Matches(t.Text(), j.s))
  {
    var numbers := NumberBranches(t, r);
    UnionMeaning(strict, numbers, TextSchema(t), j);
    TextMeaning(t, j);
    NumberMeaning(ConstOrIn(r), MainBounds(t, r.lower, r.upper), j);
    NumberMeaning(None, AboveBounds(t, r.lower), j);
    assert numbers[0] == Number(ConstOrIn(r), MainBounds(t, r.lower, r.upper));
    if Reversed(r.lower, r.upper) {
      assert numbers[1] == Number(None, AboveBounds(t, r.lower));
    }
  }

  lemma PlainMeaning(strict: bool, string64: bool, t: IntType, j: Json)
    requires !(string64 && t.Wide())
    ensures Accepts(IntSchema(strict, string64, t, None), j) <==>
            (j.Int? && InBounds(PlainBounds(strict, t), j.n)) || (j.Str? && !strict && Matches(t.Text(), j.s))
  {
    var numbers := [Number(None, PlainBounds(strict, t))];
    UnionMeaning(strict, numbers, TextSchema(t), j);
    TextMeaning(t, j);
    NumberMeaning(None, PlainBounds(strict, t), j);
    assert numbers[0] == Number(None, PlainBounds(strict, t));
  }

  // ----- What an integer field admits, all integers and rules considered

  /** Both bounds are set, and no value lies at or between them. */
  predicate BoundsCross(lower: Lower, upper: Upper) {
    && lower != NoLower && upper != NoUpper
    && (upper.bound < lower.bound || (upper.bound == lower.bound && !(lower.Gte? && upper.Lte?)))
  }

  /** A lower bound counts unless it is signed and no safe integer is below it. */
  predicate MeetsLower(t: IntType, lower: Lower, n: int) {
    match lower
    case NoLower => true
    case Gt(b) => b < n || (t.Signed() && b < -0x1F_FFFF_FFFF_FFFF)
    case Gte(b) => b <= n || (t.Signed() && b <= -0x1F_FFFF_FFFF_FFFF)
  }

  /** An upper bound counts unless no safe integer is above it. */
  predicate MeetsUpper(upper: Upper, n: int) {
    match upper
    case NoUpper => true
    case Lt(b) => n < b || b > 0x1F_FFFF_FFFF_FFFF
    case Lte(b) => n <= b || b >= 0x1F_FFFF_FFFF_FFFF
  }

  /** The type keeps 32-bit integers in their range and unsigned ones at or above
      zero. */
  predicate MeetsType(t: IntType, n: int) {
    match t
    case Int32 => -2147483648 <= n <= 2147483647
    case Uint32 => 0 <= n <= 4294967295
    case Int64 => true
    case Uint64 => 0 <= n
  }

  /** The integers that rules admit. Bounds that cross admit what is below the upper
      one, if const or in list it, and all that is above the lower one; an unsigned
      64-bit gt above the safe integers is then forgotten. */
  predicate RulesAdmit(t: IntType, r: IntRules, n: int) {
    var cross := BoundsCross(r.lower, r.upper);
    || (&& (if r.constant.Some? then n == r.constant.value else r.allowed != [] ==> n in r.allowed)
        && MeetsType(t, n) && MeetsUpper(r.upper, n) && (cross || MeetsLower(t, r.lower, n)))
    || (cross && t.Uint64? && r.lower.Gt? && r.lower.bound > 0x1F_FFFF_FFFF_FFFF)
    || (cross && MeetsType(t, n) && MeetsLower(t, r.lower, n))
  }

  /** Without rules, lenient mode keeps 64-bit integers safe. */
  predicate PlainAdmits(strict: bool, t: IntType, n: int) {
    MeetsType(t, n) && (!strict && t.Wide() ==> -0x1F_FFFF_FFFF_FFFF <= n <= 0x1F_FFFF_FFFF_FFFF)
  }

  predicate DigitString(s: string, signed: bool) {
    AllDigits(s) || (signed && s != "" && s[0] == '-' && AllDigits(s[1..]))
  }

  /** Everything an integer field admits: numbers unless only strings are wanted,
      and digit strings unless the mode is strict and strings are not wanted. */
  predicate IntAllowed(strict: bool, string64: bool, t: IntType, rules: Option<IntRules>, j: Json) {
    var onlyText := string64 && (t.Int64? || t.Uint64?);
    match j
    case Int(n) => !onlyText && if rules.Some? then RulesAdmit(t, rules.value, n) else PlainAdmits(strict, t, n)
    case Str(s) => (onlyText || !strict) && DigitString(s, t.Int32? || t.Int64?)
    case _ => false
  }

  lemma MainAdmits(t: IntType, r: IntRules, n: int)
    requires r.Fits(t)
    ensures InBounds(MainBounds(t, r.lower, r.upper), n) <==>
            MeetsType(t, n) && MeetsUpper(r.upper, n) && (BoundsCross(r.lower, r.upper) || MeetsLower(t, r.lower, n))
  {
  }

  lemma AboveAdmits(t: IntType, lower: Lower, n: int)
    requires lower != NoLower && t.Holds(lower.bound)
    ensures InBounds(AboveBounds(t, lower), n) <==>
            || (t.Uint64? && lower.Gt? && lower.bound > 0x1F_FFFF_FFFF_FFFF)
            || (MeetsType(t, n) && MeetsLower(t, lower, n))
  {
  }

  /** The schema of an integer field accepts exactly what the field admits. */
  lemma IntExact(strict: bool, string64: bool, t: IntType, rules: Option<IntRules>, j: Json)
    requires rules.Some? ==> rules.value.Fits(t)
    ensures Accepts(IntSchema(strict, string64, t, rules), j) <==> IntAllowed(strict, string64, t, rules, j)
  {
    if string64 && t.Wide() {
      TextMeaning(t, j);
    } else if rules.Some? {
      RuledMeaning(strict, t, rules.value, j);
      if j.Int? {
        RulesExact(t, rules.value, j.n);
      }
    } else {
      PlainMeaning(strict, string64, t, j);
    }
  }

  lemma RulesExact(t: IntType, r: IntRules, n: int)
    requires r.Fits(t)
    ensures NumberAccepts(t, r, n) <==> RulesAdmit(t, r, n)
  {
    MainAdmits(t, r, n);
    EnumerationMeaning(r, Int(n));
    if BoundsCross(r.lower, r.upper) {
      AboveAdmits(t, r.lower, n);
    }
  }

  /** The integers for which the generator answers: every integer for a 32-bit
      type, the safe ones for a 64-bit type. */
  predicate InDomain(t: IntType, n: int) {
    t.Wide() ==> SafeInteger(n)
  }

  /** What the branches admit when neither const nor in is set. */
  predicate BranchRange(r: IntRules, n: int) {
    if Reversed(r.lower, r.upper) then r.lower.Admits(n) || r.upper.Admits(n)
    else r.lower.Admits(n) && r.upper.Admits(n)
  }

  /** The one reversed range whose upper branch loses its bound: an unsigned
      64-bit gt above every safe integer. */
  predicate LosesLowerBound(t: IntType, r: IntRules) {
    t.Uint64? && Reversed(r.lower, r.upper) && r.lower.Gt? && r.lower.bound > MAX_SAFE_INTEGER
  }

  lemma LowerMeaning(b: Bounds, t: IntType, lower: Lower, n: int)
    requires b.minimum == None && b.exclusiveMinimum == None && InDomain(t, n)
    requires lower != NoLower ==> t.Holds(lower.bound)
    ensures InBounds(WithLower(b, t, lower), n) <==> InBounds(b, n) && lower.Admits(n)
  {
  }

  lemma UpperMeaning(b: Bounds, t: IntType, upper: Upper, n: int)
    requires b.maximum == None && b.exclusiveMaximum == None && InDomain(t, n)
    requires upper != NoUpper ==> t.Holds(upper.bound)
    ensures InBounds(WithUpper(b, upper), n) <==> InBounds(b, n) && upper.Admits(n)
  {
  }

  /** The main branch, bound by bound. */
  lemma MainMeaning(t: IntType, r: IntRules, n: int)
    requires r.Fits(t) && InDomain(t, n)
    ensures InBounds(MainBounds(t, r.lower, r.upper), n) <==>
            t.Holds(n) && r.upper.Admits(n) && (Reversed(r.lower, r.upper) || r.lower.Admits(n))
  {
    if Reversed(r.lower, r.upper) {
      UpperMeaning(NO_BOUNDS, t, r.upper, n);
    } else {
      var low := if r.lower == NoLower then TypeMinimum(NO_BOUNDS, t) else WithLower(NO_BOUNDS, t, r.lower);
      LowerMeaning(NO_BOUNDS, t, r.lower, n);
      UpperMeaning(low, t, r.upper, n);
    }
  }

  lemma AboveMeaning(t: IntType, lower: Lower, n: int)
    requires lower != NoLower && t.Holds(lower.bound) && InDomain(t, n)
    requires !(t.Uint64? && lower.Gt? && lower.bound > MAX_SAFE_INTEGER)
    ensures InBounds(AboveBounds(t, lower), n) <==> t.Holds(n) && lower.Admits(n)
  {
    LowerMeaning(NO_BOUNDS, t, lower, n);
  }

  lemma BranchesAreTheRange(t: IntType, r: IntRules, n: int)
    requires r.Fits(t) && r.constant == None && r.allowed == []
    requires InDomain(t, n) && !LosesLowerBound(t, r)
    ensures NumberAccepts(t, r, n) <==> t.Holds(n) && BranchRange(r, n)
  {
    MainMeaning(t, r, n);
    if Reversed(r.lower, r.upper) {
      AboveMeaning(t, r.lower, n);
    }
  }

  /** The condition under which the integer branches say exactly what the range
      rule says. */
  predicate RangeIsExact(t: IntType, r: IntRules) {
    !Degenerate(r.lower, r.upper) && !LosesLowerBound(t, r)
  }

  /** The schema and the rule agree on `n`. */
  ghost predicate AgreeAt(strict: bool, t: IntType, r: IntRules, n: int) {
    Accepts(RuledSchema(strict, t, r), Int(n)) <==> t.Holds(n) && InRange(r.lower, r.upper, n)
  }

  /** Integer ranges are exact, reversed ones included, if and only if the bounds
      are not an empty equal pair and no unsigned bound was dropped. */
  lemma RangeExactness(strict: bool, t: IntType, r: IntRules)
    requires r.Fits(t) && r.constant == None && r.allowed == []
    ensures RangeIsExact(t, r) <==> forall n | InDomain(t, n) :: AgreeAt(strict, t, r, n)
  {
    if RangeIsExact(t, r) {
      forall n | InDomain(t, n)
        ensures AgreeAt(strict, t, r, n)
      {
        RuledMeaning(strict, t, r, Int(n));
        BranchesAreTheRange(t, r, n);
      }
    } else {
      var n := Disagreement(strict, t, r);
    }
  }

  /** A value on which an inexact range and its schema differ. */
  lemma Disagreement(strict: bool, t: IntType, r: IntRules) returns (n: int)
    requires r.Fits(t) && r.constant == None && r.allowed == []
    requires !RangeIsExact(t, r)
    ensures InDomain(t, n) && !AgreeAt(strict, t, r, n)
  {
    if LosesLowerBound(t, r) {
      n := -1;
      assert InBounds(AboveBounds(t, r.lower), n);
    } else {
      n := if r.lower.bound == 0 then 1 else 0;
      BranchesAreTheRange(t, r, n);
    }
    RuledMeaning(strict, t, r, Int(n));
  }

  /** Whatever the rules, an integer that satisfies them is accepted. */
  lemma SatisfyingAccepted(strict: bool, t: IntType, r: IntRules, n: int)
    requires r.Fits(t) && t.Holds(n) && InDomain(t, n) && Satisfies(r, n)
    ensures Accepts(RuledSchema(strict, t, r), Int(n))
  {
    RuledMeaning(strict, t, r, Int(n));
    ConstOrInHolds(r, n);
    MainMeaning(t, r, n);
    if Reversed(r.lower, r.upper) && !LosesLowerBound(t, r) {
      AboveMeaning(t, r.lower, n);
    }
  }

  lemma ConstOrInHolds(r: IntRules, n: int)
    requires Satisfies(r, n)
    ensures ConstOrIn(r).Some? ==> Int(n) in ConstOrIn(r).value
  {
    if r.constant == None && r.allowed != [] {
      var i :| 0 <= i < |r.allowed| && r.allowed[i] == n;
      assert ConstOrIn(r).value[i] == Int(n);
    }
  }

  // ----- Emitted bounds

  /** No lower bound is below the safe range and no upper bound above it. */
  predicate NotTooWide(b: Bounds) {
    && (b.minimum.Some? ==> -MAX_SAFE_INTEGER <= b.minimum.value)
    && (b.exclusiveMinimum.Some? ==> -MAX_SAFE_INTEGER <= b.exclusiveMinimum.value)
    && (b.maximum.Some? ==> b.maximum.value <= MAX_SAFE_INTEGER)
    && (b.exclusiveMaximum.Some? ==> b.exclusiveMaximum.value <= MAX_SAFE_INTEGER)
  }

  predicate LowerBoundSafe(b: Bounds) {
    && (b.minimum.Some? ==> b.minimum.value <= MAX_SAFE_INTEGER)
    && (b.exclusiveMinimum.Some? ==> b.exclusiveMinimum.value <= MAX_SAFE_INTEGER)
  }

  /** For every rule, no emitted lower bound is below the safe range and no
      upper bound above it. A lower bound above the safe range is emitted
      exactly when the rule has one and it is not the dropped unsigned gt. */
  lemma EmittedBounds(t: IntType, r: IntRules)
    requires r.Fits(t)
    ensures forall s | s in NumberBranches(t, r) :: NotTooWide(s.bounds)
    ensures (forall s | s in NumberBranches(t, r) :: LowerBoundSafe(s.bounds)) <==>
            (r.lower == NoLower || r.lower.bound <= MAX_SAFE_INTEGER || LosesLowerBound(t, r))
  {
    var b := NumberBranches(t, r);
    MainBoundsSafe(t, r);
    AboveBoundsSafe(t, r.lower);
    assert b[0].bounds == MainBounds(t, r.lower, r.upper) && b[0] in b;
    if Reversed(r.lower, r.upper) {
      assert b[1].bounds == AboveBounds(t, r.lower) && b[1] in b;
    }
  }

  lemma MainBoundsSafe(t: IntType, r: IntRules)
    requires r.Fits(t)
    ensures NotTooWide(MainBounds(t, r.lower, r.upper))
    ensures LowerBoundSafe(MainBounds(t, r.lower, r.upper)) <==>
            (Reversed(r.lower, r.upper) || r.lower == NoLower || r.lower.bound <= MAX_SAFE_INTEGER)
  {
  }

  lemma AboveBoundsSafe(t: IntType, lower: Lower)
    requires lower != NoLower ==> t.Holds(lower.bound)
    ensures NotTooWide(AboveBounds(t, lower))
    ensures LowerBoundSafe(AboveBounds(t, lower)) <==>
            (lower == NoLower || lower.bound <= MAX_SAFE_INTEGER || (t.Uint64? && lower.Gt?))
  {
  }

  // ----- The generator, filling one schema in place

  /** The value is not ruled out by const or in; const counts alone. */
  predicate Listed(r: IntRules, n: int) {
    if r.constant.Some? then n == r.constant.value else r.allowed != [] ==> n in r.allowed
  }

  lemma EnumerationMeaning(r: IntRules, j: Json)
    ensures ConstOrIn(r).Some? ==> (j in ConstOrIn(r).value <==> j.Int? && Listed(r, j.n))
  {
    if r.constant == None && j.Int? && j.n in r.allowed {
      var i :| 0 <= i < |r.allowed| && r.allowed[i] == j.n;
      assert Integers(r.allowed)[i] == j;
    }
  }

  /** buf/jsonschema.go:706-712. There is an enumeration if there is a const or
      in, and it holds the integers they list and nothing else. */
  method GenerateConstIn(r: IntRules) returns (enumeration: Option<seq<Json>>)
    ensures enumeration.Some? <==> r.constant.Some? || r.allowed != []
    ensures forall j :: enumeration.Some? ==> (j in enumeration.value <==> j.Int? && Listed(r, j.n))
    ensures enumeration == ConstOrIn(r)
  {
    enumeration := None;
    if r.constant.Some? {
      enumeration := Some([Int(r.constant.value)]);
    } else if |r.allowed| > 0 {
      enumeration := Some(Integers(r.allowed));
    }
    forall j
      ensures enumeration.Some? ==> (j in enumeration.value <==> j.Int? && Listed(r, j.n))
    {
      EnumerationMeaning(r, j);
    }
  }

  /** The end of both number generators, buf/jsonschema.go:788-814 and 929-954:
      the branches that were filled in, and the string branch unless strict. */
  method Assemble(strict: bool, ghost r: IntRules, t: IntType,
                  enumeration: Option<seq<Json>>, number: Bounds, orNumber: Option<Bounds>)
    returns (schema: Schema)
    requires enumeration == ConstOrIn(r) && number == MainBounds(t, r.lower, r.upper)
    requires orNumber == if Reversed(r.lower, r.upper) then Some(AboveBounds(t, r.lower)) else None
    ensures schema == RuledSchema(strict, t, r)
  {
    var anyOf := [Number(enumeration, number)];
    if orNumber.Some? {
      anyOf := anyOf + [Number(None, orNumber.value)];
    }
    assert anyOf == NumberBranches(t, r);
    if !strict {
      anyOf := anyOf + [TextSchema(t)];
    }
    assert anyOf == NumberBranches(t, r) + if strict then [] else [TextSchema(t)];
    schema := if |anyOf| > 1 then EMPTY.(anyOf := AnyOf(anyOf)) else Number(enumeration, number);
  }

  /** The inner switches, buf/jsonschema.go:737-743 and 753-759 (886-891 and
      901-907 for unsigned rules). */
  method DetectReversed(lower: Lower, upper: Upper) returns (isOr: bool)
    ensures isOr <==> Reversed(lower, upper)
  {
    isOr := false;
    match lower {
      case Gt(gt) =>
        match upper {
          case Lt(lt) => isOr := lt <= gt;
          case Lte(lte) => isOr := lte <= gt;
          case NoUpper =>
        }
      case Gte(gte) =>
        match upper {
          case Lt(lt) => isOr := lt <= gte;
          case Lte(lte) => isOr := lte < gte;
          case NoUpper =>
        }
      case NoLower =>
    }
  }

  /** buf/jsonschema.go:714-815 */
  method GenerateInt(strict: bool, r: IntRules, t: IntType) returns (schema: Schema)
    requires t.Signed()
    ensures schema == RuledSchema(strict, t, r)
  {
    var bits := if t.Wide() then 64 else 32;
    var minVal := t.Min();
    var maxExclVal := t.Max() + 1;
    if bits > 52 {
      minVal := -MAX_SAFE_INTEGER;
      maxExclVal := MAX_SAFE_INTEGER + 1;
    }
    var number, orNumber := NO_BOUNDS, NO_BOUNDS;
    var isOr := DetectReversed(r.lower, r.upper);
    var enumeration := GenerateConstIn(r);
    match r.lower {
      case Gt(gt) =>
        if isOr {
          if gt >= -MAX_SAFE_INTEGER {
            orNumber := orNumber.(exclusiveMinimum := Some(gt));
          }
        } else if gt >= -MAX_SAFE_INTEGER {
          number := number.(exclusiveMinimum := Some(gt));
        }
      case Gte(gte) =>
        if isOr {
          if gte > -MAX_SAFE_INTEGER {
            orNumber := orNumber.(minimum := Some(gte));
          }
        } else if gte > -MAX_SAFE_INTEGER {
          number := number.(minimum := Some(gte));
        }
      case NoLower =>
        if bits <= 53 {
          number := number.(minimum := Some(minVal));
        }
    }
    assert number == if isOr then NO_BOUNDS
                     else if r.lower == NoLower then TypeMinimum(NO_BOUNDS, t) else WithLower(NO_BOUNDS, t, r.lower);
    assert isOr ==> orNumber == WithLower(NO_BOUNDS, t, r.lower);
    match r.upper {
      case Lt(lt) =>
        if lt <= MAX_SAFE_INTEGER {
          number := number.(exclusiveMaximum := Some(lt));
        }
      case Lte(lte) =>
        if lte < MAX_SAFE_INTEGER {
          number := number.(maximum := Some(lte));
        }
      case NoUpper =>
        if bits < 53 {
          number := number.(exclusiveMaximum := Some(maxExclVal));
        }
    }
    if isOr {
      if bits < 53 {
        number := number.(minimum := Some(minVal));
        orNumber := orNumber.(exclusiveMaximum := Some(maxExclVal));
      }
    }
    schema := Assemble(strict, r, t, enumeration, number, if isOr then Some(orNumber) else None);
  }

  /** buf/jsonschema.go:869-955 */
  method GenerateUint(strict: bool, r: IntRules, t: IntType) returns (schema: Schema)
    requires !t.Signed()
    ensures schema == RuledSchema(strict, t, r)
  {
    var bits := if t.Wide() then 64 else 32;
    var maxExclVal := t.Max() + 1;
    var number, orNumber := NO_BOUNDS, NO_BOUNDS;
    var isOr := DetectReversed(r.lower, r.upper);
    var enumeration := GenerateConstIn(r);
    match r.lower {
      case Gt(gt) =>
        if isOr {
          if gt <= MAX_SAFE_INTEGER {
            orNumber := orNumber.(exclusiveMinimum := Some(gt));
          }
        } else {
          number := number.(exclusiveMinimum := Some(gt));
        }
      case Gte(gte) =>
        if isOr {
          orNumber := orNumber.(minimum := Some(gte));
        } else {
          number := number.(minimum := Some(gte));
        }
      case NoLower =>
        number := number.(minimum := Some(0));
    }
    assert number == if isOr then NO_BOUNDS
                     else if r.lower == NoLower then TypeMinimum(NO_BOUNDS, t) else WithLower(NO_BOUNDS, t, r.lower);
    match r.upper {
      case Lt(lt) =>
        if lt <= MAX_SAFE_INTEGER {
          number := number.(exclusiveMaximum := Some(lt));
        }
      case Lte(lte) =>
        if lte < MAX_SAFE_INTEGER {
          number := number.(maximum := Some(lte));
        }
      case NoUpper =>
        if bits < 53 {
          number := number.(exclusiveMaximum := Some(maxExclVal));
        }
    }
    if isOr {
      number := number.(minimum := Some(0));
      if bits < 53 {
        orNumber := orNumber.(exclusiveMaximum := Some(maxExclVal));
      }
      assert orNumber == AboveBounds(t, r.lower);
    }
    assert number == MainBounds(t, r.lower, r.upper);
    schema := Assemble(strict, r, t, enumeration, number, if isOr then Some(orNumber) else None);
  }

  /** buf/jsonschema.go:817-867 and 956-1003: the choice between the string-only
      form, the rules and the plain schema. */
  method GenerateIntField(strict: bool, string64: bool, t: IntType, rules: Option<IntRules>)
    returns (schema: Schema)
    ensures schema == IntSchema(strict, string64, t, rules)
  {
    if string64 && t.Wide() {
      return TextSchema(t);
    }
    match rules {
      case Some(r) =>
        if t.Signed() {
          schema := GenerateInt(strict, r, t);
        } else {
          schema := GenerateUint(strict, r, t);
        }
      case None =>
        schema := Number(None, PlainBounds(strict, t));
        assert [schema] + [] == [schema];
        if !strict {
          assert [schema] + [TextSchema(t)] == [schema, TextSchema(t)];
          schema := EMPTY.(anyOf := AnyOf([schema, TextSchema(t)]));
        }
    }
  }
}
