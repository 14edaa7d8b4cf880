/** Enum fields: the value selector, the names and the integer ranges
    (buf/jsonschema.go:570-685). */
module EnumValidation {
  import opened Json
  import opened JsonSchema

  const MIN_INT32: int := -0x8000_0000
  const MAX_INT32: int := 0x7FFF_FFFF

  predicate IsInt32(n: int) {
    MIN_INT32 <= n <= MAX_INT32
  }

  /** Two's complement truncation to 32 bits. */
  function WrapInt32(n: int): int {
    (n + 0x8000_0000) % 0x1_0000_0000 - 0x8000_0000
  }

  lemma WrapIsIdentity(n: int)
    requires IsInt32(n)
    ensures WrapInt32(n) == n
  {
  }

  datatype EnumValue = EnumValue(name: string, number: int)

  datatype EnumRules = EnumRules(
    constant: Option<int>, definedOnly: bool, allowed: seq<int>, denied: seq<int>)

  const NO_ENUM_RULES: EnumRules := EnumRules(None, false, [], [])

  predicate Declares(values: seq<EnumValue>, n: int) {
    exists i | 0 <= i < |values| :: values[i].number == n
  }

  predicate Satisfies(r: EnumRules, values: seq<EnumValue>, n: int) {
    && (r.constant.Some? ==> n == r.constant.value)
    && (r.definedOnly ==> Declares(values, n))
    && (r.allowed != [] ==> n in r.allowed)
    && n !in r.denied
  }

  /** How the field around the enum treats zero. */
  datatype ZeroUse = Plain | Hidden | Forbidden

  function ZeroUseOf(strict: bool, tracksAbsence: bool, required: bool): ZeroUse {
    if tracksAbsence then Plain
    else if required then Forbidden
    else if strict then Plain
    else Hidden
  }

  // ----- The selector

  /** The declared value is left after the zero, const, in and not_in passes. */
  predicate Survives(zero: ZeroUse, r: EnumRules, n: int) {
    && !(zero == Forbidden && n == 0)
    && (r.constant.Some? ==> n == r.constant.value)
    && (r.allowed != [] ==> n in r.allowed)
    && n !in r.denied
  }

  function Survivors(values: seq<EnumValue>, zero: ZeroUse, r: EnumRules): seq<EnumValue> {
    if values == [] then []
    else
      var last := values[|values| - 1];
      Survivors(values[..|values| - 1], zero, r) + if Survives(zero, r, last.number) then [last] else []
  }

  function Numbers(values: seq<EnumValue>): seq<int> {
    if values == [] then [] else Numbers(values[..|values| - 1]) + [values[|values| - 1].number]
  }

  /** The names offered in the enum keyword. */
  function OfferedNames(values: seq<EnumValue>, zero: ZeroUse): seq<Json> {
    if values == [] then []
    else
      var last := values[|values| - 1];
      OfferedNames(values[..|values| - 1], zero) +
      if zero == Hidden && last.number == 0 then [] else [Str(last.name)]
  }

  function PatternFor(name: string): Schema {
    Scalar(Some(TString), None, NO_BOUNDS, NO_TEXT.(pattern := Some(Exactly([name]))))
  }

  /** The patterns for names that are accepted but not offered. */
  function HiddenNames(values: seq<EnumValue>, zero: ZeroUse): seq<Schema> {
    if values == [] then []
    else
      var last := values[|values| - 1];
      HiddenNames(values[..|values| - 1], zero) +
      if zero == Hidden && last.number == 0 then [PatternFor(last.name)] else []
  }

  // ----- Ranges of integers

  datatype Range = Range(low: int, high: int)

  predicate InRange(r: Range, n: int) {
    r.low <= n <= r.high
  }

  predicate Covered(ranges: seq<Range>, n: int) {
    exists i | 0 <= i < |ranges| :: InRange(ranges[i], n)
  }

  predicate Ascending(s: seq<int>) {
    forall i, j | 0 <= i < j < |s| :: s[i] <= s[j]
  }

  predicate StrictlyAscending(s: seq<int>) {
    forall i, j | 0 <= i < j < |s| :: s[i] < s[j]
  }

  function Insert(s: seq<int>, n: int): seq<int> {
    if s == [] then [n]
    else if n < s[|s| - 1] then Insert(s[..|s| - 1], n) + [s[|s| - 1]]
    else s + [n]
  }

  /** The library sort. */
  function Sort(s: seq<int>): seq<int> {
    if s == [] then [] else Insert(Sort(s[..|s| - 1]), s[|s| - 1])
  }

  /** The library's removal of adjacent equal elements. */
  function Compact(s: seq<int>): seq<int> {
    if |s| <= 1 then s
    else
      var c := Compact(s[..|s| - 1]);
      if s[|s| - 1] == s[|s| - 2] then c else c + [s[|s| - 1]]
  }

  lemma {:induction false} InsertSorts(s: seq<int>, n: int)
    requires Ascending(s)
    ensures Ascending(Insert(s, n))
    ensures forall x :: x in Insert(s, n) <==> x in s || x == n
  {
    if s != [] && n < s[|s| - 1] {
      var init, last := s[..|s| - 1], s[|s| - 1];
      InsertSorts(init, n);
      assert s == init + [last];
      assert forall i | 0 <= i < |Insert(init, n)| :: Insert(init, n)[i] in Insert(init, n);
    }
  }

  lemma {:induction false} SortSorts(s: seq<int>)
    ensures Ascending(Sort(s))
    ensures forall x :: x in Sort(s) <==> x in s
  {
    if s != [] {
      SortSorts(s[..|s| - 1]);
      InsertSorts(Sort(s[..|s| - 1]), s[|s| - 1]);
      assert s == s[..|s| - 1] + [s[|s| - 1]];
    }
  }

  lemma {:induction false} CompactLast(s: seq<int>)
    requires s != []
    ensures Compact(s) != [] && Compact(s)[|Compact(s)| - 1] == s[|s| - 1]
  {
    if |s| > 1 {
      CompactLast(s[..|s| - 1]);
    }
  }

  lemma {:induction false} CompactAscends(s: seq<int>)
    requires Ascending(s)
    ensures StrictlyAscending(Compact(s))
  {
    if |s| > 1 {
      CompactAscends(s[..|s| - 1]);
      CompactLast(s[..|s| - 1]);
      assert s[|s| - 2] <= s[|s| - 1];
    }
  }

  lemma {:induction false} CompactKeeps(s: seq<int>, n: int)
    ensures n in Compact(s) <==> n in s
  {
    if |s| > 1 {
      var init, last := s[..|s| - 1], s[|s| - 1];
      CompactKeeps(init, n);
      assert s == init + [last];
      if s[|s| - 2] == last {
        assert init[|init| - 1] == last;
      }
    }
  }

  lemma SortedDistinct(s: seq<int>)
    ensures StrictlyAscending(Compact(Sort(s)))
    ensures forall n :: n in Compact(Sort(s)) <==> n in s
    ensures s != [] ==> Compact(Sort(s)) != []
  {
    assert s != [] ==> s[0] in s;
    SortSorts(s);
    CompactAscends(Sort(s));
    forall n
      ensures n in Compact(Sort(s)) <==> n in s
    {
      CompactKeeps(Sort(s), n);
    }
  }

  /** Maximal runs of consecutive integers. */
  function Coalesce(s: seq<int>): seq<Range> {
    if s == [] then []
    else
      Append(Coalesce(s[..|s| - 1]), s[|s| - 1])
  }

  function Append(r: seq<Range>, n: int): seq<Range> {
    if r != [] && n == r[|r| - 1].high + 1
    then r[..|r| - 1] + [Range(r[|r| - 1].low, n)]
    else r + [Range(n, n)]
  }

  /** Closed ranges in order, with a gap between neighbours. */
  predicate Separated(r: seq<Range>) {
    && (forall i | 0 <= i < |r| :: r[i].low <= r[i].high)
    && (forall i, j | 0 <= i < j < |r| :: r[i].high + 1 < r[j].low)
  }

  /** Adding a number above all ranges: the run grows or a new one starts. */
  lemma AppendNumber(r: seq<Range>, n: int)
    requires Separated(r) && (r != [] ==> r[|r| - 1].high < n)
    ensures Separated(Append(r, n)) && Append(r, n)[|Append(r, n)| - 1].high == n
    ensures forall x :: Covered(Append(r, n), x) <==> Covered(r, x) || x == n
  {
    var c := Append(r, n);
    assert InRange(c[|c| - 1], n);
    forall x
      ensures Covered(c, x) <==> Covered(r, x) || x == n
    {
      if i :| 0 <= i < |r| && InRange(r[i], x) {
        assert InRange(c[i], x);
      }
      if i :| 0 <= i < |c| && InRange(c[i], x) {
        assert i < |r| && x != n ==> InRange(r[i], x);
      }
    }
  }

  /** The ranges cover exactly the given integers, in order, and no two of them
      touch. */
  lemma {:induction false} CoalesceCovers(s: seq<int>)
    requires StrictlyAscending(s)
    ensures Separated(Coalesce(s))
    ensures forall n :: Covered(Coalesce(s), n) <==> n in s
    ensures s != [] ==> Coalesce(s) != [] && Coalesce(s)[|Coalesce(s)| - 1].high == s[|s| - 1]
  {
    if s != [] {
      var init, n := s[..|s| - 1], s[|s| - 1];
      CoalesceCovers(init);
      assert s == init + [n];
      AppendNumber(Coalesce(init), n);
    }
  }

  /** Distinct indices below `m`: there are at most `m` of them. */
  lemma {:induction false} Pigeonhole(f: seq<nat>, m: nat)
    requires forall i | 0 <= i < |f| :: f[i] < m
    requires forall i, j | 0 <= i < j < |f| :: f[i] != f[j]
    ensures |f| <= m
    decreases |f|
  {
    if f != [] {
      var last := f[|f| - 1];
      var g := seq(|f| - 1, i requires 0 <= i < |f| - 1 => if f[i] == m - 1 then last else f[i]);
      Pigeonhole(g, m - 1);
    }
  }

  lemma GapUncovered(r: seq<Range>, i: nat)
    requires Separated(r) && i < |r|
    ensures !Covered(r, r[i].high + 1)
  {
    forall h | 0 <= h < |r|
      ensures !InRange(r[h], r[i].high + 1)
    {
      assert h < i ==> r[h].high + 1 < r[i].low;
    }
  }

  /** Starts of different separated ranges never share a range of another cover:
      the number after the first range lies between them and is not covered. */
  lemma StartsApart(r: seq<Range>, other: seq<Range>, i: nat, j: nat, k: nat)
    requires Separated(r) && i < j < |r| && k < |other|
    requires forall n :: Covered(other, n) ==> Covered(r, n)
    requires InRange(other[k], r[i].low)
    ensures !InRange(other[k], r[j].low)
  {
    GapUncovered(r, i);
    assert !Covered(other, r[i].high + 1);
    assert !InRange(other[k], r[i].high + 1);
    assert r[i].high + 1 < r[j].low;
  }

  /** No cover of the same integers uses fewer ranges. */
  lemma SeparatedIsMinimal(r: seq<Range>, other: seq<Range>)
    requires Separated(r)
    requires forall n :: Covered(r, n) <==> Covered(other, n)
    ensures |r| <= |other|
  {
    var f: seq<nat> := [];
    while |f| < |r|
      invariant |f| <= |r|
      invariant forall i | 0 <= i < |f| :: f[i] < |other| && InRange(other[f[i]], r[i].low)
      invariant forall i, j | 0 <= i < j < |f| :: f[i] != f[j]
    {
      var low := r[|f|].low;
      assert InRange(r[|f|], low) && Covered(r, low) && Covered(other, low);
      var k :| 0 <= k < |other| && InRange(other[k], low);
      forall i | 0 <= i < |f|
        ensures f[i] != k
      {
        StartsApart(r, other, i, |f|, f[i]);
      }
      f := f + [k];
    }
    Pigeonhole(f, |other|);
  }

  function RangeSchema(r: Range): Schema {
    Scalar(Some(TInteger), None, Bounds(Some(r.low), None, Some(r.high), None), NO_TEXT)
  }

  function RangeSchemas(rs: seq<Range>): seq<Schema> {
    seq(|rs|, i requires 0 <= i < |rs| => RangeSchema(rs[i]))
  }

  function IntegerRanges(numbers: seq<int>): seq<Range> {
    Coalesce(Compact(Sort(numbers)))
  }

  /** The emitted ranges of any list of 32-bit numbers are exact, ordered, apart
      from one another and as few as possible. */
  lemma IntegerRangesExact(numbers: seq<int>)
    ensures Separated(IntegerRanges(numbers))
    ensures forall n :: Covered(IntegerRanges(numbers), n) <==> n in numbers
    ensures forall other: seq<Range> | (forall n :: Covered(other, n) <==> n in numbers) ::
              |IntegerRanges(numbers)| <= |other|
  {
    SortedDistinct(numbers);
    CoalesceCovers(Compact(Sort(numbers)));
    var r := IntegerRanges(numbers);
    forall other: seq<Range> | (forall n :: Covered(other, n) <==> n in numbers)
      ensures |r| <= |other|
    {
      SeparatedIsMinimal(r, other);
    }
  }

  /** One more number: it extends the open run or closes it. */
  lemma RunStep(s: seq<int>, k: nat, closed: seq<Range>, start: int)
    requires 0 < k < |s| && Coalesce(s[..k]) == closed + [Range(start, s[k - 1])]
    ensures Coalesce(s[..k + 1]) ==
            if s[k] == s[k - 1] + 1 then closed + [Range(start, s[k])]
            else closed + [Range(start, s[k - 1])] + [Range(s[k], s[k])]
  {
    assert s[..k + 1][..k] == s[..k];
    var r := closed + [Range(start, s[k - 1])];
    assert r[..|r| - 1] == closed;
  }

  lemma RunStart(s: seq<int>)
    requires s != []
    ensures Coalesce(s[..1]) == [Range(s[0], s[0])]
  {
    assert s[..1][..0] == [];
  }

  lemma EmitAppend(branches: seq<Schema>, rs: seq<Range>, r: Range)
    ensures branches + RangeSchemas(rs + [r]) == branches + RangeSchemas(rs) + [RangeSchema(r)]
  {
    assert RangeSchemas(rs + [r]) == RangeSchemas(rs) + [RangeSchema(r)];
  }

  /** The loop of buf/jsonschema.go:674-683, over sorted distinct numbers. The
      test against last+1 is made on 32-bit numbers; the sum never wraps when
      another number follows. */
  method EmitRanges(sorted: seq<int>, branches: seq<Schema>) returns (anyOf: seq<Schema>)
    requires sorted != [] && StrictlyAscending(sorted)
    requires forall i | 0 <= i < |sorted| :: IsInt32(sorted[i])
    ensures anyOf == branches + RangeSchemas(Coalesce(sorted))
  {
    anyOf := branches;
    var start := sorted[0];
    var last := start;
    ghost var closed: seq<Range> := [];
    RunStart(sorted);
    for k := 1 to |sorted|
      invariant last == sorted[k - 1]
      invariant Coalesce(sorted[..k]) == closed + [Range(start, last)]
      invariant anyOf == branches + RangeSchemas(closed)
    {
      var n := sorted[k];
      WrapIsIdentity(last + 1);
      RunStep(sorted, k, closed, start);
      EmitAppend(branches, closed, Range(start, last));
      if n != WrapInt32(last + 1) {
        anyOf := anyOf + [RangeSchema(Range(start, last))];
        closed := closed + [Range(start, last)];
        start := n;
      }
      last := n;
    }
    assert sorted[..|sorted|] == sorted;
    EmitAppend(branches, closed, Range(start, last));
    anyOf := anyOf + [RangeSchema(Range(start, last))];
  }

  /** buf/jsonschema.go:667-685 */
  method GenerateEnumInt32(numbers: seq<int>, branches: seq<Schema>) returns (anyOf: seq<Schema>)
    requires forall n | n in numbers :: IsInt32(n)
    ensures anyOf == branches + RangeSchemas(IntegerRanges(numbers))
  {
    if |numbers| == 0 {
      return branches;
    }
    SortedDistinct(numbers);
    var sorted := Compact(Sort(numbers));
    assert forall i | 0 <= i < |sorted| :: sorted[i] in sorted;
    anyOf := EmitRanges(sorted, branches);
  }

  // ----- The whole field

  /** The integer branches outside strict mode. */
  function IntegerBranches(values: seq<EnumValue>, zero: ZeroUse, r: EnumRules): seq<Schema> {
    if r.definedOnly || r.constant.Some? || r.allowed != [] then
      RangeSchemas(IntegerRanges(Numbers(Survivors(values, zero, r))))
    else if zero != Forbidden then
      [Scalar(Some(TInteger), None, Bounds(Some(MIN_INT32), None, Some(MAX_INT32), None), NO_TEXT)]
    else
      [Scalar(Some(TInteger), None, Bounds(Some(MIN_INT32), None, None, Some(0)), NO_TEXT),
       Scalar(Some(TInteger), None, Bounds(None, Some(0), Some(MAX_INT32), None), NO_TEXT)]
  }

  function NameBranches(survivors: seq<EnumValue>, zero: ZeroUse): seq<Schema> {
    HiddenNames(survivors, zero) +
    var names := OfferedNames(survivors, zero);
    if names == [] then [] else [Scalar(Some(TString), Some(names), NO_BOUNDS, NO_TEXT)]
  }

  function EnumBranches(strict: bool, values: seq<EnumValue>, zero: ZeroUse, r: EnumRules): seq<Schema> {
    NameBranches(Survivors(values, zero, r), zero) + if strict then [] else IntegerBranches(values, zero, r)
  }

  function EnumSchema(strict: bool, values: seq<EnumValue>, zero: ZeroUse, r: EnumRules): Schema {
    Alternatives(EnumBranches(strict, values, zero, r))
  }

  /** One selected value, as the generator keeps it. */
  datatype Selector = Selector(remove: bool, number: int, name: string)

  predicate Tracks(selectors: seq<Selector>, values: seq<EnumValue>) {
    && |selectors| == |values|
    && forall k | 0 <= k < |values| ::
         selectors[k].number == values[k].number && selectors[k].name == values[k].name
  }

  predicate Const(r: EnumRules, n: int) { r.constant.Some? ==> n == r.constant.value }

  predicate In(r: EnumRules, n: int) { r.allowed != [] ==> n in r.allowed }

  /** The four passes that set the remove flags, buf/jsonschema.go:584-618. */
  method Select(values: seq<EnumValue>, zero: ZeroUse, r: EnumRules) returns (enumValues: array<Selector>)
    ensures fresh(enumValues) && Tracks(enumValues[..], values)
    ensures forall k | 0 <= k < |values| :: enumValues[k].remove <==> !Survives(zero, r, values[k].number)
  {
    enumValues := new Selector[|values|](i requires 0 <= i < |values| =>
      Selector(zero == Forbidden && values[i].number == 0, values[i].number, values[i].name));
    if r.constant.Some? {
      for i := 0 to enumValues.Length
        invariant Tracks(enumValues[..], values)
        invariant forall k | 0 <= k < |values| :: enumValues[k].remove <==>
            (zero == Forbidden && values[k].number == 0) || (k < i && !Const(r, values[k].number))
      {
        if enumValues[i].number != r.constant.value {
          enumValues[i] := enumValues[i].(remove := true);
        }
      }
    }
    if |r.allowed| > 0 {
      for i := 0 to enumValues.Length
        invariant Tracks(enumValues[..], values)
        invariant forall k | 0 <= k < |values| :: enumValues[k].remove <==>
            (zero == Forbidden && values[k].number == 0) || !Const(r, values[k].number) ||
            (k < i && !In(r, values[k].number))
      {
        if !enumValues[i].remove && enumValues[i].number !in r.allowed {
          enumValues[i] := enumValues[i].(remove := true);
        }
      }
    }
    if |r.denied| > 0 {
      for i := 0 to enumValues.Length
        invariant Tracks(enumValues[..], values)
        invariant forall k | 0 <= k < |values| :: enumValues[k].remove <==>
            (zero == Forbidden && values[k].number == 0) || !Const(r, values[k].number) ||
            !In(r, values[k].number) || (k < i && values[k].number in r.denied)
      {
        if !enumValues[i].remove && enumValues[i].number in r.denied {
          enumValues[i] := enumValues[i].(remove := true);
        }
      }
    }
  }

  lemma SurvivorsStep(values: seq<EnumValue>, zero: ZeroUse, r: EnumRules, i: nat)
    requires i < |values|
    ensures var before := Survivors(values[..i], zero, r);
            Survivors(values[..i + 1], zero, r) ==
            if Survives(zero, r, values[i].number) then before + [values[i]] else before
  {
    assert values[..i + 1][..i] == values[..i];
  }

  /** What one more survivor adds to the three lists. */
  lemma ListedStep(before: seq<EnumValue>, v: EnumValue, zero: ZeroUse)
    ensures var hides := zero == Hidden && v.number == 0;
            && Numbers(before + [v]) == Numbers(before) + [v.number]
            && OfferedNames(before + [v], zero) ==
               (if hides then OfferedNames(before, zero) else OfferedNames(before, zero) + [Str(v.name)])
            && HiddenNames(before + [v], zero) ==
               (if hides then HiddenNames(before, zero) + [PatternFor(v.name)] else HiddenNames(before, zero))
  {
    assert (before + [v])[..|before|] == before;
  }

  /** The loop of buf/jsonschema.go:625-636: the selected values are listed as
      numbers, as hidden name patterns and as offered names. */
  method Collect(values: seq<EnumValue>, zero: ZeroUse, ghost r: EnumRules, enumValues: array<Selector>)
    returns (hiddenNames: seq<Schema>, int32Values: seq<int>, stringValues: seq<Json>)
    requires Tracks(enumValues[..], values)
    requires forall k | 0 <= k < |values| :: enumValues[k].remove <==> !Survives(zero, r, values[k].number)
    ensures int32Values == Numbers(Survivors(values, zero, r))
    ensures stringValues == OfferedNames(Survivors(values, zero, r), zero)
    ensures hiddenNames == HiddenNames(Survivors(values, zero, r), zero)
  {
    hiddenNames, int32Values, stringValues := [], [], [];
    for i := 0 to enumValues.Length
      invariant int32Values == Numbers(Survivors(values[..i], zero, r))
      invariant stringValues == OfferedNames(Survivors(values[..i], zero, r), zero)
      invariant hiddenNames == HiddenNames(Survivors(values[..i], zero, r), zero)
    {
      var enumValue := enumValues[i];
      assert enumValues[..][i] == enumValue;
      SurvivorsStep(values, zero, r, i);
      ListedStep(Survivors(values[..i], zero, r), values[i], zero);
      if enumValue.remove {
        continue;
      }
      int32Values := int32Values + [enumValue.number];
      if zero == Hidden && enumValue.number == 0 {
        hiddenNames := hiddenNames + [PatternFor(enumValue.name)];
      } else {
        stringValues := stringValues + [Str(enumValue.name)];
      }
    }
    assert values[..|values|] == values;
  }

  /** buf/jsonschema.go:570-665 */
  method GenerateEnum(strict: bool, tracksAbsence: bool, required: bool, values: seq<EnumValue>, r: EnumRules)
    returns (schema: Schema)
    requires forall k | 0 <= k < |values| :: IsInt32(values[k].number)
    ensures schema == EnumSchema(strict, values, ZeroUseOf(strict, tracksAbsence, required), r)
  {
    var allowZero, hideZero := true, false;
    if !tracksAbsence {
      if required {
        allowZero := false;
      } else if !strict {
        hideZero := true;
      }
    }
    var zero := if hideZero then Hidden else if allowZero then Plain else Forbidden;
    var enumValues := Select(values, zero, r);
    var anyOf, int32Values, stringValues := Collect(values, zero, r, enumValues);
    if |stringValues| > 0 {
      anyOf := anyOf + [Scalar(Some(TString), Some(stringValues), NO_BOUNDS, NO_TEXT)];
    }
    assert anyOf == NameBranches(Survivors(values, zero, r), zero);
    if !strict {
      if r.definedOnly || r.constant.Some? || |r.allowed| > 0 {
        SurvivorsAreInt32(values, zero, r);
        anyOf := GenerateEnumInt32(int32Values, anyOf);
      } else if allowZero {
        anyOf := anyOf +
          [Scalar(Some(TInteger), None, Bounds(Some(MIN_INT32), None, Some(MAX_INT32), None), NO_TEXT)];
      } else {
        anyOf := anyOf +
          [Scalar(Some(TInteger), None, Bounds(Some(MIN_INT32), None, None, Some(0)), NO_TEXT),
           Scalar(Some(TInteger), None, Bounds(None, Some(0), Some(MAX_INT32), None), NO_TEXT)];
      }
    }
    assert anyOf == EnumBranches(strict, values, zero, r);
    schema := Alternatives(anyOf);
  }

  lemma SurvivorsAreInt32(values: seq<EnumValue>, zero: ZeroUse, r: EnumRules)
    requires forall k | 0 <= k < |values| :: IsInt32(values[k].number)
    ensures forall n | n in Numbers(Survivors(values, zero, r)) :: IsInt32(n)
  {
    SurvivorsMeaning(values, zero, r);
    forall n | n in Numbers(Survivors(values, zero, r))
      ensures IsInt32(n)
    {
      NumbersMeaning(Survivors(values, zero, r), n);
    }
  }

  // ----- What an enum schema accepts

  predicate SurvivingName(values: seq<EnumValue>, zero: ZeroUse, r: EnumRules, name: string) {
    exists i | 0 <= i < |values| :: values[i].name == name && Survives(zero, r, values[i].number)
  }

  predicate SurvivingNumber(values: seq<EnumValue>, zero: ZeroUse, r: EnumRules, n: int) {
    exists i | 0 <= i < |values| :: values[i].number == n && Survives(zero, r, values[i].number)
  }

  /** The integers accepted outside strict mode. */
  predicate NumberAccepted(values: seq<EnumValue>, zero: ZeroUse, r: EnumRules, n: int) {
    if r.definedOnly || r.constant.Some? || r.allowed != []
    then SurvivingNumber(values, zero, r, n)
    else IsInt32(n) && !(zero == Forbidden && n == 0)
  }

  lemma {:induction false} SurvivorsMeaning(values: seq<EnumValue>, zero: ZeroUse, r: EnumRules)
    ensures forall v :: v in Survivors(values, zero, r) <==> v in values && Survives(zero, r, v.number)
  {
    if values != [] {
      var init, last := values[..|values| - 1], values[|values| - 1];
      SurvivorsMeaning(init, zero, r);
      assert values == init + [last];
    }
  }

  lemma {:induction false} NumbersMeaning(values: seq<EnumValue>, n: int)
    ensures n in Numbers(values) <==> exists v | v in values :: v.number == n
  {
    if values != [] {
      var init, last := values[..|values| - 1], values[|values| - 1];
      NumbersMeaning(init, n);
      assert values == init + [last];
    }
  }

  /** Some name branch accepts the string: either it is offered or it is hidden. */
  lemma {:induction false} NamesMeaning(survivors: seq<EnumValue>, zero: ZeroUse, name: string)
    ensures (Str(name) in OfferedNames(survivors, zero) || PatternFor(name) in HiddenNames(survivors, zero)) <==>
            exists v | v in survivors :: v.name == name
    ensures forall j | j in OfferedNames(survivors, zero) :: j.Str?
    ensures forall h | h in HiddenNames(survivors, zero) :: exists v | v in survivors :: h == PatternFor(v.name)
  {
    if survivors != [] {
      var init, last := survivors[..|survivors| - 1], survivors[|survivors| - 1];
      NamesMeaning(init, zero, name);
      assert survivors == init + [last];
    }
  }

  /** Some branch of a list accepts `j`. */
  ghost predicate OneAccepts(branches: seq<Schema>, j: Json) {
    exists i | 0 <= i < |branches| :: Accepts(branches[i], j)
  }

  lemma OneAcceptsUnion(a: seq<Schema>, b: seq<Schema>, j: Json)
    ensures OneAccepts(a + b, j) <==> OneAccepts(a, j) || OneAccepts(b, j)
  {
    if i :| 0 <= i < |a| && Accepts(a[i], j) {
      assert Accepts((a + b)[i], j);
    }
    if i :| 0 <= i < |b| && Accepts(b[i], j) {
      assert Accepts((a + b)[|a| + i], j);
    }
    if i :| 0 <= i < |a + b| && Accepts((a + b)[i], j) {
      assert Accepts(if i < |a| then a[i] else b[i - |a|], j);
    }
  }

  lemma PatternForMeaning(name: string, j: Json)
    ensures Accepts(PatternFor(name), j) <==> j == Str(name)
  {
    ScalarMeaning(PatternFor(name), j);
  }

  lemma NameBranchesMeaning(survivors: seq<EnumValue>, zero: ZeroUse, j: Json)
    ensures OneAccepts(NameBranches(survivors, zero), j) <==>
            j.Str? && exists v | v in survivors :: v.name == j.s
  {
    var hidden, names := HiddenNames(survivors, zero), OfferedNames(survivors, zero);
    var offered := if names == [] then [] else [Scalar(Some(TString), Some(names), NO_BOUNDS, NO_TEXT)];
    OneAcceptsUnion(hidden, offered, j);
    NamesMeaning(survivors, zero, if j.Str? then j.s else "");
    forall i | 0 <= i < |hidden|
      ensures Accepts(hidden[i], j) <==> j.Str? && hidden[i] == PatternFor(j.s)
    {
      assert hidden[i] in hidden;
      var v :| v in survivors && hidden[i] == PatternFor(v.name);
      PatternForMeaning(v.name, j);
    }
    assert OneAccepts(hidden, j) <==> j.Str? && PatternFor(j.s) in hidden;
    if names != [] {
      ScalarMeaning(offered[0], j);
    }
    assert OneAccepts(offered, j) <==> j in names;
  }

  lemma RangeSchemasMeaning(rs: seq<Range>, j: Json)
    ensures OneAccepts(RangeSchemas(rs), j) <==> j.Int? && Covered(rs, j.n)
  {
    forall i | 0 <= i < |rs|
      ensures Accepts(RangeSchemas(rs)[i], j) <==> j.Int? && InRange(rs[i], j.n)
    {
      ScalarMeaning(RangeSchema(rs[i]), j);
    }
  }

  lemma IntegerBranchesMeaning(values: seq<EnumValue>, zero: ZeroUse, r: EnumRules, j: Json)
    ensures OneAccepts(IntegerBranches(values, zero, r), j) <==> j.Int? && NumberAccepted(values, zero, r, j.n)
  {
    var b := IntegerBranches(values, zero, r);
    if r.definedOnly || r.constant.Some? || r.allowed != [] {
      var numbers := Numbers(Survivors(values, zero, r));
      RangeSchemasMeaning(IntegerRanges(numbers), j);
      IntegerRangesExact(numbers);
      if j.Int? {
        NumbersMeaning(Survivors(values, zero, r), j.n);
        SurvivorsMeaning(values, zero, r);
      }
    } else {
      ScalarMeaning(b[0], j);
      ScalarMeaning(b[|b| - 1], j);
      assert Accepts(b[0], j) || Accepts(b[|b| - 1], j) <==> j.Int? && NumberAccepted(values, zero, r, j.n);
    }
  }

  /** Enum selection from end to end. A string is accepted exactly when it is the
      name of a declared value that survives the zero, const, in and not_in
      passes. An integer is accepted only outside strict mode; with
      defined_only, const or in it must be the number of a surviving value, and
      otherwise any 32-bit number but a forbidden zero. */
  lemma EnumMeaning(strict: bool, values: seq<EnumValue>, zero: ZeroUse, r: EnumRules, j: Json)
    ensures Accepts(EnumSchema(strict, values, zero, r), j) <==>
            match j
            case Str(name) => SurvivingName(values, zero, r, name)
            case Int(n) => !strict && NumberAccepted(values, zero, r, n)
            case _ => false
  {
    var survivors := Survivors(values, zero, r);
    var names, integers := NameBranches(survivors, zero), if strict then [] else IntegerBranches(values, zero, r);
    AlternativesMeaning(EnumBranches(strict, values, zero, r), j);
    OneAcceptsUnion(names, integers, j);
    NameBranchesMeaning(survivors, zero, j);
    IntegerBranchesMeaning(values, zero, r, j);
    SurvivorsMeaning(values, zero, r);
    if j.Str? && SurvivingName(values, zero, r, j.s) {
      var i :| 0 <= i < |values| && values[i].name == j.s && Survives(zero, r, values[i].number);
      assert values[i] in survivors;
    }
  }

  /** What an enum field admits, by the rules themselves. A required field without
      presence does not admit zero. A name must be that of a declared value that
      satisfies the rules. An integer, outside strict mode, must be a declared
      value that satisfies them if defined_only, const or in is set, and otherwise
      any 32-bit number, whatever not_in says. */
  predicate EnumAllowed(
      strict: bool, values: seq<EnumValue>, tracksAbsence: bool, required: bool, r: EnumRules, j: Json) {
    var noZero := required && !tracksAbsence;
    match j
    case Str(name) =>
      exists i | 0 <= i < |values| ::
        values[i].name == name && Satisfies(r, values, values[i].number) && !(noZero && values[i].number == 0)
    case Int(n) =>
      && !strict && !(noZero && n == 0)
      && if r.definedOnly || r.constant.Some? || r.allowed != []
         then Satisfies(r, values, n) && exists i | 0 <= i < |values| :: values[i].number == n
         else -2147483648 <= n <= 2147483647
    case _ => false
  }

  /** A declared value is left over exactly when it satisfies the rules and is not a
      zero that is ruled out. */
  lemma SurvivesIff(strict: bool, tracksAbsence: bool, required: bool, r: EnumRules, values: seq<EnumValue>, i: nat)
    requires i < |values|
    ensures Survives(ZeroUseOf(strict, tracksAbsence, required), r, values[i].number) <==>
            Satisfies(r, values, values[i].number) && !(required && !tracksAbsence && values[i].number == 0)
  {
  }

  /** The schema of an enum field accepts exactly what the field admits. */
  lemma EnumExact(strict: bool, values: seq<EnumValue>, tracksAbsence: bool, required: bool, r: EnumRules, j: Json)
    ensures Accepts(EnumSchema(strict, values, ZeroUseOf(strict, tracksAbsence, required), r), j) <==>
            EnumAllowed(strict, values, tracksAbsence, required, r, j)
  {
    EnumMeaning(strict, values, ZeroUseOf(strict, tracksAbsence, required), r, j);
    forall i | 0 <= i < |values|
      ensures Survives(ZeroUseOf(strict, tracksAbsence, required), r, values[i].number) <==>
              Satisfies(r, values, values[i].number) && !(required && !tracksAbsence && values[i].number == 0)
    {
      SurvivesIff(strict, tracksAbsence, required, r, values, i);
    }
  }

  lemma {:induction false} ListedNames(survivors: seq<EnumValue>, zero: ZeroUse, name: string)
    ensures Str(name) in OfferedNames(survivors, zero) <==>
            exists v | v in survivors :: v.name == name && !(zero == Hidden && v.number == 0)
    ensures PatternFor(name) in HiddenNames(survivors, zero) <==>
            exists v | v in survivors :: v.name == name && zero == Hidden && v.number == 0
  {
    if survivors != [] {
      var init, last := survivors[..|survivors| - 1], survivors[|survivors| - 1];
      ListedNames(init, zero, name);
      assert survivors == init + [last];
      assert forall v :: v in survivors <==> v in init || v == last;
    }
  }

  lemma SurvivorIff(
      strict: bool, values: seq<EnumValue>, tracksAbsence: bool, required: bool, r: EnumRules, v: EnumValue)
    ensures v in Survivors(values, ZeroUseOf(strict, tracksAbsence, required), r) <==>
            v in values && Satisfies(r, values, v.number) && !(required && !tracksAbsence && v.number == 0)
  {
    SurvivorsMeaning(values, ZeroUseOf(strict, tracksAbsence, required), r);
    if v in values {
      var i :| 0 <= i < |values| && values[i] == v;
      SurvivesIff(strict, tracksAbsence, required, r, values, i);
    }
  }

  /** The names that are offered and those that only a pattern accepts: outside
      strict mode the zero of a field without presence is hidden unless it is ruled
      out, and every other value that satisfies the rules is offered. */
  lemma OfferedIff(
      strict: bool, values: seq<EnumValue>, tracksAbsence: bool, required: bool, r: EnumRules, name: string)
    ensures var zero := ZeroUseOf(strict, tracksAbsence, required);
            Str(name) in OfferedNames(Survivors(values, zero, r), zero) <==>
            exists v | v in values ::
              && v.name == name && Satisfies(r, values, v.number)
              && (tracksAbsence || (strict && !required) || v.number != 0)
    ensures var zero := ZeroUseOf(strict, tracksAbsence, required);
            PatternFor(name) in HiddenNames(Survivors(values, zero, r), zero) <==>
            exists v | v in values ::
              && v.name == name && Satisfies(r, values, v.number)
              && !tracksAbsence && !strict && !required && v.number == 0
  {
    var zero := ZeroUseOf(strict, tracksAbsence, required);
    ListedNames(Survivors(values, zero, r), zero, name);
    forall v
      ensures v in Survivors(values, zero, r) <==>
              v in values && Satisfies(r, values, v.number) && !(required && !tracksAbsence && v.number == 0)
    {
      SurvivorIff(strict, values, tracksAbsence, required, r, v);
    }
  }

  lemma {:induction false} NoNamesNoSurvivors(survivors: seq<EnumValue>, zero: ZeroUse)
    ensures NameBranches(survivors, zero) == [] <==> survivors == []
  {
    if survivors != [] {
      var last := survivors[|survivors| - 1];
      if zero == Hidden && last.number == 0 {
        assert HiddenNames(survivors, zero) != [];
      } else {
        assert OfferedNames(survivors, zero) != [];
      }
    }
  }

  /** The schema of an enum is an empty anyOf, to which JSON Schema gives no meaning
      and which is taken to accept nothing, exactly when no declared value survives
      and integers are left out or restricted to the survivors. */
  lemma EmptyBranchesIff(strict: bool, values: seq<EnumValue>, zero: ZeroUse, r: EnumRules)
    ensures EnumBranches(strict, values, zero, r) == [] <==>
            && (forall i | 0 <= i < |values| :: !Survives(zero, r, values[i].number))
            && (strict || r.definedOnly || r.constant.Some? || r.allowed != [])
  {
    var survivors := Survivors(values, zero, r);
    SurvivorsMeaning(values, zero, r);
    NoNamesNoSurvivors(survivors, zero);
    if survivors != [] {
      assert survivors[0] in survivors;
    }
    assert (forall i | 0 <= i < |values| :: !Survives(zero, r, values[i].number)) <==> survivors == [] by {
      forall i | 0 <= i < |values| && Survives(zero, r, values[i].number)
        ensures survivors != []
      {
        assert values[i] in survivors;
      }
    }
  }
}
