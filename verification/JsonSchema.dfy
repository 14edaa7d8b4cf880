/** The JSON Schema keywords that the generator emits, and what they mean.

    A schema is a record with one component per keyword, absent unless set;
    the annotations title, description and default constrain nothing and have
    no component. `Accepts` is validation as JSON Schema 2020-12 defines it:
    Core section 10.2.1.2 for anyOf, Core section 10.3 for items, properties,
    patternProperties, additionalProperties and propertyNames, and Validation
    sections 6.1 to 6.5 for the rest.
*/
module JsonSchema {
  import opened Json

  datatype JsonType = TArray | TBoolean | TInteger | TObject | TString

  /** The regular expressions that are emitted, by what they match. */
  datatype Pattern =
    | SignedDigits                    // ^-?[0-9]+$
    | Digits                          // ^[0-9]+$
    | Base64Text                      // ^[A-Za-z0-9+/]*={0,2}$
    | Exactly(names: seq<string>)     // ^(a|b)$, and ^a$ for one name

  datatype AnyOf = NoAnyOf | AnyOf(branches: seq<Schema>)

  datatype Additional = NoKeyword | Flag(allowed: bool) | Each(value: Schema)

  /** Validation section 6.2. */
  datatype Bounds = Bounds(
    minimum: Option<int>, exclusiveMinimum: Option<int>,
    maximum: Option<int>, exclusiveMaximum: Option<int>)

  /** Validation section 6.3. */
  datatype TextKeywords = TextKeywords(minLength: Option<nat>, maxLength: Option<nat>, pattern: Option<Pattern>)

  /** Core section 10.3.1 and Validation section 6.4. */
  datatype ArrayKeywords = ArrayKeywords(items: Option<Schema>, minItems: Option<nat>, maxItems: Option<nat>)

  /** Core section 10.3.2 and Validation section 6.5. */
  datatype ObjectKeywords = ObjectKeywords(
    properties: map<string, Schema>,
    patternProperties: map<Pattern, Schema>,
    additionalProperties: Additional,
    propertyNames: Option<Schema>,
    required: seq<string>)

  datatype Schema = Schema(
    typ: Option<JsonType>,
    enumeration: Option<seq<Json>>,
    bounds: Bounds,
    text: TextKeywords,
    anyOf: AnyOf,
    arrays: ArrayKeywords,
    objects: ObjectKeywords)

  const NO_BOUNDS: Bounds := Bounds(None, None, None, None)
  const NO_TEXT: TextKeywords := TextKeywords(None, None, None)
  const NO_ARRAY: ArrayKeywords := ArrayKeywords(None, None, None)
  const NO_OBJECT: ObjectKeywords := ObjectKeywords(map[], map[], NoKeyword, None, [])

  /** A schema that carries scalar keywords only. */
  function Scalar(typ: Option<JsonType>, enumeration: Option<seq<Json>>, bounds: Bounds, text: TextKeywords): Schema {
    Schema(typ, enumeration, bounds, text, NoAnyOf, NO_ARRAY, NO_OBJECT)
  }

  /** The schema without keywords, which accepts everything. */
  const EMPTY: Schema := Scalar(None, None, NO_BOUNDS, NO_TEXT)

  predicate AllDigits(s: string) {
    s != [] && forall i | 0 <= i < |s| :: '0' <= s[i] <= '9'
  }

  predicate Base64Char(c: char) {
    'A' <= c <= 'Z' || 'a' <= c <= 'z' || '0' <= c <= '9' || c == '+' || c == '/'
  }

  predicate Matches(p: Pattern, s: string) {
    match p
    case SignedDigits => AllDigits(s) || (s != [] && s[0] == '-' && AllDigits(s[1..]))
    case Digits => AllDigits(s)
    case Base64Text =>
      exists k | 0 <= k <= |s| :: PaddedAt(s, k)
    case Exactly(names) => s in names
  }

  /** `s` is alphabet characters up to `k`, followed by at most two '='. */
  predicate PaddedAt(s: string, k: nat)
    requires k <= |s|
  {
    && |s| - k <= 2
    && (forall i | 0 <= i < k :: Base64Char(s[i]))
    && (forall i | k <= i < |s| :: s[i] == '=')
  }

  predicate TypeOk(t: Option<JsonType>, j: Json) {
    match t
    case None => true
    case Some(TArray) => j.Arr?
    case Some(TBoolean) => j.Bool?
    case Some(TInteger) => j.Int?
    case Some(TObject) => j.Obj?
    case Some(TString) => j.Str?
  }

  predicate NumberOk(b: Bounds, j: Json) {
    match j
    case Int(n) => InBounds(b, n)
    case Fraction(r) =>
      && (b.minimum.Some? ==> b.minimum.value as real <= r)
      && (b.exclusiveMinimum.Some? ==> b.exclusiveMinimum.value as real < r)
      && (b.maximum.Some? ==> r <= b.maximum.value as real)
      && (b.exclusiveMaximum.Some? ==> r < b.exclusiveMaximum.value as real)
    case _ => true
  }

  predicate InBounds(b: Bounds, n: int) {
    && (b.minimum.Some? ==> b.minimum.value <= n)
    && (b.exclusiveMinimum.Some? ==> b.exclusiveMinimum.value < n)
    && (b.maximum.Some? ==> n <= b.maximum.value)
    && (b.exclusiveMaximum.Some? ==> n < b.exclusiveMaximum.value)
  }

  predicate TextOk(t: TextKeywords, j: Json) {
    j.Str? ==>
      && (t.minLength.Some? ==> t.minLength.value <= |j.s|)
      && (t.maxLength.Some? ==> |j.s| <= t.maxLength.value)
      && (t.pattern.Some? ==> Matches(t.pattern.value, j.s))
  }

  /** The keywords that look at one JSON value as a whole, not inside it. */
  predicate ScalarOk(s: Schema, j: Json) {
    && TypeOk(s.typ, j)
    && (s.enumeration.Some? ==> j in s.enumeration.value)
    && NumberOk(s.bounds, j)
    && TextOk(s.text, j)
  }

  predicate HasMember(members: seq<Member>, name: string) {
    exists i | 0 <= i < |members| :: members[i].name == name
  }

  predicate RequiredOk(required: seq<string>, members: seq<Member>) {
    forall k | 0 <= k < |required| :: HasMember(members, required[k])
  }

  /** Validation of `j` against `s`. */
  ghost predicate Accepts(s: Schema, j: Json)
    decreases s, 1
  {
    && ScalarOk(s, j)
    && (s.anyOf.AnyOf? ==>
          exists i | 0 <= i < |s.anyOf.branches| :: Accepts(s.anyOf.branches[i], j))
    && (j.Arr? ==>
          && (s.arrays.minItems.Some? ==> s.arrays.minItems.value <= |j.items|)
          && (s.arrays.maxItems.Some? ==> |j.items| <= s.arrays.maxItems.value)
          && (s.arrays.items.Some? ==> forall i | 0 <= i < |j.items| :: Accepts(s.arrays.items.value, j.items[i])))
    && (j.Obj? ==>
          && RequiredOk(s.objects.required, j.members)
          && forall i | 0 <= i < |j.members| :: MemberOk(s.objects, j.members[i]))
  }

  /** What the object keywords ask of one member: the property and every
      matching pattern apply, and additionalProperties applies to a member that
      none of them names. */
  ghost predicate MemberOk(o: ObjectKeywords, m: Member)
    decreases o, 0
  {
    && (o.propertyNames.Some? ==> Accepts(o.propertyNames.value, Str(m.name)))
    && (m.name in o.properties ==> Accepts(o.properties[m.name], m.value))
    && (forall p | p in o.patternProperties && Matches(p, m.name) ::
          Accepts(o.patternProperties[p], m.value))
    && (m.name !in o.properties && !MatchedByPattern(o, m.name) ==>
          match o.additionalProperties
          case NoKeyword => true
          case Flag(allowed) => allowed
          case Each(value) => Accepts(value, m.value))
  }

  predicate MatchedByPattern(o: ObjectKeywords, name: string) {
    exists p | p in o.patternProperties :: Matches(p, name)
  }

  /** The choice that ends the numeric and enum generators: a single branch is
      copied into the schema, several become anyOf. */
  function Alternatives(branches: seq<Schema>): Schema {
    if |branches| == 1 then branches[0] else EMPTY.(anyOf := AnyOf(branches))
  }

  lemma AlternativesMeaning(branches: seq<Schema>, j: Json)
    ensures Accepts(Alternatives(branches), j) <==>
            exists i | 0 <= i < |branches| :: Accepts(branches[i], j)
  {
    if |branches| == 1 {
      assert Alternatives(branches) == branches[0];
      if Accepts(branches[0], j) {
        assert 0 <= 0 < |branches|;
      }
    } else {
      var s := Alternatives(branches);
      assert s.anyOf.branches == branches;
      assert j.Obj? ==> forall i | 0 <= i < |j.members| :: MemberOk(s.objects, j.members[i]);
    }
  }

  predicate IsScalar(s: Schema) {
    s.anyOf == NoAnyOf && s.arrays == NO_ARRAY && s.objects == NO_OBJECT
  }

  lemma ScalarMeaning(s: Schema, j: Json)
    requires IsScalar(s)
    ensures Accepts(s, j) <==> ScalarOk(s, j)
  {
    assert j.Obj? ==> forall i | 0 <= i < |j.members| :: MemberOk(s.objects, j.members[i]);
  }

  lemma {:induction false} DecimalIsDigits(n: nat)
    ensures AllDigits(Decimal(n))
  {
    if n >= 10 {
      DecimalIsDigits(n / 10);
    }
  }

  lemma SignedDecimalMatches(n: int)
    ensures Matches(SignedDigits, SignedDecimal(n))
    ensures n >= 0 ==> Matches(Digits, SignedDecimal(n))
  {
    if n < 0 {
      DecimalIsDigits(-n);
      assert SignedDecimal(n)[1..] == Decimal(-n);
    } else {
      DecimalIsDigits(n);
    }
  }
}
