/** Message values, the rules they satisfy, and their canonical ProtoJSON form. */
module ProtoJson {
  import opened Json
  import opened Descriptors
  import Int = IntValidation
  import Enum = EnumValidation
  import opened TextValidation
  import Base64
  import opened Bytes

  datatype Value =
    | BoolV(b: bool)
    | EnumV(number: int)
    | IntV(n: int)
    | StringV(s: string)
    | BytesV(bytes: seq<Byte>)
    | MessageV(fields: seq<FieldValue>)

  datatype FieldValue =
    | Unset
    | One(value: Value)
    | Many(values: seq<Value>)
    | Entries(entries: seq<Entry>)

  datatype Entry = Entry(key: Value, value: Value)

  // ----- Values of a descriptor

  predicate TypedLeaf(e: Elem, v: Value) {
    match e
    case BoolElem(_) => v.BoolV?
    case EnumElem(_, _) => v.EnumV? && Enum.IsInt32(v.number)
    case IntElem(t, _) => v.IntV? && t.Holds(v.n)
    case StringElem(_) => v.StringV?
    case BytesElem(_) => v.BytesV?
    case MessageElem(_) => false
  }

  predicate Typed(e: Elem, v: Value)
    decreases v
  {
    if e.MessageElem? then
      && v.MessageV?
      && |v.fields| == |e.message.fields|
      && forall i | 0 <= i < |v.fields| :: TypedField(e.message.fields[i], v.fields[i])
    else TypedLeaf(e, v)
  }

  predicate TypedField(f: Field, fv: FieldValue)
    decreases fv
  {
    match f.shape
    case Singular(e, presence) => (presence && fv.Unset?) || (fv.One? && Typed(e, fv.value))
    case Repeated(e, _, _, _) => fv.Many? && forall i | 0 <= i < |fv.values| :: Typed(e, fv.values[i])
    case MapOf(k, _, e, _, _) =>
      fv.Entries? &&
      forall i | 0 <= i < |fv.entries| :: Typed(k, fv.entries[i].key) && Typed(e, fv.entries[i].value)
  }

  predicate IsZero(v: Value) {
    match v
    case BoolV(b) => !b
    case EnumV(n) => n == 0
    case IntV(n) => n == 0
    case StringV(s) => s == ""
    case BytesV(b) => b == []
    case MessageV(_) => false
  }

  /** The field is written: it is set, or without presence not the zero value. */
  predicate Populated(f: Field, fv: FieldValue) {
    match fv
    case Unset => false
    case One(v) => (f.shape.Singular? && f.shape.presence) || !IsZero(v)
    case Many(vs) => vs != []
    case Entries(es) => es != []
  }

  // ----- Validation rules

  predicate SatisfiesLeaf(e: Elem, v: Value)
    requires TypedLeaf(e, v)
  {
    match e
    case BoolElem(r) => SatisfiesBool(r, v.b)
    case EnumElem(values, r) => Enum.Satisfies(r, values, v.number)
    case IntElem(_, r) => r.Some? ==> Int.Satisfies(r.value, v.n)
    case StringElem(r) => r.Some? ==> SatisfiesString(r.value, v.s)
    case BytesElem(r) => r.Some? ==> SatisfiesBytes(r.value, v.bytes)
  }

  /** The rules of a list item, key or map value do not count. */
  predicate Exempt(ignore: Ignore, v: Value) {
    ignore == Always || (ignore == IfZeroValue && IsZero(v))
  }

  /** The rules of a field do not count, nor those inside its message. */
  predicate ExemptField(f: Field, fv: FieldValue) {
    f.ignore == Always || (f.ignore == IfZeroValue && !Populated(f, fv))
  }

  predicate Satisfies(e: Elem, v: Value)
    requires Typed(e, v)
    decreases v
  {
    if e.MessageElem? then forall i | 0 <= i < |v.fields| :: SatisfiesField(e.message.fields[i], v.fields[i])
    else SatisfiesLeaf(e, v)
  }

  /** Unless it is exempt, a required field is populated and what is set satisfies
      its rules. */
  predicate SatisfiesField(f: Field, fv: FieldValue)
    requires TypedField(f, fv)
    decreases fv, 1
  {
    ExemptField(f, fv) || ((f.required ==> Populated(f, fv)) && SatisfiesRules(f, fv))
  }

  predicate SatisfiesRules(f: Field, fv: FieldValue)
    requires TypedField(f, fv)
    decreases fv, 0
  {
    match f.shape
    case Singular(e, _) => fv.One? ==> Satisfies(e, fv.value)
    case Repeated(e, rules, minItems, maxItems) =>
      && (minItems.Some? ==> minItems.value <= |fv.values|)
      && (maxItems.Some? ==> |fv.values| <= maxItems.value)
      && forall i | 0 <= i < |fv.values| :: Exempt(rules.ignore, fv.values[i]) || Satisfies(e, fv.values[i])
    case MapOf(k, keyRules, e, valueRules, _) =>
      forall i | 0 <= i < |fv.entries| ::
        && (Exempt(keyRules.ignore, fv.entries[i].key) || Satisfies(k, fv.entries[i].key))
        && (Exempt(valueRules.ignore, fv.entries[i].value) || Satisfies(e, fv.entries[i].value))
  }

  // ----- Canonical ProtoJSON

  /** The first declared name of an enum number. */
  function NameOf(values: seq<Enum.EnumValue>, n: int): (r: Option<string>)
    ensures r.Some? <==> Enum.Declares(values, n)
    ensures r.Some? ==> exists i | 0 <= i < |values| :: values[i].name == r.value && values[i].number == n
  {
    if values == [] then None
    else if values[0].number == n then Some(values[0].name)
    else
      var rest := NameOf(values[1..], n);
      assert rest.Some? ==> Enum.Declares(values, n) by {
        if rest.Some? {
          var i :| 0 <= i < |values[1..]| && values[1..][i].name == rest.value && values[1..][i].number == n;
          assert values[i + 1] == values[1..][i];
        }
      }
      assert Enum.Declares(values, n) ==> rest.Some? by {
        if Enum.Declares(values, n) {
          var i :| 0 <= i < |values| && values[i].number == n;
          assert values[1..][i - 1] == values[i];
        }
      }
      rest
  }

  /** 64-bit integers are strings, enums their names, bytes base64. */
  function EncodeLeaf(e: Elem, v: Value): Json
    requires TypedLeaf(e, v)
  {
    match e
    case BoolElem(_) => Bool(v.b)
    case EnumElem(values, _) =>
      (match NameOf(values, v.number)
       case Some(name) => Str(name)
       case None => Json.Int(v.number))
    case IntElem(t, _) => if t.Wide() then Str(SignedDecimal(v.n)) else Json.Int(v.n)
    case StringElem(_) => Str(v.s)
    case BytesElem(_) => Str(Base64.Encode(v.bytes))
  }

  /** Map keys are always strings. */
  function KeyText(k: Elem, v: Value): string
    requires KeyElem(k) && Typed(k, v)
  {
    match k
    case BoolElem(_) => if v.b then "true" else "false"
    case IntElem(_, _) => SignedDecimal(v.n)
    case StringElem(_) => v.s
  }

  /** What a writer may choose: proto names instead of JSON names, and whether the
      fields without presence are written when they are zero or empty. */
  datatype Style = Style(protoNames: bool, defaults: bool)

  function WrittenName(st: Style, f: Field): string {
    if st.protoNames then f.name else f.jsonName
  }

  predicate Written(st: Style, f: Field, fv: FieldValue) {
    Populated(f, fv) || (st.defaults && !fv.Unset?)
  }

  function Encode(e: Elem, v: Value, st: Style): Json
    requires WellFormedElem(e) && Typed(e, v)
    decreases v
  {
    if e.MessageElem? then
      assert WellFormed(e.message);
      Obj(EncodeFields(e.message.fields, v.fields, st))
    else EncodeLeaf(e, v)
  }

  function EncodeFields(fields: seq<Field>, fvs: seq<FieldValue>, st: Style): seq<Member>
    requires |fields| == |fvs|
    requires forall i | 0 <= i < |fields| :: WellFormedField(fields[i]) && TypedField(fields[i], fvs[i])
    decreases fvs
  {
    if fields == [] then []
    else
      var n := |fields| - 1;
      EncodeFields(fields[..n], fvs[..n], st) +
      if Written(st, fields[n], fvs[n])
      then [Member(WrittenName(st, fields[n]), EncodeField(fields[n], fvs[n], st))] else []
  }

  function EncodeField(f: Field, fv: FieldValue, st: Style): Json
    requires WellFormedField(f) && TypedField(f, fv) && !fv.Unset?
    decreases fv
  {
    match f.shape
    case Singular(e, _) => Encode(e, fv.value, st)
    case Repeated(e, _, _, _) => Arr(EncodeItems(e, fv.values, st))
    case MapOf(k, _, e, _, _) => Obj(EncodeEntries(k, e, fv.entries, st))
  }

  function EncodeItems(e: Elem, vs: seq<Value>, st: Style): (r: seq<Json>)
    requires WellFormedElem(e) && forall i | 0 <= i < |vs| :: Typed(e, vs[i])
    ensures |r| == |vs|
    ensures forall i | 0 <= i < |vs| :: r[i] == Encode(e, vs[i], st)
    decreases vs
  {
    if vs == [] then [] else [Encode(e, vs[0], st)] + EncodeItems(e, vs[1..], st)
  }

  function EncodeEntries(k: Elem, e: Elem, es: seq<Entry>, st: Style): (r: seq<Member>)
    requires KeyElem(k) && WellFormedElem(e)
    requires forall i | 0 <= i < |es| :: Typed(k, es[i].key) && Typed(e, es[i].value)
    ensures |r| == |es|
    ensures forall i | 0 <= i < |es| ::
              r[i] == EncodeEntry(k, e, es[i], st)
    decreases es
  {
    if es == [] then []
    else [EncodeEntry(k, e, es[0], st)] + EncodeEntries(k, e, es[1..], st)
  }

  function EncodeEntry(k: Elem, e: Elem, entry: Entry, st: Style): Member
    requires KeyElem(k) && WellFormedElem(e) && Typed(k, entry.key) && Typed(e, entry.value)
    decreases entry
  {
    Member(KeyText(k, entry.key), Encode(e, entry.value, st))
  }

  /** The members of an encoded message are those of its written fields. */
  lemma {:induction false} EncodedMembers(fields: seq<Field>, fvs: seq<FieldValue>, st: Style)
    requires |fields| == |fvs|
    requires forall i | 0 <= i < |fields| :: WellFormedField(fields[i]) && TypedField(fields[i], fvs[i])
    ensures forall i | 0 <= i < |fields| && Written(st, fields[i], fvs[i]) ::
              Member(WrittenName(st, fields[i]), EncodeField(fields[i], fvs[i], st))
              in EncodeFields(fields, fvs, st)
    ensures forall mem | mem in EncodeFields(fields, fvs, st) ::
              exists i | 0 <= i < |fields| ::
                && Written(st, fields[i], fvs[i])
                && mem == Member(WrittenName(st, fields[i]), EncodeField(fields[i], fvs[i], st))
  {
    if fields != [] {
      var n := |fields| - 1;
      EncodedMembers(fields[..n], fvs[..n], st);
    }
  }
}
