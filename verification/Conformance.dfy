/** What the generated schema of a message asks of the canonical ProtoJSON form of
    a value, said of descriptor and value alone: `ConformsMessage`, a recursion
    over the value without schemas. `CanonicalAccepted` proves it exact in both
    modes, for every writer and every value, whether or not it satisfies its
    rules. */
module Conformance {
  import opened Json
  import opened JsonSchema
  import opened Descriptors
  import opened Generator
  import opened ProtoJson
  import opened TextValidation
  import Int = IntValidation
  import Enum = EnumValidation
  import Base64
  import opened Bytes

  // ----- Scalars

  /** The digits of an integer of this type are accepted. */
  predicate TextAccepted(o: Options, t: Int.IntType) {
    !o.strict || (o.string64 && t.Wide())
  }

  function ZeroUse(o: Options, u: Use): Enum.ZeroUse {
    Enum.ZeroUseOf(o.strict, u.presence || u.implicit, u.required && !u.ifZero)
  }

  predicate ConformsString(required: bool, r: StringRules, s: string) {
    && InText(StringText(required, r), |s|)
    && if r.constant.Some? then s == r.constant.value else r.allowed != [] ==> s in r.allowed
  }

  predicate ConformsLeaf(o: Options, e: Elem, u: Use, v: Value)
    requires TypedLeaf(e, v)
  {
    match e
    case BoolElem(r) => if !u.presence && u.required then v.b else SatisfiesBool(r, v.b)
    case EnumElem(values, r) =>
      (match NameOf(values, v.number)
       case Some(name) => Enum.SurvivingName(values, ZeroUse(o, u), r, name)
       case None => !o.strict && Enum.NumberAccepted(values, ZeroUse(o, u), r, v.number))
    case IntElem(t, r) =>
      if t.Wide() then TextAccepted(o, t) else r.Some? ==> Int.NumberAccepts(t, r.value, v.n)
    case StringElem(r) => r.Some? ==> ConformsString(u.required, r.value, v.s)
    case BytesElem(r) => r.Some? ==> InText(BytesText(u.required, r.value), |Base64.Encode(v.bytes)|)
  }

  /** A bool key never conforms: its name would have to be a boolean. */
  predicate ConformsKey(o: Options, k: Elem, u: Use, v: Value)
    requires KeyElem(k) && TypedLeaf(k, v)
  {
    match k
    case BoolElem(_) => false
    case IntElem(t, _) => TextAccepted(o, t)
    case StringElem(r) => r.Some? ==> ConformsString(u.required, r.value, v.s)
  }

  lemma IntText(o: Options, t: Int.IntType, r: Option<Int.IntRules>, n: int)
    requires t.Holds(n)
    ensures Accepts(Int.IntSchema(o.strict, o.string64, t, r), Str(SignedDecimal(n))) <==> TextAccepted(o, t)
  {
    SignedDecimalMatches(n);
    if o.string64 && t.Wide() {
      Int.TextMeaning(t, Str(SignedDecimal(n)));
    } else if r.Some? {
      Int.RuledMeaning(o.strict, t, r.value, Str(SignedDecimal(n)));
    } else {
      Int.PlainMeaning(o.strict, o.string64, t, Str(SignedDecimal(n)));
    }
  }

  lemma IntNumber(o: Options, t: Int.IntType, r: Option<Int.IntRules>, n: int)
    requires !t.Wide() && t.Holds(n)
    ensures Accepts(Int.IntSchema(o.strict, o.string64, t, r), Json.Int(n)) <==>
            (r.Some? ==> Int.NumberAccepts(t, r.value, n))
  {
    if r.Some? {
      Int.RuledMeaning(o.strict, t, r.value, Json.Int(n));
    } else {
      Int.PlainMeaning(o.strict, o.string64, t, Json.Int(n));
    }
  }

  lemma StringAccepted(required: bool, rules: Option<StringRules>, s: string)
    ensures Accepts(StringSchema(required, rules), Str(s)) <==>
            (rules.Some? ==> ConformsString(required, rules.value, s))
  {
    ScalarMeaning(StringSchema(required, rules), Str(s));
    if rules.Some? && rules.value.constant == None {
      StringsMeaning(rules.value.allowed, s);
    }
  }

  lemma BytesAccepted(required: bool, rules: Option<BytesRules>, b: seq<Byte>)
    ensures Accepts(BytesSchema(required, rules), Str(Base64.Encode(b))) <==>
            (rules.Some? ==> InText(BytesText(required, rules.value), |Base64.Encode(b)|))
  {
    ScalarMeaning(BytesSchema(required, rules), Str(Base64.Encode(b)));
    Base64.EncodeMatches(b);
  }

  lemma LeafAccepted(o: Options, e: Elem, u: Use, v: Value)
    requires TypedLeaf(e, v)
    ensures Accepts(LeafSchema(o, e, u), EncodeLeaf(e, v)) <==> ConformsLeaf(o, e, u, v)
  {
    match e
    case BoolElem(r) => BoolMeaning(u.presence, u.required, r, EncodeLeaf(e, v));
    case EnumElem(values, r) => Enum.EnumMeaning(o.strict, values, ZeroUse(o, u), r, EncodeLeaf(e, v));
    case IntElem(t, r) =>
      if t.Wide() { IntText(o, t, r, v.n); } else { IntNumber(o, t, r, v.n); }
    case StringElem(r) => StringAccepted(u.required, r, v.s);
    case BytesElem(r) => BytesAccepted(u.required, r, v.bytes);
  }

  lemma KeyAccepted(o: Options, k: Elem, u: Use, v: Value)
    requires KeyElem(k) && TypedLeaf(k, v)
    ensures Accepts(LeafSchema(o, k, u), Str(KeyText(k, v))) <==> ConformsKey(o, k, u, v)
  {
    match k
    case BoolElem(r) => BoolMeaning(u.presence, u.required, r, Str(KeyText(k, v)));
    case IntElem(t, r) => IntText(o, t, r, v.n);
    case StringElem(r) => StringAccepted(u.required, r, v.s);
  }

  // ----- Messages

  predicate Conforms(o: Options, f: Field, e: Elem, u: Use, v: Value, st: Style)
    requires Typed(e, v)
    decreases v
  {
    if e.MessageElem? then ConformsMessage(o, e.message.fields, v.fields, st)
    else ConformsLeaf(o, Counted(f, e), u, v)
  }

  /** A field is written under a name that goes with its schema, and conforms to it,
      or is an additional property. */
  predicate ConformsWritten(o: Options, f: Field, fv: FieldValue, st: Style)
    requires TypedField(f, fv) && !fv.Unset?
    decreases fv, 1
  {
    if AcceptsName(o, f, WrittenName(st, f)) then ConformsField(o, f, fv, st) else o.additionalProperties
  }

  /** Every written field conforms, and every field that the schema requires is
      written under the name that it asks for. */
  predicate ConformsMessage(o: Options, fields: seq<Field>, fvs: seq<FieldValue>, st: Style)
    requires |fields| == |fvs|
    requires forall i | 0 <= i < |fields| :: TypedField(fields[i], fvs[i])
    decreases fvs
  {
    && (forall i | 0 <= i < |fields| && Written(st, fields[i], fvs[i]) :: ConformsWritten(o, fields[i], fvs[i], st))
    && RequiredWritten(o, fields, fvs, st)
  }

  predicate RequiredWritten(o: Options, fields: seq<Field>, fvs: seq<FieldValue>, st: Style)
    requires |fields| == |fvs|
  {
    forall i | 0 <= i < |fields| && InRequired(o, fields[i]) ::
      Written(st, fields[i], fvs[i]) && WrittenName(st, fields[i]) == Primary(o, fields[i])
  }

  predicate ConformsField(o: Options, f: Field, fv: FieldValue, st: Style)
    requires TypedField(f, fv) && !fv.Unset?
    decreases fv, 0
  {
    match f.shape
    case Singular(e, _) => Conforms(o, f, e, SingularUse(f), fv.value, st)
    case Repeated(e, _, minItems, maxItems) =>
      && (f.Ruled() && minItems.Some? ==> minItems.value <= |fv.values|)
      && (f.Ruled() && maxItems.Some? ==> |fv.values| <= maxItems.value)
      && forall i | 0 <= i < |fv.values| :: Conforms(o, f, e, ItemUse(f), fv.values[i], st)
    case MapOf(_, _, _, _, _) => forall i | 0 <= i < |fv.entries| :: ConformsEntry(o, f, fv.entries[i], st)
  }

  predicate ConformsEntry(o: Options, f: Field, entry: Entry, st: Style)
    requires f.shape.MapOf? && Typed(f.shape.key, entry.key) && Typed(f.shape.value, entry.value)
    decreases entry
  {
    && KeyElem(f.shape.key)
    && ConformsKey(o, Counted(f, f.shape.key), KeyUse(f), entry.key)
    && Conforms(o, f, f.shape.value, ValueUse(f), entry.value, st)
  }

  lemma {:induction false} ElemAccepted(o: Options, f: Field, e: Elem, u: Use, v: Value, st: Style)
    requires WellFormedElem(e) && Typed(e, v)
    ensures Accepts(ElemSchema(o, f, e, u), Encode(e, v, st)) <==> Conforms(o, f, e, u, v, st)
    decreases v, 1
  {
    if e.MessageElem? {
      MessageAccepted(o, e.message, v.fields, st);
    } else {
      LeafAccepted(o, Counted(f, e), u, v);
    }
  }

  lemma {:induction false} FieldAccepted(o: Options, f: Field, fv: FieldValue, st: Style)
    requires WellFormedField(f) && TypedField(f, fv) && !fv.Unset?
    ensures Accepts(FieldSchema(o, f), EncodeField(f, fv, st)) <==> ConformsField(o, f, fv, st)
    decreases fv, 1
  {
    match f.shape
    case Singular(e, _) => ElemAccepted(o, f, e, SingularUse(f), fv.value, st);
    case Repeated(_, _, _, _) => ListAccepted(o, f, fv, st);
    case MapOf(_, _, _, _, _) => MapAccepted(o, f, fv, st);
  }

  lemma {:induction false} ListAccepted(o: Options, f: Field, fv: FieldValue, st: Style)
    requires WellFormedField(f) && TypedField(f, fv) && f.shape.Repeated?
    ensures Accepts(FieldSchema(o, f), EncodeField(f, fv, st)) <==> ConformsField(o, f, fv, st)
    decreases fv, 0
  {
    var e, j := f.shape.items, EncodeField(f, fv, st);
    var schema := ElemSchema(o, f, e, ItemUse(f));
    ListMeaning(schema, if f.Ruled() then f.shape.minItems else None, if f.Ruled() then f.shape.maxItems else None, j);
    forall i | 0 <= i < |fv.values|
      ensures Accepts(schema, j.items[i]) <==> Conforms(o, f, e, ItemUse(f), fv.values[i], st)
    {
      ElemAccepted(o, f, e, ItemUse(f), fv.values[i], st);
    }
  }

  lemma {:induction false} MapAccepted(o: Options, f: Field, fv: FieldValue, st: Style)
    requires WellFormedField(f) && TypedField(f, fv) && f.shape.MapOf?
    ensures Accepts(FieldSchema(o, f), EncodeField(f, fv, st)) <==> ConformsField(o, f, fv, st)
    decreases fv, 0
  {
    var j := EncodeField(f, fv, st);
    var names, values := ElemSchema(o, f, f.shape.key, KeyUse(f)), ElemSchema(o, f, f.shape.value, ValueUse(f));
    MapMeaning(names, values, j);
    forall i | 0 <= i < |fv.entries|
      ensures Accepts(names, Str(j.members[i].name)) && Accepts(values, j.members[i].value) <==>
              ConformsEntry(o, f, fv.entries[i], st)
    {
      EntryAccepted(o, f, fv.entries[i], st);
    }
  }

  lemma {:induction false} EntryAccepted(o: Options, f: Field, entry: Entry, st: Style)
    requires WellFormedField(f) && f.shape.MapOf?
    requires Typed(f.shape.key, entry.key) && Typed(f.shape.value, entry.value)
    ensures var mem := EncodeEntry(f.shape.key, f.shape.value, entry, st);
            Accepts(ElemSchema(o, f, f.shape.key, KeyUse(f)), Str(mem.name)) &&
            Accepts(ElemSchema(o, f, f.shape.value, ValueUse(f)), mem.value) <==>
            ConformsEntry(o, f, entry, st)
    decreases entry, 0
  {
    KeyAccepted(o, Counted(f, f.shape.key), KeyUse(f), entry.key);
    ElemAccepted(o, f, f.shape.value, ValueUse(f), entry.value, st);
  }

  function MemberOf(f: Field, fv: FieldValue, st: Style): Member
    requires WellFormedField(f) && TypedField(f, fv) && Written(st, f, fv)
  {
    Member(WrittenName(st, f), EncodeField(f, fv, st))
  }

  lemma {:induction false} MessageAccepted(o: Options, m: Message, fvs: seq<FieldValue>, st: Style)
    requires WellFormed(m) && |m.fields| == |fvs|
    requires forall i | 0 <= i < |fvs| :: TypedField(m.fields[i], fvs[i])
    ensures Accepts(MessageSchema(o, m), Obj(EncodeFields(m.fields, fvs, st))) <==>
            ConformsMessage(o, m.fields, fvs, st)
    decreases fvs, 0
  {
    var members := EncodeFields(m.fields, fvs, st);
    MessageMeaning(o, m, Obj(members));
    forall i | 0 <= i < |fvs| && Written(st, m.fields[i], fvs[i])
      ensures MemberOk(MessageSchema(o, m).objects, MemberOf(m.fields[i], fvs[i], st)) <==>
              ConformsWritten(o, m.fields[i], fvs[i], st)
    {
      FieldAccepted(o, m.fields[i], fvs[i], st);
      MemberMeaning(o, m, i, MemberOf(m.fields[i], fvs[i], st));
    }
    MembersAccepted(o, m, fvs, st, members);
    RequiredAccepted(o, m, fvs, st);
  }

  /** Each written field's member is judged as the field is. */
  ghost predicate MembersJudged(o: Options, m: Message, fvs: seq<FieldValue>, st: Style)
    requires WellFormed(m) && |m.fields| == |fvs|
    requires forall i | 0 <= i < |fvs| :: TypedField(m.fields[i], fvs[i])
  {
    forall i | 0 <= i < |fvs| && Written(st, m.fields[i], fvs[i]) ::
      MemberOk(MessageSchema(o, m).objects, MemberOf(m.fields[i], fvs[i], st)) <==>
      ConformsWritten(o, m.fields[i], fvs[i], st)
  }

  lemma MemberImpliesField(o: Options, m: Message, fvs: seq<FieldValue>, st: Style, members: seq<Member>, i: nat)
    requires WellFormed(m) && |m.fields| == |fvs|
    requires forall k | 0 <= k < |fvs| :: TypedField(m.fields[k], fvs[k])
    requires MembersJudged(o, m, fvs, st)
    requires members == EncodeFields(m.fields, fvs, st)
    requires forall k | 0 <= k < |members| :: MemberOk(MessageSchema(o, m).objects, members[k])
    requires i < |fvs| && Written(st, m.fields[i], fvs[i])
    ensures ConformsWritten(o, m.fields[i], fvs[i], st)
  {
    EncodedMembers(m.fields, fvs, st);
    var mem := MemberOf(m.fields[i], fvs[i], st);
    var k :| 0 <= k < |members| && members[k] == mem;
    assert MemberOk(MessageSchema(o, m).objects, members[k]);
  }

  lemma FieldsImplyMember(o: Options, m: Message, fvs: seq<FieldValue>, st: Style, mem: Member)
    requires WellFormed(m) && |m.fields| == |fvs|
    requires forall k | 0 <= k < |fvs| :: TypedField(m.fields[k], fvs[k])
    requires MembersJudged(o, m, fvs, st)
    requires forall i | 0 <= i < |fvs| && Written(st, m.fields[i], fvs[i]) ::
               ConformsWritten(o, m.fields[i], fvs[i], st)
    requires mem in EncodeFields(m.fields, fvs, st)
    ensures MemberOk(MessageSchema(o, m).objects, mem)
  {
    var i := WriterOf(m, fvs, st, mem);
  }

  /** The members are right together exactly when each written field is. */
  lemma MembersAccepted(o: Options, m: Message, fvs: seq<FieldValue>, st: Style, members: seq<Member>)
    requires WellFormed(m) && |m.fields| == |fvs|
    requires forall k | 0 <= k < |fvs| :: TypedField(m.fields[k], fvs[k])
    requires MembersJudged(o, m, fvs, st) && members == EncodeFields(m.fields, fvs, st)
    ensures (forall k | 0 <= k < |members| :: MemberOk(MessageSchema(o, m).objects, members[k])) <==>
            (forall i | 0 <= i < |fvs| && Written(st, m.fields[i], fvs[i]) ::
               ConformsWritten(o, m.fields[i], fvs[i], st))
  {
    if forall k | 0 <= k < |members| :: MemberOk(MessageSchema(o, m).objects, members[k]) {
      forall i | 0 <= i < |fvs| && Written(st, m.fields[i], fvs[i])
        ensures ConformsWritten(o, m.fields[i], fvs[i], st)
      {
        MemberImpliesField(o, m, fvs, st, members, i);
      }
    }
    if forall i | 0 <= i < |fvs| && Written(st, m.fields[i], fvs[i]) :: ConformsWritten(o, m.fields[i], fvs[i], st) {
      forall k | 0 <= k < |members|
        ensures MemberOk(MessageSchema(o, m).objects, members[k])
      {
        FieldsImplyMember(o, m, fvs, st, members[k]);
      }
    }
  }

  lemma WriterOf(m: Message, fvs: seq<FieldValue>, st: Style, mem: Member) returns (i: nat)
    requires WellFormed(m) && |m.fields| == |fvs|
    requires forall k | 0 <= k < |fvs| :: TypedField(m.fields[k], fvs[k])
    requires mem in EncodeFields(m.fields, fvs, st)
    ensures i < |fvs| && Written(st, m.fields[i], fvs[i]) && mem == MemberOf(m.fields[i], fvs[i], st)
  {
    EncodedMembers(m.fields, fvs, st);
    i :| 0 <= i < |fvs| && Written(st, m.fields[i], fvs[i]) &&
         mem == Member(WrittenName(st, m.fields[i]), EncodeField(m.fields[i], fvs[i], st));
  }

  /** A member whose name belongs to a field was written by that field. */
  lemma MemberOwner(m: Message, fvs: seq<FieldValue>, st: Style, mem: Member, i: nat)
    requires WellFormed(m) && |m.fields| == |fvs|
    requires forall k | 0 <= k < |fvs| :: TypedField(m.fields[k], fvs[k])
    requires mem in EncodeFields(m.fields, fvs, st) && i < |fvs| && m.fields[i].Named(mem.name)
    ensures Written(st, m.fields[i], fvs[i]) && mem.name == WrittenName(st, m.fields[i])
  {
    var h := WriterOf(m, fvs, st, mem);
    assert m.fields[h].Named(mem.name);
  }

  lemma RequiredMember(o: Options, m: Message, fvs: seq<FieldValue>, st: Style, i: nat)
    requires WellFormed(m) && |m.fields| == |fvs|
    requires forall k | 0 <= k < |fvs| :: TypedField(m.fields[k], fvs[k])
    requires i < |fvs|
    ensures HasMember(EncodeFields(m.fields, fvs, st), Primary(o, m.fields[i])) <==>
            Written(st, m.fields[i], fvs[i]) && WrittenName(st, m.fields[i]) == Primary(o, m.fields[i])
  {
    var members := EncodeFields(m.fields, fvs, st);
    EncodedMembers(m.fields, fvs, st);
    if Written(st, m.fields[i], fvs[i]) {
      var mem := MemberOf(m.fields[i], fvs[i], st);
      assert mem in members;
      var at :| 0 <= at < |members| && members[at] == mem;
    }
    if k :| 0 <= k < |members| && members[k].name == Primary(o, m.fields[i]) {
      assert m.fields[i].Named(members[k].name);
      MemberOwner(m, fvs, st, members[k], i);
    }
  }

  lemma RequiredAccepted(o: Options, m: Message, fvs: seq<FieldValue>, st: Style)
    requires WellFormed(m) && |m.fields| == |fvs|
    requires forall i | 0 <= i < |fvs| :: TypedField(m.fields[i], fvs[i])
    ensures RequiredPresent(o, m.fields, EncodeFields(m.fields, fvs, st)) <==> RequiredWritten(o, m.fields, fvs, st)
  {
    forall i | 0 <= i < |fvs|
      ensures HasMember(EncodeFields(m.fields, fvs, st), Primary(o, m.fields[i])) <==>
              Written(st, m.fields[i], fvs[i]) && WrittenName(st, m.fields[i]) == Primary(o, m.fields[i])
    {
      RequiredMember(o, m, fvs, st, i);
    }
  }

  /** In both modes, for every value and every style of writing: the schema of a
      message accepts the canonical form exactly when the value conforms. */
  lemma CanonicalAccepted(o: Options, m: Message, v: Value, st: Style)
    requires WellFormed(m) && Typed(MessageElem(m), v)
    ensures Accepts(MessageSchema(o, m), Encode(MessageElem(m), v, st)) <==>
            ConformsMessage(o, m.fields, v.fields, st)
  {
    MessageAccepted(o, m, v.fields, st);
  }
}
