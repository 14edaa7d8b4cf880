/** When does the schema of a message accept the canonical ProtoJSON form of a value
    that satisfies its rules?

    `ExpressibleMessage` lists the conditions, each one a test on a single place of
    the descriptor and the value. `CanonicalForm` proves that they are exactly
    right, in both modes. `NoFalseRejects` names the descriptors all of whose valid
    values are accepted. */
module NoFalseRejects {
  import opened Json
  import opened JsonSchema
  import opened Descriptors
  import opened Generator
  import opened ProtoJson
  import opened Conformance
  import opened TextValidation
  import Int = IntValidation
  import Enum = EnumValidation
  import Base64

  // ----- Scalars that satisfy their rules

  /** What can go wrong with a scalar that satisfies its rules. A bool, string or
      bytes element that is required must not be empty although only presence
      was asked for; a string with len_bytes alone must be empty; an enum number
      allowed by const or in must be declared. In strict mode every enum number
      must be, and a 64-bit integer is a string only if nothing else is allowed. */
  predicate ExpressibleLeaf(o: Options, e: Elem, u: Use, v: Value)
    requires TypedLeaf(e, v)
  {
    match e
    case BoolElem(_) => !u.presence && u.required ==> v.b
    case EnumElem(values, r) => o.strict || r.constant.Some? || r.allowed != [] ==> Enum.Declares(values, v.number)
    case IntElem(t, _) => t.Wide() ==> TextAccepted(o, t)
    case StringElem(r) => !StringTrap(u.required, r, v.s)
    case BytesElem(r) => !BytesTrap(u.required, r, v.bytes)
  }

  /** A bool key is never expressible: its name would have to be a boolean. In
      strict mode an integer key is a string like a 64-bit integer. */
  predicate ExpressibleKey(o: Options, k: Elem, u: Use, v: Value)
    requires KeyElem(k) && TypedLeaf(k, v)
  {
    match k
    case BoolElem(_) => false
    case IntElem(t, _) => TextAccepted(o, t)
    case StringElem(r) => !StringTrap(u.required, r, v.s)
  }

  /** A required element without presence is not zero. */
  predicate RequiredNonZero(u: Use, v: Value) {
    !u.presence && !u.implicit && u.required ==> !IsZero(v)
  }

  lemma EnumAgrees(o: Options, values: seq<Enum.EnumValue>, r: Enum.EnumRules, u: Use, n: int)
    requires Enum.IsInt32(n) && Enum.Satisfies(r, values, n) && RequiredNonZero(u, EnumV(n))
    ensures ConformsLeaf(o, EnumElem(values, r), u, EnumV(n)) <==> ExpressibleLeaf(o, EnumElem(values, r), u, EnumV(n))
  {
    assert Enum.Survives(ZeroUse(o, u), r, n);
    if Enum.Declares(values, n) {
      var name := NameOf(values, n).value;
      var i :| 0 <= i < |values| && values[i].name == name && values[i].number == n;
      assert Enum.SurvivingName(values, ZeroUse(o, u), r, name);
    }
  }

  lemma StringAgrees(required: bool, r: StringRules, s: string)
    requires SatisfiesString(r, s)
    ensures ConformsString(required, r, s) <==> !StringTrap(required, Some(r), s)
  {
    StringAccepted(required, Some(r), s);
    StringExact(required, Some(r), s);
  }

  lemma LeafAgrees(o: Options, e: Elem, u: Use, v: Value)
    requires LeafFits(e) && TypedLeaf(e, v) && SatisfiesLeaf(e, v) && RequiredNonZero(u, v)
    ensures ConformsLeaf(o, e, u, v) <==> ExpressibleLeaf(o, e, u, v)
  {
    match e
    case BoolElem(_) =>
    case EnumElem(values, r) => EnumAgrees(o, values, r, u, v.number);
    case IntElem(t, r) =>
      if !t.Wide() && r.Some? {
        Int.SatisfyingAccepted(o.strict, t, r.value, v.n);
        Int.RuledMeaning(o.strict, t, r.value, Json.Int(v.n));
      }
    case StringElem(r) =>
      if r.Some? {
        StringAgrees(u.required, r.value, v.s);
      }
    case BytesElem(r) =>
      if r.Some? {
        TextBounds(u.required, r.value, v.bytes);
      }
  }

  lemma KeyAgrees(o: Options, k: Elem, u: Use, v: Value)
    requires KeyElem(k) && TypedLeaf(k, v) && SatisfiesLeaf(k, v)
    ensures ConformsKey(o, k, u, v) <==> ExpressibleKey(o, k, u, v)
  {
    if k.StringElem? && k.stringRules.Some? {
      StringAgrees(u.required, k.stringRules.value, v.s);
    }
  }

  // ----- Messages that satisfy their rules

  /** Where rules do not count, the value must conform to the schema all the same:
      the schema holds rules of items, keys, values and inner messages that are to
      be ignored. */
  predicate ExpressibleElem(o: Options, f: Field, e: Elem, u: Use, ignore: Ignore, v: Value, st: Style)
    requires Typed(e, v)
    decreases v, 1
  {
    if Exempt(ignore, v) then Conforms(o, f, e, u, v, st) else Expressible(o, e, u, v, st)
  }

  predicate ExpressibleMapKey(o: Options, f: Field, k: Elem, u: Use, ignore: Ignore, v: Value)
    requires Typed(k, v)
  {
    KeyElem(k) && if Exempt(ignore, v) then ConformsKey(o, Counted(f, k), u, v) else ExpressibleKey(o, k, u, v)
  }

  predicate Expressible(o: Options, e: Elem, u: Use, v: Value, st: Style)
    requires Typed(e, v)
    decreases v, 0
  {
    if e.MessageElem? then ExpressibleMessage(o, e.message.fields, v.fields, st) else ExpressibleLeaf(o, e, u, v)
  }

  /** A written field goes by a name of its schema, unless additional properties are
      allowed, and every required field is written under the name that the schema
      asks for. In strict mode a hidden field has no such name, and a field without
      presence is required. */
  predicate ExpressibleMessage(o: Options, fields: seq<Field>, fvs: seq<FieldValue>, st: Style)
    requires |fields| == |fvs|
    requires forall i | 0 <= i < |fields| :: TypedField(fields[i], fvs[i])
    decreases fvs
  {
    && (forall i | 0 <= i < |fields| && Written(st, fields[i], fvs[i]) :: ExpressibleWritten(o, fields[i], fvs[i], st))
    && RequiredWritten(o, fields, fvs, st)
  }

  predicate ExpressibleWritten(o: Options, f: Field, fv: FieldValue, st: Style)
    requires TypedField(f, fv) && !fv.Unset?
    decreases fv, 1
  {
    if AcceptsName(o, f, WrittenName(st, f)) then ExpressibleField(o, f, fv, st) else o.additionalProperties
  }

  predicate ExpressibleField(o: Options, f: Field, fv: FieldValue, st: Style)
    requires TypedField(f, fv) && !fv.Unset?
    decreases fv, 0
  {
    if ExemptField(f, fv) then ConformsField(o, f, fv, st)
    else match f.shape
      case Singular(e, _) => Expressible(o, e, SingularUse(f), fv.value, st)
      case Repeated(e, rules, _, _) =>
        forall i | 0 <= i < |fv.values| :: ExpressibleElem(o, f, e, ItemUse(f), rules.ignore, fv.values[i], st)
      case MapOf(_, _, _, _, _) => forall i | 0 <= i < |fv.entries| :: ExpressibleEntry(o, f, fv.entries[i], st)
  }

  predicate ExpressibleEntry(o: Options, f: Field, entry: Entry, st: Style)
    requires f.shape.MapOf? && Typed(f.shape.key, entry.key) && Typed(f.shape.value, entry.value)
    decreases entry
  {
    && ExpressibleMapKey(o, f, f.shape.key, KeyUse(f), f.shape.keyRules.ignore, entry.key)
    && ExpressibleElem(o, f, f.shape.value, ValueUse(f), f.shape.valueRules.ignore, entry.value, st)
  }

  lemma {:induction false} ElemAgrees(o: Options, f: Field, e: Elem, u: Use, v: Value, st: Style)
    requires WellFormedElem(e) && Typed(e, v) && Satisfies(e, v) && f.Ruled()
    requires e.MessageElem? || RequiredNonZero(u, v)
    ensures Conforms(o, f, e, u, v, st) <==> Expressible(o, e, u, v, st)
    decreases v, 0
  {
    if e.MessageElem? {
      MessageAgrees(o, e.message, v.fields, st);
    } else {
      LeafAgrees(o, e, u, v);
    }
  }

  lemma {:induction false} EntryAgrees(o: Options, f: Field, entry: Entry, st: Style)
    requires WellFormedField(f) && f.shape.MapOf? && f.Ruled()
    requires Typed(f.shape.key, entry.key) && Typed(f.shape.value, entry.value)
    requires Exempt(f.shape.keyRules.ignore, entry.key) || Satisfies(f.shape.key, entry.key)
    requires Exempt(f.shape.valueRules.ignore, entry.value) || Satisfies(f.shape.value, entry.value)
    ensures ConformsEntry(o, f, entry, st) <==> ExpressibleEntry(o, f, entry, st)
    decreases entry
  {
    if !Exempt(f.shape.keyRules.ignore, entry.key) {
      KeyAgrees(o, f.shape.key, KeyUse(f), entry.key);
    }
    if !Exempt(f.shape.valueRules.ignore, entry.value) {
      ElemAgrees(o, f, f.shape.value, ValueUse(f), entry.value, st);
    }
  }

  lemma {:induction false} FieldAgrees(o: Options, f: Field, fv: FieldValue, st: Style)
    requires WellFormedField(f) && TypedField(f, fv) && SatisfiesField(f, fv) && Written(st, f, fv)
    ensures ConformsField(o, f, fv, st) <==> ExpressibleField(o, f, fv, st)
    decreases fv
  {
    if !ExemptField(f, fv) {
      match f.shape
      case Singular(e, _) => ElemAgrees(o, f, e, SingularUse(f), fv.value, st);
      case Repeated(e, rules, _, _) =>
        forall i | 0 <= i < |fv.values|
          ensures Conforms(o, f, e, ItemUse(f), fv.values[i], st) <==>
                  ExpressibleElem(o, f, e, ItemUse(f), rules.ignore, fv.values[i], st)
        {
          if !Exempt(rules.ignore, fv.values[i]) {
            ElemAgrees(o, f, e, ItemUse(f), fv.values[i], st);
          }
        }
      case MapOf(_, _, _, _, _) =>
        forall i | 0 <= i < |fv.entries|
          ensures ConformsEntry(o, f, fv.entries[i], st) <==> ExpressibleEntry(o, f, fv.entries[i], st)
        {
          EntryAgrees(o, f, fv.entries[i], st);
        }
    }
  }

  lemma {:induction false} MessageAgrees(o: Options, m: Message, fvs: seq<FieldValue>, st: Style)
    requires WellFormed(m) && |m.fields| == |fvs|
    requires forall i | 0 <= i < |fvs| :: TypedField(m.fields[i], fvs[i])
    requires forall i | 0 <= i < |fvs| :: SatisfiesField(m.fields[i], fvs[i])
    ensures ConformsMessage(o, m.fields, fvs, st) <==> ExpressibleMessage(o, m.fields, fvs, st)
    decreases fvs
  {
    forall i | 0 <= i < |fvs| && Written(st, m.fields[i], fvs[i])
      ensures ConformsWritten(o, m.fields[i], fvs[i], st) <==> ExpressibleWritten(o, m.fields[i], fvs[i], st)
    {
      FieldAgrees(o, m.fields[i], fvs[i], st);
    }
  }

  /** In both modes, a value that satisfies its rules is accepted in its canonical
      form, defaults written or not, if and only if it is expressible. */
  lemma CanonicalForm(o: Options, m: Message, v: Value, st: Style)
    requires WellFormed(m) && Typed(MessageElem(m), v)
    requires forall i | 0 <= i < |v.fields| :: SatisfiesField(m.fields[i], v.fields[i])
    ensures Accepts(MessageSchema(o, m), Encode(MessageElem(m), v, st)) <==>
            ExpressibleMessage(o, m.fields, v.fields, st)
  {
    CanonicalAccepted(o, m, v, st);
    MessageAgrees(o, m, v.fields, st);
  }

  // ----- Descriptors all of whose valid values are accepted

  predicate FaithfulLeaf(o: Options, e: Elem, u: Use) {
    match e
    case BoolElem(_) => u.presence || !u.implicit || !u.required
    case EnumElem(values, r) =>
      if r.constant.Some? then Enum.Declares(values, r.constant.value)
      else if r.allowed != [] then forall i | 0 <= i < |r.allowed| :: Enum.Declares(values, r.allowed[i])
      else o.strict ==> r.definedOnly
    case IntElem(t, _) => t.Wide() ==> TextAccepted(o, t)
    case StringElem(r) =>
      r.Some? && r.value.len == None ==>
        && (u.required ==> r.value.minLen.GetOr(0) > 0 || (!u.presence && !u.implicit))
        && (r.value.lenBytes.Some? ==> r.value.maxBytes.Some? || r.value.maxLen.Some?)
    case BytesElem(r) =>
      r.Some? ==>
        && (r.value.len == None && r.value.minLen == None && u.required ==> !u.presence && !u.implicit)
        && (if r.value.len.Some? then r.value.len.value < Base64.TWO_TO_62
            else r.value.maxLen.Some? ==> r.value.maxLen.value < Base64.TWO_TO_62)
    case MessageElem(_) => false
  }

  /** An element that any value conforms to. */
  predicate LaxLeaf(o: Options, e: Elem, u: Use) {
    && !e.MessageElem? && e == WithoutRules(e) && !u.required
    && (e.EnumElem? ==> !o.strict)
    && (e.IntElem? && e.t.Wide() ==> TextAccepted(o, e.t))
  }

  /** `ruled` says whether the rules around the element count. */
  predicate FaithfulElem(o: Options, f: Field, e: Elem, u: Use, st: Style, ruled: bool)
    decreases e
  {
    if e.MessageElem? then forall i | 0 <= i < |e.message.fields| :: FaithfulField(o, e.message.fields[i], st, ruled)
    else if ruled then FaithfulLeaf(o, e, u)
    else LaxLeaf(o, Counted(f, e), u)
  }

  predicate FaithfulKey(o: Options, f: Field, k: Elem, u: Use, ruled: bool) {
    && (k.StringElem? || (k.IntElem? && TextAccepted(o, k.t)))
    && if ruled then FaithfulLeaf(o, k, u) else LaxLeaf(o, Counted(f, k), u)
  }

  /** Every value of the field is written. */
  predicate AlwaysWritten(f: Field, st: Style, ruled: bool) {
    (ruled && f.Required()) || (st.defaults && !(f.shape.Singular? && f.shape.presence))
  }

  /** The rules of every written value of the field count. */
  predicate AlwaysRuled(f: Field, st: Style, ruled: bool) {
    ruled && (f.ignore == Unspecified || (f.ignore == IfZeroValue && !st.defaults))
  }

  /** The field goes by a name of its schema, is written as it asks if it is
      required, and has elements whose rules the schema expresses. */
  predicate FaithfulField(o: Options, f: Field, st: Style, ruled: bool)
    decreases f
  {
    var inner := AlwaysRuled(f, st, ruled);
    && (InRequired(o, f) ==> WrittenName(st, f) == Primary(o, f) && AlwaysWritten(f, st, ruled))
    && if !AcceptsName(o, f, WrittenName(st, f)) then o.additionalProperties
       else match f.shape
         case Singular(e, _) => FaithfulElem(o, f, e, SingularUse(f), st, inner)
         case Repeated(e, rules, minItems, maxItems) =>
           && (inner || !f.Ruled() || (minItems == None && maxItems == None))
           && FaithfulElem(o, f, e, ItemUse(f), st, inner && rules.ignore == Unspecified)
         case MapOf(k, keyRules, e, valueRules, _) =>
           && FaithfulKey(o, f, k, KeyUse(f), inner && keyRules.ignore == Unspecified)
           && FaithfulElem(o, f, e, ValueUse(f), st, inner && valueRules.ignore == Unspecified)
  }

  lemma LaxConforms(o: Options, e: Elem, u: Use, v: Value)
    requires LaxLeaf(o, e, u) && TypedLeaf(e, v)
    ensures ConformsLeaf(o, e, u, v)
    ensures KeyElem(e) && (e.StringElem? || (e.IntElem? && TextAccepted(o, e.t))) ==> ConformsKey(o, e, u, v)
  {
    if e.EnumElem? && Enum.Declares(e.values, v.number) {
      var name := NameOf(e.values, v.number).value;
      var i :| 0 <= i < |e.values| && e.values[i].name == name && e.values[i].number == v.number;
      assert Enum.Survives(ZeroUse(o, u), e.enumRules, e.values[i].number);
    }
  }

  lemma FaithfulConforms(o: Options, e: Elem, u: Use, v: Value)
    requires FaithfulLeaf(o, e, u) && LeafFits(e) && TypedLeaf(e, v) && SatisfiesLeaf(e, v) && RequiredNonZero(u, v)
    ensures ConformsLeaf(o, e, u, v)
  {
    LeafAgrees(o, e, u, v);
    if e.EnumElem? && e.enumRules.constant == None && e.enumRules.allowed != [] {
      var i :| 0 <= i < |e.enumRules.allowed| && e.enumRules.allowed[i] == v.number;
    }
  }

  lemma {:induction false} ElemConforms(o: Options, f: Field, e: Elem, u: Use, v: Value, st: Style, ruled: bool)
    requires WellFormedElem(e) && Typed(e, v) && FaithfulElem(o, f, e, u, st, ruled)
    requires ruled ==> f.Ruled() && Satisfies(e, v) && (e.MessageElem? || RequiredNonZero(u, v))
    ensures Conforms(o, f, e, u, v, st)
    decreases v, 0
  {
    if e.MessageElem? {
      MessageConforms(o, e.message, v.fields, st, ruled);
    } else if ruled {
      FaithfulConforms(o, e, u, v);
    } else {
      LaxConforms(o, Counted(f, e), u, v);
    }
  }

  lemma KeyConforms(o: Options, f: Field, k: Elem, u: Use, v: Value, ruled: bool)
    requires KeyElem(k) && WellFormedElem(k) && TypedLeaf(k, v) && FaithfulKey(o, f, k, u, ruled) && u.implicit
    requires ruled ==> f.Ruled() && SatisfiesLeaf(k, v)
    ensures ConformsKey(o, Counted(f, k), u, v)
  {
    if ruled {
      FaithfulConforms(o, k, u, v);
    } else {
      LaxConforms(o, Counted(f, k), u, v);
    }
  }

  lemma {:induction false} FieldConforms(o: Options, f: Field, fv: FieldValue, st: Style, ruled: bool)
    requires WellFormedField(f) && TypedField(f, fv) && Written(st, f, fv) && FaithfulField(o, f, st, ruled)
    requires AcceptsName(o, f, WrittenName(st, f)) && (ruled ==> SatisfiesField(f, fv))
    ensures ConformsField(o, f, fv, st)
    decreases fv
  {
    var inner := AlwaysRuled(f, st, ruled);
    match f.shape
    case Singular(e, _) => ElemConforms(o, f, e, SingularUse(f), fv.value, st, inner);
    case Repeated(e, rules, _, _) =>
      forall i | 0 <= i < |fv.values|
        ensures Conforms(o, f, e, ItemUse(f), fv.values[i], st)
      {
        ElemConforms(o, f, e, ItemUse(f), fv.values[i], st, inner && rules.ignore == Unspecified);
      }
    case MapOf(_, _, _, _, _) =>
      forall i | 0 <= i < |fv.entries|
        ensures ConformsEntry(o, f, fv.entries[i], st)
      {
        EntryConforms(o, f, fv.entries[i], st, inner);
      }
  }

  lemma {:induction false} EntryConforms(o: Options, f: Field, entry: Entry, st: Style, inner: bool)
    requires WellFormedField(f) && f.shape.MapOf?
    requires Typed(f.shape.key, entry.key) && Typed(f.shape.value, entry.value)
    requires FaithfulKey(o, f, f.shape.key, KeyUse(f), inner && f.shape.keyRules.ignore == Unspecified)
    requires FaithfulElem(o, f, f.shape.value, ValueUse(f), st, inner && f.shape.valueRules.ignore == Unspecified)
    requires inner ==>
               && f.Ruled()
               && (Exempt(f.shape.keyRules.ignore, entry.key) || Satisfies(f.shape.key, entry.key))
               && (Exempt(f.shape.valueRules.ignore, entry.value) || Satisfies(f.shape.value, entry.value))
    ensures ConformsEntry(o, f, entry, st)
    decreases entry
  {
    KeyConforms(o, f, f.shape.key, KeyUse(f), entry.key, inner && f.shape.keyRules.ignore == Unspecified);
    ElemConforms(o, f, f.shape.value, ValueUse(f), entry.value, st, inner && f.shape.valueRules.ignore == Unspecified);
  }

  lemma {:induction false} MessageConforms(o: Options, m: Message, fvs: seq<FieldValue>, st: Style, ruled: bool)
    requires WellFormed(m) && |m.fields| == |fvs|
    requires forall i | 0 <= i < |fvs| :: TypedField(m.fields[i], fvs[i])
    requires forall i | 0 <= i < |fvs| :: FaithfulField(o, m.fields[i], st, ruled)
    requires ruled ==> forall i | 0 <= i < |fvs| :: SatisfiesField(m.fields[i], fvs[i])
    ensures ConformsMessage(o, m.fields, fvs, st)
    decreases fvs
  {
    forall i | 0 <= i < |fvs| && Written(st, m.fields[i], fvs[i])
      ensures ConformsWritten(o, m.fields[i], fvs[i], st)
    {
      if AcceptsName(o, m.fields[i], WrittenName(st, m.fields[i])) {
        FieldConforms(o, m.fields[i], fvs[i], st, ruled);
      }
    }
  }

  /** Every value of a faithful descriptor that satisfies its rules is accepted in
      its canonical form, in either mode, through any nesting of lists, maps and
      messages. */
  lemma NoFalseRejects(o: Options, m: Message, v: Value, st: Style)
    requires WellFormed(m) && Typed(MessageElem(m), v)
    requires forall i | 0 <= i < |m.fields| :: FaithfulField(o, m.fields[i], st, true)
    requires forall i | 0 <= i < |v.fields| :: SatisfiesField(m.fields[i], v.fields[i])
    ensures Accepts(MessageSchema(o, m), Encode(MessageElem(m), v, st))
  {
    CanonicalAccepted(o, m, v, st);
    MessageConforms(o, m, v.fields, st, true);
  }

  // ----- Inputs that are rejected outside strict mode

  const TOOL_OPTIONS: Options := Options(false, false, false, false)

  const PROTO_NAMES: Style := Style(true, false)

  const JSON_NAMES: Style := Style(false, false)

  /** The message with one visible field and its value. */
  ghost predicate Rejected(f: Field, fv: FieldValue, st: Style) {
    && WellFormed(Message([f])) && TypedField(f, fv) && SatisfiesField(f, fv)
    && Typed(MessageElem(Message([f])), MessageV([fv]))
    && !Accepts(MessageSchema(TOOL_OPTIONS, Message([f])), Encode(MessageElem(Message([f])), MessageV([fv]), st))
  }

  lemma RejectedWhen(f: Field, fv: FieldValue, st: Style)
    requires WellFormedField(f) && TypedField(f, fv) && SatisfiesField(f, fv)
    requires f.visibility == Visible && Populated(f, fv)
    requires !ConformsField(TOOL_OPTIONS, f, fv, st) ||
             (f.Required() && WrittenName(st, f) != Primary(TOOL_OPTIONS, f))
    ensures Rejected(f, fv, st)
  {
    var m, v := Message([f]), MessageV([fv]);
    assert m.fields[0] == f && v.fields[0] == fv;
    CanonicalAccepted(TOOL_OPTIONS, m, v, st);
    assert !ConformsWritten(TOOL_OPTIONS, m.fields[0], v.fields[0], st) ||
           !RequiredWritten(TOOL_OPTIONS, m.fields, v.fields, st);
  }

  function PlainField(shape: Shape): Field {
    Field("a", "a", Visible, false, Unspecified, shape)
  }

  const ONE_BYTE: StringRules := StringRules(None, None, None, Some(1), None, None, None, [], [])

  /** A string of the right len_bytes: the generator takes maxLength from
      max_bytes, which is not set. */
  lemma LenBytesRejects()
    ensures Rejected(PlainField(Singular(StringElem(Some(ONE_BYTE)), false)), One(StringV("x")), PROTO_NAMES)
  {
    var f := PlainField(Singular(StringElem(Some(ONE_BYTE)), false));
    assert Utf8Length("x"[..0]) == 0 && Utf8Length("x") == 1;
    RejectedWhen(f, One(StringV("x")), PROTO_NAMES);
  }

  /** Any entry of a map with bool keys. */
  lemma BoolKeyRejects()
    ensures var any := BoolElem(BoolRules(None));
            Rejected(PlainField(MapOf(any, NO_ITEM_RULES, any, NO_ITEM_RULES, false)),
                     Entries([Entry(BoolV(true), BoolV(true))]), PROTO_NAMES)
  {
    var any, entry := BoolElem(BoolRules(None)), Entry(BoolV(true), BoolV(true));
    var f := PlainField(MapOf(any, NO_ITEM_RULES, any, NO_ITEM_RULES, false));
    assert !ConformsEntry(TOOL_OPTIONS, f, [entry][0], PROTO_NAMES);
    RejectedWhen(f, Entries([entry]), PROTO_NAMES);
  }

  /** A required field under its JSON name, while the schema asks for the proto
      name. */
  lemma OtherNameRejects()
    ensures Rejected(Field("a_b", "aB", Visible, true, Unspecified, Singular(BoolElem(BoolRules(None)), false)),
                     One(BoolV(true)), JSON_NAMES)
  {
    RejectedWhen(Field("a_b", "aB", Visible, true, Unspecified, Singular(BoolElem(BoolRules(None)), false)),
                 One(BoolV(true)), JSON_NAMES);
  }

  /** An undeclared enum number that the rule `in` allows. */
  lemma UndeclaredNumberRejects()
    ensures var zeroOrSeven := EnumElem([Enum.EnumValue("ZERO", 0)], Enum.EnumRules(None, false, [0, 7], []));
            Rejected(PlainField(Singular(zeroOrSeven, false)), One(EnumV(7)), PROTO_NAMES)
  {
    var zeroOrSeven := EnumElem([Enum.EnumValue("ZERO", 0)], Enum.EnumRules(None, false, [0, 7], []));
    RejectedWhen(PlainField(Singular(zeroOrSeven, false)), One(EnumV(7)), PROTO_NAMES);
  }

  const LONG: StringRules := StringRules(None, Some(5), None, None, None, None, None, [], [])

  /** A list item whose rules are to be ignored: the schema holds them all the same. */
  lemma IgnoredItemRejects()
    ensures Rejected(PlainField(Repeated(StringElem(Some(LONG)), ItemRules(false, Always), None, None)),
                     Many([StringV("a")]), PROTO_NAMES)
  {
    var f := PlainField(Repeated(StringElem(Some(LONG)), ItemRules(false, Always), None, None));
    assert !Conforms(TOOL_OPTIONS, f, f.shape.items, ItemUse(f), [StringV("a")][0], PROTO_NAMES);
    RejectedWhen(f, Many([StringV("a")]), PROTO_NAMES);
  }

  /** A message field that is to be ignored: the schema holds the rules inside. */
  lemma IgnoredMessageRejects()
    ensures var inner := Message([PlainField(Singular(StringElem(Some(LONG)), false))]);
            Rejected(Field("m", "m", Visible, false, Always, Singular(MessageElem(inner), true)),
                     One(MessageV([One(StringV("a"))])), PROTO_NAMES)
  {
    var a := PlainField(Singular(StringElem(Some(LONG)), false));
    var inner, fvs := Message([a]), [One(StringV("a"))];
    var f := Field("m", "m", Visible, false, Always, Singular(MessageElem(inner), true));
    assert inner.fields[0] == a && fvs[0] == One(StringV("a"));
    assert WellFormedField(a) && WellFormed(inner);
    assert !ConformsWritten(TOOL_OPTIONS, inner.fields[0], fvs[0], PROTO_NAMES);
    assert !ConformsMessage(TOOL_OPTIONS, inner.fields, fvs, PROTO_NAMES);
    RejectedWhen(f, One(MessageV(fvs)), PROTO_NAMES);
  }

  // ----- Inputs that are rejected in strict mode

  /** The canonical form of a 64-bit integer, whatever its rules, unless the option
      for strings is on. */
  lemma StrictRejectsWideText(t: Int.IntType, r: Option<Int.IntRules>, n: int)
    requires t.Wide() && t.Holds(n)
    ensures !Accepts(Int.IntSchema(true, false, t, r), Str(SignedDecimal(n)))
  {
    IntText(Options(false, false, false, true), t, r, n);
  }

  /** A hidden field that strict mode requires leaves nothing to accept, unless
      additional properties are on. */
  lemma HiddenRequiredRejectsAll(o: Options, m: Message, i: nat, j: Json)
    requires o.strict && !o.additionalProperties && NamesApart(m.fields) && i < |m.fields|
    requires m.fields[i].visibility == Hide && InRequired(o, m.fields[i])
    ensures !Accepts(MessageSchema(o, m), j)
  {
    MessageMeaning(o, m, j);
    if j.Obj? && HasMember(j.members, Primary(o, m.fields[i])) {
      var k :| 0 <= k < |j.members| && j.members[k].name == Primary(o, m.fields[i]);
      MemberMeaning(o, m, i, j.members[k]);
    }
  }
}
