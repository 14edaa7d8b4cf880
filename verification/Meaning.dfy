/** What the schema of a message accepts, of all JSON values: `MessageAllows`, a
    recursion over descriptor and value that names no part of the generator.
    `SchemaMeans` proves that the generated schema accepts exactly that, in both
    modes. */
module Meaning {
  import opened Json
  import opened JsonSchema
  import opened Descriptors
  import opened Generator
  import opened TextValidation
  import Int = IntValidation
  import Enum = EnumValidation

  /** An element with its rules, if they count (`ruled`), and with its field's
      `required`; `zeroIgnored` says that the rules skip zero values. */
  ghost predicate Allows(
      o: Options, e: Elem, ruled: bool, required: bool, presence: bool, implicit: bool, zeroIgnored: bool, j: Json)
    decreases e, 0
  {
    match e
    case BoolElem(r) =>
      j.Bool? && if required && !presence then j.b else ruled && r.constant.Some? ==> j.b == r.constant.value
    case IntElem(t, r) => Int.IntAllowed(o.strict, o.string64, t, if ruled then r else None, j)
    case EnumElem(values, r) =>
      Enum.EnumAllowed(o.strict, values, presence || implicit, required && !zeroIgnored,
                       if ruled then r else Enum.NO_ENUM_RULES, j)
    case StringElem(r) => j.Str? && (ruled && r.Some? ==> StringAllowed(required, r.value, j.s))
    case BytesElem(r) => j.Str? && BytesAllowed(required, if ruled then r else None, j.s)
    case MessageElem(m) => MessageAllows(o, m, j)
  }

  /** A list within its limits, a map whose keys and values are allowed, or one
      element. The rule `ignore: always` drops all rules of the field. */
  ghost predicate FieldAllows(o: Options, f: Field, j: Json)
    decreases f, 0
  {
    var ruled := f.ignore != Always;
    match f.shape
    case Singular(e, presence) =>
      Allows(o, e, ruled, ruled && f.required, presence, false, f.ignore == IfZeroValue, j)
    case Repeated(e, rules, minItems, maxItems) =>
      && j.Arr?
      && (ruled && minItems.Some? ==> minItems.value <= |j.items|)
      && (ruled && maxItems.Some? ==> |j.items| <= maxItems.value)
      && forall i | 0 <= i < |j.items| ::
           Allows(o, e, ruled, ruled && rules.required, false, true, false, j.items[i])
    case MapOf(k, keyRules, e, valueRules, presence) =>
      && j.Obj?
      && forall i | 0 <= i < |j.members| ::
           && Allows(o, k, ruled, ruled && keyRules.required, presence, true, false, Str(j.members[i].name))
           && Allows(o, e, ruled, ruled && valueRules.required, presence, true, false, j.members[i].value)
  }

  /** The field has to be there: a rule says so, or the mode is strict and the field
      has no presence. */
  predicate Asked(o: Options, f: Field) {
    && f.visibility != Omit
    && ((f.required && f.ignore == Unspecified) || (o.strict && f.shape.Singular? && !f.shape.presence))
  }

  /** An object with every field that has to be there, under its first name, and
      with members that are allowed: each under a name of a field is allowed by
      that field, and others only with additional properties. */
  ghost predicate MessageAllows(o: Options, m: Message, j: Json)
    decreases m, 1
  {
    && j.Obj?
    && (forall i | 0 <= i < |m.fields| && Asked(o, m.fields[i]) ::
          HasMember(j.members, if o.useJsonNames then m.fields[i].jsonName else m.fields[i].name))
    && forall k | 0 <= k < |j.members| :: MemberAllowed(o, m, j.members[k])
  }

  ghost predicate MemberAllowed(o: Options, m: Message, mem: Member)
    decreases m, 0
  {
    && (forall i | 0 <= i < |m.fields| && AcceptsName(o, m.fields[i], mem.name) ::
          FieldAllows(o, m.fields[i], mem.value))
    && ((forall i | 0 <= i < |m.fields| :: !AcceptsName(o, m.fields[i], mem.name)) ==> o.additionalProperties)
  }

  // ----- The generated schema says the same

  lemma BoolMeans(o: Options, f: Field, e: Elem, u: Use, j: Json)
    requires e.BoolElem?
    ensures Accepts(LeafSchema(o, Counted(f, e), u), j) <==>
            Allows(o, e, f.ignore != Always, u.required, u.presence, u.implicit, u.ifZero, j)
  {
    BoolMeaning(u.presence, u.required, Counted(f, e).boolRules, j);
  }

  lemma IntMeans(o: Options, f: Field, e: Elem, u: Use, j: Json)
    requires e.IntElem? && LeafFits(e)
    ensures Accepts(LeafSchema(o, Counted(f, e), u), j) <==>
            Allows(o, e, f.ignore != Always, u.required, u.presence, u.implicit, u.ifZero, j)
  {
    var rules := if f.ignore != Always then e.intRules else None;
    assert LeafSchema(o, Counted(f, e), u) == Int.IntSchema(o.strict, o.string64, e.t, rules);
    Int.IntExact(o.strict, o.string64, e.t, rules, j);
  }

  lemma EnumLeafSchema(o: Options, f: Field, e: Elem, u: Use, rules: Enum.EnumRules)
    requires e.EnumElem? && rules == if f.ignore != Always then e.enumRules else Enum.NO_ENUM_RULES
    ensures LeafSchema(o, Counted(f, e), u) ==
            Enum.EnumSchema(o.strict, e.values,
                            Enum.ZeroUseOf(o.strict, u.presence || u.implicit, u.required && !u.ifZero), rules)
  {
  }

  lemma EnumAllows(o: Options, e: Elem, ruled: bool, u: Use, j: Json)
    requires e.EnumElem?
    ensures Allows(o, e, ruled, u.required, u.presence, u.implicit, u.ifZero, j) <==>
            Enum.EnumAllowed(o.strict, e.values, u.presence || u.implicit, u.required && !u.ifZero,
                             if ruled then e.enumRules else Enum.NO_ENUM_RULES, j)
  {
  }

  lemma EnumMeans(o: Options, f: Field, e: Elem, u: Use, j: Json)
    requires e.EnumElem?
    ensures Accepts(LeafSchema(o, Counted(f, e), u), j) <==>
            Allows(o, e, f.ignore != Always, u.required, u.presence, u.implicit, u.ifZero, j)
  {
    var rules := if f.ignore != Always then e.enumRules else Enum.NO_ENUM_RULES;
    EnumLeafSchema(o, f, e, u, rules);
    Enum.EnumExact(o.strict, e.values, u.presence || u.implicit, u.required && !u.ifZero, rules, j);
    EnumAllows(o, e, f.ignore != Always, u, j);
  }

  lemma StringMeans(o: Options, f: Field, e: Elem, u: Use, j: Json)
    requires e.StringElem?
    ensures Accepts(LeafSchema(o, Counted(f, e), u), j) <==>
            Allows(o, e, f.ignore != Always, u.required, u.presence, u.implicit, u.ifZero, j)
  {
    StringMeaning(u.required, Counted(f, e).stringRules, j);
  }

  lemma BytesMeans(o: Options, f: Field, e: Elem, u: Use, j: Json)
    requires e.BytesElem?
    ensures Accepts(LeafSchema(o, Counted(f, e), u), j) <==>
            Allows(o, e, f.ignore != Always, u.required, u.presence, u.implicit, u.ifZero, j)
  {
    var rules := if f.ignore != Always then e.bytesRules else None;
    assert LeafSchema(o, Counted(f, e), u) == BytesSchema(u.required, rules);
    BytesMeaning(u.required, rules, j);
  }

  lemma LeafMeans(o: Options, f: Field, e: Elem, u: Use, j: Json)
    requires !e.MessageElem? && LeafFits(e)
    ensures Accepts(LeafSchema(o, Counted(f, e), u), j) <==>
            Allows(o, e, f.ignore != Always, u.required, u.presence, u.implicit, u.ifZero, j)
  {
    match e
    case BoolElem(_) => BoolMeans(o, f, e, u, j);
    case IntElem(_, _) => IntMeans(o, f, e, u, j);
    case EnumElem(_, _) => EnumMeans(o, f, e, u, j);
    case StringElem(_) => StringMeans(o, f, e, u, j);
    case BytesElem(_) => BytesMeans(o, f, e, u, j);
  }

  lemma {:induction false} ElemMeans(o: Options, f: Field, e: Elem, u: Use, j: Json)
    requires WellFormedElem(e)
    ensures Accepts(ElemSchema(o, f, e, u), j) <==>
            Allows(o, e, f.ignore != Always, u.required, u.presence, u.implicit, u.ifZero, j)
    decreases e, 0
  {
    if e.MessageElem? {
      SchemaMeans(o, e.message, j);
    } else {
      LeafMeans(o, f, e, u, j);
    }
  }

  lemma {:induction false} ListMeans(o: Options, f: Field, j: Json)
    requires WellFormedField(f) && f.shape.Repeated?
    ensures Accepts(FieldSchema(o, f), j) <==> FieldAllows(o, f, j)
    decreases f, 0
  {
    var e := f.shape.items;
    ListMeaning(ElemSchema(o, f, e, ItemUse(f)), if f.Ruled() then f.shape.minItems else None,
                if f.Ruled() then f.shape.maxItems else None, j);
    if j.Arr? {
      forall i | 0 <= i < |j.items|
        ensures Accepts(ElemSchema(o, f, e, ItemUse(f)), j.items[i]) <==>
                Allows(o, e, f.ignore != Always, f.ignore != Always && f.shape.itemRules.required,
                       false, true, false, j.items[i])
      {
        ElemMeans(o, f, e, ItemUse(f), j.items[i]);
      }
    }
  }

  lemma {:induction false} MapMeans(o: Options, f: Field, j: Json)
    requires WellFormedField(f) && f.shape.MapOf?
    ensures Accepts(FieldSchema(o, f), j) <==> FieldAllows(o, f, j)
    decreases f, 0
  {
    var k, e := f.shape.key, f.shape.value;
    MapMeaning(ElemSchema(o, f, k, KeyUse(f)), ElemSchema(o, f, e, ValueUse(f)), j);
    if j.Obj? {
      forall i | 0 <= i < |j.members|
        ensures Accepts(ElemSchema(o, f, k, KeyUse(f)), Str(j.members[i].name)) <==>
                Allows(o, k, f.ignore != Always, f.ignore != Always && f.shape.keyRules.required,
                       f.shape.entryPresence, true, false, Str(j.members[i].name))
        ensures Accepts(ElemSchema(o, f, e, ValueUse(f)), j.members[i].value) <==>
                Allows(o, e, f.ignore != Always, f.ignore != Always && f.shape.valueRules.required,
                       f.shape.entryPresence, true, false, j.members[i].value)
      {
        ElemMeans(o, f, k, KeyUse(f), Str(j.members[i].name));
        ElemMeans(o, f, e, ValueUse(f), j.members[i].value);
      }
    }
  }

  lemma {:induction false} FieldMeans(o: Options, f: Field, j: Json)
    requires WellFormedField(f)
    ensures Accepts(FieldSchema(o, f), j) <==> FieldAllows(o, f, j)
    decreases f, 1
  {
    match f.shape
    case Singular(e, _) => ElemMeans(o, f, e, SingularUse(f), j);
    case Repeated(_, _, _, _) => ListMeans(o, f, j);
    case MapOf(_, _, _, _, _) => MapMeans(o, f, j);
  }

  lemma {:induction false} MemberMeans(o: Options, m: Message, mem: Member)
    requires WellFormed(m)
    ensures MemberOk(MessageSchema(o, m).objects, mem) <==> MemberAllowed(o, m, mem)
    decreases m, 0
  {
    if i :| 0 <= i < |m.fields| && m.fields[i].Named(mem.name) {
      MemberMeaning(o, m, i, mem);
      FieldMeans(o, m.fields[i], mem.value);
      assert forall h | 0 <= h < |m.fields| && AcceptsName(o, m.fields[h], mem.name) :: h == i;
    } else {
      UnknownMemberMeaning(o, m, mem);
    }
  }

  lemma AskedMeans(o: Options, m: Message, members: seq<Member>)
    ensures RequiredPresent(o, m.fields, members) <==>
            forall i | 0 <= i < |m.fields| && Asked(o, m.fields[i]) ::
              HasMember(members, if o.useJsonNames then m.fields[i].jsonName else m.fields[i].name)
  {
    forall i | 0 <= i < |m.fields|
      ensures InRequired(o, m.fields[i]) <==> Asked(o, m.fields[i])
    {
    }
  }

  /** For every message, mode and JSON value: the generated schema accepts the value
      if and only if the message allows it. */
  lemma {:induction false} SchemaMeans(o: Options, m: Message, j: Json)
    requires WellFormed(m)
    ensures Accepts(MessageSchema(o, m), j) <==> MessageAllows(o, m, j)
    decreases m, 1
  {
    MessageMeaning(o, m, j);
    if j.Obj? {
      AskedMeans(o, m, j.members);
      forall k | 0 <= k < |j.members|
        ensures MemberOk(MessageSchema(o, m).objects, j.members[k]) <==> MemberAllowed(o, m, j.members[k])
      {
        MemberMeans(o, m, j.members[k]);
      }
    }
  }

  // ----- What is offered

  /** The properties that a schema offers are the first names of the visible fields,
      and its patterns are made of the further names, and of all names of hidden
      fields, outside strict mode. */
  lemma OffersIff(o: Options, m: Message, n: string, p: Pattern)
    requires NamesApart(m.fields)
    ensures n in MessageSchema(o, m).objects.properties <==>
            exists i | 0 <= i < |m.fields| ::
              && m.fields[i].visibility == Visible
              && n == if o.useJsonNames then m.fields[i].jsonName else m.fields[i].name
    ensures p in MessageSchema(o, m).objects.patternProperties <==>
            exists i | 0 <= i < |m.fields| :: !o.strict && PatternFor(o, m.fields[i], p)
  {
    PropertiesOf(o, m.fields, n);
    PatternOwner(o, m.fields, p);
    forall i | 0 <= i < |m.fields|
      ensures OwnsPattern(o, m.fields[i], p) <==> !o.strict && PatternFor(o, m.fields[i], p)
    {
    }
  }

  predicate PatternFor(o: Options, f: Field, p: Pattern) {
    var first := if o.useJsonNames then f.jsonName else f.name;
    var second := if o.useJsonNames then f.name else f.jsonName;
    || (f.visibility == Hide && p == Exactly(if first == second then [first] else [first, second]))
    || (f.visibility == Visible && first != second && p == Exactly([second]))
  }
}
