/** Strict mode asks for pre-normalised input (buf/jsonschema.go:92-114), so what
    it accepts should be accepted outside strict mode too. */
module StrictMode {
  import opened Json
  import opened JsonSchema
  import opened Descriptors
  import opened Generator
  import opened TextValidation
  import Int = IntValidation
  import Enum = EnumValidation

  /** In every message, ignored fields aside, no two fields share a name. */
  predicate ApartElem(e: Elem)
    decreases e
  {
    e.MessageElem? ==> Apart(e.message)
  }

  predicate ApartField(f: Field)
    decreases f
  {
    match f.shape
    case Singular(e, _) => ApartElem(e)
    case Repeated(e, _, _, _) => ApartElem(e)
    case MapOf(k, _, e, _, _) => !k.MessageElem? && ApartElem(e)
  }

  predicate Apart(m: Message)
    decreases m
  {
    && NamesApart(m.fields)
    && forall i | 0 <= i < |m.fields| && m.fields[i].visibility != Omit :: ApartField(m.fields[i])
  }

  /** Some name of the field is an alias: accepted outside strict mode only. */
  predicate HasAlias(f: Field) {
    f.visibility == Hide || (f.visibility == Visible && f.name != f.jsonName)
  }

  predicate MessageHasAlias(m: Message) {
    exists i | 0 <= i < |m.fields| :: HasAlias(m.fields[i])
  }

  /** The value contains, at some depth, an object of a message type with an
      alias: itself, a field, a list item or a map value. */
  ghost predicate AliasInElem(o: Options, e: Elem, j: Json)
    decreases e
  {
    e.MessageElem? && AliasInside(o, e.message, j)
  }

  ghost predicate AliasInField(o: Options, f: Field, j: Json)
    decreases f
  {
    match f.shape
    case Singular(e, _) => AliasInElem(o, e, j)
    case Repeated(e, _, _, _) => j.Arr? && exists i | 0 <= i < |j.items| :: AliasInElem(o, e, j.items[i])
    case MapOf(_, _, e, _, _) => j.Obj? && exists i | 0 <= i < |j.members| :: AliasInElem(o, e, j.members[i].value)
  }

  ghost predicate AliasInMember(o: Options, m: Message, mem: Member)
    decreases m, 0
  {
    exists i | 0 <= i < |m.fields| && AcceptsName(Strict(o), m.fields[i], mem.name) ::
      AliasInField(o, m.fields[i], mem.value)
  }

  ghost predicate AliasInside(o: Options, m: Message, j: Json)
    decreases m, 1
  {
    j.Obj? && (MessageHasAlias(m) || exists k | 0 <= k < |j.members| :: AliasInMember(o, m, j.members[k]))
  }

  function Strict(o: Options): Options { o.(strict := true) }

  function Lenient(o: Options): Options { o.(strict := false) }

  lemma IntRefines(string64: bool, t: Int.IntType, r: Option<Int.IntRules>, j: Json)
    requires SafeIntegers(j) && Accepts(Int.IntSchema(true, string64, t, r), j)
    ensures Accepts(Int.IntSchema(false, string64, t, r), j)
  {
    if string64 && t.Wide() {
    } else if r.Some? {
      Int.RuledMeaning(true, t, r.value, j);
      Int.RuledMeaning(false, t, r.value, j);
    } else {
      Int.PlainMeaning(true, string64, t, j);
      Int.PlainMeaning(false, string64, t, j);
    }
  }

  lemma EnumRefines(values: seq<Enum.EnumValue>, tracks: bool, required: bool, r: Enum.EnumRules, j: Json)
    requires Accepts(Enum.EnumSchema(true, values, Enum.ZeroUseOf(true, tracks, required), r), j)
    ensures Accepts(Enum.EnumSchema(false, values, Enum.ZeroUseOf(false, tracks, required), r), j)
  {
    var strict, lenient := Enum.ZeroUseOf(true, tracks, required), Enum.ZeroUseOf(false, tracks, required);
    Enum.EnumMeaning(true, values, strict, r, j);
    Enum.EnumMeaning(false, values, lenient, r, j);
    assert forall n :: Enum.Survives(strict, r, n) <==> Enum.Survives(lenient, r, n);
  }

  lemma IntLeaf(o: Options, e: Elem, u: Use)
    requires e.IntElem?
    ensures LeafSchema(o, e, u) == Int.IntSchema(o.strict, o.string64, e.t, e.intRules)
  {
  }

  lemma EnumLeaf(o: Options, e: Elem, u: Use)
    requires e.EnumElem?
    ensures LeafSchema(o, e, u) ==
            Enum.EnumSchema(o.strict, e.values,
                            Enum.ZeroUseOf(o.strict, u.presence || u.implicit, u.required && !u.ifZero), e.enumRules)
  {
  }

  /** The other kinds do not depend on the mode. */
  lemma SameLeaf(o: Options, e: Elem, u: Use)
    requires e.BoolElem? || e.StringElem? || e.BytesElem?
    ensures LeafSchema(Strict(o), e, u) == LeafSchema(Lenient(o), e, u)
  {
  }

  lemma LeafRefines(o: Options, e: Elem, u: Use, j: Json)
    requires !e.MessageElem? && SafeIntegers(j) && Accepts(LeafSchema(Strict(o), e, u), j)
    ensures Accepts(LeafSchema(Lenient(o), e, u), j)
  {
    if e.IntElem? {
      IntLeaf(Strict(o), e, u);
      IntLeaf(Lenient(o), e, u);
      IntRefines(o.string64, e.t, e.intRules, j);
    } else if e.EnumElem? {
      EnumLeaf(Strict(o), e, u);
      EnumLeaf(Lenient(o), e, u);
      EnumRefines(e.values, u.presence || u.implicit, u.required && !u.ifZero, e.enumRules, j);
    } else {
      SameLeaf(o, e, u);
    }
  }

  lemma {:induction false} ElemRefines(o: Options, f: Field, e: Elem, u: Use, j: Json)
    requires ApartElem(e) && (o.additionalProperties ==> !AliasInElem(o, e, j))
    requires SafeIntegers(j) && Accepts(ElemSchema(Strict(o), f, e, u), j)
    ensures Accepts(ElemSchema(Lenient(o), f, e, u), j)
    decreases e, 0
  {
    if e.MessageElem? {
      Refines(o, e.message, j);
    } else {
      LeafRefines(o, Counted(f, e), u, j);
    }
  }

  lemma ItemsRefine(strict: Schema, lenient: Schema, low: Option<nat>, high: Option<nat>, j: Json)
    requires Accepts(ListSchema(strict, low, high), j)
    requires forall i | 0 <= i < |j.items| :: Accepts(strict, j.items[i]) ==> Accepts(lenient, j.items[i])
    ensures Accepts(ListSchema(lenient, low, high), j)
  {
    ListMeaning(strict, low, high, j);
    ListMeaning(lenient, low, high, j);
  }

  lemma EntriesRefine(names: Schema, otherNames: Schema, strict: Schema, lenient: Schema, j: Json)
    requires Accepts(MapSchema(names, strict), j)
    requires forall i | 0 <= i < |j.members| ::
               && (Accepts(names, Str(j.members[i].name)) ==> Accepts(otherNames, Str(j.members[i].name)))
               && (Accepts(strict, j.members[i].value) ==> Accepts(lenient, j.members[i].value))
    ensures Accepts(MapSchema(otherNames, lenient), j)
  {
    MapMeaning(names, strict, j);
    MapMeaning(otherNames, lenient, j);
  }

  lemma {:induction false} FieldRefines(o: Options, f: Field, j: Json)
    requires ApartField(f) && (o.additionalProperties ==> !AliasInField(o, f, j))
    requires SafeIntegers(j) && Accepts(FieldSchema(Strict(o), f), j)
    ensures Accepts(FieldSchema(Lenient(o), f), j)
    decreases f, 0
  {
    var s, l := Strict(o), Lenient(o);
    match f.shape
    case Singular(e, _) => ElemRefines(o, f, e, SingularUse(f), j);
    case Repeated(e, _, minItems, maxItems) =>
      forall i | 0 <= i < |j.items| && Accepts(ElemSchema(s, f, e, ItemUse(f)), j.items[i])
        ensures Accepts(ElemSchema(l, f, e, ItemUse(f)), j.items[i])
      {
        ElemRefines(o, f, e, ItemUse(f), j.items[i]);
      }
      ItemsRefine(ElemSchema(s, f, e, ItemUse(f)), ElemSchema(l, f, e, ItemUse(f)),
                  if f.Ruled() then minItems else None, if f.Ruled() then maxItems else None, j);
    case MapOf(k, _, e, _, _) =>
      forall i | 0 <= i < |j.members|
        ensures Accepts(ElemSchema(s, f, k, KeyUse(f)), Str(j.members[i].name)) ==>
                  Accepts(ElemSchema(l, f, k, KeyUse(f)), Str(j.members[i].name))
        ensures Accepts(ElemSchema(s, f, e, ValueUse(f)), j.members[i].value) ==>
                  Accepts(ElemSchema(l, f, e, ValueUse(f)), j.members[i].value)
      {
        if Accepts(ElemSchema(s, f, k, KeyUse(f)), Str(j.members[i].name)) {
          ElemRefines(o, f, k, KeyUse(f), Str(j.members[i].name));
        }
        if Accepts(ElemSchema(s, f, e, ValueUse(f)), j.members[i].value) {
          ElemRefines(o, f, e, ValueUse(f), j.members[i].value);
        }
      }
      EntriesRefine(ElemSchema(s, f, k, KeyUse(f)), ElemSchema(l, f, k, KeyUse(f)),
                    ElemSchema(s, f, e, ValueUse(f)), ElemSchema(l, f, e, ValueUse(f)), j);
  }

  lemma {:induction false} MemberRefines(o: Options, m: Message, mem: Member)
    requires Apart(m) && (o.additionalProperties ==> !MessageHasAlias(m) && !AliasInMember(o, m, mem))
    requires SafeIntegers(mem.value) && MemberOk(MessageSchema(Strict(o), m).objects, mem)
    ensures MemberOk(MessageSchema(Lenient(o), m).objects, mem)
    decreases m, 0
  {
    if i :| 0 <= i < |m.fields| && m.fields[i].Named(mem.name) {
      MemberMeaning(Strict(o), m, i, mem);
      MemberMeaning(Lenient(o), m, i, mem);
      if AcceptsName(Strict(o), m.fields[i], mem.name) {
        FieldRefines(o, m.fields[i], mem.value);
      }
    } else {
      UnknownMemberMeaning(Strict(o), m, mem);
      UnknownMemberMeaning(Lenient(o), m, mem);
    }
  }

  /** What strict mode accepts is accepted outside it, if its integers are safe and
      additional properties are off or no object in it is of a message type with
      an alias. */
  lemma {:induction false} Refines(o: Options, m: Message, j: Json)
    requires Apart(m) && (o.additionalProperties ==> !AliasInside(o, m, j))
    requires SafeIntegers(j) && Accepts(MessageSchema(Strict(o), m), j)
    ensures Accepts(MessageSchema(Lenient(o), m), j)
    decreases m, 1
  {
    MessageMeaning(Strict(o), m, j);
    MessageMeaning(Lenient(o), m, j);
    forall k | 0 <= k < |j.members|
      ensures MemberOk(MessageSchema(Lenient(o), m).objects, j.members[k])
    {
      MemberRefines(o, m, j.members[k]);
    }
  }

  // ----- Why the conditions are there

  lemma LeafRejectsNull(o: Options, e: Elem, u: Use)
    requires !e.MessageElem?
    ensures !Accepts(LeafSchema(o, e, u), Null)
  {
    match e
    case BoolElem(r) => BoolMeaning(u.presence, u.required, r, Null);
    case EnumElem(values, r) =>
      Enum.EnumMeaning(o.strict, values,
                       Enum.ZeroUseOf(o.strict, u.presence || u.implicit, u.required && !u.ifZero), r, Null);
    case IntElem(t, r) =>
      if o.string64 && t.Wide() {
        Int.TextMeaning(t, Null);
      } else if r.Some? {
        Int.RuledMeaning(o.strict, t, r.value, Null);
      } else {
        Int.PlainMeaning(o.strict, o.string64, t, Null);
      }
    case _ =>
  }

  lemma NullRejected(o: Options, f: Field)
    ensures !Accepts(FieldSchema(o, f), Null)
  {
    match f.shape
    case Singular(e, _) =>
      if e.MessageElem? {
        MessageMeaning(o, e.message, Null);
      } else {
        LeafRejectsNull(o, Counted(f, e), SingularUse(f));
      }
    case _ =>
  }

  /** `k` is `j` with one name of one object set to null: a new member, or a new
      value of the member that has the name. */
  ghost predicate OneNull(j: Json, k: Json)
    decreases j
  {
    match j
    case Obj(members) =>
      && k.Obj?
      && (|| (exists n :: !HasMember(members, n) && k.members == members + [Member(n, Null)])
          || (exists i | 0 <= i < |members| :: k.members == members[i := Member(members[i].name, Null)])
          || exists i | 0 <= i < |members| ::
               && |k.members| == |members| && OneNull(members[i].value, k.members[i].value)
               && k.members == members[i := Member(members[i].name, k.members[i].value)])
    case Arr(items) =>
      && k.Arr?
      && exists i | 0 <= i < |items| ::
           |k.items| == |items| && OneNull(items[i], k.items[i]) && k.items == items[i := k.items[i]]
    case _ => false
  }

  /** What a JSON value has, its changed form has too. */
  predicate StaysJson(j: Json, k: Json) {
    (SafeIntegers(j) ==> SafeIntegers(k)) && (UniqueNames(j) ==> UniqueNames(k))
  }

  lemma NullAppended(members: seq<Member>, n: string)
    requires !HasMember(members, n)
    ensures var k := Obj(members + [Member(n, Null)]); OneNull(Obj(members), k) && StaysJson(Obj(members), k)
  {
  }

  lemma NullReplaced(members: seq<Member>, at: nat)
    requires at < |members|
    ensures var k := Obj(members[at := Member(members[at].name, Null)]);
            OneNull(Obj(members), k) && StaysJson(Obj(members), k)
  {
  }

  /** An alias may carry anything in strict mode, and null is wrong outside it. */
  lemma AliasTakesNull(o: Options, m: Message, i: nat) returns (mem: Member)
    requires Apart(m) && o.additionalProperties && i < |m.fields| && HasAlias(m.fields[i])
    ensures mem.value == Null
    ensures MemberOk(MessageSchema(Strict(o), m).objects, mem) && !MemberOk(MessageSchema(Lenient(o), m).objects, mem)
  {
    var f := m.fields[i];
    mem := Member(if f.visibility == Hide then Primary(o, f) else Secondary(o, f), Null);
    MemberMeaning(Strict(o), m, i, mem);
    MemberMeaning(Lenient(o), m, i, mem);
    NullRejected(Lenient(o), f);
  }

  /** In an accepted object of a message with an alias, the alias is set to null. */
  lemma AliasCarriesNull(o: Options, m: Message, i: nat, members: seq<Member>) returns (k: Json)
    requires Apart(m) && o.additionalProperties && i < |m.fields| && HasAlias(m.fields[i])
    requires Accepts(MessageSchema(Strict(o), m), Obj(members))
    ensures Accepts(MessageSchema(Strict(o), m), k) && !Accepts(MessageSchema(Lenient(o), m), k)
    ensures OneNull(Obj(members), k) && StaysJson(Obj(members), k)
  {
    var mem := AliasTakesNull(o, m, i);
    if at :| 0 <= at < |members| && members[at].name == mem.name {
      ReplacedMember(Strict(o), m, members, at, mem);
      ReplacedMember(Lenient(o), m, members, at, mem);
      NullReplaced(members, at);
      k := Obj(members[at := mem]);
    } else {
      AppendedMember(Strict(o), m, members, mem);
      AppendedMember(Lenient(o), m, members, mem);
      NullAppended(members, mem.name);
      k := Obj(members + [mem]);
    }
  }

  /** With one member more, an object stays accepted if the member is. */
  lemma AppendedMember(o: Options, m: Message, members: seq<Member>, mem: Member)
    ensures Accepts(MessageSchema(o, m), Obj(members)) && MemberOk(MessageSchema(o, m).objects, mem) ==>
              Accepts(MessageSchema(o, m), Obj(members + [mem]))
    ensures !MemberOk(MessageSchema(o, m).objects, mem) ==> !Accepts(MessageSchema(o, m), Obj(members + [mem]))
  {
    var more := members + [mem];
    MessageMeaning(o, m, Obj(members));
    MessageMeaning(o, m, Obj(more));
    assert more[|members|] == mem;
    forall n | HasMember(members, n)
      ensures HasMember(more, n)
    {
      var at :| 0 <= at < |members| && members[at].name == n;
      assert more[at] == members[at];
    }
  }

  /** With another value under one of its names, an object is accepted if the value
      is, and rejected if the value is not. */
  lemma ReplacedMember(o: Options, m: Message, members: seq<Member>, k: nat, mem: Member)
    requires k < |members| && mem.name == members[k].name
    ensures var more := Obj(members[k := mem]);
            && (Accepts(MessageSchema(o, m), Obj(members)) && MemberOk(MessageSchema(o, m).objects, mem) ==>
                  Accepts(MessageSchema(o, m), more))
            && (!MemberOk(MessageSchema(o, m).objects, mem) ==> !Accepts(MessageSchema(o, m), more))
  {
    var more := members[k := mem];
    MessageMeaning(o, m, Obj(members));
    MessageMeaning(o, m, Obj(more));
    assert more[k] == mem;
    forall n | HasMember(members, n)
      ensures HasMember(more, n)
    {
      var at :| 0 <= at < |members| && members[at].name == n;
      assert more[at].name == n;
    }
  }

  /** The modes part on `k`, which is `j` with one name set to null. */
  ghost predicate Parts(strict: Schema, lenient: Schema, j: Json, k: Json) {
    Accepts(strict, k) && !Accepts(lenient, k) && OneNull(j, k) && StaysJson(j, k)
  }

  lemma InnerMember(j: Json, i: nat, inner: Json) returns (k: Json)
    requires j.Obj? && i < |j.members| && OneNull(j.members[i].value, inner)
    requires StaysJson(j.members[i].value, inner)
    ensures k == Obj(j.members[i := Member(j.members[i].name, inner)])
    ensures OneNull(j, k) && StaysJson(j, k)
  {
    k := Obj(j.members[i := Member(j.members[i].name, inner)]);
    assert k.members[i].value == inner;
  }

  lemma ItemParts(strict: Schema, lenient: Schema, low: Option<nat>, high: Option<nat>, j: Json, i: nat, inner: Json)
    returns (k: Json)
    requires Accepts(ListSchema(strict, low, high), j) && j.Arr? && i < |j.items|
    requires Parts(strict, lenient, j.items[i], inner)
    ensures Parts(ListSchema(strict, low, high), ListSchema(lenient, low, high), j, k)
  {
    k := Arr(j.items[i := inner]);
    assert k.items[i] == inner;
    ListMeaning(strict, low, high, j);
    ListMeaning(strict, low, high, k);
    ListMeaning(lenient, low, high, k);
  }

  lemma ValueParts(names: Schema, otherNames: Schema, strict: Schema, lenient: Schema, j: Json, i: nat, inner: Json)
    returns (k: Json)
    requires Accepts(MapSchema(names, strict), j) && j.Obj? && i < |j.members|
    requires Parts(strict, lenient, j.members[i].value, inner)
    ensures Parts(MapSchema(names, strict), MapSchema(otherNames, lenient), j, k)
  {
    k := InnerMember(j, i, inner);
    EntryAccepted(names, strict, j.members, i, inner);
    EntryRejected(otherNames, lenient, j.members, i, inner);
  }

  lemma EntryAccepted(names: Schema, values: Schema, members: seq<Member>, i: nat, inner: Json)
    requires i < |members| && Accepts(MapSchema(names, values), Obj(members)) && Accepts(values, inner)
    ensures Accepts(MapSchema(names, values), Obj(members[i := Member(members[i].name, inner)]))
  {
    MapMeaning(names, values, Obj(members));
    MapMeaning(names, values, Obj(members[i := Member(members[i].name, inner)]));
  }

  lemma EntryRejected(names: Schema, values: Schema, members: seq<Member>, i: nat, inner: Json)
    requires i < |members| && !Accepts(values, inner)
    ensures !Accepts(MapSchema(names, values), Obj(members[i := Member(members[i].name, inner)]))
  {
    var more := members[i := Member(members[i].name, inner)];
    MapMeaning(names, values, Obj(more));
    assert more[i].value == inner;
  }

  /** The schema of a message is inlined where its field, items or values are. */
  lemma InlinedSchema(o: Options, f: Field, e: Elem, u: Use)
    requires e.MessageElem?
    ensures ElemSchema(o, f, e, u) == MessageSchema(o, e.message)
  {
  }

  lemma {:induction false} ElemBreaks(o: Options, f: Field, e: Elem, u: Use, j: Json) returns (k: Json)
    requires ApartElem(e) && o.additionalProperties && AliasInElem(o, e, j)
    requires Accepts(ElemSchema(Strict(o), f, e, u), j)
    ensures Parts(ElemSchema(Strict(o), f, e, u), ElemSchema(Lenient(o), f, e, u), j, k)
    decreases e, 0
  {
    InlinedSchema(Strict(o), f, e, u);
    InlinedSchema(Lenient(o), f, e, u);
    k := AdditionalBreaksRefinement(o, e.message, j);
  }

  lemma {:induction false} FieldBreaks(o: Options, f: Field, j: Json) returns (k: Json)
    requires ApartField(f) && o.additionalProperties && AliasInField(o, f, j)
    requires Accepts(FieldSchema(Strict(o), f), j)
    ensures Parts(FieldSchema(Strict(o), f), FieldSchema(Lenient(o), f), j, k)
    decreases f, 0
  {
    var s, l := Strict(o), Lenient(o);
    match f.shape
    case Singular(e, _) => k := ElemBreaks(o, f, e, SingularUse(f), j);
    case Repeated(e, _, minItems, maxItems) =>
      var low, high := if f.Ruled() then minItems else None, if f.Ruled() then maxItems else None;
      var i :| 0 <= i < |j.items| && AliasInElem(o, e, j.items[i]);
      ListMeaning(ElemSchema(s, f, e, ItemUse(f)), low, high, j);
      var inner := ElemBreaks(o, f, e, ItemUse(f), j.items[i]);
      k := ItemParts(ElemSchema(s, f, e, ItemUse(f)), ElemSchema(l, f, e, ItemUse(f)), low, high, j, i, inner);
    case MapOf(key, _, e, _, _) =>
      var i :| 0 <= i < |j.members| && AliasInElem(o, e, j.members[i].value);
      MapMeaning(ElemSchema(s, f, key, KeyUse(f)), ElemSchema(s, f, e, ValueUse(f)), j);
      var inner := ElemBreaks(o, f, e, ValueUse(f), j.members[i].value);
      k := ValueParts(ElemSchema(s, f, key, KeyUse(f)), ElemSchema(l, f, key, KeyUse(f)),
                      ElemSchema(s, f, e, ValueUse(f)), ElemSchema(l, f, e, ValueUse(f)), j, i, inner);
  }

  /** With additional properties, an accepted value that contains an object of a
      message type with an alias, at any depth, becomes a value that strict mode
      accepts and lenient mode rejects when the alias in that object is set to
      null. */
  lemma {:induction false} AdditionalBreaksRefinement(o: Options, m: Message, j: Json) returns (k: Json)
    requires Apart(m) && o.additionalProperties && AliasInside(o, m, j)
    requires Accepts(MessageSchema(Strict(o), m), j)
    ensures Parts(MessageSchema(Strict(o), m), MessageSchema(Lenient(o), m), j, k)
    decreases m, 1
  {
    if i :| 0 <= i < |m.fields| && HasAlias(m.fields[i]) {
      k := AliasCarriesNull(o, m, i, j.members);
    } else {
      var h :| 0 <= h < |j.members| && AliasInMember(o, m, j.members[h]);
      k := NestedBreaks(o, m, j, h);
    }
  }

  lemma {:induction false} NestedBreaks(o: Options, m: Message, j: Json, h: nat) returns (k: Json)
    requires Apart(m) && o.additionalProperties && j.Obj? && h < |j.members| && AliasInMember(o, m, j.members[h])
    requires Accepts(MessageSchema(Strict(o), m), j)
    ensures Parts(MessageSchema(Strict(o), m), MessageSchema(Lenient(o), m), j, k)
    decreases m, 0
  {
    var member := j.members[h];
    var i :| 0 <= i < |m.fields| && AcceptsName(Strict(o), m.fields[i], member.name) &&
             AliasInField(o, m.fields[i], member.value);
    MessageMeaning(Strict(o), m, j);
    MemberMeaning(Strict(o), m, i, member);
    var inner := FieldBreaks(o, m.fields[i], member.value);
    k := MemberParts(o, m, j, h, i, inner);
  }

  lemma MemberParts(o: Options, m: Message, j: Json, h: nat, i: nat, inner: Json) returns (k: Json)
    requires Apart(m) && Accepts(MessageSchema(Strict(o), m), j) && j.Obj? && h < |j.members| && i < |m.fields|
    requires AcceptsName(Strict(o), m.fields[i], j.members[h].name)
    requires Parts(FieldSchema(Strict(o), m.fields[i]), FieldSchema(Lenient(o), m.fields[i]), j.members[h].value, inner)
    ensures Parts(MessageSchema(Strict(o), m), MessageSchema(Lenient(o), m), j, k)
  {
    var mem := Member(j.members[h].name, inner);
    MemberMeaning(Strict(o), m, i, mem);
    MemberMeaning(Lenient(o), m, i, mem);
    ReplacedMember(Strict(o), m, j.members, h, mem);
    ReplacedMember(Lenient(o), m, j.members, h, mem);
    k := InnerMember(j, h, inner);
  }

  /** JSON values with safe integers. */
  predicate Interoperable(j: Json) {
    SafeIntegers(j) && UniqueNames(j)
  }

  ghost predicate RefinesOn(o: Options, m: Message, j: Json) {
    Interoperable(j) && Accepts(MessageSchema(Strict(o), m), j) ==> Accepts(MessageSchema(Lenient(o), m), j)
  }

  ghost predicate NoAliasOn(o: Options, m: Message, j: Json) {
    Interoperable(j) && Accepts(MessageSchema(Strict(o), m), j) ==> !AliasInside(o, m, j)
  }

  /** Over all JSON values with safe integers: strict mode refines lenient mode if and
      only if additional properties are off or no value that strict mode accepts
      contains an object of a message type with an alias. */
  lemma RefinesIff(o: Options, m: Message)
    requires Apart(m)
    ensures (forall j :: RefinesOn(o, m, j)) <==> (o.additionalProperties ==> forall j :: NoAliasOn(o, m, j))
  {
    if !o.additionalProperties || forall j :: NoAliasOn(o, m, j) {
      forall j
        ensures RefinesOn(o, m, j)
      {
        assert o.additionalProperties ==> NoAliasOn(o, m, j);
        if Interoperable(j) && Accepts(MessageSchema(Strict(o), m), j) {
          Refines(o, m, j);
        }
      }
    } else {
      var j :| !NoAliasOn(o, m, j);
      var k := AdditionalBreaksRefinement(o, m, j);
      assert !RefinesOn(o, m, k);
    }
  }

  // ----- Descriptors without aliases

  predicate AliasFreeElem(e: Elem)
    decreases e
  {
    e.MessageElem? ==> AliasFree(e.message)
  }

  predicate AliasFreeField(f: Field)
    decreases f
  {
    match f.shape
    case Singular(e, _) => AliasFreeElem(e)
    case Repeated(e, _, _, _) => AliasFreeElem(e)
    case MapOf(_, _, e, _, _) => AliasFreeElem(e)
  }

  /** No message type reached through fields that are not ignored has an alias. */
  predicate AliasFree(m: Message)
    decreases m
  {
    && !MessageHasAlias(m)
    && forall i | 0 <= i < |m.fields| && m.fields[i].visibility != Omit :: AliasFreeField(m.fields[i])
  }

  lemma {:induction false} AliasFreeInside(o: Options, m: Message, j: Json)
    requires AliasFree(m)
    ensures !AliasInside(o, m, j)
    decreases m
  {
    if j.Obj? {
      forall k, i | 0 <= k < |j.members| && 0 <= i < |m.fields| &&
                    AcceptsName(Strict(o), m.fields[i], j.members[k].name)
        ensures !AliasInField(o, m.fields[i], j.members[k].value)
      {
        AliasFreeInField(o, m.fields[i], j.members[k].value);
      }
    }
  }

  lemma {:induction false} AliasFreeInField(o: Options, f: Field, j: Json)
    requires AliasFreeField(f)
    ensures !AliasInField(o, f, j)
    decreases f
  {
    match f.shape
    case Singular(e, _) => AliasFreeInElem(o, e, j);
    case Repeated(e, _, _, _) =>
      if j.Arr? {
        forall i | 0 <= i < |j.items|
          ensures !AliasInElem(o, e, j.items[i])
        {
          AliasFreeInElem(o, e, j.items[i]);
        }
      }
    case MapOf(_, _, e, _, _) =>
      if j.Obj? {
        forall i | 0 <= i < |j.members|
          ensures !AliasInElem(o, e, j.members[i].value)
        {
          AliasFreeInElem(o, e, j.members[i].value);
        }
      }
  }

  lemma {:induction false} AliasFreeInElem(o: Options, e: Elem, j: Json)
    requires AliasFreeElem(e)
    ensures !AliasInElem(o, e, j)
    decreases e
  {
    if e.MessageElem? {
      AliasFreeInside(o, e.message, j);
    }
  }

  /** A test on the descriptor alone: strict mode refines lenient mode if additional
      properties are off or no message type within reach has an alias. */
  lemma RefinesByDescriptor(o: Options, m: Message, j: Json)
    requires Apart(m) && (o.additionalProperties ==> AliasFree(m))
    requires SafeIntegers(j) && Accepts(MessageSchema(Strict(o), m), j)
    ensures Accepts(MessageSchema(Lenient(o), m), j)
  {
    if o.additionalProperties {
      AliasFreeInside(o, m, j);
    }
    Refines(o, m, j);
  }

  /** The smallest case: a field a_b that is also called aB, which is null. */
  lemma AliasExample()
    ensures var aB := Field("a_b", "aB", Visible, false, Unspecified, Singular(BoolElem(BoolRules(None)), true));
            var m, o, k := Message([aB]), Options(false, true, false, false), Obj([Member("aB", Null)]);
            Accepts(MessageSchema(Strict(o), m), k) && !Accepts(MessageSchema(Lenient(o), m), k)
  {
    var aB := Field("a_b", "aB", Visible, false, Unspecified, Singular(BoolElem(BoolRules(None)), true));
    var m, o, k := Message([aB]), Options(false, true, false, false), Obj([Member("aB", Null)]);
    assert m.fields[0] == aB && k.members[0] == Member("aB", Null);
    MessageMeaning(Strict(o), m, k);
    MessageMeaning(Lenient(o), m, k);
    MemberMeaning(Strict(o), m, 0, k.members[0]);
    MemberMeaning(Lenient(o), m, 0, k.members[0]);
    NullRejected(Lenient(o), aB);
  }

  /** Without rules, the two modes part exactly at the safe integers: strict mode
      accepts every 64-bit integer, lenient mode the safe ones. */
  lemma PlainWideIntegers(t: Int.IntType, n: int)
    requires t.Wide() && t.Holds(n)
    ensures Accepts(Int.IntSchema(true, false, t, None), Json.Int(n))
    ensures Accepts(Int.IntSchema(false, false, t, None), Json.Int(n)) <==> SafeInteger(n)
  {
    Int.PlainMeaning(true, false, t, Json.Int(n));
    Int.PlainMeaning(false, false, t, Json.Int(n));
  }
}
