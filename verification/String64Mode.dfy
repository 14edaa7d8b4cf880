/** The option that leaves only the string spelling of 64-bit integers
    (buf/jsonschema.go:84-90, 841-846 and 978-983). */
module String64Mode {
  import opened Json
  import opened JsonSchema
  import opened Descriptors
  import opened Generator
  import opened StrictMode
  import Int = IntValidation

  function With(o: Options): Options { o.(string64 := true, strict := false) }

  function Without(o: Options): Options { o.(string64 := false, strict := false) }

  /** Every place in `j` that the descriptor gives a 64-bit integer holds a
      string. */
  ghost predicate Strings64(o: Options, e: Elem, j: Json)
    decreases e
  {
    match e
    case IntElem(t, _) => t.Wide() ==> j.Str?
    case MessageElem(m) => j.Obj? ==> MessageStrings64(o, m, j.members)
    case _ => true
  }

  ghost predicate FieldStrings64(o: Options, f: Field, j: Json)
    decreases f
  {
    match f.shape
    case Singular(e, _) => Strings64(o, e, j)
    case Repeated(e, _, _, _) => j.Arr? ==> forall i | 0 <= i < |j.items| :: Strings64(o, e, j.items[i])
    case MapOf(_, _, e, _, _) => j.Obj? ==> forall i | 0 <= i < |j.members| :: Strings64(o, e, j.members[i].value)
  }

  ghost predicate MessageStrings64(o: Options, m: Message, members: seq<Member>)
    decreases m
  {
    forall k, i | 0 <= k < |members| && 0 <= i < |m.fields| && AcceptsName(Without(o), m.fields[i], members[k].name) ::
      FieldStrings64(o, m.fields[i], members[k].value)
  }

  lemma IntDropsNumbers(t: Int.IntType, r: Option<Int.IntRules>, j: Json)
    ensures Accepts(Int.IntSchema(false, true, t, r), j) <==>
            Accepts(Int.IntSchema(false, false, t, r), j) && (t.Wide() ==> j.Str?)
  {
    Int.TextMeaning(t, j);
    if r.Some? {
      Int.RuledMeaning(false, t, r.value, j);
    } else {
      Int.PlainMeaning(false, false, t, j);
    }
  }

  lemma {:induction false} ElemDropsNumbers(o: Options, f: Field, e: Elem, u: Use, j: Json)
    requires ApartElem(e)
    ensures Accepts(ElemSchema(With(o), f, e, u), j) <==>
            Accepts(ElemSchema(Without(o), f, e, u), j) && Strings64(o, e, j)
    decreases e, 0
  {
    match Counted(f, e)
    case MessageElem(m) => DropsNumbers(o, e.message, j);
    case IntElem(t, r) => IntDropsNumbers(t, r, j);
    case _ =>
  }

  lemma {:induction false} FieldDropsNumbers(o: Options, f: Field, j: Json)
    requires ApartField(f)
    ensures Accepts(FieldSchema(With(o), f), j) <==> Accepts(FieldSchema(Without(o), f), j) && FieldStrings64(o, f, j)
    decreases f, 1
  {
    match f.shape
    case Singular(e, _) => ElemDropsNumbers(o, f, e, SingularUse(f), j);
    case Repeated(_, _, _, _) => ListDropsNumbers(o, f, j);
    case MapOf(_, _, _, _, _) => MapDropsNumbers(o, f, j);
  }

  lemma {:induction false} ListDropsNumbers(o: Options, f: Field, j: Json)
    requires ApartField(f) && f.shape.Repeated?
    ensures Accepts(FieldSchema(With(o), f), j) <==> Accepts(FieldSchema(Without(o), f), j) && FieldStrings64(o, f, j)
    decreases f, 0
  {
    var e := f.shape.items;
    var with, without := ElemSchema(With(o), f, e, ItemUse(f)), ElemSchema(Without(o), f, e, ItemUse(f));
    var low, high := if f.Ruled() then f.shape.minItems else None, if f.Ruled() then f.shape.maxItems else None;
    ListMeaning(with, low, high, j);
    ListMeaning(without, low, high, j);
    if j.Arr? {
      forall i | 0 <= i < |j.items|
        ensures Accepts(with, j.items[i]) <==> Accepts(without, j.items[i]) && Strings64(o, e, j.items[i])
      {
        ElemDropsNumbers(o, f, e, ItemUse(f), j.items[i]);
      }
    }
  }

  lemma {:induction false} MapDropsNumbers(o: Options, f: Field, j: Json)
    requires ApartField(f) && f.shape.MapOf?
    ensures Accepts(FieldSchema(With(o), f), j) <==> Accepts(FieldSchema(Without(o), f), j) && FieldStrings64(o, f, j)
    decreases f, 0
  {
    var k, e := f.shape.key, f.shape.value;
    var names, otherNames := ElemSchema(With(o), f, k, KeyUse(f)), ElemSchema(Without(o), f, k, KeyUse(f));
    var with, without := ElemSchema(With(o), f, e, ValueUse(f)), ElemSchema(Without(o), f, e, ValueUse(f));
    MapMeaning(names, with, j);
    MapMeaning(otherNames, without, j);
    if j.Obj? {
      forall i | 0 <= i < |j.members|
        ensures Accepts(names, Str(j.members[i].name)) <==> Accepts(otherNames, Str(j.members[i].name))
        ensures Accepts(with, j.members[i].value) <==>
                Accepts(without, j.members[i].value) && Strings64(o, e, j.members[i].value)
      {
        ElemDropsNumbers(o, f, k, KeyUse(f), Str(j.members[i].name));
        ElemDropsNumbers(o, f, e, ValueUse(f), j.members[i].value);
      }
    }
  }

  /** Outside strict mode, the option removes only the number spelling: a value is
      accepted with it exactly when it is accepted without it and every 64-bit
      integer in it, at any depth, is written as a string. */
  lemma {:induction false} DropsNumbers(o: Options, m: Message, j: Json)
    requires Apart(m)
    ensures Accepts(MessageSchema(With(o), m), j) <==>
            Accepts(MessageSchema(Without(o), m), j) && (j.Obj? ==> MessageStrings64(o, m, j.members))
    decreases m, 1
  {
    MessageMeaning(With(o), m, j);
    MessageMeaning(Without(o), m, j);
    if j.Obj? {
      forall k | 0 <= k < |j.members|
        ensures MemberOk(MessageSchema(With(o), m).objects, j.members[k]) <==>
                && MemberOk(MessageSchema(Without(o), m).objects, j.members[k])
                && MemberStrings64(o, m, j.members[k])
      {
        MemberDropsNumbers(o, m, j.members[k]);
      }
    }
  }

  ghost predicate MemberStrings64(o: Options, m: Message, mem: Member) {
    forall i | 0 <= i < |m.fields| && AcceptsName(Without(o), m.fields[i], mem.name) ::
      FieldStrings64(o, m.fields[i], mem.value)
  }

  lemma {:induction false} MemberDropsNumbers(o: Options, m: Message, mem: Member)
    requires Apart(m)
    ensures MemberOk(MessageSchema(With(o), m).objects, mem) <==>
            MemberOk(MessageSchema(Without(o), m).objects, mem) && MemberStrings64(o, m, mem)
    decreases m, 0
  {
    if i :| 0 <= i < |m.fields| && m.fields[i].Named(mem.name) {
      MemberMeaning(With(o), m, i, mem);
      MemberMeaning(Without(o), m, i, mem);
      if AcceptsName(Without(o), m.fields[i], mem.name) {
        FieldDropsNumbers(o, m.fields[i], mem.value);
      }
      assert forall h | 0 <= h < |m.fields| && AcceptsName(Without(o), m.fields[h], mem.name) :: h == i;
    } else {
      UnknownMemberMeaning(With(o), m, mem);
      UnknownMemberMeaning(Without(o), m, mem);
    }
  }
}
