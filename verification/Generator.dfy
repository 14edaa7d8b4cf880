/** The schema generator for messages (buf/jsonschema.go:268-513 and 1451-1458).

    `MessageSchema` and `FieldSchema` describe the result; the methods below
    them fill properties, patternProperties and required field by field, as the
    generator does, and are proved to produce that result. */
module Generator {
  import opened Json
  import opened JsonSchema
  import opened IntValidation
  import opened EnumValidation
  import opened TextValidation
  import opened Descriptors

  datatype Options = Options(useJsonNames: bool, additionalProperties: bool, string64: bool, strict: bool)

  /** How an element is used: with or without presence, implicitly present (list
      items, map keys and values), required. */
  datatype Use = Use(presence: bool, implicit: bool, required: bool, ifZero: bool)

  function LeafSchema(o: Options, e: Elem, u: Use): Schema
    requires !e.MessageElem?
  {
    match e
    case BoolElem(r) => BoolSchema(u.presence, u.required, r)
    case EnumElem(values, r) =>
      EnumSchema(o.strict, values, ZeroUseOf(o.strict, u.presence || u.implicit, u.required && !u.ifZero), r)
    case IntElem(t, r) => IntSchema(o.strict, o.string64, t, r)
    case StringElem(r) => StringSchema(u.required, r)
    case BytesElem(r) => BytesSchema(u.required, r)
  }

  function ElemSchema(o: Options, f: Field, e: Elem, u: Use): Schema
    decreases e
  {
    if e.MessageElem? then MessageSchema(o, e.message) else LeafSchema(o, Counted(f, e), u)
  }

  function ListSchema(items: Schema, minItems: Option<nat>, maxItems: Option<nat>): Schema {
    EMPTY.(typ := Some(TArray), arrays := ArrayKeywords(Some(items), minItems, maxItems))
  }

  function MapSchema(names: Schema, values: Schema): Schema {
    EMPTY.(typ := Some(TObject), objects := ObjectKeywords(map[], map[], Each(values), Some(names), []))
  }

  function SingularUse(f: Field): Use
    requires f.shape.Singular?
  {
    Use(f.shape.presence, false, f.required && f.Ruled(), f.ignore == IfZeroValue)
  }

  function ItemUse(f: Field): Use
    requires f.shape.Repeated?
  {
    Use(false, true, f.shape.itemRules.required && f.Ruled(), false)
  }

  function KeyUse(f: Field): Use
    requires f.shape.MapOf?
  {
    Use(f.shape.entryPresence, true, f.shape.keyRules.required && f.Ruled(), false)
  }

  function ValueUse(f: Field): Use
    requires f.shape.MapOf?
  {
    Use(f.shape.entryPresence, true, f.shape.valueRules.required && f.Ruled(), false)
  }

  function FieldSchema(o: Options, f: Field): Schema
    decreases f
  {
    match f.shape
    case Singular(e, _) => ElemSchema(o, f, e, SingularUse(f))
    case Repeated(e, _, minItems, maxItems) =>
      ListSchema(ElemSchema(o, f, e, ItemUse(f)),
                 if f.Ruled() then minItems else None, if f.Ruled() then maxItems else None)
    case MapOf(k, _, v, _, _) => MapSchema(ElemSchema(o, f, k, KeyUse(f)), ElemSchema(o, f, v, ValueUse(f)))
  }

  function Primary(o: Options, f: Field): string {
    if o.useJsonNames then f.jsonName else f.name
  }

  function Secondary(o: Options, f: Field): string {
    if o.useJsonNames then f.name else f.jsonName
  }

  /** The names by which a field is accepted besides its property. */
  function Aliases(o: Options, f: Field): seq<string> {
    (if f.visibility == Hide then [Primary(o, f)] else []) +
    (if f.name != f.jsonName then [Secondary(o, f)] else [])
  }

  /** Absence of the field means its default, so strict mode asks for it. */
  predicate HasImplicitDefault(f: Field) {
    f.shape.Singular? && !f.shape.presence && !f.Required()
  }

  predicate InRequired(o: Options, f: Field) {
    f.visibility != Omit && (f.Required() || (o.strict && HasImplicitDefault(f)))
  }

  function RequiredNames(o: Options, fields: seq<Field>): seq<string> {
    if fields == [] then []
    else
      var f := fields[|fields| - 1];
      RequiredNames(o, fields[..|fields| - 1]) + if InRequired(o, f) then [Primary(o, f)] else []
  }

  function Properties(o: Options, fields: seq<Field>): map<string, Schema>
    decreases fields
  {
    if fields == [] then map[]
    else
      var f := fields[|fields| - 1];
      var rest := Properties(o, fields[..|fields| - 1]);
      if f.visibility == Visible then rest[Primary(o, f) := FieldSchema(o, f)] else rest
  }

  function PatternProperties(o: Options, fields: seq<Field>): map<Pattern, Schema>
    decreases fields
  {
    if fields == [] then map[]
    else
      var f := fields[|fields| - 1];
      var rest := PatternProperties(o, fields[..|fields| - 1]);
      if f.visibility != Omit && !o.strict && Aliases(o, f) != []
      then rest[Exactly(Aliases(o, f)) := FieldSchema(o, f)] else rest
  }

  function MessageSchema(o: Options, m: Message): Schema
    decreases m
  {
    EMPTY.(typ := Some(TObject),
           objects := ObjectKeywords(Properties(o, m.fields), PatternProperties(o, m.fields),
                                     Flag(o.additionalProperties), None, RequiredNames(o, m.fields)))
  }

  // ----- The generator itself

  /** The numbers in the rules are of the types their Go fields have. */
  predicate Representable(e: Elem)
    decreases e
  {
    match e
    case EnumElem(values, _) => forall i | 0 <= i < |values| :: IsInt32(values[i].number)
    case BytesElem(rules) =>
      rules.Some? ==> Uint64Sizes(rules.value)
    case MessageElem(m) => forall i | 0 <= i < |m.fields| :: RepresentableField(m.fields[i])
    case _ => true
  }

  predicate RepresentableField(f: Field)
    decreases f
  {
    match f.shape
    case Singular(e, _) => Representable(e)
    case Repeated(e, _, _, _) => Representable(e)
    case MapOf(k, _, v, _, _) => Representable(k) && Representable(v)
  }

  /** buf/jsonschema.go:344-376: adds the property and returns the aliases. */
  method AddFieldProperties(o: Options, f: Field, schema: Schema, properties: map<string, Schema>)
    returns (added: map<string, Schema>, aliases: seq<string>)
    ensures added == if f.visibility == Hide then properties else properties[Primary(o, f) := schema]
    ensures aliases == Aliases(o, f)
  {
    added, aliases := properties, [];
    var hidden := f.visibility == Hide;
    if o.useJsonNames {
      if hidden {
        aliases := aliases + [f.jsonName];
      } else {
        added := added[f.jsonName := schema];
      }
      if f.jsonName != f.name {
        aliases := aliases + [f.name];
      }
      return;
    }
    if hidden {
      aliases := aliases + [f.name];
    } else {
      added := added[f.name := schema];
    }
    if f.jsonName != f.name {
      aliases := aliases + [f.jsonName];
    }
  }

  /** The dispatch on the kind, buf/jsonschema.go:440-480. */
  method GenerateElem(o: Options, f: Field, e: Elem, u: Use) returns (schema: Schema)
    requires Representable(e)
    ensures schema == ElemSchema(o, f, e, u)
    decreases e
  {
    match e {
      case MessageElem(m) => schema := GenerateMessage(o, m);
      case _ =>
        match Counted(f, e) {
          case BoolElem(r) => schema := GenerateBool(u.presence, u.required, r);
          case EnumElem(values, r) =>
            schema := GenerateEnum(o.strict, u.presence || u.implicit, u.required && !u.ifZero, values, r);
          case IntElem(t, r) => schema := GenerateIntField(o.strict, o.string64, t, r);
          case StringElem(r) => schema := GenerateString(u.required, r);
          case BytesElem(r) => schema := GenerateBytes(u.required, r);
        }
    }
  }

  /** buf/jsonschema.go:414-483 */
  method GenerateField(o: Options, f: Field) returns (schema: Schema)
    requires RepresentableField(f)
    ensures schema == FieldSchema(o, f)
    decreases f
  {
    schema := EMPTY;
    match f.shape {
      case Singular(e, _) =>
        schema := GenerateElem(o, f, e, SingularUse(f));
      case Repeated(e, _, minItems, maxItems) =>
        schema := schema.(typ := Some(TArray));
        var arrays := NO_ARRAY;
        if f.Ruled() {
          if minItems.Some? {
            arrays := arrays.(minItems := minItems);
          }
          if maxItems.Some? {
            arrays := arrays.(maxItems := maxItems);
          }
        }
        var items := GenerateElem(o, f, e, ItemUse(f));
        arrays := arrays.(items := Some(items));
        schema := schema.(arrays := arrays);
      case MapOf(k, _, v, _, _) =>
        schema := schema.(typ := Some(TObject));
        var propertyNames := GenerateElem(o, f, k, KeyUse(f));
        var objects := NO_OBJECT.(propertyNames := Some(propertyNames));
        var properties := GenerateElem(o, f, v, ValueUse(f));
        objects := objects.(additionalProperties := Each(properties));
        schema := schema.(objects := objects);
    }
  }

  /** One more field: what it adds to the three parts of the schema. */
  lemma FieldAdded(o: Options, fields: seq<Field>, i: nat)
    requires i < |fields|
    ensures RequiredNames(o, fields[..i + 1]) ==
            RequiredNames(o, fields[..i]) + if InRequired(o, fields[i]) then [Primary(o, fields[i])] else []
    ensures Properties(o, fields[..i + 1]) ==
            var rest := Properties(o, fields[..i]);
            if fields[i].visibility == Visible then rest[Primary(o, fields[i]) := FieldSchema(o, fields[i])] else rest
    ensures PatternProperties(o, fields[..i + 1]) ==
            var rest := PatternProperties(o, fields[..i]);
            if HasPattern(o, fields[i]) then rest[Exactly(Aliases(o, fields[i])) := FieldSchema(o, fields[i])] else rest
  {
    assert fields[..i + 1][..i] == fields[..i];
  }

  /** buf/jsonschema.go:295-342 */
  method GenerateMessage(o: Options, m: Message) returns (schema: Schema)
    requires forall i | 0 <= i < |m.fields| :: RepresentableField(m.fields[i])
    ensures schema == MessageSchema(o, m)
    decreases m
  {
    var required: seq<string> := [];
    var properties: map<string, Schema> := map[];
    var patternProperties: map<Pattern, Schema> := map[];
    for i := 0 to |m.fields|
      invariant required == RequiredNames(o, m.fields[..i])
      invariant properties == Properties(o, m.fields[..i])
      invariant patternProperties == PatternProperties(o, m.fields[..i])
    {
      var field := m.fields[i];
      FieldAdded(o, m.fields, i);
      if field.visibility == Omit {
        continue;
      }
      if field.Required() || (o.strict && HasImplicitDefault(field)) {
        if o.useJsonNames {
          required := required + [field.jsonName];
        } else {
          required := required + [field.name];
        }
      }
      var fieldSchema := GenerateField(o, field);
      var aliases;
      properties, aliases := AddFieldProperties(o, field, fieldSchema, properties);
      if !o.strict && |aliases| > 0 {
        patternProperties := patternProperties[Exactly(aliases) := fieldSchema];
      }
    }
    assert m.fields[..|m.fields|] == m.fields;
    schema := EMPTY.(typ := Some(TObject),
                     objects := ObjectKeywords(properties, patternProperties, Flag(o.additionalProperties),
                                               None, required));
  }

  // ----- What the schema of a message says of one member

  /** The names under which a message schema accepts the field. */
  predicate AcceptsName(o: Options, f: Field, n: string) {
    f.visibility != Omit && f.Named(n) &&
    (o.strict ==> f.visibility == Visible && n == if o.useJsonNames then f.jsonName else f.name)
  }

  lemma AliasesMeaning(o: Options, f: Field, n: string)
    ensures n in Aliases(o, f) <==>
            (f.visibility == Hide && n == Primary(o, f)) || (f.name != f.jsonName && n == Secondary(o, f))
  {
  }

  lemma {:induction false} PropertiesOf(o: Options, fields: seq<Field>, n: string)
    requires NamesApart(fields)
    ensures n in Properties(o, fields) <==>
            exists i | 0 <= i < |fields| :: fields[i].visibility == Visible && n == Primary(o, fields[i])
    ensures forall i | 0 <= i < |fields| && fields[i].visibility == Visible && n == Primary(o, fields[i]) ::
              n in Properties(o, fields) && Properties(o, fields)[n] == FieldSchema(o, fields[i])
  {
    if fields != [] {
      PropertiesOf(o, fields[..|fields| - 1], n);
    }
  }

  predicate HasPattern(o: Options, f: Field) {
    f.visibility != Omit && !o.strict && Aliases(o, f) != []
  }

  /** Fields with different names never share a pattern. */
  lemma PatternsApart(o: Options, f: Field, g: Field)
    requires !f.Named(g.name) && !f.Named(g.jsonName) && Aliases(o, f) != []
    ensures Aliases(o, f) != Aliases(o, g)
  {
    var a := Aliases(o, f)[0];
    assert a in Aliases(o, f);
    AliasesMeaning(o, f, a);
    AliasesMeaning(o, g, a);
  }

  predicate OwnsPattern(o: Options, f: Field, p: Pattern) {
    HasPattern(o, f) && p == Exactly(Aliases(o, f))
  }

  lemma {:induction false} PatternOwner(o: Options, fields: seq<Field>, p: Pattern)
    ensures p in PatternProperties(o, fields) <==> exists i | 0 <= i < |fields| :: OwnsPattern(o, fields[i], p)
  {
    if fields != [] {
      var n := |fields| - 1;
      PatternOwner(o, fields[..n], p);
      assert forall i | 0 <= i < n :: fields[..n][i] == fields[i];
    }
  }

  lemma {:induction false} PatternSchema(o: Options, fields: seq<Field>, p: Pattern, i: nat)
    requires NamesApart(fields) && i < |fields| && OwnsPattern(o, fields[i], p)
    ensures p in PatternProperties(o, fields) && PatternProperties(o, fields)[p] == FieldSchema(o, fields[i])
  {
    var n := |fields| - 1;
    if i < n {
      PatternSchema(o, fields[..n], p, i);
      PatternsApart(o, fields[i], fields[n]);
    }
  }

  /** Only the field that owns the name can own its property. */
  lemma PropertyOf(o: Options, m: Message, i: nat, n: string)
    requires NamesApart(m.fields) && i < |m.fields| && m.fields[i].Named(n)
    ensures n in Properties(o, m.fields) <==> m.fields[i].visibility == Visible && n == Primary(o, m.fields[i])
    ensures n in Properties(o, m.fields) ==> Properties(o, m.fields)[n] == FieldSchema(o, m.fields[i])
  {
    PropertiesOf(o, m.fields, n);
    forall k | 0 <= k < |m.fields| && n == Primary(o, m.fields[k])
      ensures k == i
    {
      assert m.fields[k].Named(n);
    }
  }

  /** A pattern matches the name exactly when it is made of the aliases of the
      field that owns the name. */
  lemma PatternOf(o: Options, m: Message, i: nat, n: string, p: Pattern)
    requires NamesApart(m.fields) && i < |m.fields| && m.fields[i].Named(n)
    ensures p in PatternProperties(o, m.fields) && Matches(p, n) <==>
            HasPattern(o, m.fields[i]) && n in Aliases(o, m.fields[i]) && p == Exactly(Aliases(o, m.fields[i]))
    ensures p in PatternProperties(o, m.fields) && Matches(p, n) ==>
              PatternProperties(o, m.fields)[p] == FieldSchema(o, m.fields[i])
  {
    PatternOwner(o, m.fields, p);
    forall k | 0 <= k < |m.fields| && n in Aliases(o, m.fields[k])
      ensures k == i
    {
      AliasesMeaning(o, m.fields[k], n);
      assert m.fields[k].Named(n);
    }
    if OwnsPattern(o, m.fields[i], p) {
      PatternSchema(o, m.fields, p, i);
    }
  }

  /** A member whose name belongs to a field is judged by that field's schema, or
      is an additional property when the field does not go by that name. */
  lemma MemberMeaning(o: Options, m: Message, i: nat, mem: Member)
    requires NamesApart(m.fields) && i < |m.fields| && m.fields[i].Named(mem.name)
    ensures MemberOk(MessageSchema(o, m).objects, mem) <==>
            if AcceptsName(o, m.fields[i], mem.name) then Accepts(FieldSchema(o, m.fields[i]), mem.value)
            else o.additionalProperties
  {
    var f, n, objects := m.fields[i], mem.name, MessageSchema(o, m).objects;
    var p := Exactly(Aliases(o, f));
    PropertyOf(o, m, i, n);
    AliasesMeaning(o, f, n);
    PatternOf(o, m, i, n, p);
    forall q
      ensures q in objects.patternProperties && Matches(q, n) <==>
              HasPattern(o, f) && n in Aliases(o, f) && q == p
    {
      PatternOf(o, m, i, n, q);
    }
    assert MatchedByPattern(objects, n) <==> HasPattern(o, f) && n in Aliases(o, f) by {
      if HasPattern(o, f) && n in Aliases(o, f) {
        assert p in objects.patternProperties && Matches(p, n);
      }
    }
  }

  /** A member whose name belongs to no field is an additional property. */
  lemma UnknownMemberMeaning(o: Options, m: Message, mem: Member)
    requires NamesApart(m.fields) && forall i | 0 <= i < |m.fields| :: !m.fields[i].Named(mem.name)
    ensures MemberOk(MessageSchema(o, m).objects, mem) <==> o.additionalProperties
  {
    var n, objects := mem.name, MessageSchema(o, m).objects;
    PropertiesOf(o, m.fields, n);
    forall p | p in objects.patternProperties
      ensures !Matches(p, n)
    {
      PatternOwner(o, m.fields, p);
      var i :| 0 <= i < |m.fields| && OwnsPattern(o, m.fields[i], p);
      AliasesMeaning(o, m.fields[i], n);
    }
  }

  lemma {:induction false} RequiredNamesMeaning(o: Options, fields: seq<Field>, n: string)
    ensures n in RequiredNames(o, fields) <==>
            exists i | 0 <= i < |fields| :: InRequired(o, fields[i]) && n == Primary(o, fields[i])
  {
    if fields != [] {
      RequiredNamesMeaning(o, fields[..|fields| - 1], n);
    }
  }

  /** The members that a message schema asks for are there. */
  predicate RequiredPresent(o: Options, fields: seq<Field>, members: seq<Member>) {
    forall i | 0 <= i < |fields| && InRequired(o, fields[i]) :: HasMember(members, Primary(o, fields[i]))
  }

  /** The schema of a message, in terms of its fields. */
  lemma MessageMeaning(o: Options, m: Message, j: Json)
    ensures Accepts(MessageSchema(o, m), j) <==>
            && j.Obj?
            && RequiredPresent(o, m.fields, j.members)
            && forall k | 0 <= k < |j.members| :: MemberOk(MessageSchema(o, m).objects, j.members[k])
  {
    if j.Obj? {
      var names := RequiredNames(o, m.fields);
      forall n
        ensures n in names <==>
                exists i | 0 <= i < |m.fields| :: InRequired(o, m.fields[i]) && n == Primary(o, m.fields[i])
      {
        RequiredNamesMeaning(o, m.fields, n);
      }
      if RequiredOk(names, j.members) {
        forall i | 0 <= i < |m.fields| && InRequired(o, m.fields[i])
          ensures HasMember(j.members, Primary(o, m.fields[i]))
        {
          assert Primary(o, m.fields[i]) in names;
          var k :| 0 <= k < |names| && names[k] == Primary(o, m.fields[i]);
        }
      }
      if RequiredPresent(o, m.fields, j.members) {
        forall k | 0 <= k < |names|
          ensures HasMember(j.members, names[k])
        {
          assert names[k] in names;
        }
      }
    }
  }

  lemma ListMeaning(items: Schema, minItems: Option<nat>, maxItems: Option<nat>, j: Json)
    ensures Accepts(ListSchema(items, minItems, maxItems), j) <==>
            && j.Arr?
            && (minItems.Some? ==> minItems.value <= |j.items|)
            && (maxItems.Some? ==> |j.items| <= maxItems.value)
            && forall i | 0 <= i < |j.items| :: Accepts(items, j.items[i])
  {
  }

  lemma MapMeaning(names: Schema, values: Schema, j: Json)
    ensures Accepts(MapSchema(names, values), j) <==>
            && j.Obj?
            && forall i | 0 <= i < |j.members| ::
                 Accepts(names, Str(j.members[i].name)) && Accepts(values, j.members[i].value)
  {
    if j.Obj? {
      var objects := MapSchema(names, values).objects;
      forall i | 0 <= i < |j.members|
        ensures MemberOk(objects, j.members[i]) <==>
                Accepts(names, Str(j.members[i].name)) && Accepts(values, j.members[i].value)
      {
        assert !MatchedByPattern(objects, j.members[i].name);
      }
    }
  }
}
