/** Message descriptors with their validation rules, unfolded into a tree: a
    message field holds the descriptor of its message. */
module Descriptors {
  import opened Json
  import opened IntValidation
  import opened EnumValidation
  import opened TextValidation

  datatype Visibility = Visible | Hide | Omit

  /** The rule `ignore`. */
  datatype Ignore = Unspecified | IfZeroValue | Always

  /** A kind of value together with the rules of that kind. */
  datatype Elem =
    | BoolElem(boolRules: BoolRules)
    | EnumElem(values: seq<EnumValue>, enumRules: EnumRules)
    | IntElem(t: IntType, intRules: Option<IntRules>)
    | StringElem(stringRules: Option<StringRules>)
    | BytesElem(bytesRules: Option<BytesRules>)
    | MessageElem(message: Message)

  /** The rules `required` and `ignore` among those of list items, keys or map
      values. */
  datatype ItemRules = ItemRules(required: bool, ignore: Ignore)

  const NO_ITEM_RULES: ItemRules := ItemRules(false, Unspecified)

  /** A map field is described by the fields of its entry message;
      `entryPresence` says whether those track presence. */
  datatype Shape =
    | Singular(elem: Elem, presence: bool)
    | Repeated(items: Elem, itemRules: ItemRules, minItems: Option<nat>, maxItems: Option<nat>)
    | MapOf(key: Elem, keyRules: ItemRules, value: Elem, valueRules: ItemRules, entryPresence: bool)

  datatype Field = Field(
    name: string, jsonName: string, visibility: Visibility,
    required: bool, ignore: Ignore, shape: Shape)
  {
    /** The rules of the field count at all. */
    predicate Ruled() { ignore != Always }

    predicate Required() { required && ignore == Unspecified }

    predicate Named(n: string) { n == name || n == jsonName }
  }

  datatype Message = Message(fields: seq<Field>)

  /** The element without its rules. */
  function WithoutRules(e: Elem): Elem {
    match e
    case BoolElem(_) => BoolElem(BoolRules(None))
    case EnumElem(values, _) => EnumElem(values, NO_ENUM_RULES)
    case IntElem(t, _) => IntElem(t, None)
    case StringElem(_) => StringElem(None)
    case BytesElem(_) => BytesElem(None)
    case MessageElem(_) => e
  }

  /** The rules that count for an element of field `f`. */
  function Counted(f: Field, e: Elem): Elem {
    if f.Ruled() then e else WithoutRules(e)
  }

  // ----- The descriptors the theorems speak of

  /** No two fields share a name, as a proto name or as a JSON name. */
  predicate NamesApart(fields: seq<Field>) {
    forall i, j | 0 <= i < j < |fields| ::
      !fields[i].Named(fields[j].name) && !fields[i].Named(fields[j].jsonName)
  }

  predicate KeyElem(e: Elem) {
    e.BoolElem? || e.IntElem? || e.StringElem?
  }

  /** Rules are of the field's own type. */
  predicate LeafFits(e: Elem) {
    match e
    case EnumElem(values, _) => forall i | 0 <= i < |values| :: IsInt32(values[i].number)
    case IntElem(t, rules) => rules.Some? ==> rules.value.Fits(t)
    case BytesElem(rules) => rules.Some? ==> Uint64Sizes(rules.value)
    case _ => true
  }

  predicate WellFormedElem(e: Elem)
    decreases e
  {
    if e.MessageElem? then WellFormed(e.message) else LeafFits(e)
  }

  predicate WellFormedField(f: Field)
    decreases f
  {
    match f.shape
    case Singular(e, presence) => WellFormedElem(e) && (e.MessageElem? ==> presence)
    case Repeated(e, _, _, _) => WellFormedElem(e)
    case MapOf(k, _, v, _, _) => KeyElem(k) && WellFormedElem(k) && WellFormedElem(v)
  }

  predicate WellFormed(m: Message)
    decreases m
  {
    && NamesApart(m.fields)
    && forall i | 0 <= i < |m.fields| :: WellFormedField(m.fields[i])
  }
}
