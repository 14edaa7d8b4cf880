/** JSON values, as RFC 8259 describes them.

    An object is a sequence of members, so that the order in which a
    message's fields are written is visible. A number is either an integer or
    a fraction: `Fraction(r)` stands for a number whose fractional part is not
    zero, which the JSON Schema type "integer" never admits.
*/
module Json {

  datatype Option<+T> = None | Some(value: T) {
    function GetOr(default: T): T {
      match this
      case Some(v) => v
      case None => default
    }
  }

  datatype Json =
    | Null
    | Bool(b: bool)
    | Int(n: int)
    | Fraction(r: real)
    | Str(s: string)
    | Arr(items: seq<Json>)
    | Obj(members: seq<Member>)

  datatype Member = Member(name: string, value: Json)

  /** The largest integer that every JSON reader represents exactly, 2^53 - 1. */
  const MAX_SAFE_INTEGER: int := 0x1F_FFFF_FFFF_FFFF

  predicate SafeInteger(n: int) {
    -MAX_SAFE_INTEGER <= n <= MAX_SAFE_INTEGER
  }

  /** Every integer anywhere in `j` lies within the safe range. */
  predicate SafeIntegers(j: Json)
    decreases j
  {
    match j
    case Int(n) => SafeInteger(n)
    case Arr(items) => forall i | 0 <= i < |items| :: SafeIntegers(items[i])
    case Obj(members) => forall i | 0 <= i < |members| :: SafeIntegers(members[i].value)
    case _ => true
  }

  /** In every object anywhere in `j`, no name comes twice. RFC 8259 leaves other
      objects open, and JSON Schema has no meaning for them. */
  predicate UniqueNames(j: Json)
    decreases j
  {
    match j
    case Arr(items) => forall i | 0 <= i < |items| :: UniqueNames(items[i])
    case Obj(members) =>
      && (forall i, k | 0 <= i < k < |members| :: members[i].name != members[k].name)
      && forall i | 0 <= i < |members| :: UniqueNames(members[i].value)
    case _ => true
  }

  /** The decimal digits of a natural number, without leading zeros. */
  function Decimal(n: nat): string {
    if n < 10 then [Digit(n)] else Decimal(n / 10) + [Digit(n % 10)]
  }

  function Digit(d: nat): char
    requires d < 10
  {
    '0' + d as char
  }

  /** The decimal spelling of an integer. */
  function SignedDecimal(n: int): string {
    if n < 0 then "-" + Decimal(-n) else Decimal(n)
  }
}
