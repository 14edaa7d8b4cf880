/** Protobuf wire bytes, as the Protocol Buffers Encoding specification defines
    them, and the library's parser for one field. The grammar (`Tree`) and the
    parser (`ConsumeVarint`, `ConsumeTag`, `ConsumeFieldValue`) are defined
    apart and proved to agree. */
module Wire {
  import opened Bytes

  const VARINT: nat := 0
  const FIXED64: nat := 1
  const BYTES: nat := 2
  const START_GROUP: nat := 3
  const END_GROUP: nat := 4
  const FIXED32: nat := 5

  const MAX_NUMBER: nat := 0x7FFF_FFFF

  /** How deep groups may nest: the library's recursion limit of 10000 admits one
      more level than its number. */
  const LEVELS: nat := 10001

  // ----- The grammar

  /** A base-128 varint whose first byte is its i-th: continuation bits on all but
      the last byte, at most ten bytes, and at most 64 bits of value. */
  predicate IsVarint(b: seq<Byte>, i: nat) {
    && b != [] && i < 10
    && if |b| == 1 then b[0] < 128 && (i == 9 ==> b[0] < 2)
       else b[0] >= 128 && i < 9 && IsVarint(b[1..], i + 1)
  }

  function VarintValue(b: seq<Byte>): nat {
    if b == [] then 0 else b[0] % 128 + 128 * VarintValue(b[1..])
  }

  predicate IsTag(b: seq<Byte>, number: nat, wireType: nat) {
    && IsVarint(b, 0) && 1 <= number <= MAX_NUMBER && wireType < 8
    && VarintValue(b) == number * 8 + wireType
  }

  /** One field as written: its tag, and a value by wire type. */
  datatype Tree =
    | Scalar(number: nat, wireType: nat, tag: seq<Byte>, bytes: seq<Byte>)
    | Delimited(number: nat, tag: seq<Byte>, size: seq<Byte>, payload: seq<Byte>)
    | Group(number: nat, tag: seq<Byte>, fields: seq<Tree>, end: seq<Byte>)

  predicate ValidScalar(wireType: nat, bytes: seq<Byte>) {
    || (wireType == VARINT && IsVarint(bytes, 0))
    || (wireType == FIXED32 && |bytes| == 4)
    || (wireType == FIXED64 && |bytes| == 8)
  }

  predicate Valid(t: Tree, levels: nat)
    decreases t
  {
    IsTag(t.tag, t.number, TypeOf(t)) && ValidBody(t, levels)
  }

  function TypeOf(t: Tree): nat {
    match t
    case Scalar(_, wireType, _, _) => wireType
    case Delimited(_, _, _, _) => BYTES
    case Group(_, _, _, _) => START_GROUP
  }

  predicate ValidBody(t: Tree, levels: nat)
    decreases t, 0
  {
    match t
    case Scalar(_, wireType, _, bytes) => ValidScalar(wireType, bytes)
    case Delimited(_, _, size, payload) => IsVarint(size, 0) && VarintValue(size) == |payload|
    case Group(number, _, fields, end) =>
      && levels > 0
      && IsTag(end, number, END_GROUP)
      && forall i | 0 <= i < |fields| :: Valid(fields[i], levels - 1)
  }

  function ValueBytes(t: Tree): seq<Byte>
    decreases t, 0
  {
    match t
    case Scalar(_, _, _, bytes) => bytes
    case Delimited(_, _, size, payload) => size + payload
    case Group(_, _, fields, end) => AllBytes(fields) + end
  }

  function AllBytes(ts: seq<Tree>): seq<Byte>
    decreases ts, 1
  {
    if ts == [] then [] else ts[0].tag + ValueBytes(ts[0]) + AllBytes(ts[1..])
  }

  predicate AllValid(ts: seq<Tree>, levels: nat) {
    forall i | 0 <= i < |ts| :: Valid(ts[i], levels)
  }

  /** The bytes are one value of a wire type, in a field of that number. */
  ghost predicate IsValue(number: nat, wireType: nat, b: seq<Byte>) {
    exists t :: ValidBody(t, LEVELS) && t.number == number && TypeOf(t) == wireType && ValueBytes(t) == b
  }

  /** The buffer is a sequence of fields. */
  ghost predicate WellFormed(b: seq<Byte>) {
    exists ts :: AllValid(ts, LEVELS) && AllBytes(ts) == b
  }

  // ----- The parser. A negative length is an error.

  datatype Varint = Varint(value: nat, n: int)

  const TRUNCATED: int := -1
  const NUMBER: int := -2
  const OVERFLOW: int := -3
  const RESERVED: int := -4
  const END: int := -5
  const DEPTH: int := -6

  /** A leading varint, its first byte counted as its i-th. */
  function ConsumeVarint(b: seq<Byte>, i: nat): (r: Varint)
    requires i < 10
    ensures r.n <= |b| && r.n != 0
    decreases |b|
  {
    if b == [] then Varint(0, TRUNCATED)
    else if i == 9 then if b[0] < 2 then Varint(b[0], 1) else Varint(0, OVERFLOW)
    else if b[0] < 128 then Varint(b[0], 1)
    else
      var rest := ConsumeVarint(b[1..], i + 1);
      if rest.n < 0 then rest else Varint(b[0] % 128 + 128 * rest.value, rest.n + 1)
  }

  datatype Tag = Tag(number: nat, wireType: nat, n: int)

  /** A leading tag; field numbers run from 1 to 2^31 - 1. */
  function ConsumeTag(b: seq<Byte>): (r: Tag)
    ensures r.n <= |b| && r.n != 0
  {
    var v := ConsumeVarint(b, 0);
    if v.n < 0 then Tag(0, 0, v.n)
    else if 1 <= v.value / 8 <= MAX_NUMBER then Tag(v.value / 8, v.value % 8, v.n)
    else Tag(0, 0, NUMBER)
  }

  /** The length of a leading value that is not a group. */
  function ConsumeScalar(wireType: nat, b: seq<Byte>): (r: int)
    ensures r <= |b|
  {
    if wireType == VARINT then ConsumeVarint(b, 0).n
    else if wireType == FIXED32 then if |b| < 4 then TRUNCATED else 4
    else if wireType == FIXED64 then if |b| < 8 then TRUNCATED else 8
    else if wireType == BYTES then
      var v := ConsumeVarint(b, 0);
      if v.n < 0 then v.n else if v.value > |b| - v.n then TRUNCATED else v.n + v.value
    else if wireType == END_GROUP then END
    else RESERVED
  }

  /** The length of a leading value of the given wire type. */
  function ConsumeFieldValue(number: nat, wireType: nat, b: seq<Byte>, levels: nat): (r: int)
    ensures r <= |b|
    decreases levels, |b|, 0
  {
    if wireType != START_GROUP then ConsumeScalar(wireType, b)
    else if levels == 0 then DEPTH
    else ConsumeGroup(number, b, levels - 1)
  }

  /** The length of the fields of a group and of its end tag. */
  function ConsumeGroup(number: nat, b: seq<Byte>, levels: nat): (r: int)
    ensures r <= |b|
    decreases levels, |b|, 1
  {
    var tag := ConsumeTag(b);
    if tag.n < 0 then tag.n
    else if tag.wireType == END_GROUP then if tag.number == number then tag.n else END
    else
      var k := ConsumeFieldValue(tag.number, tag.wireType, b[tag.n..], levels);
      if k < 0 then k
      else
        var rest := ConsumeGroup(number, b[tag.n + k..], levels);
        if rest < 0 then rest else tag.n + k + rest
  }

  // ----- The parser accepts exactly what the grammar generates

  lemma {:induction false} VarintSound(b: seq<Byte>, i: nat)
    requires i < 10 && ConsumeVarint(b, i).n > 0
    ensures var v := ConsumeVarint(b, i); IsVarint(b[..v.n], i) && VarintValue(b[..v.n]) == v.value
    decreases 10 - i
  {
    var n := ConsumeVarint(b, i).n;
    if n > 1 {
      VarintSound(b[1..], i + 1);
      assert b[..n][1..] == b[1..][..n - 1];
    } else {
      assert b[..1][1..] == [];
    }
  }

  lemma {:induction false} VarintComplete(v: seq<Byte>, rest: seq<Byte>, i: nat)
    requires IsVarint(v, i)
    ensures ConsumeVarint(v + rest, i) == Varint(VarintValue(v), |v|)
  {
    if |v| > 1 {
      VarintComplete(v[1..], rest, i + 1);
      assert (v + rest)[1..] == v[1..] + rest;
    } else {
      assert v[1..] == [];
    }
  }

  lemma TagSound(b: seq<Byte>)
    requires ConsumeTag(b).n > 0
    ensures var t := ConsumeTag(b); IsTag(b[..t.n], t.number, t.wireType)
  {
    VarintSound(b, 0);
  }

  lemma TagComplete(tag: seq<Byte>, number: nat, wireType: nat, rest: seq<Byte>)
    requires IsTag(tag, number, wireType)
    ensures ConsumeTag(tag + rest) == Tag(number, wireType, |tag|)
  {
    VarintComplete(tag, rest, 0);
  }

  lemma ScalarComplete(t: Tree, rest: seq<Byte>, levels: nat)
    requires !t.Group? && ValidBody(t, levels)
    ensures ConsumeScalar(TypeOf(t), ValueBytes(t) + rest) == |ValueBytes(t)|
  {
    match t
    case Scalar(_, wireType, _, bytes) =>
      if wireType == VARINT {
        VarintComplete(bytes, rest, 0);
      }
    case Delimited(_, _, size, payload) =>
      VarintComplete(size, payload + rest, 0);
      assert ValueBytes(t) + rest == size + (payload + rest);
  }

  lemma {:induction false} ValueComplete(t: Tree, rest: seq<Byte>, levels: nat)
    requires ValidBody(t, levels)
    ensures ConsumeFieldValue(t.number, TypeOf(t), ValueBytes(t) + rest, levels) == |ValueBytes(t)|
    decreases t, 0
  {
    if t.Group? {
      GroupComplete(t.number, t.fields, t.end, rest, levels - 1);
      assert ValueBytes(t) + rest == AllBytes(t.fields) + t.end + rest;
    } else {
      assert TypeOf(t) != START_GROUP;
      ScalarComplete(t, rest, levels);
    }
  }

  /** One field of a group is skipped. */
  lemma GroupStep(number: nat, b: seq<Byte>, n: nat, number2: nat, wireType2: nat, k: nat, levels: nat)
    requires ConsumeTag(b) == Tag(number2, wireType2, n) && wireType2 != END_GROUP
    requires n + k <= |b| && ConsumeFieldValue(number2, wireType2, b[n..], levels) == k
    ensures ConsumeGroup(number, b, levels) ==
            var rest := ConsumeGroup(number, b[n + k..], levels); if rest < 0 then rest else n + k + rest
  {
  }

  lemma {:induction false} GroupComplete(number: nat, fields: seq<Tree>, end: seq<Byte>, rest: seq<Byte>, levels: nat)
    requires AllValid(fields, levels) && IsTag(end, number, END_GROUP)
    ensures ConsumeGroup(number, AllBytes(fields) + end + rest, levels) == |AllBytes(fields)| + |end|
    decreases fields, 1
  {
    var b := AllBytes(fields) + end + rest;
    if fields == [] {
      TagComplete(end, number, END_GROUP, rest);
      assert b == end + rest;
    } else {
      var f := fields[0];
      var value, after := ValueBytes(f), AllBytes(fields[1..]) + end + rest;
      Slices(b, f.tag, value, after);
      TagComplete(f.tag, f.number, TypeOf(f), value + after);
      ValueComplete(f, after, levels);
      GroupComplete(number, fields[1..], end, rest, levels);
      NotEndGroup(f, levels);
      GroupStep(number, b, |f.tag|, f.number, TypeOf(f), |value|, levels);
    }
  }

  lemma NotEndGroup(t: Tree, levels: nat)
    requires Valid(t, levels)
    ensures TypeOf(t) != END_GROUP
  {
    assert ValidBody(t, levels);
  }

  lemma Slices(b: seq<Byte>, tag: seq<Byte>, value: seq<Byte>, after: seq<Byte>)
    requires b == tag + value + after
    ensures b == tag + (value + after) && b[|tag|..] == value + after && b[|tag| + |value|..] == after
  {
  }

  lemma {:induction false} ValueSound(number: nat, wireType: nat, tag: seq<Byte>, b: seq<Byte>, levels: nat)
    returns (t: Tree)
    requires ConsumeFieldValue(number, wireType, b, levels) >= 0
    ensures var n := ConsumeFieldValue(number, wireType, b, levels);
            && ValidBody(t, levels)
            && t.number == number && TypeOf(t) == wireType && t.tag == tag && ValueBytes(t) == b[..n]
    decreases levels, |b|, 0
  {
    var n := ConsumeFieldValue(number, wireType, b, levels);
    if wireType == START_GROUP {
      var fields, end := GroupSound(number, b, levels - 1);
      t := Group(number, tag, fields, end);
    } else if wireType == BYTES {
      VarintSound(b, 0);
      var size := ConsumeVarint(b, 0).n;
      t := Delimited(number, tag, b[..size], b[size..n]);
      assert b[..n] == b[..size] + b[size..n];
    } else {
      if wireType == VARINT {
        VarintSound(b, 0);
      }
      t := Scalar(number, wireType, tag, b[..n]);
    }
  }

  /** What a consumed group starts with, if that is not its end. */
  lemma GroupSplit(number: nat, b: seq<Byte>, levels: nat) returns (tag: Tag, k: nat, rest: nat)
    requires ConsumeGroup(number, b, levels) >= 0 && ConsumeTag(b).wireType != END_GROUP
    ensures tag == ConsumeTag(b) && tag.n > 0 && tag.n + k + rest <= |b|
    ensures ConsumeFieldValue(tag.number, tag.wireType, b[tag.n..], levels) == k
    ensures ConsumeGroup(number, b[tag.n + k..], levels) == rest
    ensures ConsumeGroup(number, b, levels) == tag.n + k + rest
  {
    tag := ConsumeTag(b);
    k := ConsumeFieldValue(tag.number, tag.wireType, b[tag.n..], levels);
    rest := ConsumeGroup(number, b[tag.n + k..], levels);
  }

  lemma GroupEnd(number: nat, b: seq<Byte>, levels: nat)
    requires ConsumeGroup(number, b, levels) >= 0 && ConsumeTag(b).wireType == END_GROUP
    ensures var n := ConsumeTag(b).n; n == ConsumeGroup(number, b, levels) && IsTag(b[..n], number, END_GROUP)
  {
    TagSound(b);
  }

  lemma {:induction false} GroupSound(number: nat, b: seq<Byte>, levels: nat)
    returns (fields: seq<Tree>, end: seq<Byte>)
    requires ConsumeGroup(number, b, levels) >= 0
    ensures AllValid(fields, levels) && IsTag(end, number, END_GROUP)
    ensures AllBytes(fields) + end == b[..ConsumeGroup(number, b, levels)]
    decreases levels, |b|, 1
  {
    if ConsumeTag(b).wireType == END_GROUP {
      GroupEnd(number, b, levels);
      fields, end := [], b[..ConsumeTag(b).n];
      assert AllBytes(fields) + end == end;
    } else {
      var tag, k, rest := GroupSplit(number, b, levels);
      TagSound(b);
      var t := ValueSound(tag.number, tag.wireType, b[..tag.n], b[tag.n..], levels);
      var more;
      more, end := GroupSound(number, b[tag.n + k..], levels);
      fields := [t] + more;
      AllValidCons(t, more, levels);
      AllBytesCons(t, more);
      ThreeParts(b, tag.n, k, rest, AllBytes(more), end);
    }
  }

  lemma AllValidCons(t: Tree, more: seq<Tree>, levels: nat)
    requires IsTag(t.tag, t.number, TypeOf(t)) && ValidBody(t, levels) && AllValid(more, levels)
    ensures AllValid([t] + more, levels)
  {
    assert Valid(t, levels);
  }

  lemma AllBytesCons(t: Tree, more: seq<Tree>)
    ensures AllBytes([t] + more) == t.tag + ValueBytes(t) + AllBytes(more)
  {
    assert ([t] + more)[1..] == more;
  }

  lemma ThreeParts(b: seq<Byte>, n: nat, k: nat, r: nat, more: seq<Byte>, end: seq<Byte>)
    requires n + k + r <= |b| && more + end == b[n + k..][..r]
    ensures b[..n] + b[n..][..k] + more + end == b[..n + k + r]
  {
    assert b[..n] + b[n..][..k] + more + end == b[..n] + b[n..][..k] + (more + end);
  }

  // ----- Writing varints

  /** The shortest varint. */
  function AppendVarint(v: nat): seq<Byte> {
    if v < 128 then [v] else [v % 128 + 128] + AppendVarint(v / 128)
  }

  function Power128(k: nat): nat {
    if k == 0 then 1 else 128 * Power128(k - 1)
  }

  /** From the i-th byte on, 2 * 128^(9-i) values are left of 64 bits. */
  lemma {:induction false} AppendedVarint(v: nat, i: nat)
    requires i < 10 && v < 2 * Power128(9 - i)
    ensures IsVarint(AppendVarint(v), i) && VarintValue(AppendVarint(v)) == v
    decreases v
  {
    assert Power128(0) == 1;
    if v >= 128 {
      assert i < 9 && Power128(9 - i) == 128 * Power128(8 - i);
      AppendedVarint(v / 128, i + 1);
      assert AppendVarint(v)[1..] == AppendVarint(v / 128);
    } else {
      assert AppendVarint(v)[1..] == [];
    }
  }

  function AppendTag(number: nat, wireType: nat): seq<Byte> {
    AppendVarint(number * 8 + wireType)
  }

  lemma AppendedTag(number: nat, wireType: nat)
    requires 1 <= number <= MAX_NUMBER && wireType < 8
    ensures IsTag(AppendTag(number, wireType), number, wireType)
  {
    assert Power128(5) == 128 * 128 * 128 * 128 * 128;
    assert Power128(9) >= Power128(5) by {
      assert Power128(6) == 128 * Power128(5) && Power128(7) == 128 * Power128(6);
      assert Power128(8) == 128 * Power128(7) && Power128(9) == 128 * Power128(8);
    }
    AppendedVarint(number * 8 + wireType, 0);
  }
}
