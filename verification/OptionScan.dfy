/** The scanner for method options (main.go:160-234) over their encoded bytes. */
module OptionScan {
  import opened Json
  import opened Bytes
  import opened Wire

  /** `value` is the encoded value with any length prefix, without the tag. */
  datatype OptionField = OptionField(number: nat, wireType: nat, value: seq<Byte>)

  datatype Slice = Slice(tag: seq<Byte>, field: OptionField)

  datatype Next = Stop | Found(slice: Slice, rest: seq<Byte>)

  /** The field at the start of the buffer, if there is one. */
  function NextField(b: seq<Byte>): (r: Next)
    ensures r.Found? ==> |r.rest| < |b|
  {
    if b == [] then Stop
    else
      var t := ConsumeTag(b);
      if t.n < 0 then Stop
      else
        var v := ConsumeFieldValue(t.number, t.wireType, b[t.n..], LEVELS);
        if v < 0 then Stop
        else Found(Slice(b[..t.n], OptionField(t.number, t.wireType, b[t.n..t.n + v])), b[t.n + v..])
  }

  /** The fields yielded for a buffer, with their tags. */
  function Scan(b: seq<Byte>): seq<Slice>
    decreases |b|
  {
    match NextField(b)
    case Stop => []
    case Found(slice, rest) => [slice] + Scan(rest)
  }

  /** Where the scan stops. */
  function Unscanned(b: seq<Byte>): seq<Byte>
    decreases |b|
  {
    match NextField(b)
    case Stop => b
    case Found(_, rest) => Unscanned(rest)
  }

  function Fields(slices: seq<Slice>): seq<OptionField> {
    seq(|slices|, i requires 0 <= i < |slices| => slices[i].field)
  }

  function Flatten(slices: seq<Slice>): seq<Byte> {
    if slices == [] then [] else slices[0].tag + slices[0].field.value + Flatten(slices[1..])
  }

  /** What is consumed is a value, and any value at the start is consumed. */
  lemma ConsumedIsValue(b: seq<Byte>, number: nat, wireType: nat, k: nat)
    requires k <= |b|
    ensures ConsumeFieldValue(number, wireType, b, LEVELS) == k <==> IsValue(number, wireType, b[..k])
  {
    if ConsumeFieldValue(number, wireType, b, LEVELS) == k {
      var t := ValueSound(number, wireType, [], b, LEVELS);
    }
    if IsValue(number, wireType, b[..k]) {
      var t :| ValidBody(t, LEVELS) && t.number == number && TypeOf(t) == wireType && ValueBytes(t) == b[..k];
      ValueComplete(t, b[k..], LEVELS);
      assert b == b[..k] + b[k..];
    }
  }

  /** main.go:161-167. The rest is what follows the one value at the start of the
      buffer, and there is none exactly when the buffer starts with no value. */
  method SkipNextField(b: seq<Byte>, number: nat, wireType: nat) returns (rest: Option<seq<Byte>>)
    ensures forall k | 0 <= k <= |b| :: IsValue(number, wireType, b[..k]) <==> rest == Some(b[k..])
    ensures rest.Some? ==> exists k | 0 <= k <= |b| :: rest == Some(b[k..])
    ensures var n := ConsumeFieldValue(number, wireType, b, LEVELS);
            rest == if n < 0 then None else Some(b[n..])
  {
    forall k | 0 <= k <= |b|
      ensures IsValue(number, wireType, b[..k]) <==> ConsumeFieldValue(number, wireType, b, LEVELS) == k
    {
      ConsumedIsValue(b, number, wireType, k);
    }
    var valueBytes := ConsumeFieldValue(number, wireType, b, LEVELS);
    if valueBytes < 0 {
      return None;
    }
    assert forall k | 0 <= k <= |b| :: |b[k..]| == |b| - k;
    return Some(b[valueBytes..]);
  }

  /** One round of the loop, main.go:188-201. */
  method ReadField(b: seq<Byte>) returns (next: Next)
    requires b != []
    ensures next == NextField(b)
  {
    var tag := ConsumeTag(b);
    if tag.n < 0 {
      return Stop;
    }
    var value := b[tag.n..];
    var rest := SkipNextField(value, tag.number, tag.wireType);
    if rest == None {
      return Stop;
    }
    var field := OptionField(tag.number, tag.wireType, value[..|value| - |rest.value|]);
    next := Found(Slice(b[..tag.n], field), rest.value);
    var n := ConsumeFieldValue(tag.number, tag.wireType, value, LEVELS);
    assert value[..n] == b[tag.n..tag.n + n] && value[n..] == b[tag.n + n..];
  }

  /** The loop of main.go:187-206, run to its end. Every round consumes at least
      one byte. */
  method MethodOptionFields(options: seq<Byte>) returns (slices: seq<Slice>)
    ensures slices == Scan(options)
  {
    slices := [];
    var b := options;
    while |b| > 0
      invariant slices + Scan(b) == Scan(options)
      decreases |b|
    {
      var next := ReadField(b);
      match next {
        case Stop => return;
        case Found(slice, rest) =>
          slices := slices + [slice];
          b := rest;
      }
    }
  }

  // ----- The scan tiles the buffer

  lemma ScanCons(b: seq<Byte>, slice: Slice, rest: seq<Byte>)
    requires NextField(b) == Found(slice, rest)
    ensures Scan(b) == [slice] + Scan(rest) && Unscanned(b) == Unscanned(rest)
  {
  }

  lemma FieldsCons(slice: Slice, more: seq<Slice>)
    ensures Fields([slice] + more) == [slice.field] + Fields(more)
  {
  }

  lemma Tile(b: seq<Byte>, slice: Slice, rest: seq<Byte>, more: seq<Slice>, left: seq<Byte>)
    requires b == slice.tag + slice.field.value + rest && Flatten(more) + left == rest
    ensures Flatten([slice] + more) + left == b
  {
    assert ([slice] + more)[1..] == more;
    var head := slice.tag + slice.field.value;
    assert head + Flatten(more) + left == head + (Flatten(more) + left);
  }

  lemma NextTiles(b: seq<Byte>, slice: Slice, rest: seq<Byte>)
    requires NextField(b) == Found(slice, rest)
    ensures b == slice.tag + slice.field.value + rest
  {
  }

  /** The slices are consecutive from the start of the buffer. */
  lemma {:induction false} ScanTiles(b: seq<Byte>)
    ensures Flatten(Scan(b)) + Unscanned(b) == b
    decreases |b|
  {
    match NextField(b)
    case Stop =>
    case Found(slice, rest) =>
      ScanTiles(rest);
      ScanCons(b, slice, rest);
      NextTiles(b, slice, rest);
      Tile(b, slice, rest, Scan(rest), Unscanned(rest));
  }

  lemma Regroup(a: seq<Byte>, b: seq<Byte>, c: seq<Byte>)
    ensures a + b + c == a + (b + c)
  {
  }

  /** A written field is found, whatever follows it. */
  lemma NextComplete(t: Tree, after: seq<Byte>)
    requires Valid(t, LEVELS)
    ensures NextField(t.tag + (ValueBytes(t) + after)) ==
            Found(SliceOf(t), after)
  {
    var b := t.tag + (ValueBytes(t) + after);
    TagComplete(t.tag, t.number, TypeOf(t), ValueBytes(t) + after);
    ValueComplete(t, after, LEVELS);
    assert b[|t.tag|..] == ValueBytes(t) + after;
  }

  lemma Cut(b: seq<Byte>, i: nat, n: nat)
    requires i + n <= |b|
    ensures b[i..][..n] == b[i..i + n] && b == b[..i] + (b[i..i + n] + b[i + n..])
  {
  }

  /** A found field is a written field. */
  lemma NextSound(b: seq<Byte>) returns (t: Tree)
    requires NextField(b).Found?
    ensures var next := NextField(b);
            && Valid(t, LEVELS)
            && next.slice == SliceOf(t)
            && b == t.tag + (ValueBytes(t) + next.rest)
  {
    TagSound(b);
    var tag := ConsumeTag(b);
    t := ValueSound(tag.number, tag.wireType, b[..tag.n], b[tag.n..], LEVELS);
    Cut(b, tag.n, ConsumeFieldValue(tag.number, tag.wireType, b[tag.n..], LEVELS));
  }

  /** The scan of a written field and what follows it. */
  lemma ScanWritten(t: Tree, after: seq<Byte>)
    requires Valid(t, LEVELS)
    ensures var b := t.tag + (ValueBytes(t) + after);
            Scan(b) == [SliceOf(t)] + Scan(after) && Unscanned(b) == Unscanned(after)
  {
    NextComplete(t, after);
    ScanCons(t.tag + (ValueBytes(t) + after), SliceOf(t), after);
  }

  function SliceOf(t: Tree): Slice {
    Slice(t.tag, OptionField(t.number, TypeOf(t), ValueBytes(t)))
  }

  function SlicesOf(ts: seq<Tree>): seq<Slice> {
    if ts == [] then [] else [SliceOf(ts[0])] + SlicesOf(ts[1..])
  }

  lemma {:induction false} ScanComplete(ts: seq<Tree>)
    requires AllValid(ts, LEVELS)
    ensures Unscanned(AllBytes(ts)) == [] && Scan(AllBytes(ts)) == SlicesOf(ts)
  {
    if ts != [] {
      var t, more := ts[0], ts[1..];
      ScanComplete(more);
      Regroup(t.tag, ValueBytes(t), AllBytes(more));
      ScanWritten(t, AllBytes(more));
    }
  }

  lemma {:induction false} ScanSound(b: seq<Byte>) returns (ts: seq<Tree>)
    requires Unscanned(b) == []
    ensures AllValid(ts, LEVELS) && AllBytes(ts) == b
    decreases |b|
  {
    match NextField(b)
    case Stop => ts := [];
    case Found(slice, rest) =>
      var t := NextSound(b);
      ScanCons(b, slice, rest);
      var more := ScanSound(rest);
      ts := [t] + more;
      AllValidCons(t, more, LEVELS);
      AllBytesCons(t, more);
      Regroup(t.tag, ValueBytes(t), rest);
  }

  /** The scan covers the whole buffer if and only if the buffer is well formed,
      nested groups included. */
  lemma CoversIffWellFormed(b: seq<Byte>)
    ensures Unscanned(b) == [] <==> WellFormed(b)
  {
    if Unscanned(b) == [] {
      var ts := ScanSound(b);
    }
    if ts :| AllValid(ts, LEVELS) && AllBytes(ts) == b {
      ScanComplete(ts);
    }
  }

  // ----- Round trip

  /** A value that is exactly one encoded value of its wire type. */
  predicate ValidField(f: OptionField) {
    1 <= f.number <= MAX_NUMBER && f.wireType < 8 &&
    ConsumeFieldValue(f.number, f.wireType, f.value, LEVELS) == |f.value|
  }

  function Serialize(fields: seq<OptionField>): seq<Byte> {
    if fields == [] then []
    else AppendTag(fields[0].number, fields[0].wireType) + (fields[0].value + Serialize(fields[1..]))
  }

  lemma FieldAsTree(f: OptionField) returns (t: Tree)
    requires ValidField(f)
    ensures Valid(t, LEVELS) && SliceOf(t) == Slice(AppendTag(f.number, f.wireType), f)
  {
    AppendedTag(f.number, f.wireType);
    t := ValueSound(f.number, f.wireType, AppendTag(f.number, f.wireType), f.value, LEVELS);
    assert f.value[..|f.value|] == f.value;
  }

  /** Writing any fields and scanning the bytes gives the fields back. */
  lemma {:induction false} RoundTrip(fields: seq<OptionField>)
    requires forall i | 0 <= i < |fields| :: ValidField(fields[i])
    ensures Fields(Scan(Serialize(fields))) == fields && Unscanned(Serialize(fields)) == []
  {
    if fields != [] {
      var f, more := fields[0], fields[1..];
      RoundTrip(more);
      var t := FieldAsTree(f);
      ScanWritten(t, Serialize(more));
      FieldsCons(SliceOf(t), Scan(Serialize(more)));
      assert fields == [f] + more;
    }
  }

  // ----- Looking up one option

  function FirstMatch(fields: seq<OptionField>, number: nat, wireType: nat): Option<seq<Byte>> {
    if fields == [] then None
    else if fields[0].number == number && fields[0].wireType == wireType then Some(fields[0].value)
    else FirstMatch(fields[1..], number, wireType)
  }

  /** The first varint field of that number has one of the expected values. */
  predicate HasOption(b: seq<Byte>, number: nat, expected: seq<nat>) {
    match FirstMatch(Fields(Scan(b)), number, VARINT)
    case None => false
    case Some(value) => VarintValue(value) in expected
  }

  /** UTF-8 by the syntax of section 4 of RFC 3629. */
  predicate ValidUtf8(b: seq<Byte>)
    decreases |b|
  {
    if b == [] then true
    else if b[0] < 0x80 then ValidUtf8(b[1..])
    else if 0xC2 <= b[0] <= 0xDF then |b| >= 2 && Tail(b[1]) && ValidUtf8(b[2..])
    else if 0xE0 <= b[0] <= 0xEF then
      && |b| >= 3 && Tail(b[1]) && Tail(b[2])
      && (b[0] == 0xE0 ==> b[1] >= 0xA0) && (b[0] == 0xED ==> b[1] < 0xA0)
      && ValidUtf8(b[3..])
    else
      && 0xF0 <= b[0] <= 0xF4
      && |b| >= 4 && Tail(b[1]) && Tail(b[2]) && Tail(b[3])
      && (b[0] == 0xF0 ==> b[1] >= 0x90) && (b[0] == 0xF4 ==> b[1] < 0x90)
      && ValidUtf8(b[4..])
  }

  predicate Tail(b: Byte) { 0x80 <= b < 0xC0 }

  /** The bytes of a length-delimited value behind its length. */
  function Payload(value: seq<Byte>): seq<Byte> {
    var size := ConsumeVarint(value, 0);
    if size.n < 0 then [] else value[size.n..]
  }

  function TextOf(payload: seq<Byte>): seq<Byte> {
    if ValidUtf8(payload) then payload else []
  }

  /** The text of the first length-delimited field of that number, or nothing. */
  function OptionString(b: seq<Byte>, number: nat): seq<Byte> {
    match FirstMatch(Fields(Scan(b)), number, BYTES)
    case None => []
    case Some(value) => TextOf(Payload(value))
  }

  /** A found value parses again, in full: the errors that the lookups discard do
      not occur. */
  lemma FoundValueParses(b: seq<Byte>)
    requires NextField(b).Found?
    ensures var f := NextField(b).slice.field;
            && (f.wireType == VARINT ==> ConsumeVarint(f.value, 0) == Varint(VarintValue(f.value), |f.value|))
            && (f.wireType == BYTES ==>
                  var size := ConsumeVarint(f.value, 0); size.n > 0 && size.n + size.value == |f.value|)
  {
    var t := NextSound(b);
    assert ValueBytes(t) + [] == ValueBytes(t);
    if TypeOf(t) == VARINT {
      assert ValidBody(t, LEVELS) && t.Scalar?;
      VarintComplete(t.bytes, [], 0);
    } else if TypeOf(t) == BYTES {
      assert ValidBody(t, LEVELS);
      assert t.Delimited?;
      VarintComplete(t.size, t.payload, 0);
    }
  }

  lemma NoText(b: seq<Byte>, number: nat)
    requires FirstMatch(Fields(Scan(b)), number, BYTES) == None
    ensures OptionString(b, number) == []
  {
  }

  lemma FoundText(b: seq<Byte>, number: nat, value: seq<Byte>)
    requires FirstMatch(Fields(Scan(b)), number, BYTES) == Some(value)
    ensures OptionString(b, number) == TextOf(Payload(value))
  {
  }

  lemma NothingLeft(b: seq<Byte>, number: nat, wireType: nat)
    requires NextField(b) == Stop
    ensures FirstMatch(Fields(Scan(b)), number, wireType) == None
  {
  }

  /** The first field of that number and wire type. */
  predicate IsFirst(fields: seq<OptionField>, i: int, number: nat, wireType: nat) {
    && 0 <= i < |fields| && fields[i].number == number && fields[i].wireType == wireType
    && forall k | 0 <= k < i :: !(fields[k].number == number && fields[k].wireType == wireType)
  }

  lemma {:induction false} FirstMatchAt(fields: seq<OptionField>, i: nat, number: nat, wireType: nat)
    requires IsFirst(fields, i, number, wireType)
    ensures FirstMatch(fields, number, wireType) == Some(fields[i].value)
  {
    if i > 0 {
      assert forall k | 0 < k <= i :: fields[1..][k - 1] == fields[k];
      FirstMatchAt(fields[1..], i - 1, number, wireType);
    }
  }

  lemma {:induction false} NoMatch(fields: seq<OptionField>, number: nat, wireType: nat)
    requires forall k | 0 <= k < |fields| :: !(fields[k].number == number && fields[k].wireType == wireType)
    ensures FirstMatch(fields, number, wireType) == None
  {
    if fields != [] {
      NoMatch(fields[1..], number, wireType);
    }
  }

  lemma {:induction false} MatchIndex(fields: seq<OptionField>, number: nat, wireType: nat) returns (i: nat)
    requires FirstMatch(fields, number, wireType).Some?
    ensures IsFirst(fields, i, number, wireType)
  {
    if fields[0].number == number && fields[0].wireType == wireType {
      i := 0;
    } else {
      var rest := MatchIndex(fields[1..], number, wireType);
      assert forall k | 0 < k <= rest + 1 :: fields[k] == fields[1..][k - 1];
      i := rest + 1;
    }
  }

  /** The answer of the lookup, over the fields of the scan: some field is the first
      varint of that number and its value is expected. */
  lemma HasOptionIff(b: seq<Byte>, number: nat, expected: seq<nat>)
    ensures HasOption(b, number, expected) <==>
            exists i | 0 <= i < |Fields(Scan(b))| ::
              IsFirst(Fields(Scan(b)), i, number, VARINT) && VarintValue(Fields(Scan(b))[i].value) in expected
  {
    var fields := Fields(Scan(b));
    if FirstMatch(fields, number, VARINT).Some? {
      var i := MatchIndex(fields, number, VARINT);
      FirstMatchAt(fields, i, number, VARINT);
    }
    forall i | 0 <= i < |fields| && IsFirst(fields, i, number, VARINT)
      ensures FirstMatch(fields, number, VARINT) == Some(fields[i].value)
    {
      FirstMatchAt(fields, i, number, VARINT);
    }
  }

  /** And over fields as a writer puts them one after the other: the first varint of
      that number decides, by the value that was written. */
  lemma HasOptionWritten(fields: seq<OptionField>, i: nat, v: nat, number: nat, expected: seq<nat>)
    requires forall k | 0 <= k < |fields| :: ValidField(fields[k])
    requires IsFirst(fields, i, number, VARINT) && fields[i].value == AppendVarint(v) && v < 0x1_0000_0000_0000_0000
    ensures HasOption(Serialize(fields), number, expected) <==> v in expected
  {
    RoundTrip(fields);
    FirstMatchAt(fields, i, number, VARINT);
    SmallVarint(v);
  }

  /** Without a varint of that number the answer is no. */
  lemma HasOptionAbsent(fields: seq<OptionField>, number: nat, expected: seq<nat>)
    requires forall k | 0 <= k < |fields| :: ValidField(fields[k])
    requires forall k | 0 <= k < |fields| :: !(fields[k].number == number && fields[k].wireType == VARINT)
    ensures !HasOption(Serialize(fields), number, expected)
  {
    RoundTrip(fields);
    NoMatch(fields, number, VARINT);
  }

  lemma SmallVarint(v: nat)
    requires v < 0x1_0000_0000_0000_0000
    ensures IsVarint(AppendVarint(v), 0) && VarintValue(AppendVarint(v)) == v
  {
    assert Power128(9) == 0x8000_0000_0000_0000 by {
      assert Power128(1) == 128 && Power128(2) == 0x4000 && Power128(3) == 0x20_0000;
      assert Power128(4) == 0x1000_0000 && Power128(5) == 0x8_0000_0000 && Power128(6) == 0x400_0000_0000;
      assert Power128(7) == 0x2_0000_0000_0000 && Power128(8) == 0x100_0000_0000_0000;
    }
    AppendedVarint(v, 0);
  }

  /** main.go:210-218 */
  method HasMethodOption(options: seq<Byte>, fieldNum: nat, expectedValues: seq<nat>) returns (r: bool)
    ensures r <==> HasOption(options, fieldNum, expectedValues)
    ensures r <==> exists i | 0 <= i < |Fields(Scan(options))| ::
                     && IsFirst(Fields(Scan(options)), i, fieldNum, VARINT)
                     && VarintValue(Fields(Scan(options))[i].value) in expectedValues
  {
    HasOptionIff(options, fieldNum, expectedValues);
    var b := options;
    while |b| > 0
      invariant FirstMatch(Fields(Scan(b)), fieldNum, VARINT) == FirstMatch(Fields(Scan(options)), fieldNum, VARINT)
      decreases |b|
    {
      var next := ReadField(b);
      if next == Stop {
        return false;
      }
      var field := next.slice.field;
      ScanStep(b, fieldNum, VARINT);
      if field.number == fieldNum && field.wireType == VARINT {
        FoundValueParses(b);
        var value := ConsumeVarint(field.value, 0).value;
        return value in expectedValues;
      }
      b := next.rest;
    }
    return false;
  }

  /** The text of an option as a writer puts it, a length and the text: the first
      length-delimited field of that number decides, if its text is UTF-8. */
  lemma OptionStringWritten(fields: seq<OptionField>, i: nat, text: seq<Byte>, number: nat)
    requires forall k | 0 <= k < |fields| :: ValidField(fields[k])
    requires IsFirst(fields, i, number, BYTES) && fields[i].value == AppendVarint(|text|) + text
    requires |text| < 0x1_0000_0000_0000_0000
    ensures OptionString(Serialize(fields), number) == if ValidUtf8(text) then text else []
  {
    RoundTrip(fields);
    FirstMatchAt(fields, i, number, BYTES);
    SmallVarint(|text|);
    VarintComplete(AppendVarint(|text|), text, 0);
    assert Payload(fields[i].value) == text;
  }

  lemma OptionStringAbsent(fields: seq<OptionField>, number: nat)
    requires forall k | 0 <= k < |fields| :: ValidField(fields[k])
    requires forall k | 0 <= k < |fields| :: !(fields[k].number == number && fields[k].wireType == BYTES)
    ensures OptionString(Serialize(fields), number) == []
  {
    RoundTrip(fields);
    NoMatch(fields, number, BYTES);
  }

  /** What the lookup does with its match, main.go:226-230. */
  method FieldText(value: seq<Byte>) returns (s: seq<Byte>)
    requires var size := ConsumeVarint(value, 0); size.n > 0 && size.n + size.value == |value|
    ensures s == TextOf(Payload(value))
    ensures ValidUtf8(s)
  {
    var size := ConsumeVarint(value, 0);
    s := value[size.n..size.n + size.value];
    assert s == Payload(value);
    if !ValidUtf8(s) {
      return [];
    }
  }

  /** main.go:223-234 */
  method GetMethodOptionString(options: seq<Byte>, fieldNum: nat) returns (s: seq<Byte>)
    ensures s == OptionString(options, fieldNum)
    ensures ValidUtf8(s)
  {
    var b := options;
    while |b| > 0
      invariant FirstMatch(Fields(Scan(b)), fieldNum, BYTES) == FirstMatch(Fields(Scan(options)), fieldNum, BYTES)
      decreases |b|
    {
      var next := ReadField(b);
      if next == Stop {
        break;
      }
      var field := next.slice.field;
      ScanStep(b, fieldNum, BYTES);
      if field.number == fieldNum && field.wireType == BYTES {
        FoundText(options, fieldNum, field.value);
        FoundValueParses(b);
        s := FieldText(field.value);
        return;
      }
      b := next.rest;
    }
    NothingLeft(b, fieldNum, BYTES);
    NoText(options, fieldNum);
    return [];
  }

  lemma ScanStep(b: seq<Byte>, number: nat, wireType: nat)
    requires NextField(b).Found?
    ensures var next := NextField(b);
            FirstMatch(Fields(Scan(b)), number, wireType) ==
            if next.slice.field.number == number && next.slice.field.wireType == wireType
            then Some(next.slice.field.value) else FirstMatch(Fields(Scan(next.rest)), number, wireType)
  {
    var next := NextField(b);
    ScanCons(b, next.slice, next.rest);
    FieldsCons(next.slice, Scan(next.rest));
    assert ([next.slice.field] + Fields(Scan(next.rest)))[1..] == Fields(Scan(next.rest));
  }

  // ----- Only the first match counts

  lemma PrefixCons(slice: Slice, a: seq<Slice>, b: seq<Slice>)
    requires a <= b
    ensures [slice] + a <= [slice] + b
  {
  }

  lemma MoreBehind(a: seq<Byte>, b: seq<Byte>, c: seq<Byte>, d: seq<Byte>)
    ensures a + (b + c) + d == a + (b + (c + d))
  {
    assert a + (b + c) + d == a + ((b + c) + d) && (b + c) + d == b + (c + d);
  }

  /** More bytes behind a buffer leave the field at its start as it is. */
  lemma NextStable(b: seq<Byte>, suffix: seq<Byte>, slice: Slice, rest: seq<Byte>)
    requires NextField(b) == Found(slice, rest)
    ensures NextField(b + suffix) == Found(slice, rest + suffix)
  {
    var t := NextSound(b);
    NextComplete(t, rest + suffix);
    MoreBehind(t.tag, ValueBytes(t), rest, suffix);
  }

  /** More bytes behind a buffer leave the fields found in it as they are. */
  lemma {:induction false} ScanPrefix(b: seq<Byte>, suffix: seq<Byte>)
    ensures Scan(b) <= Scan(b + suffix)
    decreases |b|
  {
    match NextField(b)
    case Stop =>
    case Found(slice, rest) =>
      NextStable(b, suffix, slice, rest);
      ScanPrefix(rest, suffix);
      ScanCons(b, slice, rest);
      ScanCons(b + suffix, slice, rest + suffix);
      PrefixCons(slice, Scan(rest), Scan(rest + suffix));
  }

  lemma {:induction false} FirstMatchPrefix(a: seq<OptionField>, b: seq<OptionField>, number: nat, wireType: nat)
    requires a <= b && FirstMatch(a, number, wireType).Some?
    ensures FirstMatch(b, number, wireType) == FirstMatch(a, number, wireType)
  {
    if !(a[0].number == number && a[0].wireType == wireType) {
      FirstMatchPrefix(a[1..], b[1..], number, wireType);
    }
  }

  /** Once a buffer holds a match, nothing appended to it, well formed or not,
      changes the answer of either lookup. */
  lemma LookupIgnoresSuffix(b: seq<Byte>, suffix: seq<Byte>, number: nat, expected: seq<nat>)
    ensures FirstMatch(Fields(Scan(b)), number, VARINT).Some? ==>
              (HasOption(b + suffix, number, expected) <==> HasOption(b, number, expected))
    ensures FirstMatch(Fields(Scan(b)), number, BYTES).Some? ==>
              OptionString(b + suffix, number) == OptionString(b, number)
  {
    ScanPrefix(b, suffix);
    var a, c := Fields(Scan(b)), Fields(Scan(b + suffix));
    assert a <= c;
    if FirstMatch(a, number, VARINT).Some? {
      FirstMatchPrefix(a, c, number, VARINT);
    }
    if FirstMatch(a, number, BYTES).Some? {
      FirstMatchPrefix(a, c, number, BYTES);
    }
  }

  /** A field in front that does not match does not matter either. */
  lemma LookupSkipsOthers(f: OptionField, rest: seq<Byte>, number: nat, wireType: nat)
    requires ValidField(f) && !(f.number == number && f.wireType == wireType)
    ensures FirstMatch(Fields(Scan(AppendTag(f.number, f.wireType) + (f.value + rest))), number, wireType) ==
            FirstMatch(Fields(Scan(rest)), number, wireType)
  {
    var t := FieldAsTree(f);
    NextComplete(t, rest);
    ScanStep(AppendTag(f.number, f.wireType) + (f.value + rest), number, wireType);
  }
}
