/** Bool, string and bytes fields (buf/jsonschema.go:551-562, 1354-1380,
    1405-1410 and 1424-1449). The rules that need a regular expression, the
    well-known formats and pattern, prefix, suffix and contains, are left out.
*/
module TextValidation {
  import opened Json
  import opened JsonSchema
  import opened Base64
  import opened Bytes

  // ----- bool

  datatype BoolRules = BoolRules(constant: Option<bool>)

  predicate SatisfiesBool(r: BoolRules, b: bool) {
    r.constant.Some? ==> b == r.constant.value
  }

  function BoolSchema(hasPresence: bool, required: bool, r: BoolRules): Schema {
    var enumeration :=
      if !hasPresence && required then Some([Bool(true)])
      else if r.constant.Some? then Some([Bool(r.constant.value)])
      else None;
    Scalar(Some(TBoolean), enumeration, NO_BOUNDS, NO_TEXT)
  }

  lemma BoolMeaning(hasPresence: bool, required: bool, r: BoolRules, j: Json)
    ensures Accepts(BoolSchema(hasPresence, required, r), j) <==>
            j.Bool? && if !hasPresence && required then j.b else SatisfiesBool(r, j.b)
  {
    ScalarMeaning(BoolSchema(hasPresence, required, r), j);
  }

  method GenerateBool(hasPresence: bool, required: bool, r: BoolRules) returns (schema: Schema)
    ensures schema == BoolSchema(hasPresence, required, r)
  {
    schema := EMPTY.(typ := Some(TBoolean));
    if !hasPresence && required {
      schema := schema.(enumeration := Some([Bool(true)]));
      return;
    }
    if r.constant.Some? {
      schema := schema.(enumeration := Some([Bool(r.constant.value)]));
    }
  }

  // ----- string

  datatype StringRules = StringRules(
    len: Option<nat>, minLen: Option<nat>, maxLen: Option<nat>,
    lenBytes: Option<nat>, minBytes: Option<nat>, maxBytes: Option<nat>,
    constant: Option<string>, allowed: seq<string>, denied: seq<string>)

  /** The size of the UTF-8 encoding of one character, RFC 3629 section 3. */
  function Utf8Size(c: char): nat {
    if c as int < 0x80 then 1 else if c as int < 0x800 then 2 else if c as int < 0x1_0000 then 3 else 4
  }

  function Utf8Length(s: string): nat {
    if s == "" then 0 else Utf8Length(s[..|s| - 1]) + Utf8Size(s[|s| - 1])
  }

  lemma {:induction false} Utf8Bounds(s: string)
    ensures |s| <= Utf8Length(s) <= 4 * |s|
  {
    if s != "" {
      Utf8Bounds(s[..|s| - 1]);
    }
  }

  /** len, min_len and max_len count characters; len_bytes, min_bytes and
      max_bytes count bytes of UTF-8. */
  predicate SatisfiesString(r: StringRules, s: string) {
    && (r.len.Some? ==> |s| == r.len.value)
    && (r.minLen.Some? ==> r.minLen.value <= |s|)
    && (r.maxLen.Some? ==> |s| <= r.maxLen.value)
    && (r.lenBytes.Some? ==> Utf8Length(s) == r.lenBytes.value)
    && (r.minBytes.Some? ==> r.minBytes.value <= Utf8Length(s))
    && (r.maxBytes.Some? ==> Utf8Length(s) <= r.maxBytes.value)
    && (r.constant.Some? ==> s == r.constant.value)
    && (r.allowed != [] ==> s in r.allowed)
    && s !in r.denied
  }

  function Strings(ss: seq<string>): seq<Json> {
    seq(|ss|, i requires 0 <= i < |ss| => Str(ss[i]))
  }

  function StringText(required: bool, r: StringRules): TextKeywords {
    var byBytes :=
      if r.lenBytes.Some? || r.maxBytes.Some? then Some(r.maxBytes.GetOr(0)) else None;
    if r.len.Some? then TextKeywords(r.len, r.len, None)
    else
      var low := if r.minLen.GetOr(0) > 0 then r.minLen else if required then Some(1) else None;
      TextKeywords(low, if r.maxLen.Some? then r.maxLen else byBytes, None)
  }

  function StringEnumeration(r: StringRules): Option<seq<Json>> {
    if r.constant.Some? then Some([Str(r.constant.value)])
    else if r.allowed != [] then Some(Strings(r.allowed))
    else None
  }

  function StringSchema(required: bool, rules: Option<StringRules>): Schema {
    match rules
    case None => Scalar(Some(TString), None, NO_BOUNDS, NO_TEXT)
    case Some(r) => Scalar(Some(TString), StringEnumeration(r), NO_BOUNDS, StringText(required, r))
  }

  /** What a string field admits: const or in, and the length that len fixes, or
      else at least min_len characters, or one if the field is required, and at
      most max_len characters, or as many as max_bytes, or none if there is only
      len_bytes. */
  predicate StringAllowed(required: bool, r: StringRules, s: string) {
    && (if r.constant.Some? then s == r.constant.value else r.allowed != [] ==> s in r.allowed)
    && if r.len.Some? then |s| == r.len.value
       else
         && (if r.minLen.Some? && r.minLen.value > 0 then r.minLen.value <= |s| else required ==> s != "")
         && (if r.maxLen.Some? then |s| <= r.maxLen.value
             else if r.maxBytes.Some? then |s| <= r.maxBytes.value
             else r.lenBytes.Some? ==> s == "")
  }

  lemma StringsMeaning(ss: seq<string>, s: string)
    ensures Str(s) in Strings(ss) <==> s in ss
  {
    if s in ss {
      var i :| 0 <= i < |ss| && ss[i] == s;
      assert Strings(ss)[i] == Str(s);
    }
  }

  /** A string schema accepts exactly the strings that the field admits. */
  lemma StringMeaning(required: bool, rules: Option<StringRules>, j: Json)
    ensures Accepts(StringSchema(required, rules), j) <==>
            j.Str? && (rules.Some? ==> StringAllowed(required, rules.value, j.s))
  {
    ScalarMeaning(StringSchema(required, rules), j);
    if rules.Some? && j.Str? {
      StringsMeaning(rules.value.allowed, j.s);
    }
  }

  /** buf/jsonschema.go:1354-1380 and 1405-1410. A len_bytes rule sets maxLength
      from max_bytes. */
  method GenerateString(required: bool, rules: Option<StringRules>) returns (schema: Schema)
    ensures forall j :: Accepts(schema, j) <==> j.Str? && (rules.Some? ==> StringAllowed(required, rules.value, j.s))
    ensures schema == StringSchema(required, rules)
  {
    forall j
      ensures Accepts(StringSchema(required, rules), j) <==>
              j.Str? && (rules.Some? ==> StringAllowed(required, rules.value, j.s))
    {
      StringMeaning(required, rules, j);
    }
    schema := EMPTY.(typ := Some(TString));
    if rules == None {
      return;
    }
    var r := rules.value;
    var text := NO_TEXT;
    if r.lenBytes.Some? {
      text := text.(maxLength := Some(r.maxBytes.GetOr(0)));
    } else if r.maxBytes.Some? {
      text := text.(maxLength := r.maxBytes);
    }
    if r.len.Some? {
      text := text.(minLength := r.len);
      text := text.(maxLength := r.len);
    } else {
      if r.minLen.Some? && r.minLen.value > 0 {
        text := text.(minLength := r.minLen);
      } else if required {
        text := text.(minLength := Some(1));
      }
      if r.maxLen.Some? {
        text := text.(maxLength := r.maxLen);
      }
    }
    schema := schema.(text := text);
    if r.constant.Some? {
      schema := schema.(enumeration := Some([Str(r.constant.value)]));
    } else if |r.allowed| > 0 {
      schema := schema.(enumeration := Some(Strings(r.allowed)));
    }
  }

  /** The two ways a string that satisfies its rules is still rejected: it is
      empty although required asks for one character, or len_bytes stands alone
      and the string is not empty. */
  predicate StringTrap(required: bool, rules: Option<StringRules>, s: string) {
    && rules.Some?
    && rules.value.len == None
    && if s == "" then required
       else rules.value.lenBytes.Some? && rules.value.maxBytes == None && rules.value.maxLen == None
  }

  lemma StringExact(required: bool, rules: Option<StringRules>, s: string)
    requires rules.Some? ==> SatisfiesString(rules.value, s)
    ensures Accepts(StringSchema(required, rules), Str(s)) <==> !StringTrap(required, rules, s)
  {
    ScalarMeaning(StringSchema(required, rules), Str(s));
    Utf8Bounds(s);
    if rules.Some? {
      var r := rules.value;
      if r.constant == None && r.allowed != [] {
        var i :| 0 <= i < |r.allowed| && r.allowed[i] == s;
        assert Strings(r.allowed)[i] == Str(s);
      }
      assert StringEnumeration(r).Some? ==> Str(s) in StringEnumeration(r).value;
    }
  }

  // ----- bytes

  datatype BytesRules = BytesRules(len: Option<nat>, minLen: Option<nat>, maxLen: Option<nat>)

  predicate SatisfiesBytes(r: BytesRules, b: seq<Byte>) {
    && (r.len.Some? ==> |b| == r.len.value)
    && (r.minLen.Some? ==> r.minLen.value <= |b|)
    && (r.maxLen.Some? ==> |b| <= r.maxLen.value)
  }

  predicate IsUint64(n: Option<nat>) { n.Some? ==> n.value < TWO_TO_64 }

  /** The sizes are of the type their Go fields have. */
  predicate Uint64Sizes(r: BytesRules) {
    IsUint64(r.len) && IsUint64(r.minLen) && IsUint64(r.maxLen)
  }

  function MinimumText(n: nat): nat { EncodedLength(n).0 }

  function MaximumText(n: nat): nat { EncodedLength(n).0 + EncodedLength(n).1 }

  function BytesText(required: bool, r: BytesRules): TextKeywords {
    var low :=
      if r.len.Some? then Some(MinimumText(r.len.value))
      else if r.minLen.Some? then Some(MinimumText(r.minLen.value))
      else if required then Some(1) else None;
    var high :=
      if r.len.Some? then Some(MaximumText(r.len.value))
      else if r.maxLen.Some? then Some(MaximumText(r.maxLen.value)) else None;
    TextKeywords(low, high, Some(Base64Text))
  }

  function BytesSchema(required: bool, rules: Option<BytesRules>): Schema {
    Scalar(Some(TString), None, NO_BOUNDS,
           match rules
           case None => NO_TEXT.(pattern := Some(Base64Text))
           case Some(r) => BytesText(required, r))
  }

  /** What the text of a bytes field may be: base64 digits with at most two '=' at
      the end, as long as the computed lengths of len, or of min_len, or one
      character if the field is required, and of max_len say. */
  predicate BytesAllowed(required: bool, rules: Option<BytesRules>, s: string) {
    && (exists k | 0 <= k <= |s| :: PaddedAt(s, k))
    && (rules.Some? ==>
          var r := rules.value;
          if r.len.Some? then
            var (size, padding) := EncodedLength(r.len.value);
            size <= |s| <= size + padding
          else
            && (if r.minLen.Some? then EncodedLength(r.minLen.value).0 <= |s| else required ==> s != "")
            && (r.maxLen.Some? ==> |s| <= EncodedLength(r.maxLen.value).0 + EncodedLength(r.maxLen.value).1))
  }

  /** A bytes schema accepts exactly those texts. */
  lemma BytesMeaning(required: bool, rules: Option<BytesRules>, j: Json)
    ensures Accepts(BytesSchema(required, rules), j) <==> j.Str? && BytesAllowed(required, rules, j.s)
  {
    ScalarMeaning(BytesSchema(required, rules), j);
  }

  /** buf/jsonschema.go:1424-1449 */
  method GenerateBytes(required: bool, rules: Option<BytesRules>) returns (schema: Schema)
    requires rules.Some? ==> Uint64Sizes(rules.value)
    ensures forall j :: Accepts(schema, j) <==> j.Str? && BytesAllowed(required, rules, j.s)
    ensures schema == BytesSchema(required, rules)
  {
    forall j
      ensures Accepts(BytesSchema(required, rules), j) <==> j.Str? && BytesAllowed(required, rules, j.s)
    {
      BytesMeaning(required, rules, j);
    }
    schema := EMPTY.(typ := Some(TString));
    var text := NO_TEXT.(pattern := Some(Base64Text));
    if rules == None {
      return schema.(text := text);
    }
    var r := rules.value;
    if r.len.Some? {
      var size, padding := Base64EncodedLength(r.len.value);
      text := text.(minLength := Some(size));
      text := text.(maxLength := Some(size + padding));
    } else {
      if r.maxLen.Some? {
        var size, padding := Base64EncodedLength(r.maxLen.value);
        text := text.(maxLength := Some(size + padding));
      }
      if r.minLen.Some? {
        var size, padding := Base64EncodedLength(r.minLen.value);
        text := text.(minLength := Some(size));
      } else if required {
        text := text.(minLength := Some(1));
      }
    }
    schema := schema.(text := text);
  }

  /** Bytes of this size are rejected because the emitted maximum has wrapped: a
      len of 2^62 or more always, a max_len of that size when the text is longer
      than what is left of it. */
  predicate TooLong(r: BytesRules, size: nat) {
    if r.len.Some? then r.len.value >= TWO_TO_62
    else r.maxLen.Some? && r.maxLen.value >= TWO_TO_62 && (size + 2) / 3 * 4 > MaximumText(r.maxLen.value)
  }

  /** The two ways bytes that satisfy their rules are still rejected: they are
      empty and required, with rules that set no length of their own, or they are
      too long for a wrapped maximum. */
  predicate BytesTrap(required: bool, rules: Option<BytesRules>, b: seq<Byte>) {
    && rules.Some?
    && ((rules.value.len == None && rules.value.minLen == None && required && b == []) ||
        TooLong(rules.value, |b|))
  }

  predicate InText(t: TextKeywords, n: nat) {
    (t.minLength.Some? ==> t.minLength.value <= n) && (t.maxLength.Some? ==> n <= t.maxLength.value)
  }

  lemma TextBounds(required: bool, r: BytesRules, b: seq<Byte>)
    requires SatisfiesBytes(r, b) && Uint64Sizes(r)
    ensures InText(BytesText(required, r), |Encode(b)|) <==> !BytesTrap(required, Some(r), b)
  {
    EncodeLength(b);
    if r.len.Some? {
      LowerLength(b, r.len.value);
      if r.len.value < TWO_TO_62 {
        UpperLength(b, r.len.value);
      } else {
        LargeUpperFails(b, r.len.value);
      }
    } else {
      if r.minLen.Some? {
        LowerLength(b, r.minLen.value);
      }
      if r.maxLen.Some? && r.maxLen.value < TWO_TO_62 {
        UpperLength(b, r.maxLen.value);
      }
    }
  }

  lemma BytesExact(required: bool, rules: Option<BytesRules>, b: seq<Byte>)
    requires rules.Some? ==> SatisfiesBytes(rules.value, b) && Uint64Sizes(rules.value)
    ensures Accepts(BytesSchema(required, rules), Str(Encode(b))) <==> !BytesTrap(required, rules, b)
  {
    ScalarMeaning(BytesSchema(required, rules), Str(Encode(b)));
    EncodeMatches(b);
    if rules.Some? {
      TextBounds(required, rules.value, b);
    }
  }

  /** Under max_len alone, every byte string that satisfies it is accepted if and
      only if it is below 2^62. */
  lemma MaxLenExact(max: nat)
    requires max < TWO_TO_64
    ensures var r := BytesRules(None, None, Some(max));
            max < TWO_TO_62 <==>
            forall b: seq<Byte> | SatisfiesBytes(r, b) :: Accepts(BytesSchema(false, Some(r)), Str(Encode(b)))
  {
    var r := BytesRules(None, None, Some(max));
    forall b: seq<Byte> | SatisfiesBytes(r, b)
      ensures Accepts(BytesSchema(false, Some(r)), Str(Encode(b))) <==> !TooLong(r, |b|)
    {
      BytesExact(false, Some(r), b);
    }
    if max >= TWO_TO_62 {
      var b: seq<Byte> := seq(max, _ => 0);
      LargeUpperFails(b, max);
      EncodeLength(b);
      assert SatisfiesBytes(r, b) && TooLong(r, |b|);
    }
  }

  /** At a max_len of 2^62 even four bytes are rejected: the text may have four
      characters. */
  lemma OversizedMaxLenRejects()
    ensures var r := BytesRules(None, None, Some(TWO_TO_62));
            SatisfiesBytes(r, [0, 0, 0, 0]) && !Accepts(BytesSchema(false, Some(r)), Str(Encode([0, 0, 0, 0])))
  {
    BytesExact(false, Some(BytesRules(None, None, Some(TWO_TO_62))), [0, 0, 0, 0]);
    assert EncodedLength(TWO_TO_62) == (1, 3);
  }
}
