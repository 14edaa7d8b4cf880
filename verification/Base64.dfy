/** Base64 text of byte strings, section 4 of RFC 4648, and the length
    computation of buf/jsonschema.go:1412-1422. */
module Base64 {
  import opened Json
  import opened JsonSchema
  import opened Bytes

  const TWO_TO_62: int := 0x4000_0000_0000_0000
  const TWO_TO_64: int := 0x1_0000_0000_0000_0000

  /** The alphabet of table 1. */
  function DigitChar(d: int): char
    requires 0 <= d < 64
  {
    if d < 26 then 'A' + d as char
    else if d < 52 then 'a' + (d - 26) as char
    else if d < 62 then '0' + (d - 52) as char
    else if d == 62 then '+'
    else '/'
  }

  function DigitValue(c: char): (d: int)
    requires Base64Char(c)
  {
    if 'A' <= c <= 'Z' then c as int - 'A' as int
    else if 'a' <= c <= 'z' then c as int - 'a' as int + 26
    else if '0' <= c <= '9' then c as int - '0' as int + 52
    else if c == '+' then 62
    else 63
  }

  /** The four digits of three bytes. */
  function Group(x: Byte, y: Byte, z: Byte): string {
    [DigitChar(x / 4), DigitChar(x % 4 * 16 + y / 16), DigitChar(y % 16 * 4 + z / 64), DigitChar(z % 64)]
  }

  /** The text without padding: a last one or two bytes become two or three
      digits. */
  function Digits64(b: seq<Byte>): string {
    if |b| == 0 then ""
    else if |b| == 1 then Group(b[0], 0, 0)[..2]
    else if |b| == 2 then Group(b[0], b[1], 0)[..3]
    else Group(b[0], b[1], b[2]) + Digits64(b[3..])
  }

  function Padding(n: nat): string {
    if n % 3 == 1 then "==" else if n % 3 == 2 then "=" else ""
  }

  function Encode(b: seq<Byte>): string {
    Digits64(b) + Padding(|b|)
  }

  /** The byte values that consecutive digits spell. */
  function First(c0: char, c1: char): int
    requires Base64Char(c0) && Base64Char(c1)
  {
    DigitValue(c0) * 4 + DigitValue(c1) / 16
  }

  function Second(c1: char, c2: char): int
    requires Base64Char(c1) && Base64Char(c2)
  {
    DigitValue(c1) % 16 * 16 + DigitValue(c2) / 4
  }

  function Third(c2: char, c3: char): int
    requires Base64Char(c2) && Base64Char(c3)
  {
    DigitValue(c2) % 4 * 64 + DigitValue(c3)
  }

  predicate AllBase64(s: string) {
    forall i | 0 <= i < |s| :: Base64Char(s[i])
  }

  /** Reads unpadded text back. */
  function Decode(s: string): Option<seq<int>>
    requires AllBase64(s)
  {
    if |s| == 0 then Some([])
    else if |s| == 1 then None
    else if |s| == 2 then Some([First(s[0], s[1])])
    else if |s| == 3 then Some([First(s[0], s[1]), Second(s[1], s[2])])
    else
      match Decode(s[4..])
      case None => None
      case Some(rest) => Some([First(s[0], s[1]), Second(s[1], s[2]), Third(s[2], s[3])] + rest)
  }

  lemma DigitRoundTrip(d: int)
    requires 0 <= d < 64
    ensures Base64Char(DigitChar(d)) && DigitValue(DigitChar(d)) == d
  {
  }

  /** The digits of a group, read back one by one. */
  lemma GroupDigits(x: Byte, y: Byte, z: Byte)
    ensures AllBase64(Group(x, y, z))
    ensures DigitValue(Group(x, y, z)[0]) == x / 4
    ensures DigitValue(Group(x, y, z)[1]) == x % 4 * 16 + y / 16
    ensures DigitValue(Group(x, y, z)[2]) == y % 16 * 4 + z / 64
    ensures DigitValue(Group(x, y, z)[3]) == z % 64
  {
    DigitRoundTrip(x / 4);
    DigitRoundTrip(x % 4 * 16 + y / 16);
    DigitRoundTrip(y % 16 * 4 + z / 64);
    DigitRoundTrip(z % 64);
  }

  lemma SixBits(x: Byte, y: Byte, z: Byte)
    ensures x / 4 * 4 + (x % 4 * 16 + y / 16) / 16 == x
    ensures (x % 4 * 16 + y / 16) % 16 * 16 + (y % 16 * 4 + z / 64) / 4 == y
    ensures (y % 16 * 4 + z / 64) % 4 * 64 + z % 64 == z
  {
  }

  lemma GroupRoundTrip(x: Byte, y: Byte, z: Byte)
    ensures AllBase64(Group(x, y, z))
    ensures var g := Group(x, y, z); First(g[0], g[1]) == x && Second(g[1], g[2]) == y && Third(g[2], g[3]) == z
  {
    GroupDigits(x, y, z);
    SixBits(x, y, z);
  }

  lemma {:induction false} DigitsAreAlphabet(b: seq<Byte>)
    ensures AllBase64(Digits64(b))
  {
    if |b| > 0 {
      GroupRoundTrip(b[0], if |b| > 1 then b[1] else 0, if |b| > 2 then b[2] else 0);
      if |b| >= 3 {
        DigitsAreAlphabet(b[3..]);
      }
    }
  }

  predicate ReadsBack(text: string, b: seq<int>) {
    AllBase64(text) && Decode(text) == Some(b)
  }

  lemma DecodeTail(x: Byte, y: Byte)
    ensures ReadsBack(Group(x, 0, 0)[..2], [x])
    ensures ReadsBack(Group(x, y, 0)[..3], [x, y])
  {
    GroupRoundTrip(x, 0, 0);
    GroupRoundTrip(x, y, 0);
  }

  lemma DecodeStep(x: Byte, y: Byte, z: Byte, text: string, rest: seq<int>)
    requires ReadsBack(text, rest)
    ensures ReadsBack(Group(x, y, z) + text, [x, y, z] + rest)
  {
    GroupRoundTrip(x, y, z);
    assert (Group(x, y, z) + text)[4..] == text;
  }

  /** The encoder loses nothing: the decoder gives every byte string back. */
  lemma {:induction false} DecodeEncode(b: seq<Byte>)
    ensures ReadsBack(Digits64(b), b)
  {
    if |b| == 0 {
    } else if |b| == 1 {
      DecodeTail(b[0], 0);
      assert b == [b[0]];
    } else if |b| == 2 {
      DecodeTail(b[0], b[1]);
      assert b == [b[0], b[1]];
    } else {
      DecodeEncode(b[3..]);
      DecodeStep(b[0], b[1], b[2], Digits64(b[3..]), b[3..]);
      FirstThree(b);
    }
  }

  lemma FirstThree<T>(s: seq<T>)
    requires |s| >= 3
    ensures [s[0], s[1], s[2]] + s[3..] == s
  {
  }

  /** The number of digits needed for n bytes of six bits a digit. */
  function DigitCount(n: nat): nat {
    (8 * n + 5) / 6
  }

  lemma {:induction false} DigitsLength(b: seq<Byte>)
    ensures |Digits64(b)| == DigitCount(|b|)
  {
    if |b| >= 3 {
      DigitsLength(b[3..]);
      assert |Digits64(b)| == 4 + |Digits64(b[3..])|;
    }
  }

  lemma CountPlusPadding(n: nat)
    ensures DigitCount(n) + |Padding(n)| == (n + 2) / 3 * 4
  {
    DigitCountByThrees(n);
  }

  lemma EncodeLength(b: seq<Byte>)
    ensures |Encode(b)| == DigitCount(|b|) + |Padding(|b|)|
    ensures |Encode(b)| == (|b| + 2) / 3 * 4
  {
    DigitsLength(b);
    CountPlusPadding(|b|);
  }

  lemma EncodeMatches(b: seq<Byte>)
    ensures Matches(Base64Text, Encode(b))
  {
    DigitsAreAlphabet(b);
    assert PaddedAt(Encode(b), |Digits64(b)|);
  }

  // ----- The generator's arithmetic

  /** base64EncodedLength on unsigned 64-bit numbers, as a value. */
  function EncodedLength(n: nat): (nat, nat) {
    var characters := n * 4 % TWO_TO_64 / 3 + if n % 3 != 0 then 1 else 0;
    (characters, (4 - characters % 4) % 4)
  }

  /** buf/jsonschema.go:1412-1422. Only the product can leave 64 bits. */
  method Base64EncodedLength(inputSize: nat) returns (characters: nat, padding: nat)
    requires inputSize < TWO_TO_64
    ensures (characters, padding) == EncodedLength(inputSize)
    ensures characters < TWO_TO_64
  {
    characters := inputSize * 4 % TWO_TO_64 / 3;
    if inputSize % 3 != 0 {
      characters := characters + 1;
    }
    padding := (4 - characters % 4) % 4;
  }

  lemma SmallSizeExact(n: nat)
    requires n < TWO_TO_62
    ensures EncodedLength(n).0 == DigitCount(n)
  {
    assert n * 4 % TWO_TO_64 == n * 4;
    DigitCountByThrees(n);
    var q, r := n / 3, n % 3;
    assert n * 4 == 3 * (4 * q + r) + r;
  }

  /** From 2^62 on the product has wrapped, and both results fall short. */
  lemma LargeSizeWraps(n: nat)
    requires TWO_TO_62 <= n < TWO_TO_64
    ensures EncodedLength(n).0 + EncodedLength(n).1 < DigitCount(n)
  {
    assert n * 4 % TWO_TO_64 <= n * 4 - TWO_TO_64;
  }

  /** Four digits for every three bytes, and one more than the bytes left over. */
  lemma DigitCountByThrees(n: nat)
    ensures DigitCount(n) == n / 3 * 4 + if n % 3 == 0 then 0 else n % 3 + 1
  {
    var q, r := n / 3, n % 3;
    assert n == 3 * q + r;
    assert 8 * n + 5 == 6 * (4 * q) + (8 * r + 5);
  }

  lemma PaddingOf(n: nat)
    ensures (4 - DigitCount(n) % 4) % 4 == |Padding(n)| <= 2
  {
    DigitCountByThrees(n);
    var q, c := n / 3, if n % 3 == 0 then 0 else n % 3 + 1;
    assert (q * 4 + c) % 4 == c % 4;
  }

  /** The two results are the unpadded length and the padding of every byte
      string of that size exactly when the size is below 2^62. */
  lemma EncodedLengthExact(n: nat)
    requires n < TWO_TO_64
    ensures n < TWO_TO_62 <==> EncodedLength(n).0 == DigitCount(n)
    ensures n < TWO_TO_62 ==> EncodedLength(n).1 == |Padding(n)| <= 2
    ensures n < TWO_TO_62 ==> EncodedLength(n).0 + EncodedLength(n).1 == (n + 2) / 3 * 4
  {
    if n < TWO_TO_62 {
      SmallSizeExact(n);
      PaddingOf(n);
      CountPlusPadding(n);
    } else {
      LargeSizeWraps(n);
    }
  }

  /** The minimum emitted for at least `low` bytes holds of their text, padded or
      not, whatever `low` is. */
  lemma LowerLength(b: seq<Byte>, low: nat)
    requires low <= |b| && low < TWO_TO_64
    ensures EncodedLength(low).0 <= |Digits64(b)| <= |Encode(b)|
  {
    DigitsLength(b);
    if low < TWO_TO_62 {
      SmallSizeExact(low);
    } else {
      LargeSizeWraps(low);
    }
  }

  lemma UpperLength(b: seq<Byte>, high: nat)
    requires |b| <= high < TWO_TO_62
    ensures |Digits64(b)| <= |Encode(b)| <= EncodedLength(high).0 + EncodedLength(high).1
  {
    EncodeLength(b);
    EncodedLengthExact(high);
  }

  lemma LargeUpperFails(b: seq<Byte>, high: nat)
    requires |b| == high && TWO_TO_62 <= high < TWO_TO_64
    ensures |Encode(b)| > EncodedLength(high).0 + EncodedLength(high).1
  {
    EncodeLength(b);
    LargeSizeWraps(high);
  }

  /** The maximum emitted for at most `high` bytes holds of all their texts if and
      only if `high` is below 2^62. */
  lemma UpperLengthIff(high: nat)
    requires high < TWO_TO_64
    ensures high < TWO_TO_62 <==>
            forall b: seq<Byte> | |b| <= high :: |Encode(b)| <= EncodedLength(high).0 + EncodedLength(high).1
  {
    if high < TWO_TO_62 {
      forall b: seq<Byte> | |b| <= high
        ensures |Encode(b)| <= EncodedLength(high).0 + EncodedLength(high).1
      {
        UpperLength(b, high);
      }
    } else {
      LargeUpperFails(seq(high, _ => 0), high);
    }
  }
}
