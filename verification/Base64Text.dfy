/** The text of base64 against its definition in section 4 of RFC 4648, and the place of every
    digit in the written lines. */
module Base64Text {
  import opened Ids
  import opened Base64

  const UPPER := "ABCDEFGHIJKLMNOPQRSTUVWXYZ"
  const LOWER := "abcdefghijklmnopqrstuvwxyz"
  const OTHERS := "0123456789+/"

  lemma {:induction false} UpperDigit(v: nat)
    requires v < 26
    ensures |UPPER| == 26 && Digit(v) == UPPER[v]
  {
  }

  lemma {:induction false} LowerDigit(v: nat)
    requires v < 26
    ensures |LOWER| == 26 && Digit(v + 26) == LOWER[v]
  {
  }

  lemma {:induction false} OtherDigit(v: nat)
    requires v < 12
    ensures |OTHERS| == 12 && Digit(v + 52) == OTHERS[v]
  {
  }

  /** The digits are the letters of the standard alphabet in their order, and reading a
      character gives its place in it. */
  lemma {:induction false} AlphabetIsStandard(v: nat)
    requires v < 64
    ensures Digit(v) == (UPPER + LOWER + OTHERS)[v]
    ensures Value((UPPER + LOWER + OTHERS)[v]) == Some(v)
  {
    if v < 26 { UpperDigit(v); }
    else if v < 52 { LowerDigit(v - 26); }
    else { OtherDigit(v - 52); }
    DigitHasValue(v);
  }

  lemma {:induction false} OnlyTheAlphabetHasValues(c: char)
    ensures Value(c).Some? ==> c as int < 128 && Digit(Value(c).value) == c
  {
  }

  // ---------- groups as numbers ----------

  function Digits(text: seq<Byte>): (n: nat)
    decreases |text|
  {
    if text == [] then 0
    else
      var v := Value(text[|text| - 1]);
      Digits(text[..|text| - 1]) * 64 + if v.Some? then v.value else 0
  }

  lemma {:induction false} DigitsSnoc(text: seq<Byte>, v: nat)
    requires v < 64
    ensures Digits(text + [Digit(v)]) == Digits(text) * 64 + v
  {
    assert (text + [Digit(v)])[..|text|] == text;
    DigitHasValue(v);
  }

  lemma {:induction false} FourDigits(v0: nat, v1: nat, v2: nat, v3: nat)
    requires v0 < 64 && v1 < 64 && v2 < 64 && v3 < 64
    ensures Digits([Digit(v0), Digit(v1)]) == v0 * 64 + v1
    ensures Digits([Digit(v0), Digit(v1), Digit(v2)]) == (v0 * 64 + v1) * 64 + v2
    ensures Digits([Digit(v0), Digit(v1), Digit(v2), Digit(v3)]) == ((v0 * 64 + v1) * 64 + v2) * 64 + v3
  {
    DigitsSnoc([], v0);
    DigitsSnoc([Digit(v0)], v1);
    DigitsSnoc([Digit(v0), Digit(v1)], v2);
    DigitsSnoc([Digit(v0), Digit(v1), Digit(v2)], v3);
    assert [] + [Digit(v0)] == [Digit(v0)] && Digits([]) == 0;
    assert [Digit(v0)] + [Digit(v1)] == [Digit(v0), Digit(v1)];
    assert [Digit(v0), Digit(v1)] + [Digit(v2)] == [Digit(v0), Digit(v1), Digit(v2)];
    assert [Digit(v0), Digit(v1), Digit(v2)] + [Digit(v3)] == [Digit(v0), Digit(v1), Digit(v2), Digit(v3)];
  }

  lemma {:induction false} Bits(x: nat, y: nat, z: nat)
    requires x < 256 && y < 256 && z < 256
    ensures x / 4 * 64 + (x % 4 * 16 + y / 16) == x * 16 + y / 16
    ensures (x * 16 + y / 16) * 64 + (y % 16 * 4 + z / 64) == (x * 256 + y) * 4 + z / 64
    ensures ((x * 256 + y) * 4 + z / 64) * 64 + z % 64 == (x * 256 + y) * 256 + z
  {
  }

  lemma {:induction false} ThreeIsNumber(a: Byte, b: Byte, c: Byte)
    ensures Digits(Three(a, b, c)) == (a as int * 256 + b as int) * 256 + c as int
  {
    var x, y, z := a as int, b as int, c as int;
    Bits(x, y, z);
    FourDigits(x / 4, x % 4 * 16 + y / 16, y % 16 * 4 + z / 64, z % 64);
  }

  lemma {:induction false} TwoIsNumber(a: Byte, b: Byte)
    ensures Digits(PaddedTwo(a, b)[..3]) == (a as int * 256 + b as int) * 4
  {
    var x, y := a as int, b as int;
    Bits(x, y, 0);
    FourDigits(x / 4, x % 4 * 16 + y / 16, y % 16 * 4, 0);
    assert PaddedTwo(a, b)[..3] == [Digit(x / 4), Digit(x % 4 * 16 + y / 16), Digit(y % 16 * 4)];
  }

  lemma {:induction false} OneIsNumber(a: Byte)
    ensures Digits(PaddedOne(a)[..2]) == a as int * 16
  {
    var x := a as int;
    Bits(x, 0, 0);
    FourDigits(x / 4, x % 4 * 16, 0, 0);
    assert PaddedOne(a)[..2] == [Digit(x / 4), Digit(x % 4 * 16)];
  }

  /** Four digits stand for the number that the three bytes make; with a byte or two missing,
      zero bits fill the last digit and `=` the group. */
  lemma {:induction false} GroupsAreNumbers(a: Byte, b: Byte, c: Byte)
    ensures Digits(Three(a, b, c)) == (a as int * 256 + b as int) * 256 + c as int
    ensures Digits(PaddedTwo(a, b)[..3]) == (a as int * 256 + b as int) * 4 && PaddedTwo(a, b)[3] == '='
    ensures Digits(PaddedOne(a)[..2]) == a as int * 16 && PaddedOne(a)[2..] == ['=', '=']
  {
    ThreeIsNumber(a, b, c);
    TwoIsNumber(a, b);
    OneIsNumber(a);
  }

  lemma {:induction false} LaterGroup(group: seq<Byte>, rest: seq<Byte>, k: nat)
    requires |group| == 4 && k > 0 && 4 * k <= |rest|
    ensures (group + rest)[4 * k..4 * k + 4] == rest[4 * k - 4..4 * k]
  {
  }

  lemma {:induction false} FirstGroup(data: seq<Byte>)
    requires data != []
    ensures Encode(data)[..4]
      == if 2 < |data| then Three(data[0], data[1], data[2])
         else if 1 < |data| then PaddedTwo(data[0], data[1]) else PaddedOne(data[0])
  {
    if |data| > 2 {
      var group := Three(data[0], data[1], data[2]);
      assert (group + Encode(data[3..]))[..4] == group;
    }
  }

  /** The k-th group of an encoding is that of the k-th three bytes. */
  lemma {:induction false} GroupAt(data: seq<Byte>, k: nat)
    requires 3 * k < |data|
    ensures 4 * k + 4 <= |Encode(data)|
    ensures Encode(data)[4 * k..4 * k + 4] == Encode(data[3 * k..])[..4]
    decreases k
  {
    if k > 0 {
      GroupAt(data[3..], k - 1);
      LaterGroup(Three(data[0], data[1], data[2]), Encode(data[3..]), k);
      assert data[3..][3 * k - 3..] == data[3 * k..];
    } else {
      assert data[0..] == data;
    }
  }

  /** Read back, four digits give the bytes of their number, and a padded group those of its
      leading bits. */
  lemma {:induction false} BytesOfDigits(v0: nat, v1: nat, v2: nat, v3: nat)
    requires v0 < 64 && v1 < 64 && v2 < 64 && v3 < 64
    ensures First(v0, v1) as int == (v0 * 64 + v1) / 16
    ensures First(v0, v1) as int * 256 + Second(v1, v2) as int == ((v0 * 64 + v1) * 64 + v2) / 4
    ensures (First(v0, v1) as int * 256 + Second(v1, v2) as int) * 256 + Third(v2, v3) as int
      == ((v0 * 64 + v1) * 64 + v2) * 64 + v3
  {
  }

  /** Only whole groups are accepted, and `=` only in the last two places. */
  lemma {:induction false} AcceptsOnlyGroups(text: string)
    requires Decode(text).Some?
    ensures |text| == (|Decode(text).value| + 2) / 3 * 4
    ensures forall i :: 0 <= i < |text| && Value(text[i]).None? ==> text[i] == '=' && i + 2 >= |text|
    decreases |text|
  {
    if |text| > 4 {
      AcceptsOnlyGroups(text[4..]);
      forall i | 0 <= i < |text| && Value(text[i]).None? ensures text[i] == '=' && i + 2 >= |text| {
        if i >= 4 { assert text[4..][i - 4] == text[i]; }
      }
    }
  }

  // ---------- lines of 76 columns ----------

  /** Every digit is in its line, 76 to a line, each line followed by a line break. */
  lemma {:induction false} DigitIsInItsLine(text: seq<Byte>, i: nat)
    requires i < |text|
    ensures i + 2 * (i / 76) < |Wrapped(text)| && Wrapped(text)[i + 2 * (i / 76)] == text[i]
    decreases |text|
  {
    if i >= 76 {
      DigitIsInItsLine(text[76..], i - 76);
      assert i / 76 == (i - 76) / 76 + 1;
      assert (text[..76] + CRLF)[..] == text[..76] + CRLF && |text[..76] + CRLF| == 78;
    }
  }

  lemma {:induction false} LineEnds(text: seq<Byte>, k: nat)
    requires 76 * k < |text|
    ensures var end := 2 * k + if 76 * k + 76 < |text| then 76 * k + 76 else |text|;
      end + 2 <= |Wrapped(text)| && Wrapped(text)[end..end + 2] == "\r\n"
    decreases k
  {
    if k > 0 {
      LineEnds(text[76..], k - 1);
      var end := 2 * k + if 76 * k + 76 < |text| then 76 * k + 76 else |text|;
      var line, rest := text[..76] + CRLF, Wrapped(text[76..]);
      assert (line + rest)[end..end + 2] == rest[end - 78..end - 76];
    } else {
      var n := if |text| < COLUMNS then |text| else COLUMNS;
      assert (text[..n] + CRLF + Wrapped(text[n..]))[n..n + 2] == CRLF;
    }
  }

  // ---------- the guess ----------

  /** With a declared size that fits neither reading, ten bytes decide; what is no base64 is
      left as it is, whatever was declared. */
  lemma {:induction false} MisfittingSizeDecodesLongData(data: seq<Byte>, declared: int)
    requires declared !in {|data|, |Base64Lines(data)|}
    ensures DecodeAttachmentData(Base64Lines(data), declared) == data <==> |data| >= 10
    ensures DecodeChunk(data) == None ==> DecodeAttachmentData(data, declared) == data
  {
    DecodeChunkInvertsLines(data);
    CompactPayload(data);
    PayloadGrows(|data|);
    PlaceholderHasPayloadSize(data, 0);
  }
}
