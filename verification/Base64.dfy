/** Base64 as the bridge writes and reads it: encoding/base64's StdEncoding, lines of 76
    columns, and the guess whether attachment data is encoded at all. */
module Base64 {
  import opened Ids
  import opened Text

  type Byte = c: char | c as int < 256

  const CRLF: seq<Byte> := "\r\n"
  const COLUMNS := 76

  // ---------- one digit ----------

  function Digit(v: nat): Byte
    requires v < 64
  {
    if v < 26 then ('A' as int + v) as char
    else if v < 52 then ('a' as int + (v - 26)) as char
    else if v < 62 then ('0' as int + (v - 52)) as char
    else if v == 62 then '+' else '/'
  }

  function Value(c: char): (v: Option<nat>)
    ensures v.Some? ==> v.value < 64
  {
    if 'A' <= c <= 'Z' then Some(c as int - 'A' as int)
    else if 'a' <= c <= 'z' then Some(c as int - 'a' as int + 26)
    else if '0' <= c <= '9' then Some(c as int - '0' as int + 52)
    else if c == '+' then Some(62)
    else if c == '/' then Some(63)
    else None
  }

  lemma {:induction false} DigitHasValue(v: nat)
    requires v < 64
    ensures Value(Digit(v)) == Some(v) && !IsSpace(Digit(v)) && Digit(v) != '='
  {
  }

  // ---------- groups of three bytes and four digits ----------

  function Three(a: Byte, b: Byte, c: Byte): seq<Byte> {
    var x, y, z := a as int, b as int, c as int;
    [Digit(x / 4), Digit(x % 4 * 16 + y / 16), Digit(y % 16 * 4 + z / 64), Digit(z % 64)]
  }

  function PaddedTwo(a: Byte, b: Byte): seq<Byte> {
    var x, y := a as int, b as int;
    [Digit(x / 4), Digit(x % 4 * 16 + y / 16), Digit(y % 16 * 4), '=']
  }

  function PaddedOne(a: Byte): seq<Byte> {
    var x := a as int;
    [Digit(x / 4), Digit(x % 4 * 16), '=', '=']
  }

  /** EncodeToString. */
  function Encode(data: seq<Byte>): (text: seq<Byte>)
    ensures |text| == (|data| + 2) / 3 * 4
    decreases |data|
  {
    if data == [] then []
    else if |data| == 1 then PaddedOne(data[0])
    else if |data| == 2 then PaddedTwo(data[0], data[1])
    else Three(data[0], data[1], data[2]) + Encode(data[3..])
  }

  function AsByte(n: nat): Byte
    requires n < 256
  {
    n as char
  }

  function First(v0: nat, v1: nat): Byte
    requires v0 < 64 && v1 < 64
  {
    AsByte(v0 * 4 + v1 / 16)
  }

  function Second(v1: nat, v2: nat): Byte
    requires v1 < 64 && v2 < 64
  {
    AsByte(v1 % 16 * 16 + v2 / 4)
  }

  function Third(v2: nat, v3: nat): Byte
    requires v2 < 64 && v3 < 64
  {
    AsByte(v2 % 4 * 64 + v3)
  }

  /** StdEncoding.Decode on text without white space: padding only at the very end, and the
      bits below a padded byte are not looked at. */
  function Decode(text: string): (data: Option<seq<Byte>>)
    ensures data.Some? ==> 4 * |data.value| <= 3 * |text|
    decreases |text|
  {
    if text == "" then Some([])
    else if |text| < 4 then None
    else
      match (Value(text[0]), Value(text[1]))
      case (Some(v0), Some(v1)) =>
        if text[2] == '=' then
          if text[3] == '=' && |text| == 4 then Some([First(v0, v1)]) else None
        else
          (match Value(text[2])
           case Some(v2) =>
             if text[3] == '=' then
               if |text| == 4 then Some([First(v0, v1), Second(v1, v2)]) else None
             else
               (match (Value(text[3]), Decode(text[4..]))
                case (Some(v3), Some(rest)) => Some([First(v0, v1), Second(v1, v2), Third(v2, v3)] + rest)
                case _ => None)
           case None => None)
      case _ => None
  }

  lemma {:induction false} FirstByte(a: Byte, low: nat)
    requires low < 16
    ensures First(a as int / 4, a as int % 4 * 16 + low) == a
  {
  }

  lemma {:induction false} SecondByte(high: nat, b: Byte, low: nat)
    requires high < 4 && low < 4
    ensures Second(high * 16 + b as int / 16, b as int % 16 * 4 + low) == b
  {
  }

  lemma {:induction false} ThirdByte(high: nat, c: Byte)
    requires high < 16
    ensures Third(high * 4 + c as int / 64, c as int % 64) == c
  {
  }

  lemma {:induction false} DecodeThree(a: Byte, b: Byte, c: Byte, rest: string)
    requires Decode(rest).Some?
    ensures Decode(Three(a, b, c) + rest) == Some([a, b, c] + Decode(rest).value)
  {
    var x, y, z := a as int, b as int, c as int;
    var v0, v1, v2, v3 := x / 4, x % 4 * 16 + y / 16, y % 16 * 4 + z / 64, z % 64;
    var text := Three(a, b, c) + rest;
    DigitHasValue(v0);
    DigitHasValue(v1);
    DigitHasValue(v2);
    DigitHasValue(v3);
    assert text[4..] == rest;
    FirstByte(a, y / 16);
    SecondByte(x % 4, b, z / 64);
    ThirdByte(y % 16, c);
  }

  lemma {:induction false} DecodeTwo(a: Byte, b: Byte)
    ensures Decode(PaddedTwo(a, b)) == Some([a, b])
  {
    var x, y := a as int, b as int;
    DigitHasValue(x / 4);
    DigitHasValue(x % 4 * 16 + y / 16);
    DigitHasValue(y % 16 * 4);
    FirstByte(a, y / 16);
    SecondByte(x % 4, b, 0);
  }

  lemma {:induction false} DecodeOne(a: Byte)
    ensures Decode(PaddedOne(a)) == Some([a])
  {
    var x := a as int;
    DigitHasValue(x / 4);
    DigitHasValue(x % 4 * 16);
    FirstByte(a, 0);
  }

  lemma {:induction false} DecodeEncode(data: seq<Byte>)
    ensures Decode(Encode(data)) == Some(data)
    decreases |data|
  {
    if |data| == 1 {
      DecodeOne(data[0]);
      assert data == [data[0]];
    } else if |data| == 2 {
      DecodeTwo(data[0], data[1]);
      assert data == [data[0], data[1]];
    } else if |data| > 2 {
      DecodeEncode(data[3..]);
      DecodeThree(data[0], data[1], data[2], Encode(data[3..]));
      assert data == [data[0], data[1], data[2]] + data[3..];
    }
  }

  // ---------- lines ----------

  /** Text in lines of 76 columns. */
  function Wrapped(text: seq<Byte>): (lines: seq<Byte>)
    ensures |lines| == |text| + 2 * ((|text| + 75) / 76)
    decreases |text|
  {
    if text == [] then []
    else
      var n := if |text| < COLUMNS then |text| else COLUMNS;
      text[..n] + CRLF + Wrapped(text[n..])
  }

  function Base64Lines(data: seq<Byte>): seq<Byte> { if data == [] then CRLF else Wrapped(Encode(data)) }

  function As(n: nat): seq<Byte> { seq(n, _ => 'A') }

  /** What writeBase64Placeholder writes for a declared size. */
  function PlaceholderLines(rawSize: int): seq<Byte> {
    if rawSize <= 0 then CRLF else Wrapped(As((rawSize + 2) / 3 * 4))
  }

  /** The bytes a payload of n raw bytes takes. */
  function PayloadSize(n: nat): nat {
    if n == 0 then 2 else var digits := (n + 2) / 3 * 4; digits + 2 * ((digits + 75) / 76)
  }

  /** The real lines and the placeholder for the same size take the same number of bytes. */
  lemma {:induction false} PlaceholderHasPayloadSize(data: seq<Byte>, rawSize: int)
    ensures |Base64Lines(data)| == PayloadSize(|data|)
    ensures |PlaceholderLines(rawSize)| == PayloadSize(if rawSize > 0 then rawSize else 0)
  {
  }

  // ---------- reading ----------

  function Compact(raw: string): string
    decreases |raw|
  {
    if raw == "" then ""
    else Compact(raw[..|raw| - 1]) + if IsSpace(raw[|raw| - 1]) then "" else [raw[|raw| - 1]]
  }

  lemma {:induction false} CompactConcat(a: string, b: string)
    ensures Compact(a + b) == Compact(a) + Compact(b)
    decreases |b|
  {
    if b == "" {
      assert a + b == a;
    } else {
      assert (a + b)[..|a + b| - 1] == a + b[..|b| - 1];
      CompactConcat(a, b[..|b| - 1]);
    }
  }

  predicate Dense(s: string) { forall c :: c in s ==> !IsSpace(c) }

  lemma {:induction false} CompactDense(s: string)
    requires Dense(s)
    ensures Compact(s) == s
    decreases |s|
  {
    if s != "" {
      assert s[|s| - 1] in s;
      forall c | c in s[..|s| - 1] ensures c in s {}
      CompactDense(s[..|s| - 1]);
    }
  }

  lemma {:induction false} CompactLines(text: seq<Byte>)
    requires Dense(text)
    ensures Compact(Wrapped(text)) == text
    decreases |text|
  {
    if text != [] {
      var n := if |text| < COLUMNS then |text| else COLUMNS;
      var line, rest := text[..n], text[n..];
      CompactLines(rest);
      CompactDense(line);
      CompactConcat(line + CRLF, Wrapped(rest));
      CompactConcat(line, CRLF);
      CompactCRLF();
    }
  }

  lemma {:induction false} CompactCRLF()
    ensures Compact(CRLF) == ""
  {
    assert CRLF[..1] == "\r" && "\r"[..0] == "";
  }

  lemma {:induction false} EncodeIsDense(data: seq<Byte>)
    ensures Dense(Encode(data))
    decreases |data|
  {
    if |data| > 0 {
      forall v: nat | v < 64 ensures !IsSpace(Digit(v)) { DigitHasValue(v); }
      if |data| > 2 { EncodeIsDense(data[3..]); }
    }
  }

  lemma {:induction false} CompactPayload(data: seq<Byte>)
    ensures Compact(Base64Lines(data)) == Encode(data)
  {
    EncodeIsDense(data);
    CompactLines(Encode(data));
    CompactCRLF();
  }

  function DecodeChunk(raw: string): Option<seq<Byte>> { Decode(Compact(raw)) }

  /** Decoding the written lines gives back every byte. */
  lemma {:induction false} DecodeChunkInvertsLines(data: seq<Byte>)
    ensures DecodeChunk(Base64Lines(data)) == Some(data)
  {
    CompactPayload(data);
    DecodeEncode(data);
  }

  lemma {:induction false} CompactShrinks(raw: string)
    ensures |Compact(raw)| <= |raw|
    decreases |raw|
  {
    if raw != "" { CompactShrinks(raw[..|raw| - 1]); }
  }

  // ---------- is the data encoded at all? ----------

  const LONG_ENOUGH := 16

  /** decodeAttachmentData. */
  function DecodeAttachmentData(raw: seq<Byte>, declared: int): seq<Byte> {
    match DecodeChunk(raw)
    case None => raw
    case Some(data) =>
      if declared > 0 && |data| == declared then data
      else if declared > 0 && |raw| == declared then raw
      else if |Compact(raw)| >= LONG_ENOUGH then data
      else raw
  }

  /** An exact declared size always tells encoded data from plain data, whatever the
      plain data looks like. */
  lemma {:induction false} DeclaredSizeDecides(data: seq<Byte>)
    requires data != []
    ensures DecodeAttachmentData(Base64Lines(data), |data|) == data
    ensures DecodeAttachmentData(data, |data|) == data
  {
    DecodeChunkInvertsLines(data);
    CompactShrinks(data);
  }

  lemma {:induction false} PayloadGrows(n: nat)
    ensures PayloadSize(n) > n
    ensures (n + 2) / 3 * 4 >= LONG_ENOUGH <==> n >= 10
  {
    var groups := (n + 2) / 3;
    assert 3 * groups >= n;
  }

  /** Without a declared size, encoded data is recognised exactly from ten bytes on. */
  lemma {:induction false} UnknownSizeDecodesLongData(data: seq<Byte>, declared: int)
    requires declared <= 0
    ensures DecodeAttachmentData(Base64Lines(data), declared) == data <==> |data| >= 10
  {
    DecodeChunkInvertsLines(data);
    CompactPayload(data);
    PayloadGrows(|data|);
    assert |Base64Lines(data)| == PayloadSize(|data|);
  }

  // ---------- the loops ----------

  lemma {:induction false} NextLine(out: seq<Byte>, text: seq<Byte>, n: nat)
    requires text != [] && n == (if |text| < COLUMNS then |text| else COLUMNS)
    ensures out + Wrapped(text) == out + (text[..n] + CRLF) + Wrapped(text[n..])
  {
  }

  /** writeBase64. */
  method WriteBase64(data: seq<Byte>) returns (out: seq<Byte>)
    ensures out == Base64Lines(data)
  {
    var encoded := Encode(data);
    out := [];
    while |encoded| > 0
      invariant out + Wrapped(encoded) == Wrapped(Encode(data))
    {
      var n := if |encoded| < COLUMNS then |encoded| else COLUMNS;
      NextLine(out, encoded, n);
      out := out + (encoded[..n] + CRLF);
      encoded := encoded[n..];
    }
    if |data| == 0 { out := out + CRLF; }
  }

  lemma {:induction false} NextPlaceholderLine(out: seq<Byte>, size: nat, n: nat)
    requires size > 0 && n == (if size < COLUMNS then size else COLUMNS)
    ensures out + Wrapped(As(size)) == out + (As(n) + CRLF) + Wrapped(As(size - n))
  {
    NextLine(out, As(size), n);
    assert As(size)[..n] == As(n) && As(size)[n..] == As(size - n);
  }

  /** writeBase64Placeholder. */
  method WriteBase64Placeholder(rawSize: int) returns (out: seq<Byte>)
    ensures out == PlaceholderLines(rawSize)
  {
    if rawSize <= 0 { return CRLF; }
    var encodedSize: nat := (rawSize + 2) / 3 * 4;
    ghost var full := Wrapped(As(encodedSize));
    out := [];
    while encodedSize > 0
      invariant out + Wrapped(As(encodedSize)) == full
    {
      var n := if encodedSize < COLUMNS then encodedSize else COLUMNS;
      NextPlaceholderLine(out, encodedSize, n);
      out := out + (As(n) + CRLF);
      encodedSize := encodedSize - n;
    }
  }

  /** decodeBase64Chunk; the compact length is returned only with data. */
  method DecodeBase64Chunk(raw: seq<Byte>) returns (data: Option<seq<Byte>>, compactLen: nat)
    ensures data == DecodeChunk(raw) && compactLen == if data.Some? then |Compact(raw)| else 0
  {
    var compact: string := "";
    for i := 0 to |raw|
      invariant compact == Compact(raw[..i])
    {
      assert raw[..i + 1][..i] == raw[..i];
      if !IsSpace(raw[i]) { compact := compact + [raw[i]]; }
    }
    assert raw[..|raw|] == raw;
    data := Decode(compact);
    compactLen := if data.Some? then |compact| else 0;
  }
}
