/** The few string operations shared by the event log and the recurrence rules. */
module Text {
  import opened Ids

  /** strings.Split on a single character: always at least one piece. */
  function Split(s: string, sep: char): (pieces: seq<string>)
    ensures |pieces| > 0
    decreases |s|
  {
    if s == [] then [""]
    else
      var before, c := Split(s[..|s| - 1], sep), s[|s| - 1];
      if c == sep then before + [""] else before[..|before| - 1] + [before[|before| - 1] + [c]]
  }

  /** The text after the last separator. */
  function LastPiece(s: string, sep: char): string { var pieces := Split(s, sep); pieces[|pieces| - 1] }

  function Join(pieces: seq<string>, sep: char): string
    decreases |pieces|
  {
    if pieces == [] then ""
    else if |pieces| == 1 then pieces[0]
    else Join(pieces[..|pieces| - 1], sep) + [sep] + pieces[|pieces| - 1]
  }

  lemma {:induction false} SplitText(s: string, text: string, sep: char)
    requires sep !in text
    ensures Split(s + text, sep) == Split(s, sep)[..|Split(s, sep)| - 1] + [LastPiece(s, sep) + text]
    decreases |text|
  {
    if text == [] {
      assert s + text == s && LastPiece(s, sep) + text == LastPiece(s, sep);
    } else {
      var init := text[..|text| - 1];
      assert (s + text)[..|s + text| - 1] == s + init;
      SplitText(s, init, sep);
      assert (LastPiece(s, sep) + init) + [text[|text| - 1]] == LastPiece(s, sep) + text;
    }
  }

  lemma {:induction false} SplitSeparator(s: string, sep: char)
    ensures Split(s + [sep], sep) == Split(s, sep) + [""]
  {
    assert (s + [sep])[..|s|] == s;
  }

  lemma {:induction false} SplitSnoc(s: string, text: string, sep: char)
    requires sep !in text
    ensures Split(s + [sep] + text, sep) == Split(s, sep) + [text]
  {
    SplitSeparator(s, sep);
    SplitText(s + [sep], text, sep);
    assert (Split(s, sep) + [""])[..|Split(s, sep)|] == Split(s, sep);
    assert "" + text == text;
  }

  lemma {:induction false} JoinSnoc(pieces: seq<string>, last: string, sep: char)
    requires pieces != []
    ensures Join(pieces + [last], sep) == Join(pieces, sep) + [sep] + last
  {
    assert (pieces + [last])[..|pieces|] == pieces;
  }

  /** Pieces that do not hold the separator are split apart again as they were joined. */
  lemma {:induction false} SplitJoin(pieces: seq<string>, sep: char)
    requires pieces != [] && forall p :: p in pieces ==> sep !in p
    ensures Split(Join(pieces, sep), sep) == pieces
    decreases |pieces|
  {
    var init, last := pieces[..|pieces| - 1], pieces[|pieces| - 1];
    assert last in pieces && pieces == init + [last];
    if init == [] {
      SplitText("", last, sep);
      assert "" + last == last;
      assert pieces == [last];
    } else {
      SplitJoin(init, sep);
      JoinSnoc(init, last, sep);
      SplitSnoc(Join(init, sep), last, sep);
    }
  }

  /** strings.Cut at the first separator. */
  function Cut(s: string, sep: char): Option<(string, string)>
    decreases |s|
  {
    if s == [] then None
    else if s[0] == sep then Some(("", s[1..]))
    else match Cut(s[1..], sep) case Some((k, v)) => Some(([s[0]] + k, v)) case None => None
  }

  lemma {:induction false} CutPair(k: string, v: string, sep: char)
    requires sep !in k
    ensures Cut(k + [sep] + v, sep) == Some((k, v))
    decreases |k|
  {
    var s := k + [sep] + v;
    if k == [] {
      assert s[0] == sep && s[1..] == v;
    } else {
      assert s[1..] == k[1..] + [sep] + v;
      CutPair(k[1..], v, sep);
      assert [s[0]] + k[1..] == k;
    }
  }

  predicate IsSpace(c: char) { c == ' ' || c == '\t' || c == '\n' || c == '\r' }

  function TrimLeft(s: string): string
    decreases |s|
  {
    if s != [] && IsSpace(s[0]) then TrimLeft(s[1..]) else s
  }

  function TrimRight(s: string): string
    decreases |s|
  {
    if s != [] && IsSpace(s[|s| - 1]) then TrimRight(s[..|s| - 1]) else s
  }

  function TrimSpace(s: string): string { TrimRight(TrimLeft(s)) }

  function UpperChar(c: char): char { if 'a' <= c <= 'z' then (c as int - 'a' as int + 'A' as int) as char else c }

  function ToUpper(s: string): string
    decreases |s|
  {
    if s == [] then [] else ToUpper(s[..|s| - 1]) + [UpperChar(s[|s| - 1])]
  }

  /** Upper-case letters, digits, comma and minus. */
  predicate Plain(s: string) { forall c :: c in s ==> 'A' <= c <= 'Z' || '0' <= c <= '9' || c == ',' || c == '-' }

  lemma {:induction false} PlainStays(s: string)
    requires Plain(s)
    ensures TrimSpace(s) == s && ToUpper(s) == s
    decreases |s|
  {
    if s != [] {
      assert s[0] in s && s[|s| - 1] in s;
      var init := s[..|s| - 1];
      assert s == init + [s[|s| - 1]];
      forall c | c in init ensures c in s {}
      PlainStays(init);
    }
  }

  // ---------- decimal numbers ----------

  function DigitChar(d: nat): char
    requires d < 10
  {
    ('0' as int + d) as char
  }

  predicate IsDigit(c: char) { '0' <= c <= '9' }

  function DigitValue(c: char): nat
    requires IsDigit(c)
  {
    c as int - '0' as int
  }

  function Decimal(n: nat): (s: string)
    ensures s != [] && (forall c :: c in s ==> IsDigit(c))
  {
    if n < 10 then [DigitChar(n)] else Decimal(n / 10) + [DigitChar(n % 10)]
  }

  function DecimalInt(n: int): string { if n < 0 then "-" + Decimal(-n) else Decimal(n) }

  function ParseDigits(s: string): Option<nat>
    decreases |s|
  {
    if s == [] then Some(0)
    else if !IsDigit(s[|s| - 1]) then None
    else match ParseDigits(s[..|s| - 1]) case Some(n) => Some(10 * n + DigitValue(s[|s| - 1])) case None => None
  }

  /** strconv.Atoi without the range check. */
  function Atoi(s: string): Option<int> {
    var signed := s != [] && (s[0] == '-' || s[0] == '+');
    var digits := if signed then s[1..] else s;
    if digits == [] then None
    else match ParseDigits(digits)
      case Some(n) => Some(if signed && s[0] == '-' then 0 - n else n + 0)
      case None => None
  }

  lemma {:induction false} DecimalParses(n: nat)
    ensures ParseDigits(Decimal(n)) == Some(n)
  {
    if n < 10 {
      assert [DigitChar(n)][..0] == [];
    } else {
      DecimalParses(n / 10);
      var s := Decimal(n);
      assert s[..|s| - 1] == Decimal(n / 10);
    }
  }

  lemma {:induction false} AtoiDecimal(n: int)
    ensures Atoi(DecimalInt(n)) == Some(n) && Plain(DecimalInt(n)) && DecimalInt(n) != []
  {
    if n < 0 {
      DecimalParses(-n);
      assert ("-" + Decimal(-n))[1..] == Decimal(-n);
    } else {
      DecimalParses(n);
      assert Decimal(n)[0] in Decimal(n);
    }
  }
}
