/** The string operations against what they promise: nothing is lost by splitting, cutting or
    trimming, and numbers are decimal. */
module TextLaws {
  import opened Ids
  import opened Text

  /** The pieces hold no separator, and joined by it they give the text back. */
  lemma {:induction false} SplitLosesNothing(s: string, sep: char)
    ensures Join(Split(s, sep), sep) == s
    ensures forall p :: p in Split(s, sep) ==> sep !in p
    decreases |s|
  {
    if s != [] {
      var init, c, before := s[..|s| - 1], s[|s| - 1], Split(s[..|s| - 1], sep);
      assert s == init + [c];
      SplitLosesNothing(init, sep);
      if c == sep {
        JoinSnoc(before, "", sep);
        assert init + [sep] + "" == s;
      } else {
        JoinLonger(before, c, sep);
        var longer := before[..|before| - 1] + [before[|before| - 1] + [c]];
        forall p | p in longer ensures sep !in p {
          if p in before[..|before| - 1] { assert p in before; } else { assert before[|before| - 1] in before; }
        }
      }
    }
  }

  lemma {:induction false} JoinLonger(pieces: seq<string>, c: char, sep: char)
    requires pieces != []
    ensures Join(pieces[..|pieces| - 1] + [pieces[|pieces| - 1] + [c]], sep) == Join(pieces, sep) + [c]
  {
    var init, last := pieces[..|pieces| - 1], pieces[|pieces| - 1];
    assert pieces == init + [last];
    if init == [] {
      assert init + [last + [c]] == [last + [c]];
    } else {
      JoinSnoc(init, last, sep);
      JoinSnoc(init, last + [c], sep);
      assert Join(init, sep) + [sep] + (last + [c]) == (Join(init, sep) + [sep] + last) + [c];
    }
  }

  /** A text is cut at its first separator, and only if it has one. */
  lemma {:induction false} CutIsAtTheFirst(s: string, sep: char)
    ensures Cut(s, sep).None? <==> sep !in s
    ensures Cut(s, sep).Some? ==>
              var (k, v) := Cut(s, sep).value; s == k + [sep] + v && sep !in k
    decreases |s|
  {
    if s != [] {
      assert s == [s[0]] + s[1..];
      if s[0] != sep { CutIsAtTheFirst(s[1..], sep); }
    }
  }

  predicate Blank(s: string) { forall c :: c in s ==> c in {' ', '\t', '\n', '\r'} }

  lemma {:induction false} TrimLeftOnlyBlanks(s: string) returns (front: string)
    ensures s == front + TrimLeft(s) && Blank(front)
    ensures TrimLeft(s) != "" ==> !IsSpace(TrimLeft(s)[0])
    decreases |s|
  {
    front := "";
    if s != [] && IsSpace(s[0]) {
      front := TrimLeftOnlyBlanks(s[1..]);
      assert s == ([s[0]] + front) + TrimLeft(s);
      front := [s[0]] + front;
    }
  }

  lemma {:induction false} TrimRightOnlyBlanks(s: string) returns (back: string)
    ensures s == TrimRight(s) + back && Blank(back)
    ensures TrimRight(s) != "" ==> !IsSpace(TrimRight(s)[|TrimRight(s)| - 1]) && TrimRight(s)[0] == s[0]
    decreases |s|
  {
    back := "";
    if s != [] && IsSpace(s[|s| - 1]) {
      back := TrimRightOnlyBlanks(s[..|s| - 1]);
      assert s == TrimRight(s) + (back + [s[|s| - 1]]);
      back := back + [s[|s| - 1]];
    }
  }

  /** Trimming takes white space from both ends, all of it, and nothing else. */
  lemma {:induction false} TrimTakesOuterBlanks(s: string) returns (front: string, back: string)
    ensures s == front + TrimSpace(s) + back && Blank(front) && Blank(back)
    ensures var t := TrimSpace(s);
      t != "" ==> t[0] !in {' ', '\t', '\n', '\r'} && t[|t| - 1] !in {' ', '\t', '\n', '\r'}
  {
    front := TrimLeftOnlyBlanks(s);
    back := TrimRightOnlyBlanks(TrimLeft(s));
  }

  /** Small letters become capital ones, everything else stays. */
  lemma {:induction false} UpperAt(s: string, i: nat)
    requires i < |s|
    ensures |ToUpper(s)| == |s|
    ensures ToUpper(s)[i] as int == if 97 <= s[i] as int <= 122 then s[i] as int - 32 else s[i] as int
    decreases |s|
  {
    if i < |s| - 1 { UpperAt(s[..|s| - 1], i); } else { UpperLength(s); }
  }

  lemma {:induction false} UpperLength(s: string)
    ensures |ToUpper(s)| == |s|
    decreases |s|
  {
    if s != [] { UpperLength(s[..|s| - 1]); }
  }

  function TenTo(n: nat): nat { if n == 0 then 1 else 10 * TenTo(n - 1) }

  lemma {:induction false} TenTimes(d: nat, power: nat, n: nat, last: nat)
    ensures 10 * (d * power + n) + last == d * (10 * power) + (10 * n + last)
  {
  }

  /** The first of the digits counts for the highest power of ten. */
  lemma {:induction false} DigitsAreDecimal(d: nat, rest: string)
    requires d < 10 && ParseDigits(rest).Some?
    ensures ParseDigits([DigitChar(d)] + rest) == Some(d * TenTo(|rest|) + ParseDigits(rest).value)
    decreases |rest|
  {
    var s := [DigitChar(d)] + rest;
    if rest == [] {
      assert s == [DigitChar(d)] && s[..0] == [];
    } else {
      var init := rest[..|rest| - 1];
      assert s[..|s| - 1] == [DigitChar(d)] + init;
      DigitsAreDecimal(d, init);
      TenTimes(d, TenTo(|init|), ParseDigits(init).value, DigitValue(rest[|rest| - 1]));
    }
  }

  /** A sign in front negates or does nothing. */
  lemma {:induction false} SignedNumbers(n: int, s: string)
    requires n >= 0 && s == Decimal(n)
    ensures Atoi(s) == Some(n) && Atoi(['+'] + s) == Some(n) && Atoi(['-'] + s) == Some(0 - n)
  {
    DecimalParses(n);
    assert s[0] in s;
    AfterSign('+', s);
    AfterSign('-', s);
  }

  lemma {:induction false} AfterSign(sign: char, s: string)
    ensures ([sign] + s)[0] == sign && ([sign] + s)[1..] == s
  {
  }

  /** A lone or a second sign makes no number. */
  lemma {:induction false} NoNumber(a: char, b: char, s: string)
    requires a in {'+', '-'} && b in {'+', '-'}
    ensures Atoi([]) == None && Atoi([a]) == None && Atoi([a] + ([b] + s)) == None
  {
    AfterSign(a, [b] + s);
    NoSignInside(b, s);
  }

  lemma {:induction false} NoSignInside(sign: char, s: string)
    requires sign in {'+', '-'}
    ensures ParseDigits([sign] + s) == None
    decreases |s|
  {
    if s == [] {
      assert [sign] + s == [sign];
    } else {
      assert ([sign] + s)[..|s|] == [sign] + s[..|s| - 1];
      NoSignInside(sign, s[..|s| - 1]);
    }
  }
}
