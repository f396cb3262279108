/** The tables behind recurrence rules, spelled out: the weekdays of a mask, the text of every
    kind of record, and the defaults of a parsed one. */
module RecurrenceTables {
  import opened Ids
  import opened Text
  import opened Recurrence
  import opened RecurrenceMeaning

  // ---------- weekdays ----------

  /** Sunday comes first and has bit 1; every later day has the double. */
  lemma {:induction false} Weekdays(day: nat)
    requires day < 7
    ensures Code(day) == ["SU", "MO", "TU", "WE", "TH", "FR", "SA"][day]
    ensures Bit(day) == [1, 2, 4, 8, 16, 32, 64][day] == BitOf(Code(day))
  {
    if day > 0 { Weekdays(day - 1); }
  }

  lemma {:induction false} OtherCodesHaveNoBit(code: string)
    ensures BitOf(code) == 0 <==> code !in {"SU", "MO", "TU", "WE", "TH", "FR", "SA"}
  {
  }

  function Named(bit: bool, text: string): seq<string> { if bit then [text] else [] }

  lemma {:induction false} LowestBit(mask: nat, bit: nat)
    requires bit in {1, 2, 4, 8, 16, 32, 64}
    ensures mask / bit == 2 * (mask / (2 * bit)) + if HasBit(mask, bit) then 1 else 0
  {
  }

  lemma {:induction false} LowFour(mask: nat)
    ensures mask == 16 * (mask / 16) + (if HasBit(mask, 1) then 1 else 0) + (if HasBit(mask, 2) then 2 else 0)
                    + (if HasBit(mask, 4) then 4 else 0) + (if HasBit(mask, 8) then 8 else 0)
  {
    LowestBit(mask, 1);
    LowestBit(mask, 2);
    LowestBit(mask, 4);
    LowestBit(mask, 8);
  }

  lemma {:induction false} HighThree(mask: nat)
    requires mask < 8
    ensures mask == (if HasBit(mask, 1) then 1 else 0) + (if HasBit(mask, 2) then 2 else 0)
                    + (if HasBit(mask, 4) then 4 else 0)
  {
  }

  lemma {:induction false} UpperBits(mask: nat)
    ensures HasBit(mask, 16) == HasBit(mask / 16, 1) && HasBit(mask, 32) == HasBit(mask / 16, 2)
    ensures HasBit(mask, 64) == HasBit(mask / 16, 4)
  {
    assert mask / 32 == mask / 16 / 2 && mask / 64 == mask / 16 / 4;
  }

  /** A mask is the sum of the bits it has. */
  lemma {:induction false} MaskIsSum(mask: nat)
    requires mask < 128
    ensures mask == (if HasBit(mask, 1) then 1 else 0) + (if HasBit(mask, 2) then 2 else 0)
                    + (if HasBit(mask, 4) then 4 else 0) + (if HasBit(mask, 8) then 8 else 0)
                    + (if HasBit(mask, 16) then 16 else 0) + (if HasBit(mask, 32) then 32 else 0)
                    + (if HasBit(mask, 64) then 64 else 0)
  {
    LowFour(mask);
    HighThree(mask / 16);
    UpperBits(mask);
  }

  lemma {:induction false} NextDay(mask: int, prefix: string, n: nat)
    requires n < 7
    ensures DayCodes(mask, prefix, n + 1) ==
            DayCodes(mask, prefix, n)
            + Named(HasBit(mask, [1, 2, 4, 8, 16, 32, 64][n]), prefix + ["SU", "MO", "TU", "WE", "TH", "FR", "SA"][n])
  {
    Weekdays(n);
  }

  /** A day list names the days of the mask from Sunday to Saturday. */
  lemma {:induction false} DayListText(mask: int, prefix: string)
    ensures ByDay(mask, prefix) ==
            Join(Named(HasBit(mask, 1), prefix + "SU") + Named(HasBit(mask, 2), prefix + "MO")
                 + Named(HasBit(mask, 4), prefix + "TU") + Named(HasBit(mask, 8), prefix + "WE")
                 + Named(HasBit(mask, 16), prefix + "TH") + Named(HasBit(mask, 32), prefix + "FR")
                 + Named(HasBit(mask, 64), prefix + "SA"), ',')
  {
    NextDay(mask, prefix, 0);
    NextDay(mask, prefix, 1);
    NextDay(mask, prefix, 2);
    NextDay(mask, prefix, 3);
    NextDay(mask, prefix, 4);
    NextDay(mask, prefix, 5);
    NextDay(mask, prefix, 6);
    assert DayCodes(mask, prefix, 0) == [];
    var sunday := Named(HasBit(mask, 1), prefix + "SU");
    assert [] + sunday == sunday;
  }

  // ---------- reading a day list ----------

  /** The token ends in the code of this day, whatever stands in front of it. */
  predicate NamesDay(token: string, day: nat)
    requires day < 7
  {
    var tok := TrimSpace(token);
    |tok| >= 2 && tok[|tok| - 2..] == ["SU", "MO", "TU", "WE", "TH", "FR", "SA"][day]
  }

  /** The week a token asks for, whether it names a day or not. */
  function WeekIn(token: string): Option<int> {
    var tok := TrimSpace(token);
    if |tok| < 3 then None
    else match Atoi(tok[..|tok| - 2])
      case Some(n) => if n == -1 then Some(5) else if n in {1, 2, 3, 4} then Some(n) else None
      case None => None
  }

  lemma {:induction false} CodeOfBit(code: string, day: nat)
    requires day < 7
    ensures BitOf(code) == Bit(day) <==> code == Code(day)
  {
    CodeBit(day);
    Weekdays(day);
  }

  lemma {:induction false} TokenNames(was: (int, int), token: string, day: nat)
    requires day < 7
    ensures HasBit(ReadDay(was, token).0, Bit(day)) <==> NamesDay(token, day) || HasBit(was.0, Bit(day))
  {
    var tok := TrimSpace(token);
    Weekdays(day);
    if |tok| >= 2 && BitOf(tok[|tok| - 2..]) > 0 {
      var code := tok[|tok| - 2..];
      var x := DayOfCode(code);
      CodeOfBit(code, day);
      SetBitSets(was.0, x, day);
      if x < day { BitsDiffer(x, day); } else if day < x { BitsDiffer(day, x); }
    }
  }

  /** The mask read from any list has exactly the days that some token names. */
  lemma {:induction false} MaskNamesDays(tokens: seq<string>, day: nat)
    requires day < 7
    ensures HasBit(ReadDays(tokens).0, Bit(day)) <==> exists i :: 0 <= i < |tokens| && NamesDay(tokens[i], day)
    decreases |tokens|
  {
    if tokens == [] {
      assert !HasBit(0, Bit(day)) by { DivMod(0, Bit(day), 0, 0); }
    } else {
      var init, token := tokens[..|tokens| - 1], tokens[|tokens| - 1];
      assert tokens == init + [token];
      ReadDaysSnoc(init, token);
      MaskNamesDays(init, day);
      TokenNames(ReadDays(init), token, day);
      if i :| 0 <= i < |init| && NamesDay(init[i], day) { assert tokens[i] == init[i]; }
    }
  }

  lemma {:induction false} TokenSetsWeek(was: (int, int), token: string)
    ensures ReadDay(was, token).1 == if WeekIn(token).Some? then WeekIn(token).value else was.1
  {
  }

  /** The week read is that of the last token that asks for one, or none. */
  lemma {:induction false} LastWeekCounts(tokens: seq<string>)
    ensures var week := ReadDays(tokens).1;
      || (week == 0 && forall i :: 0 <= i < |tokens| ==> WeekIn(tokens[i]) == None)
      || exists i :: 0 <= i < |tokens| && WeekIn(tokens[i]) == Some(week)
                     && forall j :: i < j < |tokens| ==> WeekIn(tokens[j]) == None
    decreases |tokens|
  {
    if tokens != [] {
      var init, token := tokens[..|tokens| - 1], tokens[|tokens| - 1];
      assert tokens == init + [token];
      LastWeekCounts(init);
      ReadDaysSnoc(init, token);
      TokenSetsWeek(ReadDays(init), token);
      if WeekIn(token).Some? {
        assert WeekIn(tokens[|tokens| - 1]) == Some(ReadDays(tokens).1);
      }
    }
  }

  // ---------- the text of a record ----------

  function Optional(name: string, text: string): seq<string> { if text == "" then [] else [name + text] }

  lemma {:induction false} NextPart(fields: seq<Field>, name: string, head: string, text: string, before: seq<string>)
    requires head == name + "=" && before == Parts(Present(fields))
    ensures Parts(Present(fields + [(name, text)])) == before + Optional(head, text)
  {
    AppendPart(fields, (name, text));
    if text == "" {
      assert before + [] == before;
    } else {
      assert Part((name, text)) == head + text;
    }
  }

  lemma {:induction false} Heads()
    ensures "FREQ" + "=" == "FREQ=" && "BYMONTH" + "=" == "BYMONTH=" && "BYMONTHDAY" + "=" == "BYMONTHDAY="
    ensures "BYDAY" + "=" == "BYDAY=" && "INTERVAL" + "=" == "INTERVAL=" && "COUNT" + "=" == "COUNT="
    ensures "UNTIL" + "=" == "UNTIL="
  {
  }

  /** Seven parts one after another, whatever they are called. */
  lemma {:induction false} SevenParts(names: seq<string>, heads: seq<string>, texts: seq<string>)
    requires |names| == |heads| == |texts| == 7
    requires forall i :: 0 <= i < 7 ==> heads[i] == names[i] + "="
    ensures Parts(Present([(names[0], texts[0]), (names[1], texts[1]), (names[2], texts[2]), (names[3], texts[3]),
                           (names[4], texts[4]), (names[5], texts[5]), (names[6], texts[6])])) ==
            Optional(heads[0], texts[0]) + Optional(heads[1], texts[1]) + Optional(heads[2], texts[2])
            + Optional(heads[3], texts[3]) + Optional(heads[4], texts[4]) + Optional(heads[5], texts[5])
            + Optional(heads[6], texts[6])
  {
    var f := [(names[0], texts[0]), (names[1], texts[1]), (names[2], texts[2]), (names[3], texts[3]),
              (names[4], texts[4]), (names[5], texts[5]), (names[6], texts[6])];
    PartsUpTo(f, heads, 7);
    assert f[..7] == f;
    SevenSoFar(f, heads);
  }

  function PartsSoFar(f: seq<Field>, heads: seq<string>, n: nat): seq<string>
    requires n <= |f| == |heads|
  {
    if n == 0 then [] else PartsSoFar(f, heads, n - 1) + Optional(heads[n - 1], f[n - 1].1)
  }

  lemma {:induction false} SevenSoFar(f: seq<Field>, heads: seq<string>)
    requires |f| == |heads| == 7
    ensures PartsSoFar(f, heads, 7) ==
            Optional(heads[0], f[0].1) + Optional(heads[1], f[1].1) + Optional(heads[2], f[2].1)
            + Optional(heads[3], f[3].1) + Optional(heads[4], f[4].1) + Optional(heads[5], f[5].1)
            + Optional(heads[6], f[6].1)
  {
    assert PartsSoFar(f, heads, 1) == Optional(heads[0], f[0].1);
    assert PartsSoFar(f, heads, 3) == PartsSoFar(f, heads, 2) + Optional(heads[2], f[2].1);
    assert PartsSoFar(f, heads, 5) == PartsSoFar(f, heads, 4) + Optional(heads[4], f[4].1);
  }

  lemma {:induction false} PartsUpTo(f: seq<Field>, heads: seq<string>, n: nat)
    requires n <= |f| == |heads| && forall i :: 0 <= i < |f| ==> heads[i] == f[i].0 + "="
    ensures Parts(Present(f[..n])) == PartsSoFar(f, heads, n)
  {
    if n > 0 {
      PartsUpTo(f, heads, n - 1);
      NextPart(f[..n - 1], f[n - 1].0, heads[n - 1], f[n - 1].1, PartsSoFar(f, heads, n - 1));
      assert f[..n - 1] + [(f[n - 1].0, f[n - 1].1)] == f[..n];
    }
  }

  lemma {:induction false} TableText(freq: string, month: string, monthDay: string, days: string, interval: string,
          count: string, until: string)
    requires freq != ""
    ensures Parts(Present([("FREQ", freq), ("BYMONTH", month), ("BYMONTHDAY", monthDay), ("BYDAY", days),
                           ("INTERVAL", interval), ("COUNT", count), ("UNTIL", until)])) ==
            ["FREQ=" + freq] + Optional("BYMONTH=", month) + Optional("BYMONTHDAY=", monthDay)
            + Optional("BYDAY=", days) + Optional("INTERVAL=", interval) + Optional("COUNT=", count)
            + Optional("UNTIL=", until)
  {
    Heads();
    SevenParts(["FREQ", "BYMONTH", "BYMONTHDAY", "BYDAY", "INTERVAL", "COUNT", "UNTIL"],
               ["FREQ=", "BYMONTH=", "BYMONTHDAY=", "BYDAY=", "INTERVAL=", "COUNT=", "UNTIL="],
               [freq, month, monthDay, days, interval, count, until]);
  }

  /** The text of a rule with these values. */
  function Written(freq: string, month: string, monthDay: string, days: string, interval: string, count: string,
          until: string): string
  {
    Join(["FREQ=" + freq] + Optional("BYMONTH=", month) + Optional("BYMONTHDAY=", monthDay) + Optional("BYDAY=", days)
         + Optional("INTERVAL=", interval) + Optional("COUNT=", count) + Optional("UNTIL=", until), ';')
  }

  lemma {:induction false} PrintIsWritten(r: Rule)
    ensures Print(r) == if Frequency(r.kind) == "" then ""
                        else Written(Frequency(r.kind), MonthText(r), MonthDayText(r), DaysText(r), IntervalText(r),
                                     Positive(r.occurrences), UntilText(r))
  {
    if Frequency(r.kind) != "" {
      TableText(Frequency(r.kind), MonthText(r), MonthDayText(r), DaysText(r), IntervalText(r),
                Positive(r.occurrences), UntilText(r));
    }
  }

  /** What each kind of record is printed as. */
  lemma {:induction false} RuleText(r: Rule)
    ensures Print(r) ==
      if r.kind !in {0, 1, 2, 3, 5, 6} then ""
      else
        Written(
          if r.kind == 0 then "DAILY" else if r.kind == 1 then "WEEKLY"
          else if r.kind <= 3 then "MONTHLY" else "YEARLY",
          if r.kind >= 5 && r.monthOfYear > 0 then DecimalInt(r.monthOfYear) else "",
          if r.kind in {2, 5} && r.dayOfMonth > 0 then DecimalInt(r.dayOfMonth) else "",
          if r.kind == 1 then ByDay(r.dayOfWeek, "")
          else if r.kind !in {3, 6} then ""
          else ByDay(r.dayOfWeek, if r.weekOfMonth == 5 then "-1" else DecimalInt(r.weekOfMonth)),
          if r.interval > 1 then DecimalInt(r.interval) else "",
          if r.occurrences > 0 then DecimalInt(r.occurrences) else "",
          if r.occurrences > 0 || r.until == Instant(1, 1, 1, 0, 0, 0) then "" else FormatStamp(r.until))
  {
    PrintIsWritten(r);
  }

  // ---------- the defaults of a parsed rule ----------

  /** A parsed rule is Gregorian, without leap month or first day of the week, and sets nothing
      that its kind has no use for. */
  lemma {:induction false} ParsedDefaults(s: string)
    requires Parse(s).Some?
    ensures var r := Parse(s).value;
      && r.kind in {0, 1, 2, 3, 5, 6}
      && r.calendarType == 1 && !r.isLeapMonth && r.firstDayOfWeek == 0
      && (r.kind < 5 ==> r.monthOfYear == 0)
      && (r.kind in {2, 5} <==> r.dayOfMonth > 0) && (r.kind !in {2, 5} ==> r.dayOfMonth == 0)
      && (r.kind in {0, 2, 5} ==> r.dayOfWeek == 0) && (r.kind !in {3, 6} ==> r.weekOfMonth == 0)
  {
    var kv := Fields(Split(s, ';'));
    InterpretedDefaults(Get(kv, "FREQ"), Get(kv, "BYMONTH"), Get(kv, "BYMONTHDAY"), Get(kv, "BYDAY"),
                        Get(kv, "INTERVAL"), Get(kv, "COUNT"), Get(kv, "UNTIL"));
  }

  lemma {:induction false} InterpretedDefaults(freq: string, month: string, monthDay: string, byDay: string,
          interval: string, count: string, until: string)
    ensures var o := Interpret(freq, month, monthDay, byDay, interval, count, until);
      o.Some? ==>
        var r := o.value;
        && r.kind in {0, 1, 2, 3, 5, 6}
        && r.calendarType == 1 && !r.isLeapMonth && r.firstDayOfWeek == 0
        && (r.kind < 5 ==> r.monthOfYear == 0)
        && (r.kind in {2, 5} <==> r.dayOfMonth > 0) && (r.kind !in {2, 5} ==> r.dayOfMonth == 0)
        && (r.kind in {0, 2, 5} ==> r.dayOfWeek == 0) && (r.kind !in {3, 6} ==> r.weekOfMonth == 0)
  {
  }
}
