/** Which rules that clients send are served back with the same meaning. */
module RecurrenceMeaning {
  import opened Ids
  import opened Text
  import opened Recurrence

  // ---------- what a rule says ----------

  datatype Number = Absent | Number(n: int) | Unreadable(text: string)

  datatype End = NoEnd | Until(t: Stamp) | UnreadableEnd(text: string)

  /** Days as pairs of position, 0 for every week, and bit. */
  datatype Days = EveryDay | Days(days: set<(int, int)>) | UnreadableDays(text: string)

  /** The recurrence rule parts of section 3.3.10 of RFC 5545 that the parser knows, and the
      others as they are. */
  datatype Meaning = Meaning(
    freq: string,
    months: Number,
    monthDays: Number,
    days: Days,
    interval: Number,
    count: Number,
    until: End,
    others: map<string, string>)

  const KEYS := {"FREQ", "BYMONTH", "BYMONTHDAY", "BYDAY", "INTERVAL", "COUNT", "UNTIL"}

  function NumberIn(text: string): Number {
    if text == "" then Absent else match Atoi(text) case Some(n) => Number(n) case None => Unreadable(text)
  }

  /** Without the part a rule recurs every time. */
  function IntervalIn(text: string): Number { if text == "" then Number(1) else NumberIn(text) }

  function EndIn(text: string): End {
    if text == "" then NoEnd else match ParseStamp(text) case Some(t) => Until(t) case None => UnreadableEnd(text)
  }

  /** An optional position, not 0, and a weekday. */
  function DayIn(token: string): Option<(int, int)> {
    var tok := TrimSpace(token);
    if |tok| < 2 || BitOf(tok[|tok| - 2..]) == 0 then None
    else
      var position, bit := tok[..|tok| - 2], BitOf(tok[|tok| - 2..]);
      if position == "" then Some((0, bit))
      else match Atoi(position) case Some(n) => if n != 0 then Some((n, bit)) else None case None => None
  }

  function DaysOf(tokens: seq<string>): Option<set<(int, int)>>
    decreases |tokens|
  {
    if tokens == [] then Some({})
    else
      match (DaysOf(tokens[..|tokens| - 1]), DayIn(tokens[|tokens| - 1]))
      case (Some(days), Some(day)) => Some(days + {day})
      case _ => None
  }

  function DaysIn(text: string): Days {
    if text == "" then EveryDay
    else match DaysOf(Split(text, ',')) case Some(days) => Days(days) case None => UnreadableDays(text)
  }

  function Others(kv: map<string, string>): map<string, string> {
    map k | k in kv && k !in KEYS && kv[k] != "" :: kv[k]
  }

  function Means(freq: string, month: string, monthDay: string, byDay: string,
                 interval: string, count: string, until: string, others: map<string, string>): Meaning
  {
    Meaning(freq, NumberIn(month), NumberIn(monthDay), DaysIn(byDay), IntervalIn(interval), NumberIn(count),
            EndIn(until), others)
  }

  function MeaningOf(s: string): Meaning {
    var kv := Fields(Split(s, ';'));
    Means(Get(kv, "FREQ"), Get(kv, "BYMONTH"), Get(kv, "BYMONTHDAY"), Get(kv, "BYDAY"),
          Get(kv, "INTERVAL"), Get(kv, "COUNT"), Get(kv, "UNTIL"), Others(kv))
  }

  // ---------- what an EAS record can say ----------

  predicate AtLeast1(n: Number) { n.Number? && n.n >= 1 }

  predicate AbsentOrAtLeast1(n: Number) { n == Absent || AtLeast1(n) }

  /** One position for all days. */
  predicate OnePosition(days: set<(int, int)>) { forall a, b :: a in days && b in days ==> a.0 == b.0 }

  predicate EveryWeek(days: set<(int, int)>) { forall a :: a in days ==> a.0 == 0 }

  /** At most one end, and not the zero time. */
  predicate EndFits(m: Meaning) {
    && AbsentOrAtLeast1(m.count)
    && (m.until == NoEnd || (m.count == Absent && m.until.Until? && m.until.t != ZERO))
  }

  predicate DaysFit(m: Meaning) {
    if m.freq == "DAILY" then m.monthDays == Absent && m.days == EveryDay
    else if m.freq == "WEEKLY" then
      m.monthDays == Absent && (m.days == EveryDay || (m.days.Days? && EveryWeek(m.days.days)))
    else if AtLeast1(m.monthDays) then m.days == EveryDay
    else m.monthDays == Absent && m.days.Days? && OnePosition(m.days.days)
  }

  /** The rules a record holds all of: no part it has no field for, one month, one day of the
      month, one position. */
  predicate Expressible(m: Meaning) {
    && m.others == map[] && AtLeast1(m.interval) && EndFits(m) && DaysFit(m)
    && if m.freq == "YEARLY" then AbsentOrAtLeast1(m.months) else m.months == Absent
  }

  // ---------- the numbers ----------

  lemma {:induction false} IntervalKept(text: string, r: Rule)
    requires r.interval == AnyInt(text)
    ensures IntervalIn(IntervalText(r)) == IntervalIn(text) <==> AtLeast1(IntervalIn(text))
  {
    AtoiDecimal(r.interval);
  }

  lemma {:induction false} PositiveKept(text: string, n: int)
    requires n == AtLeastOne(text) || n == AnyInt(text)
    ensures NumberIn(Positive(n)) == NumberIn(text) <==> AbsentOrAtLeast1(NumberIn(text))
    ensures NumberIn(Positive(n)) == if n > 0 then Number(n) else Absent
  {
    AtoiDecimal(n);
  }

  lemma {:induction false} EndKept(count: string, until: string, r: Rule)
    requires r.occurrences == AtLeastOne(count) && r.until == UntilOf(until)
    ensures NumberIn(Positive(r.occurrences)) == NumberIn(count) && EndIn(UntilText(r)) == EndIn(until) <==>
            && AbsentOrAtLeast1(NumberIn(count))
            && (EndIn(until) == NoEnd ||
                (NumberIn(count) == Absent && EndIn(until).Until? && EndIn(until).t != ZERO))
  {
    PositiveKept(count, r.occurrences);
    StampParses(r.until);
    StampIsPlain(r.until);
  }

  // ---------- the days ----------

  /** The first n days of a mask, all in one position. */
  function MaskDays(mask: int, position: int, n: nat): set<(int, int)>
    requires n <= 7
  {
    if n == 0 then {}
    else MaskDays(mask, position, n - 1) + if HasBit(mask, Bit(n - 1)) then {(position, Bit(n - 1))} else {}
  }

  predicate PositionText(prefix: string, position: int) {
    PlainPrefix(prefix) && if prefix == "" then position == 0 else Atoi(prefix) == Some(position) && position != 0
  }

  lemma {:induction false} CodeIn(prefix: string, position: int, day: nat)
    requires day < 7 && PositionText(prefix, position)
    ensures DayIn(prefix + Code(day)) == Some((position, Bit(day)))
  {
    CodeBit(day);
    CodeIsPlain(day);
    var token := prefix + Code(day);
    PlainStays(token);
    assert token[|token| - 2..] == Code(day) && token[..|token| - 2] == prefix;
  }

  lemma {:induction false} DaysOfSnoc(tokens: seq<string>, token: string)
    ensures DaysOf(tokens + [token]) ==
      if DaysOf(tokens).Some? && DayIn(token).Some? then Some(DaysOf(tokens).value + {DayIn(token).value}) else None
  {
    assert (tokens + [token])[..|tokens|] == tokens;
  }

  lemma {:induction false} OneDayMore(mask: int, prefix: string, position: int, n: nat)
    requires 0 < n <= 7
    ensures HasBit(mask, Bit(n - 1)) ==>
      && DayCodes(mask, prefix, n) == DayCodes(mask, prefix, n - 1) + [prefix + Code(n - 1)]
      && MaskDays(mask, position, n) == MaskDays(mask, position, n - 1) + {(position, Bit(n - 1))}
    ensures !HasBit(mask, Bit(n - 1)) ==>
      && DayCodes(mask, prefix, n) == DayCodes(mask, prefix, n - 1)
      && MaskDays(mask, position, n) == MaskDays(mask, position, n - 1)
  {
  }

  lemma {:induction false} CodesIn(mask: int, prefix: string, position: int, n: nat)
    requires n <= 7 && PositionText(prefix, position)
    ensures DaysOf(DayCodes(mask, prefix, n)) == Some(MaskDays(mask, position, n))
    decreases n
  {
    if n > 0 {
      var day: nat := n - 1;
      CodesIn(mask, prefix, position, day);
      CodeIn(prefix, position, day);
      OneDayMore(mask, prefix, position, n);
      DaysOfSnoc(DayCodes(mask, prefix, day), prefix + Code(day));
    }
  }

  /** A printed day list says the days of the mask. */
  lemma {:induction false} PrintedDays(mask: int, prefix: string, position: int)
    requires PositionText(prefix, position)
    ensures DaysIn(ByDay(mask, prefix)) ==
            if mask % 128 == 0 then EveryDay else Days(MaskDays(mask, position, 7))
  {
    ByDayReads(mask, prefix);
    DayCodesRead(mask, prefix, 7);
    CodesIn(mask, prefix, position, 7);
    var codes := DayCodes(mask, prefix, 7);
    if codes != [] { SplitJoin(codes, ','); }
  }

  lemma {:induction false} LowerBit(mask: int, b: nat, c: nat, k: nat)
    requires c > 0 && b == 2 * c * k
    ensures HasBit(mask + b, c) <==> HasBit(mask, c)
  {
    var q, r := mask / c, mask % c;
    assert mask + b == (q + 2 * k) * c + r by {
      assert mask == q * c + r;
      assert (q + 2 * k) * c == q * c + 2 * k * c;
    }
    DivMod(mask + b, c, q + 2 * k, r);
  }

  lemma {:induction false} Regroup(x: int, d: nat, k: nat)
    requires k > 0
    ensures x * d == (x / k) * (d * k) + (x % k) * d
  {
    var y, z := x / k, x % k;
    assert x == y * k + z;
    assert (y * k + z) * d == (y * k) * d + z * d;
    assert (y * k) * d == y * (d * k);
  }

  lemma {:induction false} StaysBelow(z: nat, d: nat, k: nat)
    requires z < k
    ensures z * d <= d * k - d
  {
    assert z * d <= (k - 1) * d;
    assert (k - 1) * d == d * k - d;
  }

  lemma {:induction false} HigherBit(mask: int, b: nat, c: nat, k: nat)
    requires b > 0 && k > 0 && c == (2 * b) * k && !HasBit(mask, b)
    ensures HasBit(mask + b, c) <==> HasBit(mask, c)
  {
    LowBitsStep(mask, b);
    var d, r := 2 * b, mask % b;
    var x := mask / d;
    assert mask == x * d + r;
    Regroup(x, d, k);
    StaysBelow(x % k, d, k);
    var low := (x % k) * d + r;
    assert low >= 0;
    DivMod(mask, c, x / k, low);
    DivMod(mask + b, c, x / k, low + b);
  }

  lemma {:induction false} SameBit(mask: int, b: nat)
    requires b > 0 && !HasBit(mask, b)
    ensures HasBit(mask + b, b)
  {
    var q, r := mask / b, mask % b;
    assert mask + b == (q + 1) * b + r by { assert mask == q * b + r; assert (q + 1) * b == q * b + b; }
    DivMod(mask + b, b, q + 1, r);
  }

  lemma {:induction false} SetBitSets(mask: int, x: nat, y: nat)
    requires x < 7 && y < 7
    ensures HasBit(SetBit(mask, Bit(x)), Bit(y)) <==> x == y || HasBit(mask, Bit(y))
  {
    if !HasBit(mask, Bit(x)) {
      if x == y {
        SameBit(mask, Bit(x));
      } else if y < x {
        BitsApart(y, x);
        LowerBit(mask, Bit(x), Bit(y), Bit(x - y - 1));
      } else {
        BitsApart(x, y);
        HigherBit(mask, Bit(x), Bit(y), Bit(y - x - 1));
      }
    }
  }

  lemma {:induction false} BitsApart(x: nat, y: nat)
    requires x < y
    ensures Bit(y) == 2 * Bit(x) * Bit(y - x - 1)
    decreases y
  {
    if x + 1 < y {
      BitsApart(x, y - 1);
      assert Bit(y) == 2 * Bit(y - 1) && Bit(y - x - 1) == 2 * Bit(y - x - 2);
      assert 2 * (2 * Bit(x) * Bit(y - x - 2)) == 2 * Bit(x) * (2 * Bit(y - x - 2));
    }
  }

  lemma {:induction false} BitsDiffer(x: nat, y: nat)
    requires x < y
    ensures Bit(x) < Bit(y)
    decreases y
  {
    if x + 1 < y { BitsDiffer(x, y - 1); }
  }

  // ---------- a client's day list ----------

  /** The days of the list in any position. */
  predicate Has(days: set<(int, int)>, bit: int) { exists day :: day in days && day.1 == bit }

  lemma {:induction false} DayOfCode(code: string) returns (day: nat)
    requires BitOf(code) > 0
    ensures day < 7 && BitOf(code) == Bit(day)
  {
    CodeBit(0);
    CodeBit(1);
    CodeBit(2);
    CodeBit(3);
    CodeBit(4);
    CodeBit(5);
    CodeBit(6);
    day := if code == "SU" then 0 else if code == "MO" then 1 else if code == "TU" then 2 else if code == "WE" then 3
           else if code == "TH" then 4 else if code == "FR" then 5 else 6;
    assert code == Code(day);
  }

  lemma {:induction false} ReadDaysSnoc(tokens: seq<string>, token: string)
    ensures ReadDays(tokens + [token]) == ReadDay(ReadDays(tokens), token)
  {
    assert (tokens + [token])[..|tokens|] == tokens;
  }

  lemma {:induction false} HasMore(days: set<(int, int)>, day: (int, int), bit: int)
    ensures Has(days + {day}, bit) <==> day.1 == bit || Has(days, bit)
  {
    if day.1 == bit { assert day in days + {day}; }
    if Has(days, bit) { var d :| d in days && d.1 == bit; assert d in days + {day}; }
  }

  /** The bits read from a list are those of its days. */
  lemma {:induction false} BitsRead(tokens: seq<string>, y: nat)
    requires DaysOf(tokens).Some? && y < 7
    ensures HasBit(ReadDays(tokens).0, Bit(y)) <==> Has(DaysOf(tokens).value, Bit(y))
    decreases |tokens|
  {
    if tokens == [] {
      assert !HasBit(0, Bit(y)) by { DivMod(0, Bit(y), 0, 0); }
    } else {
      var init, token := tokens[..|tokens| - 1], tokens[|tokens| - 1];
      assert tokens == init + [token];
      DaysOfSnoc(init, token);
      ReadDaysSnoc(init, token);
      BitsRead(init, y);
      OneMoreDay(ReadDays(init), token, y);
      HasMore(DaysOf(init).value, DayIn(token).value, Bit(y));
    }
  }

  lemma {:induction false} OneMoreDay(was: (int, int), token: string, y: nat)
    requires DayIn(token).Some? && y < 7
    ensures HasBit(ReadDay(was, token).0, Bit(y)) <==> DayIn(token).value.1 == Bit(y) || HasBit(was.0, Bit(y))
  {
    var tok := TrimSpace(token);
    var x := DayOfCode(tok[|tok| - 2..]);
    SetBitSets(was.0, x, y);
    if x < y { BitsDiffer(x, y); } else if y < x { BitsDiffer(y, x); }
  }

  function WeekOfPosition(position: int): int {
    if position == -1 then 5 else if 1 <= position <= 4 then position else 0
  }

  /** If all days have one position, that is the position read. */
  lemma {:induction false} WeekRead(tokens: seq<string>, position: int)
    requires DaysOf(tokens).Some? && tokens != []
    requires forall day :: day in DaysOf(tokens).value ==> day.0 == position
    ensures ReadDays(tokens).1 == WeekOfPosition(position)
    decreases |tokens|
  {
    var init, token := tokens[..|tokens| - 1], tokens[|tokens| - 1];
    assert tokens == init + [token];
    DaysOfSnoc(init, token);
    ReadDaysSnoc(init, token);
    assert DayIn(token).value in DaysOf(tokens).value;
    if init != [] { WeekRead(init, position); }
  }

  lemma {:induction false} BitsStaySmall(tokens: seq<string>)
    ensures 0 <= ReadDays(tokens).0 < 128 && 0 <= ReadDays(tokens).1 <= 5
  {
    MaskStaysSmall(tokens);
  }

  lemma {:induction false} MaskDaysStep(mask: int, position: int, n: nat)
    requires 0 < n <= 7
    ensures MaskDays(mask, position, n) == MaskDays(mask, position, n - 1) +
            if HasBit(mask, Bit(n - 1)) then {(position, Bit(n - 1))} else {}
  {
  }

  lemma {:induction false} MaskDaysHold(mask: int, position: int, n: nat, day: (int, int))
    requires n <= 7
    ensures day in MaskDays(mask, position, n) <==>
            day.0 == position && exists y: nat :: y < n && day.1 == Bit(y) && HasBit(mask, Bit(y))
    decreases n
  {
    if n > 0 {
      MaskDaysStep(mask, position, n);
      MaskDaysHold(mask, position, n - 1, day);
      if y: nat :| y < n && day.1 == Bit(y) && HasBit(mask, Bit(y)) {
        if y < n - 1 { assert y < n - 1 && day.1 == Bit(y); }
      }
    }
  }

  lemma {:induction false} DayBits(tokens: seq<string>, day: (int, int)) returns (y: nat)
    requires DaysOf(tokens).Some? && day in DaysOf(tokens).value
    ensures y < 7 && day.1 == Bit(y)
    decreases |tokens|
  {
    var init, token := tokens[..|tokens| - 1], tokens[|tokens| - 1];
    assert tokens == init + [token];
    DaysOfSnoc(init, token);
    if day in DaysOf(init).value {
      y := DayBits(init, day);
    } else {
      var tok := TrimSpace(token);
      y := DayOfCode(tok[|tok| - 2..]);
    }
  }

  /** The days of the bits in one position are the days of the list exactly if all its days
      are in that position. */
  lemma {:induction false} SameDaysIff(tokens: seq<string>, position: int)
    requires DaysOf(tokens).Some?
    ensures MaskDays(ReadDays(tokens).0, position, 7) == DaysOf(tokens).value <==>
            forall day :: day in DaysOf(tokens).value ==> day.0 == position
  {
    var bits, days := ReadDays(tokens).0, DaysOf(tokens).value;
    forall y: nat | y < 7 ensures HasBit(bits, Bit(y)) <==> Has(days, Bit(y)) { BitsRead(tokens, y); }
    forall day ensures day in MaskDays(bits, position, 7) <==> day.0 == position && Has(days, day.1) {
      MaskDaysHold(bits, position, 7, day);
      if Has(days, day.1) {
        var d :| d in days && d.1 == day.1;
        var y := DayBits(tokens, d);
        assert y < 7 && day.1 == Bit(y) && HasBit(bits, Bit(y));
      }
    }
    if forall day :: day in days ==> day.0 == position {
      forall day ensures day in MaskDays(bits, position, 7) <==> day in days {
        if day in days { assert Has(days, day.1); }
      }
    }
  }

  lemma {:induction false} SomeDay(tokens: seq<string>)
    requires DaysOf(tokens).Some? && tokens != []
    ensures DaysOf(tokens).value != {} && ReadDays(tokens).0 % 128 != 0
  {
    var init, token := tokens[..|tokens| - 1], tokens[|tokens| - 1];
    assert tokens == init + [token];
    DaysOfSnoc(init, token);
    var day := DayIn(token).value;
    assert day in DaysOf(tokens).value;
    var y := DayBits(tokens, day);
    assert Has(DaysOf(tokens).value, Bit(y));
    BitsRead(tokens, y);
    assert !HasBit(0, Bit(y)) by { DivMod(0, Bit(y), 0, 0); }
    BitsStaySmall(tokens);
  }

  lemma {:induction false} NoDays()
    ensures ParseByDay("") == (0, 0)
  {
    assert Split("", ',') == [""];
    assert [""][..0] == [];
    assert ReadDays([""]) == ReadDay(ReadDays([]), "");
  }

  lemma {:induction false} WeeklyListKept(tokens: seq<string>)
    requires DaysOf(tokens).Some? && tokens != []
    ensures ReadDays(tokens).0 % 128 != 0
    ensures MaskDays(ReadDays(tokens).0, 0, 7) == DaysOf(tokens).value <==> EveryWeek(DaysOf(tokens).value)
  {
    SomeDay(tokens);
    SameDaysIff(tokens, 0);
  }

  lemma {:induction false} CompareWeekly(printed: Days, read: Days, tokens: seq<string>, mask: int)
    requires tokens != [] && mask == ReadDays(tokens).0
    requires printed == if mask % 128 == 0 then EveryDay else Days(MaskDays(mask, 0, 7))
    requires match DaysOf(tokens) case Some(days) => read == Days(days) case None => read.UnreadableDays?
    ensures printed == read <==> read == EveryDay || (read.Days? && EveryWeek(read.days))
  {
    if DaysOf(tokens).Some? { WeeklyListKept(tokens); }
  }

  lemma {:induction false} WeeklyDaysKept(text: string, mask: int, prefix: string)
    requires mask == ParseByDay(text).0 && prefix == "" && text != ""
    ensures DaysIn(ByDay(mask, prefix)) == DaysIn(text) <==>
            DaysIn(text) == EveryDay || (DaysIn(text).Days? && EveryWeek(DaysIn(text).days))
  {
    PrintedDays(mask, prefix, 0);
    CompareWeekly(DaysIn(ByDay(mask, prefix)), DaysIn(text), Split(text, ','), mask);
  }

  lemma {:induction false} NoDaysKept(prefix: string)
    requires prefix == ""
    ensures DaysIn(ByDay(0, prefix)) == EveryDay
  {
    PrintedDays(0, prefix, 0);
  }

  function PositionOf(week: int): int { if week == 5 then -1 else week }

  lemma {:induction false} WeekText(week: int)
    requires 1 <= week <= 5
    ensures PositionText(WeekPrefix(week), PositionOf(week))
  {
    WeekPrefixReads(week);
    AtoiDecimal(week);
    AtoiDecimal(-1);
    assert DecimalInt(-1) == "-1";
  }

  lemma {:induction false} PositionDaysKept(text: string)
    requires text != "" && ParseByDay(text).1 > 0
    ensures var (bits, week) := ParseByDay(text);
      DaysIn(ByDay(bits, WeekPrefix(week))) == DaysIn(text) <==>
      DaysIn(text).Days? && OnePosition(DaysIn(text).days)
  {
    var tokens := Split(text, ',');
    var (bits, week) := ParseByDay(text);
    BitsStaySmall(tokens);
    WeekText(week);
    PrintedDays(bits, WeekPrefix(week), PositionOf(week));
    if DaysOf(tokens).Some? {
      SomeDay(tokens);
      SameDaysIff(tokens, PositionOf(week));
      OnePositionIsRead(tokens);
    }
  }

  lemma {:induction false} OnePositionIsRead(tokens: seq<string>)
    requires DaysOf(tokens).Some? && tokens != [] && ReadDays(tokens).1 > 0
    ensures OnePosition(DaysOf(tokens).value) <==>
            forall day :: day in DaysOf(tokens).value ==> day.0 == PositionOf(ReadDays(tokens).1)
  {
    var days := DaysOf(tokens).value;
    SomeDay(tokens);
    if OnePosition(days) {
      var day :| day in days;
      WeekRead(tokens, day.0);
    }
  }

  // ---------- the whole rule ----------

  lemma {:induction false} OnlyKnownKeys(fields: seq<Field>)
    requires Printable(fields) && forall f :: f in fields ==> f.0 in KEYS
    ensures forall k :: k in Fields(Parts(fields)) ==> k in KEYS
    decreases |fields|
  {
    if fields != [] {
      var init, last := fields[..|fields| - 1], fields[|fields| - 1];
      assert last in fields && forall f :: f in init ==> f in fields;
      PartReads(last);
      OnlyKnownKeys(init);
      assert Parts(fields)[..|fields| - 1] == Parts(init);
    }
  }

  lemma {:induction false} PrintedParts(r: Rule)
    requires Frequency(r.kind) != ""
    ensures Split(Print(r), ';') == Parts(Present(Table(r)))
  {
    var fields := Present(Table(r));
    TableKeys(r);
    TableIsPrintable(r);
    PresentFields(Table(r));
    PresentReads(Table(r), 0);
    assert Lookup(fields, "FREQ") != "";
    forall p | p in Parts(fields) ensures ';' !in p {
      var j :| 0 <= j < |fields| && p == Part(fields[j]);
      assert fields[j] in fields;
      PartReads(fields[j]);
    }
    SplitJoin(Parts(fields), ';');
  }

  lemma {:induction false} PrintedKeys(r: Rule, table: seq<Field>)
    requires table == Table(r)
    ensures forall k :: k in Fields(Parts(Present(table))) ==> k in KEYS
  {
    TableIsPrintable(r);
    TableIsKnown(r);
    PresentFields(table);
    OnlyKnownKeys(Present(table));
  }

  lemma {:induction false} TableIsKnown(r: Rule)
    ensures forall f :: f in Table(r) ==> f.0 in KEYS
  {
  }

  lemma {:induction false} NoOthersPrinted(r: Rule)
    requires Frequency(r.kind) != ""
    ensures Others(Fields(Split(Print(r), ';'))) == map[]
  {
    PrintedParts(r);
    PrintedKeys(r, Table(r));
  }

  lemma {:induction false} PrintedMeaning(r: Rule)
    requires Frequency(r.kind) != ""
    ensures MeaningOf(Print(r)) == Means(Frequency(r.kind), MonthText(r), MonthDayText(r), DaysText(r),
                                         IntervalText(r), Positive(r.occurrences), UntilText(r), map[])
  {
    NoOthersPrinted(r);
    PrintedFieldsRead(r, 0);
    PrintedFieldsRead(r, 1);
    PrintedFieldsRead(r, 2);
    PrintedFieldsRead(r, 3);
    PrintedFieldsRead(r, 4);
    PrintedFieldsRead(r, 5);
    PrintedFieldsRead(r, 6);
  }

  /** What the parts of a rule other than its days come back as. */
  lemma {:induction false} CommonKept(r: Rule, interval: string, count: string, until: string)
    requires r.interval == AnyInt(interval) && r.occurrences == AtLeastOne(count) && r.until == UntilOf(until)
    ensures (IntervalIn(IntervalText(r)) == IntervalIn(interval)
             && NumberIn(Positive(r.occurrences)) == NumberIn(count) && EndIn(UntilText(r)) == EndIn(until))
      <==> (AtLeast1(IntervalIn(interval)) && AbsentOrAtLeast1(NumberIn(count))
            && (EndIn(until) == NoEnd ||
                (NumberIn(count) == Absent && EndIn(until).Until? && EndIn(until).t != ZERO)))
  {
    IntervalKept(interval, r);
    EndKept(count, until, r);
  }

  lemma {:induction false} DateOrDayKept(b: Rule, r: Rule, monthDay: string, byDay: string, date: int, day: int)
    requires ByDateOrDay(b, monthDay, byDay, date, day) == Some(r)
    requires (date, day) in {(MONTHLY_DATE, MONTHLY_BY_DAY), (YEARLY_DATE, YEARLY_BY_DAY)}
    ensures r == b.(kind := r.kind, dayOfMonth := r.dayOfMonth, dayOfWeek := r.dayOfWeek, weekOfMonth := r.weekOfMonth)
    ensures r.kind in {date, day}
    ensures NumberIn(MonthDayText(r)) == NumberIn(monthDay) && DaysIn(DaysText(r)) == DaysIn(byDay) <==>
            if AtLeast1(NumberIn(monthDay)) then DaysIn(byDay) == EveryDay
            else NumberIn(monthDay) == Absent && DaysIn(byDay).Days? && OnePosition(DaysIn(byDay).days)
  {
    if AtLeastOne(monthDay) > 0 {
      PositiveKept(monthDay, r.dayOfMonth);
    } else {
      PositionDaysKept(byDay);
    }
  }

  lemma {:induction false} RuleKept(r: Rule, freq: string, month: string, monthDay: string, byDay: string,
                                    interval: string, count: string, until: string, others: map<string, string>)
    requires Interpret(freq, month, monthDay, byDay, interval, count, until) == Some(r)
    ensures Frequency(r.kind) == freq
    ensures Means(Frequency(r.kind), MonthText(r), MonthDayText(r), DaysText(r), IntervalText(r),
                  Positive(r.occurrences), UntilText(r), map[])
            == Means(freq, month, monthDay, byDay, interval, count, until, others)
      <==> Expressible(Means(freq, month, monthDay, byDay, interval, count, until, others))
  {
    var b := Bare(interval, count, until);
    if freq == "WEEKLY" {
      if byDay == "" { NoDays(); NoDaysKept(""); } else { WeeklyDaysKept(byDay, r.dayOfWeek, ""); }
    } else if freq == "MONTHLY" {
      DateOrDayKept(b, r, monthDay, byDay, MONTHLY_DATE, MONTHLY_BY_DAY);
    } else if freq == "YEARLY" {
      DateOrDayKept(b.(monthOfYear := AnyInt(month)), r, monthDay, byDay, YEARLY_DATE, YEARLY_BY_DAY);
      PositiveKept(month, r.monthOfYear);
    }
    CommonKept(r, interval, count, until);
  }

  /** Of the rules that clients write and the parser accepts, exactly those are served back
      with the same meaning that a record can express; no other is refused. */
  lemma {:induction false} MeaningKeptIffExpressible(s: string)
    requires Parse(s).Some?
    ensures MeaningOf(Print(Parse(s).value)) == MeaningOf(s) <==> Expressible(MeaningOf(s))
  {
    var kv, r := Fields(Split(s, ';')), Parse(s).value;
    RuleKept(r, Get(kv, "FREQ"), Get(kv, "BYMONTH"), Get(kv, "BYMONTHDAY"), Get(kv, "BYDAY"),
             Get(kv, "INTERVAL"), Get(kv, "COUNT"), Get(kv, "UNTIL"), Others(kv));
    PrintedMeaning(r);
  }

  /** The positions a record has a week for. */
  predicate KnownPositions(m: Meaning) {
    m.days.Days? && m.freq != "WEEKLY" ==> forall day :: day in m.days.days ==> WeekOfPosition(day.0) > 0
  }

  /** And no rule is refused that a record can express. */
  lemma {:induction false} ExpressibleIsAccepted(s: string)
    requires var m := MeaningOf(s);
      Expressible(m) && KnownPositions(m) && m.freq in {"DAILY", "WEEKLY", "MONTHLY", "YEARLY"}
    ensures Parse(s).Some?
  {
    var m := MeaningOf(s);
    var kv := Fields(Split(s, ';'));
    if m.days.Days? {
      var tokens := Split(Get(kv, "BYDAY"), ',');
      SomeDay(tokens);
      var day :| day in m.days.days;
      if m.freq in {"MONTHLY", "YEARLY"} && OnePosition(m.days.days) { WeekRead(tokens, day.0); }
    }
  }

  // ---------- the smallest rule that comes back as another ----------

  lemma {:induction false} OneToken(was: (int, int), position: string, n: int, day: nat)
    requires day < 7 && 1 <= n <= 4 && position == DecimalInt(n)
    ensures ReadDay(was, position + Code(day)) == (SetBit(was.0, Bit(day)), n)
    ensures DayIn(position + Code(day)) == Some((n, Bit(day)))
  {
    AtoiDecimal(n);
    DecimalHasNoComma(n);
    DayCodeReads(was, position, day);
    CodeIn(position, n, day);
  }

  lemma {:induction false} PlainToken(n: int, day: nat)
    requires day < 7
    ensures ',' !in DecimalInt(n) + Code(day)
  {
    DecimalHasNoComma(n);
    CodeIsPlain(day);
  }

  lemma {:induction false} TwoBits(x: nat, y: nat)
    requires x < y < 7
    ensures SetBit(SetBit(0, Bit(x)), Bit(y)) == Bit(x) + Bit(y)
  {
    EmptyMask(x);
    EmptyMask(y);
    SetBitSets(0, x, y);
  }

  lemma {:induction false} MixedDays(x: nat, y: nat, m: int, n: int, a: string, b: string)
    requires x < 7 && y < 7 && 1 <= m <= 4 && 1 <= n <= 4
    requires a == DecimalInt(m) + Code(x) && b == DecimalInt(n) + Code(y)
    ensures DaysOf([a, b]) == Some({(m, Bit(x)), (n, Bit(y))})
  {
    TwoTokens(a, b);
    OneToken((0, 0), DecimalInt(m), m, x);
    OneToken((0, 0), DecimalInt(n), n, y);
  }

  lemma {:induction false} LastPosition(x: nat, y: nat, m: int, n: int, a: string, b: string)
    requires x < y < 7 && 1 <= m <= 4 && 1 <= n <= 4
    requires a == DecimalInt(m) + Code(x) && b == DecimalInt(n) + Code(y)
    ensures ReadDays([a, b]) == (Bit(x) + Bit(y), n)
  {
    OneToken((0, 0), DecimalInt(m), m, x);
    SecondToken(x, y, m, n, b);
    ReadTwo(a, b, (SetBit(0, Bit(x)), m), (Bit(x) + Bit(y), n));
  }

  lemma {:induction false} SecondToken(x: nat, y: nat, m: int, n: int, b: string)
    requires x < y < 7 && 1 <= n <= 4 && b == DecimalInt(n) + Code(y)
    ensures ReadDay((SetBit(0, Bit(x)), m), b) == (Bit(x) + Bit(y), n)
  {
    OneToken((SetBit(0, Bit(x)), m), DecimalInt(n), n, y);
    TwoBits(x, y);
  }

  lemma {:induction false} ReadTwo(a: string, b: string, first: (int, int), second: (int, int))
    requires ReadDay((0, 0), a) == first && ReadDay(first, b) == second
    ensures ReadDays([a, b]) == second
  {
    TwoTokens(a, b);
  }

  /** Days in two positions are accepted, and all read in the last one. */
  lemma {:induction false} MixedPositionsAreMoved(x: nat, y: nat, m: int, n: int, text: string)
    requires x < y < 7 && 1 <= m <= 4 && 1 <= n <= 4 && m != n
    requires text == Join([DecimalInt(m) + Code(x), DecimalInt(n) + Code(y)], ',')
    ensures DaysIn(text) == Days({(m, Bit(x)), (n, Bit(y))}) && !OnePosition(DaysIn(text).days)
    ensures ParseByDay(text) == (Bit(x) + Bit(y), n)
  {
    var a, b := DecimalInt(m) + Code(x), DecimalInt(n) + Code(y);
    PlainToken(m, x);
    PlainToken(n, y);
    SplitJoin([a, b], ',');
    MixedDays(x, y, m, n, a, b);
    LastPosition(x, y, m, n, a, b);
    JoinIsText(a, b);
    TwoPositions({(m, Bit(x)), (n, Bit(y))}, (m, Bit(x)), (n, Bit(y)));
  }

  lemma {:induction false} TwoPositions(days: set<(int, int)>, a: (int, int), b: (int, int))
    requires a in days && b in days && a.0 != b.0
    ensures !OnePosition(days)
  {
  }

  lemma {:induction false} JoinIsText(a: string, b: string)
    requires a != ""
    ensures Join([a, b], ',') != ""
  {
    JoinSnoc([a], b, ',');
    assert [a] + [b] == [a, b];
  }

  lemma {:induction false} EmptyMask(x: nat)
    ensures !HasBit(0, Bit(x)) && SetBit(0, Bit(x)) == Bit(x)
  {
    DivMod(0, Bit(x), 0, 0);
  }

  lemma {:induction false} TwoTokens(a: string, b: string)
    ensures ReadDays([a, b]) == ReadDay(ReadDay((0, 0), a), b)
    ensures DayIn(a).Some? && DayIn(b).Some? ==> DaysOf([a, b]) == Some({DayIn(a).value, DayIn(b).value})
  {
    ReadDaysSnoc([a], b);
    ReadDaysSnoc([], a);
    DaysOfSnoc([a], b);
    DaysOfSnoc([], a);
    assert [a] + [b] == [a, b] && [] + [a] == [a];
    if DayIn(a).Some? && DayIn(b).Some? {
      var x, y := DayIn(a).value, DayIn(b).value;
      assert {} + {x} + {y} == {x, y};
    }
  }
}
