/** Recurrence rules: the EAS record, the iCalendar RRULE text printed for a client
    (section 3.3.10 of RFC 5545) and the parser for rules a client sends back. */
module Recurrence {
  import opened Ids
  import opened Text

  // ---------- points in time, in UTC, to the second ----------

  datatype Instant = Instant(year: nat, month: nat, day: nat, hour: nat, minute: nat, second: nat)

  predicate IsLeap(year: nat) { year % 4 == 0 && (year % 100 != 0 || year % 400 == 0) }

  function DaysIn(year: nat, month: nat): nat {
    if month == 2 then (if IsLeap(year) then 29 else 28)
    else if month in {4, 6, 9, 11} then 30
    else 31
  }

  predicate OnCalendar(t: Instant) {
    && t.year < 10000
    && 1 <= t.month <= 12
    && 1 <= t.day <= DaysIn(t.year, t.month)
    && t.hour < 24 && t.minute < 60 && t.second < 60
  }

  const ZERO := Instant(1, 1, 1, 0, 0, 0)

  /** The years that four digits can hold. */
  type Stamp = t: Instant | OnCalendar(t) witness ZERO

  function Two(n: nat): (s: string)
    requires n < 100
    ensures |s| == 2 && Plain(s) && ParseDigits(s) == Some(n)
  {
    var s := [DigitChar(n / 10), DigitChar(n % 10)];
    assert s[..1] == [DigitChar(n / 10)] && s[..1][..0] == [];
    assert ParseDigits(s[..1]) == Some(n / 10);
    assert ParseDigits(s) == Some(n);
    s
  }

  function Four(n: nat): (s: string)
    requires n < 10000
  {
    Two(n / 100) + Two(n % 100)
  }

  /** Layout 20060102T150405Z. */
  function FormatStamp(t: Stamp): string {
    Four(t.year) + Two(t.month) + Two(t.day) + "T" + Two(t.hour) + Two(t.minute) + Two(t.second) + "Z"
  }

  function ParseTwo(s: string): Option<nat>
    requires |s| == 2
  {
    ParseDigits(s)
  }

  function ParseDate(u: string): Option<(nat, nat, nat)>
    requires |u| == 8
  {
    match (ParseTwo(u[0..2]), ParseTwo(u[2..4]), ParseTwo(u[4..6]), ParseTwo(u[6..8]))
    case (Some(century), Some(year), Some(month), Some(day)) => Some((100 * century + year, month, day))
    case _ => None
  }

  function ParseTime(u: string): Option<(nat, nat, nat)>
    requires |u| == 6
  {
    match (ParseTwo(u[0..2]), ParseTwo(u[2..4]), ParseTwo(u[4..6]))
    case (Some(hour), Some(minute), Some(second)) => Some((hour, minute, second))
    case _ => None
  }

  /** time.Parse refuses dates and times that are not on the calendar. */
  function Checked(date: (nat, nat, nat), time: (nat, nat, nat)): Option<Stamp> {
    var t := Instant(date.0, date.1, date.2, time.0, time.1, time.2);
    if OnCalendar(t) then Some(t) else None
  }

  function ParseStamp(u: string): Option<Stamp> {
    if |u| == 16 && u[8] == 'T' && u[15] == 'Z' then
      match (ParseDate(u[..8]), ParseTime(u[9..15]))
      case (Some(date), Some(time)) => Checked(date, time)
      case _ => None
    else if |u| == 8 then
      match ParseDate(u) case Some(date) => Checked(date, (0, 0, 0)) case None => None
    else None
  }

  lemma {:induction false} DateParses(year: nat, month: nat, day: nat)
    requires year < 10000 && month < 100 && day < 100
    ensures |Four(year) + Two(month) + Two(day)| == 8
    ensures ParseDate(Four(year) + Two(month) + Two(day)) == Some((year, month, day))
  {
    var u := Four(year) + Two(month) + Two(day);
    assert u[0..2] == Two(year / 100);
    assert u[2..4] == Two(year % 100);
    assert u[4..6] == Two(month);
    assert u[6..8] == Two(day);
  }

  lemma {:induction false} TimeParses(hour: nat, minute: nat, second: nat)
    requires hour < 100 && minute < 100 && second < 100
    ensures |Two(hour) + Two(minute) + Two(second)| == 6
    ensures ParseTime(Two(hour) + Two(minute) + Two(second)) == Some((hour, minute, second))
  {
    var u := Two(hour) + Two(minute) + Two(second);
    assert u[0..2] == Two(hour);
    assert u[2..4] == Two(minute);
    assert u[4..6] == Two(second);
  }

  lemma {:induction false} StampParses(t: Stamp)
    ensures ParseStamp(FormatStamp(t)) == Some(t)
  {
    var date, time := Four(t.year) + Two(t.month) + Two(t.day), Two(t.hour) + Two(t.minute) + Two(t.second);
    DateParses(t.year, t.month, t.day);
    TimeParses(t.hour, t.minute, t.second);
    var u := FormatStamp(t);
    assert u == date + "T" + time + "Z";
    assert u[..8] == date && u[9..15] == time;
  }

  lemma {:induction false} StampIsPlain(t: Stamp)
    ensures Plain(FormatStamp(t)) && FormatStamp(t) != ""
  {
    var digits := [Two(t.year / 100), Two(t.year % 100), Two(t.month), Two(t.day),
                   Two(t.hour), Two(t.minute), Two(t.second)];
    assert forall d :: d in digits ==> Plain(d);
    assert FormatStamp(t) == digits[0] + digits[1] + digits[2] + digits[3] + "T" +
                             digits[4] + digits[5] + digits[6] + "Z";
  }

  // ---------- the record ----------

  const DAILY := 0
  const WEEKLY := 1
  const MONTHLY_DATE := 2
  const MONTHLY_BY_DAY := 3
  const YEARLY_DATE := 5
  const YEARLY_BY_DAY := 6

  datatype Rule = Rule(
    kind: int,
    interval: int,
    until: Stamp,
    occurrences: int,
    dayOfWeek: int,
    dayOfMonth: int,
    weekOfMonth: int,
    monthOfYear: int,
    isLeapMonth: bool,
    firstDayOfWeek: int,
    calendarType: int)

  // ---------- the day mask ----------

  /** easDowCodes. */
  function Code(day: nat): string {
    if day == 0 then "SU" else if day == 1 then "MO" else if day == 2 then "TU" else if day == 3 then "WE"
    else if day == 4 then "TH" else if day == 5 then "FR" else "SA"
  }

  function Bit(day: nat): (bit: nat)
    ensures bit > 0
  {
    if day == 0 then 1 else 2 * Bit(day - 1)
  }

  /** Bitwise and with a power of two, also for negative masks in two's complement. */
  predicate HasBit(mask: int, bit: nat)
    requires bit > 0
  {
    mask / bit % 2 == 1
  }

  /** Bitwise or with a power of two. */
  function SetBit(mask: int, bit: nat): int
    requires bit > 0
  {
    if HasBit(mask, bit) then mask else mask + bit
  }

  /** The codes of the first n days of the mask, each behind the prefix. */
  function DayCodes(mask: int, prefix: string, n: nat): seq<string>
    requires n <= 7
  {
    if n == 0 then []
    else DayCodes(mask, prefix, n - 1) + if HasBit(mask, Bit(n - 1)) then [prefix + Code(n - 1)] else []
  }

  function WeekPrefix(week: int): string { if week == 5 then "-1" else DecimalInt(week) }

  function ByDay(mask: int, prefix: string): string { Join(DayCodes(mask, prefix, 7), ',') }

  function BitOf(code: string): int {
    if code == "SU" then 1 else if code == "MO" then 2 else if code == "TU" then 4 else if code == "WE" then 8
    else if code == "TH" then 16 else if code == "FR" then 32 else if code == "SA" then 64 else 0
  }

  function WeekOf(position: string, week: int): int {
    match Atoi(position)
    case Some(n) => if n == -1 then 5 else if 1 <= n <= 4 then n else week
    case None => week
  }

  /** One token of a BYDAY list: an optional position and a two-letter code. */
  function ReadDay(was: (int, int), token: string): (int, int) {
    var tok := TrimSpace(token);
    if |tok| < 2 then was
    else
      var code, position := tok[|tok| - 2..], tok[..|tok| - 2];
      (if BitOf(code) > 0 then SetBit(was.0, BitOf(code)) else was.0,
       if position != "" then WeekOf(position, was.1) else was.1)
  }

  function ReadDays(tokens: seq<string>): (int, int)
    decreases |tokens|
  {
    if tokens == [] then (0, 0) else ReadDay(ReadDays(tokens[..|tokens| - 1]), tokens[|tokens| - 1])
  }

  function ParseByDay(s: string): (int, int) { ReadDays(Split(s, ',')) }

  // ---------- printing ----------

  function Frequency(kind: int): string {
    if kind == DAILY then "DAILY"
    else if kind == WEEKLY then "WEEKLY"
    else if kind == MONTHLY_DATE || kind == MONTHLY_BY_DAY then "MONTHLY"
    else if kind == YEARLY_DATE || kind == YEARLY_BY_DAY then "YEARLY"
    else ""
  }

  function Positive(n: int): string { if n > 0 then DecimalInt(n) else "" }

  function DaysText(r: Rule): string {
    if r.kind == WEEKLY then ByDay(r.dayOfWeek, "")
    else if r.kind == MONTHLY_BY_DAY || r.kind == YEARLY_BY_DAY then ByDay(r.dayOfWeek, WeekPrefix(r.weekOfMonth))
    else ""
  }

  function MonthText(r: Rule): string {
    if r.kind == YEARLY_DATE || r.kind == YEARLY_BY_DAY then Positive(r.monthOfYear) else ""
  }

  function MonthDayText(r: Rule): string {
    if r.kind == MONTHLY_DATE || r.kind == YEARLY_DATE then Positive(r.dayOfMonth) else ""
  }

  function IntervalText(r: Rule): string { if r.interval > 1 then DecimalInt(r.interval) else "" }

  function UntilText(r: Rule): string {
    if r.occurrences <= 0 && r.until != ZERO then FormatStamp(r.until) else ""
  }

  type Field = (string, string)

  /** The parts of a rule in printing order; parts without a value are not printed. */
  function Table(r: Rule): seq<Field> {
    [("FREQ", Frequency(r.kind)), ("BYMONTH", MonthText(r)), ("BYMONTHDAY", MonthDayText(r)), ("BYDAY", DaysText(r)),
     ("INTERVAL", IntervalText(r)), ("COUNT", Positive(r.occurrences)), ("UNTIL", UntilText(r))]
  }

  function Present(fields: seq<Field>): seq<Field>
    decreases |fields|
  {
    if fields == [] then []
    else
      var last := fields[|fields| - 1];
      Present(fields[..|fields| - 1]) + if last.1 != "" then [last] else []
  }

  function Part(f: Field): string { f.0 + "=" + f.1 }

  function Parts(fields: seq<Field>): (parts: seq<string>)
    ensures |parts| == |fields|
    ensures forall i :: 0 <= i < |parts| ==> parts[i] == Part(fields[i])
  {
    seq(|fields|, i requires 0 <= i < |fields| => Part(fields[i]))
  }

  /** The RRULE text; empty for a kind that has none. */
  function Print(r: Rule): string {
    if Frequency(r.kind) == "" then "" else Join(Parts(Present(Table(r))), ';')
  }

  // ---------- parsing ----------

  function FieldOf(part: string): Option<Field> {
    match Cut(part, '=')
    case Some((k, v)) => Some((ToUpper(TrimSpace(k)), ToUpper(TrimSpace(v))))
    case None => None
  }

  function Fields(parts: seq<string>): map<string, string>
    decreases |parts|
  {
    if parts == [] then map[]
    else
      var kv := Fields(parts[..|parts| - 1]);
      match FieldOf(parts[|parts| - 1]) case Some((k, v)) => kv[k := v] case None => kv
  }

  function Get(kv: map<string, string>, k: string): string { if k in kv then kv[k] else "" }

  function AtLeastOne(s: string): int {
    match Atoi(s) case Some(n) => if n > 0 then n else 0 case None => 0
  }

  function AnyInt(s: string): int { match Atoi(s) case Some(n) => n case None => 0 }

  function UntilOf(u: string): Stamp { match ParseStamp(u) case Some(t) => t case None => ZERO }

  /** What every kind of rule starts from. */
  function Bare(interval: string, count: string, until: string): Rule {
    Rule(DAILY, AnyInt(interval), UntilOf(until), AtLeastOne(count), 0, 0, 0, 0, false, 0, 1)
  }

  /** A monthly or yearly rule goes by date if it names one, else by weekday. */
  function ByDateOrDay(r: Rule, monthDay: string, byDay: string, date: int, day: int): Option<Rule> {
    var (bits, week) := ParseByDay(byDay);
    if AtLeastOne(monthDay) > 0 then Some(r.(kind := date, dayOfMonth := AtLeastOne(monthDay)))
    else if byDay != "" && week > 0 then Some(r.(kind := day, dayOfWeek := bits, weekOfMonth := week))
    else None
  }

  function Interpret(freq: string, month: string, monthDay: string, byDay: string,
                     interval: string, count: string, until: string): Option<Rule>
  {
    var r := Bare(interval, count, until);
    if freq == "DAILY" then Some(r)
    else if freq == "WEEKLY" then Some(r.(kind := WEEKLY, dayOfWeek := ParseByDay(byDay).0))
    else if freq == "MONTHLY" then ByDateOrDay(r, monthDay, byDay, MONTHLY_DATE, MONTHLY_BY_DAY)
    else if freq == "YEARLY" then
      ByDateOrDay(r.(monthOfYear := AnyInt(month)), monthDay, byDay, YEARLY_DATE, YEARLY_BY_DAY)
    else None
  }

  function Parse(s: string): Option<Rule> {
    var kv := Fields(Split(s, ';'));
    Interpret(Get(kv, "FREQ"), Get(kv, "BYMONTH"), Get(kv, "BYMONTHDAY"), Get(kv, "BYDAY"),
              Get(kv, "INTERVAL"), Get(kv, "COUNT"), Get(kv, "UNTIL"))
  }

  // ---------- what survives printing and parsing ----------

  /** The week a printed position is read back as; 0 if it is lost. */
  function KeptWeek(week: int): int {
    if week == 5 || week == -1 then 5 else if 1 <= week <= 4 then week else 0
  }

  function Kept(n: int, least: int): int { if n >= least then n else 0 }

  /** The fields every kind keeps. */
  function Base(r: Rule): Rule {
    Rule(r.kind, Kept(r.interval, 2), if r.occurrences > 0 then ZERO else r.until,
         Kept(r.occurrences, 1), 0, 0, 0, 0, false, 0, 1)
  }

  function Canon(r: Rule): Option<Rule> {
    var yearly := Base(r).(monthOfYear := Kept(r.monthOfYear, 1));
    var mask, week := r.dayOfWeek % 128, KeptWeek(r.weekOfMonth);
    var byDate, byDay := r.dayOfMonth > 0, mask != 0 && week > 0;
    if r.kind == DAILY then Some(Base(r))
    else if r.kind == WEEKLY then Some(Base(r).(dayOfWeek := mask))
    else if r.kind == MONTHLY_DATE && byDate then Some(Base(r).(dayOfMonth := r.dayOfMonth))
    else if r.kind == MONTHLY_BY_DAY && byDay then Some(Base(r).(dayOfWeek := mask, weekOfMonth := week))
    else if r.kind == YEARLY_DATE && byDate then Some(yearly.(dayOfMonth := r.dayOfMonth))
    else if r.kind == YEARLY_BY_DAY && byDay then Some(yearly.(dayOfWeek := mask, weekOfMonth := week))
    else None
  }

  /** The rules in the form the parser makes them. */
  predicate NormalForm(r: Rule) {
    var byDay := 0 < r.dayOfWeek < 128 && 1 <= r.weekOfMonth <= 5;
    && r.calendarType == 1 && !r.isLeapMonth && r.firstDayOfWeek == 0
    && (r.interval == 0 || r.interval >= 2)
    && r.occurrences >= 0 && (r.occurrences > 0 ==> r.until == ZERO)
    && (r.kind in {YEARLY_DATE, YEARLY_BY_DAY} || r.monthOfYear == 0) && r.monthOfYear >= 0
    && (if r.kind in {MONTHLY_DATE, YEARLY_DATE} then r.dayOfMonth > 0 else r.dayOfMonth == 0)
    && (if r.kind in {MONTHLY_BY_DAY, YEARLY_BY_DAY} then byDay
        else r.weekOfMonth == 0 && if r.kind == WEEKLY then 0 <= r.dayOfWeek < 128 else r.dayOfWeek == 0)
    && r.kind in {DAILY, WEEKLY, MONTHLY_DATE, MONTHLY_BY_DAY, YEARLY_DATE, YEARLY_BY_DAY}
  }

  // ---------- the day mask comes back ----------

  predicate PlainPrefix(prefix: string) { Plain(prefix) && ',' !in prefix }

  lemma {:induction false} DecimalHasNoComma(n: int)
    ensures PlainPrefix(DecimalInt(n))
  {
    AtoiDecimal(n);
  }

  lemma {:induction false} CodeBit(day: nat)
    requires day < 7
    ensures BitOf(Code(day)) == Bit(day)
  {
    assert Bit(1) == 2 && Bit(3) == 8;
    assert Bit(5) == 32;
  }

  lemma {:induction false} CodeIsPlain(day: nat)
    ensures |Code(day)| == 2 && Plain(Code(day)) && ',' !in Code(day)
  {
  }

  lemma {:induction false} DayCodeReads(was: (int, int), prefix: string, day: nat)
    requires day < 7 && PlainPrefix(prefix)
    ensures ReadDay(was, prefix + Code(day)) ==
            (SetBit(was.0, Bit(day)), if prefix != "" then WeekOf(prefix, was.1) else was.1)
    ensures Plain(prefix + Code(day)) && ',' !in prefix + Code(day)
  {
    CodeBit(day);
    CodeIsPlain(day);
    var code := Code(day);
    var token := prefix + code;
    PlainStays(token);
    assert token[|token| - 2..] == code && token[..|token| - 2] == prefix;
  }

  lemma {:induction false} DivMod(n: int, d: int, q: int, r: int)
    requires d > 0 && n == q * d + r && 0 <= r < d
    ensures n / d == q && n % d == r
  {
    var k := n / d - q;
    assert k * d == r - n % d by {
      assert n == (n / d) * d + n % d;
      assert (n / d - q) * d == (n / d) * d - q * d;
    }
    assert k >= 1 ==> k * d >= d;
    assert k <= -1 ==> k * d <= -d;
  }

  /** The low bits of a mask up to a power of two, one more bit at a time. */
  lemma {:induction false} LowBitsStep(mask: int, b: nat)
    requires b > 0
    ensures mask % (2 * b) == mask % b + if HasBit(mask, b) then b else 0
    ensures !HasBit(mask % b, b)
  {
    var q, r := mask / b, mask % b;
    var half, odd := q / 2, q % 2;
    assert mask == half * (2 * b) + (odd * b + r) by {
      assert mask == q * b + r;
      assert q == 2 * half + odd;
      assert (2 * half + odd) * b == half * (2 * b) + odd * b;
    }
    assert odd == 0 || odd == 1;
    DivMod(mask, 2 * b, half, odd * b + r);
    DivMod(r, b, 0, r);
  }

  lemma {:induction false} DayCodesRead(mask: int, prefix: string, n: nat)
    requires n <= 7 && PlainPrefix(prefix)
    ensures var (bits, week) := ReadDays(DayCodes(mask, prefix, n));
      && bits == mask % Bit(n)
      && week == (if prefix == "" || bits == 0 then 0 else WeekOf(prefix, 0))
    ensures forall c :: c in DayCodes(mask, prefix, n) ==> Plain(c) && ',' !in c && c != ""
    ensures DayCodes(mask, prefix, n) == [] <==> mask % Bit(n) == 0
  {
    if n > 0 {
      DayCodesRead(mask, prefix, n - 1);
      LowBitsStep(mask, Bit(n - 1));
      var before := DayCodes(mask, prefix, n - 1);
      var was := ReadDays(before);
      if HasBit(mask, Bit(n - 1)) {
        DayCodeReads(was, prefix, n - 1);
        var codes := before + [prefix + Code(n - 1)];
        assert codes[..|codes| - 1] == before;
        assert ReadDays(codes) == ReadDay(was, prefix + Code(n - 1));
        WeekOfTwice(prefix);
      } else {
        assert before + [] == before;
      }
    }
  }

  /** Repeating a position changes nothing. */
  lemma {:induction false} WeekOfTwice(position: string)
    ensures WeekOf(position, WeekOf(position, 0)) == WeekOf(position, 0)
  {
  }

  lemma {:induction false} JoinPlain(codes: seq<string>, sep: char)
    requires Plain([sep]) && forall c :: c in codes ==> Plain(c) && c != ""
    ensures Plain(Join(codes, sep)) && (Join(codes, sep) == "" <==> codes == [])
    decreases |codes|
  {
    if |codes| > 0 {
      assert codes[|codes| - 1] in codes;
      if |codes| > 1 { JoinPlain(codes[..|codes| - 1], sep); }
    }
  }

  lemma {:induction false} NoDaysRead()
    ensures ParseByDay("") == (0, 0)
  {
    assert Split("", ',') == [""];
    assert [""][..0] == [];
    assert ReadDays([""]) == ReadDay(ReadDays([]), "");
  }

  lemma {:induction false} DayListReads(codes: seq<string>)
    requires codes != [] && forall c :: c in codes ==> ',' !in c
    ensures ParseByDay(Join(codes, ',')) == ReadDays(codes)
  {
    SplitJoin(codes, ',');
  }

  /** The list of the first n days. */
  lemma {:induction false} FirstDaysRead(mask: int, prefix: string, n: nat, codes: seq<string>, bits: int)
    requires PlainPrefix(prefix) && n <= 7 && codes == DayCodes(mask, prefix, n) && bits == mask % Bit(n)
    ensures ParseByDay(Join(codes, ',')) == (bits, if prefix == "" || bits == 0 then 0 else WeekOf(prefix, 0))
    ensures Plain(Join(codes, ',')) && (Join(codes, ',') == "" <==> bits == 0)
  {
    DayCodesRead(mask, prefix, n);
    JoinPlain(codes, ',');
    if codes == [] { NoDaysRead(); } else { DayListReads(codes); }
  }

  lemma {:induction false} SevenBits()
    ensures Bit(7) == 128
  {
    assert Bit(4) == 16;
  }

  lemma {:induction false} ByDayReads(mask: int, prefix: string)
    requires PlainPrefix(prefix)
    ensures ParseByDay(ByDay(mask, prefix)) ==
            (mask % 128, if prefix == "" || mask % 128 == 0 then 0 else WeekOf(prefix, 0))
    ensures Plain(ByDay(mask, prefix)) && (ByDay(mask, prefix) == "" <==> mask % 128 == 0)
  {
    SevenBits();
    FirstDaysRead(mask, prefix, 7, DayCodes(mask, prefix, 7), mask % 128);
  }

  lemma {:induction false} WeekPrefixReads(week: int)
    ensures PlainPrefix(WeekPrefix(week)) && WeekPrefix(week) != ""
    ensures WeekOf(WeekPrefix(week), 0) == KeptWeek(week)
  {
    AtoiDecimal(week);
    AtoiDecimal(-1);
    DecimalHasNoComma(week);
    DecimalHasNoComma(-1);
    assert DecimalInt(-1) == "-1";
  }

  // ---------- the fields come back ----------

  function Lookup(fields: seq<Field>, k: string): string
    decreases |fields|
  {
    if fields == [] then ""
    else if fields[|fields| - 1].0 == k then fields[|fields| - 1].1
    else Lookup(fields[..|fields| - 1], k)
  }

  predicate Printable(fields: seq<Field>) { forall f :: f in fields ==> Plain(f.0) && Plain(f.1) }

  lemma {:induction false} PartReads(f: Field)
    requires Plain(f.0) && Plain(f.1)
    ensures FieldOf(Part(f)) == Some(f) && ';' !in Part(f)
  {
    assert '=' !in f.0;
    assert "=" == ['='];
    CutPair(f.0, f.1, '=');
    PlainStays(f.0);
    PlainStays(f.1);
  }

  lemma {:induction false} PartsRead(fields: seq<Field>, k: string)
    requires Printable(fields)
    ensures Get(Fields(Parts(fields)), k) == Lookup(fields, k)
    decreases |fields|
  {
    if fields != [] {
      var init, last := fields[..|fields| - 1], fields[|fields| - 1];
      assert last in fields;
      PartReads(last);
      PartsRead(init, k);
      assert Parts(fields)[..|fields| - 1] == Parts(init);
    }
  }

  predicate DistinctKeys(fields: seq<Field>) {
    forall i, j :: 0 <= i < j < |fields| ==> fields[i].0 != fields[j].0
  }

  lemma {:induction false} AbsentKey(fields: seq<Field>, k: string)
    requires forall f :: f in fields ==> f.0 != k
    ensures Lookup(Present(fields), k) == ""
    decreases |fields|
  {
    if fields != [] {
      var init, last := fields[..|fields| - 1], fields[|fields| - 1];
      assert last in fields;
      AbsentKey(init, k);
      assert (Present(init) + [last])[..|Present(init)|] == Present(init);
      assert Present(init) + [] == Present(init);
    }
  }

  /** Leaving empty fields out does not change what a lookup finds. */
  lemma {:induction false} PresentReads(fields: seq<Field>, i: nat)
    requires DistinctKeys(fields) && i < |fields|
    ensures Lookup(Present(fields), fields[i].0) == fields[i].1
    decreases |fields|
  {
    var init, last := fields[..|fields| - 1], fields[|fields| - 1];
    assert (Present(init) + [last])[..|Present(init)|] == Present(init);
    assert Present(init) + [] == Present(init);
    if i < |init| {
      PresentReads(init, i);
      assert init[i] == fields[i];
    } else if last.1 == "" {
      AbsentKey(init, last.0);
    }
  }

  lemma {:induction false} PresentFields(fields: seq<Field>)
    ensures forall f :: f in Present(fields) ==> f in fields && f.1 != ""
    decreases |fields|
  {
    if fields != [] {
      PresentFields(fields[..|fields| - 1]);
      assert fields == fields[..|fields| - 1] + [fields[|fields| - 1]];
    }
  }

  lemma {:induction false} PositiveIsPlain(n: int)
    ensures Plain(Positive(n)) && (Positive(n) == "" <==> n <= 0) && AtLeastOne(Positive(n)) == Kept(n, 1)
    ensures AnyInt(Positive(n)) == Kept(n, 1)
  {
    AtoiDecimal(n);
  }

  lemma {:induction false} DaysTextIsPlain(r: Rule)
    ensures Plain(DaysText(r))
  {
    WeekPrefixReads(r.weekOfMonth);
    ByDayReads(r.dayOfWeek, "");
    ByDayReads(r.dayOfWeek, WeekPrefix(r.weekOfMonth));
  }

  lemma {:induction false} TableKeys(r: Rule)
    ensures DistinctKeys(Table(r))
    ensures forall i :: 0 <= i < |Table(r)| ==> Plain(Table(r)[i].0)
  {
    var keys := ["FREQ", "BYMONTH", "BYMONTHDAY", "BYDAY", "INTERVAL", "COUNT", "UNTIL"];
    assert forall i :: 0 <= i < 7 ==> Table(r)[i].0 == keys[i];
    assert forall i, j :: 0 <= i < j < 7 ==> |keys[i]| != |keys[j]| || keys[i][0] != keys[j][0];
  }

  predicate PlainField(f: Field) { Plain(f.0) && Plain(f.1) }

  lemma {:induction false} SevenFields(a: Field, b: Field, c: Field, d: Field, e: Field, f: Field, g: Field)
    requires PlainField(a) && PlainField(b) && PlainField(c) && PlainField(d)
    requires PlainField(e) && PlainField(f) && PlainField(g)
    ensures Printable([a, b, c, d, e, f, g])
  {
    assert [a, b, c, d, e, f, g] == [a, b, c] + [d, e] + [f, g];
  }

  lemma {:induction false} OptionalTextsArePlain(r: Rule)
    ensures Plain(MonthText(r)) && Plain(MonthDayText(r)) && Plain(IntervalText(r)) && Plain(UntilText(r))
  {
    PositiveIsPlain(r.monthOfYear);
    PositiveIsPlain(r.dayOfMonth);
    AtoiDecimal(r.interval);
    StampIsPlain(r.until);
  }

  lemma {:induction false} TableIsPrintable(r: Rule)
    ensures Printable(Table(r))
  {
    OptionalTextsArePlain(r);
    PositiveIsPlain(r.occurrences);
    DaysTextIsPlain(r);
    var t := Table(r);
    TableKeys(r);
    assert Plain(Frequency(r.kind));
    assert Plain(t[0].0) && Plain(t[1].0) && Plain(t[2].0) && Plain(t[3].0);
    assert Plain(t[4].0) && Plain(t[5].0) && Plain(t[6].0);
    SevenFields(t[0], t[1], t[2], t[3], t[4], t[5], t[6]);
    assert t == [t[0], t[1], t[2], t[3], t[4], t[5], t[6]];
  }

  /** Parsing a printed rule finds every field that was printed, and only those. */
  lemma {:induction false} PrintedFieldsRead(r: Rule, i: nat)
    requires Frequency(r.kind) != "" && i < |Table(r)|
    ensures Get(Fields(Split(Print(r), ';')), Table(r)[i].0) == Table(r)[i].1
  {
    var fields := Present(Table(r));
    TableKeys(r);
    TableIsPrintable(r);
    PresentFields(Table(r));
    PresentReads(Table(r), i);
    PresentReads(Table(r), 0);
    assert Lookup(fields, "FREQ") != "";
    forall p | p in Parts(fields) ensures ';' !in p {
      var j :| 0 <= j < |fields| && p == Part(fields[j]);
      assert fields[j] in fields;
      PartReads(fields[j]);
    }
    SplitJoin(Parts(fields), ';');
    PartsRead(fields, Table(r)[i].0);
  }

  lemma {:induction false} PrintedReads(r: Rule)
    requires Frequency(r.kind) != ""
    ensures Parse(Print(r)) == Interpret(Frequency(r.kind), MonthText(r), MonthDayText(r), DaysText(r),
                                         IntervalText(r), Positive(r.occurrences), UntilText(r))
  {
    PrintedFieldsRead(r, 0);
    PrintedFieldsRead(r, 1);
    PrintedFieldsRead(r, 2);
    PrintedFieldsRead(r, 3);
    PrintedFieldsRead(r, 4);
    PrintedFieldsRead(r, 5);
    PrintedFieldsRead(r, 6);
  }

  lemma {:induction false} BareReads(r: Rule)
    ensures Bare(IntervalText(r), Positive(r.occurrences), UntilText(r)) ==
            Base(r).(kind := DAILY)
  {
    AtoiDecimal(r.interval);
    PositiveIsPlain(r.occurrences);
    StampParses(r.until);
  }

  lemma {:induction false} ByDateReads(b: Rule, n: int, date: int, day: int)
    ensures ByDateOrDay(b, Positive(n), "", date, day) ==
            if n > 0 then Some(b.(kind := date, dayOfMonth := n)) else None
  {
    PositiveIsPlain(n);
  }

  lemma {:induction false} ByWeekdayReads(b: Rule, mask: int, week: int, date: int, day: int)
    ensures ByDateOrDay(b, "", ByDay(mask, WeekPrefix(week)), date, day) ==
            if mask % 128 != 0 && KeptWeek(week) > 0
            then Some(b.(kind := day, dayOfWeek := mask % 128, weekOfMonth := KeptWeek(week))) else None
  {
    WeekPrefixReads(week);
    ByDayReads(mask, WeekPrefix(week));
  }

  lemma {:induction false} MonthlyReads(r: Rule, b: Rule)
    requires r.kind == MONTHLY_DATE || r.kind == MONTHLY_BY_DAY
    requires b == Base(r).(kind := DAILY)
    ensures ByDateOrDay(b, MonthDayText(r), DaysText(r), MONTHLY_DATE, MONTHLY_BY_DAY) == Canon(r)
  {
    if r.kind == MONTHLY_DATE {
      ByDateReads(b, r.dayOfMonth, MONTHLY_DATE, MONTHLY_BY_DAY);
    } else {
      ByWeekdayReads(b, r.dayOfWeek, r.weekOfMonth, MONTHLY_DATE, MONTHLY_BY_DAY);
    }
  }

  lemma {:induction false} YearlyReads(r: Rule, b: Rule)
    requires r.kind == YEARLY_DATE || r.kind == YEARLY_BY_DAY
    requires b == Base(r).(kind := DAILY, monthOfYear := Kept(r.monthOfYear, 1))
    ensures ByDateOrDay(b, MonthDayText(r), DaysText(r), YEARLY_DATE, YEARLY_BY_DAY) == Canon(r)
  {
    if r.kind == YEARLY_DATE {
      ByDateReads(b, r.dayOfMonth, YEARLY_DATE, YEARLY_BY_DAY);
    } else {
      ByWeekdayReads(b, r.dayOfWeek, r.weekOfMonth, YEARLY_DATE, YEARLY_BY_DAY);
    }
  }

  /** For every record: exactly this comes back when its RRULE is parsed. */
  lemma {:induction false} ParsePrintIsCanon(r: Rule)
    ensures Parse(Print(r)) == Canon(r)
  {
    if Frequency(r.kind) == "" {
      assert Split("", ';') == [""];
      assert Fields([""]) == map[];
    } else {
      PrintedReads(r);
      BareReads(r);
      var bare := Base(r).(kind := DAILY);
      if r.kind == WEEKLY {
        ByDayReads(r.dayOfWeek, "");
      } else if r.kind == MONTHLY_DATE || r.kind == MONTHLY_BY_DAY {
        MonthlyReads(r, bare);
      } else if r.kind != DAILY {
        PositiveIsPlain(r.monthOfYear);
        YearlyReads(r, bare.(monthOfYear := Kept(r.monthOfYear, 1)));
      }
    }
  }

  lemma {:induction false} CanonIsNormal(r: Rule)
    ensures Canon(r) == Some(r) <==> NormalForm(r)
    ensures Canon(r).Some? ==> NormalForm(Canon(r).value)
  {
  }

  /** The parser inverts the printer on exactly the records in normal form. */
  lemma {:induction false} ParsePrintIffNormalForm(r: Rule)
    ensures Parse(Print(r)) == Some(r) <==> NormalForm(r)
  {
    ParsePrintIsCanon(r);
    CanonIsNormal(r);
  }

  lemma {:induction false} SameLowBitsPrintAlike(x: int, y: int, prefix: string, n: nat)
    requires n <= 7 && x % Bit(n) == y % Bit(n)
    ensures DayCodes(x, prefix, n) == DayCodes(y, prefix, n)
  {
    if n > 0 {
      var b := Bit(n - 1);
      LowBitsStep(x, b);
      LowBitsStep(y, b);
      SameLowBitsPrintAlike(x, y, prefix, n - 1);
    }
  }

  lemma {:induction false} MaskPrints(mask: int, prefix: string)
    ensures ByDay(mask % 128, prefix) == ByDay(mask, prefix)
  {
    assert Bit(7) == 128;
    SameLowBitsPrintAlike(mask % 128, mask, prefix, 7);
  }

  lemma {:induction false} DaysPrintAlike(r: Rule)
    requires Canon(r).Some?
    ensures DaysText(Canon(r).value) == DaysText(r)
  {
    MaskPrints(r.dayOfWeek, "");
    MaskPrints(r.dayOfWeek, WeekPrefix(r.weekOfMonth));
    if KeptWeek(r.weekOfMonth) == 5 {
      assert DecimalInt(-1) == "-" + Decimal(1) == "-1";
    }
  }

  lemma {:induction false} NumbersPrintAlike(r: Rule)
    requires Canon(r).Some?
    ensures var c := Canon(r).value;
      && c.kind == r.kind
      && MonthText(c) == MonthText(r) && MonthDayText(c) == MonthDayText(r) && IntervalText(c) == IntervalText(r)
  {
  }

  lemma {:induction false} EndsPrintAlike(r: Rule)
    requires Canon(r).Some?
    ensures Positive(Canon(r).value.occurrences) == Positive(r.occurrences)
    ensures UntilText(Canon(r).value) == UntilText(r)
  {
  }

  lemma {:induction false} CanonPrintsAlike(r: Rule)
    requires Canon(r).Some?
    ensures Print(Canon(r).value) == Print(r)
  {
    NumbersPrintAlike(r);
    EndsPrintAlike(r);
    DaysPrintAlike(r);
    assert Table(Canon(r).value) == Table(r);
  }

  /** Printing and parsing once is enough: the text that comes out of it never changes again. */
  lemma {:induction false} PrintedTextIsStable(r: Rule)
    requires Parse(Print(r)).Some?
    ensures Print(Parse(Print(r)).value) == Print(r)
  {
    ParsePrintIsCanon(r);
    CanonPrintsAlike(r);
  }

  // ---------- the end of a client's rule ----------

  /** Year, month and day in eight digits. */
  function DateText(year: nat, month: nat, day: nat): string
    requires year < 10000 && month < 100 && day < 100
  {
    Four(year) + Two(month) + Two(day)
  }

  lemma {:induction false} UntilIsRead(freq: string, month: string, monthDay: string, byDay: string,
                                       interval: string, count: string, until: string)
    ensures var r := Interpret(freq, month, monthDay, byDay, interval, count, until);
      r.Some? ==> r.value.until == UntilOf(until)
  {
  }

  lemma {:induction false} DateIsRead(year: nat, month: nat, day: nat, u: string)
    requires year < 10000 && month < 100 && day < 100 && u == DateText(year, month, day)
    ensures UntilOf(u) ==
            if 1 <= month <= 12 && 1 <= day <= DaysIn(year, month) then Instant(year, month, day, 0, 0, 0) else ZERO
  {
    DateParses(year, month, day);
  }

  /** A rule that ends on a day ends at its first second in UTC; on a day that is on no calendar
      it has no end. */
  lemma {:induction false} DateEndsRule(s: string, year: nat, month: nat, day: nat, u: string)
    requires year < 10000 && month < 100 && day < 100 && u == DateText(year, month, day)
    requires Parse(s).Some? && Get(Fields(Split(s, ';')), "UNTIL") == u
    ensures Parse(s).value.until ==
            if 1 <= month <= 12 && 1 <= day <= DaysIn(year, month) then Instant(year, month, day, 0, 0, 0) else ZERO
  {
    var kv := Fields(Split(s, ';'));
    UntilIsRead(Get(kv, "FREQ"), Get(kv, "BYMONTH"), Get(kv, "BYMONTHDAY"), Get(kv, "BYDAY"),
                Get(kv, "INTERVAL"), Get(kv, "COUNT"), Get(kv, "UNTIL"));
    DateIsRead(year, month, day, u);
  }

  lemma {:induction false} UpperDigits(n: nat)
    ensures n / 100 / 10 == n / 1000
  {
  }

  lemma {:induction false} LowerDigits(n: nat)
    ensures n % 100 / 10 == n / 10 % 10 && n % 100 % 10 == n % 10
  {
    assert n == 100 * (n / 100) + n % 100;
  }

  lemma {:induction false} FourDigits(n: nat)
    requires n < 10000
    ensures Four(n) == [DigitChar(n / 1000), DigitChar(n / 100 % 10), DigitChar(n / 10 % 10), DigitChar(n % 10)]
  {
    UpperDigits(n);
    LowerDigits(n);
    assert Two(n / 100) == [DigitChar(n / 100 / 10), DigitChar(n / 100 % 10)];
    assert Two(n % 100) == [DigitChar(n % 100 / 10), DigitChar(n % 100 % 10)];
  }

  /** The digits stand for year, month and day, most significant first. */
  lemma {:induction false} DigitsOfDate(year: nat, month: nat, day: nat)
    requires year < 10000 && month < 100 && day < 100
    ensures DateText(year, month, day) == [
      DigitChar(year / 1000), DigitChar(year / 100 % 10), DigitChar(year / 10 % 10), DigitChar(year % 10),
      DigitChar(month / 10), DigitChar(month % 10), DigitChar(day / 10), DigitChar(day % 10)]
  {
    FourDigits(year);
  }

  /** The months of a common year, and the years around the rule for centuries. */
  lemma {:induction false} MonthLengths(year: nat)
    ensures !IsLeap(year) ==> seq(12, i requires 0 <= i < 12 => DaysIn(year, i + 1)) ==
                              [31, 28, 31, 30, 31, 30, 31, 31, 30, 31, 30, 31]
    ensures DaysIn(2023, 2) == 28 && DaysIn(2024, 2) == 29 && DaysIn(1900, 2) == 28 && DaysIn(2000, 2) == 29
    ensures IsLeap(year) ==> !IsLeap(year + 1) && !IsLeap(year + 2) && !IsLeap(year + 3) && IsLeap(year + 400)
  {
  }

  /** A printed point in time shows its date, T, its time and Z in this order. */
  lemma {:induction false} DigitsOfStamp(t: Stamp)
    ensures |FormatStamp(t)| == 16 && FormatStamp(t)[..8] == DateText(t.year, t.month, t.day)
    ensures FormatStamp(t)[8..] == [
      'T', DigitChar(t.hour / 10), DigitChar(t.hour % 10), DigitChar(t.minute / 10), DigitChar(t.minute % 10),
      DigitChar(t.second / 10), DigitChar(t.second % 10), 'Z']
  {
    DateParses(t.year, t.month, t.day);
    assert FormatStamp(t) == DateText(t.year, t.month, t.day) + "T" + Two(t.hour) + Two(t.minute) + Two(t.second) + "Z";
  }

  // ---------- rules that clients send ----------

  lemma {:induction false} MaskStaysSmall(tokens: seq<string>)
    ensures 0 <= ReadDays(tokens).0 < 128 && 0 <= ReadDays(tokens).1 <= 5
    decreases |tokens|
  {
    if tokens != [] {
      MaskStaysSmall(tokens[..|tokens| - 1]);
      var was := ReadDays(tokens[..|tokens| - 1]);
      OrStaysSmall(was.0, 1);
      OrStaysSmall(was.0, 2);
      OrStaysSmall(was.0, 4);
      OrStaysSmall(was.0, 8);
      OrStaysSmall(was.0, 16);
      OrStaysSmall(was.0, 32);
      OrStaysSmall(was.0, 64);
    }
  }

  lemma {:induction false} OrStaysSmall(mask: nat, bit: nat)
    requires mask < 128 && bit in {1, 2, 4, 8, 16, 32, 64}
    ensures 0 <= SetBit(mask, bit) < 128
  {
  }

  predicate ByWeekday(r: Rule) { r.kind == MONTHLY_BY_DAY || r.kind == YEARLY_BY_DAY }

  lemma {:induction false} ByDateOrDayShape(b: Rule, monthDay: string, byDay: string, date: int, day: int)
    requires ByDateOrDay(b, monthDay, byDay, date, day).Some?
    ensures var r := ByDateOrDay(b, monthDay, byDay, date, day).value;
      || (r.kind == date && r.dayOfMonth > 0)
      || (r.kind == day && 0 <= r.dayOfWeek < 128 && 1 <= r.weekOfMonth <= 5)
  {
    MaskStaysSmall(Split(byDay, ','));
  }

  predicate Readable(r: Rule) {
    || r.kind == DAILY
    || r.kind == WEEKLY
    || ((r.kind == MONTHLY_DATE || r.kind == YEARLY_DATE) && r.dayOfMonth > 0)
    || (ByWeekday(r) && 0 <= r.dayOfWeek < 128 && 1 <= r.weekOfMonth <= 5)
  }

  lemma {:induction false} InterpretedShape(freq: string, month: string, monthDay: string, byDay: string,
                         interval: string, count: string, until: string)
    ensures var r := Interpret(freq, month, monthDay, byDay, interval, count, until);
      r.Some? ==> Readable(r.value)
  {
    var bare := Bare(interval, count, until);
    var yearly := bare.(monthOfYear := AnyInt(month));
    if ByDateOrDay(bare, monthDay, byDay, MONTHLY_DATE, MONTHLY_BY_DAY).Some? {
      ByDateOrDayShape(bare, monthDay, byDay, MONTHLY_DATE, MONTHLY_BY_DAY);
    }
    if ByDateOrDay(yearly, monthDay, byDay, YEARLY_DATE, YEARLY_BY_DAY).Some? {
      ByDateOrDayShape(yearly, monthDay, byDay, YEARLY_DATE, YEARLY_BY_DAY);
    }
  }

  /** The only by-day rules the parser accepts that cannot be printed name no weekday. */
  lemma {:induction false} ReadablePrints(r: Rule)
    requires Readable(r)
    ensures Canon(r).Some? <==> !(ByWeekday(r) && r.dayOfWeek == 0)
  {
  }

  /** A rule written by a client is served back as a rule exactly unless it goes by weekday
      and names none; the served text then parses to a record that no later round changes. */
  lemma {:induction false} ClientRuleSettles(s: string)
    requires Parse(s).Some?
    ensures var r := Parse(s).value;
      && (Parse(Print(r)).Some? <==> !(ByWeekday(r) && r.dayOfWeek == 0))
      && (Parse(Print(r)).Some? ==> var settled := Parse(Print(r)); Parse(Print(settled.value)) == settled)
  {
    var kv := Fields(Split(s, ';'));
    InterpretedShape(Get(kv, "FREQ"), Get(kv, "BYMONTH"), Get(kv, "BYMONTHDAY"), Get(kv, "BYDAY"),
                     Get(kv, "INTERVAL"), Get(kv, "COUNT"), Get(kv, "UNTIL"));
    ReadablePrints(Parse(s).value);
    Settles(Parse(s).value);
  }

  lemma {:induction false} Settles(r: Rule)
    ensures Parse(Print(r)).Some? == Canon(r).Some?
    ensures Parse(Print(r)).Some? ==> var settled := Parse(Print(r)); Parse(Print(settled.value)) == settled
  {
    ParsePrintIsCanon(r);
    CanonIsNormal(r);
    if Canon(r).Some? { ParsePrintIffNormalForm(Canon(r).value); }
  }

  // ---------- the loops that print and parse ----------

  /** byday and bydayWithPos of easRecurrenceToRRULE. */
  method ListDays(mask: int, prefix: string) returns (s: string)
    ensures s == ByDay(mask, prefix)
  {
    var codes: seq<string> := [];
    for day := 0 to 7
      invariant codes == DayCodes(mask, prefix, day)
    {
      if HasBit(mask, Bit(day)) { codes := codes + [prefix + Code(day)]; }
    }
    s := Join(codes, ',');
  }

  lemma {:induction false} AppendPart(fields: seq<Field>, f: Field)
    ensures Parts(Present(fields + [f])) == Parts(Present(fields)) + if f.1 != "" then [Part(f)] else []
  {
    assert (fields + [f])[..|fields|] == fields;
  }

  /** The parts of the table from position n on, appended one by one. */
  method AppendParts(parts: seq<string>, fields: seq<Field>, f: Field) returns (more: seq<string>)
    requires parts == Parts(Present(fields))
    ensures more == Parts(Present(fields + [f]))
  {
    AppendPart(fields, f);
    more := if f.1 != "" then parts + [Part(f)] else parts;
  }

  /** easRecurrenceToRRULE. */
  method EasRecurrenceToRRULE(r: Rule) returns (s: string)
    ensures s == Print(r)
  {
    var frequency := Frequency(r.kind);
    if frequency == "" { return ""; }
    var byDay := "";
    if r.kind == WEEKLY {
      byDay := ListDays(r.dayOfWeek, "");
    } else if ByWeekday(r) {
      byDay := ListDays(r.dayOfWeek, WeekPrefix(r.weekOfMonth));
    }
    var t := [("FREQ", frequency), ("BYMONTH", MonthText(r)), ("BYMONTHDAY", MonthDayText(r)), ("BYDAY", byDay),
              ("INTERVAL", IntervalText(r)), ("COUNT", Positive(r.occurrences)), ("UNTIL", UntilText(r))];
    var parts: seq<string> := [];
    for i := 0 to |t|
      invariant parts == Parts(Present(t[..i]))
    {
      parts := AppendParts(parts, t[..i], t[i]);
      assert t[..i] + [t[i]] == t[..i + 1];
    }
    assert t[..|t|] == t;
    s := Join(parts, ';');
  }

  /** parseByDay. */
  method ReadByDay(s: string) returns (bits: int, week: int)
    ensures (bits, week) == ParseByDay(s)
  {
    var tokens := Split(s, ',');
    bits, week := 0, 0;
    for i := 0 to |tokens|
      invariant (bits, week) == ReadDays(tokens[..i])
    {
      assert tokens[..i + 1][..i] == tokens[..i];
      var tok := TrimSpace(tokens[i]);
      if |tok| >= 2 {
        var code, position := tok[|tok| - 2..], tok[..|tok| - 2];
        if BitOf(code) > 0 { bits := SetBit(bits, BitOf(code)); }
        if position != "" {
          var n := Atoi(position);
          if n == Some(-1) {
            week := 5;
          } else if n.Some? && 1 <= n.value <= 4 {
            week := n.value;
          }
        }
      }
    }
    assert tokens[..|tokens|] == tokens;
  }

  /** rruleToEASRecurrence. */
  method RruleToEASRecurrence(s: string) returns (r: Option<Rule>)
    ensures r == Parse(s)
  {
    var parts := Split(s, ';');
    var kv: map<string, string> := map[];
    for i := 0 to |parts|
      invariant kv == Fields(parts[..i])
    {
      assert parts[..i + 1][..i] == parts[..i];
      var cut := Cut(parts[i], '=');
      if cut.Some? { kv := kv[ToUpper(TrimSpace(cut.value.0)) := ToUpper(TrimSpace(cut.value.1))]; }
    }
    assert parts[..|parts|] == parts;
    var freq, monthDay, byDay := Get(kv, "FREQ"), AtLeastOne(Get(kv, "BYMONTHDAY")), Get(kv, "BYDAY");
    var rule := Bare(Get(kv, "INTERVAL"), Get(kv, "COUNT"), Get(kv, "UNTIL"));
    var bits, week := ReadByDay(byDay);
    if freq == "DAILY" { return Some(rule); }
    if freq == "WEEKLY" { return Some(rule.(kind := WEEKLY, dayOfWeek := bits)); }
    if freq != "MONTHLY" && freq != "YEARLY" { return None; }
    var yearly := freq == "YEARLY";
    if yearly { rule := rule.(monthOfYear := AnyInt(Get(kv, "BYMONTH"))); }
    if monthDay > 0 {
      r := Some(rule.(kind := if yearly then YEARLY_DATE else MONTHLY_DATE, dayOfMonth := monthDay));
    } else if byDay != "" && week > 0 {
      var kind := if yearly then YEARLY_BY_DAY else MONTHLY_BY_DAY;
      r := Some(rule.(kind := kind, dayOfWeek := bits, weekOfMonth := week));
    } else {
      r := None;
    }
  }
}
