/** Runs of the calendar store over the text of events.jsonl: an append may stop anywhere,
    the process goes on, and the next append lands behind whatever was left. */
module CalendarText {
  import opened Ids
  import opened Calendar
  import opened CalendarLaws
  import opened EventLog
  import opened CalendarRun
  import opened LogFile
  import Text

  /** The store, with its log as characters. */
  datatype Store = Store(world: World, snapshot: Cal, data: string)

  /** `reached` characters of the line of an appending step get into the file; the append
      succeeds only if these are all.  Other steps append nothing. */
  datatype Move = Move(step: Step, reached: nat)

  /** No part of an encoding that has begun decodes to anything, whatever it lands on. */
  ghost predicate PartsDoNotDecode(codec: Codec) {
    forall tail: string, e, k :: 0 < k < |codec.encode(e)| ==>
      !Blank(codec.encode(e)[..k]) && codec.decode(tail + codec.encode(e)[..k]) == None
  }

  ghost predicate JSON(codec: Codec) { Faithful(codec) && JoinsOnlyBlanks(codec) && PartsDoNotDecode(codec) }

  /** What a restart would find. */
  function Found(codec: Codec, t: Store): State { State(t.world, Disk(t.snapshot, Read(codec, t.data))) }

  /** The same without what stands behind the last newline. */
  function FoundComplete(codec: Codec, t: Store): State {
    State(t.world, Disk(t.snapshot, ReadComplete(codec, t.data)))
  }

  predicate Appends(step: Step) {
    step.SaveStep? || step.DedupeStep? || step.LocalUpsertStep? || step.LocalDeleteStep?
  }

  /** The batch an appending step writes. */
  ghost function Own(w: World, step: Step): Batch
    requires Appends(step)
  {
    var own := World(w.cal, EMPTY_BATCH);
    match step
    case SaveStep => w.batch
    case DedupeStep => Dedupe(own).batch
    case LocalUpsertStep(ev) => LocalUpsert(own, ev).batch
    case LocalDeleteStep(id) => LocalDelete(own, id).batch
  }

  /** The same step when nothing of its line is read back. */
  function Unread(step: Step): Step
    requires Appends(step)
  {
    match step
    case SaveStep => DropPendingStep
    case DedupeStep => UnwrittenRepairStep
    case LocalUpsertStep(ev) => UnloggedUpsertStep(ev)
    case LocalDeleteStep(id) => UnloggedDeleteStep(id)
  }

  ghost function OwnLine(codec: Codec, w: World, step: Step): string
    requires Appends(step)
  {
    if Own(w, step) == EMPTY_BATCH then "" else Line(codec, BatchEntry(Written(Own(w, step))))
  }

  ghost predicate EmptiesLog(w: World, step: Step) {
    step.CompactStep? || (step.StartupRepairStep? && step.truncated && Folded(w.cal.events) != {})
  }

  function Upto(line: string, reached: nat): string { if reached < |line| then line[..reached] else line }

  ghost function Moved(codec: Codec, t: Store, m: Move): Store {
    if Appends(m.step) then
      Store(Next(Found(codec, t), Unread(m.step)).world, t.snapshot,
            t.data + Upto(OwnLine(codec, t.world, m.step), m.reached))
    else
      var s := Next(Found(codec, t), m.step);
      Store(s.world, s.disk.snapshot, if EmptiesLog(t.world, m.step) then "" else t.data)
  }

  /** Whether the step reports success. */
  ghost predicate Succeeds(codec: Codec, t: Store, m: Move) {
    Appends(m.step) ==> m.reached >= |OwnLine(codec, t.world, m.step)|
  }

  /** The move writes something behind text that no newline ended. */
  ghost predicate Joins(codec: Codec, t: Store, m: Move) {
    && Appends(m.step) && OwnLine(codec, t.world, m.step) != ""
    && !Blank(Tail(t.data)) && m.reached > 0
  }

  /** What a move amounts to: an appended line counts if it starts a line and all of it but
      the newline is there. */
  ghost function Effective(codec: Codec, t: Store, m: Move): Step {
    var line := if Appends(m.step) then OwnLine(codec, t.world, m.step) else "";
    if line == "" || (Blank(Tail(t.data)) && m.reached >= |line| - 1) then m.step else Unread(m.step)
  }

  // ---------- one append ----------

  lemma {:induction false} PartOfLine(codec: Codec, tail: string, e: Entry, k: nat)
    requires JSON(codec) && 0 < k < |codec.encode(e)|
    ensures ReadLine(codec, tail + codec.encode(e)[..k]) == []
  {
    var part := codec.encode(e)[..k];
    assert codec.decode(tail + part) == None;
  }

  /** The file after some of a line was appended. */
  lemma {:induction false} ReadAfterAppend(codec: Codec, data: string, e: Entry, reached: nat)
    requires JSON(codec)
    ensures Read(codec, data + Upto(Line(codec, e), reached)) ==
            if reached == 0 then Read(codec, data)
            else if Blank(Tail(data)) && reached >= |codec.encode(e)| then Read(codec, data) + [e]
            else ReadComplete(codec, data)
  {
    var text := codec.encode(e);
    if reached == 0 {
      assert Line(codec, e)[..0] == "" && data + "" == data;
    } else if reached < |text| {
      assert Line(codec, e)[..reached] == text[..reached];
      ReadAfterText(codec, data, text[..reached]);
      PartOfLine(codec, Tail(data), e, reached);
      assert ReadComplete(codec, data) + [] == ReadComplete(codec, data);
    } else {
      WholeLine(codec, data, e, reached);
    }
  }

  lemma {:induction false} WholeLine(codec: Codec, data: string, e: Entry, reached: nat)
    requires JSON(codec) && reached >= |codec.encode(e)|
    ensures Read(codec, data + Upto(Line(codec, e), reached)) ==
            if Blank(Tail(data)) then Read(codec, data) + [e] else ReadComplete(codec, data)
  {
    var text := codec.encode(e);
    JoinedLine(codec, Tail(data), e);
    if reached == |text| {
      assert Line(codec, e)[..reached] == text;
      ReadAfterText(codec, data, text);
    } else {
      assert data + Line(codec, e) == data + text + [NEWLINE];
      ReadAfterLine(codec, data, text);
    }
    assert Read(codec, data) == ReadComplete(codec, data) + ReadLine(codec, Tail(data));
    assert ReadComplete(codec, data) + [] == ReadComplete(codec, data);
  }

  // ---------- moves are steps ----------

  lemma {:induction false} SaveWrites(s: State)
    ensures Next(s, DropPendingStep).disk == s.disk
    ensures Next(s, SaveStep) == State(Next(s, DropPendingStep).world, Append(s.disk, Own(s.world, SaveStep)))
  {
  }

  lemma {:induction false} NextIsUnwritten(s: State, d: World)
    requires d == Dedupe(World(s.world.cal, EMPTY_BATCH))
    ensures Next(s, UnwrittenRepairStep) == State(World(d.cal, EMPTY_BATCH), s.disk)
  {
  }

  lemma {:induction false} NextIsRepair(s: State, d: World)
    requires d == Dedupe(World(s.world.cal, EMPTY_BATCH))
    ensures Next(s, DedupeStep) == State(World(d.cal, EMPTY_BATCH), Append(s.disk, d.batch))
  {
  }

  lemma {:induction false} OwnRepair(w: World, d: World)
    requires d == Dedupe(World(w.cal, EMPTY_BATCH))
    ensures Own(w, DedupeStep) == d.batch
  {
  }

  lemma {:induction false} RepairWrites(s: State, d: World)
    requires d == Dedupe(World(s.world.cal, EMPTY_BATCH))
    ensures Next(s, UnwrittenRepairStep).disk == s.disk
    ensures Next(s, DedupeStep) == State(Next(s, UnwrittenRepairStep).world, Append(s.disk, Own(s.world, DedupeStep)))
  {
    NextIsUnwritten(s, d);
    NextIsRepair(s, d);
    OwnRepair(s.world, d);
  }

  lemma {:induction false} UpsertWrites(s: State, ev: Event)
    ensures Next(s, UnloggedUpsertStep(ev)).disk == s.disk
    ensures Next(s, LocalUpsertStep(ev)) ==
            State(Next(s, UnloggedUpsertStep(ev)).world, Append(s.disk, Own(s.world, LocalUpsertStep(ev))))
  {
    NextIsLocalUpsert(s, ev);
  }

  lemma {:induction false} DeleteWrites(s: State, id: string)
    ensures Next(s, UnloggedDeleteStep(id)).disk == s.disk
    ensures Next(s, LocalDeleteStep(id)) ==
            State(Next(s, UnloggedDeleteStep(id)).world, Append(s.disk, Own(s.world, LocalDeleteStep(id))))
  {
    NextIsLocalDelete(s, id);
  }

  lemma {:induction false} UnreadWritesNothing(s: State, step: Step)
    requires Appends(step)
    ensures Next(s, Unread(step)).disk == s.disk
    ensures Next(s, step) == State(Next(s, Unread(step)).world, Append(s.disk, Own(s.world, step)))
  {
    match step
    case SaveStep => SaveWrites(s);
    case DedupeStep => RepairWrites(s, Dedupe(World(s.world.cal, EMPTY_BATCH)));
    case LocalUpsertStep(ev) => UpsertWrites(s, ev);
    case LocalDeleteStep(id) => DeleteWrites(s, id);
  }

  lemma {:induction false} PlainStep(codec: Codec, t: Store, step: Step)
    requires !Appends(step)
    ensures var s := Next(Found(codec, t), step);
      s.disk.log == if EmptiesLog(t.world, step) then [] else Read(codec, t.data)
  {
  }

  lemma {:induction false} EmptyFile(codec: Codec)
    ensures Read(codec, "") == [] && Tail("") == ""
  {
    assert Lines("") == [""];
    assert [""][..0] == [];
    assert Read(codec, "") == ReadLines(codec, []) + ReadLine(codec, "");
  }

  /** A move does to memory and to what a restart finds what its effective step does; only
      when it joins unfinished text is that text forgotten first. */
  lemma {:induction false} MoveIsStep(codec: Codec, t: Store, m: Move)
    requires JSON(codec)
    ensures Found(codec, Moved(codec, t, m)) ==
            Next(if Joins(codec, t, m) then FoundComplete(codec, t) else Found(codec, t), Effective(codec, t, m))
  {
    if Appends(m.step) {
      AppendIsStep(codec, t, m);
    } else {
      PlainStep(codec, t, m.step);
      EmptyFile(codec);
    }
  }

  lemma {:induction false} AppendIsStep(codec: Codec, t: Store, m: Move)
    requires JSON(codec) && Appends(m.step)
    ensures Found(codec, Moved(codec, t, m)) ==
            Next(if Joins(codec, t, m) then FoundComplete(codec, t) else Found(codec, t), Effective(codec, t, m))
  {
    var s, own := Found(codec, t), Own(t.world, m.step);
    UnreadWritesNothing(s, m.step);
    UnreadWritesNothing(FoundComplete(codec, t), m.step);
    SameWorld(s, FoundComplete(codec, t), m.step);
    if own == EMPTY_BATCH {
      assert t.data + "" == t.data;
    } else {
      ReadAfterAppend(codec, t.data, BatchEntry(Written(own)), m.reached);
    }
  }

  lemma {:induction false} SameWorld(s: State, r: State, step: Step)
    requires s.world == r.world && Appends(step)
    ensures Next(s, Unread(step)).world == Next(r, Unread(step)).world
  {
  }

  // ---------- runs ----------

  /** What stands behind the last newline is not read. */
  ghost predicate TailUnread(codec: Codec, t: Store) { ReadLine(codec, Tail(t.data)) == [] }

  /** The write stopped between a line and its newline. */
  ghost predicate StopsAtNewline(codec: Codec, t: Store, m: Move) {
    Appends(m.step) && m.reached + 1 == |OwnLine(codec, t.world, m.step)| && Blank(Tail(t.data))
  }

  lemma {:induction false} TailOfText(data: string, text: string)
    requires NEWLINE !in text
    ensures Tail(data + text) == Tail(data) + text
  {
    Text.SplitText(data, text, NEWLINE);
  }

  lemma {:induction false} UnreadStays(codec: Codec, t: Store, m: Move)
    requires JSON(codec) && TailUnread(codec, t) && !StopsAtNewline(codec, t, m)
    ensures TailUnread(codec, Moved(codec, t, m))
  {
    EmptyFile(codec);
    assert t.data + "" == t.data;
    if Appends(m.step) && OwnLine(codec, t.world, m.step) != "" && m.reached > 0 {
      LineLeavesUnread(codec, t.data, BatchEntry(Written(Own(t.world, m.step))), m.reached);
    }
  }

  lemma {:induction false} LineLeavesUnread(codec: Codec, data: string, e: Entry, reached: nat)
    requires JSON(codec) && reached > 0 && !(reached == |codec.encode(e)| && Blank(Tail(data)))
    ensures ReadLine(codec, Tail(data + Upto(Line(codec, e), reached))) == []
  {
    var text := codec.encode(e);
    if reached < |text| {
      assert Line(codec, e)[..reached] == text[..reached];
      TailOfText(data, text[..reached]);
      PartOfLine(codec, Tail(data), e, reached);
    } else if reached == |text| {
      assert Line(codec, e)[..reached] == text;
      TailOfText(data, text);
      JoinedLine(codec, Tail(data), e);
    } else {
      assert data + Line(codec, e) == data + text + [NEWLINE];
      ReadAfterLine(codec, data, text);
    }
  }

  lemma {:induction false} UnreadIsComplete(codec: Codec, t: Store)
    requires TailUnread(codec, t)
    ensures FoundComplete(codec, t) == Found(codec, t)
  {
    assert Read(codec, t.data) == ReadComplete(codec, t.data) + ReadLine(codec, Tail(t.data));
    assert ReadComplete(codec, t.data) + [] == ReadComplete(codec, t.data);
  }

  ghost function AfterMoves(codec: Codec, t: Store, moves: seq<Move>): Store
    decreases |moves|
  {
    if moves == [] then t else AfterMoves(codec, Moved(codec, t, moves[0]), moves[1..])
  }

  ghost function Effectives(codec: Codec, t: Store, moves: seq<Move>): seq<Step>
    decreases |moves|
  {
    if moves == [] then []
    else [Effective(codec, t, moves[0])] + Effectives(codec, Moved(codec, t, moves[0]), moves[1..])
  }

  ghost predicate NeverAtNewline(codec: Codec, t: Store, moves: seq<Move>)
    decreases |moves|
  {
    moves == [] ||
    (!StopsAtNewline(codec, t, moves[0]) && NeverAtNewline(codec, Moved(codec, t, moves[0]), moves[1..]))
  }

  /** Whatever appends stop short, the store over the text behaves as the store over entries
      whose appends of torn lines, and of lines that land on torn ones, never happened. */
  lemma {:induction false} TextRunsAreRuns(codec: Codec, t: Store, moves: seq<Move>)
    requires JSON(codec) && TailUnread(codec, t) && NeverAtNewline(codec, t, moves)
    ensures var t' := AfterMoves(codec, t, moves);
      TailUnread(codec, t') && Found(codec, t') == After(Found(codec, t), Effectives(codec, t, moves))
    decreases |moves|
  {
    if moves != [] {
      MoveIsStep(codec, t, moves[0]);
      UnreadIsComplete(codec, t);
      UnreadStays(codec, t, moves[0]);
      var rest := Effectives(codec, Moved(codec, t, moves[0]), moves[1..]);
      assert Effectives(codec, t, moves)[1..] == rest;
      TextRunsAreRuns(codec, Moved(codec, t, moves[0]), moves[1..]);
    }
  }

  /** So a move keeps what a restart finds in agreement with memory exactly if its effective
      step is harmless: for a successful save behind a torn line, if it had nothing to save. */
  lemma {:induction false} MoveAgreesIffHarmless(codec: Codec, t: Store, m: Move)
    requires JSON(codec) && TailUnread(codec, t) && Good(Found(codec, t))
    requires Enabled(Found(codec, t), Effective(codec, t, m))
    ensures Good(Found(codec, Moved(codec, t, m))) <==> Harmless(Found(codec, t), Effective(codec, t, m))
  {
    MoveIsStep(codec, t, m);
    UnreadIsComplete(codec, t);
    StepAgreesIffHarmless(Found(codec, t), Effective(codec, t, m));
  }

  lemma {:induction false} CompleteOfText(codec: Codec, data: string, text: string)
    requires NEWLINE !in text
    ensures ReadComplete(codec, data + text) == ReadComplete(codec, data)
  {
    Text.SplitText(data, text, NEWLINE);
    assert Lines(data + text)[..|Lines(data + text)| - 1] == Lines(data)[..|Lines(data)| - 1];
  }

  lemma {:induction false} SaveMoves(codec: Codec, t: Store, reached: nat)
    ensures Moved(codec, t, Move(SaveStep, reached)) ==
            Store(World(t.world.cal, EMPTY_BATCH), t.snapshot,
                  t.data + Upto(OwnLine(codec, t.world, SaveStep), reached))
  {
  }

  /** A save that stops inside its line. */
  lemma {:induction false} TornSave(codec: Codec, t: Store, reached: nat)
    requires JSON(codec) && Tail(t.data) == "" && t.world.batch != EMPTY_BATCH
    requires 0 < reached < |OwnLine(codec, t.world, SaveStep)| - 1
    ensures var torn := Moved(codec, t, Move(SaveStep, reached));
      && !Succeeds(codec, t, Move(SaveStep, reached)) && !Blank(Tail(torn.data))
      && torn.world == World(t.world.cal, EMPTY_BATCH) && torn.snapshot == t.snapshot
      && ReadComplete(codec, torn.data) == Read(codec, torn.data) == Read(codec, t.data)
  {
    var e := BatchEntry(Written(t.world.batch));
    var part := codec.encode(e)[..reached];
    SaveMoves(codec, t, reached);
    assert Line(codec, e)[..reached] == part;
    ReadAfterAppend(codec, t.data, e, reached);
    TailOfText(t.data, part);
    assert "" + part == part;
    CompleteOfText(codec, t.data, part);
    CompleteFile(codec, t.data);
  }

  /** A save that succeeds behind a torn line. */
  lemma {:induction false} SaveBehindTorn(codec: Codec, t: Store, reached: nat)
    requires JSON(codec) && !Blank(Tail(t.data)) && t.world.batch != EMPTY_BATCH
    requires reached == |OwnLine(codec, t.world, SaveStep)|
    ensures var saved := Moved(codec, t, Move(SaveStep, reached));
      && Succeeds(codec, t, Move(SaveStep, reached))
      && saved.world == World(t.world.cal, EMPTY_BATCH) && saved.snapshot == t.snapshot
      && Read(codec, saved.data) == ReadComplete(codec, t.data) && Tail(saved.data) == ""
  {
    var e := BatchEntry(Written(t.world.batch));
    SaveMoves(codec, t, reached);
    ReadAfterAppend(codec, t.data, e, reached);
    assert t.data + Line(codec, e) == t.data + codec.encode(e) + [NEWLINE];
    ReadAfterLine(codec, t.data, codec.encode(e));
  }

  /** One torn append costs the next successful one too: a save that stops inside its line,
      a page, and a save that succeeds leave a restart with the files as they were.  The save
      after that starts a line again. */
  lemma {:induction false} TornSaveTakesTheNext(codec: Codec, t: Store, reached: nat, page: Page, all: nat)
    requires JSON(codec) && Tail(t.data) == "" && t.world.batch != EMPTY_BATCH
    requires 0 < reached < |OwnLine(codec, t.world, SaveStep)| - 1
    requires var w := ApplyPage(World(t.world.cal, EMPTY_BATCH), page).0;
      w.batch != EMPTY_BATCH && all == |OwnLine(codec, w, SaveStep)|
    ensures var pulled := Moved(codec, Moved(codec, t, Move(SaveStep, reached)), Move(PageStep(page), 0));
      var saved := Moved(codec, pulled, Move(SaveStep, all));
      && !Succeeds(codec, t, Move(SaveStep, reached)) && Succeeds(codec, pulled, Move(SaveStep, all))
      && saved.world == World(ApplyPage(World(t.world.cal, EMPTY_BATCH), page).0.cal, EMPTY_BATCH)
      && Read(codec, saved.data) == Read(codec, t.data) && saved.snapshot == t.snapshot
      && Tail(saved.data) == ""
  {
    var torn := Moved(codec, t, Move(SaveStep, reached));
    TornSave(codec, t, reached);
    PageMoves(codec, torn, page);
    SaveBehindTorn(codec, Moved(codec, torn, Move(PageStep(page), 0)), all);
  }

  lemma {:induction false} PageMoves(codec: Codec, t: Store, page: Page)
    ensures Moved(codec, t, Move(PageStep(page), 0)) == t.(world := ApplyPage(t.world, page).0)
  {
  }

  /** A line that was cut off just before its newline is read, until the next append joins
      it; then both are gone. */
  lemma {:induction false} LineAtNewlineIsLostLater(codec: Codec, t: Store, m: Move, n: Move)
    requires JSON(codec) && StopsAtNewline(codec, t, m) && Own(t.world, m.step) != EMPTY_BATCH
    requires Joins(codec, Moved(codec, t, m), n)
    ensures var t1 := Moved(codec, t, m);
      && Found(codec, t1) == Next(Found(codec, t), m.step)
      && Read(codec, Moved(codec, t1, n).data) == Read(codec, t.data)
  {
    var t1 := Moved(codec, t, m);
    MoveIsStep(codec, t, m);
    CutAtNewline(codec, t.data, BatchEntry(Written(Own(t.world, m.step))), m.reached);
    ReadAfterAppend(codec, t1.data, BatchEntry(Written(Own(t1.world, n.step))), n.reached);
  }

  lemma {:induction false} CutAtNewline(codec: Codec, data: string, e: Entry, reached: nat)
    requires JSON(codec) && Blank(Tail(data)) && reached == |codec.encode(e)|
    ensures ReadComplete(codec, data + Upto(Line(codec, e), reached)) == Read(codec, data)
  {
    assert Line(codec, e)[..reached] == codec.encode(e);
    CompleteOfText(codec, data, codec.encode(e));
    assert Read(codec, data) == ReadComplete(codec, data) + ReadLine(codec, Tail(data));
    assert ReadComplete(codec, data) + [] == ReadComplete(codec, data);
  }
}
