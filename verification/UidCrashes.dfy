/** The machine of UID assignment when also the main file may fail to be written and the
    process goes on: which crashes make a later message get a UID that was already shown
    under the same UIDVALIDITY, and which cannot. */
module UidCrashes {
  import opened Ids
  import opened Mail
  import opened MailMerge
  import opened Uids

  /** Under no UIDVALIDITY has a UID been shown for two messages. */
  ghost predicate NeverReusedUnderOne(shown: set<Shown>) {
    forall a, b :: a in shown && b in shown && a.validity == b.validity != 0 && a.uid == b.uid ==>
      a.serverID == b.serverID
  }

  /** The next UID an assignment would give. */
  function NextFree(meta: Meta, uids: seq<UidEntry>): nat { StartMeta(meta, uids, 0).nextUID }

  /** Every UID shown under this UIDVALIDITY is behind the next free one. */
  ghost predicate Behind(shown: set<Shown>, meta: Meta, uids: seq<UidEntry>) {
    forall x :: x in shown && x.validity == meta.uidValidity != 0 ==> x.uid < NextFree(meta, uids)
  }

  /** The list gives no shown UID to another message. */
  ghost predicate Fits(shown: set<Shown>, validity: nat, uids: seq<UidEntry>) {
    forall e, x :: e in uids && x in shown && x.validity == validity != 0 && x.uid == e.uid ==> x.serverID == e.serverID
  }

  /** What holds while nothing has been lost, whatever was written. */
  ghost predicate Sane(s: Machine) {
    && NeverReusedUnderOne(s.shown)
    && Unique(s.mem.uids) && Unique(s.files.uids) && ShownNow(s.mem) <= s.shown
    && Behind(s.shown, s.mem.meta, s.mem.uids)
    && Fits(s.shown, s.mem.meta.uidValidity, s.mem.uids) && Fits(s.shown, s.mem.meta.uidValidity, s.files.uids)
    && (forall e :: e in s.files.uids ==> e.uid < NextFree(s.mem.meta, s.mem.uids))
    && s.files.main.uidValidity in {0, s.mem.meta.uidValidity}
    && (s.mem.meta.uidValidity == 0 ==> s.mem.uids == s.files.uids)
    && (s.mem.uids == s.files.uids || s.mem.meta.nextUID == NextFree(s.mem.meta, s.mem.uids))
  }

  /** The files know how far the UIDs shown under their UIDVALIDITY have come. */
  ghost predicate Covered(s: Machine) { Behind(s.shown, s.files.main, s.files.uids) }

  /** A fresh UIDVALIDITY is the clock, and differs from those shown before. */
  ghost predicate ClockMovesOn(s: Machine, now: nat) {
    s.mem.meta.uidValidity == 0 ==> now != 0 && forall x :: x in s.shown ==> x.validity != now
  }

  /** Any step at all, with distinct messages, a clock that moves on, and a crash that loses
      the memory of the process only when the files cover what was shown. */
  ghost predicate Fine(s: Machine, step: Step) {
    match step
    case AssignStep(items, now, fate) =>
      Distinct(IDs(items)) && ClockMovesOn(s, now) && (fate == CrashBeforeWrites ==> Covered(s))
    case CrashStep => Covered(s)
    case _ => true
  }

  ghost predicate FineRun(s: Machine, steps: seq<Step>)
    decreases |steps|
  {
    steps == [] || (FineRun(s, steps[..|steps| - 1]) && Fine(After(s, steps[..|steps| - 1]), steps[|steps| - 1]))
  }

  // ---------- showing a list ----------

  lemma {:induction false} ShownEntry(m: Mem, x: Shown)
    requires x in ShownNow(m)
    ensures x.validity == m.meta.uidValidity && UidEntry(x.serverID, x.uid) in m.uids
  {
  }

  lemma {:induction false} UniqueUid(uids: seq<UidEntry>, e: UidEntry, f: UidEntry)
    requires Unique(uids) && e in uids && f in uids && e.uid == f.uid
    ensures e == f
  {
    var i :| 0 <= i < |uids| && uids[i] == e;
    var j :| 0 <= j < |uids| && uids[j] == f;
  }

  /** A list that fits what was shown can be shown too. */
  lemma {:induction false} ShowFitting(shown: set<Shown>, m: Mem)
    requires NeverReusedUnderOne(shown) && Unique(m.uids) && Fits(shown, m.meta.uidValidity, m.uids)
    ensures NeverReusedUnderOne(shown + ShownNow(m))
    ensures Fits(shown + ShownNow(m), m.meta.uidValidity, m.uids)
  {
    forall a, b | a in ShownNow(m) && b in shown + ShownNow(m) && a.validity == b.validity != 0 && a.uid == b.uid
      ensures a.serverID == b.serverID
    {
      ShownEntry(m, a);
      if b in ShownNow(m) {
        ShownEntry(m, b);
        UniqueUid(m.uids, UidEntry(a.serverID, a.uid), UidEntry(b.serverID, b.uid));
      } else {
        assert UidEntry(a.serverID, a.uid) in m.uids;
      }
    }
    forall e, x | e in m.uids && x in ShownNow(m) && x.uid == e.uid ensures x.serverID == e.serverID {
      ShownEntry(m, x);
      UniqueUid(m.uids, e, UidEntry(x.serverID, x.uid));
    }
  }

  /** An older list goes on fitting when the list it comes from is shown. */
  lemma {:induction false} OlderListFits(shown: set<Shown>, m: Mem, older: seq<UidEntry>)
    requires Fits(shown, m.meta.uidValidity, older)
    requires forall e, f :: e in older && f in m.uids && e.uid == f.uid ==> e.serverID == f.serverID
    ensures Fits(shown + ShownNow(m), m.meta.uidValidity, older)
  {
    forall e, x | e in older && x in ShownNow(m) && x.uid == e.uid ensures x.serverID == e.serverID {
      ShownEntry(m, x);
      assert UidEntry(x.serverID, x.uid) in m.uids;
    }
  }

  lemma {:induction false} NextFreeIsAbove(meta: Meta, uids: seq<UidEntry>)
    ensures forall e :: e in uids ==> e.uid < NextFree(meta, uids)
    ensures meta.nextUID <= NextFree(meta, uids)
    ensures forall now :: StartMeta(meta, uids, now).nextUID == NextFree(meta, uids)
  {
  }

  lemma {:induction false} NextFreeIsTheCounter(meta: Meta, uids: seq<UidEntry>)
    requires meta.nextUID > 0 && forall e :: e in uids ==> e.uid < meta.nextUID
    ensures NextFree(meta, uids) == meta.nextUID
    decreases |uids|
  {
    if uids != [] {
      assert uids[|uids| - 1] in uids;
      forall e | e in uids[..|uids| - 1] ensures e in uids {}
      NextFreeIsTheCounter(meta, uids[..|uids| - 1]);
    }
  }

  // ---------- steps that assign ----------

  /** The list and the counter after an assignment. */
  lemma {:induction false} AfterAssigning(mem: Mem, items: seq<EmailItem>, now: nat)
    requires Unique(mem.uids) && Distinct(IDs(items))
    ensures var r := Assign(mem.meta, mem.uids, items, now);
      && Unique(r.uids) && 0 < NextFree(mem.meta, mem.uids) <= r.meta.nextUID
      && (forall e :: e in r.uids ==>
          e.uid < r.meta.nextUID && (e in mem.uids || e.uid >= NextFree(mem.meta, mem.uids)))
      && r.meta.uidValidity == if mem.meta.uidValidity == 0 then now else mem.meta.uidValidity
  {
    AssignLaws(mem.meta, mem.uids, items, now);
  }

  lemma {:induction false} AssignedListsFit(s: Machine, items: seq<EmailItem>, now: nat)
    requires Sane(s) && Distinct(IDs(items)) && ClockMovesOn(s, now)
    ensures var r := Assign(s.mem.meta, s.mem.uids, items, now);
      && r.meta.uidValidity != 0 && s.files.main.uidValidity in {0, r.meta.uidValidity}
      && Fits(s.shown, r.meta.uidValidity, r.uids) && Fits(s.shown, r.meta.uidValidity, s.files.uids)
      && (forall x :: x in s.shown && x.validity == r.meta.uidValidity ==> x.uid < r.meta.nextUID)
      && (forall e, f :: e in s.files.uids && f in r.uids && e.uid == f.uid ==> e.serverID == f.serverID)
  {
    AfterAssigning(s.mem, items, now);
    var r := Assign(s.mem.meta, s.mem.uids, items, now);
    forall e, f | e in s.files.uids && f in r.uids && e.uid == f.uid ensures e.serverID == f.serverID {
      if s.mem.meta.uidValidity == 0 {
        UniqueUid(s.mem.uids, e, f);
      } else {
        assert Shown(s.mem.meta.uidValidity, f.uid, f.serverID) in ShownNow(s.mem);
      }
    }
  }

  /** The process goes on with the new list, whatever reached the files. */
  lemma {:induction false} GoingOnKeepsSane(s: Machine, items: seq<EmailItem>, now: nat, files: Files)
    requires Sane(s) && Distinct(IDs(items)) && ClockMovesOn(s, now)
    requires var r := Assign(s.mem.meta, s.mem.uids, items, now);
      files.main in {r.meta, s.files.main} && files.uids in [r.uids, s.files.uids]
    ensures var r := Assign(s.mem.meta, s.mem.uids, items, now);
      Sane(Become(Mem(r.items, r.uids, r.meta), files, s.shown))
  {
    var r := Assign(s.mem.meta, s.mem.uids, items, now);
    var mem := Mem(r.items, r.uids, r.meta);
    AfterAssigning(s.mem, items, now);
    AssignedListsFit(s, items, now);
    ShowFitting(s.shown, mem);
    OlderListFits(s.shown, mem, s.files.uids);
    NextFreeIsAbove(r.meta, r.uids);
    NextFreeIsAbove(s.mem.meta, s.mem.uids);
    NextFreeIsTheCounter(r.meta, r.uids);
    forall x | x in ShownNow(mem) ensures x.uid < r.meta.nextUID { ShownEntry(mem, x); }
  }

  /** The process starts again from the files. */
  lemma {:induction false} ReloadKeepsSane(s: Machine, main: Meta)
    requires Sane(s) && main.uidValidity in {0, s.mem.meta.uidValidity}
    requires Behind(s.shown, main, s.files.uids)
    ensures Sane(Become(Loaded(s.files.(main := main)), s.files.(main := main), s.shown))
  {
    var mem := Loaded(s.files.(main := main));
    assert Fits(s.shown, main.uidValidity, s.files.uids);
    ShowFitting(s.shown, mem);
    NextFreeIsAbove(main, s.files.uids);
    forall x | x in ShownNow(mem) ensures x.uid < NextFree(main, s.files.uids) { ShownEntry(mem, x); }
  }

  /** The crash came between the writes: the new counter is there, the new list is not. */
  lemma {:induction false} CrashBetweenKeepsSane(s: Machine, items: seq<EmailItem>, now: nat)
    requires Sane(s) && Distinct(IDs(items)) && ClockMovesOn(s, now)
    ensures Sane(Next(s, AssignStep(items, now, CrashBetweenWrites)))
  {
    var r := Assign(s.mem.meta, s.mem.uids, items, now);
    var files := s.files.(main := r.meta);
    var mem := Loaded(files);
    AfterAssigning(s.mem, items, now);
    AssignedListsFit(s, items, now);
    ShowFitting(s.shown, mem);
    NextFreeIsAbove(r.meta, s.files.uids);
    forall x | x in ShownNow(mem) ensures x.uid < NextFree(r.meta, s.files.uids) { ShownEntry(mem, x); }
  }

  /** Steps that leave the counter alone. */
  lemma {:induction false} SavingKeepsSane(s: Machine, items: seq<EmailItem>, files: Files)
    requires Sane(s) && files.main in {s.mem.meta, s.files.main} && files.uids in [s.mem.uids, s.files.uids]
    ensures Sane(Become(s.mem.(items := items), files, s.shown))
  {
    var mem := s.mem.(items := items);
    assert ShownNow(mem) == ShownNow(s.mem);
    assert s.shown + ShownNow(mem) == s.shown;
    NextFreeIsAbove(s.mem.meta, s.mem.uids);
  }

  lemma {:induction false} StepKeepsSane(s: Machine, step: Step)
    requires Sane(s) && Fine(s, step)
    ensures Sane(Next(s, step))
  {
    match step
    case AssignStep(items, now, fate) =>
      var r := Assign(s.mem.meta, s.mem.uids, items, now);
      match fate {
        case BothWritten => GoingOnKeepsSane(s, items, now, Files(r.meta, r.items, r.uids));
        case ShardNotWritten => GoingOnKeepsSane(s, items, now, s.files.(main := r.meta));
        case MainNotWritten => GoingOnKeepsSane(s, items, now, s.files);
        case CrashBeforeWrites => ReloadKeepsSane(s, s.files.main);
        case CrashBetweenWrites => CrashBetweenKeepsSane(s, items, now);
      }
    case RemoveStep(ids, written) =>
      var kept := Kept(s.mem.items, ids);
      SavingKeepsSane(s, kept, if written then s.files.(items := kept, uids := s.mem.uids) else s.files);
    case SaveShardStep =>
      SavingKeepsSane(s, s.mem.items, s.files.(items := s.mem.items, uids := s.mem.uids));
      assert s.shown + ShownNow(s.mem) == s.shown;
    case SaveMainStep =>
      SavingKeepsSane(s, s.mem.items, s.files.(main := s.mem.meta));
      assert s.shown + ShownNow(s.mem) == s.shown;
    case CrashStep => ReloadKeepsSane(s, s.files.main);
  }

  /** Whatever main files could not be written: from a sane state, no run in which every
      crash finds the files covering what was shown ever reuses a UID under its UIDVALIDITY. */
  lemma {:induction false} FineRunsNeverReuse(s: Machine, steps: seq<Step>)
    requires Sane(s) && FineRun(s, steps)
    ensures Sane(After(s, steps)) && NeverReusedUnderOne(After(s, steps).shown)
    decreases |steps|
  {
    if steps != [] {
      FineRunsNeverReuse(s, steps[..|steps| - 1]);
      StepKeepsSane(After(s, steps[..|steps| - 1]), steps[|steps| - 1]);
    }
  }

  /** In particular every run of a new folder, where nothing has been shown at first. */
  lemma {:induction false} FreshFoldersAreSane()
    ensures Sane(FRESH)
  {
  }

  /** Whether the main file holds the counter of the process after the step. */
  predicate WritesMain(step: Step) {
    step == SaveMainStep || (step.AssignStep? && step.fate in {BothWritten, ShardNotWritten, CrashBetweenWrites})
  }

  /** A failed write is made good by the next write of the main file, of any kind. */
  lemma {:induction false} WritingMainCovers(s: Machine, step: Step)
    requires Sane(s) && Fine(s, step) && WritesMain(step)
    ensures Covered(Next(s, step))
  {
    StepKeepsSane(s, step);
    var t := Next(s, step);
    NextFreeIsAbove(t.files.main, t.files.uids);
  }

  // ---------- a crash that the files do not cover ----------

  /** Messages the folder has never seen. */
  function Strangers(n: nat, k: nat): seq<EmailItem> {
    if k == 0 then [] else Strangers(n, k - 1) + [ZERO_ITEM.(serverID := Long(n + k - 1))]
  }

  lemma {:induction false} StrangersAreDistinct(n: nat, k: nat)
    ensures |IDs(Strangers(n, k))| == k && forall i :: 0 <= i < k ==> IDs(Strangers(n, k))[i] == Long(n + i)
    ensures Distinct(IDs(Strangers(n, k)))
  {
    if k > 0 {
      StrangersAreDistinct(n, k - 1);
      var items := Strangers(n, k);
      assert items[..|items| - 1] == Strangers(n, k - 1);
    }
    var ids := IDs(Strangers(n, k));
    forall i, j | 0 <= i < j < k ensures ids[i] != ids[j] { assert |ids[i]| < |ids[j]|; }
  }

  /** They get the next free UIDs one after the other. */
  lemma {:induction false} StrangersGetTheNext(known: map<string, nat>, next: nat, n: nat, k: nat)
    requires forall id :: id in known ==> |id| < n
    ensures var a := Allocate(known, next, Strangers(n, k));
      && a.next == next + k && (forall id :: id in a.known ==> |id| < n + k)
      && (k > 0 ==> Long(n + k - 1) in a.known && a.known[Long(n + k - 1)] == next + k - 1)
  {
    if k > 0 {
      StrangersGetTheNext(known, next, n, k - 1);
      var items := Strangers(n, k);
      assert items[..|items| - 1] == Strangers(n, k - 1);
    }
  }

  lemma {:induction false} StrangerIsListed(meta: Meta, uids: seq<UidEntry>, n: nat, k: nat, now: nat)
    requires Unique(uids) && k > 0 && forall e :: e in uids ==> |e.serverID| < n
    ensures UidEntry(Long(n + k - 1), NextFree(meta, uids) + k - 1) in Assign(meta, uids, Strangers(n, k), now).uids
  {
    LookupHolds(uids);
    forall id | id in Lookup(uids) ensures |id| < n { assert UidEntry(id, Lookup(uids)[id]) in uids; }
    StrangersGetTheNext(Lookup(uids), NextFree(meta, uids), n, k);
    StrangersAreDistinct(n, k);
    NextFreeIsAbove(meta, uids);
    assert IDs(Strangers(n, k))[k - 1] in IDs(Strangers(n, k));
    EntryOf(meta, uids, Strangers(n, k), now, UidEntry(Long(n + k - 1), NextFree(meta, uids) + k - 1));
  }

  /** So many arrivals that the last of them gets a given UID. */
  lemma {:induction false} StrangerWithUid(meta: Meta, uids: seq<UidEntry>, uid: nat, now: nat, other: string)
    returns (arrivals: seq<EmailItem>, id: string)
    requires Unique(uids) && uid >= NextFree(meta, uids)
    ensures Distinct(IDs(arrivals)) && id != other && UidEntry(id, uid) in Assign(meta, uids, arrivals, now).uids
  {
    var k := uid - NextFree(meta, uids) + 1;
    var names := set e | e in uids :: e.serverID;
    var n := LongerThanAll(names + {other});
    forall e | e in uids ensures |e.serverID| < n { assert e.serverID in names; }
    arrivals, id := Strangers(n, k), Long(n + k - 1);
    StrangersAreDistinct(n, k);
    StrangerIsListed(meta, uids, n, k, now);
    assert NextFree(meta, uids) + k - 1 == uid;
    assert |other| < |id|;
  }

  lemma {:induction false} TwoMessages(shown: set<Shown>, x: Shown, y: Shown)
    requires x in shown && y in shown && x.validity == y.validity != 0 && x.uid == y.uid && x.serverID != y.serverID
    ensures !NeverReusedUnderOne(shown)
  {
  }

  lemma {:induction false} NextIsReload(s: Machine)
    ensures Next(s, CrashStep) == Machine(Loaded(s.files), s.files, s.shown + ShownNow(Loaded(s.files)))
  {
  }

  lemma {:induction false} ListIsShown(t: Machine, arrivals: seq<EmailItem>, now: nat, e: UidEntry)
    requires t.mem.meta.uidValidity != 0 && e in Assign(t.mem.meta, t.mem.uids, arrivals, now).uids
    ensures var shown := Next(t, AssignStep(arrivals, now, BothWritten)).shown;
      t.shown <= shown && Shown(t.mem.meta.uidValidity, e.uid, e.serverID) in shown
  {
    var r := Assign(t.mem.meta, t.mem.uids, arrivals, now);
    assert Shown(t.mem.meta.uidValidity, e.uid, e.serverID) in ShownNow(Mem(r.items, r.uids, r.meta));
  }

  lemma {:induction false} ArrivalReuses(t: Machine, x: Shown, now: nat) returns (arrivals: seq<EmailItem>)
    requires Unique(t.mem.uids) && x in t.shown
    requires x.validity == t.mem.meta.uidValidity != 0 && x.uid >= NextFree(t.mem.meta, t.mem.uids)
    ensures var step := AssignStep(arrivals, now, BothWritten);
      Fine(t, step) && !NeverReusedUnderOne(Next(t, step).shown)
  {
    var id;
    arrivals, id := StrangerWithUid(t.mem.meta, t.mem.uids, x.uid, now, x.serverID);
    ListIsShown(t, arrivals, now, UidEntry(id, x.uid));
    TwoMessages(Next(t, AssignStep(arrivals, now, BothWritten)).shown, x, Shown(x.validity, x.uid, id));
  }

  /** The next arrivals after such a crash include one that gets a UID which was shown for
      another message, under the same UIDVALIDITY. */
  lemma {:induction false} UncoveredCrashReuses(s: Machine, now: nat) returns (arrivals: seq<EmailItem>)
    requires Unique(s.files.uids) && !Covered(s)
    ensures var t, step := Next(s, CrashStep), AssignStep(arrivals, now, BothWritten);
      Fine(t, step) && !NeverReusedUnderOne(Next(t, step).shown)
  {
    var x :| x in s.shown && x.validity == s.files.main.uidValidity != 0
             && x.uid >= NextFree(s.files.main, s.files.uids);
    NextIsReload(s);
    arrivals := ArrivalReuses(Next(s, CrashStep), x, now);
  }

  lemma {:induction false} OneStepRun(s: Machine, step: Step)
    requires Fine(s, step)
    ensures FineRun(s, [step]) && After(s, [step]) == Next(s, step)
  {
    assert [step][..0] == [];
    assert After(s, []) == s && FineRun(s, []);
  }

  /** A crash is followed by reuse in some run exactly when the files do not cover what was
      shown; the condition looks at the state before the crash only. */
  lemma {:induction false} CrashIsHarmlessIffCovered(s: Machine)
    requires Sane(s)
    ensures Covered(s) <==>
            forall steps :: FineRun(Next(s, CrashStep), steps) ==>
              NeverReusedUnderOne(After(Next(s, CrashStep), steps).shown)
  {
    var t := Next(s, CrashStep);
    if Covered(s) {
      StepKeepsSane(s, CrashStep);
      forall steps | FineRun(t, steps)
        ensures NeverReusedUnderOne(After(t, steps).shown)
      {
        FineRunsNeverReuse(t, steps);
      }
    } else {
      var arrivals := UncoveredCrashReuses(s, 0);
      var step := AssignStep(arrivals, 0, BothWritten);
      OneStepRun(t, step);
    }
  }

  // ---------- UIDVALIDITY ----------

  /** Once the main file holds a UIDVALIDITY, no step changes it. */
  lemma {:induction false} WrittenValidityStays(s: Machine, step: Step)
    requires Sane(s) && s.files.main.uidValidity != 0
    ensures Next(s, step).mem.meta.uidValidity == Next(s, step).files.main.uidValidity == s.files.main.uidValidity
  {
  }

  /** A folder nothing has been shown of. */
  predicate NewFolder(s: Machine) {
    s.mem == Loaded(s.files) && s.mem.uids == [] && s.mem.meta == NO_META && s.shown == {}
  }

  /** When the very first main write fails and the process dies, the UIDVALIDITY is lost with
      the counter.  The next arrival gets UID 1 again; that is a reuse under one UIDVALIDITY
      exactly if the clock has not moved on. */
  lemma {:induction false} FirstMainWriteLost(s: Machine, x: EmailItem, y: EmailItem, now1: nat, now2: nat)
    requires NewFolder(s) && x.serverID != y.serverID && now1 != 0 && now2 != 0
    ensures var died := Next(Next(s, AssignStep([x], now1, MainNotWritten)), CrashStep);
      var t := Next(died, AssignStep([y], now2, BothWritten));
      && t.shown == {Shown(now1, 1, x.serverID), Shown(now2, 1, y.serverID)}
      && (NeverReusedUnderOne(t.shown) <==> now1 != now2)
  {
    LostWithoutMain(s, x, now1);
    ShownNext(Machine(s.mem, s.files, {Shown(now1, 1, x.serverID)}), y, now2);
    TwoShown(Shown(now1, 1, x.serverID), Shown(now2, 1, y.serverID));
  }

  lemma {:induction false} TwoShown(a: Shown, b: Shown)
    requires a.serverID != b.serverID && a.uid == b.uid && a.validity != 0 && b.validity != 0
    ensures NeverReusedUnderOne({a} + {b}) <==> a.validity != b.validity
  {
    assert a in {a} + {b} && b in {a} + {b};
  }

  lemma {:induction false} LostWithoutMain(s: Machine, x: EmailItem, now: nat)
    requires NewFolder(s)
    ensures Next(Next(s, AssignStep([x], now, MainNotWritten)), CrashStep) ==
            Machine(s.mem, s.files, {Shown(now, 1, x.serverID)})
  {
    var s1 := Next(s, AssignStep([x], now, MainNotWritten));
    ShownNext(s, x, now);
    NextIsReload(s1);
    FilesStay(s, [x], now);
    assert ShownNow(Loaded(s.files)) == {};
  }

  lemma {:induction false} FilesStay(s: Machine, items: seq<EmailItem>, now: nat)
    ensures Next(s, AssignStep(items, now, MainNotWritten)).files == s.files
  {
  }

  lemma {:induction false} ShownNext(s: Machine, x: EmailItem, now: nat)
    requires s.mem.uids == [] && s.mem.meta == NO_META
    ensures forall fate :: fate in {MainNotWritten, BothWritten} ==>
              Next(s, AssignStep([x], now, fate)).shown == s.shown + {Shown(now, 1, x.serverID)}
  {
    var r := Assign(s.mem.meta, s.mem.uids, [x], now);
    AssignOne(s.mem.meta, s.mem.uids, x, now);
    OneEntryShown(Mem(r.items, r.uids, r.meta), UidEntry(x.serverID, 1));
  }

  lemma {:induction false} OneEntryShown(m: Mem, e: UidEntry)
    requires m.uids == [e]
    ensures ShownNow(m) == {Shown(m.meta.uidValidity, e.uid, e.serverID)}
  {
    assert e in m.uids;
  }
}
