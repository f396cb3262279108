/** The calendar cache as a value: visible events, aliases of suppressed remote
    identities, and the batch of changes still to be appended to the event log. */
module Calendar {
  import opened Ids

  /** One EAS event.  Times are instants; the fields that take no part in any
      decision of the engine are gathered in `details`. */
  datatype Event = Event(
    serverID: string,
    uid: string,
    subject: string,
    location: string,
    body: string,
    start: int,
    end: int,
    allDay: bool,
    organizerEmail: string,
    details: Details)

  datatype Details = Details(
    bodyType: int,
    busyStatus: int,
    sensitivity: int,
    meetingStatus: int,
    reminder: int,
    organizerName: string,
    attendees: seq<string>,
    recurrence: seq<int>,
    exceptions: seq<string>,
    timeZone: seq<int>,
    timeZoneRaw: string)

  datatype Alias = Alias(canonicalID: string, uid: string, replay: bool)

  datatype Cal = Cal(events: map<string, Event>, aliases: map<string, Alias>)

  /** calendarMutations: the last change recorded for each identifier. */
  datatype Batch = Batch(
    upserts: map<string, Event>,
    deletes: set<string>,
    aliasUpserts: map<string, Alias>,
    aliasDeletes: set<string>)

  const EMPTY_BATCH := Batch(map[], {}, map[], {})

  datatype World = World(cal: Cal, batch: Batch)

  datatype Page = Page(added: seq<Event>, changed: seq<Event>, deleted: seq<string>, moreAvailable: bool)

  const MAX_STABLE_ALIASES := 8

  // ---------- comparisons ----------

  function Unnamed(ev: Event): Event { ev.(serverID := "") }

  /** What is left of an event when both remote identity fields are ignored. */
  function Content(ev: Event): Event { ev.(serverID := "", uid := "") }

  predicate EqualExceptServerID(a: Event, b: Event) { Unnamed(a) == Unnamed(b) }

  predicate SameContent(a: Event, b: Event) { Content(a) == Content(b) }

  predicate Equivalent(a: Event, b: Event, ignoreUID: bool) {
    if ignoreUID then SameContent(a, b) else EqualExceptServerID(a, b)
  }

  /** The visible events an unindexed scan would report as equivalent to `ev`. */
  ghost function Matches(events: map<string, Event>, ev: Event, ignoreUID: bool): set<string> {
    set id | id in events && Equivalent(events[id], ev, ignoreUID)
  }

  ghost function Find(events: map<string, Event>, ev: Event, ignoreUID: bool): Option<string> {
    LeastOf(Matches(events, ev, ignoreUID))
  }

  // ---------- the four recorded updates ----------

  function Upserted(b: Batch, ev: Event): Batch {
    b.(upserts := b.upserts[ev.serverID := ev], deletes := b.deletes - {ev.serverID})
  }

  function Deleted(b: Batch, ids: set<string>): Batch {
    b.(upserts := b.upserts - ids, deletes := b.deletes + ids)
  }

  function Aliased(b: Batch, m: map<string, Alias>): Batch {
    b.(aliasUpserts := b.aliasUpserts + m, aliasDeletes := b.aliasDeletes - m.Keys)
  }

  function AliasesDeleted(b: Batch, ids: set<string>): Batch {
    b.(aliasUpserts := b.aliasUpserts - ids, aliasDeletes := b.aliasDeletes + ids)
  }

  /** Store an event and record an upsert. */
  function PutEvent(w: World, ev: Event): World {
    World(w.cal.(events := w.cal.events[ev.serverID := ev]), Upserted(w.batch, ev))
  }

  /** Remove events and record their deletes. */
  function DropEvents(w: World, ids: set<string>): World {
    World(w.cal.(events := w.cal.events - ids), Deleted(w.batch, ids))
  }

  function DropEvent(w: World, id: string): World { DropEvents(w, {id}) }

  /** Store aliases and record them. */
  function PutAliases(w: World, m: map<string, Alias>): World {
    World(w.cal.(aliases := w.cal.aliases + m), Aliased(w.batch, m))
  }

  /** Remove aliases and record their removal. */
  function DropAliases(w: World, ids: set<string>): World {
    World(w.cal.(aliases := w.cal.aliases - ids), AliasesDeleted(w.batch, ids))
  }

  // ---------- engine operations ----------

  /** canonicalCalendarEvent: the visible event a remote identity stands for. */
  function Canonical(c: Cal, id: string): Option<string> {
    if id in c.events then Some(id)
    else if id in c.aliases && c.aliases[id].canonicalID in c.events then Some(c.aliases[id].canonicalID)
    else None
  }

  /** The visible event that absorbs an Add with an unknown ServerID, if any. */
  ghost function FoldTarget(events: map<string, Event>, ev: Event, replay: bool): Option<string> {
    var byUID := if ev.uid != "" then Find(events, ev, false) else None;
    if byUID.Some? then byUID else if replay then Find(events, ev, true) else None
  }

  ghost predicate KeepsAlias(c: Cal, ev: Event) {
    && ev.serverID in c.aliases
    && c.aliases[ev.serverID].canonicalID in c.events
    && SameContent(c.events[c.aliases[ev.serverID].canonicalID], ev)
  }

  ghost function Detach(w: World, id: string): World {
    if id in w.cal.aliases then DropAliases(w, {id}) else w
  }

  ghost function AddEvent(w: World, ev: Event, replay: bool): (World, bool) {
    var id := ev.serverID;
    if id == "" then (w, false)
    else if id in w.cal.events then
      if w.cal.events[id] == ev then (w, false) else (PutEvent(w, ev), true)
    else if KeepsAlias(w.cal, ev) then
      var a := w.cal.aliases[id];
      if a.uid != ev.uid || (replay && !a.replay)
      then (PutAliases(w, map[id := Alias(a.canonicalID, ev.uid, a.replay || replay)]), false)
      else (w, false)
    else
      var w' := Detach(w, id);
      match FoldTarget(w.cal.events, ev, replay)
      case Some(target) => (PutAliases(w', map[id := Alias(target, ev.uid, replay)]), false)
      case None => (PutEvent(w', ev), true)
  }

  ghost function ChangeEvent(w: World, ev: Event): (World, bool) {
    var id := ev.serverID;
    if id == "" then (w, false)
    else if id in w.cal.events then
      if w.cal.events[id] == ev then (w, false) else (PutEvent(w, ev), true)
    else if KeepsAlias(w.cal, ev) then
      var a := w.cal.aliases[id];
      if a.uid != ev.uid then (PutAliases(w, map[id := a.(uid := ev.uid)]), false) else (w, false)
    else (PutEvent(Detach(w, id), ev), true)
  }

  function Members(c: Cal, id: string): set<string> {
    set a | a in c.aliases && c.aliases[a].canonicalID == id
  }

  function Retargeted(c: Cal, ids: set<string>, target: string): map<string, Alias> {
    map a | a in ids && a in c.aliases :: c.aliases[a].(canonicalID := target)
  }

  ghost function Promote(w: World, id: string, heir: string): World
    requires id in w.cal.events && heir in w.cal.aliases
  {
    var promoted := w.cal.events[id].(serverID := heir, uid := w.cal.aliases[heir].uid);
    PutAliases(PutEvent(DropEvent(DropAliases(w, {heir}), id), promoted),
               Retargeted(w.cal, Members(w.cal, id) - {heir}, heir))
  }

  ghost function DeleteEvent(w: World, id: string): (World, bool) {
    if id in w.cal.aliases then (DropAliases(w, {id}), false)
    else if id !in w.cal.events then (w, false)
    else if Members(w.cal, id) == {} then (DropEvent(w, id), true)
    else (Promote(w, id, Least(Members(w.cal, id))), true)
  }

  // ---------- replay pages ----------

  ghost function PageTarget(c: Cal, ev: Event): Option<string> {
    var known := Canonical(c, ev.serverID);
    if known.Some? then known else Find(c.events, ev, true)
  }

  /** A record that repeats a cached meeting, under a known or an unknown identity. */
  ghost predicate Repeats(c: Cal, ev: Event) {
    match Canonical(c, ev.serverID)
    case Some(id) => SameContent(c.events[id], ev)
    case None => Find(c.events, ev, true).Some?
  }

  /** calendarPageIsDuplicateReplay: a page of at least two Adds and nothing else, with
      more to come, every one of which repeats a cached meeting. */
  ghost predicate IsDuplicateReplay(page: Page, c: Cal) {
    && page.moreAvailable && |page.added| >= 2 && page.changed == [] && page.deleted == []
    && forall ev :: ev in page.added ==> Repeats(c, ev)
  }

  /** The page's identities that stand for `target`, which pruning keeps. */
  ghost function KeptIDs(c: Cal, added: seq<Event>, target: string): set<string> {
    set ev | ev in added && PageTarget(c, ev) == Some(target) :: ev.serverID
  }

  ghost predicate Touched(c: Cal, added: seq<Event>, target: string) {
    exists ev :: ev in added && PageTarget(c, ev) == Some(target)
  }

  ghost function StaleAliases(c: Cal, added: seq<Event>, target: string, replay: bool): set<string> {
    set a | a in Members(c, target) && a !in KeptIDs(c, added, target) && c.aliases[a].replay == replay
  }

  function Above(s: set<string>, x: string): set<string> { set y | y in s && Less(x, y) }

  /** All but the `n` greatest elements. */
  function AllButTop(s: set<string>, n: nat): set<string> {
    set x | x in s && |Above(s, x)| >= n
  }

  ghost function PrunedOf(c: Cal, added: seq<Event>, target: string): set<string> {
    StaleAliases(c, added, target, true)
    + AllButTop(StaleAliases(c, added, target, false), MAX_STABLE_ALIASES)
  }

  ghost function Pruned(c: Cal, added: seq<Event>): set<string> {
    set a | a in c.aliases && Touched(c, added, c.aliases[a].canonicalID)
            && a in PrunedOf(c, added, c.aliases[a].canonicalID)
  }

  ghost function PruneAliases(w: World, added: seq<Event>): World {
    DropAliases(w, Pruned(w.cal, added))
  }

  ghost function AddAll(w: World, evs: seq<Event>, replay: bool): (World, bool)
    decreases |evs|
  {
    if evs == [] then (w, false)
    else
      var (w1, p1) := AddAll(w, evs[..|evs| - 1], replay);
      var (w2, p2) := AddEvent(w1, evs[|evs| - 1], replay);
      (w2, p1 || p2)
  }

  ghost function ChangeAll(w: World, evs: seq<Event>): (World, bool)
    decreases |evs|
  {
    if evs == [] then (w, false)
    else
      var (w1, p1) := ChangeAll(w, evs[..|evs| - 1]);
      var (w2, p2) := ChangeEvent(w1, evs[|evs| - 1]);
      (w2, p1 || p2)
  }

  ghost function DeleteAll(w: World, ids: seq<string>): (World, bool)
    decreases |ids|
  {
    if ids == [] then (w, false)
    else
      var (w1, p1) := DeleteAll(w, ids[..|ids| - 1]);
      var (w2, p2) := DeleteEvent(w1, ids[|ids| - 1]);
      (w2, p1 || p2)
  }

  /** One server page: the loop body of syncCalendarOnce between lock and save. */
  ghost function ApplyPage(w: World, page: Page): (World, bool) {
    var replay := IsDuplicateReplay(page, w.cal);
    var w0 := if replay then PruneAliases(w, page.added) else w;
    var (w1, p1) := AddAll(w0, page.added, replay);
    var (w2, p2) := ChangeAll(w1, page.changed);
    var (w3, p3) := DeleteAll(w2, page.deleted);
    (w3, p1 || p2 || p3)
  }

  // ---------- startup repair and local writes ----------

  /** The identifier that represents an event's class of exact duplicates. */
  ghost function Representative(events: map<string, Event>, id: string): string
    requires id in events
  {
    if events[id].uid == "" then id else
    assert id in Matches(events, events[id], false);
    Least(Matches(events, events[id], false))
  }

  ghost function Folded(events: map<string, Event>): set<string> {
    set id | id in events && Representative(events, id) != id
  }

  ghost function FoldedAliases(events: map<string, Event>): map<string, Alias> {
    map id | id in Folded(events) :: Alias(Representative(events, id), events[id].uid, false)
  }

  /** dedupeEquivalentCalendarEventsLocked, with the repair recorded. */
  ghost function Dedupe(w: World): World {
    PutAliases(DropEvents(w, Folded(w.cal.events)), FoldedAliases(w.cal.events))
  }

  function LocalUpsert(w: World, ev: Event): World {
    DropAliases(PutEvent(w, ev), {ev.serverID})
  }

  function Dependents(c: Cal, id: string): set<string> {
    set a | a in c.aliases && (a == id || c.aliases[a].canonicalID == id)
  }

  function LocalDelete(w: World, id: string): World {
    DropAliases(DropEvent(w, id), Dependents(w.cal, id))
  }

  // ---------- repair at load ----------

  predicate SoundAlias(c: Cal, a: string)
    requires a in c.aliases
  {
    var target := c.aliases[a].canonicalID;
    a != "" && target != "" && a != target && a !in c.events && target in c.events
  }

  function Marked(c: Cal, a: string): Alias
    requires a in c.aliases && c.aliases[a].canonicalID in c.events
  {
    var al := c.aliases[a];
    al.(replay := al.replay || (al.uid != "" && al.uid != c.events[al.canonicalID].uid))
  }

  function Normalize(c: Cal): Cal {
    c.(aliases := map a | a in c.aliases && SoundAlias(c, a) :: Marked(c, a))
  }
}
