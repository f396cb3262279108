/** Field by field: which early changes of a message show in the batched merge although a new
    version of the message came after them. */
module MailFields {
  import opened Ids
  import opened Mail
  import opened MailMerge
  import opened MailOrder

  /** The fields of which the last change that sets them wins. */
  datatype Field =
    | Subject | From | To | DisplayTo | Cc | Bcc | ReplyTo | Sender | Date | BodySize | Topic | Conversation | Class
    | Preview | Categories | Body | BodyType | BodyTruncated | BodyMIME | Read | FlagStatus

  datatype Value =
    | Text(s: string) | Numbers(ns: seq<int>) | Int(n: int) | Flag(b: bool) | Moment(t: Time) | Tags(ts: seq<string>)

  function ValueOf(f: Field, it: EmailItem): Value {
    match f
    case Subject => Text(it.subject)
    case From => Text(it.from_)
    case To => Text(it.to_)
    case DisplayTo => Text(it.displayTo)
    case Cc => Text(it.cc)
    case Bcc => Text(it.bcc)
    case ReplyTo => Text(it.replyTo)
    case Sender => Text(it.sender)
    case Date => Moment(it.dateReceived)
    case BodySize => Int(it.bodyEstimatedSize)
    case Topic => Text(it.threadTopic)
    case Conversation => Numbers(it.conversationID)
    case Class => Text(it.messageClass)
    case Preview => Text(it.bodyPreview)
    case Categories => Tags(it.categories)
    case Body => Text(it.body)
    case BodyType => Int(it.bodyType)
    case BodyTruncated => Flag(it.bodyTruncated)
    case BodyMIME => Numbers(it.bodyMIME)
    case Read => Flag(it.read)
    case FlagStatus => Int(it.flagStatus)
  }

  /** Whether a sparse change carries the field. */
  predicate Carries(f: Field, change: EmailItem) {
    match f
    case Date => change.dateReceived.instant != 0
    case BodyType => change.body != "" && change.bodyType != BODY_TYPE_NONE
    case BodyTruncated => change.body != ""
    case Read => change.readPresent
    case FlagStatus => change.flagStatusPresent
    case BodySize => change.bodyEstimatedSize != 0
    case Conversation => change.conversationID != []
    case Categories => change.categories != []
    case BodyMIME => change.bodyMIME != []
    case _ => ValueOf(f, change) != Text("")
  }

  predicate Changes(op: Op, id: string) { op.Change? && IdOf(op) == id }

  /** What the last change of the message that carries the field sets it to. */
  function LastSet(f: Field, ops: seq<Op>, id: string): Option<Value>
    decreases |ops|
  {
    if ops == [] then None
    else
      var op := ops[|ops| - 1];
      if Changes(op, id) && Carries(f, op.item) then Some(ValueOf(f, op.item)) else LastSet(f, ops[..|ops| - 1], id)
  }

  function Either(v: Option<Value>, otherwise: Value): Value { if v.Some? then v.value else otherwise }

  /** The attachments after the changes of a message. */
  function AttachmentsAfter(base: seq<Attachment>, ops: seq<Op>, id: string): seq<Attachment>
    decreases |ops|
  {
    if ops == [] then base
    else
      var before, op := AttachmentsAfter(base, ops[..|ops| - 1], id), ops[|ops| - 1];
      if Changes(op, id) then MergeAttachments(before, op.item.attachments) else before
  }

  /** Whether the message is marked as having attachments after its changes. */
  predicate MarkedAfter(base: EmailItem, ops: seq<Op>, id: string)
    decreases |ops|
  {
    if ops == [] then base.hasAttachments
    else
      var init, op := ops[..|ops| - 1], ops[|ops| - 1];
      || MarkedAfter(base, init, id)
      || (Changes(op, id) && (op.item.hasAttachments || AttachmentsAfter(base.attachments, ops, id) != []))
  }

  // ---------- one change ----------

  lemma {:induction false} MergeSets(base: EmailItem, change: EmailItem, f: Field)
    requires base.serverID != ""
    ensures ValueOf(f, MergeEmailChange(base, change)) ==
            if Carries(f, change) then ValueOf(f, change) else ValueOf(f, base)
  {
  }

  lemma {:induction false} MergeOthers(base: EmailItem, change: EmailItem)
    requires base.serverID == change.serverID != ""
    ensures var r := MergeEmailChange(base, change);
      && r.attachments == MergeAttachments(base.attachments, change.attachments)
      && r.hasAttachments == (base.hasAttachments || change.hasAttachments || r.attachments != [])
      && SameRest(r, base)
  {
  }

  /** The fields that no change touches. */
  predicate SameRest(a: EmailItem, b: EmailItem) {
    && a.serverID == b.serverID && a.importance == b.importance
    && a.readPresent == b.readPresent && a.flagStatusPresent == b.flagStatusPresent
  }

  ghost predicate Alike(a: EmailItem, b: EmailItem) { forall f: Field :: ValueOf(f, a) == ValueOf(f, b) }

  lemma {:induction false} SameAddresses(a: EmailItem, b: EmailItem)
    requires Alike(a, b)
    ensures a.subject == b.subject && a.from_ == b.from_ && a.to_ == b.to_ && a.displayTo == b.displayTo
    ensures a.cc == b.cc && a.bcc == b.bcc && a.replyTo == b.replyTo && a.sender == b.sender
  {
    assert ValueOf(Subject, a) == ValueOf(Subject, b) && ValueOf(From, a) == ValueOf(From, b);
    assert ValueOf(To, a) == ValueOf(To, b) && ValueOf(DisplayTo, a) == ValueOf(DisplayTo, b);
    assert ValueOf(Cc, a) == ValueOf(Cc, b) && ValueOf(Bcc, a) == ValueOf(Bcc, b);
    assert ValueOf(ReplyTo, a) == ValueOf(ReplyTo, b) && ValueOf(Sender, a) == ValueOf(Sender, b);
  }

  lemma {:induction false} SameDetails(a: EmailItem, b: EmailItem)
    requires Alike(a, b)
    ensures a.dateReceived == b.dateReceived && a.bodyEstimatedSize == b.bodyEstimatedSize
    ensures a.threadTopic == b.threadTopic && a.conversationID == b.conversationID
    ensures a.messageClass == b.messageClass && a.bodyPreview == b.bodyPreview && a.categories == b.categories
  {
    assert ValueOf(Date, a) == ValueOf(Date, b) && ValueOf(BodySize, a) == ValueOf(BodySize, b);
    assert ValueOf(Topic, a) == ValueOf(Topic, b) && ValueOf(Conversation, a) == ValueOf(Conversation, b);
    assert ValueOf(Class, a) == ValueOf(Class, b) && ValueOf(Preview, a) == ValueOf(Preview, b);
    assert ValueOf(Categories, a) == ValueOf(Categories, b);
  }

  lemma {:induction false} SameBodies(a: EmailItem, b: EmailItem)
    requires Alike(a, b)
    ensures a.body == b.body && a.bodyType == b.bodyType && a.bodyTruncated == b.bodyTruncated
    ensures a.bodyMIME == b.bodyMIME && a.read == b.read && a.flagStatus == b.flagStatus
  {
    assert ValueOf(Body, a) == ValueOf(Body, b) && ValueOf(BodyType, a) == ValueOf(BodyType, b);
    assert ValueOf(BodyTruncated, a) == ValueOf(BodyTruncated, b) && ValueOf(BodyMIME, a) == ValueOf(BodyMIME, b);
    assert ValueOf(Read, a) == ValueOf(Read, b) && ValueOf(FlagStatus, a) == ValueOf(FlagStatus, b);
  }

  lemma {:induction false} SameItem(a: EmailItem, b: EmailItem)
    requires SameRest(a, b) && a.attachments == b.attachments && a.hasAttachments == b.hasAttachments && Alike(a, b)
    ensures a == b
  {
    SameAddresses(a, b);
    SameDetails(a, b);
    SameBodies(a, b);
  }

  // ---------- all changes ----------

  ghost predicate NoAdds(ops: seq<Op>, id: string) { forall op :: op in ops && IdOf(op) == id ==> !op.Add? }

  lemma {:induction false} ContentOthers(base: EmailItem, ops: seq<Op>, id: string)
    requires base.serverID == id != "" && NoAdds(ops, id)
    ensures var r := MergedContent(base, ops, id);
      && SameRest(r, base) && r.attachments == AttachmentsAfter(base.attachments, ops, id)
      && r.hasAttachments == MarkedAfter(base, ops, id)
    decreases |ops|
  {
    if ops != [] {
      var init, op := ops[..|ops| - 1], ops[|ops| - 1];
      assert op in ops && forall o :: o in init ==> o in ops;
      ContentOthers(base, init, id);
      if Changes(op, id) { MergeOthers(MergedContent(base, init, id), op.item); }
    }
  }

  lemma {:induction false} FieldStep(before: EmailItem, op: Op, id: string, f: Field)
    requires before.serverID != "" && (IdOf(op) == id ==> !op.Add?)
    ensures ValueOf(f, if op.Delete? || IdOf(op) != id then before else Stored(before, op)) ==
            if Changes(op, id) && Carries(f, op.item) then ValueOf(f, op.item) else ValueOf(f, before)
  {
    if Changes(op, id) { MergeSets(before, op.item, f); }
  }

  lemma {:induction false} ContentOfField(base: EmailItem, ops: seq<Op>, id: string, f: Field)
    requires base.serverID == id != "" && NoAdds(ops, id)
    ensures ValueOf(f, MergedContent(base, ops, id)) == Either(LastSet(f, ops, id), ValueOf(f, base))
    decreases |ops|
  {
    if ops != [] {
      var init, op := ops[..|ops| - 1], ops[|ops| - 1];
      assert op in ops && forall o :: o in init ==> o in ops;
      ContentOfField(base, init, id, f);
      ContentOthers(base, init, id);
      FieldStep(MergedContent(base, init, id), op, id, f);
    }
  }

  lemma {:induction false} LastSetSnoc(f: Field, ops: seq<Op>, op: Op, id: string)
    ensures LastSet(f, ops + [op], id) ==
      if Changes(op, id) && Carries(f, op.item) then Some(ValueOf(f, op.item)) else LastSet(f, ops, id)
  {
    assert (ops + [op])[..|ops|] == ops;
  }

  /** The changes since the last add are the last of all changes. */
  lemma {:induction false} SinceIsLast(f: Field, ops: seq<Op>, id: string)
    ensures LastSet(f, SinceAdd(ops, id), id).Some? ==>
            LastSet(f, OfRank(ops, 1), id) == LastSet(f, SinceAdd(ops, id), id)
    decreases |ops|
  {
    if ops != [] {
      var init, op := ops[..|ops| - 1], ops[|ops| - 1];
      assert ops == init + [op];
      SinceIsLast(f, init, id);
      OfRankSnoc(init, op, 1);
      LastSetSnoc(f, OfRank(init, 1), op, id);
      LastSetSnoc(f, SinceAdd(init, id), op, id);
    }
  }

  lemma {:induction false} SinceHasNoAdds(ops: seq<Op>, id: string)
    ensures NoAdds(SinceAdd(ops, id), id)
    decreases |ops|
  {
    if ops != [] { SinceHasNoAdds(ops[..|ops| - 1], id); }
  }

  lemma {:induction false} LatestAddIsOfIt(ops: seq<Op>, id: string)
    requires Heard(OfRank(ops, 0), id)
    ensures LatestAdd(ops, id).serverID == id
    decreases |ops|
  {
    var init, op := ops[..|ops| - 1], ops[|ops| - 1];
    assert ops == init + [op];
    OfRankSnoc(init, op, 0);
    if !(op.Add? && IdOf(op) == id) {
      HeardSnoc(OfRank(init, 0), op, id);
      LatestAddIsOfIt(init, id);
    }
  }

  // ---------- the condition on fields ----------

  /** A field settles if a change after the last add carries it, or none does at all, or the
      last change sets it to what the add has. */
  ghost predicate FieldSettles(f: Field, ops: seq<Op>, id: string)
    requires Heard(OfRank(ops, 0), id)
  {
    var last := LastSet(f, OfRank(ops, 1), id);
    LastSet(f, SinceAdd(ops, id), id).Some? || last.None? || last.value == ValueOf(f, LatestAdd(ops, id))
  }

  ghost predicate AttachmentsSettle(ops: seq<Op>, id: string)
    requires Heard(OfRank(ops, 0), id)
  {
    var add := LatestAdd(ops, id);
    && AttachmentsAfter(add.attachments, OfRank(ops, 1), id) == AttachmentsAfter(add.attachments, SinceAdd(ops, id), id)
    && MarkedAfter(add, OfRank(ops, 1), id) == MarkedAfter(add, SinceAdd(ops, id), id)
  }

  /** The early changes of a message leave nothing behind exactly if every field settles, and
      its attachments do. */
  lemma {:induction false} ChangesSettleIffFieldsDo(ops: seq<Op>, id: string)
    requires id != "" && id !in Gone(ops) && Heard(OfRank(ops, 0), id)
    ensures ChangesSettle(ops, id) <==> (forall f: Field :: FieldSettles(f, ops, id)) && AttachmentsSettle(ops, id)
  {
    var add, all, since := LatestAdd(ops, id), OfRank(ops, 1), SinceAdd(ops, id);
    LatestAddIsOfIt(ops, id);
    SinceHasNoAdds(ops, id);
    OfRankHolds(ops, 1);
    ContentOthers(add, all, id);
    ContentOthers(add, since, id);
    var x, y := MergedContent(add, all, id), MergedContent(add, since, id);
    forall f: Field ensures ValueOf(f, x) == ValueOf(f, y) <==> FieldSettles(f, ops, id) {
      ContentOfField(add, all, id, f);
      ContentOfField(add, since, id, f);
      SinceIsLast(f, ops, id);
    }
    if (forall f: Field :: FieldSettles(f, ops, id)) && AttachmentsSettle(ops, id) { SameItem(x, y); }
  }
}
