/** Mail items and the sparse updates the server sends for them. */
module Mail {
  import opened Ids

  /** A point in time; `instant` counts from Go's zero time, `zone` is how it is written. */
  datatype Time = Time(instant: int, zone: int)

  predicate SameInstant(a: Time, b: Time) { a.instant == b.instant }

  datatype Attachment = Attachment(
    displayName: string,
    fileReference: string,
    method_: int,
    estimatedDataSize: int,
    contentID: string,
    contentLocation: string,
    isInline: bool,
    contentType: string)

  datatype EmailItem = EmailItem(
    serverID: string,
    subject: string,
    from_: string,
    to_: string,
    cc: string,
    bcc: string,
    replyTo: string,
    sender: string,
    displayTo: string,
    dateReceived: Time,
    read: bool,
    flagStatus: int,
    importance: int,
    hasAttachments: bool,
    readPresent: bool,
    flagStatusPresent: bool,
    attachments: seq<Attachment>,
    threadTopic: string,
    conversationID: seq<int>,
    messageClass: string,
    bodyType: int,
    bodyEstimatedSize: int,
    bodyTruncated: bool,
    body: string,
    bodyMIME: seq<int>,
    bodyPreview: string,
    categories: seq<string>)

  const BODY_TYPE_NONE := 0
  const ZERO_TIME := Time(0, 0)

  const ZERO_ITEM := EmailItem("", "", "", "", "", "", "", "", "", ZERO_TIME, false, 0, 0, false, false, false, [],
                               "", [], "", BODY_TYPE_NONE, 0, false, "", [], "", [])

  function Or<T(==)>(empty: T, base: T, fetched: T): T { if fetched != empty then fetched else base }

  /** mergeAttachmentMetadata. */
  function MergeAttachmentMetadata(base: Attachment, fetched: Attachment): Attachment {
    Attachment(
      Or("", base.displayName, fetched.displayName),
      Or("", base.fileReference, fetched.fileReference),
      Or(0, base.method_, fetched.method_),
      if fetched.estimatedDataSize > 0 then fetched.estimatedDataSize else base.estimatedDataSize,
      Or("", base.contentID, fetched.contentID),
      Or("", base.contentLocation, fetched.contentLocation),
      base.isInline || fetched.isInline,
      Or("", base.contentType, fetched.contentType))
  }

  /** The last attachment with a given reference. */
  function IndexOf(attachments: seq<Attachment>, reference: string): (i: Option<nat>)
    ensures i.Some? ==> i.value < |attachments| && attachments[i.value].fileReference == reference
    ensures i.None? ==> forall a :: a in attachments ==> a.fileReference != reference
    decreases |attachments|
  {
    var n := |attachments|;
    if n == 0 then None
    else if attachments[n - 1].fileReference == reference then Some(n - 1)
    else IndexOf(attachments[..n - 1], reference)
  }

  function MergeAttachment(out: seq<Attachment>, fetched: Attachment): seq<Attachment> {
    var i := if fetched.fileReference == "" then None else IndexOf(out, fetched.fileReference);
    if i.Some? then out[i.value := MergeAttachmentMetadata(out[i.value], fetched)] else out + [fetched]
  }

  function MergeAttachments(base: seq<Attachment>, fetched: seq<Attachment>): seq<Attachment>
    decreases |fetched|
  {
    if fetched == [] then base
    else MergeAttachment(MergeAttachments(base, fetched[..|fetched| - 1]), fetched[|fetched| - 1])
  }

  /** mergeEmailMetadata: a field the server left out keeps its value. */
  function MergeEmailMetadata(base: EmailItem, f: EmailItem): EmailItem {
    var attachments :=
      if f.attachments != [] then MergeAttachments(base.attachments, f.attachments) else base.attachments;
    base.(
      serverID := Or("", base.serverID, f.serverID),
      subject := Or("", base.subject, f.subject),
      from_ := Or("", base.from_, f.from_),
      to_ := Or("", base.to_, f.to_),
      displayTo := Or("", base.displayTo, f.displayTo),
      cc := Or("", base.cc, f.cc),
      bcc := Or("", base.bcc, f.bcc),
      replyTo := Or("", base.replyTo, f.replyTo),
      sender := Or("", base.sender, f.sender),
      dateReceived := if f.dateReceived.instant != 0 then f.dateReceived else base.dateReceived,
      bodyEstimatedSize := Or(0, base.bodyEstimatedSize, f.bodyEstimatedSize),
      attachments := attachments,
      hasAttachments := base.hasAttachments || f.hasAttachments || attachments != [],
      threadTopic := Or("", base.threadTopic, f.threadTopic),
      conversationID := Or([], base.conversationID, f.conversationID),
      messageClass := Or("", base.messageClass, f.messageClass),
      bodyPreview := Or("", base.bodyPreview, f.bodyPreview),
      categories := Or([], base.categories, f.categories))
  }

  /** mergeEmailItem: the metadata and the body. */
  function MergeEmailItem(base: EmailItem, f: EmailItem): EmailItem {
    MergeEmailMetadata(base, f).(
      body := Or("", base.body, f.body),
      bodyType := if f.body != "" && f.bodyType != BODY_TYPE_NONE then f.bodyType else base.bodyType,
      bodyTruncated := if f.body != "" then f.bodyTruncated else base.bodyTruncated,
      bodyMIME := Or([], base.bodyMIME, f.bodyMIME))
  }

  function MergeEmailChange(base: EmailItem, change: EmailItem): (r: EmailItem)
    ensures base.serverID == change.serverID || base.serverID == "" ==> r.serverID == change.serverID
  {
    if base.serverID == "" then change
    else
      MergeEmailItem(base, change).(
        read := if change.readPresent then change.read else base.read,
        flagStatus := if change.flagStatusPresent then change.flagStatus else base.flagStatus)
  }

  /** emailMIMEContentEqual: nothing a rendered message shows differs; dates are compared
      as instants. */
  predicate MIMEContentEqual(a: EmailItem, b: EmailItem) {
    && a.serverID == b.serverID
    && a.subject == b.subject
    && a.from_ == b.from_
    && a.to_ == b.to_
    && a.cc == b.cc
    && a.replyTo == b.replyTo
    && SameInstant(a.dateReceived, b.dateReceived)
    && a.bodyType == b.bodyType
    && a.body == b.body
    && a.bodyTruncated == b.bodyTruncated
    && a.hasAttachments == b.hasAttachments
    && a.attachments == b.attachments
  }

  // ---------- merging attachments ----------

  /** mergeAttachments, with its map from reference to position. */
  method MergeAttachmentLists(base: seq<Attachment>, fetched: seq<Attachment>) returns (out: seq<Attachment>)
    ensures out == MergeAttachments(base, fetched)
  {
    out := base;
    var byReference: map<string, nat> := map[];
    for i := 0 to |out|
      invariant Positions(byReference, out[..i])
    {
      assert out[..i + 1][..i] == out[..i];
      if out[i].fileReference != "" {
        byReference := byReference[out[i].fileReference := i];
      }
    }
    assert out[..|out|] == out;
    for i := 0 to |fetched|
      invariant out == MergeAttachments(base, fetched[..i])
      invariant Positions(byReference, out)
    {
      assert fetched[..i + 1][..i] == fetched[..i];
      var a := fetched[i];
      if a.fileReference != "" && a.fileReference in byReference {
        var k := byReference[a.fileReference];
        SamePositions(out, k, MergeAttachmentMetadata(out[k], a));
        out := out[k := MergeAttachmentMetadata(out[k], a)];
      } else {
        assert (out + [a])[..|out|] == out;
        if a.fileReference != "" {
          byReference := byReference[a.fileReference := |out|];
        }
        out := out + [a];
      }
    }
    assert fetched[..|fetched|] == fetched;
  }

  ghost predicate Positions(byReference: map<string, nat>, out: seq<Attachment>) {
    forall r :: r != "" ==> IndexOf(out, r) == if r in byReference then Some(byReference[r]) else None
  }

  lemma {:induction false} SamePosition(out: seq<Attachment>, k: nat, a: Attachment, r: string)
    requires k < |out| && a.fileReference == out[k].fileReference
    ensures IndexOf(out[k := a], r) == IndexOf(out, r)
    decreases |out|
  {
    var n := |out|;
    if k < n - 1 {
      assert out[k := a][..n - 1] == out[..n - 1][k := a];
      SamePosition(out[..n - 1], k, a, r);
    } else {
      assert out[k := a][..n - 1] == out[..n - 1];
    }
  }

  lemma {:induction false} SamePositions(out: seq<Attachment>, k: nat, a: Attachment)
    requires k < |out| && a.fileReference == out[k].fileReference
    ensures forall r :: IndexOf(out[k := a], r) == IndexOf(out, r)
  {
    forall r ensures IndexOf(out[k := a], r) == IndexOf(out, r) { SamePosition(out, k, a, r); }
  }

  // ---------- what merging attachments keeps ----------

  /** No reference is listed twice. */
  ghost predicate DistinctReferences(out: seq<Attachment>) {
    forall i, j :: 0 <= i < j < |out| && out[i].fileReference == out[j].fileReference ==> out[i].fileReference == ""
  }

  ghost predicate Knows(out: seq<Attachment>, reference: string) {
    exists i :: 0 <= i < |out| && out[i].fileReference == reference
  }

  /** Attachments stay where they were, with every text they had unless it was replaced by
      another; sizes that were known stay known. */
  ghost predicate Extends(out: seq<Attachment>, base: seq<Attachment>) {
    |base| <= |out| && forall i :: 0 <= i < |base| ==> Refines(out[i], base[i])
  }

  predicate Refines(a: Attachment, b: Attachment) {
    && a.fileReference == b.fileReference
    && (b.displayName != "" ==> a.displayName != "")
    && (b.contentID != "" ==> a.contentID != "")
    && (b.contentLocation != "" ==> a.contentLocation != "")
    && (b.contentType != "" ==> a.contentType != "")
    && (b.estimatedDataSize > 0 ==> a.estimatedDataSize > 0)
    && (b.isInline ==> a.isInline)
  }

  lemma {:induction false} MergeOneAttachment(out: seq<Attachment>, fetched: Attachment)
    ensures var more := MergeAttachment(out, fetched);
      && Extends(more, out) && Knows(more, fetched.fileReference)
      && (DistinctReferences(out) ==> DistinctReferences(more))
  {
    var i := if fetched.fileReference == "" then None else IndexOf(out, fetched.fileReference);
    var more := MergeAttachment(out, fetched);
    assert more[if i.Some? then i.value else |out|].fileReference == fetched.fileReference;
    if i.None? && fetched.fileReference != "" {
      forall k | 0 <= k < |out| ensures out[k].fileReference != fetched.fileReference { assert out[k] in out; }
    }
  }

  /** Merging fetched attachments moves, drops or duplicates none, and every fetched
      reference is there afterwards. */
  lemma {:induction false} MergedAttachmentsExtend(base: seq<Attachment>, fetched: seq<Attachment>)
    ensures var out := MergeAttachments(base, fetched);
      && Extends(out, base)
      && (forall k :: 0 <= k < |fetched| ==> Knows(out, fetched[k].fileReference))
      && (DistinctReferences(base) ==> DistinctReferences(out))
    decreases |fetched|
  {
    if fetched != [] {
      var before, last := MergeAttachments(base, fetched[..|fetched| - 1]), fetched[|fetched| - 1];
      MergedAttachmentsExtend(base, fetched[..|fetched| - 1]);
      MergeOneAttachment(before, last);
      var out := MergeAttachments(base, fetched);
      forall k | 0 <= k < |fetched| ensures Knows(out, fetched[k].fileReference) {
        if k < |fetched| - 1 {
          assert fetched[..|fetched| - 1][k] == fetched[k];
          var i :| 0 <= i < |before| && before[i].fileReference == fetched[k].fileReference;
          assert Refines(out[i], before[i]);
        }
      }
      forall i | 0 <= i < |base| ensures Refines(out[i], base[i]) {
        assert Refines(out[i], before[i]) && Refines(before[i], base[i]);
      }
    }
  }
}
