/** Which value an attachment ends up with when lists of attachments are merged. */
module MailAttachments {
  import opened Ids
  import opened Mail

  /** The fields of which the last attachment that carries them wins. */
  datatype Field = Name | Reference | Method | Size | ContentId | Location | Type

  datatype Value = Text(s: string) | Number(n: int)

  function ValueOf(f: Field, a: Attachment): Value {
    match f
    case Name => Text(a.displayName)
    case Reference => Text(a.fileReference)
    case Method => Number(a.method_)
    case Size => Number(a.estimatedDataSize)
    case ContentId => Text(a.contentID)
    case Location => Text(a.contentLocation)
    case Type => Text(a.contentType)
  }

  /** Texts are carried unless empty, the method unless 0, the size if positive. */
  predicate Carries(f: Field, a: Attachment) {
    match f
    case Size => a.estimatedDataSize > 0
    case Method => a.method_ != 0
    case _ => ValueOf(f, a) != Text("")
  }

  /** What the last of these attachments with the reference that carries the field says. */
  function LastCarried(f: Field, attachments: seq<Attachment>, reference: string): Option<Value>
    decreases |attachments|
  {
    if attachments == [] then None
    else
      var last := attachments[|attachments| - 1];
      if last.fileReference == reference && Carries(f, last) then Some(ValueOf(f, last))
      else LastCarried(f, attachments[..|attachments| - 1], reference)
  }

  /** The first of these attachments with the reference. */
  function First(attachments: seq<Attachment>, reference: string): Option<Attachment>
    decreases |attachments|
  {
    if attachments == [] then None
    else
      var before, last := First(attachments[..|attachments| - 1], reference), attachments[|attachments| - 1];
      if before.Some? then before else if last.fileReference == reference then Some(last) else None
  }

  predicate AnyInline(attachments: seq<Attachment>, reference: string) {
    exists i :: 0 <= i < |attachments| && attachments[i].fileReference == reference && attachments[i].isInline
  }

  function Either<T>(v: Option<T>, otherwise: T): T { if v.Some? then v.value else otherwise }

  /** The attachment with the reference that merging starts from: the last of the base, else
      the first that is fetched. */
  function Start(base: seq<Attachment>, fetched: seq<Attachment>, reference: string): Option<Attachment> {
    var i := IndexOf(base, reference);
    if i.Some? then Some(base[i.value]) else First(fetched, reference)
  }

  lemma {:induction false} MergeCarries(base: Attachment, fetched: Attachment, f: Field)
    ensures ValueOf(f, MergeAttachmentMetadata(base, fetched)) ==
            if Carries(f, fetched) then ValueOf(f, fetched) else ValueOf(f, base)
    ensures MergeAttachmentMetadata(base, fetched).isInline == (base.isInline || fetched.isInline)
  {
  }

  /** The attachment that a reference stands for. */
  function At(attachments: seq<Attachment>, reference: string): Option<Attachment> {
    var i := IndexOf(attachments, reference);
    if i.Some? then Some(attachments[i.value]) else None
  }

  lemma {:induction false} IndexAfterAppend(out: seq<Attachment>, a: Attachment, reference: string)
    ensures IndexOf(out + [a], reference) ==
      if a.fileReference == reference then Some(|out|) else IndexOf(out, reference)
  {
    assert (out + [a])[..|out|] == out;
  }

  /** One fetched attachment changes only what its own reference stands for. */
  lemma {:induction false} MergeOneAt(out: seq<Attachment>, a: Attachment, reference: string)
    requires reference != ""
    ensures At(MergeAttachment(out, a), reference) ==
      if a.fileReference != reference then At(out, reference)
      else if At(out, reference).Some? then Some(MergeAttachmentMetadata(At(out, reference).value, a)) else Some(a)
  {
    var i := if a.fileReference == "" then None else IndexOf(out, a.fileReference);
    if i.Some? {
      SamePosition(out, i.value, MergeAttachmentMetadata(out[i.value], a), reference);
    } else {
      IndexAfterAppend(out, a, reference);
    }
  }

  /** The attachment has, of each field, what the last of `fetched` that carries it says, else
      what `start` says. */
  ghost predicate Merged(out: Attachment, start: Attachment, fetched: seq<Attachment>, reference: string) {
    && (forall f: Field :: ValueOf(f, out) == Either(LastCarried(f, fetched, reference), ValueOf(f, start)))
    && out.isInline == (start.isInline || AnyInline(fetched, reference))
  }

  lemma {:induction false} MergedMore(out: Attachment, start: Attachment, init: seq<Attachment>, last: Attachment,
                                      reference: string)
    requires Merged(out, start, init, reference)
    ensures var more := if last.fileReference == reference then MergeAttachmentMetadata(out, last) else out;
      Merged(more, start, init + [last], reference)
  {
    var all, more := init + [last], if last.fileReference == reference then MergeAttachmentMetadata(out, last) else out;
    AnyInlineMore(init, last, reference);
    assert all[..|init|] == init;
    forall f: Field ensures ValueOf(f, more) == Either(LastCarried(f, all, reference), ValueOf(f, start)) {
      MergeCarries(out, last, f);
    }
  }

  lemma {:induction false} FirstIsMerged(init: seq<Attachment>, last: Attachment, reference: string)
    requires First(init, reference).None? && last.fileReference == reference
    ensures Merged(last, last, init + [last], reference)
  {
    var all := init + [last];
    AnyInlineMore(init, last, reference);
    NoneInline(init, reference);
    assert all[..|init|] == init;
    forall f: Field ensures ValueOf(f, last) == Either(LastCarried(f, all, reference), ValueOf(f, last)) {
      NoneCarries(f, init, reference);
    }
  }

  lemma {:induction false} NoneInline(attachments: seq<Attachment>, reference: string)
    requires First(attachments, reference).None?
    ensures !AnyInline(attachments, reference)
    decreases |attachments|
  {
    if attachments != [] {
      var init, last := attachments[..|attachments| - 1], attachments[|attachments| - 1];
      assert attachments == init + [last];
      NoneInline(init, reference);
      AnyInlineMore(init, last, reference);
    }
  }

  /** Merging lists: for every reference, each field is that of the last fetched attachment
      with the reference that carries it, else that of the attachment it starts from; and it
      is inline if that one or any fetched one is. */
  lemma {:induction false} LastCarriedWins(base: seq<Attachment>, fetched: seq<Attachment>, reference: string)
    requires reference != ""
    ensures var out, start := At(MergeAttachments(base, fetched), reference), Start(base, fetched, reference);
      out.Some? == start.Some? && (out.Some? ==> Merged(out.value, start.value, fetched, reference))
    decreases |fetched|
  {
    if fetched != [] {
      var init, last := fetched[..|fetched| - 1], fetched[|fetched| - 1];
      LastCarriedWins(base, init, reference);
      MergeOneAt(MergeAttachments(base, init), last, reference);
      assert fetched == init + [last];
      var before := At(MergeAttachments(base, init), reference);
      if before.Some? {
        MergedMore(before.value, Start(base, init, reference).value, init, last, reference);
      } else if last.fileReference == reference {
        FirstIsMerged(init, last, reference);
      }
    }
  }

  lemma {:induction false} NoneCarries(f: Field, attachments: seq<Attachment>, reference: string)
    requires First(attachments, reference).None?
    ensures LastCarried(f, attachments, reference).None?
    decreases |attachments|
  {
    if attachments != [] { NoneCarries(f, attachments[..|attachments| - 1], reference); }
  }

  lemma {:induction false} AnyInlineMore(init: seq<Attachment>, last: Attachment, reference: string)
    ensures AnyInline(init + [last], reference) <==>
            AnyInline(init, reference) || (last.fileReference == reference && last.isInline)
  {
    var all := init + [last];
    if AnyInline(init, reference) {
      var i :| 0 <= i < |init| && init[i].fileReference == reference && init[i].isInline;
      assert all[i] == init[i];
    }
    if last.fileReference == reference && last.isInline { assert all[|init|] == last; }
  }

  /** The attachments without a reference, in order. */
  function Unreferenced(attachments: seq<Attachment>): seq<Attachment>
    decreases |attachments|
  {
    if attachments == [] then []
    else
      var last := attachments[|attachments| - 1];
      Unreferenced(attachments[..|attachments| - 1]) + if last.fileReference == "" then [last] else []
  }

  lemma {:induction false} UnreferencedSnoc(attachments: seq<Attachment>, a: Attachment)
    ensures Unreferenced(attachments + [a]) == Unreferenced(attachments) + if a.fileReference == "" then [a] else []
  {
    assert (attachments + [a])[..|attachments|] == attachments;
  }

  lemma {:induction false} UpdateLeavesUnreferenced(out: seq<Attachment>, k: nat, a: Attachment)
    requires k < |out| && a.fileReference == out[k].fileReference != ""
    ensures Unreferenced(out[k := a]) == Unreferenced(out)
    decreases |out|
  {
    var n := |out|;
    if k < n - 1 {
      assert out[k := a][..n - 1] == out[..n - 1][k := a];
      UpdateLeavesUnreferenced(out[..n - 1], k, a);
    } else {
      assert out[k := a][..n - 1] == out[..n - 1];
    }
  }

  lemma {:induction false} UnreferencedNext(out: seq<Attachment>, last: Attachment)
    ensures Unreferenced(MergeAttachment(out, last)) ==
            Unreferenced(out) + if last.fileReference == "" then [last] else []
  {
    var i := if last.fileReference == "" then None else IndexOf(out, last.fileReference);
    if i.Some? {
      UpdateLeavesUnreferenced(out, i.value, MergeAttachmentMetadata(out[i.value], last));
      assert Unreferenced(out) + [] == Unreferenced(out);
    } else {
      UnreferencedSnoc(out, last);
    }
  }

  lemma {:induction false} MergesLast(base: seq<Attachment>, init: seq<Attachment>, last: Attachment)
    ensures MergeAttachments(base, init + [last]) == MergeAttachment(MergeAttachments(base, init), last)
  {
    assert (init + [last])[..|init|] == init;
  }

  lemma {:induction false} AppendBoth(a: seq<Attachment>, b: seq<Attachment>, c: seq<Attachment>)
    ensures (a + b) + c == a + (b + c)
  {
  }

  /** An attachment without a reference is appended as it is, whatever others look like. */
  lemma {:induction false} UnreferencedAreAppended(base: seq<Attachment>, fetched: seq<Attachment>)
    ensures Unreferenced(MergeAttachments(base, fetched)) == Unreferenced(base) + Unreferenced(fetched)
    decreases |fetched|, 1
  {
    if fetched == [] {
      assert Unreferenced(base) + [] == Unreferenced(base);
    } else {
      UnreferencedInit(base, fetched[..|fetched| - 1], fetched[|fetched| - 1]);
      assert fetched == fetched[..|fetched| - 1] + [fetched[|fetched| - 1]];
    }
  }

  lemma {:induction false} UnreferencedInit(base: seq<Attachment>, init: seq<Attachment>, last: Attachment)
    ensures Unreferenced(MergeAttachments(base, init + [last])) == Unreferenced(base) + Unreferenced(init + [last])
    decreases |init| + 1, 0
  {
    var one: seq<Attachment> := if last.fileReference == "" then [last] else [];
    UnreferencedAreAppended(base, init);
    MergesLast(base, init, last);
    UnreferencedNext(MergeAttachments(base, init), last);
    UnreferencedSnoc(init, last);
    AppendBoth(Unreferenced(base), Unreferenced(init), one);
  }
}
