/** Exactly which cached renderings a merge throws away: a change of the read mark or of the
    flag, by far the most common, costs none. */
module MailInvalidation {
  import opened Ids
  import opened Mail
  import opened MailMerge

  /** Nothing a rendered message shows is among what the change carries. */
  predicate ShowsNothing(change: EmailItem) {
    && change.subject == "" && change.from_ == "" && change.to_ == "" && change.cc == "" && change.replyTo == ""
    && change.dateReceived.instant == 0 && change.body == "" && !change.hasAttachments && change.attachments == []
  }

  /** The item says that it has attachments if it lists some. */
  predicate Flagged(it: EmailItem) { it.attachments != [] ==> it.hasAttachments }

  /** What no rendered message shows does not make two items differ. */
  lemma {:induction false} UnshownDoesNotCount(a: EmailItem, b: EmailItem)
    requires a.serverID == b.serverID && a.subject == b.subject && a.from_ == b.from_ && a.to_ == b.to_
    requires a.cc == b.cc && a.replyTo == b.replyTo && a.dateReceived.instant == b.dateReceived.instant
    requires a.bodyType == b.bodyType && a.body == b.body && a.bodyTruncated == b.bodyTruncated
    requires a.hasAttachments == b.hasAttachments && a.attachments == b.attachments
    ensures MIMEContentEqual(a, b)
  {
  }

  /** A change that carries only marks alters what is shown exactly if the item lists
      attachments without saying so. */
  lemma {:induction false} MarksAlterIff(before: EmailItem, change: EmailItem)
    requires before.serverID == change.serverID != "" && ShowsNothing(change)
    ensures var after := MergeEmailChange(before, change);
      && (MIMEContentEqual(before, after) <==> Flagged(before))
      && after.serverID == before.serverID && Flagged(after)
  {
    var after := MergeEmailChange(before, change);
    if Flagged(before) { UnshownDoesNotCount(before, after); }
  }

  /** A change of an unknown message is taken as the message. */
  lemma {:induction false} UnknownChangeIsTaken(b: Box, change: EmailItem)
    requires change.serverID !in b.store
    ensures Apply(b, Change(change)) == Apply(b, Add(change))
  {
  }

  /** The i-th change, where it is applied, alters what its message shows. */
  ghost predicate Alters(b: Box, changed: seq<EmailItem>, i: nat)
    requires i < |changed|
  {
    var before := Before(Run(b, Changes(changed[..i])), changed[i].serverID);
    !MIMEContentEqual(before, MergeEmailChange(before, changed[i]))
  }

  /** One of the first n changes is of this message and alters it. */
  ghost predicate AltersAmong(b: Box, changed: seq<EmailItem>, n: nat, id: string)
    requires n <= |changed|
  {
    exists i :: 0 <= i < n && AltersOne(b, changed, i, id)
  }

  ghost predicate AltersOne(b: Box, changed: seq<EmailItem>, i: nat, id: string)
    requires i < |changed|
  {
    changed[i].serverID == id && Alters(b, changed, i)
  }

  lemma {:induction false} AmongNext(b: Box, changed: seq<EmailItem>, n: nat, id: string, one: bool)
    requires n < |changed| && one == AltersOne(b, changed, n, id)
    ensures AltersAmong(b, changed, n + 1, id) <==> AltersAmong(b, changed, n, id) || one
  {
  }

  lemma {:induction false} ChangedNext(b: Box, changed: seq<EmailItem>, n: nat, id: string, one: bool)
    requires n < |changed| && one == AltersOne(b, changed, n, id)
    ensures id in ChangedIDs(b, changed[..n + 1]) <==>
            id in ChangedIDs(b, changed[..n]) || one
  {
    assert changed[..n + 1][..n] == changed[..n];
  }

  lemma {:induction false} ChangedIff(b: Box, changed: seq<EmailItem>, n: nat, id: string)
    requires n <= |changed|
    ensures id in ChangedIDs(b, changed[..n]) <==> AltersAmong(b, changed, n, id)
  {
    if n > 0 {
      ChangedIff(b, changed, n - 1, id);
      var one := AltersOne(b, changed, n - 1, id);
      ChangedNext(b, changed, n - 1, id, one);
      AmongNext(b, changed, n - 1, id, one);
    }
  }

  /** A rendering is thrown away exactly if its message was added or deleted, or one of the
      changes altered what it shows. */
  lemma {:induction false} InvalidatedIff(b: Box, added: seq<EmailItem>, changed: seq<EmailItem>, deleted: seq<string>,
          id: string)
    ensures id in Invalidated(b, added, changed, deleted) <==>
            || id in IDs(added)
            || id in deleted
            || AltersAmong(Run(b, Adds(added)), changed, |changed|, id)
  {
    ChangedIff(Run(b, Adds(added)), changed, |changed|, id);
    assert changed[..|changed|] == changed;
  }

  ghost predicate OnlyMarks(changed: seq<EmailItem>, id: string) {
    forall it :: it in changed && it.serverID == id ==> ShowsNothing(it)
  }

  lemma {:induction false} MarksAlterNothing(b: Box, changed: seq<EmailItem>, id: string)
    requires id != "" && id in b.store && b.store[id].serverID == id && Flagged(b.store[id])
    requires OnlyMarks(changed, id)
    ensures id !in ChangedIDs(b, changed)
    ensures var after := Run(b, Changes(changed));
      id in after.store && after.store[id].serverID == id && Flagged(after.store[id])
    decreases |changed|
  {
    if changed != [] {
      var init, it := changed[..|changed| - 1], changed[|changed| - 1];
      assert changed == init + [it];
      assert OnlyMarks(init, id) by {
        forall x | x in init && x.serverID == id ensures ShowsNothing(x) { assert x in changed; }
      }
      MarksAlterNothing(b, init, id);
      if it.serverID == id {
        assert it in changed;
        MarksAlterIff(Run(b, Changes(init)).store[id], it);
      }
    }
  }

  /** Marking messages read or flagged throws no rendering away. */
  lemma {:induction false} MarksKeepRenderings(b: Box, added: seq<EmailItem>, changed: seq<EmailItem>,
          deleted: seq<string>, id: string)
    requires Proper(b) && id != "" && id in b.store && Flagged(b.store[id]) && OnlyMarks(changed, id)
    ensures id in Invalidated(b, added, changed, deleted) <==> id in IDs(added) || id in deleted
  {
    if id !in IDs(added) {
      AddsTouch(b, added, id);
      MarksAlterNothing(Run(b, Adds(added)), changed, id);
    }
  }
}
