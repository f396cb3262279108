/** Reading the message of a mail item again: which field of the item stands where. */
module MessageReading {
  import opened Ids
  import opened Mail
  import opened Base64
  import opened Mime
  import opened MimeReading
  import opened Message

  // ---------- the header of the message ----------

  function Sanitized(f: Format, name: seq<Byte>, value: seq<Byte>): seq<Field> {
    if value == [] then [] else [(name, f.sanitize(value))]
  }

  function AddressFields(f: Format, item: EmailItem): seq<Field> {
    Sanitized(f, "From", f.address(item.from_)) + Sanitized(f, "To", f.address(item.to_))
    + Sanitized(f, "Cc", f.address(item.cc)) + Sanitized(f, "Reply-To", f.address(item.replyTo))
    + Sanitized(f, "Subject", f.word(item.subject))
  }

  function DateField(f: Format, item: EmailItem): seq<Field> {
    Sanitized(f, "Date", if item.dateReceived.instant == 0 then [] else f.date(item.dateReceived))
  }

  function ClosingFields(f: Format, seed: string): seq<Field> {
    Sanitized(f, "Message-ID", if seed == "" then [] else f.messageID(seed)) + Sanitized(f, "MIME-Version", "1.0")
  }

  /** The fields of the message before those of its content. */
  function MessageFields(f: Format, item: EmailItem, seed: string): seq<Field> {
    AddressFields(f, item) + DateField(f, item) + ClosingFields(f, seed)
  }

  lemma {:induction false} SanitizedLine(f: Format, name: seq<Byte>, value: seq<Byte>)
    ensures FieldLines(Sanitized(f, name, value)) == MessageHeader(f, name, value)
  {
    if value != [] { OneFieldLine((name, f.sanitize(value))); }
  }

  lemma {:induction false} AddressLines(f: Format, item: EmailItem)
    ensures FieldLines(AddressFields(f, item)) == HeadBeforeDate(f, item)
  {
    SanitizedLine(f, "From", f.address(item.from_));
    SanitizedLine(f, "To", f.address(item.to_));
    SanitizedLine(f, "Cc", f.address(item.cc));
    SanitizedLine(f, "Reply-To", f.address(item.replyTo));
    SanitizedLine(f, "Subject", f.word(item.subject));
    FiveLines(Sanitized(f, "From", f.address(item.from_)), Sanitized(f, "To", f.address(item.to_)),
              Sanitized(f, "Cc", f.address(item.cc)), Sanitized(f, "Reply-To", f.address(item.replyTo)),
              Sanitized(f, "Subject", f.word(item.subject)));
  }

  lemma {:induction false} ClosingLines(f: Format, seed: string)
    ensures FieldLines(ClosingFields(f, seed)) == HeadAfterDate(f, seed)
  {
    var id: seq<Byte> := if seed == "" then [] else f.messageID(seed);
    SanitizedLine(f, "Message-ID", id);
    SanitizedLine(f, "MIME-Version", "1.0");
    FieldLinesConcat(Sanitized(f, "Message-ID", id), Sanitized(f, "MIME-Version", "1.0"));
  }

  lemma {:induction false} HeadIsMessageFields(f: Format, item: EmailItem, seed: string)
    ensures MessageHead(f, item, seed) == FieldLines(MessageFields(f, item, seed))
  {
    AddressLines(f, item);
    SanitizedLine(f, "Date", if item.dateReceived.instant == 0 then [] else f.date(item.dateReceived));
    ClosingLines(f, seed);
    FieldLinesConcat(AddressFields(f, item) + DateField(f, item), ClosingFields(f, seed));
    FieldLinesConcat(AddressFields(f, item), DateField(f, item));
  }

  ghost predicate NoBreaks(f: Format) { forall value :: OneLine(f.sanitize(value)) }

  lemma {:induction false} SanitizedIsProper(f: Format, name: seq<Byte>, value: seq<Byte>)
    requires NoBreaks(f) && Name(name)
    ensures Proper(Sanitized(f, name, value))
  {
  }

  lemma {:induction false} MessageNames()
    ensures Name("From") && Name("To") && Name("Cc") && Name("Reply-To")
    ensures Name("Subject") && Name("Date") && Name("Message-ID") && Name("MIME-Version")
  {
  }

  lemma {:induction false} ProperFive(a: seq<Field>, b: seq<Field>, c: seq<Field>, d: seq<Field>, e: seq<Field>)
    requires Proper(a) && Proper(b) && Proper(c) && Proper(d) && Proper(e)
    ensures Proper(a + b + c + d + e)
  {
    ProperConcat(a, b);
    ProperConcat(a + b, c);
    ProperConcat(a + b + c, d);
    ProperConcat(a + b + c + d, e);
  }

  lemma {:induction false} AddressFieldsAreProper(f: Format, item: EmailItem)
    requires NoBreaks(f)
    ensures Proper(AddressFields(f, item))
  {
    MessageNames();
    SanitizedIsProper(f, "From", f.address(item.from_));
    SanitizedIsProper(f, "To", f.address(item.to_));
    SanitizedIsProper(f, "Cc", f.address(item.cc));
    SanitizedIsProper(f, "Reply-To", f.address(item.replyTo));
    SanitizedIsProper(f, "Subject", f.word(item.subject));
    ProperFive(Sanitized(f, "From", f.address(item.from_)), Sanitized(f, "To", f.address(item.to_)),
               Sanitized(f, "Cc", f.address(item.cc)), Sanitized(f, "Reply-To", f.address(item.replyTo)),
               Sanitized(f, "Subject", f.word(item.subject)));
  }

  lemma {:induction false} ClosingFieldsAreProper(f: Format, seed: string)
    requires NoBreaks(f)
    ensures Proper(ClosingFields(f, seed))
  {
    var id: seq<Byte> := if seed == "" then [] else f.messageID(seed);
    MessageNames();
    SanitizedIsProper(f, "Message-ID", id);
    SanitizedIsProper(f, "MIME-Version", "1.0");
    ProperConcat(Sanitized(f, "Message-ID", id), Sanitized(f, "MIME-Version", "1.0"));
  }

  lemma {:induction false} MessageFieldsAreProper(f: Format, item: EmailItem, seed: string)
    requires NoBreaks(f)
    ensures Proper(MessageFields(f, item, seed))
  {
    AddressFieldsAreProper(f, item);
    MessageNames();
    SanitizedIsProper(f, "Date", if item.dateReceived.instant == 0 then [] else f.date(item.dateReceived));
    ClosingFieldsAreProper(f, seed);
    ProperConcat(AddressFields(f, item), DateField(f, item));
    ProperConcat(AddressFields(f, item) + DateField(f, item), ClosingFields(f, seed));
  }

  lemma {:induction false} RenderBegins(e: Entity, o: Options) returns (rest: seq<Byte>)
    requires Render(e, o).Some?
    ensures Render(e, o).value == Head(e) + rest
  {
    if e.children != [] {
      rest := RenderParts(e.children, e.boundary, o).value + Closing(e.boundary);
    } else if e.attachment.Some? {
      rest := Payload(e.attachment.value, o).value;
    } else {
      rest := e.body + CRLF;
      assert Head(e) + e.body + CRLF == Head(e) + (e.body + CRLF);
    }
  }

  /** A written message reads as the fields of its item, then those of its content, and behind
      the empty line as its content does. */
  lemma {:induction false} MessageReads(f: Format, item: EmailItem, plainBody: string, seed: string, o: Options)
    requires NoBreaks(f) && RFC822(f, item, plainBody, seed, o).Some?
    requires Unbroken(Build(f, item, plainBody, seed))
    ensures var root := Build(f, item, plainBody, seed);
      var read := ReadFields(RFC822(f, item, plainBody, seed, o).value);
      && read.Some? && read.value.0 == MessageFields(f, item, seed) + FieldsOf(root)
      && ReadFields(Render(root, o).value) == Some((FieldsOf(root), read.value.1))
  {
    var root, fields := Build(f, item, plainBody, seed), MessageFields(f, item, seed);
    var rest := RenderBegins(root, o);
    HeadIsMessageFields(f, item, seed);
    HeadIsFields(root);
    MessageFieldsAreProper(f, item, seed);
    FieldsAreProper(root);
    ProperConcat(fields, FieldsOf(root));
    FieldsRead(fields + FieldsOf(root), rest);
    FieldLinesConcat(fields, FieldsOf(root));
    Associates(FieldLines(fields), FieldLines(FieldsOf(root)), "\r\n", rest);
    HeadReads(root, rest);
  }

  // ---------- what the leaves are, in order ----------

  function Leaves(e: Entity): seq<Entity>
    decreases e
  {
    if e.children == [] then [e] else AllLeaves(e.children)
  }

  function AllLeaves(es: seq<Entity>): seq<Entity>
    decreases es
  {
    if es == [] then [] else Leaves(es[0]) + AllLeaves(es[1..])
  }

  /** A leaf that is text of the message. */
  predicate IsText(f: Format, e: Entity, html: bool, text: string) {
    && e.contentType == f.textType(html) && e.transferEncoding == "quoted-printable" && e.body == f.quoted(text)
    && e.attachment == None && e.children == [] && e.disposition == [] && e.contentID == [] && e.contentLocation == []
  }

  /** A leaf that is an attachment of the item, shown inside the body or not. */
  predicate IsAttachment(f: Format, item: EmailItem, e: Entity, i: nat, inline: bool) {
    && i < |item.attachments|
    && var a := item.attachments[i];
       && e.attachment == Some(Part(i, a.estimatedDataSize, None)) && e.children == []
       && e.contentType == f.partType(a) && e.transferEncoding == "base64"
       && e.disposition == f.disposition(a, inline) && e.contentID == f.contentID(a.contentID)
       && e.contentLocation == f.contentLocation(a.contentLocation)
       && f.inlined(item.body, a) == inline
  }

  /** Attachments on one side, in the order of the item. */
  ghost predicate InOrder(f: Format, item: EmailItem, es: seq<Entity>, inline: bool, n: nat) {
    && (forall k :: 0 <= k < |es| ==>
          es[k].attachment.Some? && es[k].attachment.value.index < n
          && IsAttachment(f, item, es[k], es[k].attachment.value.index, inline))
    && (forall j, k :: 0 <= j < k < |es| ==>
          es[j].attachment.Some? && es[k].attachment.Some?
          && es[j].attachment.value.index < es[k].attachment.value.index)
  }

  lemma {:induction false} AttachmentsInOrder(f: Format, item: EmailItem, inline: bool, n: nat)
    requires n <= |item.attachments|
    ensures InOrder(f, item, AttachmentEntities(f, item, inline, n), inline, n)
    decreases n
  {
    if n > 0 { AttachmentsInOrder(f, item, inline, n - 1); }
  }

  lemma {:induction false} AllLeavesConcat(a: seq<Entity>, b: seq<Entity>)
    ensures AllLeaves(a + b) == AllLeaves(a) + AllLeaves(b)
    decreases |a|
  {
    if a == [] {
      assert a + b == b;
    } else {
      assert (a + b)[1..] == a[1..] + b;
      AllLeavesConcat(a[1..], b);
    }
  }

  lemma {:induction false} LeavesOfLeaves(es: seq<Entity>)
    requires forall e :: e in es ==> e.children == []
    ensures AllLeaves(es) == es
    decreases |es|
  {
    if es != [] {
      assert es[0] in es;
      forall e | e in es[1..] ensures e in es {}
      LeavesOfLeaves(es[1..]);
    }
  }

  lemma {:induction false} LeavesAround(f: Format, kind: string, seed: string, content: Entity, rootType: seq<Byte>,
                                        more: seq<Entity>)
    requires forall e :: e in more ==> e.children == []
    ensures Leaves(Around(f, kind, seed, content, rootType, more)) == Leaves(content) + more
  {
    LeavesOfLeaves(more);
    AllLeavesConcat([content], more);
    assert [content][1..] == [] && AllLeaves([content]) == Leaves(content) + AllLeaves([]);
    assert AllLeaves([]) == [] && Leaves(content) + [] == Leaves(content);
  }

  /** The text of the item, in front of it the plain text if the item is HTML and there is
      one, behind it the attachments shown inside the body, and then the others; each side in
      the order of the item, and none left out. */
  lemma {:induction false} LeavesInOrder(f: Format, item: EmailItem, plainBody: string, seed: string)
    ensures var leaves, html := Leaves(Build(f, item, plainBody, seed)), item.bodyType == HTML;
      var inline, regular := AttachmentEntities(f, item, true, |item.attachments|),
                             AttachmentEntities(f, item, false, |item.attachments|);
      var texts := if html && plainBody != "" then 2 else 1;
      && |leaves| == texts + |item.attachments|
      && leaves[texts..] == inline + regular
      && InOrder(f, item, inline, true, |item.attachments|) && InOrder(f, item, regular, false, |item.attachments|)
      && IsText(f, leaves[texts - 1], html, if item.body == "" then "(no body)" else item.body)
      && (texts == 2 ==> IsText(f, leaves[0], false, plainBody))
  {
    var n, front := |item.attachments|, Leaves(Texts(f, item, plainBody, seed));
    AttachmentsInOrder(f, item, true, n);
    AttachmentsInOrder(f, item, false, n);
    SidesCount(f, item, n);
    LeavesOfBuild(f, item, plainBody, seed, n);
    TextLeaves(f, item, plainBody, seed);
    FrontAndRest(front, AttachmentEntities(f, item, true, n) + AttachmentEntities(f, item, false, n));
  }

  lemma {:induction false} FrontAndRest(front: seq<Entity>, rest: seq<Entity>)
    ensures (front + rest)[|front|..] == rest && forall i :: 0 <= i < |front| ==> (front + rest)[i] == front[i]
  {
  }

  lemma {:induction false} LeavesOfBuild(f: Format, item: EmailItem, plainBody: string, seed: string, n: nat)
    requires n == |item.attachments|
    ensures Leaves(Build(f, item, plainBody, seed)) == Leaves(Texts(f, item, plainBody, seed))
            + (AttachmentEntities(f, item, true, n) + AttachmentEntities(f, item, false, n))
  {
    var texts := Texts(f, item, plainBody, seed);
    var inline, regular := AttachmentEntities(f, item, true, n), AttachmentEntities(f, item, false, n);
    AttachmentsInOrder(f, item, true, n);
    AttachmentsInOrder(f, item, false, n);
    LeafEntities(f, item, inline, true, n);
    LeafEntities(f, item, regular, false, n);
    LeavesAroundTwice(f, seed, texts, inline, regular);
  }

  lemma {:induction false} LeavesAroundTwice(f: Format, seed: string, texts: Entity, inline: seq<Entity>,
                                             regular: seq<Entity>)
    requires forall e :: e in inline + regular ==> e.children == []
    ensures Leaves(Around(f, "mixed", seed, Around(f, "related", seed, texts, texts.contentType, inline), [], regular))
            == Leaves(texts) + (inline + regular)
  {
    forall e | e in inline ensures e in inline + regular {}
    forall e | e in regular ensures e in inline + regular {}
    LeavesAround(f, "related", seed, texts, texts.contentType, inline);
    LeavesAround(f, "mixed", seed, Around(f, "related", seed, texts, texts.contentType, inline), [], regular);
    assert Leaves(texts) + inline + regular == Leaves(texts) + (inline + regular);
  }

  lemma {:induction false} LeafEntities(f: Format, item: EmailItem, es: seq<Entity>, inline: bool, n: nat)
    requires InOrder(f, item, es, inline, n)
    ensures forall e :: e in es ==> e.children == []
  {
    forall e | e in es ensures e.children == [] {
      var k :| 0 <= k < |es| && es[k] == e;
      assert IsAttachment(f, item, es[k], es[k].attachment.value.index, inline);
    }
  }

  lemma {:induction false} TextLeaves(f: Format, item: EmailItem, plainBody: string, seed: string)
    ensures var leaves, html := Leaves(Texts(f, item, plainBody, seed)), item.bodyType == HTML;
      var texts := if html && plainBody != "" then 2 else 1;
      && |leaves| == texts
      && IsText(f, leaves[texts - 1], html, if item.body == "" then "(no body)" else item.body)
      && (texts == 2 ==> IsText(f, leaves[0], false, plainBody))
  {
    var shown := TextEntity(f, item.bodyType == HTML, if item.body == "" then "(no body)" else item.body);
    LeavesOfLeaves([TextEntity(f, false, plainBody), shown]);
  }

  /** The multiparts: mixed outside if there are other attachments, then related if there are
      some in the body, then alternative if there are two texts. */
  lemma {:induction false} KindsOfMultipart(f: Format, item: EmailItem, plainBody: string, seed: string)
    ensures var root := Build(f, item, plainBody, seed);
      var mixed := exists i :: 0 <= i < |item.attachments| && !f.inlined(item.body, item.attachments[i]);
      var related := exists i :: 0 <= i < |item.attachments| && f.inlined(item.body, item.attachments[i]);
      var inner := if mixed && root.children != [] then root.children[0] else root;
      && (mixed ==> root.children != [] && IsKind(f, root, "mixed", seed, []))
      && (related ==>
            inner.children != []
            && IsKind(f, inner, "related", seed, Texts(f, item, plainBody, seed).contentType)
            && inner.children[0] == Texts(f, item, plainBody, seed))
      && (!related ==> inner == Texts(f, item, plainBody, seed))
  {
    var n := |item.attachments|;
    SideHasEntities(f, item, true, n);
    SideHasEntities(f, item, false, n);
  }

  predicate IsKind(f: Format, e: Entity, kind: string, seed: string, rootType: seq<Byte>) {
    && e.boundary == f.boundary(seed, kind) && e.contentType == f.multipartType(kind, e.boundary, rootType)
    && e.transferEncoding == [] && e.disposition == [] && e.contentID == [] && e.contentLocation == []
  }

  lemma {:induction false} SideHasEntities(f: Format, item: EmailItem, inline: bool, n: nat)
    requires n <= |item.attachments|
    ensures AttachmentEntities(f, item, inline, n) != [] <==>
            exists i :: 0 <= i < n && f.inlined(item.body, item.attachments[i]) == inline
    decreases n
  {
    if n > 0 {
      SideHasEntities(f, item, inline, n - 1);
      if f.inlined(item.body, item.attachments[n - 1]) == inline {
        assert 0 <= n - 1 < n && f.inlined(item.body, item.attachments[n - 1]) == inline;
      }
    }
  }
}
