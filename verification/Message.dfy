/** From a mail item to the bytes of its message: what is fetched for it, the tree that is
    built, and when a message that has been rendered before is still right. */
module Message {
  import opened Ids
  import opened Mail
  import opened MailMerge
  import opened Base64
  import opened Mime

  const PLAIN := 1
  const HTML := 2

  /** The library calls that turn texts into header values and bodies. */
  datatype Format = Format(
    address: string -> seq<Byte>,
    word: string -> seq<Byte>,
    date: Time -> seq<Byte>,
    sanitize: seq<Byte> -> seq<Byte>,
    messageID: string -> seq<Byte>,
    quoted: string -> seq<Byte>,
    textType: bool -> seq<Byte>,
    partType: Attachment -> seq<Byte>,
    disposition: (Attachment, bool) -> seq<Byte>,
    contentID: string -> seq<Byte>,
    contentLocation: string -> seq<Byte>,
    boundary: (string, string) -> seq<Byte>,
    multipartType: (string, seq<Byte>, seq<Byte>) -> seq<Byte>,
    inlined: (string, Attachment) -> bool)

  // ---------- the tree ----------

  function TextEntity(f: Format, html: bool, body: string): Entity {
    Entity(f.textType(html), "quoted-printable", [], [], [], f.quoted(body), None, [], [])
  }

  function AttachmentEntity(f: Format, a: Attachment, index: nat, inline: bool): Entity {
    Entity(f.partType(a), "base64", f.disposition(a, inline), f.contentID(a.contentID),
           f.contentLocation(a.contentLocation), [], Some(Part(index, a.estimatedDataSize, None)), [], [])
  }

  function Multipart(f: Format, kind: string, seed: string, rootType: seq<Byte>, children: seq<Entity>): Entity {
    var boundary := f.boundary(seed, kind);
    Entity(f.multipartType(kind, boundary, rootType), [], [], [], [], [], None, boundary, children)
  }

  /** The entities of the first n attachments that are, or are not, shown inside the body. */
  function AttachmentEntities(f: Format, item: EmailItem, inline: bool, n: nat): seq<Entity>
    requires n <= |item.attachments|
  {
    if n == 0 then []
    else
      var a := item.attachments[n - 1];
      AttachmentEntities(f, item, inline, n - 1)
      + if f.inlined(item.body, a) == inline then [AttachmentEntity(f, a, n - 1, inline)] else []
  }

  function Texts(f: Format, item: EmailItem, plainBody: string, seed: string): Entity {
    var html := item.bodyType == HTML;
    var shown := TextEntity(f, html, if item.body == "" then "(no body)" else item.body);
    if html && plainBody != "" then
      Multipart(f, "alternative", seed, [], [TextEntity(f, false, plainBody), shown])
    else shown
  }

  function Around(f: Format, kind: string, seed: string, content: Entity, rootType: seq<Byte>,
          more: seq<Entity>): Entity
  {
    if more == [] then content else Multipart(f, kind, seed, rootType, [content] + more)
  }

  /** buildMIMEEntity. */
  function Build(f: Format, item: EmailItem, plainBody: string, seed: string): Entity {
    var texts := Texts(f, item, plainBody, seed);
    var related := Around(f, "related", seed, texts, texts.contentType,
                          AttachmentEntities(f, item, true, |item.attachments|));
    Around(f, "mixed", seed, related, [], AttachmentEntities(f, item, false, |item.attachments|))
  }

  /** The same with the loop that sorts the attachments into two lists. */
  method BuildMIMEEntity(f: Format, item: EmailItem, plainBody: string, seed: string) returns (content: Entity)
    ensures content == Build(f, item, plainBody, seed)
  {
    content := Texts(f, item, plainBody, seed);
    var inline: seq<Entity>, regular: seq<Entity> := [], [];
    for i := 0 to |item.attachments|
      invariant inline == AttachmentEntities(f, item, true, i)
      invariant regular == AttachmentEntities(f, item, false, i)
    {
      var a := item.attachments[i];
      if f.inlined(item.body, a) {
        inline := inline + [AttachmentEntity(f, a, i, true)];
      } else {
        regular := regular + [AttachmentEntity(f, a, i, false)];
      }
    }
    if |inline| > 0 {
      content := Multipart(f, "related", seed, content.contentType, [content] + inline);
    }
    if |regular| > 0 {
      content := Multipart(f, "mixed", seed, [], [content] + regular);
    }
  }

  // ---------- every attachment is written once ----------

  lemma {:induction false} AllIndicesConcat(a: seq<Entity>, b: seq<Entity>)
    ensures AllIndices(a + b) == AllIndices(a) + AllIndices(b)
    ensures AllPayloads(a + b) == AllPayloads(a) + AllPayloads(b)
    ensures AllTidy(a + b) <==> AllTidy(a) && AllTidy(b)
    decreases |a|
  {
    if a == [] {
      assert a + b == b;
    } else {
      assert (a + b)[1..] == a[1..] + b;
      AllIndicesConcat(a[1..], b);
    }
  }

  lemma {:induction false} OneAttachment(f: Format, a: Attachment, index: nat, inline: bool)
    ensures var es := [AttachmentEntity(f, a, index, inline)];
      AllIndices(es) == {index} && AllPayloads(es) == [Part(index, a.estimatedDataSize, None)] && AllTidy(es)
  {
    var e := AttachmentEntity(f, a, index, inline);
    assert [e][1..] == [];
    assert AllIndices([]) == {} && AllTidy([]);
    assert Indices(e) == {index} && Tidy(e);
  }

  /** The attachments among the first n that go on one side. */
  function Side(f: Format, item: EmailItem, inline: bool, n: nat): set<nat>
    requires n <= |item.attachments|
  {
    if n == 0 then {}
    else Side(f, item, inline, n - 1) + if f.inlined(item.body, item.attachments[n - 1]) == inline then {n - 1} else {}
  }

  lemma {:induction false} SidesTogether(f: Format, item: EmailItem, n: nat)
    requires n <= |item.attachments|
    ensures Side(f, item, true, n) + Side(f, item, false, n) == UpTo(n)
  {
    if n > 0 { SidesTogether(f, item, n - 1); }
  }

  predicate Declared(item: EmailItem, ps: seq<Part>) {
    forall p :: p in ps ==> p.index < |item.attachments| && p.size == item.attachments[p.index].estimatedDataSize
  }

  lemma {:induction false} OneMoreEntity(f: Format, item: EmailItem, es: seq<Entity>, i: nat, inline: bool)
    requires i < |item.attachments| && AllTidy(es) && Declared(item, AllPayloads(es)) && |AllPayloads(es)| == |es|
    ensures var more := es + [AttachmentEntity(f, item.attachments[i], i, inline)];
      && AllIndices(more) == AllIndices(es) + {i} && AllTidy(more)
      && Declared(item, AllPayloads(more)) && |AllPayloads(more)| == |more|
  {
    var one := [AttachmentEntity(f, item.attachments[i], i, inline)];
    AllIndicesConcat(es, one);
    OneAttachment(f, item.attachments[i], i, inline);
  }

  lemma {:induction false} SideEntities(f: Format, item: EmailItem, inline: bool, n: nat)
    requires n <= |item.attachments|
    ensures var es := AttachmentEntities(f, item, inline, n);
      && AllIndices(es) == Side(f, item, inline, n) && AllTidy(es)
      && Declared(item, AllPayloads(es)) && |AllPayloads(es)| == |es|
  {
    if n > 0 {
      SideEntities(f, item, inline, n - 1);
      var before, a := AttachmentEntities(f, item, inline, n - 1), item.attachments[n - 1];
      if f.inlined(item.body, a) == inline {
        OneMoreEntity(f, item, before, n - 1, inline);
      } else {
        assert before + [] == before;
      }
    }
  }

  lemma {:induction false} SidesCount(f: Format, item: EmailItem, n: nat)
    requires n <= |item.attachments|
    ensures |AttachmentEntities(f, item, true, n)| + |AttachmentEntities(f, item, false, n)| == n
  {
    if n > 0 { SidesCount(f, item, n - 1); }
  }

  lemma {:induction false} AroundHolds(f: Format, kind: string, seed: string, content: Entity, rootType: seq<Byte>,
          more: seq<Entity>)
    requires Tidy(content) && AllTidy(more)
    ensures var e := Around(f, kind, seed, content, rootType, more);
      && Tidy(e) && Indices(e) == Indices(content) + AllIndices(more)
      && Payloads(e) == Payloads(content) + AllPayloads(more)
  {
    AllIndicesConcat([content], more);
    assert [content][1..] == [] && AllIndices([]) == {} && AllPayloads([]) == [];
    assert AllIndices([content]) == Indices(content) && AllPayloads([content]) == Payloads(content);
  }

  lemma {:induction false} TextsHaveNoAttachment(f: Format, item: EmailItem, plainBody: string, seed: string)
    ensures var e := Texts(f, item, plainBody, seed);
      Tidy(e) && Indices(e) == {} && Payloads(e) == []
  {
    var shown := TextEntity(f, item.bodyType == HTML, if item.body == "" then "(no body)" else item.body);
    var plain := TextEntity(f, false, plainBody);
    assert AllIndices([]) == {} && AllPayloads([]) == [] && AllTidy([]);
    assert Indices(shown) == {} && Indices(plain) == {};
    assert [plain, shown][1..] == [shown] && [shown][1..] == [];
    assert AllIndices([shown]) == {} && AllPayloads([shown]) == [] && AllTidy([shown]);
    assert AllIndices([plain, shown]) == {} && AllPayloads([plain, shown]) == [];
  }

  /** The tree of a message holds every attachment exactly once, with its declared size:
      there are as many payloads as attachments, and every index occurs. */
  lemma {:induction false} BuiltHoldsEveryAttachment(f: Format, item: EmailItem, plainBody: string, seed: string)
    ensures var root, n := Build(f, item, plainBody, seed), |item.attachments|;
      && Tidy(root) && Indices(root) == UpTo(n)
      && |Payloads(root)| == n && Declared(item, Payloads(root))
  {
    var texts, n := Texts(f, item, plainBody, seed), |item.attachments|;
    var inline, regular := AttachmentEntities(f, item, true, n), AttachmentEntities(f, item, false, n);
    TextsHaveNoAttachment(f, item, plainBody, seed);
    SideEntities(f, item, true, n);
    SideEntities(f, item, false, n);
    SidesTogether(f, item, n);
    SidesCount(f, item, n);
    AroundHolds(f, "related", seed, texts, texts.contentType, inline);
    AroundHolds(f, "mixed", seed, Around(f, "related", seed, texts, texts.contentType, inline), [], regular);
  }

  // ---------- the message ----------

  function MessageHeader(f: Format, name: seq<Byte>, value: seq<Byte>): seq<Byte> {
    if value == [] then [] else name + ": " + f.sanitize(value) + CRLF
  }

  /** The header of the message, as writeRFC822 writes it. */
  function MessageHead(f: Format, item: EmailItem, seed: string): seq<Byte> {
    HeadBeforeDate(f, item) + DateHeader(f, item.dateReceived) + HeadAfterDate(f, seed)
  }

  function DateHeader(f: Format, t: Time): seq<Byte> {
    if t.instant == 0 then [] else MessageHeader(f, "Date", f.date(t))
  }

  function HeadBeforeDate(f: Format, item: EmailItem): seq<Byte> {
    MessageHeader(f, "From", f.address(item.from_)) + MessageHeader(f, "To", f.address(item.to_))
    + MessageHeader(f, "Cc", f.address(item.cc)) + MessageHeader(f, "Reply-To", f.address(item.replyTo))
    + MessageHeader(f, "Subject", f.word(item.subject))
  }

  function HeadAfterDate(f: Format, seed: string): seq<Byte> {
    (if seed == "" then [] else MessageHeader(f, "Message-ID", f.messageID(seed))) +
      MessageHeader(f, "MIME-Version", "1.0")
  }

  function RFC822(f: Format, item: EmailItem, plainBody: string, seed: string, o: Options): Option<seq<Byte>> {
    Then(Some(MessageHead(f, item, seed)), Render(Build(f, item, plainBody, seed), o))
  }

  function Full(f: Format, item: EmailItem, plainBody: string, seed: string,
          content: nat -> Option<seq<Byte>>): Option<seq<Byte>>
  {
    RFC822(f, item, plainBody, seed, Options(UpTo(|item.attachments|), false, content))
  }

  function UnknownSizes(item: EmailItem): set<nat> {
    set i: nat | 0 <= i < |item.attachments| && item.attachments[i].estimatedDataSize <= 0
  }

  /** estimatedMIME: an unknown size is looked up, and counts as empty if there is no data. */
  function Estimated(f: Format, item: EmailItem, plainBody: string, seed: string,
          resolve: nat -> Option<seq<Byte>>): Option<seq<Byte>>
  {
    RFC822(f, item, plainBody, seed, Options(UnknownSizes(item), true, resolve))
  }

  /** Declared sizes fit the data, and data of unknown size can be downloaded. */
  predicate SizesFit(item: EmailItem, content: nat -> Option<seq<Byte>>) {
    forall i: nat :: i < |item.attachments| ==>
      && content(i).Some?
      && var size := item.attachments[i].estimatedDataSize;
         size > 0 ==> (size + 2) / 3 == (|content(i).value| + 2) / 3
  }

  /** RFC822.SIZE without downloading anything is the size of the message that a full
      FETCH then returns. */
  lemma {:induction false} EstimatedSizeIsExact(f: Format, item: EmailItem, plainBody: string, seed: string,
                                                content: nat -> Option<seq<Byte>>)
    requires SizesFit(item, content)
    ensures var estimate, full := Estimated(f, item, plainBody, seed, content), Full(f, item, plainBody, seed, content);
      estimate.Some? && full.Some? && |estimate.value| == |full.value|
  {
    var root, unknown := Build(f, item, plainBody, seed), UnknownSizes(item);
    BuiltHoldsEveryAttachment(f, item, plainBody, seed);
    forall p | p in Payloads(root) ensures Accurate(p, unknown, content, content) {
      assert p.index < |item.attachments| && content(p.index).Some?;
      assert p.index in unknown <==> p.size <= 0;
    }
    EstimateIsExact(root, unknown, content, content);
  }

  // ---------- what a message depends on ----------

  /** Equal for rendering, and the date is written in the same zone. */
  predicate SameMessage(a: EmailItem, b: EmailItem) {
    MIMEContentEqual(a, b) && (a.dateReceived.instant == 0 || a.dateReceived == b.dateReceived)
  }

  lemma {:induction false} AttachmentEntitiesAgree(f: Format, a: EmailItem, b: EmailItem, inline: bool, n: nat)
    requires a.attachments == b.attachments && a.body == b.body && n <= |a.attachments|
    ensures AttachmentEntities(f, a, inline, n) == AttachmentEntities(f, b, inline, n)
  {
    if n > 0 { AttachmentEntitiesAgree(f, a, b, inline, n - 1); }
  }

  lemma {:induction false} SameTree(f: Format, a: EmailItem, b: EmailItem, plainBody: string, seed: string)
    requires MIMEContentEqual(a, b)
    ensures Build(f, a, plainBody, seed) == Build(f, b, plainBody, seed)
  {
    AttachmentEntitiesAgree(f, a, b, true, |a.attachments|);
    AttachmentEntitiesAgree(f, a, b, false, |a.attachments|);
  }

  /** Items that are equal for rendering give the same bytes, under every rendering. */
  lemma {:induction false} EqualContentSameBytes(f: Format, a: EmailItem, b: EmailItem, plainBody: string,
          seed: string, o: Options)
    requires SameMessage(a, b)
    ensures RFC822(f, a, plainBody, seed, o) == RFC822(f, b, plainBody, seed, o)
  {
    SameTree(f, a, b, plainBody, seed);
    assert HeadBeforeDate(f, a) == HeadBeforeDate(f, b);
  }

  lemma {:induction false} Cancel(p: seq<Byte>, x: seq<Byte>, y: seq<Byte>, s: seq<Byte>)
    requires p + x + s == p + y + s
    ensures x == y
  {
    assert |x| == |y|;
    assert (p + x + s)[|p|..|p| + |x|] == x;
    assert (p + y + s)[|p|..|p| + |y|] == y;
  }

  /** The comparison looks at instants, but the zone is printed too: two items it calls
      equal give the same message exactly if their dates are printed the same. */
  lemma {:induction false} SameBytesIffSameDate(f: Format, a: EmailItem, b: EmailItem, plainBody: string,
          seed: string, o: Options)
    requires MIMEContentEqual(a, b) && RFC822(f, a, plainBody, seed, o).Some?
    ensures RFC822(f, a, plainBody, seed, o) == RFC822(f, b, plainBody, seed, o)
      <==> DateHeader(f, a.dateReceived) == DateHeader(f, b.dateReceived)
  {
    SameTree(f, a, b, plainBody, seed);
    var body := Render(Build(f, a, plainBody, seed), o).value;
    var p, s := HeadBeforeDate(f, a), HeadAfterDate(f, seed) + body;
    var x, y := DateHeader(f, a.dateReceived), DateHeader(f, b.dateReceived);
    Grouped(p, x, HeadAfterDate(f, seed), body);
    Grouped(p, y, HeadAfterDate(f, seed), body);
    SameHeadBeforeDate(f, a, b);
    if p + x + s == p + y + s { Cancel(p, x, y, s); }
  }

  lemma {:induction false} SameHeadBeforeDate(f: Format, a: EmailItem, b: EmailItem)
    requires MIMEContentEqual(a, b)
    ensures HeadBeforeDate(f, a) == HeadBeforeDate(f, b)
  {
  }

  lemma {:induction false} Grouped(p: seq<Byte>, d: seq<Byte>, s: seq<Byte>, body: seq<Byte>)
    ensures (p + d + s) + body == p + d + (s + body)
  {
  }

  // ---------- fetching what a message is made of ----------

  datatype Source = Source(item: EmailItem, plainBody: string, rawMIME: seq<int>, complete: bool)

  /** The summary with the HTML reply merged in, and whether its body is all there. */
  function WithHTML(summary: EmailItem, html: Option<EmailItem>): (EmailItem, bool) {
    match html
    case None => (summary, false)
    case Some(reply) =>
      (MergeEmailItem(summary, reply), !(reply.body == "" && summary.body != "") && !reply.bodyTruncated)
  }

  predicate NeedsPlain(item: EmailItem) { item.bodyType == HTML || item.body == "" || item.bodyTruncated }

  function WithPlain(item: EmailItem, reply: EmailItem): EmailItem {
    var merged := MergeEmailMetadata(item, reply);
    if merged.body == "" && reply.body != ""
    then merged.(body := reply.body, bodyType := PLAIN, bodyTruncated := reply.bodyTruncated)
    else merged
  }

  predicate AttachmentsKnown(item: EmailItem) { item.hasAttachments ==> item.attachments != [] }

  /** fetchMessageSource; each reply is missing if the request failed or brought nothing. */
  function FetchSource(valid: seq<int> -> bool, summary: EmailItem, raw: Option<EmailItem>,
                       html: Option<EmailItem>, plain: Option<EmailItem>): Source
  {
    if raw.Some? && valid(raw.value.bodyMIME) then
      Source(MergeEmailItem(summary, raw.value), "", raw.value.bodyMIME, true)
    else
      var (item, whole) := WithHTML(summary, html);
      if !NeedsPlain(item) then Source(item, "", [], whole && AttachmentsKnown(item))
      else if plain.None? then Source(item, "", [], false)
      else
        var reply, full := plain.value, WithPlain(item, plain.value);
        Source(full, if reply.bodyType == PLAIN then reply.body else "", [],
               whole && !reply.bodyTruncated && AttachmentsKnown(full))
  }

  /** A message that may be cached shows no body the server cut short, and knows the
      attachments it announces. */
  lemma {:induction false} CompleteSourcesAreWhole(valid: seq<int> -> bool, summary: EmailItem, raw: Option<EmailItem>,
                                                   html: Option<EmailItem>, plain: Option<EmailItem>)
    ensures var s := FetchSource(valid, summary, raw, html, plain);
      s.complete && s.rawMIME == [] && !(raw.Some? && valid(raw.value.bodyMIME)) ==>
        (s.item.body != "" ==> !s.item.bodyTruncated) && AttachmentsKnown(s.item)
  {
  }

  lemma {:induction false} MetadataKeepsSameMessage(a: EmailItem, b: EmailItem, reply: EmailItem)
    requires SameMessage(a, b)
    ensures SameMessage(MergeEmailMetadata(a, reply), MergeEmailMetadata(b, reply))
  {
  }

  lemma {:induction false} MergeKeepsSameMessage(a: EmailItem, b: EmailItem, reply: EmailItem)
    requires SameMessage(a, b)
    ensures SameMessage(MergeEmailItem(a, reply), MergeEmailItem(b, reply))
  {
    MetadataKeepsSameMessage(a, b, reply);
  }

  lemma {:induction false} PlainKeepsSameMessage(a: EmailItem, b: EmailItem, reply: EmailItem)
    requires SameMessage(a, b)
    ensures SameMessage(WithPlain(a, reply), WithPlain(b, reply))
  {
    MetadataKeepsSameMessage(a, b, reply);
  }

  /** Summaries that are equal for rendering lead to the same message from the same replies:
      nothing the fetch looks at is missing from the comparison. */
  lemma {:induction false} SameSummarySameSource(valid: seq<int> -> bool, a: EmailItem, b: EmailItem,
          raw: Option<EmailItem>, html: Option<EmailItem>, plain: Option<EmailItem>)
    requires SameMessage(a, b)
    ensures var s, t := FetchSource(valid, a, raw, html, plain), FetchSource(valid, b, raw, html, plain);
      SameMessage(s.item, t.item) && s.plainBody == t.plainBody && s.rawMIME == t.rawMIME && s.complete == t.complete
  {
    if raw.Some? && valid(raw.value.bodyMIME) {
      MergeKeepsSameMessage(a, b, raw.value);
    } else {
      SameAfterHTML(a, b, html);
      if plain.Some? { PlainKeepsSameMessage(WithHTML(a, html).0, WithHTML(b, html).0, plain.value); }
    }
  }

  lemma {:induction false} SameAfterHTML(a: EmailItem, b: EmailItem, html: Option<EmailItem>)
    requires SameMessage(a, b)
    ensures SameMessage(WithHTML(a, html).0, WithHTML(b, html).0)
    ensures WithHTML(a, html).1 == WithHTML(b, html).1
    ensures NeedsPlain(WithHTML(a, html).0) == NeedsPlain(WithHTML(b, html).0)
    ensures AttachmentsKnown(WithHTML(a, html).0) == AttachmentsKnown(WithHTML(b, html).0)
  {
    if html.Some? { MergeKeepsSameMessage(a, b, html.value); }
  }

  /** After a mail merge, every message that was not invalidated still has the bytes it had,
      provided its date is written in the same zone. */
  lemma {:induction false} UninvalidatedMessageIsUnchanged(
      f: Format, valid: seq<int> -> bool, b: Box, added: seq<EmailItem>, changed: seq<EmailItem>, deleted: seq<string>,
      id: string, raw: Option<EmailItem>, html: Option<EmailItem>, plain: Option<EmailItem>, o: Options)
    requires Proper(b) && id != "" && id in b.store && id !in Invalidated(b, added, changed, deleted)
    requires var b' := Run(b, Ops(added, changed, deleted));
      id in b'.store ==> b.store[id].dateReceived.zone == b'.store[id].dateReceived.zone
    ensures var b' := Run(b, Ops(added, changed, deleted));
      id in b'.store &&
      var s, t := FetchSource(valid, b.store[id], raw, html, plain), FetchSource(valid, b'.store[id], raw, html, plain);
      s.rawMIME == t.rawMIME && RFC822(f, s.item, s.plainBody, id, o) == RFC822(f, t.item, t.plainBody, id, o)
  {
    InvalidationCoversEveryChange(b, added, changed, deleted, id);
    var b' := Run(b, Ops(added, changed, deleted));
    SameSummarySameSource(valid, b.store[id], b'.store[id], raw, html, plain);
    var s, t := FetchSource(valid, b.store[id], raw, html, plain), FetchSource(valid, b'.store[id], raw, html, plain);
    EqualContentSameBytes(f, s.item, t.item, s.plainBody, id, o);
  }
}
