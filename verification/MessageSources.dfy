/** Which text a message is rebuilt from when the server's own MIME cannot be had, when the
    result may be cached, and which part of the tree a client's section number names. */
module MessageSources {
  import opened Ids
  import opened Base64
  import opened Mime
  import opened Mail
  import opened Message

  ghost predicate RawUsable(valid: seq<int> -> bool, raw: Option<EmailItem>) {
    raw.Some? && valid(raw.value.bodyMIME)
  }

  /** A usable MIME source is served as it came and may be cached, whatever else arrives. */
  lemma {:induction false} RawIsServed(valid: seq<int> -> bool, summary: EmailItem, raw: Option<EmailItem>,
          html: Option<EmailItem>, plain: Option<EmailItem>)
    ensures var s := FetchSource(valid, summary, raw, html, plain);
      if RawUsable(valid, raw) then s.rawMIME == raw.value.bodyMIME && s.complete && s.plainBody == ""
      else s.rawMIME == []
  {
  }

  function BodyOf(it: Option<EmailItem>): string { if it.Some? then it.value.body else "" }

  lemma {:induction false} WithoutPlain(summary: EmailItem, html: Option<EmailItem>)
    ensures var it := WithHTML(summary, html).0;
      if BodyOf(html) != "" then
        && it.body == BodyOf(html) && it.bodyTruncated == html.value.bodyTruncated
        && it.bodyType == if html.value.bodyType != 0 then html.value.bodyType else summary.bodyType
      else
        it.body == summary.body && it.bodyTruncated == summary.bodyTruncated && it.bodyType == summary.bodyType
  {
  }

  lemma {:induction false} PlainFillsIn(it: EmailItem, reply: EmailItem)
    ensures var full := WithPlain(it, reply);
      if it.body != "" || reply.body == "" then
        full.body == it.body && full.bodyType == it.bodyType && full.bodyTruncated == it.bodyTruncated
      else
        full.body == reply.body && full.bodyType == 1 && full.bodyTruncated == reply.bodyTruncated
  {
  }

  /** The first text there is of the HTML reply, the summary and the plain reply is shown. */
  lemma {:induction false} FirstBodyIsShown(valid: seq<int> -> bool, summary: EmailItem, raw: Option<EmailItem>,
          html: Option<EmailItem>, plain: Option<EmailItem>)
    requires !RawUsable(valid, raw)
    ensures var it := FetchSource(valid, summary, raw, html, plain).item;
      if BodyOf(html) != "" then
        && it.body == BodyOf(html) && it.bodyTruncated == html.value.bodyTruncated
        && it.bodyType == if html.value.bodyType != 0 then html.value.bodyType else summary.bodyType
      else if summary.body != "" then
        it.body == summary.body && it.bodyTruncated == summary.bodyTruncated && it.bodyType == summary.bodyType
      else
        && it.body == BodyOf(plain)
        && (BodyOf(plain) != "" ==> it.bodyType == 1 && it.bodyTruncated == plain.value.bodyTruncated)
  {
    WithoutPlain(summary, html);
    if plain.Some? { PlainFillsIn(WithHTML(summary, html).0, plain.value); }
  }

  /** The rebuilt message shows two versions of its text exactly if the shown one is HTML and
      the server also sent a plain one; the plain one comes first. */
  lemma {:induction false} TwoVersionsIff(f: Format, valid: seq<int> -> bool, summary: EmailItem,
          raw: Option<EmailItem>, html: Option<EmailItem>, plain: Option<EmailItem>, seed: string)
    requires !RawUsable(valid, raw)
    ensures var s := FetchSource(valid, summary, raw, html, plain);
      var texts := Texts(f, s.item, s.plainBody, seed);
      if s.item.bodyType == 2 && plain.Some? && plain.value.bodyType == 1 && plain.value.body != "" then
        |texts.children| == 2 && texts.children[0].body == f.quoted(plain.value.body)
        && texts.children[1].body == f.quoted(if s.item.body == "" then "(no body)" else s.item.body)
      else
        texts.children == [] && texts.body == f.quoted(if s.item.body == "" then "(no body)" else s.item.body)
  {
    FirstBodyIsShown(valid, summary, raw, html, plain);
  }

  /** The plain reply is asked for: the text so far is HTML, missing or cut short. */
  ghost predicate AsksForPlain(summary: EmailItem, html: Option<EmailItem>) {
    var it := WithHTML(summary, html).0;
    it.bodyType == 2 || it.body == "" || it.bodyTruncated
  }

  /** A rebuilt message may be cached exactly if every reply it asked for arrived whole, the
      HTML reply did not lose a body the summary has, and announced attachments are known. */
  lemma {:induction false} CachedIff(valid: seq<int> -> bool, summary: EmailItem, raw: Option<EmailItem>,
          html: Option<EmailItem>, plain: Option<EmailItem>)
    requires !RawUsable(valid, raw)
    ensures var s := FetchSource(valid, summary, raw, html, plain);
      s.complete <==>
        && html.Some? && !html.value.bodyTruncated && (html.value.body == "" ==> summary.body == "")
        && (AsksForPlain(summary, html) ==> plain.Some? && !plain.value.bodyTruncated)
        && (s.item.hasAttachments ==> s.item.attachments != [])
  {
  }

  // ---------- section numbers ----------

  function Part(e: Entity, k: int): Option<Entity> {
    if 1 <= k <= |e.children| then Some(e.children[k - 1]) else None
  }

  lemma {:induction false} WalkGrows(e: Entity, path: seq<int>, k: int)
    ensures Walk(e, path + [k]) == if Walk(e, path).Some? then Part(Walk(e, path).value, k) else None
    decreases |path|
  {
    if path == [] {
      assert [] + [k] == [k] && [k][1..] == [];
      if 1 <= k <= |e.children| { assert Walk(e.children[k - 1], []) == Some(e.children[k - 1]); }
    } else {
      assert (path + [k])[1..] == path[1..] + [k];
      if 0 < path[0] <= |e.children| { WalkGrows(e.children[path[0] - 1], path[1..], k); }
    }
  }

  /** Parts are numbered from one, level by level; a message without parts is its own part
      one, and has no other. */
  lemma {:induction false} SectionNumbers(root: Entity, path: seq<int>, k: int)
    ensures EntityAt(root, []) == Some(root)
    ensures root.children != [] ==>
              EntityAt(root, path + [k])
              == if EntityAt(root, path).Some? then Part(EntityAt(root, path).value, k) else None
    ensures root.children == [] ==>
              (EntityAt(root, [k]) == if k == 1 then Some(root) else None) && EntityAt(root, [1, k]) == None
  {
    WalkGrows(root, path, k);
    assert [k][1..] == [] && [1, k][1..] == [k];
  }
}
