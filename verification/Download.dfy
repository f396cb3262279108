/** Downloading one attachment, in ranges if it is large. */
module Download {
  import opened Ids
  import opened Base64

  /** 4 MiB. */
  const CHUNK: nat := 4194304

  datatype Reply = Failed | Reply(range: string, data: seq<Byte>)

  /** How far a ranged download has come; the next request starts at |got|. */
  datatype Progress = Going(got: seq<Byte>) | Finished(data: seq<Byte>) | Broken

  /** The last byte the next request asks for. */
  function RangeEnd(size: int, start: nat): int { if start + CHUNK - 1 < size - 1 then start + CHUNK - 1 else size - 1 }

  function Next(size: int, p: Progress, reply: Reply): Progress {
    if !p.Going? then p
    else if reply.Failed? then Broken
    else if reply.range == "" then Finished(DecodeAttachmentData(reply.data, size))
    else if reply.data == [] then Broken
    else match DecodeChunk(reply.data)
      case None => Broken
      case Some(chunk) =>
        var got := p.got + chunk;
        if |got| < size then Going(got) else Finished(got)
  }

  /** The replies come one after the other; what is left unanswered is still going. */
  function Ranged(size: int, replies: seq<Reply>): Progress
    decreases |replies|
  {
    if replies == [] then Going([]) else Next(size, Ranged(size, replies[..|replies| - 1]), replies[|replies| - 1])
  }

  /** A ranged reply holds a non-empty prefix of the range that was asked for. */
  predicate Honest(content: seq<Byte>, size: int, start: nat, reply: Reply)
    requires start < size <= |content|
  {
    && reply.Reply? && reply.range != ""
    && DecodeChunk(reply.data).Some?
    && var chunk := DecodeChunk(reply.data).value;
       chunk != [] && chunk <= content[start..RangeEnd(size, start) + 1]
  }

  predicate HonestRun(content: seq<Byte>, size: int, replies: seq<Reply>)
    requires size <= |content|
    decreases |replies|
  {
    replies == [] ||
    var before := replies[..|replies| - 1];
    && HonestRun(content, size, before)
    && (Ranged(size, before).Going? && |Ranged(size, before).got| < size ==>
          Honest(content, size, |Ranged(size, before).got|, replies[|replies| - 1]))
  }

  lemma {:induction false} HonestReply(content: seq<Byte>, size: int, start: nat, reply: Reply)
    requires start < size <= |content| && Honest(content, size, start, reply)
    ensures var next := Next(size, Going(content[..start]), reply);
      && (next.Going? ==> start < |next.got| < size && next.got == content[..|next.got|])
      && (next.Finished? ==> next.data == content[..size])
      && !next.Broken?
  {
    var chunk := DecodeChunk(reply.data).value;
    var end := start + |chunk|;
    assert Compact([]) == "";
    assert content[start..RangeEnd(size, start) + 1][..|chunk|] == content[start..end];
    assert content[..start] + chunk == content[..end];
  }

  /** Every byte arrives exactly once, in order; the download cannot break, has a new byte
      after every reply, and so is over after at most one reply a byte. */
  lemma {:induction false} RangedReturnsTheContent(content: seq<Byte>, size: int, replies: seq<Reply>)
    requires 0 < size <= |content| && HonestRun(content, size, replies)
    ensures var p := Ranged(size, replies);
      && (p.Going? ==> |replies| <= |p.got| < size && p.got == content[..|p.got|])
      && (p.Finished? ==> p.data == content[..size])
      && !p.Broken?
    ensures |replies| >= size ==> Ranged(size, replies) == Finished(content[..size])
    decreases |replies|
  {
    if replies != [] {
      var before := replies[..|replies| - 1];
      RangedReturnsTheContent(content, size, before);
      var p := Ranged(size, before);
      if p.Going? { HonestReply(content, size, |p.got|, replies[|replies| - 1]); }
    }
  }

  lemma {:induction false} OnlyNothingDecodesToNothing(text: string)
    ensures Decode(text) == Some([]) <==> text == ""
  {
  }

  /** A reply leaves the download where it was exactly if it has data that is all white
      space: that is not refused as empty, but no byte comes of it. */
  lemma {:induction false} StallsIffOnlyWhiteSpace(size: int, got: seq<Byte>, reply: Reply)
    requires |got| < size
    ensures Next(size, Going(got), reply) == Going(got) <==>
            reply.Reply? && reply.range != "" && reply.data != [] && Compact(reply.data) == ""
  {
    if reply.Reply? {
      OnlyNothingDecodesToNothing(Compact(reply.data));
      if DecodeChunk(reply.data).Some? {
        var chunk := DecodeChunk(reply.data).value;
        assert |got + chunk| == |got| + |chunk|;
        if chunk == [] { assert got + chunk == got; }
      }
    }
  }

  /** A server that only sends blank ranged replies keeps the loop going for ever. */
  lemma {:induction false} BlankRepliesNeverFinish(size: int, blank: Reply, n: nat)
    requires size > 0 && blank.Reply? && blank.range != "" && blank.data != [] && Compact(blank.data) == ""
    ensures Ranged(size, seq(n, _ => blank)) == Going([])
    decreases n
  {
    if n > 0 {
      var replies := seq(n, _ => blank);
      assert replies[..n - 1] == seq(n - 1, _ => blank);
      BlankRepliesNeverFinish(size, blank, n - 1);
      StallsIffOnlyWhiteSpace(size, [], blank);
    }
  }

  /** Each request starts where the bytes received so far end. */
  predicate AsksInOrder(size: int, replies: seq<Reply>, asked: seq<(int, int)>) {
    |asked| <= |replies| && forall i :: 0 <= i < |asked| ==> Continues(size, replies[..i], asked[i])
  }

  predicate Continues(size: int, answered: seq<Reply>, ask: (int, int)) {
    var p := Ranged(size, answered);
    p.Going? && ask == (|p.got|, RangeEnd(size, |p.got|))
  }

  lemma {:induction false} AsksNext(size: int, replies: seq<Reply>, asked: seq<(int, int)>, buf: seq<Byte>)
    requires AsksInOrder(size, replies, asked) && |asked| < |replies|
    requires Ranged(size, replies[..|asked|]) == Going(buf)
    ensures AsksInOrder(size, replies, asked + [(|buf|, RangeEnd(size, |buf|))])
  {
    var ask := (|buf|, RangeEnd(size, |buf|));
    assert Continues(size, replies[..|asked|], ask);
    forall i | 0 <= i < |asked| + 1 ensures Continues(size, replies[..i], (asked + [ask])[i]) {}
  }

  lemma {:induction false} RangedStep(size: int, replies: seq<Reply>, i: nat)
    requires i < |replies|
    ensures Ranged(size, replies[..i + 1]) == Next(size, Ranged(size, replies[..i]), replies[i])
  {
    assert replies[..i + 1][..i] == replies[..i];
  }

  /** The body of the download loop after a request. */
  method Receive(size: int, buf: seq<Byte>, reply: Reply) returns (p: Progress)
    ensures p == Next(size, Going(buf), reply)
  {
    if reply.Failed? { return Broken; }
    if reply.range == "" { return Finished(DecodeAttachmentData(reply.data, size)); }
    if |reply.data| == 0 { return Broken; }
    var chunk, _ := DecodeBase64Chunk(reply.data);
    if chunk.None? { return Broken; }
    var got := buf + chunk.value;
    p := if |got| < size then Going(got) else Finished(got);
  }

  /** downloadAttachment, against the replies the server gives one after the other, with
      the ranges it asks for. */
  method DownloadAttachment(size: int, replies: seq<Reply>) returns (p: Progress, asked: seq<(int, int)>)
    ensures size > CHUNK ==> p == Ranged(size, replies)
    ensures size <= CHUNK && replies != [] ==>
            p == if replies[0].Failed? then Broken else Finished(DecodeAttachmentData(replies[0].data, size))
    ensures size <= CHUNK && replies == [] ==> p == Going([])
    ensures size <= CHUNK ==> asked == if replies == [] then [] else [(0, 0)]
    ensures size > CHUNK ==> AsksInOrder(size, replies, asked)
  {
    if size <= CHUNK {
      if replies == [] { return Going([]), []; }
      if replies[0].Failed? { return Broken, [(0, 0)]; }
      return Finished(DecodeAttachmentData(replies[0].data, size)), [(0, 0)];
    }
    p, asked := Going([]), [];
    while p.Going? && |asked| < |replies|
      invariant |asked| <= |replies| && AsksInOrder(size, replies, asked)
      invariant p == Ranged(size, replies[..|asked|])
      decreases |replies| - |asked|
    {
      var start, i := |p.got|, |asked|;
      var end := if start + CHUNK - 1 < size - 1 then start + CHUNK - 1 else size - 1;
      AsksNext(size, replies, asked, p.got);
      RangedStep(size, replies, i);
      asked := asked + [(start, end)];
      p := Receive(size, p.got, replies[i]);
    }
    if p.Going? {
      assert replies[..|asked|] == replies;
    } else {
      Settled(size, replies, |asked|);
    }
  }

  /** Once it is over, later replies do not matter. */
  lemma {:induction false} Settled(size: int, replies: seq<Reply>, i: nat)
    requires i <= |replies| && !Ranged(size, replies[..i]).Going?
    ensures Ranged(size, replies) == Ranged(size, replies[..i])
    decreases |replies|
  {
    if i == |replies| {
      assert replies[..i] == replies;
    } else {
      var before := replies[..|replies| - 1];
      assert before[..i] == replies[..i];
      Settled(size, before, i);
    }
  }

  // ---------- the ranges asked for, and servers that ignore them ----------

  lemma {:induction false} GoingIsShort(size: int, replies: seq<Reply>)
    requires size > 0 && Ranged(size, replies).Going?
    ensures |Ranged(size, replies).got| < size
    decreases |replies|
  {
    if replies != [] && Ranged(size, replies[..|replies| - 1]).Going? { GoingIsShort(size, replies[..|replies| - 1]); }
  }

  /** Every request begins where the bytes received so far end, asks for 4 MiB at most and not
      beyond the declared size, and for as much as that allows. */
  lemma {:induction false} AsksForWholeChunks(size: int, replies: seq<Reply>, asked: seq<(int, int)>)
    requires size > 0 && AsksInOrder(size, replies, asked)
    ensures forall i :: 0 <= i < |asked| ==>
      var (start, end) := asked[i];
      && 0 <= start <= end < size && end - start + 1 <= 4194304
      && (end == size - 1 || end - start + 1 == 4194304)
      && Ranged(size, replies[..i]).Going? && start == |Ranged(size, replies[..i]).got|
  {
    forall i | 0 <= i < |asked| ensures
      var (start, end) := asked[i];
      && 0 <= start <= end < size && end - start + 1 <= 4194304
      && (end == size - 1 || end - start + 1 == 4194304)
      && Ranged(size, replies[..i]).Going? && start == |Ranged(size, replies[..i]).got|
    {
      assert Continues(size, replies[..i], asked[i]);
      GoingIsShort(size, replies[..i]);
    }
  }

  /** A server that ignores the range and sends the whole content: whether it comes encoded or
      as it is, and whatever was received before, the content is returned. */
  lemma {:induction false} IgnoredRangeReturnsTheContent(content: seq<Byte>, replies: seq<Reply>, data: seq<Byte>)
    requires content != [] && Ranged(|content|, replies).Going?
    requires data == Base64Lines(content) || data == content
    ensures Ranged(|content|, replies + [Reply("", data)]) == Finished(content)
  {
    var more := replies + [Reply("", data)];
    assert more[..|more| - 1] == replies;
    DeclaredSizeDecides(content);
  }

  /** The same for an attachment of up to 4 MiB, which is asked for as a whole. */
  lemma {:induction false} SmallAttachmentIsReturned(content: seq<Byte>, data: seq<Byte>)
    requires content != [] && (data == Base64Lines(content) || data == content)
    ensures DecodeAttachmentData(data, |content|) == content
  {
    DeclaredSizeDecides(content);
  }
}
