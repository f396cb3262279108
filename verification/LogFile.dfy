/** events.jsonl as a sequence of characters: one line per entry, written by append,
    read back line by line with undecodable lines skipped. */
module LogFile {
  import opened Ids
  import opened Text
  import opened EventLog
  import Calendar

  /** The JSON encoding of a line, as far as the log relies on it. */
  datatype Codec = Codec(encode: Entry -> string, decode: string -> Option<Entry>)

  const NEWLINE := '\n'

  /** Encodings hold no newline, decode to what was encoded, and no proper prefix of
      one decodes to anything. */
  ghost predicate Faithful(codec: Codec) {
    forall e ::
      && NEWLINE !in codec.encode(e) && !Blank(codec.encode(e))
      && codec.decode(codec.encode(e)) == Some(e)
      && forall k :: 0 <= k < |codec.encode(e)| ==> codec.decode(codec.encode(e)[..k]) == None
  }

  predicate Blank(line: string) {
    forall c :: c in line ==> c == ' ' || c == '\t' || c == '\r' || c == NEWLINE
  }

  /** bytes.Split on newlines; the last line is unterminated. */
  function Lines(data: string): (ls: seq<string>)
    ensures |ls| > 0
  {
    Split(data, NEWLINE)
  }

  function ReadLine(codec: Codec, line: string): seq<Entry> {
    if Blank(line) then [] else match codec.decode(line) case Some(e) => [e] case None => []
  }

  function ReadLines(codec: Codec, ls: seq<string>): seq<Entry>
    decreases |ls|
  {
    if ls == [] then [] else ReadLines(codec, ls[..|ls| - 1]) + ReadLine(codec, ls[|ls| - 1])
  }

  /** The entries replayEventLogLocked finds in the file. */
  function Read(codec: Codec, data: string): seq<Entry> { ReadLines(codec, Lines(data)) }

  /** The text after the last newline. */
  function Tail(data: string): string { var ls := Lines(data); ls[|ls| - 1] }

  /** The entries of the complete lines. */
  function ReadComplete(codec: Codec, data: string): seq<Entry> {
    var ls := Lines(data); ReadLines(codec, ls[..|ls| - 1])
  }

  function Line(codec: Codec, e: Entry): string { codec.encode(e) + [NEWLINE] }

  /** An unterminated piece of text is read together with the tail it lands on. */
  lemma {:induction false} ReadAfterText(codec: Codec, data: string, text: string)
    requires NEWLINE !in text
    ensures Read(codec, data + text) == ReadComplete(codec, data) + ReadLine(codec, Tail(data) + text)
  {
    SplitText(data, text, NEWLINE);
    assert Lines(data + text)[..|Lines(data + text)| - 1] == Lines(data)[..|Lines(data)| - 1];
  }

  lemma {:induction false} ReadAfterLine(codec: Codec, data: string, text: string)
    requires NEWLINE !in text
    ensures Read(codec, data + text + [NEWLINE]) == ReadComplete(codec, data) + ReadLine(codec, Tail(data) + text)
    ensures Tail(data + text + [NEWLINE]) == ""
  {
    var all := data + text + [NEWLINE];
    SplitSeparator(data + text, NEWLINE);
    var ls := Lines(data + text);
    assert Lines(all) == ls + [""];
    assert (ls + [""])[..|ls|] == ls;
    assert Read(codec, all) == Read(codec, data + text) + ReadLine(codec, "");
    ReadAfterText(codec, data, text);
  }

  lemma {:induction false} CompleteFile(codec: Codec, data: string)
    requires Tail(data) == ""
    ensures ReadComplete(codec, data) == Read(codec, data)
  {
    assert ReadLine(codec, Tail(data)) == [];
  }

  /** A crash during an append keeps the whole line or none of it: every entry written
      before is still read, and the new one is read exactly when all its text is there. */
  lemma {:induction false} TornAppendIsAllOrNothing(codec: Codec, data: string, e: Entry, k: nat)
    requires Faithful(codec) && Tail(data) == "" && k <= |Line(codec, e)|
    ensures Read(codec, data + Line(codec, e)[..k]) ==
            Read(codec, data) + if k < |codec.encode(e)| then [] else [e]
  {
    CompleteFile(codec, data);
    var text := codec.encode(e);
    if k <= |text| {
      assert Line(codec, e)[..k] == text[..k];
      assert "" + text[..k] == text[..k];
      if k == |text| { assert text[..k] == text; }
      ReadAfterText(codec, data, text[..k]);
    } else {
      assert data + Line(codec, e)[..k] == data + text + [NEWLINE];
      assert "" + text == text;
      ReadAfterLine(codec, data, text);
    }
  }

  /** The same as states on disk: a restart sees the cache before or after the batch. */
  lemma {:induction false} TornAppendRestores(codec: Codec, data: string, e: Entry, k: nat, snapshot: Calendar.Cal)
    requires Faithful(codec) && Tail(data) == "" && k <= |Line(codec, e)|
    ensures var was := Replay(snapshot, Read(codec, data));
      Replay(snapshot, Read(codec, data + Line(codec, e)[..k])) ==
        if k < |codec.encode(e)| then was else ApplyEdits(was, EntryEdits(e))
  {
    TornAppendIsAllOrNothing(codec, data, e, k);
    if k < |codec.encode(e)| {
      assert Read(codec, data) + [] == Read(codec, data);
    } else {
      var log := Read(codec, data) + [e];
      assert log[..|log| - 1] == Read(codec, data);
    }
  }

  /** JSON skips white space in front of an object, and does not decode one with any
      other text in front. */
  ghost predicate JoinsOnlyBlanks(codec: Codec) {
    forall tail: string, e ::
      codec.decode(tail + codec.encode(e)) == if Blank(tail) then Some(e) else None
  }

  lemma {:induction false} JoinedLine(codec: Codec, tail: string, e: Entry)
    requires Faithful(codec) && JoinsOnlyBlanks(codec)
    ensures ReadLine(codec, tail + codec.encode(e)) == if Blank(tail) then [e] else []
  {
    var text := codec.encode(e);
    assert !Blank(tail + text) by {
      var c :| c in text && !(c == ' ' || c == '\t' || c == '\r' || c == NEWLINE);
      assert c in tail + text;
    }
  }

  /** Later appends do not start a new line.  An appended entry is read, after everything
      that was, exactly when the file ended in a complete line or in white space; otherwise
      it is lost together with whatever the torn line still held. */
  lemma {:induction false} AppendIsReadIffTailIsBlank(codec: Codec, data: string, e: Entry)
    requires Faithful(codec) && JoinsOnlyBlanks(codec)
    ensures Read(codec, data + Line(codec, e)) ==
            if Blank(Tail(data)) then Read(codec, data) + [e] else ReadComplete(codec, data)
    ensures Read(codec, data + Line(codec, e)) == Read(codec, data) + [e] <==> Blank(Tail(data))
  {
    assert data + Line(codec, e) == data + codec.encode(e) + [NEWLINE];
    ReadAfterLine(codec, data, codec.encode(e));
    JoinedLine(codec, Tail(data), e);
    assert Read(codec, data) == ReadComplete(codec, data) + ReadLine(codec, Tail(data));
    assert ReadComplete(codec, data) + [] == ReadComplete(codec, data);
  }
}
