/** Reading a rendered message again: its header fields, the parts between its delimiter
    lines, and the data of its attachments.  Nothing here knows how they were written. */
module MimeReading {
  import opened Ids
  import opened Base64
  import opened Mime

  // ---------- lines ----------

  /** The text up to the first line break, and what comes behind it. */
  function FirstLine(s: seq<Byte>): (r: Option<(seq<Byte>, seq<Byte>)>)
    ensures r.Some? ==> |r.value.1| < |s| && s == r.value.0 + "\r\n" + r.value.1
    decreases |s|
  {
    if |s| < 2 then None
    else if s[0] == '\r' && s[1] == '\n' then Some(([], s[2..]))
    else match FirstLine(s[1..]) case Some((line, rest)) => Some(([s[0]] + line, rest)) case None => None
  }

  predicate OneLine(s: seq<Byte>) { forall c :: c in s ==> c != '\r' && c != '\n' }

  lemma {:induction false} LineReads(line: seq<Byte>, rest: seq<Byte>)
    requires OneLine(line)
    ensures FirstLine(line + "\r\n" + rest) == Some((line, rest))
    decreases |line|
  {
    var s := line + "\r\n" + rest;
    if line == [] {
      assert s[2..] == rest;
    } else {
      assert line[0] in line;
      forall c | c in line[1..] ensures c in line {}
      LineReads(line[1..], rest);
      assert s[1..] == line[1..] + "\r\n" + rest;
      assert [line[0]] + line[1..] == line;
    }
  }

  lemma {:induction false} FirstLineStays(s: seq<Byte>, t: seq<Byte>)
    requires FirstLine(s).Some?
    ensures FirstLine(s + t) == Some((FirstLine(s).value.0, FirstLine(s).value.1 + t))
    decreases |s|
  {
    if s[0] == '\r' && s[1] == '\n' {
      assert (s + t)[2..] == s[2..] + t;
    } else {
      FirstLineStays(s[1..], t);
      assert (s + t)[1..] == s[1..] + t;
    }
  }

  /** Nothing but complete lines. */
  predicate Lines(s: seq<Byte>)
    decreases |s|
  {
    s == [] || (FirstLine(s).Some? && Lines(FirstLine(s).value.1))
  }

  predicate Ends(s: seq<Byte>) { |s| >= 2 && s[|s| - 2] == '\r' && s[|s| - 1] == '\n' }

  lemma {:induction false} EndHasLine(s: seq<Byte>)
    requires Ends(s)
    ensures FirstLine(s).Some?
    decreases |s|
  {
    if !(s[0] == '\r' && s[1] == '\n') { EndHasLine(s[1..]); }
  }

  lemma {:induction false} LastButOne(line: seq<Byte>, rest: seq<Byte>)
    requires |rest| == 1
    ensures var s := line + "\r\n" + rest; s[|s| - 2] == '\n'
  {
  }

  lemma {:induction false} EndedIsLines(s: seq<Byte>)
    requires Ends(s)
    ensures Lines(s)
    decreases |s|
  {
    EndHasLine(s);
    var (line, rest) := FirstLine(s).value;
    if rest != [] {
      assert s[|s| - 1] == rest[|rest| - 1];
      if |rest| == 1 {
        LastButOne(line, rest);
      } else {
        assert s[|s| - 2] == rest[|rest| - 2];
        EndedIsLines(rest);
      }
    }
  }

  // ---------- header fields ----------

  type Field = (seq<Byte>, seq<Byte>)

  /** The name before the first colon, which a space follows, and the value. */
  function CutField(line: seq<Byte>): Option<Field>
    decreases |line|
  {
    if |line| < 2 then None
    else if line[0] == ':' then (if line[1] == ' ' then Some(([], line[2..])) else None)
    else match CutField(line[1..]) case Some((name, value)) => Some(([line[0]] + name, value)) case None => None
  }

  /** The fields up to the first empty line, and what comes behind it. */
  function ReadFields(s: seq<Byte>): Option<(seq<Field>, seq<Byte>)>
    decreases |s|
  {
    match FirstLine(s)
    case None => None
    case Some((line, rest)) =>
      if line == [] then Some(([], rest))
      else
        match (CutField(line), ReadFields(rest))
        case (Some(field), Some((fields, body))) => Some(([field] + fields, body))
        case _ => None
  }

  /** The value of a field; nothing if it is not there. */
  function FieldIn(fields: seq<Field>, name: seq<Byte>): Option<seq<Byte>>
    decreases |fields|
  {
    if fields == [] then None else if fields[0].0 == name then Some(fields[0].1) else FieldIn(fields[1..], name)
  }

  predicate Name(s: seq<Byte>) { s != [] && OneLine(s) && ':' !in s }

  lemma {:induction false} FieldCuts(name: seq<Byte>, value: seq<Byte>)
    requires ':' !in name
    ensures CutField(name + ": " + value) == Some((name, value))
    decreases |name|
  {
    var line := name + ": " + value;
    if name == [] {
      assert line[2..] == value;
    } else {
      FieldCuts(name[1..], value);
      assert line[1..] == name[1..] + ": " + value;
      assert [name[0]] + name[1..] == name;
    }
  }

  function Optional(name: seq<Byte>, value: seq<Byte>): seq<Field> { if value == [] then [] else [(name, value)] }

  function FieldLine(f: Field): seq<Byte> { f.0 + ": " + f.1 + "\r\n" }

  function FieldLines(fields: seq<Field>): seq<Byte>
    decreases |fields|
  {
    if fields == [] then [] else FieldLine(fields[0]) + FieldLines(fields[1..])
  }

  predicate Proper(fields: seq<Field>) { forall f :: f in fields ==> Name(f.0) && OneLine(f.1) }

  lemma {:induction false} OneFieldReads(f: Field, rest: seq<Byte>)
    requires Name(f.0) && OneLine(f.1) && ReadFields(rest).Some?
    ensures ReadFields(FieldLine(f) + rest) == Some(([f] + ReadFields(rest).value.0, ReadFields(rest).value.1))
  {
    var line := f.0 + ": " + f.1;
    assert OneLine(line);
    LineReads(line, rest);
    assert FieldLine(f) + rest == line + "\r\n" + rest;
    FieldCuts(f.0, f.1);
  }

  lemma {:induction false} Associates(a: seq<Byte>, b: seq<Byte>, c: seq<Byte>, d: seq<Byte>)
    ensures (a + b) + c + d == a + (b + c + d)
  {
  }

  /** Lines of fields and an empty line read as these fields. */
  lemma {:induction false} FieldsRead(fields: seq<Field>, rest: seq<Byte>)
    requires Proper(fields)
    ensures ReadFields(FieldLines(fields) + "\r\n" + rest) == Some((fields, rest))
    decreases |fields|
  {
    if fields == [] {
      assert FieldLines(fields) + "\r\n" + rest == [] + "\r\n" + rest;
      LineReads([], rest);
    } else {
      forall f | f in fields[1..] ensures f in fields {}
      FieldsRead(fields[1..], rest);
      assert fields[0] in fields;
      OneFieldReads(fields[0], FieldLines(fields[1..]) + "\r\n" + rest);
      Associates(FieldLine(fields[0]), FieldLines(fields[1..]), "\r\n", rest);
      assert [fields[0]] + fields[1..] == fields;
    }
  }

  lemma {:induction false} FieldLinesConcat(a: seq<Field>, b: seq<Field>)
    ensures FieldLines(a + b) == FieldLines(a) + FieldLines(b)
    decreases |a|
  {
    if a == [] {
      assert a + b == b;
    } else {
      assert (a + b)[1..] == a[1..] + b;
      FieldLinesConcat(a[1..], b);
    }
  }

  // ---------- the header of an entity ----------

  /** The five fields an entity stands for, those without a value left out. */
  function FieldsOf(e: Entity): seq<Field> {
    [("Content-Type", e.contentType)]
    + Optional("Content-Transfer-Encoding", e.transferEncoding)
    + Optional("Content-Disposition", e.disposition)
    + (if e.contentID == [] then [] else [("Content-ID", "<" + e.contentID + ">")])
    + Optional("Content-Location", e.contentLocation)
  }

  predicate Unbroken(e: Entity) {
    && OneLine(e.contentType) && OneLine(e.transferEncoding) && OneLine(e.disposition)
    && OneLine(e.contentID) && OneLine(e.contentLocation)
  }

  lemma {:induction false} OneFieldLine(f: Field)
    ensures FieldLines([f]) == FieldLine(f)
  {
    assert [f][1..] == [];
    assert FieldLines([]) == [];
  }

  lemma {:induction false} OptionalLine(name: seq<Byte>, value: seq<Byte>)
    ensures FieldLines(Optional(name, value)) == Header(name, value)
  {
    if value != [] { OneFieldLine((name, value)); }
  }

  lemma {:induction false} FiveLines(a: seq<Field>, b: seq<Field>, c: seq<Field>, d: seq<Field>, l: seq<Field>)
    ensures FieldLines(a + b + c + d + l) ==
            FieldLines(a) + FieldLines(b) + FieldLines(c) + FieldLines(d) + FieldLines(l)
  {
    FieldLinesConcat(a + b + c + d, l);
    FieldLinesConcat(a + b + c, d);
    FieldLinesConcat(a + b, c);
    FieldLinesConcat(a, b);
  }

  lemma {:induction false} ContentIDLine(id: seq<Byte>)
    ensures FieldLines(if id == [] then [] else [("Content-ID", "<" + id + ">")]) == ContentID(id)
  {
    if id != [] {
      OneFieldLine(("Content-ID", "<" + id + ">"));
      assert "Content-ID" + ": " + ("<" + id + ">") + "\r\n" == "Content-ID: <" + id + ">" + CRLF;
    } else {
      assert FieldLines([]) == [];
    }
  }

  lemma {:induction false} TypeLine(value: seq<Byte>)
    ensures FieldLines([("Content-Type", value)]) == "Content-Type: " + value + CRLF
  {
    OneFieldLine(("Content-Type", value));
    assert "Content-Type" + ": " == "Content-Type: ";
  }

  lemma {:induction false} HeadIsFields(e: Entity)
    ensures Head(e) == FieldLines(FieldsOf(e)) + "\r\n"
  {
    TypeLine(e.contentType);
    OptionalLine("Content-Transfer-Encoding", e.transferEncoding);
    OptionalLine("Content-Disposition", e.disposition);
    ContentIDLine(e.contentID);
    OptionalLine("Content-Location", e.contentLocation);
    FiveLines([("Content-Type", e.contentType)], Optional("Content-Transfer-Encoding", e.transferEncoding),
              Optional("Content-Disposition", e.disposition),
              if e.contentID == [] then [] else [("Content-ID", "<" + e.contentID + ">")],
              Optional("Content-Location", e.contentLocation));
  }

  lemma {:induction false} EntityNames()
    ensures Name("Content-Type") && Name("Content-Transfer-Encoding") && Name("Content-Disposition")
    ensures Name("Content-ID") && Name("Content-Location")
  {
  }

  lemma {:induction false} ProperConcat(a: seq<Field>, b: seq<Field>)
    requires Proper(a) && Proper(b)
    ensures Proper(a + b)
  {
  }

  lemma {:induction false} OptionalIsProper(name: seq<Byte>, value: seq<Byte>)
    requires Name(name) && OneLine(value)
    ensures Proper(Optional(name, value)) && Proper([(name, value)])
  {
  }

  lemma {:induction false} FieldsAreProper(e: Entity)
    requires Unbroken(e)
    ensures Proper(FieldsOf(e))
  {
    var a: seq<Field>, b, c := [("Content-Type", e.contentType)],
      Optional("Content-Transfer-Encoding", e.transferEncoding), Optional("Content-Disposition", e.disposition);
    var d: seq<Field> := if e.contentID == [] then [] else [("Content-ID", "<" + e.contentID + ">")];
    var l := Optional("Content-Location", e.contentLocation);
    EntityNames();
    assert OneLine("<" + e.contentID + ">");
    OptionalIsProper("Content-Type", e.contentType);
    OptionalIsProper("Content-Transfer-Encoding", e.transferEncoding);
    OptionalIsProper("Content-Disposition", e.disposition);
    OptionalIsProper("Content-ID", "<" + e.contentID + ">");
    OptionalIsProper("Content-Location", e.contentLocation);
    ProperConcat(a, b);
    ProperConcat(a + b, c);
    ProperConcat(a + b + c, d);
    ProperConcat(a + b + c + d, l);
  }

  /** Whatever comes behind it, the header of an entity reads as its fields. */
  lemma {:induction false} HeadReads(e: Entity, rest: seq<Byte>)
    requires Unbroken(e)
    ensures ReadFields(Head(e) + rest) == Some((FieldsOf(e), rest))
  {
    HeadIsFields(e);
    FieldsAreProper(e);
    FieldsRead(FieldsOf(e), rest);
    assert Head(e) + rest == FieldLines(FieldsOf(e)) + "\r\n" + rest;
  }

  // ---------- the parts between delimiter lines ----------

  function Done(part: Option<seq<Byte>>): seq<seq<Byte>> { if part.Some? then [part.value] else [] }

  /** The texts between the lines "--boundary", up to the line "--boundary--", and what comes
      behind that.  `part` is the text read since the last delimiter. */
  function ReadParts(s: seq<Byte>, boundary: seq<Byte>, part: Option<seq<Byte>>): Option<(seq<seq<Byte>>, seq<Byte>)>
    decreases |s|
  {
    match FirstLine(s)
    case None => None
    case Some((line, rest)) =>
      if line == "--" + boundary + "--" then Some((Done(part), rest))
      else if line == "--" + boundary then
        match ReadParts(rest, boundary, Some([]))
        case Some((parts, behind)) => Some((Done(part) + parts, behind))
        case None => None
      else ReadParts(rest, boundary, if part.Some? then Some(part.value + line + "\r\n") else None)
  }

  /** None of the lines is a delimiter. */
  predicate Clear(s: seq<Byte>, boundary: seq<Byte>)
    decreases |s|
  {
    match FirstLine(s)
    case None => true
    case Some((line, rest)) => line != "--" + boundary && line != "--" + boundary + "--" && Clear(rest, boundary)
  }

  lemma {:induction false} TextReads(s: seq<Byte>, rest: seq<Byte>, boundary: seq<Byte>, part: seq<Byte>)
    requires Lines(s) && Clear(s, boundary)
    ensures ReadParts(s + rest, boundary, Some(part)) == ReadParts(rest, boundary, Some(part + s))
    decreases |s|
  {
    if s == [] {
      assert s + rest == rest && part + s == part;
    } else {
      var (line, more) := FirstLine(s).value;
      FirstLineStays(s, rest);
      PlainLineReads(s + rest, line, more + rest, boundary, part);
      TextReads(more, rest, boundary, part + line + "\r\n");
      LineAdds(part, line, more);
    }
  }

  lemma {:induction false} PlainLineReads(s: seq<Byte>, line: seq<Byte>, rest: seq<Byte>, boundary: seq<Byte>,
                                          part: seq<Byte>)
    requires FirstLine(s) == Some((line, rest)) && line != "--" + boundary && line != "--" + boundary + "--"
    ensures ReadParts(s, boundary, Some(part)) == ReadParts(rest, boundary, Some(part + line + "\r\n"))
  {
  }

  lemma {:induction false} LineAdds(part: seq<Byte>, line: seq<Byte>, more: seq<Byte>)
    ensures part + line + "\r\n" + more == part + (line + "\r\n" + more)
  {
  }

  lemma {:induction false} DelimiterReads(rest: seq<Byte>, boundary: seq<Byte>, part: Option<seq<Byte>>)
    requires OneLine(boundary) && ReadParts(rest, boundary, Some([])).Some?
    ensures var (parts, behind) := ReadParts(rest, boundary, Some([])).value;
      ReadParts(Delimiter(boundary) + rest, boundary, part) == Some((Done(part) + parts, behind))
  {
    var line := "--" + boundary;
    assert |line + "--"| != |line|;
    LineReads(line, rest);
    assert Delimiter(boundary) + rest == line + "\r\n" + rest;
  }

  lemma {:induction false} ClosingReads(rest: seq<Byte>, boundary: seq<Byte>, part: Option<seq<Byte>>)
    requires OneLine(boundary)
    ensures ReadParts(Closing(boundary) + rest, boundary, part) == Some((Done(part), rest))
  {
    var line := "--" + boundary + "--";
    LineReads(line, rest);
    assert Closing(boundary) + rest == line + "\r\n" + rest;
  }

  // ---------- renderings are lines ----------

  lemma {:induction false} EndsAfter(a: seq<Byte>, b: seq<Byte>)
    requires Ends(b)
    ensures Ends(a + b)
  {
  }

  lemma {:induction false} WrappedEnds(text: seq<Byte>)
    requires text != []
    ensures Ends(Wrapped(text))
    decreases |text|
  {
    var n := if |text| < COLUMNS then |text| else COLUMNS;
    if text[n..] == [] {
      assert Wrapped(text[n..]) == [];
      EndsAfter(text[..n], CRLF);
    } else {
      WrappedEnds(text[n..]);
      EndsAfter(text[..n] + CRLF, Wrapped(text[n..]));
    }
  }

  lemma {:induction false} PayloadEnds(p: Part, o: Options)
    requires Payload(p, o).Some?
    ensures Ends(Payload(p, o).value)
  {
    if p.index in o.actual {
      var data := if p.data.Some? then p.data else o.resolve(p.index);
      if data.value != [] { WrappedEnds(Encode(data.value)); }
    } else if o.estimated && p.size > 0 {
      WrappedEnds(As((p.size + 2) / 3 * 4));
    }
  }

  lemma {:induction false} RenderEnds(e: Entity, o: Options)
    requires Render(e, o).Some?
    ensures Ends(Render(e, o).value)
  {
    if e.children != [] {
      var parts := RenderParts(e.children, e.boundary, o).value;
      EndsAfter("--" + e.boundary + "--", CRLF);
      EndsAfter(parts, Closing(e.boundary));
      EndsAfter(Head(e), parts + Closing(e.boundary));
    } else if e.attachment.Some? {
      PayloadEnds(e.attachment.value, o);
      EndsAfter(Head(e), Payload(e.attachment.value, o).value);
    } else {
      EndsAfter(Head(e) + e.body, CRLF);
    }
  }

  // ---------- reading a rendering ----------

  /** What each child is written as. */
  function Renderings(es: seq<Entity>, boundary: seq<Byte>, o: Options): seq<seq<Byte>>
    requires RenderParts(es, boundary, o).Some?
    decreases |es|
  {
    if es == [] then [] else [Render(es[0], o).value] + Renderings(es[1..], boundary, o)
  }

  lemma {:induction false} PartsReadBack(es: seq<Entity>, boundary: seq<Byte>, o: Options, rest: seq<Byte>,
                                         part: Option<seq<Byte>>)
    requires OneLine(boundary) && RenderParts(es, boundary, o).Some?
    requires forall r :: r in Renderings(es, boundary, o) ==> Clear(r, boundary)
    ensures ReadParts(RenderParts(es, boundary, o).value + Closing(boundary) + rest, boundary, part) ==
            Some((Done(part) + Renderings(es, boundary, o), rest))
    decreases |es|
  {
    if es == [] {
      ClosingReads(rest, boundary, part);
      assert [] + Closing(boundary) + rest == Closing(boundary) + rest;
      assert Done(part) + [] == Done(part);
    } else {
      var child, more := Render(es[0], o).value, RenderParts(es[1..], boundary, o).value;
      var tail := more + Closing(boundary) + rest;
      assert child in Renderings(es, boundary, o);
      forall r | r in Renderings(es[1..], boundary, o) ensures Clear(r, boundary) {
        assert r in Renderings(es, boundary, o);
      }
      RenderEnds(es[0], o);
      EndedIsLines(child);
      PartsReadBack(es[1..], boundary, o, rest, Some(child));
      TextReads(child, tail, boundary, []);
      assert [] + child == child;
      DelimiterReads(child + tail, boundary, part);
      OnePartMore(Delimiter(boundary), child, more, Closing(boundary), rest);
      assert Done(part) + ([child] + Renderings(es[1..], boundary, o)) == Done(part) + Renderings(es, boundary, o);
    }
  }

  lemma {:induction false} OnePartMore(d: seq<Byte>, c: seq<Byte>, m: seq<Byte>, z: seq<Byte>, rest: seq<Byte>)
    ensures ((d + c) + m) + z + rest == d + (c + (m + z + rest))
  {
  }

  /** A rendered entity with parts reads as its fields and the renderings of its parts, each
      byte for byte, if no line of a part looks like a delimiter. */
  lemma {:induction false} MultipartReads(e: Entity, o: Options)
    requires e.children != [] && Render(e, o).Some? && Unbroken(e) && OneLine(e.boundary)
    requires forall r :: r in Renderings(e.children, e.boundary, o) ==> Clear(r, e.boundary)
    ensures var read := ReadFields(Render(e, o).value);
      && read.Some? && read.value.0 == FieldsOf(e)
      && ReadParts(read.value.1, e.boundary, None) == Some((Renderings(e.children, e.boundary, o), []))
  {
    var body := RenderParts(e.children, e.boundary, o).value + Closing(e.boundary);
    HeadReads(e, body);
    PartsReadBack(e.children, e.boundary, o, [], None);
    assert body + [] == body;
    assert Done(None) + Renderings(e.children, e.boundary, o) == Renderings(e.children, e.boundary, o);
  }

  /** A rendered attachment reads as its fields and lines that decode to its data. */
  lemma {:induction false} AttachmentReads(e: Entity, o: Options, data: seq<Byte>)
    requires e.children == [] && e.attachment.Some? && Unbroken(e) && e.attachment.value.index in o.actual
    requires Some(data) == if e.attachment.value.data.Some? then e.attachment.value.data
                           else o.resolve(e.attachment.value.index)
    ensures var read := ReadFields(if Render(e, o).Some? then Render(e, o).value else []);
      read.Some? && read.value.0 == FieldsOf(e) && DecodeChunk(read.value.1) == Some(data)
  {
    HeadReads(e, Base64Lines(data));
    DecodeChunkInvertsLines(data);
  }

  /** A rendered text reads as its fields and the text, with the line break behind it. */
  lemma {:induction false} TextEntityReads(e: Entity, o: Options)
    requires e.children == [] && e.attachment.None? && Unbroken(e)
    ensures Render(e, o).Some? && ReadFields(Render(e, o).value) == Some((FieldsOf(e), e.body + "\r\n"))
  {
    HeadReads(e, e.body + "\r\n");
    assert Head(e) + e.body + CRLF == Head(e) + (e.body + "\r\n");
  }

  /** One that is neither written nor estimated reads as its fields and an empty line. */
  lemma {:induction false} SkippedAttachmentReads(e: Entity, o: Options)
    requires e.children == [] && e.attachment.Some? && Unbroken(e)
    requires e.attachment.value.index !in o.actual && !o.estimated
    ensures Render(e, o).Some? && ReadFields(Render(e, o).value) == Some((FieldsOf(e), "\r\n"))
  {
    HeadReads(e, "\r\n");
  }
}
