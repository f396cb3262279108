/** Trees of MIME entities and how they are written with real, estimated or no payloads.
    Header values and quoted-printable text are opaque bytes. */
module Mime {
  import opened Ids
  import opened Base64

  /** An attachment of the message; `data` is there if it has been downloaded already. */
  datatype Part = Part(index: nat, size: int, data: Option<seq<Byte>>)

  datatype Entity = Entity(
    contentType: seq<Byte>,
    transferEncoding: seq<Byte>,
    disposition: seq<Byte>,
    contentID: seq<Byte>,
    contentLocation: seq<Byte>,
    body: seq<Byte>,
    attachment: Option<Part>,
    boundary: seq<Byte>,
    children: seq<Entity>)

  /** mimeRenderOptions; resolve gives no data if the download fails. */
  datatype Options = Options(actual: set<nat>, estimated: bool, resolve: nat -> Option<seq<Byte>>)

  // ---------- writing ----------

  function Header(name: seq<Byte>, value: seq<Byte>): seq<Byte> {
    if value == [] then [] else name + ": " + value + CRLF
  }

  function ContentID(id: seq<Byte>): seq<Byte> { if id == [] then [] else "Content-ID: <" + id + ">" + CRLF }

  function Head(e: Entity): seq<Byte> {
    "Content-Type: " + e.contentType + CRLF
    + Header("Content-Transfer-Encoding", e.transferEncoding)
    + Header("Content-Disposition", e.disposition)
    + ContentID(e.contentID)
    + Header("Content-Location", e.contentLocation)
    + CRLF
  }

  function Payload(p: Part, o: Options): Option<seq<Byte>> {
    if p.index in o.actual then
      var data := if p.data.Some? then p.data else o.resolve(p.index);
      if data.Some? then Some(Base64Lines(data.value)) else None
    else if o.estimated then Some(PlaceholderLines(p.size))
    else Some(CRLF)
  }

  function Delimiter(boundary: seq<Byte>): seq<Byte> { "--" + boundary + CRLF }

  function Closing(boundary: seq<Byte>): seq<Byte> { "--" + boundary + "--" + CRLF }

  function Then(a: Option<seq<Byte>>, b: Option<seq<Byte>>): Option<seq<Byte>> {
    if a.Some? && b.Some? then Some(a.value + b.value) else None
  }

  /** mimeEntity.writeTo; nothing if a payload could not be had. */
  function Render(e: Entity, o: Options): Option<seq<Byte>>
    decreases e
  {
    if e.children != [] then
      Then(Some(Head(e)), Then(RenderParts(e.children, e.boundary, o), Some(Closing(e.boundary))))
    else if e.attachment.Some? then Then(Some(Head(e)), Payload(e.attachment.value, o))
    else Some(Head(e) + e.body + CRLF)
  }

  function RenderParts(es: seq<Entity>, boundary: seq<Byte>, o: Options): Option<seq<Byte>>
    decreases es
  {
    if es == [] then Some([])
    else Then(Then(Some(Delimiter(boundary)), Render(es[0], o)), RenderParts(es[1..], boundary, o))
  }

  // ---------- the attachments of a tree ----------

  /** The payloads that are written, in order. */
  function Payloads(e: Entity): seq<Part>
    decreases e
  {
    if e.children != [] then AllPayloads(e.children)
    else if e.attachment.Some? then [e.attachment.value]
    else []
  }

  function AllPayloads(es: seq<Entity>): seq<Part>
    decreases es
  {
    if es == [] then [] else Payloads(es[0]) + AllPayloads(es[1..])
  }

  /** allAttachmentIndices. */
  function Indices(e: Entity): set<nat>
    decreases e
  {
    (if e.attachment.Some? then {e.attachment.value.index} else {}) + AllIndices(e.children)
  }

  function AllIndices(es: seq<Entity>): set<nat>
    decreases es
  {
    if es == [] then {} else Indices(es[0]) + AllIndices(es[1..])
  }

  // ---------- length ----------

  /** What an entity takes without its payloads. */
  function Fixed(e: Entity): nat
    decreases e
  {
    |Head(e)| +
    if e.children != [] then AllFixed(e.children, e.boundary) + |Closing(e.boundary)|
    else if e.attachment.Some? then 0
    else |e.body| + |CRLF|
  }

  function AllFixed(es: seq<Entity>, boundary: seq<Byte>): nat
    decreases es
  {
    if es == [] then 0 else |Delimiter(boundary)| + Fixed(es[0]) + AllFixed(es[1..], boundary)
  }

  function LengthOr0(bytes: Option<seq<Byte>>): nat { match bytes case Some(b) => |b| case None => 0 }

  function PayloadLength(ps: seq<Part>, o: Options): nat
    decreases |ps|
  {
    if ps == [] then 0
    else LengthOr0(Payload(ps[0], o)) + PayloadLength(ps[1..], o)
  }

  predicate AllResolve(ps: seq<Part>, o: Options) { forall p :: p in ps ==> Payload(p, o).Some? }

  lemma {:induction false} PayloadLengthConcat(a: seq<Part>, b: seq<Part>, o: Options)
    ensures PayloadLength(a + b, o) == PayloadLength(a, o) + PayloadLength(b, o)
    decreases |a|
  {
    if a == [] {
      assert a + b == b;
    } else {
      assert (a + b)[1..] == a[1..] + b;
      PayloadLengthConcat(a[1..], b, o);
    }
  }

  lemma {:induction false} AllResolveConcat(a: seq<Part>, b: seq<Part>, o: Options)
    ensures AllResolve(a + b, o) <==> AllResolve(a, o) && AllResolve(b, o)
  {
    forall p | p in a ensures p in a + b {}
    forall p | p in b ensures p in a + b {}
  }

  /** A message can be written exactly if all its payloads can be had, and then takes a
      fixed number of bytes besides them. */
  lemma {:induction false} RenderedLength(e: Entity, o: Options)
    ensures Render(e, o).Some? <==> AllResolve(Payloads(e), o)
    ensures Render(e, o).Some? ==> |Render(e, o).value| == Fixed(e) + PayloadLength(Payloads(e), o)
    decreases e
  {
    if e.children != [] {
      RenderedLengths(e.children, e.boundary, o);
    } else if e.attachment.Some? {
      var p := e.attachment.value;
      assert [p][1..] == [];
      assert PayloadLength([p], o) == LengthOr0(Payload(p, o));
      assert AllResolve([p], o) <==> Payload(p, o).Some? by { assert p in [p]; }
    }
  }

  lemma {:induction false} RenderedLengths(es: seq<Entity>, boundary: seq<Byte>, o: Options)
    ensures RenderParts(es, boundary, o).Some? <==> AllResolve(AllPayloads(es), o)
    ensures RenderParts(es, boundary, o).Some? ==>
            |RenderParts(es, boundary, o).value| == AllFixed(es, boundary) + PayloadLength(AllPayloads(es), o)
    decreases es
  {
    if es != [] {
      RenderedLength(es[0], o);
      RenderedLengths(es[1..], boundary, o);
      PayloadLengthConcat(Payloads(es[0]), AllPayloads(es[1..]), o);
      AllResolveConcat(Payloads(es[0]), AllPayloads(es[1..]), o);
    }
  }

  // ---------- the estimated message ----------

  /** The bytes a payload takes in the estimate and in the full message. */
  function EstimatedBytes(p: Part, unknown: set<nat>, resolve: nat -> Option<seq<Byte>>): nat {
    if p.index in unknown then
      match resolve(p.index) case Some(data) => PayloadSize(|data|) case None => 0
    else PayloadSize(if p.size > 0 then p.size else 0)
  }

  function RealBytes(p: Part, content: nat -> Option<seq<Byte>>): nat {
    match content(p.index) case Some(data) => PayloadSize(|data|) case None => 0
  }

  function EstimationError(ps: seq<Part>, unknown: set<nat>, resolve: nat -> Option<seq<Byte>>,
                           content: nat -> Option<seq<Byte>>): int
    decreases |ps|
  {
    if ps == [] then 0
    else EstimatedBytes(ps[0], unknown, resolve) - RealBytes(ps[0], content)
         + EstimationError(ps[1..], unknown, resolve, content)
  }

  lemma {:induction false} OnePayload(p: Part, unknown: set<nat>, all: set<nat>,
                   resolve: nat -> Option<seq<Byte>>, content: nat -> Option<seq<Byte>>)
    requires p.data.None? && p.index in all
    ensures LengthOr0(Payload(p, Options(unknown, true, resolve))) == EstimatedBytes(p, unknown, resolve)
    ensures LengthOr0(Payload(p, Options(all, false, content))) == RealBytes(p, content)
  {
    PlaceholderHasPayloadSize([], p.size);
  }

  lemma {:induction false} PayloadLengthsDiffer(ps: seq<Part>, unknown: set<nat>, all: set<nat>,
                                                resolve: nat -> Option<seq<Byte>>, content: nat -> Option<seq<Byte>>)
    requires forall p :: p in ps ==> p.data.None? && p.index in all
    ensures PayloadLength(ps, Options(unknown, true, resolve)) - PayloadLength(ps, Options(all, false, content)) ==
            EstimationError(ps, unknown, resolve, content)
    decreases |ps|
  {
    if ps != [] {
      var p := ps[0];
      assert p in ps && p.data.None? && p.index in all;
      OnePayload(p, unknown, all, resolve, content);
      PayloadLengthsDiffer(ps[1..], unknown, all, resolve, content);
    }
  }

  /** For every tree: the estimated message is off by the sum of what each payload is off. */
  lemma {:induction false} EstimateIsOffByPayloads(e: Entity, unknown: set<nat>, resolve: nat -> Option<seq<Byte>>,
                                content: nat -> Option<seq<Byte>>)
    requires Tidy(e) && Render(e, Options(unknown, true, resolve)).Some? && FullMIME(e, content).Some?
    ensures |Render(e, Options(unknown, true, resolve)).value| - |FullMIME(e, content).value| ==
            EstimationError(Payloads(e), unknown, resolve, content)
  {
    TidyPayloads(e);
    RenderedLength(e, Options(unknown, true, resolve));
    RenderedLength(e, Options(Indices(e), false, content));
    PayloadLengthsDiffer(Payloads(e), unknown, Indices(e), resolve, content);
  }

  /** The declared size fits the data if both take the same number of base64 groups, and a
      payload of unknown size is the data itself. */
  predicate Accurate(p: Part, unknown: set<nat>, resolve: nat -> Option<seq<Byte>>, content: nat -> Option<seq<Byte>>) {
    && content(p.index).Some?
    && if p.index in unknown then resolve(p.index) == content(p.index)
       else p.size > 0 && (p.size + 2) / 3 == (|content(p.index).value| + 2) / 3
  }

  lemma {:induction false} AccurateHasNoError(ps: seq<Part>, unknown: set<nat>, resolve: nat -> Option<seq<Byte>>,
                                              content: nat -> Option<seq<Byte>>)
    requires forall p :: p in ps ==> Accurate(p, unknown, resolve, content)
    ensures EstimationError(ps, unknown, resolve, content) == 0
    decreases |ps|
  {
    if ps != [] {
      assert Accurate(ps[0], unknown, resolve, content);
      AccurateHasNoError(ps[1..], unknown, resolve, content);
    }
  }

  /** With accurate sizes the estimate has exactly the length of the full message. */
  lemma {:induction false} EstimateIsExact(e: Entity, unknown: set<nat>, resolve: nat -> Option<seq<Byte>>,
          content: nat -> Option<seq<Byte>>)
    requires Tidy(e) && forall p :: p in Payloads(e) ==> Accurate(p, unknown, resolve, content)
    ensures var estimate, full := Render(e, Options(unknown, true, resolve)), FullMIME(e, content);
      estimate.Some? && full.Some? && |estimate.value| == |full.value|
  {
    TidyPayloads(e);
    RenderedLength(e, Options(unknown, true, resolve));
    RenderedLength(e, Options(Indices(e), false, content));
    AccurateHasNoError(Payloads(e), unknown, resolve, content);
    EstimateIsOffByPayloads(e, unknown, resolve, content);
  }

  // ---------- a subtree depends on its own attachments only ----------

  predicate AgreeOn(s: set<nat>, o1: Options, o2: Options) {
    && o1.estimated == o2.estimated
    && (forall i :: i in s ==> (i in o1.actual <==> i in o2.actual))
    && (forall i :: i in s && i in o1.actual ==> o1.resolve(i) == o2.resolve(i))
  }

  lemma {:induction false} RenderDependsOnOwnAttachments(e: Entity, o1: Options, o2: Options)
    requires AgreeOn(Indices(e), o1, o2)
    ensures Render(e, o1) == Render(e, o2)
    decreases e
  {
    RenderPartsDependOnOwnAttachments(e.children, e.boundary, o1, o2);
  }

  lemma {:induction false} RenderPartsDependOnOwnAttachments(es: seq<Entity>, boundary: seq<Byte>, o1: Options,
          o2: Options)
    requires AgreeOn(AllIndices(es), o1, o2)
    ensures RenderParts(es, boundary, o1) == RenderParts(es, boundary, o2)
    decreases es
  {
    if es != [] {
      RenderDependsOnOwnAttachments(es[0], o1, o2);
      RenderPartsDependOnOwnAttachments(es[1..], boundary, o1, o2);
    }
  }

  // ---------- entities inside entities ----------

  function Walk(e: Entity, path: seq<int>): Option<Entity>
    decreases |path|
  {
    if path == [] then Some(e)
    else if path[0] <= 0 || path[0] > |e.children| then None
    else Walk(e.children[path[0] - 1], path[1..])
  }

  /** The path to walk: the only part of a message without parts has number 1. */
  function Steps(root: Entity, path: seq<int>): seq<int> {
    if root.children == [] && path != [] && path[0] == 1 then path[1..] else path
  }

  /** entityAtPath. */
  function EntityAt(root: Entity, path: seq<int>): Option<Entity> { Walk(root, Steps(root, path)) }

  /** The bytes written before the entity at a path. */
  function Before(e: Entity, path: seq<int>, o: Options): Option<seq<Byte>>
    requires Walk(e, path).Some?
    decreases |path|
  {
    if path == [] then Some([])
    else
      var k := path[0] - 1;
      Then(Then(Some(Head(e)), Then(RenderParts(e.children[..k], e.boundary, o), Some(Delimiter(e.boundary)))),
           Before(e.children[k], path[1..], o))
  }

  /** The bytes written after the entity at a path. */
  function After(e: Entity, path: seq<int>, o: Options): Option<seq<Byte>>
    requires Walk(e, path).Some?
    decreases |path|
  {
    if path == [] then Some([])
    else
      var k := path[0] - 1;
      Then(After(e.children[k], path[1..], o),
           Then(RenderParts(e.children[k + 1..], e.boundary, o), Some(Closing(e.boundary))))
  }

  lemma {:induction false} ThenAssociates(a: Option<seq<Byte>>, b: Option<seq<Byte>>, c: Option<seq<Byte>>)
    ensures Then(Then(a, b), c) == Then(a, Then(b, c))
  {
    if a.Some? && b.Some? && c.Some? {
      assert (a.value + b.value) + c.value == a.value + (b.value + c.value);
    }
  }

  lemma {:induction false} RenderPartsConcat(a: seq<Entity>, b: seq<Entity>, boundary: seq<Byte>, o: Options)
    ensures RenderParts(a + b, boundary, o) == Then(RenderParts(a, boundary, o), RenderParts(b, boundary, o))
    decreases |a|
  {
    if a == [] {
      assert a + b == b;
      var r := RenderParts(b, boundary, o);
      if r.Some? { assert [] + r.value == r.value; }
    } else {
      assert (a + b)[1..] == a[1..] + b;
      RenderPartsConcat(a[1..], b, boundary, o);
      ThenAssociates(Then(Some(Delimiter(boundary)), Render(a[0], o)), RenderParts(a[1..], boundary, o),
                     RenderParts(b, boundary, o));
    }
  }

  /** Child k of an entity, and what is written around it. */
  lemma {:induction false} RenderAroundChild(e: Entity, k: nat, o: Options)
    requires k < |e.children|
    ensures Render(e, o) ==
            Then(Then(Some(Head(e)), Then(RenderParts(e.children[..k], e.boundary, o), Some(Delimiter(e.boundary)))),
                 Then(Render(e.children[k], o),
                      Then(RenderParts(e.children[k + 1..], e.boundary, o), Some(Closing(e.boundary)))))
  {
    var es, b := e.children, e.boundary;
    var before, child, rest := RenderParts(es[..k], b, o), Render(es[k], o), RenderParts(es[k + 1..], b, o);
    assert es == es[..k] + es[k..];
    RenderPartsConcat(es[..k], es[k..], b, o);
    assert es[k..][1..] == es[k + 1..];
    assert RenderParts(es[k..], b, o) == Then(Then(Some(Delimiter(b)), child), rest);
    if before.Some? && child.Some? && rest.Some? {
      Regroup(Head(e), before.value, Delimiter(b), child.value, rest.value, Closing(b));
    }
  }

  lemma {:induction false} Regroup(h: seq<Byte>, p: seq<Byte>, d: seq<Byte>, c: seq<Byte>, r: seq<Byte>, z: seq<Byte>)
    ensures h + ((p + ((d + c) + r)) + z) == (h + (p + d)) + (c + (r + z))
  {
  }

  /** A message is what comes before an entity, the entity, and what comes after it. */
  lemma {:induction false} RenderContainsEntity(e: Entity, path: seq<int>, o: Options)
    requires Walk(e, path).Some?
    ensures Render(e, o) == Then(Before(e, path, o), Then(Render(Walk(e, path).value, o), After(e, path, o)))
    decreases |path|
  {
    if path == [] {
      var r := Render(e, o);
      if r.Some? { assert [] + (r.value + []) == r.value; }
    } else {
      var k := path[0] - 1;
      var child := e.children[k];
      RenderContainsEntity(child, path[1..], o);
      RenderAroundChild(e, k, o);
      var front := Then(Some(Head(e)), Then(RenderParts(e.children[..k], e.boundary, o), Some(Delimiter(e.boundary))));
      var back := Then(RenderParts(e.children[k + 1..], e.boundary, o), Some(Closing(e.boundary)));
      var before, after := Before(child, path[1..], o), After(child, path[1..], o);
      var inner := Render(Walk(child, path[1..]).value, o);
      ThenAssociates(before, Then(inner, after), back);
      ThenAssociates(inner, after, back);
      ThenAssociates(front, before, Then(inner, Then(after, back)));
    }
  }

  // ---------- sections ----------

  datatype Specifier = Whole | Text | HeaderOnly

  /** The attachments bodySection downloads for a section. */
  function ActualFor(root: Entity, path: seq<int>, specifier: Specifier): set<nat> {
    var target := EntityAt(root, path);
    if specifier == HeaderOnly || target.None? then {} else Indices(target.value)
  }

  /** The message the section is cut out of, for a message with n attachments. */
  function SectionSource(root: Entity, n: nat, path: seq<int>, specifier: Specifier,
                         resolve: nat -> Option<seq<Byte>>): Option<seq<Byte>>
  {
    var actual := ActualFor(root, path, specifier);
    if |actual| == n && n > 0 then FullMIME(root, resolve)
    else Render(root, Options(actual, false, resolve))
  }

  /** The message with every payload. */
  function FullMIME(root: Entity, resolve: nat -> Option<seq<Byte>>): Option<seq<Byte>> {
    Render(root, Options(Indices(root), false, resolve))
  }

  lemma {:induction false} WalkIndices(e: Entity, path: seq<int>)
    requires Walk(e, path).Some?
    ensures Indices(Walk(e, path).value) <= Indices(e)
    decreases |path|
  {
    if path != [] {
      ChildIndices(e.children, path[0] - 1);
      WalkIndices(e.children[path[0] - 1], path[1..]);
    }
  }

  lemma {:induction false} ChildIndices(es: seq<Entity>, k: nat)
    requires k < |es|
    ensures Indices(es[k]) <= AllIndices(es)
    decreases k
  {
    if k > 0 { ChildIndices(es[1..], k - 1); }
  }

  /** What is cut out of the full message for an entity. */
  lemma {:induction false} FullContainsSection(root: Entity, path: seq<int>, resolve: nat -> Option<seq<Byte>>)
    requires EntityAt(root, path).Some?
    ensures var all, steps := Options(Indices(root), false, resolve), Steps(root, path);
      FullMIME(root, resolve) ==
        Then(Before(root, steps, all), Then(FullMIME(EntityAt(root, path).value, resolve), After(root, steps, all)))
  {
    var t, steps := EntityAt(root, path).value, Steps(root, path);
    var all := Options(Indices(root), false, resolve);
    WalkIndices(root, steps);
    RenderContainsEntity(root, steps, all);
    RenderDependsOnOwnAttachments(t, Options(Indices(t), false, resolve), all);
  }

  lemma {:induction false} SectionSourceIsPartial(root: Entity, n: nat, path: seq<int>, specifier: Specifier,
                               resolve: nat -> Option<seq<Byte>>)
    requires EntityAt(root, path).Some? && specifier != HeaderOnly && Indices(root) == UpTo(n)
    ensures SectionSource(root, n, path, specifier, resolve) ==
            Render(root, Options(Indices(EntityAt(root, path).value), false, resolve))
  {
    var t := EntityAt(root, path).value;
    WalkIndices(root, Steps(root, path));
    if |Indices(t)| == n { SameSize(Indices(t), Indices(root), n); }
  }

  /** Cutting a part out of the message rendered for it gives the bytes that part has in the
      full message, and needs no attachment outside the part. */
  lemma {:induction false} SectionHasFullBytes(root: Entity, n: nat, path: seq<int>, specifier: Specifier,
                            resolve: nat -> Option<seq<Byte>>)
    requires EntityAt(root, path).Some? && specifier != HeaderOnly
    requires Tidy(root) && Indices(root) == UpTo(n)
    ensures var t, steps := EntityAt(root, path).value, Steps(root, path);
      var o := Options(Indices(t), false, resolve);
      var source, whole := SectionSource(root, n, path, specifier, resolve), FullMIME(t, resolve);
      && source == Then(Before(root, steps, o), Then(whole, After(root, steps, o)))
      && (source.Some? <==> whole.Some?)
  {
    var t, steps := EntityAt(root, path).value, Steps(root, path);
    SectionSourceIsPartial(root, n, path, specifier, resolve);
    RenderContainsEntity(root, steps, Options(Indices(t), false, resolve));
    OnlyTheTargetCanFail(root, steps, Options(Indices(t), false, resolve));
  }

  /** Sections without payloads download nothing and cannot fail. */
  lemma {:induction false} HeadersNeedNoAttachment(root: Entity, n: nat, path: seq<int>,
          resolve: nat -> Option<seq<Byte>>)
    requires Tidy(root)
    ensures SectionSource(root, n, path, HeaderOnly, resolve).Some?
  {
    RenderedLength(root, Options({}, false, resolve));
  }

  function UpTo(n: nat): set<nat> { if n == 0 then {} else UpTo(n - 1) + {n - 1} }

  lemma {:induction false} UpToSize(n: nat)
    ensures |UpTo(n)| == n && forall i: nat :: i in UpTo(n) <==> i < n
  {
    if n > 0 { UpToSize(n - 1); }
  }

  lemma {:induction false} SameSize(a: set<nat>, b: set<nat>, n: nat)
    requires a <= b && b == UpTo(n) && |a| == n
    ensures a == b
  {
    UpToSize(n);
    if !(b <= a) {
      var x :| x in b && x !in a;
      Smaller(a, b - {x});
    }
  }

  lemma {:induction false} Smaller(a: set<nat>, b: set<nat>)
    requires a <= b
    ensures |a| <= |b|
  {
    if a != {} {
      var x :| x in a;
      Smaller(a - {x}, b - {x});
    }
  }

  // ---------- trees as the bridge builds them ----------

  /** Attachments hang on leaves, and their data is fetched when it is needed. */
  predicate Tidy(e: Entity)
    decreases e
  {
    && AllTidy(e.children)
    && (e.attachment.Some? ==> e.children == [] && e.attachment.value.data.None?)
  }

  predicate AllTidy(es: seq<Entity>)
    decreases es
  {
    es == [] || (Tidy(es[0]) && AllTidy(es[1..]))
  }

  lemma {:induction false} TidyPayloads(e: Entity)
    requires Tidy(e)
    ensures forall i :: i in Indices(e) <==> exists p :: p in Payloads(e) && p.index == i
    ensures forall p :: p in Payloads(e) ==> p.data.None?
    decreases e
  {
    if e.children != [] {
      AllTidyPayloads(e.children);
    } else if e.attachment.Some? {
      assert e.attachment.value in Payloads(e);
      assert AllIndices([]) == {};
    }
  }

  lemma {:induction false} AllTidyPayloads(es: seq<Entity>)
    requires AllTidy(es)
    ensures forall i :: i in AllIndices(es) <==> exists p :: p in AllPayloads(es) && p.index == i
    ensures forall p :: p in AllPayloads(es) ==> p.data.None?
    decreases es
  {
    if es != [] {
      TidyPayloads(es[0]);
      AllTidyPayloads(es[1..]);
      forall i ensures i in AllIndices(es) <==> exists p :: p in AllPayloads(es) && p.index == i {
        if i in Indices(es[0]) {
          var p :| p in Payloads(es[0]) && p.index == i;
          assert p in AllPayloads(es);
        } else if i in AllIndices(es[1..]) {
          var p :| p in AllPayloads(es[1..]) && p.index == i;
          assert p in AllPayloads(es);
        }
      }
    }
  }

  lemma {:induction false} WalkIsTidy(e: Entity, path: seq<int>)
    requires Tidy(e) && Walk(e, path).Some?
    ensures Tidy(Walk(e, path).value)
    decreases |path|
  {
    if path != [] {
      ChildIsTidy(e.children, path[0] - 1);
      WalkIsTidy(e.children[path[0] - 1], path[1..]);
    }
  }

  lemma {:induction false} ChildIsTidy(es: seq<Entity>, k: nat)
    requires k < |es| && AllTidy(es)
    ensures Tidy(es[k])
    decreases k
  {
    if k > 0 { ChildIsTidy(es[1..], k - 1); }
  }

  lemma {:induction false} OnlyTheTargetCanFail(root: Entity, steps: seq<int>, o: Options)
    requires Tidy(root) && Walk(root, steps).Some?
    requires o.actual == Indices(Walk(root, steps).value) && !o.estimated
    ensures Render(root, o).Some? <==> Render(Walk(root, steps).value, o).Some?
  {
    var t := Walk(root, steps).value;
    WalkIsTidy(root, steps);
    TidyPayloads(t);
    TidyPayloads(root);
    RenderedLength(root, o);
    RenderedLength(t, o);
    RenderContainsEntity(root, steps, o);
    if Render(t, o).Some? {
      forall p | p in Payloads(root) ensures Payload(p, o).Some? {
        if p.index in o.actual {
          var q :| q in Payloads(t) && q.index == p.index;
          assert Payload(q, o).Some?;
        }
      }
    }
  }

  // ---------- the loops ----------

  /** mimeEntity.writeTo, child by child. */
  method WriteTo(e: Entity, o: Options) returns (out: Option<seq<Byte>>)
    ensures out == Render(e, o)
    decreases e
  {
    if |e.children| > 0 {
      var buf := Head(e);
      for i := 0 to |e.children|
        invariant Then(Some(buf), RenderParts(e.children[i..], e.boundary, o)) ==
                  Then(Some(Head(e)), RenderParts(e.children, e.boundary, o))
      {
        var rest := e.children[i..];
        assert rest[1..] == e.children[i + 1..];
        var child := WriteTo(e.children[i], o);
        if child.None? { return None; }
        ThenAssociates(Some(buf), Some(Delimiter(e.boundary) + child.value), RenderParts(rest[1..], e.boundary, o));
        buf := buf + (Delimiter(e.boundary) + child.value);
      }
      assert e.children[|e.children|..] == [] && buf + [] == buf;
      ThenAssociates(Some(Head(e)), RenderParts(e.children, e.boundary, o), Some(Closing(e.boundary)));
      return Some(buf + Closing(e.boundary));
    }
    if e.attachment.Some? {
      var p := e.attachment.value;
      if p.index in o.actual {
        var data := if p.data.Some? then p.data else o.resolve(p.index);
        if data.None? { return None; }
        var lines := WriteBase64(data.value);
        return Some(Head(e) + lines);
      }
      if o.estimated {
        var lines := WriteBase64Placeholder(p.size);
        return Some(Head(e) + lines);
      }
      return Some(Head(e) + CRLF);
    }
    out := Some(Head(e) + e.body + CRLF);
  }

  /** entityAtPath. */
  method FindEntity(root: Entity, path: seq<int>) returns (found: Option<Entity>)
    ensures found == EntityAt(root, path)
  {
    var rest := if |root.children| == 0 && |path| > 0 && path[0] == 1 then path[1..] else path;
    var current := root;
    for i := 0 to |rest|
      invariant Walk(current, rest[i..]) == EntityAt(root, path)
    {
      var part := rest[i];
      assert rest[i..][1..] == rest[i + 1..];
      if part <= 0 || part > |current.children| { return None; }
      current := current.children[part - 1];
    }
    found := Some(current);
  }
}
