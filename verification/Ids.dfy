/** Server identifiers are Go strings: ordered byte by byte, the empty string first. */
module Ids {

  datatype Option<+T> = None | Some(value: T)

  /** The strict lexicographic order used by Go's `<` on strings and by sort.Strings. */
  predicate Less(a: string, b: string) {
    b != [] && (a == [] || a[0] < b[0] || (a[0] == b[0] && Less(a[1..], b[1..])))
  }

  /** The first place where two strings differ decides, by byte; a string comes after its
      beginnings. */
  lemma {:induction false} LessIsLexicographic(a: string, b: string, k: nat)
    requires k <= |a| && k <= |b| && a[..k] == b[..k]
    ensures k < |a| && k < |b| && a[k] != b[k] ==> (Less(a, b) <==> a[k] < b[k])
    ensures k == |a| < |b| ==> Less(a, b) && !Less(b, a)
    ensures k == |a| == |b| ==> !Less(a, b)
    decreases k
  {
    if k > 0 {
      assert a[..k][0] == b[..k][0] && a[..k][1..] == b[..k][1..];
      assert a[1..][..k - 1] == a[..k][1..] && b[1..][..k - 1] == b[..k][1..];
      LessIsLexicographic(a[1..], b[1..], k - 1);
    }
  }

  lemma {:induction false} LessIrreflexive(a: string)
    ensures !Less(a, a)
  {
    if a != [] { LessIrreflexive(a[1..]); }
  }

  lemma {:induction false} LessTransitive(a: string, b: string, c: string)
    requires Less(a, b) && Less(b, c)
    ensures Less(a, c)
  {
    if a != [] && a[0] == b[0] && b[0] == c[0] {
      LessTransitive(a[1..], b[1..], c[1..]);
    }
  }

  lemma {:induction false} LessTotal(a: string, b: string)
    ensures a == b || Less(a, b) || Less(b, a)
  {
    if a != [] && b != [] && a[0] == b[0] {
      LessTotal(a[1..], b[1..]);
      assert a == [a[0]] + a[1..] && b == [b[0]] + b[1..];
    }
  }

  lemma {:induction false} LessAsymmetric(a: string, b: string)
    requires Less(a, b)
    ensures !Less(b, a) && a != b
  {
    LessIrreflexive(a);
    if Less(b, a) { LessTransitive(a, b, a); }
  }

  ghost predicate IsLeast(x: string, s: set<string>) {
    x in s && forall y :: y in s && y != x ==> Less(x, y)
  }

  lemma {:induction false} LeastExists(s: set<string>)
    requires s != {}
    ensures exists x :: IsLeast(x, s)
  {
    var y :| y in s;
    var rest := s - {y};
    if rest == {} {
      assert s == {y};
      assert IsLeast(y, s);
    } else {
      LeastExists(rest);
      var x :| IsLeast(x, rest);
      LessTotal(x, y);
      if Less(x, y) {
        assert IsLeast(x, s);
      } else {
        forall z | z in s && z != y ensures Less(y, z) {
          if z != x { LessTransitive(y, x, z); }
        }
        assert IsLeast(y, s);
      }
    }
  }

  /** The identifier that sorts first in a non-empty set. */
  ghost function Least(s: set<string>): (x: string)
    requires s != {}
    ensures IsLeast(x, s)
  {
    LeastExists(s);
    var x :| IsLeast(x, s);
    x
  }

  lemma {:induction false} LeastUnique(x: string, s: set<string>)
    requires IsLeast(x, s)
    ensures Least(s) == x
  {
    var y := Least(s);
    if y != x { LessAsymmetric(x, y); }
  }

  /** The least element survives the removal of other elements. */
  lemma {:induction false} LeastOfSubset(t: set<string>, s: set<string>)
    requires t <= s && s != {} && Least(s) in t
    ensures Least(t) == Least(s)
  {
    LeastUnique(Least(s), t);
  }

  ghost function LeastOf(s: set<string>): (r: Option<string>)
  {
    if s == {} then None else Some(Least(s))
  }

  function Elems(ids: seq<string>): set<string> { set x | x in ids }

  predicate Ascending(ids: seq<string>) {
    forall i, j :: 0 <= i < j < |ids| ==> Less(ids[i], ids[j])
  }

  ghost predicate Lists(ids: seq<string>, s: set<string>) {
    Ascending(ids) && forall x :: x in ids <==> x in s
  }

  method LeastId(s: set<string>) returns (x: string)
    requires s != {}
    ensures IsLeast(x, s)
  {
    x :| x in s;
    var rest := s - {x};
    while rest != {}
      invariant rest <= s - {x} && x in s
      invariant forall y :: y in s - rest && y != x ==> Less(x, y)
    {
      var y :| y in rest;
      LessTotal(x, y);
      if Less(y, x) {
        forall z | z in s - rest ensures Less(y, z) {
          if z != x { LessTransitive(y, x, z); }
        }
        x := y;
      }
      rest := rest - {y};
    }
  }

  /** sort.Strings applied to the keys of a map. */
  method SortIds(s: set<string>) returns (ids: seq<string>)
    ensures ids == Listing(s)
    ensures Lists(ids, s) && |ids| == |s|
  {
    ids := [];
    var rest := s;
    while rest != {}
      invariant rest <= s
      invariant Lists(ids, s - rest) && |ids| + |rest| == |s|
      invariant forall x, y :: x in ids && y in rest ==> Less(x, y)
    {
      var x := LeastId(rest);
      assert s - (rest - {x}) == (s - rest) + {x};
      ids := ids + [x];
      rest := rest - {x};
    }
    ListingAscends(s);
    ListingUnique(ids, Listing(s), s);
  }

  /** An ascending listing of a set is unique. */
  lemma {:induction false} ListingUnique(a: seq<string>, b: seq<string>, s: set<string>)
    requires Lists(a, s) && Lists(b, s)
    ensures a == b
  {
    assert a != [] ==> a[0] in b;
    assert b != [] ==> b[0] in a;
    if a != [] {
      if a[0] != b[0] {
        LessTotal(a[0], b[0]);
        assert a[0] in b && b[0] in a;
        var i :| 0 <= i < |b| && b[i] == a[0];
        var j :| 0 <= j < |a| && a[j] == b[0];
        LessAsymmetric(a[0], b[0]);
      }
      forall x ensures x in a[1..] <==> x in s - {a[0]} { ListingTail(a, s, x); }
      forall x ensures x in b[1..] <==> x in s - {b[0]} { ListingTail(b, s, x); }
      ListingUnique(a[1..], b[1..], s - {a[0]});
      assert a == [a[0]] + a[1..] && b == [b[0]] + b[1..];
    }
  }

  lemma {:induction false} ListingTail(a: seq<string>, s: set<string>, x: string)
    requires Lists(a, s) && a != []
    ensures x in a[1..] <==> x in s - {a[0]}
  {
    LessIrreflexive(a[0]);
    assert a == [a[0]] + a[1..];
  }

  /** The ascending listing of a set. */
  ghost function Listing(s: set<string>): (ids: seq<string>)
    ensures forall x :: x in ids <==> x in s
  {
    if s == {} then [] else [Least(s)] + Listing(s - {Least(s)})
  }

  lemma {:induction false} ListingAscends(s: set<string>)
    ensures Lists(Listing(s), s)
  {
    if s != {} {
      var x := Least(s);
      ListingAscends(s - {x});
      var rest := Listing(s - {x});
      forall j | 0 <= j < |rest| ensures Less(x, rest[j]) { assert rest[j] in rest; }
    }
  }

  // ---------- identifiers that do not occur ----------

  function Long(n: nat): (s: string)
    ensures |s| == n
  {
    seq(n, _ => 'a')
  }

  /** Every string that is long enough is none of a finite set. */
  lemma {:induction false} LongerThanAll(s: set<string>) returns (n: nat)
    ensures n > 0 && forall x :: x in s ==> |x| < n
    decreases |s|
  {
    if s == {} {
      n := 1;
    } else {
      var y :| y in s;
      var m := LongerThanAll(s - {y});
      n := if m <= |y| then |y| + 1 else m;
    }
  }
}
