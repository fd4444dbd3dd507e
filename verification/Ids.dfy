/** Identifiers are Go strings, ordered the way Go's `<` and `sort.Strings` order them. */
module Ids {

  type Id = string

  /** Lexicographic order by code point (the order of the UTF-8 bytes is the same). */
  predicate Less(a: Id, b: Id) {
    b != [] && (a == [] || a[0] < b[0] || (a[0] == b[0] && Less(a[1..], b[1..])))
  }

  predicate Leq(a: Id, b: Id) {
    a == b || Less(a, b)
  }

  lemma {:induction false} LessTrans(a: Id, b: Id, c: Id)
    requires Less(a, b) && Less(b, c)
    ensures Less(a, c)
  {
    if a != [] && a[0] == b[0] && b[0] == c[0] {
      LessTrans(a[1..], b[1..], c[1..]);
    }
  }

  lemma {:induction false} LessIrreflexive(a: Id)
    ensures !Less(a, a)
  {
    if a != [] {
      LessIrreflexive(a[1..]);
    }
  }

  lemma {:induction false} LessTotal(a: Id, b: Id)
    ensures a == b || Less(a, b) || Less(b, a)
  {
    if a != [] && b != [] && a[0] == b[0] {
      LessTotal(a[1..], b[1..]);
      assert a == [a[0]] + a[1..] && b == [b[0]] + b[1..];
    }
  }

  lemma LessAsymmetric(a: Id, b: Id)
    ensures !(Less(a, b) && Less(b, a))
  {
    if Less(a, b) && Less(b, a) {
      LessTrans(a, b, a);
      LessIrreflexive(a);
    }
  }

  // ----- Sequences without repetition, and strictly sorted ones

  predicate NoDup<T(==)>(s: seq<T>) {
    forall i, j :: 0 <= i < j < |s| ==> s[i] != s[j]
  }

  ghost function Elems<T>(s: seq<T>): set<T> {
    set x | x in s
  }

  lemma ConcatAssoc<T>(a: seq<T>, b: seq<T>, c: seq<T>)
    ensures a + (b + c) == (a + b) + c
  {
  }

  lemma DisjointParts<T>(a: seq<T>, b: seq<T>)
    requires NoDup(a + b)
    ensures forall x :: x in a ==> x !in b
  {
    forall i, j | 0 <= i < |a| && 0 <= j < |b|
      ensures a[i] != b[j]
    {
      assert (a + b)[i] == a[i] && (a + b)[|a| + j] == b[j];
    }
  }

  lemma {:induction false} NoDupCard<T>(s: seq<T>)
    requires NoDup(s)
    ensures |Elems(s)| == |s|
  {
    if s != [] {
      var n := |s| - 1;
      NoDupCard(s[..n]);
      assert s == s[..n] + [s[n]];
      assert Elems(s) == Elems(s[..n]) + {s[n]};
      assert s[n] !in Elems(s[..n]);
    }
  }

  /** A sequence over a set that is longer than the set repeats an element. */
  lemma Pigeonhole<T>(s: seq<T>, u: set<T>) returns (i: nat, j: nat)
    requires Elems(s) <= u && |s| > |u|
    ensures i < j < |s| && s[i] == s[j]
  {
    if NoDup(s) {
      NoDupCard(s);
      SubsetCard(Elems(s), u);
      assert false;
    }
    i, j :| 0 <= i < j < |s| && s[i] == s[j];
  }

  lemma {:induction false} SubsetCard<T>(a: set<T>, b: set<T>)
    requires a <= b
    ensures |a| <= |b|
    ensures |a| == |b| ==> a == b
    ensures |b - a| == |b| - |a|
  {
    assert b == a + (b - a);
    assert |b| == |a| + |b - a|;
    if |a| == |b| {
      assert b - a == {};
    }
  }

  predicate Ascending(s: seq<Id>) {
    forall i, j :: 0 <= i < j < |s| ==> Less(s[i], s[j])
  }

  predicate Sorted(s: seq<Id>) {
    forall i, j :: 0 <= i < j < |s| ==> Leq(s[i], s[j])
  }

  /** `sort.Strings`, by insertion: some order would do, this one is the only sorted one. */
  function Sort(s: seq<Id>): (r: seq<Id>)
    ensures Sorted(r) && multiset(r) == multiset(s)
  {
    if s == [] then [] else
      assert s == [s[0]] + s[1..];
      Insert(s[0], Sort(s[1..]))
  }

  function Insert(x: Id, s: seq<Id>): (r: seq<Id>)
    requires Sorted(s)
    ensures Sorted(r) && multiset(r) == multiset(s) + multiset{x}
  {
    if s == [] then [x]
    else if Leq(x, s[0]) then
      InsertFront(x, s);
      [x] + s
    else
      LessTotal(x, s[0]);
      assert s == [s[0]] + s[1..];
      var r := Insert(x, s[1..]);
      InsertLater(x, s, r);
      [s[0]] + r
  }

  lemma InsertFront(x: Id, s: seq<Id>)
    requires Sorted(s) && s != [] && Leq(x, s[0])
    ensures Sorted([x] + s)
  {
    forall j | 0 <= j < |s|
      ensures Leq(x, s[j])
    {
      assert Leq(s[0], s[j]);
      if x != s[0] && s[0] != s[j] {
        LessTrans(x, s[0], s[j]);
      }
    }
  }

  lemma InsertLater(x: Id, s: seq<Id>, r: seq<Id>)
    requires s != [] && Sorted(s) && Leq(s[0], x) && Sorted(r)
    requires multiset(r) == multiset(s[1..]) + multiset{x}
    ensures Sorted([s[0]] + r)
  {
    forall j | 0 <= j < |r|
      ensures Leq(s[0], r[j])
    {
      assert r[j] in multiset(r);
      assert r[j] == x || r[j] in s[1..];
    }
  }

  lemma MultisetElems<T>(a: seq<T>, b: seq<T>)
    requires multiset(a) == multiset(b)
    ensures Elems(a) == Elems(b) && |a| == |b|
  {
    forall x
      ensures x in a <==> x in b
    {
      assert x in a <==> x in multiset(a);
      assert x in b <==> x in multiset(b);
    }
    assert |multiset(a)| == |a| && |multiset(b)| == |b|;
  }

  /** Sorting a repetition-free list gives the ascending enumeration of its elements. */
  lemma SortNoDup(s: seq<Id>)
    requires NoDup(s)
    ensures Ascending(Sort(s)) && Elems(Sort(s)) == Elems(s) && |Sort(s)| == |s|
  {
    var r := Sort(s);
    MultisetElems(r, s);
    NoDupCard(s);
    if !NoDup(r) {
      var i, j :| 0 <= i < j < |r| && r[i] == r[j];
      var t := r[..j] + r[j + 1..];
      assert Elems(t) == Elems(r) by {
        forall x | x in r
          ensures x in t
        {
          var k :| 0 <= k < |r| && r[k] == x;
          if k < j {
            assert t[k] == x;
          } else if k == j {
            assert t[i] == x;
          } else {
            assert t[k - 1] == x;
          }
        }
      }
      ElemsCard(t);
      assert false;
    }
  }

  lemma {:induction false} ElemsCard<T>(s: seq<T>)
    ensures |Elems(s)| <= |s|
  {
    if s != [] {
      var n := |s| - 1;
      ElemsCard(s[..n]);
      assert s == s[..n] + [s[n]];
      assert Elems(s) == Elems(s[..n]) + {s[n]};
    }
  }

  lemma AscendingNoDup(s: seq<Id>)
    requires Ascending(s)
    ensures NoDup(s)
  {
    forall i, j | 0 <= i < j < |s|
      ensures s[i] != s[j]
    {
      LessIrreflexive(s[i]);
    }
  }

  /** A set of identifiers has only one ascending enumeration. */
  lemma {:induction false} AscendingUnique(a: seq<Id>, b: seq<Id>)
    requires Ascending(a) && Ascending(b) && Elems(a) == Elems(b)
    ensures a == b
  {
    AscendingNoDup(a);
    AscendingNoDup(b);
    NoDupCard(a);
    NoDupCard(b);
    if a != [] {
      FirstIsLeast(a);
      FirstIsLeast(b);
      assert a[0] in Elems(b) && b[0] in Elems(a);
      LessAsymmetric(a[0], b[0]);
      assert a[0] == b[0];
      assert Elems(a[1..]) == Elems(a) - {a[0]};
      assert Elems(b[1..]) == Elems(b) - {b[0]};
      AscendingUnique(a[1..], b[1..]);
      assert a == [a[0]] + a[1..] && b == [b[0]] + b[1..];
    }
  }

  lemma FirstIsLeast(s: seq<Id>)
    requires Ascending(s) && s != []
    ensures forall x :: x in Elems(s) ==> Leq(s[0], x)
  {
    forall x | x in Elems(s)
      ensures Leq(s[0], x)
    {
      var i :| 0 <= i < |s| && s[i] == x;
      if i > 0 {
        assert Less(s[0], s[i]);
      }
    }
  }

  ghost predicate IsLeast(m: Id, u: set<Id>) {
    m in u && forall x :: x in u ==> Leq(m, x)
  }

  lemma {:induction false} LeastExists(u: set<Id>) returns (m: Id)
    requires u != {}
    ensures IsLeast(m, u)
  {
    m :| m in u;
    var rest := u - {m};
    while rest != {}
      invariant rest < u && IsLeast(m, u - rest)
    {
      var x :| x in rest;
      LessTotal(m, x);
      if Less(x, m) {
        forall y | y in u - rest
          ensures Leq(x, y)
        {
          if m != y {
            LessTrans(x, m, y);
          }
        }
        m := x;
      }
      rest := rest - {x};
    }
    assert u - rest == u;
  }

  /** The ascending enumeration of a finite set. */
  ghost function Enumerate(u: set<Id>): seq<Id> {
    if u == {} then []
    else
      assert exists m :: IsLeast(m, u) by { var m := LeastExists(u); }
      var m :| IsLeast(m, u);
      [m] + Enumerate(u - {m})
  }

  lemma {:induction false} EnumerateFacts(u: set<Id>)
    ensures Ascending(Enumerate(u)) && Elems(Enumerate(u)) == u && |Enumerate(u)| == |u|
  {
    if u != {} {
      var m := EnumerateStep(u);
      var s := Enumerate(u - {m});
      EnumerateFacts(u - {m});
      ConsAscending(m, s);
    }
  }

  lemma ConsAscending(m: Id, s: seq<Id>)
    requires Ascending(s) && m !in Elems(s) && forall x :: x in Elems(s) ==> Leq(m, x)
    ensures Ascending([m] + s) && Elems([m] + s) == {m} + Elems(s)
  {
    forall i | 0 <= i < |s|
      ensures Less(m, s[i])
    {
      assert s[i] in Elems(s);
    }
  }

  /** The first element of an enumeration is the least one, and the rest enumerates the others. */
  lemma EnumerateStep(u: set<Id>) returns (m: Id)
    requires u != {}
    ensures IsLeast(m, u) && Enumerate(u) == [m] + Enumerate(u - {m})
  {
    m := Enumerate(u)[0];
  }
}
