/** The byte-wise order of strings and the sorted form of a list of them (`sort.Strings`). */
module Order {

  predicate Less(a: string, b: string) {
    if b == "" then false
    else if a == "" then true
    else if a[0] != b[0] then a[0] < b[0]
    else Less(a[1..], b[1..])
  }

  /** `a <= b` in the byte-wise order. */
  predicate Leq(a: string, b: string) { !Less(b, a) }

  /** The order of bytes: a string is less when it ends inside the other, or has the smaller
      character at the first place where they differ. */
  lemma {:induction false} LessExactly(a: string, b: string)
    ensures Less(a, b) <==> exists k :: 0 <= k <= |a| && k < |b| && a[..k] == b[..k] && (k == |a| || a[k] < b[k])
  {
    if a != "" && b != "" && a[0] == b[0] {
      var x, y := a[1..], b[1..];
      LessExactly(x, y);
      forall k | 0 < k <= |a| && k < |b|
        ensures a[..k] == b[..k] <==> x[..k - 1] == y[..k - 1]
        ensures k < |a| ==> a[k] == x[k - 1] && b[k] == y[k - 1]
      {
        assert a[..k] == [a[0]] + x[..k - 1] && b[..k] == [b[0]] + y[..k - 1];
        assert a[..k][1..] == x[..k - 1] && b[..k][1..] == y[..k - 1];
      }
      hide Less;
      if j :| 0 <= j <= |x| && j < |y| && x[..j] == y[..j] && (j == |x| || x[j] < y[j]) {
        assert a[..j + 1] == b[..j + 1];
      }
    } else if Less(a, b) {
      assert a[..0] == b[..0];
    } else {
      assert forall k :: 0 < k <= |a| && k < |b| ==> a[..k][0] == a[0] && b[..k][0] == b[0];
    }
  }

  lemma {:induction false} LeqTransitive(a: string, b: string, c: string)
    requires Leq(a, b) && Leq(b, c)
    ensures Leq(a, c)
  {
    if a != "" && b != "" && c != "" && a[0] == b[0] == c[0] { LeqTransitive(a[1..], b[1..], c[1..]); }
  }

  lemma {:induction false} LeqAntisymmetric(a: string, b: string)
    requires Leq(a, b) && Leq(b, a)
    ensures a == b
  {
    if a != "" && b != "" {
      LeqAntisymmetric(a[1..], b[1..]);
      assert a == [a[0]] + a[1..] && b == [b[0]] + b[1..];
    }
  }

  lemma {:induction false} LeqTotal(a: string, b: string)
    ensures Leq(a, b) || Leq(b, a)
  {
    if a != "" && b != "" { LeqTotal(a[1..], b[1..]); }
  }

  ghost predicate Sorted(s: seq<string>) {
    forall i, j :: 0 <= i < j < |s| ==> Leq(s[i], s[j])
  }

  function Insert(x: string, s: seq<string>): seq<string> {
    if s == [] then [x] else if Less(s[0], x) then [s[0]] + Insert(x, s[1..]) else [x] + s
  }

  lemma {:induction false} InsertKeepsAll(x: string, s: seq<string>)
    ensures multiset(Insert(x, s)) == multiset(s) + multiset{x}
  {
    if s != [] {
      assert s == [s[0]] + s[1..];
      if Less(s[0], x) { InsertKeepsAll(x, s[1..]); }
    }
  }

  lemma InsertMembers(x: string, s: seq<string>, y: string)
    requires y in Insert(x, s)
    ensures y == x || y in s
  {
    InsertKeepsAll(x, s);
    assert y in multiset(Insert(x, s));
  }

  lemma PrependSorted(x: string, s: seq<string>)
    requires Sorted(s) && forall y :: y in s ==> Leq(x, y)
    ensures Sorted([x] + s)
  {
  }

  lemma {:induction false} InsertSorted(x: string, s: seq<string>)
    requires Sorted(s)
    ensures Sorted(Insert(x, s))
  {
    if s == [] {
    } else if Less(s[0], x) {
      InsertSorted(x, s[1..]);
      forall y | y in Insert(x, s[1..]) ensures Leq(s[0], y) {
        InsertMembers(x, s[1..], y);
        LeqTotal(s[0], x);
      }
      PrependSorted(s[0], Insert(x, s[1..]));
    } else {
      forall y | y in s ensures Leq(x, y) {
        LeqReflexive(s[0]);
        LeqTransitive(x, s[0], y);
      }
      PrependSorted(x, s);
    }
  }

  /** `sort.Strings`: the sorted rearrangement. */
  function Sort(s: seq<string>): seq<string> {
    if s == [] then [] else Insert(s[0], Sort(s[1..]))
  }

  lemma {:induction false} SortSorts(s: seq<string>)
    ensures Sorted(Sort(s)) && multiset(Sort(s)) == multiset(s)
  {
    if s != [] {
      SortSorts(s[1..]);
      InsertSorted(s[0], Sort(s[1..]));
      InsertKeepsAll(s[0], Sort(s[1..]));
      assert s == [s[0]] + s[1..];
    }
  }

  lemma SortedHeadIsLeast(s: seq<string>, y: string)
    requires s != [] && Sorted(s) && y in multiset(s)
    ensures Leq(s[0], y)
  {
    LeqReflexive(y);
    var i :| 0 <= i < |s| && s[i] == y;
  }

  lemma RestOf(s: seq<string>)
    requires s != []
    ensures multiset(s[1..]) == multiset(s) - multiset{s[0]} && s == [s[0]] + s[1..]
  {
    assert s == [s[0]] + s[1..];
  }

  /** A multiset of strings has one sorted list, so sorting is a canonical form. */
  lemma {:induction false} SortedUnique(a: seq<string>, b: seq<string>)
    requires Sorted(a) && Sorted(b) && multiset(a) == multiset(b)
    ensures a == b
  {
    assert |a| == |multiset(a)| == |multiset(b)| == |b|;
    if a != [] {
      assert b[0] in multiset(b) && a[0] in multiset(a);
      SortedHeadIsLeast(a, b[0]);
      SortedHeadIsLeast(b, a[0]);
      LeqAntisymmetric(a[0], b[0]);
      RestOf(a);
      RestOf(b);
      SortedUnique(a[1..], b[1..]);
    }
  }

  lemma LeqReflexive(a: string)
    ensures Leq(a, a)
  {
    LeqTotal(a, a);
  }

  lemma {:induction false} LeastExists(s: set<string>) returns (least: string)
    requires s != {}
    ensures least in s && forall y :: y in s ==> Leq(least, y)
  {
    least :| least in s;
    LeqReflexive(least);
    var rest := s - {least};
    assert forall y :: y in s ==> y == least || y in rest;
    if rest != {} {
      var b := LeastExists(rest);
      var a := least;
      LeqTotal(a, b);
      least := if Leq(a, b) then a else b;
      forall y | y in s ensures Leq(least, y) {
        if y in rest { LeqTransitive(least, b, y); }
      }
    }
  }

  lemma LeastIsThere(s: set<string>)
    requires s != {}
    ensures exists x :: x in s && forall y :: y in s ==> Leq(x, y)
  {
    var least := LeastExists(s);
  }

  /** The elements of a set in order. */
  function SortedKeys(s: set<string>): (r: seq<string>)
    ensures forall x :: x in r <==> x in s
    ensures forall i, j :: 0 <= i < j < |r| ==> r[i] != r[j]
  {
    if s == {} then [] else
      LeastIsThere(s);
      var x :| x in s && forall y :: y in s ==> Leq(x, y);
      assert forall y :: y in s && (forall z :: z in s ==> Leq(y, z)) ==> y == x by {
        forall y | y in s && (forall z :: z in s ==> Leq(y, z)) ensures y == x { LeqAntisymmetric(x, y); }
      }
      [x] + SortedKeys(s - {x})
  }

  /** They come in ascending order. */
  lemma {:induction false} SortedKeysAscend(s: set<string>)
    ensures Sorted(SortedKeys(s)) && |SortedKeys(s)| == |s|
  {
    if s != {} {
      var r := SortedKeys(s);
      var first := r[0];
      assert first in s && forall y :: y in s ==> Leq(first, y);
      assert r == [first] + SortedKeys(s - {first});
      SortedKeysAscend(s - {first});
      PrependSorted(first, SortedKeys(s - {first}));
    }
  }
}
