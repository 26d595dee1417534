/** Sequences, options and the stable sort that the other modules share. */
module Seqs {
  datatype Option<+T> = None | Some(value: T)

  /** A comparison that orders every two values and is transitive. */
  ghost predicate TotalPreorder<T(!new)>(leq: (T, T) -> bool) {
    && (forall x, y :: leq(x, y) || leq(y, x))
    && (forall x, y, z :: leq(x, y) && leq(y, z) ==> leq(x, z))
  }

  ghost predicate SortedBy<T>(s: seq<T>, leq: (T, T) -> bool) {
    forall i, j :: 0 <= i < j < |s| ==> leq(s[i], s[j])
  }

  ghost predicate Distinct<T>(s: seq<T>) {
    forall i, j :: 0 <= i < j < |s| ==> s[i] != s[j]
  }

  function ToSet<T>(s: seq<T>): set<T>
  {
    set x | x in s
  }

  lemma {:induction false} DistinctCard<T>(s: seq<T>)
    ensures |ToSet(s)| <= |s|
    ensures |ToSet(s)| == |s| <==> Distinct(s)
  {
    if s != [] {
      var n := |s| - 1;
      DistinctCard(s[..n]);
      assert ToSet(s) == ToSet(s[..n]) + {s[n]};
      if s[n] in s[..n] {
        assert ToSet(s) == ToSet(s[..n]);
      } else {
        assert |ToSet(s)| == |ToSet(s[..n])| + 1;
        assert Distinct(s) ==> Distinct(s[..n]);
        if Distinct(s[..n]) {
          forall i, j | 0 <= i < j < |s| ensures s[i] != s[j] {
            assert s[..n][i] == s[i];
          }
        }
      }
    }
  }

  /** The elements not in `gone`, in order. */
  function Without<T(==)>(s: seq<T>, gone: set<T>): seq<T> {
    if s == [] then []
    else Without(s[..|s| - 1], gone) + if s[|s| - 1] in gone then [] else [s[|s| - 1]]
  }

  lemma {:induction false} WithoutIs<T>(s: seq<T>, gone: set<T>, x: T)
    ensures x in Without(s, gone) <==> x in s && x !in gone
  {
    if s != [] {
      WithoutIs(s[..|s| - 1], gone, x);
      assert s == s[..|s| - 1] + [s[|s| - 1]];
    }
  }

  lemma {:induction false} WithoutNothing<T>(s: seq<T>, gone: set<T>)
    requires forall i :: 0 <= i < |s| ==> s[i] !in gone
    ensures Without(s, gone) == s
  {
    if s != [] {
      WithoutNothing(s[..|s| - 1], gone);
      assert s == s[..|s| - 1] + [s[|s| - 1]];
    }
  }

  lemma {:induction false} WithoutSum<T>(a: seq<T>, b: seq<T>, gone: set<T>)
    ensures Without(a + b, gone) == Without(a, gone) + Without(b, gone)
  {
    if b == [] {
      assert a + b == a;
    } else {
      assert (a + b)[..|a + b| - 1] == a + b[..|b| - 1];
      WithoutSum(a, b[..|b| - 1], gone);
    }
  }

  lemma WithoutOne<T>(x: T, gone: set<T>)
    ensures Without([x], gone) == if x in gone then [] else [x]
  {
    assert [x][..0] == [];
  }

  /** Inserts `x` behind every element that is not greater, as a stable sort does. */
  function Insert<T>(s: seq<T>, x: T, leq: (T, T) -> bool): seq<T> {
    if s == [] || leq(s[|s| - 1], x) then s + [x]
    else Insert(s[..|s| - 1], x, leq) + [s[|s| - 1]]
  }

  /** Array.prototype.sort: stable (ECMA-262, section 23.1.3.30). */
  function StableSort<T>(s: seq<T>, leq: (T, T) -> bool): seq<T> {
    if s == [] then [] else Insert(StableSort(s[..|s| - 1], leq), s[|s| - 1], leq)
  }

  lemma InsertLast<T>(s: seq<T>, x: T, leq: (T, T) -> bool)
    requires s == [] || leq(s[|s| - 1], x)
    ensures Insert(s, x, leq) == s + [x]
  {
  }

  lemma InsertBack<T>(s: seq<T>, last: T, x: T, leq: (T, T) -> bool)
    requires !leq(last, x)
    ensures Insert(s + [last], x, leq) == Insert(s, x, leq) + [last]
  {
  }

  lemma {:induction false} InsertMultiset<T>(s: seq<T>, x: T, leq: (T, T) -> bool)
    ensures multiset(Insert(s, x, leq)) == multiset(s) + multiset{x}
  {
    if !(s == [] || leq(s[|s| - 1], x)) {
      var n := |s| - 1;
      assert s == s[..n] + [s[n]];
      InsertMultiset(s[..n], x, leq);
    }
  }

  lemma {:induction false} SortMultiset<T>(s: seq<T>, leq: (T, T) -> bool)
    ensures multiset(StableSort(s, leq)) == multiset(s)
    ensures |StableSort(s, leq)| == |s|
  {
    if s != [] {
      var n := |s| - 1;
      assert s == s[..n] + [s[n]];
      SortMultiset(s[..n], leq);
      InsertMultiset(StableSort(s[..n], leq), s[n], leq);
    }
    assert |multiset(StableSort(s, leq))| == |multiset(s)|;
  }

  lemma SameElements<T(!new)>(a: seq<T>, b: seq<T>)
    requires multiset(a) == multiset(b)
    ensures forall x :: x in a <==> x in b
    ensures |a| == |b|
  {
    forall x ensures x in a <==> x in b {
      assert x in a <==> x in multiset(a);
      assert x in b <==> x in multiset(b);
    }
    assert |multiset(a)| == |multiset(b)|;
  }

  lemma InsertMembers<T(!new)>(s: seq<T>, x: T, leq: (T, T) -> bool)
    ensures forall y :: y in Insert(s, x, leq) <==> y in s || y == x
  {
  }

  lemma SortMembers<T(!new)>(s: seq<T>, leq: (T, T) -> bool)
    ensures forall y :: y in StableSort(s, leq) <==> y in s
    ensures |StableSort(s, leq)| == |s|
  {
    SortMultiset(s, leq);
    SameElements(StableSort(s, leq), s);
  }

  lemma AppendSorted<T>(s: seq<T>, x: T, leq: (T, T) -> bool)
    requires SortedBy(s, leq) && forall i :: 0 <= i < |s| ==> leq(s[i], x)
    ensures SortedBy(s + [x], leq)
  {
  }

  lemma {:induction false} InsertSorted<T(!new)>(s: seq<T>, x: T, leq: (T, T) -> bool)
    requires TotalPreorder(leq) && SortedBy(s, leq)
    ensures SortedBy(Insert(s, x, leq), leq)
  {
    if s != [] {
      var n := |s| - 1;
      if leq(s[n], x) {
        forall i | 0 <= i < n ensures leq(s[i], x) { assert leq(s[i], s[n]); }
        AppendSorted(s, x, leq);
      } else {
        InsertSorted(s[..n], x, leq);
        InsertMembers(s[..n], x, leq);
        var r := Insert(s[..n], x, leq);
        forall i | 0 <= i < |r| ensures leq(r[i], s[n]) {
          assert r[i] in r;
          if r[i] != x { var k :| 0 <= k < n && s[k] == r[i]; }
        }
        AppendSorted(r, s[n], leq);
      }
    }
  }

  lemma {:induction false} SortSorts<T(!new)>(s: seq<T>, leq: (T, T) -> bool)
    requires TotalPreorder(leq)
    ensures SortedBy(StableSort(s, leq), leq)
  {
    if s != [] {
      var n := |s| - 1;
      SortSorts(s[..n], leq);
      InsertSorted(StableSort(s[..n], leq), s[n], leq);
    }
  }
}
