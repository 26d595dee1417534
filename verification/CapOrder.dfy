/** Capping the disk side before or after a join (src/cache.ts): exactly when the order does not show. */
module CapOrder {
  import opened InstanceLog
  import opened Seqs

  /** A memory entry at the oldest kept timestamp whose key is on disk, but only among what the cap cut off. */
  predicate Bad(n: nat, disk: seq<Entry>, e: Entry) {
    && 0 < n < |disk|
    && e.ts == Newest(n, disk)[0].ts
    && KeyOf(e) in Keys(disk) && KeyOf(e) !in Keys(Newest(n, disk))
  }

  /** The entries behind the last bad one whose keys are new to the disk. */
  function NewBehindBad(n: nat, disk: seq<Entry>, s: seq<Entry>): nat {
    if s == [] || Bad(n, disk, s[|s| - 1]) then 0
    else NewBehindBad(n, disk, s[..|s| - 1]) + if KeyOf(s[|s| - 1]) in Keys(disk) then 0 else 1
  }

  /** How many entries sort behind the last bad one: later arrivals of its millisecond, and everything newer. */
  function BehindBad(n: nat, disk: seq<Entry>, memory: seq<Entry>): nat
    requires 0 < n < |disk|
  {
    var t := Newest(n, disk)[0].ts;
    NewBehindBad(n, disk, At(memory, t)) + |From(disk, t + 1)| + |From(Minus(memory, Keys(disk)), t + 1)|
  }

  /** Checked on the two sides before they are joined. */
  ghost predicate OrderDoesNotShow(n: nat, disk: seq<Entry>, memory: seq<Entry>) {
    0 < n < |disk| ==> (forall e :: e in memory ==> !Bad(n, disk, e)) || BehindBad(n, disk, memory) >= n
  }

  // ---- The longest end of a list without certain keys ----

  function GoodTail(s: seq<Entry>, ks: set<Key>): seq<Entry> {
    if s == [] || KeyOf(s[|s| - 1]) in ks then [] else GoodTail(s[..|s| - 1], ks) + [s[|s| - 1]]
  }

  lemma AppendedEqual(x: seq<Entry>, y: seq<Entry>, e: Entry)
    ensures x + [e] == y + [e] <==> x == y
  {
    if x + [e] == y + [e] { SameTail(x, y, [e]); }
  }

  lemma GoodTailStep(s: seq<Entry>, e: Entry, ks: set<Key>)
    ensures GoodTail(s + [e], ks) == if KeyOf(e) in ks then [] else GoodTail(s, ks) + [e]
    ensures GoodTail(s + [e], ks) == s + [e] <==> KeyOf(e) !in ks && GoodTail(s, ks) == s
  {
    assert (s + [e])[..|s|] == s;
    AppendedEqual(GoodTail(s, ks), s, e);
  }

  lemma MinusStep(s: seq<Entry>, e: Entry, ks: set<Key>)
    ensures Minus(s + [e], ks) == if KeyOf(e) in ks then Minus(s, ks) else Minus(s, ks) + [e]
  {
    assert (s + [e])[..|s|] == s;
  }

  lemma {:induction false} GoodTailSplits(s: seq<Entry>, ks: set<Key>) returns (k: nat)
    ensures k <= |s| && s[k..] == GoodTail(s, ks)
    ensures k > 0 ==> KeyOf(s[k - 1]) in ks
    ensures Minus(s, ks) == Minus(s[..k], ks) + GoodTail(s, ks)
  {
    hide GoodTail, Minus;
    if s == [] {
      k := 0;
      EmptySplits(s, ks);
    } else {
      var n := |s| - 1;
      assert s == s[..n] + [s[n]];
      GoodTailStep(s[..n], s[n], ks);
      MinusStep(s[..n], s[n], ks);
      if KeyOf(s[n]) in ks {
        k := |s|;
        assert s[..k] == s && Minus(s, ks) + [] == Minus(s, ks);
      } else {
        k := GoodTailSplits(s[..n], ks);
        assert s[..n][..k] == s[..k] && s[k..] == s[..n][k..] + [s[n]];
      }
    }
  }

  lemma EmptySplits(s: seq<Entry>, ks: set<Key>)
    requires s == []
    ensures GoodTail(s, ks) == [] && Minus(s, ks) == []
  {
  }

  lemma NewestOfLonger(n: nat, x: seq<Entry>, y: seq<Entry>, tail: seq<Entry>)
    requires n <= |tail|
    ensures Newest(n, x + tail) == Newest(n, y + tail)
  {
    NewestTail(n, x, tail);
    NewestTail(n, y, tail);
  }

  /** Equal ends hold equal entries at equal distances from the end. */
  lemma SameFromTheEnd(n: nat, x: seq<Entry>, y: seq<Entry>, tail: seq<Entry>)
    requires Newest(n, x + tail) == Newest(n, y + tail)
    requires |tail| < n <= |x + tail| && n <= |y + tail|
    ensures x[|x| - 1] == y[|y| - 1]
  {
    var at := n - |tail| - 1;
    assert Newest(n, x + tail)[at] == (x + tail)[|x| - 1];
    assert Newest(n, y + tail)[at] == (y + tail)[|y| - 1];
  }

  /** Dropping entries with certain keys before the last one changes the end unless enough entries follow. */
  lemma SuffixIff(n: nat, x: seq<Entry>, b: seq<Entry>, ks: set<Key>, g: seq<Entry>)
    requires n <= |x| + |g|
    requires forall e :: e in b ==> KeyOf(e) !in Keys(x)
    ensures Newest(n, x + b + g) == Newest(n, x + Minus(b, ks) + g)
            <==> GoodTail(b, ks) == b || |GoodTail(b, ks)| + |g| >= n
  {
    var k := GoodTailSplits(b, ks);
    var tail := GoodTail(b, ks);
    var p, q := x + b[..k], x + Minus(b[..k], ks);
    NotInRest(x, b, ks, k, q);
    if k == 0 { NothingDropped(b, ks, k); }
    hide Newest, Minus, GoodTail;
    Regrouped(x, b, ks, k, g);
    if |tail| + |g| >= n {
      NewestOfLonger(n, p, q, tail + g);
    } else if k > 0 {
      TailIsShorter(b, k);
      EndsDiffer(n, p, q, tail + g);
    }
  }

  lemma TailIsShorter(b: seq<Entry>, k: nat)
    requires 0 < k <= |b|
    ensures b[k..] != b
  {
    assert |b[k..]| < |b|;
  }

  lemma Regrouped(x: seq<Entry>, b: seq<Entry>, ks: set<Key>, k: nat, g: seq<Entry>)
    requires k <= |b| && b[k..] == GoodTail(b, ks) && Minus(b, ks) == Minus(b[..k], ks) + GoodTail(b, ks)
    ensures x + b + g == x + b[..k] + (GoodTail(b, ks) + g)
    ensures x + Minus(b, ks) + g == x + Minus(b[..k], ks) + (GoodTail(b, ks) + g)
  {
    hide Minus, GoodTail;
    assert b == b[..k] + b[k..];
  }

  lemma EndsDiffer(n: nat, p: seq<Entry>, q: seq<Entry>, tail: seq<Entry>)
    requires p != [] && p[|p| - 1] !in q && |tail| < n <= |p + tail| && n <= |q + tail|
    ensures Newest(n, p + tail) != Newest(n, q + tail)
  {
    hide Newest;
    if Newest(n, p + tail) == Newest(n, q + tail) { SameFromTheEnd(n, p, q, tail); }
  }

  lemma NothingDropped(b: seq<Entry>, ks: set<Key>, k: nat)
    requires k == 0 && k <= |b|
    ensures Minus(b[..k], ks) == b[..k]
  {
  }

  lemma NotInRest(x: seq<Entry>, b: seq<Entry>, ks: set<Key>, k: nat, q: seq<Entry>)
    requires k <= |b| && (k > 0 ==> KeyOf(b[k - 1]) in ks) && q == x + Minus(b[..k], ks)
    requires forall e :: e in b ==> KeyOf(e) !in Keys(x)
    ensures k > 0 ==> b[k - 1] !in q
  {
    MinusMembers(b[..k], ks);
    if k > 0 { assert b[k - 1] in b; }
  }

  // ---- The two joins from the boundary timestamp on ----

  lemma FromAt(s: seq<Entry>, t: int)
    requires Sorted(s)
    ensures From(s, t) == At(s, t) + From(s, t + 1)
  {
    var a, f := At(s, t), From(s, t + 1);
    CutSorted(s, t - 1);
    CutSorted(s, t);
    AtMembers(s, t);
    CutMembers(s, t);
    forall i | 0 <= i < |a| ensures a[i].ts == t { assert a[i] in a; }
    forall i | 0 <= i < |f| ensures f[i].ts > t { assert f[i] in f; }
    forall u ensures At(From(s, t), u) == At(a + f, u) {
      AtCut(s, t - 1, u);
      AtCut(s, t, u);
      AtConcat(a, f, u);
      if u == t { AtAll(a, t); } else { AtNone(a, u); }
    }
    SortedExtensionality(From(s, t), a + f);
  }

  lemma NewerAgree(a: seq<Entry>, b: seq<Entry>, t: int)
    requires Sorted(a) && Sorted(b) && forall u :: u > t ==> At(a, u) == At(b, u)
    ensures From(a, t + 1) == From(b, t + 1)
  {
    var x, y := From(a, t + 1), From(b, t + 1);
    CutSorted(a, t);
    CutSorted(b, t);
    forall u ensures At(x, u) == At(y, u) {
      AtCut(a, t, u);
      AtCut(b, t, u);
    }
    SortedExtensionality(x, y);
  }

  lemma JoinFromLength(disk: seq<Entry>, memory: seq<Entry>, t: int)
    ensures |From(Join(disk, memory), t)| == |From(disk, t)| + |From(Minus(memory, Keys(disk)), t)|
  {
    FromSort(disk + Minus(memory, Keys(disk)), t);
    FromConcat(disk, Minus(memory, Keys(disk)), t);
  }

  /** The boundary entries of both joins; `lost` is what the cap cut off at that timestamp. */
  lemma Boundary(disk: seq<Entry>, kept: seq<Entry>, memory: seq<Entry>, t: int, lost: seq<Entry>)
    requires At(disk, t) == lost + At(kept, t)
    ensures At(Join(kept, memory), t) == At(kept, t) + Minus(At(memory, t), Keys(At(kept, t)))
    ensures At(Join(disk, memory), t)
            == lost + (At(kept, t) + Minus(Minus(At(memory, t), Keys(At(kept, t))), Keys(lost)))
  {
    hide Minus, Keys, At, Join;
    AtJoin(kept, memory, t);
    AtJoin(disk, memory, t);
    KeysConcat(lost, At(kept, t));
    MinusTwice(At(memory, t), Keys(At(kept, t)), Keys(lost));
    assert Keys(At(kept, t)) + Keys(lost) == Keys(lost) + Keys(At(kept, t));
  }

  /** Bad entries are those of the boundary whose keys only the cut part of the disk has. */
  lemma BadIff(n: nat, disk: seq<Entry>, lost: seq<Entry>, e: Entry)
    requires 0 < n < |disk| && e.ts == Newest(n, disk)[0].ts
    requires At(disk, e.ts) == lost + At(Newest(n, disk), e.ts)
    ensures KeyOf(e) in Keys(disk) <==> KeyOf(e) in Keys(lost) || KeyOf(e) in Keys(At(Newest(n, disk), e.ts))
    ensures Bad(n, disk, e) <==> KeyOf(e) in Keys(lost) && KeyOf(e) !in Keys(At(Newest(n, disk), e.ts))
  {
    hide Newest, At, Keys;
    KeyAt(disk, e, e.ts);
    KeyAt(Newest(n, disk), e, e.ts);
    KeysConcat(lost, At(Newest(n, disk), e.ts));
  }

  lemma {:induction false} CountBehindBad(n: nat, disk: seq<Entry>, lost: seq<Entry>, mt: seq<Entry>, t: int)
    requires 0 < n < |disk| && t == Newest(n, disk)[0].ts
    requires At(disk, t) == lost + At(Newest(n, disk), t)
    requires forall i :: 0 <= i < |mt| ==> mt[i].ts == t
    ensures var b := Minus(mt, Keys(At(Newest(n, disk), t)));
            && |GoodTail(b, Keys(lost))| == NewBehindBad(n, disk, mt)
            && (GoodTail(b, Keys(lost)) == b <==> forall e :: e in mt ==> !Bad(n, disk, e))
  {
    hide Newest, At, Keys, Bad;
    if mt != [] {
      var k := |mt| - 1;
      var ks := Keys(At(Newest(n, disk), t));
      CountBehindBad(n, disk, lost, mt[..k], t);
      BadIff(n, disk, lost, mt[k]);
      assert mt == mt[..k] + [mt[k]];
      MinusStep(mt[..k], mt[k], ks);
      GoodTailStep(Minus(mt[..k], ks), mt[k], Keys(lost));
      hide Minus, GoodTail;
      assert forall e :: e in mt <==> e in mt[..k] || e == mt[k];
    }
  }

  lemma KeyOfBoundary(kept: seq<Entry>, mt: seq<Entry>)
    ensures forall e :: e in Minus(mt, Keys(kept)) ==> KeyOf(e) !in Keys(kept)
  {
    MinusMembers(mt, Keys(kept));
  }

  /** Enough entries are kept from the boundary on, whatever memory adds. */
  lemma EnoughKept(n: nat, disk: seq<Entry>, memory: seq<Entry>, t: int)
    requires 0 < n < |disk| && Sorted(disk) && t == Newest(n, disk)[0].ts
    requires forall e :: e in Newest(n, disk) ==> e.ts >= t
    ensures n <= |At(Newest(n, disk), t)| + |From(Join(Newest(n, disk), memory), t + 1)|
  {
    var kept := Newest(n, disk);
    assert Sorted(kept) && |kept| == n;
    hide Newest, At, Join, From, Keys;
    FromEvery(kept, t);
    FromAt(kept, t);
    JoinFromLength(kept, memory, t + 1);
  }

  /** The newest entries of both joins, written from the boundary on. */
  lemma NewestFromBoundary(n: nat, s: seq<Entry>, t: int, lost: seq<Entry>, rest: seq<Entry>)
    requires Sorted(s) && From(s, t) == lost + rest && n <= |rest|
    ensures Newest(n, s) == Newest(n, rest)
  {
    hide Newest, From;
    NewestFrom(n, s, t);
    NewestTail(n, lost, rest);
  }

  /**
   * Keeping the newest n of (newest n of disk joined with memory) is keeping the newest n of the full join exactly when
   * no memory entry is bad or at least n entries sort behind the last bad one.
   */
  lemma CapThenJoinIff(n: nat, disk: seq<Entry>, memory: seq<Entry>)
    requires n > 0 && Sorted(disk)
    ensures Newest(n, Join(Newest(n, disk), memory)) == Newest(n, Join(disk, memory))
            <==> OrderDoesNotShow(n, disk, memory)
  {
    if |disk| > n {
      var t, lost := AtNewest(n, disk);
      CapThenJoinAt(n, disk, memory, t, lost);
      assert BehindBad(n, disk, memory) == NewBehindBad(n, disk, At(memory, t)) + |From(Join(disk, memory), t + 1)| by {
        JoinFromLength(disk, memory, t + 1);
      }
      AtMembers(memory, t);
      assert (forall e :: e in memory ==> !Bad(n, disk, e)) <==> (forall e :: e in At(memory, t) ==> !Bad(n, disk, e));
    }
  }

  lemma CapThenJoinAt(n: nat, disk: seq<Entry>, memory: seq<Entry>, t: int, lost: seq<Entry>)
    requires 0 < n < |disk| && Sorted(disk) && t == Newest(n, disk)[0].ts
    requires forall u :: u > t ==> At(disk, u) == At(Newest(n, disk), u)
    requires At(disk, t) == lost + At(Newest(n, disk), t)
    requires forall e :: e in Newest(n, disk) ==> e.ts >= t
    ensures Newest(n, Join(Newest(n, disk), memory)) == Newest(n, Join(disk, memory)) <==>
            (forall e :: e in At(memory, t) ==> !Bad(n, disk, e))
            || NewBehindBad(n, disk, At(memory, t)) + |From(Join(disk, memory), t + 1)| >= n
  {
    var kept := Newest(n, disk);
    var x, mt := At(kept, t), At(memory, t);
    var b, ks := Minus(mt, Keys(x)), Keys(lost);
    EnoughKept(n, disk, memory, t);
    AtMembers(memory, t);
    forall i | 0 <= i < |mt| ensures mt[i].ts == t { assert mt[i] in mt; }
    CountBehindBad(n, disk, lost, mt, t);
    hide Newest, At, Join, From, Keys, Minus, Bad, NewBehindBad, GoodTail;
    JoinIsSorted(kept, memory);
    JoinIsSorted(disk, memory);
    forall u | u > t ensures At(Join(disk, memory), u) == At(Join(kept, memory), u) {
      AtJoin(disk, memory, u);
      AtJoin(kept, memory, u);
    }
    NewerAgree(Join(disk, memory), Join(kept, memory), t);
    Boundary(disk, kept, memory, t, lost);
    KeyOfBoundary(x, mt);
    EndsAgreeIff(n, Join(kept, memory), Join(disk, memory), t, x, b, ks, lost);
  }

  lemma EndsAgreeIff(
    n: nat, capped: seq<Entry>, full: seq<Entry>, t: int, x: seq<Entry>, b: seq<Entry>, ks: set<Key>, lost: seq<Entry>)
    requires Sorted(capped) && Sorted(full) && From(full, t + 1) == From(capped, t + 1)
    requires At(capped, t) == x + b && At(full, t) == lost + (x + Minus(b, ks))
    requires n <= |x| + |From(capped, t + 1)| && forall e :: e in b ==> KeyOf(e) !in Keys(x)
    ensures Newest(n, capped) == Newest(n, full)
            <==> GoodTail(b, ks) == b || |GoodTail(b, ks)| + |From(full, t + 1)| >= n
  {
    hide Newest, At, From, Keys, Minus, GoodTail;
    var g := From(capped, t + 1);
    FromAt(capped, t);
    FromAt(full, t);
    hide Sorted;
    assert [] + (x + b + g) == x + b + g;
    NewestFromBoundary(n, capped, t, [], x + b + g);
    assert lost + (x + Minus(b, ks)) + g == lost + (x + Minus(b, ks) + g);
    NewestFromBoundary(n, full, t, lost, x + Minus(b, ks) + g);
    SuffixIff(n, x, b, ks, g);
  }
}
