/**
 The per-project instance arrays of src/cache.ts (session_errors and usage_log): the append-merge of
 a disk and a memory array, the cap on the error ring and the 30-day cut of the usage log.
 */
module InstanceLog {
  import opened Seqs

  /** src/session-errors.ts, line 24. */
  const SESSION_ERROR_CAP: nat := 50

  const THIRTY_DAYS_MS: int := 30 * 24 * 60 * 60 * 1000

  /**
   `tag` stands for the other fields that the printed entry key lists (ref, reason, detail, ...), `rest`
   for the fields it leaves out. The key starts with the timestamp, so equal keys mean equal timestamps.
   */
  datatype Entry = Entry(ts: int, tag: string, rest: string)

  type Key = (int, string)

  function KeyOf(e: Entry): Key { (e.ts, e.tag) }

  function Keys(s: seq<Entry>): set<Key> { set e | e in s :: KeyOf(e) }

  predicate Earlier(a: Entry, b: Entry) { a.ts <= b.ts }

  ghost predicate Sorted(s: seq<Entry>) {
    forall i, j :: 0 <= i < j < |s| ==> s[i].ts <= s[j].ts
  }

  ghost predicate StrictlySorted(s: seq<Entry>) {
    forall i, j :: 0 <= i < j < |s| ==> s[i].ts < s[j].ts
  }

  /** The entries of `s` whose key is not in `ks`. */
  function Minus(s: seq<Entry>, ks: set<Key>): seq<Entry> {
    if s == [] then []
    else Minus(s[..|s| - 1], ks) + (if KeyOf(s[|s| - 1]) in ks then [] else [s[|s| - 1]])
  }

  /** Disk entries, then the memory entries that are not on disk, sorted by timestamp. */
  function Join(disk: seq<Entry>, memory: seq<Entry>): seq<Entry> {
    StableSort(disk + Minus(memory, Keys(disk)), Earlier)
  }

  /** appendInstanceArray. */
  method AppendInstanceArray(disk: Option<seq<Entry>>, memory: Option<seq<Entry>>) returns (out: seq<Entry>)
    ensures out == Join(OrEmpty(disk), OrEmpty(memory))
  {
    var d, m := OrEmpty(disk), OrEmpty(memory);
    var diskKeys := Keys(d);
    out := d;
    for i := 0 to |m|
      invariant out == d + Minus(m[..i], diskKeys)
    {
      assert m[..i + 1][..i] == m[..i];
      if KeyOf(m[i]) !in diskKeys { out := out + [m[i]]; }
    }
    assert m[..|m|] == m;
    out := StableSort(out, Earlier);
  }

  function OrEmpty(s: Option<seq<Entry>>): seq<Entry> {
    match s case None => [] case Some(v) => v
  }

  /** The last `n` entries: `slice(-n)`, for n > 0. */
  function Newest(n: nat, s: seq<Entry>): seq<Entry> {
    if |s| <= n then s else s[|s| - n..]
  }

  /** The entries newer than `cutoff`. */
  function Cut(s: seq<Entry>, cutoff: int): seq<Entry> {
    if s == [] then []
    else Cut(s[..|s| - 1], cutoff) + (if s[|s| - 1].ts > cutoff then [s[|s| - 1]] else [])
  }

  /** The entries of one timestamp, in order. */
  function At(s: seq<Entry>, t: int): seq<Entry> {
    if s == [] then []
    else At(s[..|s| - 1], t) + (if s[|s| - 1].ts == t then [s[|s| - 1]] else [])
  }

  /** How many entries of `s` have the key `k`. */
  function Count(s: seq<Entry>, k: Key): nat {
    if s == [] then 0
    else Count(s[..|s| - 1], k) + (if KeyOf(s[|s| - 1]) == k then 1 else 0)
  }

  // ---- lists as functions of the timestamp ----

  lemma {:induction false} AtConcat(a: seq<Entry>, b: seq<Entry>, t: int)
    ensures At(a + b, t) == At(a, t) + At(b, t)
  {
    if b == [] {
      assert a + b == a;
    } else {
      var n := |b| - 1;
      assert (a + b)[..|a + b| - 1] == a + b[..n];
      AtConcat(a, b[..n], t);
    }
  }

  lemma {:induction false} AtMembers(s: seq<Entry>, t: int)
    ensures forall e :: e in At(s, t) <==> e in s && e.ts == t
  {
    if s != [] {
      AtMembers(s[..|s| - 1], t);
      assert s == s[..|s| - 1] + [s[|s| - 1]];
    }
  }

  lemma {:induction false} AtNone(s: seq<Entry>, t: int)
    requires forall i :: 0 <= i < |s| ==> s[i].ts != t
    ensures At(s, t) == []
  {
    if s != [] { AtNone(s[..|s| - 1], t); }
  }

  lemma AtOne(e: Entry, t: int)
    ensures At([e], t) == if e.ts == t then [e] else []
  {
  }

  lemma {:induction false} AtInsert(s: seq<Entry>, x: Entry, t: int)
    requires Sorted(s)
    ensures At(Insert(s, x, Earlier), t) == At(s + [x], t)
  {
    hide At, Insert;
    if s == [] || Earlier(s[|s| - 1], x) {
      InsertLast(s, x, Earlier);
    } else {
      var n := |s| - 1;
      assert s == s[..n] + [s[n]];
      AtInsert(s[..n], x, t);
      InsertBack(s[..n], s[n], x, Earlier);
      AtConcat(Insert(s[..n], x, Earlier), [s[n]], t);
      AtConcat(s[..n], [x], t);
      AtConcat(s, [x], t);
      AtConcat(s[..n], [s[n]], t);
      AtOne(x, t);
      AtOne(s[n], t);
    }
  }

  lemma EarlierIsTotal()
    ensures TotalPreorder(Earlier)
  {
  }

  lemma SortIsSorted(s: seq<Entry>)
    ensures Sorted(StableSort(s, Earlier))
  {
    EarlierIsTotal();
    SortSorts(s, Earlier);
    var r := StableSort(s, Earlier);
    forall i, j | 0 <= i < j < |r| ensures r[i].ts <= r[j].ts { assert Earlier(r[i], r[j]); }
  }

  lemma AtAppend(a: seq<Entry>, b: seq<Entry>, x: Entry, t: int)
    requires At(a, t) == At(b, t)
    ensures At(a + [x], t) == At(b + [x], t)
  {
  }

  /** Sorting moves no entry within its timestamp. */
  lemma {:induction false} AtSort(s: seq<Entry>, t: int)
    ensures At(StableSort(s, Earlier), t) == At(s, t)
  {
    hide At, Insert;
    if s != [] {
      var n := |s| - 1;
      var r := StableSort(s[..n], Earlier);
      AtSort(s[..n], t);
      SortIsSorted(s[..n]);
      AtInsert(r, s[n], t);
      AtAppend(r, s[..n], s[n], t);
      assert s == s[..n] + [s[n]];
    }
  }

  /** A sorted list is determined by what it holds at each timestamp. */
  lemma {:induction false} SortedExtensionality(a: seq<Entry>, b: seq<Entry>)
    requires Sorted(a) && Sorted(b)
    requires forall t :: At(a, t) == At(b, t)
    ensures a == b
  {
    if a == [] {
      if b != [] { LastIsAt(b); }
    } else if b == [] {
      LastIsAt(a);
    } else {
      var m, n := |a| - 1, |b| - 1;
      LastTsAgree(a, b);
      LastTsAgree(b, a);
      var t := a[m].ts;
      assert At(a, t)[|At(a, t)| - 1] == a[m];
      assert At(b, t)[|At(b, t)| - 1] == b[n];
      forall u ensures At(a[..m], u) == At(b[..n], u) {
        assert At(a, u) == At(b, u);
        assert At(a, u) == At(a[..m], u) + (if u == t then [a[m]] else []);
        assert At(b, u) == At(b[..n], u) + (if u == t then [a[m]] else []);
        SameTail(At(a[..m], u), At(b[..n], u), if u == t then [a[m]] else []);
      }
      SortedExtensionality(a[..m], b[..n]);
      assert a == a[..m] + [a[m]] && b == b[..n] + [b[n]];
    }
  }

  lemma LastIsAt(s: seq<Entry>)
    requires s != []
    ensures At(s, s[|s| - 1].ts) != []
  {
  }

  lemma SameTail(x: seq<Entry>, y: seq<Entry>, tail: seq<Entry>)
    requires x + tail == y + tail
    ensures x == y
  {
    assert |x + tail| == |y + tail|;
    assert x == (x + tail)[..|x|] && y == (y + tail)[..|y|];
  }

  lemma LastTsAgree(a: seq<Entry>, b: seq<Entry>)
    requires a != [] && b != [] && Sorted(b)
    requires forall t :: At(a, t) == At(b, t)
    ensures a[|a| - 1].ts <= b[|b| - 1].ts
  {
    hide At;
    var e := a[|a| - 1];
    AtMembers(a, e.ts);
    assert e in At(b, e.ts);
    AtMembers(b, e.ts);
    var k :| 0 <= k < |b| && b[k] == e;
  }

  lemma {:induction false} MinusConcat(a: seq<Entry>, b: seq<Entry>, ks: set<Key>)
    ensures Minus(a + b, ks) == Minus(a, ks) + Minus(b, ks)
  {
    if b == [] {
      assert a + b == a;
    } else {
      var n := |b| - 1;
      assert (a + b)[..|a + b| - 1] == a + b[..n];
      MinusConcat(a, b[..n], ks);
    }
  }

  lemma {:induction false} MinusMembers(s: seq<Entry>, ks: set<Key>)
    ensures forall e :: e in Minus(s, ks) <==> e in s && KeyOf(e) !in ks
  {
    if s != [] {
      MinusMembers(s[..|s| - 1], ks);
      assert s == s[..|s| - 1] + [s[|s| - 1]];
    }
  }

  lemma {:induction false} MinusTwice(s: seq<Entry>, ks: set<Key>, ls: set<Key>)
    ensures Minus(Minus(s, ks), ls) == Minus(s, ks + ls)
  {
    if s != [] {
      var n := |s| - 1;
      MinusTwice(s[..n], ks, ls);
      var tail := if KeyOf(s[n]) in ks then [] else [s[n]];
      MinusConcat(Minus(s[..n], ks), tail, ls);
      assert Minus([s[n]][..0], ls) == [];
    }
  }

  /** Only the keys of a timestamp matter for the entries of that timestamp. */
  lemma {:induction false} AtMinus(m: seq<Entry>, d: seq<Entry>, t: int)
    ensures At(Minus(m, Keys(d)), t) == Minus(At(m, t), Keys(At(d, t)))
  {
    if m != [] {
      var n := |m| - 1;
      AtMinus(m[..n], d, t);
      var tail := if KeyOf(m[n]) in Keys(d) then [] else [m[n]];
      AtConcat(Minus(m[..n], Keys(d)), tail, t);
      var tailAt := if m[n].ts == t then [m[n]] else [];
      MinusConcat(At(m[..n], t), tailAt, Keys(At(d, t)));
      AtMembers(d, t);
      KeyAt(d, m[n], t);
      assert At([m[n]][..0], t) == [] && Minus([m[n]][..0], Keys(At(d, t))) == [];
    }
  }

  lemma KeyAt(d: seq<Entry>, e: Entry, t: int)
    requires e.ts == t || e.ts != t
    ensures e.ts == t ==> (KeyOf(e) in Keys(d) <==> KeyOf(e) in Keys(At(d, t)))
  {
  }

  /** The join, timestamp by timestamp: what the disk holds, then what only the memory holds. */
  function JoinTies(disk: seq<Entry>, memory: seq<Entry>): seq<Entry> {
    disk + Minus(memory, Keys(disk))
  }

  lemma JoinIsSorted(disk: seq<Entry>, memory: seq<Entry>)
    ensures Sorted(Join(disk, memory))
  {
    SortIsSorted(disk + Minus(memory, Keys(disk)));
  }

  lemma AtJoin(disk: seq<Entry>, memory: seq<Entry>, t: int)
    ensures At(Join(disk, memory), t) == JoinTies(At(disk, t), At(memory, t))
  {
    AtSort(disk + Minus(memory, Keys(disk)), t);
    AtConcat(disk, Minus(memory, Keys(disk)), t);
    AtMinus(memory, disk, t);
  }

  lemma KeysConcat(a: seq<Entry>, b: seq<Entry>)
    ensures Keys(a + b) == Keys(a) + Keys(b)
  {
  }

  lemma KeysMinus(s: seq<Entry>, ks: set<Key>)
    ensures Keys(Minus(s, ks)) == Keys(s) - ks
  {
    MinusMembers(s, ks);
  }

  lemma JoinKeys(disk: seq<Entry>, memory: seq<Entry>)
    ensures Keys(Join(disk, memory)) == Keys(disk) + Keys(memory)
  {
    var u := disk + Minus(memory, Keys(disk));
    SortMembers(u, Earlier);
    KeysConcat(disk, Minus(memory, Keys(disk)));
    KeysMinus(memory, Keys(disk));
    assert Keys(Join(disk, memory)) == Keys(u);
  }

  // ---- algebra of the join ----

  lemma {:induction false} TiesAssociative(x: seq<Entry>, y: seq<Entry>, z: seq<Entry>)
    ensures JoinTies(JoinTies(x, y), z) == JoinTies(x, JoinTies(y, z))
  {
    hide Minus, Keys;
    KeysConcat(x, Minus(y, Keys(x)));
    KeysMinus(y, Keys(x));
    MinusConcat(y, Minus(z, Keys(y)), Keys(x));
    MinusTwice(z, Keys(y), Keys(x));
    assert Keys(JoinTies(x, y)) == Keys(y) + Keys(x);
    assert x + Minus(y, Keys(x)) + Minus(z, Keys(y) + Keys(x)) == x + (Minus(y, Keys(x)) + Minus(z, Keys(y) + Keys(x)));
  }

  /** Merging is associative, ties included: it does not matter which process merges first. */
  lemma JoinAssociative(a: seq<Entry>, b: seq<Entry>, c: seq<Entry>)
    ensures Join(Join(a, b), c) == Join(a, Join(b, c))
  {
    JoinIsSorted(Join(a, b), c);
    JoinIsSorted(a, Join(b, c));
    forall t ensures At(Join(Join(a, b), c), t) == At(Join(a, Join(b, c)), t) {
      AtJoin(Join(a, b), c, t);
      AtJoin(a, b, t);
      AtJoin(a, Join(b, c), t);
      AtJoin(b, c, t);
      TiesAssociative(At(a, t), At(b, t), At(c, t));
    }
    SortedExtensionality(Join(Join(a, b), c), Join(a, Join(b, c)));
  }

  lemma {:induction false} MinusAll(s: seq<Entry>, ks: set<Key>)
    requires Keys(s) <= ks
    ensures Minus(s, ks) == []
  {
    if s != [] {
      var n := |s| - 1;
      assert s == s[..n] + [s[n]];
      KeysConcat(s[..n], [s[n]]);
      assert KeyOf(s[n]) in Keys(s);
      MinusAll(s[..n], ks);
    }
  }

  /** A sorted disk array that already holds every memory key stays exactly as it is. */
  lemma JoinAbsorbs(disk: seq<Entry>, memory: seq<Entry>)
    requires Sorted(disk) && Keys(memory) <= Keys(disk)
    ensures Join(disk, memory) == disk
  {
    MinusAll(memory, Keys(disk));
    JoinIsSorted(disk, memory);
    assert disk + [] == disk;
    forall t ensures At(Join(disk, memory), t) == At(disk, t) { AtSort(disk, t); }
    SortedExtensionality(Join(disk, memory), disk);
  }

  lemma JoinIdempotent(s: seq<Entry>)
    requires Sorted(s)
    ensures Join(s, s) == s
  {
    JoinAbsorbs(s, s);
  }

  lemma {:induction false} CountConcat(a: seq<Entry>, b: seq<Entry>, k: Key)
    ensures Count(a + b, k) == Count(a, k) + Count(b, k)
  {
    if b == [] {
      assert a + b == a;
    } else {
      var n := |b| - 1;
      assert (a + b)[..|a + b| - 1] == a + b[..n];
      CountConcat(a, b[..n], k);
    }
  }

  lemma {:induction false} CountZero(s: seq<Entry>, k: Key)
    ensures Count(s, k) == 0 <==> k !in Keys(s)
  {
    if s != [] {
      var n := |s| - 1;
      assert s == s[..n] + [s[n]];
      CountZero(s[..n], k);
      KeysConcat(s[..n], [s[n]]);
      assert Keys([s[n]]) == {KeyOf(s[n])};
    }
  }

  lemma {:induction false} CountMinus(s: seq<Entry>, ks: set<Key>, k: Key)
    ensures Count(Minus(s, ks), k) == if k in ks then 0 else Count(s, k)
  {
    if s != [] {
      var n := |s| - 1;
      CountMinus(s[..n], ks, k);
      CountConcat(Minus(s[..n], ks), if KeyOf(s[n]) in ks then [] else [s[n]], k);
      assert Count([s[n]][..0], k) == 0;
    }
  }

  lemma {:induction false} CountInsert(s: seq<Entry>, x: Entry, k: Key)
    ensures Count(Insert(s, x, Earlier), k) == Count(s + [x], k)
  {
    CountConcat(s, [x], k);
    if s != [] && !Earlier(s[|s| - 1], x) {
      var n := |s| - 1;
      CountInsert(s[..n], x, k);
      CountConcat(s[..n], [x], k);
      CountConcat(Insert(s[..n], x, Earlier), [s[n]], k);
      assert Count([s[n]][..0], k) == 0;
    }
  }

  lemma {:induction false} CountSort(s: seq<Entry>, k: Key)
    ensures Count(StableSort(s, Earlier), k) == Count(s, k)
  {
    hide Count, Insert;
    if s == [] {
      assert StableSort(s, Earlier) == s;
    } else {
      var n := |s| - 1;
      CountSort(s[..n], k);
      CountInsert(StableSort(s[..n], Earlier), s[n], k);
      CountConcat(StableSort(s[..n], Earlier), [s[n]], k);
      CountConcat(s[..n], [s[n]], k);
      assert s == s[..n] + [s[n]];
    }
  }

  /** Real duplicates survive: a key occurs as often as on disk, or, if new, as often as in memory. */
  lemma JoinCounts(disk: seq<Entry>, memory: seq<Entry>, k: Key)
    ensures Sorted(Join(disk, memory))
    ensures Count(Join(disk, memory), k) == if k in Keys(disk) then Count(disk, k) else Count(memory, k)
  {
    JoinIsSorted(disk, memory);
    CountSort(disk + Minus(memory, Keys(disk)), k);
    CountConcat(disk, Minus(memory, Keys(disk)), k);
    CountMinus(memory, Keys(disk), k);
    CountZero(disk, k);
  }

  // ---- the cuts: 30 days, and the newest CAP entries ----

  lemma {:induction false} AtCut(s: seq<Entry>, cutoff: int, t: int)
    ensures At(Cut(s, cutoff), t) == if t > cutoff then At(s, t) else []
  {
    if s != [] {
      var n := |s| - 1;
      AtCut(s[..n], cutoff, t);
      AtConcat(Cut(s[..n], cutoff), if s[n].ts > cutoff then [s[n]] else [], t);
      assert At([s[n]][..0], t) == [];
    }
  }

  lemma {:induction false} CutMembers(s: seq<Entry>, cutoff: int)
    ensures forall e :: e in Cut(s, cutoff) <==> e in s && e.ts > cutoff
  {
    if s != [] {
      CutMembers(s[..|s| - 1], cutoff);
      assert s == s[..|s| - 1] + [s[|s| - 1]];
    }
  }

  lemma {:induction false} CutSorted(s: seq<Entry>, cutoff: int)
    requires Sorted(s)
    ensures Sorted(Cut(s, cutoff))
  {
    if s != [] {
      var n := |s| - 1;
      CutSorted(s[..n], cutoff);
      CutMembers(s[..n], cutoff);
      var r := Cut(s[..n], cutoff);
      forall i | 0 <= i < |r| ensures r[i].ts <= s[n].ts {
        assert r[i] in r;
        var k :| 0 <= k < n && s[k] == r[i];
      }
    }
  }

  /** Cutting by age at every save loses nothing more than cutting once, at the latest cutoff. */
  lemma CutThenJoin(disk: seq<Entry>, memory: seq<Entry>, early: int, late: int)
    requires early <= late
    ensures Cut(Join(Cut(disk, early), memory), late) == Cut(Join(disk, memory), late)
  {
    JoinIsSorted(Cut(disk, early), memory);
    JoinIsSorted(disk, memory);
    CutSorted(Join(Cut(disk, early), memory), late);
    CutSorted(Join(disk, memory), late);
    forall t ensures At(Cut(Join(Cut(disk, early), memory), late), t) == At(Cut(Join(disk, memory), late), t) {
      AtCut(Join(Cut(disk, early), memory), late, t);
      AtCut(Join(disk, memory), late, t);
      AtJoin(Cut(disk, early), memory, t);
      AtJoin(disk, memory, t);
      AtCut(disk, early, t);
    }
    SortedExtensionality(Cut(Join(Cut(disk, early), memory), late), Cut(Join(disk, memory), late));
  }

  /** The entries not older than `t`. */
  function From(s: seq<Entry>, t: int): seq<Entry> { Cut(s, t - 1) }

  lemma {:induction false} NewestFrom(n: nat, s: seq<Entry>, t: int)
    requires Sorted(s) && |From(s, t)| >= n
    ensures Newest(n, s) == Newest(n, From(s, t))
  {
    if s != [] && s[0].ts < t {
      assert s == [s[0]] + s[1..];
      FromTail(s, t);
      FromLength(s[1..], t);
      NewestFrom(n, s[1..], t);
    } else {
      FromAll(s, t);
    }
  }

  lemma {:induction false} FromLength(s: seq<Entry>, t: int)
    ensures |From(s, t)| <= |s|
  {
    if s != [] { FromLength(s[..|s| - 1], t); }
  }

  lemma {:induction false} FromTail(s: seq<Entry>, t: int)
    requires s != [] && s[0].ts < t
    ensures From(s, t) == From(s[1..], t)
  {
    if |s| > 1 {
      var n := |s| - 1;
      FromTail(s[..n], t);
      assert s[..n][1..] == s[1..][..n - 1];
    } else {
      assert s[..0] == [] && s[1..] == [];
    }
  }

  lemma {:induction false} FromAll(s: seq<Entry>, t: int)
    requires Sorted(s) && (s == [] || s[0].ts >= t)
    ensures From(s, t) == s
  {
    if s != [] {
      var n := |s| - 1;
      FromAll(s[..n], t);
      assert s == s[..n] + [s[n]];
    }
  }

  /**
   Two sorted lists that agree above `t`, where the second holds at `t` a suffix of what the first
   holds there and has at least `n` entries from `t` on, have the same newest `n` entries.
   */
  lemma SameNewest(n: nat, a: seq<Entry>, b: seq<Entry>, t: int, lost: seq<Entry>)
    requires Sorted(a) && Sorted(b)
    requires forall u :: u > t ==> At(a, u) == At(b, u)
    requires At(a, t) == lost + At(b, t)
    requires |From(b, t)| >= n
    ensures Newest(n, a) == Newest(n, b)
  {
    hide At, Newest, Sorted, From;
    FromSplits(a, b, t, lost);
    NewestFrom(n, a, t);
    NewestFrom(n, b, t);
    NewestTail(n, lost, From(b, t));
  }

  lemma NewestTail(n: nat, x: seq<Entry>, y: seq<Entry>)
    requires n <= |y|
    ensures Newest(n, x + y) == Newest(n, y)
  {
  }

  lemma FromSplits(a: seq<Entry>, b: seq<Entry>, t: int, lost: seq<Entry>)
    requires Sorted(a) && Sorted(b)
    requires forall u :: u > t ==> At(a, u) == At(b, u)
    requires At(a, t) == lost + At(b, t)
    ensures From(a, t) == lost + From(b, t)
  {
    var fa, fb := From(a, t), From(b, t);
    CutSorted(a, t - 1);
    CutSorted(b, t - 1);
    CutMembers(b, t - 1);
    AtMembers(a, t);
    forall i | 0 <= i < |lost| ensures lost[i].ts == t {
      assert At(a, t)[i] == lost[i];
      assert lost[i] in At(a, t);
    }
    forall i | 0 <= i < |fb| ensures fb[i].ts >= t { assert fb[i] in fb; }
    forall u ensures At(fa, u) == At(lost + fb, u) {
      AtCut(a, t - 1, u);
      AtCut(b, t - 1, u);
      AtConcat(lost, fb, u);
      if u == t { AtAll(lost, t); } else { AtNone(lost, u); }
    }
    assert Sorted(lost + fb);
    SortedExtensionality(fa, lost + fb);
  }

  lemma {:induction false} AtAll(s: seq<Entry>, t: int)
    requires forall i :: 0 <= i < |s| ==> s[i].ts == t
    ensures At(s, t) == s
  {
    if s != [] {
      AtAll(s[..|s| - 1], t);
      assert s == s[..|s| - 1] + [s[|s| - 1]];
    }
  }

  /** Dropping the oldest entries of a sorted list removes, at the cut timestamp, a prefix, and nothing above it. */
  lemma AtNewest(n: nat, s: seq<Entry>) returns (t: int, lost: seq<Entry>)
    requires Sorted(s) && 0 < n < |s|
    ensures t == Newest(n, s)[0].ts
    ensures forall u :: u > t ==> At(s, u) == At(Newest(n, s), u)
    ensures At(s, t) == lost + At(Newest(n, s), t)
    ensures forall e :: e in Newest(n, s) ==> e.ts >= t
  {
    var k := |s| - n;
    t := s[k].ts;
    lost := At(s[..k], t);
    assert s == s[..k] + s[k..];
    AtConcat(s[..k], s[k..], t);
    forall u | u > t ensures At(s, u) == At(s[k..], u) {
      AtConcat(s[..k], s[k..], u);
      AtNone(s[..k], u);
    }
    forall e | e in s[k..] ensures e.ts >= t {
      var i :| 0 <= i < |s[k..]| && s[k..][i] == e;
      assert s[k + i] == e;
    }
  }

  /** No memory key sits at the oldest kept timestamp and was cut off there. */
  ghost predicate CleanBoundary(n: nat, disk: seq<Entry>, memory: seq<Entry>) {
    0 < n < |disk| ==>
      forall e :: e in memory && e.ts == Newest(n, disk)[0].ts && KeyOf(e) in Keys(disk) ==>
        KeyOf(e) in Keys(Newest(n, disk))
  }

  lemma {:induction false} MinusAgree(s: seq<Entry>, ks: set<Key>, ls: set<Key>)
    requires forall i :: 0 <= i < |s| ==> (KeyOf(s[i]) in ks <==> KeyOf(s[i]) in ls)
    ensures Minus(s, ks) == Minus(s, ls)
  {
    if s != [] { MinusAgree(s[..|s| - 1], ks, ls); }
  }

  /**
   Capping at every save loses nothing more than capping once, although memory may still hold entries
   that the cap already cut from the file.
   */
  lemma CapThenJoin(n: nat, disk: seq<Entry>, memory: seq<Entry>)
    requires n > 0 && Sorted(disk) && CleanBoundary(n, disk, memory)
    ensures Newest(n, Join(Newest(n, disk), memory)) == Newest(n, Join(disk, memory))
  {
    if |disk| > n {
      var kept := Newest(n, disk);
      var t, lost := AtNewest(n, disk);
      JoinIsSorted(disk, memory);
      JoinIsSorted(kept, memory);
      forall u | u > t ensures At(Join(disk, memory), u) == At(Join(kept, memory), u) {
        AtJoin(disk, memory, u);
        AtJoin(kept, memory, u);
      }
      SameAtBoundary(n, disk, memory, t, lost);
      JoinKeepsLength(kept, memory, t);
      SameNewest(n, Join(disk, memory), Join(kept, memory), t, lost);
    }
  }

  lemma SameAtBoundary(n: nat, disk: seq<Entry>, memory: seq<Entry>, t: int, lost: seq<Entry>)
    requires 0 < n < |disk| && CleanBoundary(n, disk, memory)
    requires t == Newest(n, disk)[0].ts && At(disk, t) == lost + At(Newest(n, disk), t)
    ensures At(Join(disk, memory), t) == lost + At(Join(Newest(n, disk), memory), t)
  {
    hide Join, Minus, Keys, At, CleanBoundary, Newest;
    var kept := Newest(n, disk);
    AtJoin(disk, memory, t);
    AtJoin(kept, memory, t);
    AtMembers(memory, t);
    var mt := At(memory, t);
    forall i | 0 <= i < |mt| ensures KeyOf(mt[i]) in Keys(At(disk, t)) <==> KeyOf(mt[i]) in Keys(At(kept, t)) {
      assert mt[i] in mt;
      SameBoundaryKey(n, disk, memory, mt[i]);
    }
    MinusAgree(mt, Keys(At(disk, t)), Keys(At(kept, t)));
    assert lost + At(kept, t) + Minus(mt, Keys(At(kept, t))) == lost + (At(kept, t) + Minus(mt, Keys(At(kept, t))));
  }

  lemma SameBoundaryKey(n: nat, disk: seq<Entry>, memory: seq<Entry>, e: Entry)
    requires 0 < n < |disk| && CleanBoundary(n, disk, memory) && e in memory && e.ts == Newest(n, disk)[0].ts
    ensures KeyOf(e) in Keys(At(disk, e.ts)) <==> KeyOf(e) in Keys(At(Newest(n, disk), e.ts))
  {
    var kept := Newest(n, disk);
    KeyAt(disk, e, e.ts);
    KeyAt(kept, e, e.ts);
    if KeyOf(e) in Keys(kept) {
      var f :| f in kept && KeyOf(f) == KeyOf(e);
      assert f in disk;
    }
  }

  lemma SortedStays(s: seq<Entry>)
    requires Sorted(s)
    ensures StableSort(s, Earlier) == s
  {
    SortIsSorted(s);
    forall t ensures At(StableSort(s, Earlier), t) == At(s, t) { AtSort(s, t); }
    SortedExtensionality(StableSort(s, Earlier), s);
  }

  /** More entries of one millisecond than the cap keeps. */
  ghost predicate Burst(d: seq<Entry>) {
    forall i, j :: 0 <= i < j < |d| ==> d[i].ts == d[j].ts && d[i].tag != d[j].tag
  }

  lemma JoinOneMore(d: seq<Entry>, x: Entry)
    requires Burst(d + [x])
    ensures Join(d, [x]) == d + [x]
  {
    var all := d + [x];
    forall i | 0 <= i < |d| ensures KeyOf(d[i]) != KeyOf(x) {
      assert all[i] == d[i] && all[|d|] == x;
    }
    assert [x][..0] == [] && Minus([x], Keys(d)) == [x];
    SortedStays(all);
  }

  /**
   For every cap a burst of one entry more, which two processes can write although each file and memory stays within
   the cap: the first adds the last entry to a full file, the second still holds the first entry. Capping in between
   keeps other entries than capping once.
   */
  lemma CapTieReordersEntries(n: nat, d: seq<Entry>)
    requires n > 0 && |d| == n + 1 && Burst(d)
    ensures var full := Join(d[..n], [d[n]]);
      Newest(n, Join(Newest(n, full), [d[0]])) != Newest(n, Join(full, [d[0]]))
  {
    assert d[..n] + [d[n]] == d;
    JoinOneMore(d[..n], d[n]);
    assert d[0] in d;
    JoinAbsorbs(d, [d[0]]);
    var later := d[1..] + [d[0]];
    forall i, j | 0 <= i < j < |later| ensures later[i].ts == later[j].ts && later[i].tag != later[j].tag {
      assert later[i] == d[i + 1];
      assert later[j] == if j < n then d[j + 1] else d[0];
    }
    JoinOneMore(d[1..], d[0]);
    assert Newest(n, d) == d[1..];
    assert Newest(n, later)[n - 1] == d[0] && Newest(n, d)[n - 1] == d[n];
  }

  function BurstOf(n: nat, t: int): seq<Entry> {
    seq(n, (i: nat) => Entry(t, seq(i, _ => 'x'), ""))
  }

  /** Such a burst at the cap of the error ring. */
  lemma RingReordersTies(t: int)
    ensures var d := BurstOf(SESSION_ERROR_CAP + 1, t);
      var full := Join(d[..SESSION_ERROR_CAP], [d[SESSION_ERROR_CAP]]);
      Newest(SESSION_ERROR_CAP, Join(Newest(SESSION_ERROR_CAP, full), [d[0]]))
      != Newest(SESSION_ERROR_CAP, Join(full, [d[0]]))
  {
    var d := BurstOf(SESSION_ERROR_CAP + 1, t);
    forall i, j | 0 <= i < j < |d| ensures d[i].ts == d[j].ts && d[i].tag != d[j].tag {
      assert |d[i].tag| == i && |d[j].tag| == j;
    }
    CapTieReordersEntries(SESSION_ERROR_CAP, d);
  }

  // ---- lists of entries with one timestamp each: what capping memory costs ----

  /** Every listed entry belongs to `hist`, which has one entry per timestamp. */
  ghost predicate Drawn(s: seq<Entry>, hist: set<Entry>) {
    StrictlySorted(s) && forall e :: e in s ==> e in hist
  }

  ghost predicate OnePerTimestamp(hist: set<Entry>) {
    forall e, f :: e in hist && f in hist && e.ts == f.ts ==> e == f
  }

  lemma {:induction false} StrictAt(s: seq<Entry>, t: int)
    requires StrictlySorted(s)
    ensures |At(s, t)| <= 1
  {
    if s != [] {
      var n := |s| - 1;
      StrictAt(s[..n], t);
      if s[n].ts == t { AtNone(s[..n], t); }
    }
  }

  lemma {:induction false} AtStrict(s: seq<Entry>)
    requires Sorted(s) && forall t :: |At(s, t)| <= 1
    ensures StrictlySorted(s)
  {
    if s != [] {
      var n := |s| - 1;
      forall t ensures |At(s[..n], t)| <= 1 { assert |At(s, t)| <= 1; }
      AtStrict(s[..n]);
      if n > 0 && s[n - 1].ts == s[n].ts {
        LastIsAt(s[..n]);
        assert |At(s, s[n].ts)| == |At(s[..n], s[n].ts)| + 1;
      }
    }
  }

  lemma JoinDrawn(d: seq<Entry>, m: seq<Entry>, hist: set<Entry>)
    requires OnePerTimestamp(hist) && Drawn(d, hist) && Drawn(m, hist)
    ensures Drawn(Join(d, m), hist)
  {
    hide At, Sorted, StrictlySorted;
    JoinIsSorted(d, m);
    forall t ensures |At(Join(d, m), t)| <= 1 {
      JoinAtMostOne(d, m, hist, t);
    }
    AtStrict(Join(d, m));
    JoinMembers(d, m);
  }

  lemma JoinMembers(d: seq<Entry>, m: seq<Entry>)
    ensures forall e :: e in Join(d, m) ==> e in d || e in m
  {
    SortMembers(d + Minus(m, Keys(d)), Earlier);
    MinusMembers(m, Keys(d));
  }

  lemma JoinAtMostOne(d: seq<Entry>, m: seq<Entry>, hist: set<Entry>, t: int)
    requires OnePerTimestamp(hist) && Drawn(d, hist) && Drawn(m, hist)
    ensures |At(Join(d, m), t)| <= 1
  {
    hide Join, StrictlySorted, JoinTies;
    AtJoin(d, m, t);
    StrictAt(d, t);
    StrictAt(m, t);
    AtMembers(d, t);
    AtMembers(m, t);
    var x, y := At(d, t), At(m, t);
    hide At;
    if x != [] && y != [] {
      assert x[0] in x && y[0] in y;
      assert x[0] == y[0];
      assert x == y;
    }
    TiesAtMostOne(x, y);
  }

  lemma TiesAtMostOne(x: seq<Entry>, y: seq<Entry>)
    requires |x| <= 1 && |y| <= 1 && (x != [] && y != [] ==> x == y)
    ensures |JoinTies(x, y)| <= 1
  {
    hide Minus;
    MinusLength(y, Keys(x));
    if x != [] && y != [] { MinusAll(y, Keys(x)); }
    if y == [] { MinusAll(y, Keys(x)); }
  }

  lemma {:induction false} MinusLength(s: seq<Entry>, ks: set<Key>)
    ensures |Minus(s, ks)| <= |s|
  {
    if s != [] { MinusLength(s[..|s| - 1], ks); }
  }

  lemma NewestDrawn(n: nat, s: seq<Entry>, hist: set<Entry>)
    requires Drawn(s, hist)
    ensures Drawn(Newest(n, s), hist)
  {
  }

  lemma {:induction false} StrictKeys(s: seq<Entry>)
    requires StrictlySorted(s)
    ensures |Keys(s)| == |s|
  {
    if s != [] {
      var n := |s| - 1;
      StrictKeys(s[..n]);
      assert s == s[..n] + [s[n]];
      KeysConcat(s[..n], [s[n]]);
      assert Keys([s[n]]) == {KeyOf(s[n])};
      forall k | k in Keys(s[..n]) ensures k != KeyOf(s[n]) {
        var e :| e in s[..n] && KeyOf(e) == k;
      }
    }
  }

  /** Capping memory before a join costs nothing either, when every timestamp has one entry. */
  lemma JoinThenCap(n: nat, d: seq<Entry>, m: seq<Entry>, hist: set<Entry>)
    requires n > 0 && OnePerTimestamp(hist) && Drawn(d, hist) && Drawn(m, hist)
    ensures Newest(n, Join(d, Newest(n, m))) == Newest(n, Join(d, m))
  {
    if |m| > n {
      var kept := Newest(n, m);
      NewestDrawn(n, m, hist);
      var t, lost := AtNewest(n, m);
      JoinIsSorted(d, m);
      JoinIsSorted(d, kept);
      forall u | u > t ensures At(Join(d, m), u) == At(Join(d, kept), u) {
        SameJoinAt(d, m, kept, u);
      }
      NothingLostAt(m, kept, t, lost);
      SameJoinAt(d, m, kept, t);
      EnoughRecent(n, d, kept, t, hist);
      assert At(Join(d, m), t) == [] + At(Join(d, kept), t);
      SameNewest(n, Join(d, m), Join(d, kept), t, []);
    }
  }

  lemma SameJoinAt(d: seq<Entry>, m: seq<Entry>, k: seq<Entry>, t: int)
    requires At(m, t) == At(k, t)
    ensures At(Join(d, m), t) == At(Join(d, k), t)
  {
    AtJoin(d, m, t);
    AtJoin(d, k, t);
  }

  lemma NothingLostAt(m: seq<Entry>, kept: seq<Entry>, t: int, lost: seq<Entry>)
    requires StrictlySorted(m) && kept != [] && kept[0].ts == t
    requires At(m, t) == lost + At(kept, t)
    ensures At(m, t) == At(kept, t)
  {
    StrictAt(m, t);
    AtMembers(kept, t);
    assert kept[0] in At(kept, t);
    assert lost == [];
  }

  lemma EnoughRecent(n: nat, d: seq<Entry>, m: seq<Entry>, t: int, hist: set<Entry>)
    requires OnePerTimestamp(hist) && Drawn(d, hist) && Drawn(m, hist) && |m| >= n
    requires forall e :: e in m ==> e.ts >= t
    ensures |From(Join(d, m), t)| >= n
  {
    var f := From(Join(d, m), t);
    JoinDrawn(d, m, hist);
    CutMembers(Join(d, m), t - 1);
    JoinKeys(d, m);
    CutStrict(Join(d, m), t - 1);
    forall k | k in Keys(m) ensures k in Keys(f) {
      var e :| e in Join(d, m) && KeyOf(e) == k;
      assert e in f;
    }
    StrictKeys(m);
    StrictKeys(f);
    SubsetSize(Keys(m), Keys(f));
  }

  lemma {:induction false} CutStrict(s: seq<Entry>, cutoff: int)
    requires StrictlySorted(s)
    ensures StrictlySorted(Cut(s, cutoff))
  {
    if s != [] {
      var n := |s| - 1;
      CutStrict(s[..n], cutoff);
      CutMembers(s[..n], cutoff);
      var r := Cut(s[..n], cutoff);
      forall i | 0 <= i < |r| ensures r[i].ts < s[n].ts {
        assert r[i] in r;
        var k :| 0 <= k < n && s[k] == r[i];
      }
    }
  }

  lemma SubsetSize(a: set<Key>, b: set<Key>)
    requires a <= b
    ensures |a| <= |b|
  {
    assert b == a + (b - a);
  }

  lemma NewestTwice(n: nat, s: seq<Entry>)
    ensures Newest(n, Newest(n, s)) == Newest(n, s)
  {
  }

  /** Joins of lists with the same newest entries have the same newest entries. */
  lemma JoinRespectsNewest(n: nat, d: seq<Entry>, e: seq<Entry>, m: seq<Entry>, k: seq<Entry>, hist: set<Entry>)
    requires n > 0 && OnePerTimestamp(hist)
    requires Drawn(d, hist) && Drawn(e, hist) && Drawn(m, hist) && Drawn(k, hist)
    requires Newest(n, d) == Newest(n, e) && Newest(n, m) == Newest(n, k)
    ensures Newest(n, Join(d, m)) == Newest(n, Join(e, k))
  {
    JoinThenCap(n, d, m, hist);
    JoinThenCap(n, e, k, hist);
    var mk := Newest(n, m);
    NewestDrawn(n, m, hist);
    DrawnClean(n, d, mk, hist);
    DrawnClean(n, e, mk, hist);
    CapThenJoin(n, d, mk);
    CapThenJoin(n, e, mk);
  }

  lemma DrawnClean(n: nat, d: seq<Entry>, m: seq<Entry>, hist: set<Entry>)
    requires OnePerTimestamp(hist) && Drawn(d, hist) && Drawn(m, hist)
    ensures CleanBoundary(n, d, m)
  {
  }

  /** The join holds at least as many recent entries as its disk side. */
  lemma JoinKeepsLength(disk: seq<Entry>, memory: seq<Entry>, t: int)
    requires forall e :: e in disk ==> e.ts >= t
    ensures |From(Join(disk, memory), t)| >= |disk|
  {
    FromSort(disk + Minus(memory, Keys(disk)), t);
    FromConcat(disk, Minus(memory, Keys(disk)), t);
    FromEvery(disk, t);
  }

  lemma {:induction false} FromInsert(s: seq<Entry>, x: Entry, t: int)
    ensures |From(Insert(s, x, Earlier), t)| == |From(s, t)| + (if x.ts >= t then 1 else 0)
  {
    if s != [] && !Earlier(s[|s| - 1], x) {
      var n := |s| - 1;
      FromInsert(s[..n], x, t);
      var r := Insert(s[..n], x, Earlier);
      assert (r + [s[n]])[..|r|] == r;
    } else {
      assert (s + [x])[..|s|] == s;
    }
  }

  lemma {:induction false} FromSort(s: seq<Entry>, t: int)
    ensures |From(StableSort(s, Earlier), t)| == |From(s, t)|
  {
    if s != [] {
      var n := |s| - 1;
      FromSort(s[..n], t);
      FromInsert(StableSort(s[..n], Earlier), s[n], t);
    }
  }

  lemma {:induction false} FromConcat(a: seq<Entry>, b: seq<Entry>, t: int)
    ensures From(a + b, t) == From(a, t) + From(b, t)
  {
    if b == [] {
      assert a + b == a;
    } else {
      var n := |b| - 1;
      assert (a + b)[..|a + b| - 1] == a + b[..n];
      FromConcat(a, b[..n], t);
    }
  }

  lemma {:induction false} FromEvery(s: seq<Entry>, t: int)
    requires forall e :: e in s ==> e.ts >= t
    ensures From(s, t) == s
  {
    if s != [] {
      var n := |s| - 1;
      assert s[n] in s;
      FromEvery(s[..n], t);
      assert s == s[..n] + [s[n]];
    }
  }
}
