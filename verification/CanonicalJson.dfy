/**
 canonicalJson of src/dynamic-config.ts, the text whose hash is the fingerprint of the static groups:
 JSON (RFC 8259) with object keys in code-unit order. Texts and strings are sequences of UTF-16 code units.
 */
module CanonicalJson {
  import opened Seqs

  type Unit = x: int | 0 <= x < 0x10000

  type Text = seq<Unit>

  /** The characters of a number token: digits, minus, plus, point, e, E (RFC 8259, section 6). */
  predicate NumberUnit(u: Unit) {
    48 <= u <= 57 || u == 45 || u == 43 || u == 46 || u == 101 || u == 69
  }

  predicate IsNumber(t: Text) {
    t != [] && (48 <= t[0] <= 57 || t[0] == 45) && forall i :: 0 <= i < |t| ==> NumberUnit(t[i])
  }

  type Number = t: Text | IsNumber(t) witness [48]

  /** A configuration value. A number is its token; Undefined is what an absent optional field may hold. */
  datatype Json =
    | Null
    | Undefined
    | Bool(b: bool)
    | Num(token: Number)
    | Str(s: Text)
    | Arr(items: seq<Json>)
    | Obj(fields: map<Text, Json>)

  // ---- strings: QuoteJSONString (ECMA-262, section 25.5.2.3) ----

  predicate IsLead(u: Unit) { 0xD800 <= u < 0xDC00 }

  predicate IsTrail(u: Unit) { 0xDC00 <= u < 0xE000 }

  function Hex(d: int): Unit
    requires 0 <= d < 16
  {
    if d < 10 then 48 + d else 87 + d
  }

  function UnicodeEscape(u: Unit): Text {
    [92, 117, Hex(u / 4096), Hex(u / 256 % 16), Hex(u / 16 % 16), Hex(u % 16)]
  }

  /** One code unit that is not half of a surrogate pair. */
  function EscapeUnit(u: Unit): Text {
    if u == 8 then [92, 98] else if u == 9 then [92, 116] else if u == 10 then [92, 110]
    else if u == 12 then [92, 102] else if u == 13 then [92, 114]
    else if u == 34 then [92, 34] else if u == 92 then [92, 92]
    else if u < 32 || IsLead(u) || IsTrail(u) then UnicodeEscape(u)
    else [u]
  }

  function Escape(s: Text): Text {
    if s == [] then []
    else if |s| > 1 && IsLead(s[0]) && IsTrail(s[1]) then [s[0], s[1]] + Escape(s[2..])
    else EscapeUnit(s[0]) + Escape(s[1..])
  }

  function Quote(s: Text): Text { [34] + Escape(s) + [34] }

  // ---- key order: the default Array.prototype.sort compares code units ----

  predicate LexLess(a: Text, b: Text) {
    if a == [] then b != []
    else if b == [] then false
    else if a[0] == b[0] then LexLess(a[1..], b[1..])
    else a[0] < b[0]
  }

  lemma {:induction false} LexTotal(a: Text, b: Text)
    ensures a != b ==> LexLess(a, b) || LexLess(b, a)
  {
    if a != [] && b != [] && a[0] == b[0] {
      LexTotal(a[1..], b[1..]);
      assert a == [a[0]] + a[1..] && b == [b[0]] + b[1..];
    }
  }

  lemma {:induction false} LexTransitive(a: Text, b: Text, c: Text)
    requires LexLess(a, b) && LexLess(b, c)
    ensures LexLess(a, c)
  {
    if a != [] && b[0] == a[0] && c[0] == b[0] { LexTransitive(a[1..], b[1..], c[1..]); }
  }

  ghost predicate IsLeast(k: Text, ks: set<Text>) {
    k in ks && forall j :: j in ks && j != k ==> LexLess(k, j)
  }

  lemma ExtendLeast(k: Text, x: Text, ks: set<Text>) returns (l: Text)
    requires x !in ks && IsLeast(k, ks)
    ensures IsLeast(l, ks + {x})
  {
    LexTotal(k, x);
    l := if LexLess(x, k) then x else k;
    forall j | j in ks + {x} && j != l ensures LexLess(l, j) {
      if l == x && j != k { LexTransitive(x, k, j); }
    }
  }

  lemma LeastExists(ks: set<Text>) returns (l: Text)
    requires ks != {}
    ensures IsLeast(l, ks)
  {
    var x :| x in ks;
    if ks == {x} {
      l := x;
    } else {
      var k := LeastExists(ks - {x});
      l := ExtendLeast(k, x, ks - {x});
      assert (ks - {x}) + {x} == ks;
    }
  }

  /** Object.keys(record).sort(). */
  ghost function SortedKeys(ks: set<Text>): (r: seq<Text>)
    ensures forall k :: k in r <==> k in ks
  {
    if ks == {} then []
    else
      assert exists k :: IsLeast(k, ks) by { var l := LeastExists(ks); }
      var k :| IsLeast(k, ks);
      [k] + SortedKeys(ks - {k})
  }

  ghost predicate Increasing(ks: seq<Text>) {
    forall i, j :: 0 <= i < j < |ks| ==> LexLess(ks[i], ks[j])
  }

  lemma {:induction false} KeysAreSorted(ks: set<Text>)
    ensures Increasing(SortedKeys(ks))
  {
    if ks != {} {
      var r := SortedKeys(ks);
      KeysAreSorted(ks - {r[0]});
      assert r[1..] == SortedKeys(ks - {r[0]});
      forall j | 1 <= j < |r| ensures LexLess(r[0], r[j]) {
        assert r[j] == r[1..][j - 1];
        assert r[j] in SortedKeys(ks - {r[0]});
      }
      forall i, j | 1 <= i < j < |r| ensures LexLess(r[i], r[j]) {
        assert r[i] == r[1..][i - 1] && r[j] == r[1..][j - 1];
      }
    }
  }

  // ---- the printer ----

  const TRUE: Text := [116, 114, 117, 101]
  const FALSE: Text := [102, 97, 108, 115, 101]
  const NULL: Text := [110, 117, 108, 108]
  const COMMA: Unit := 44
  const COLON: Unit := 58

  ghost function Print(v: Json): Text
    decreases v, 0
  {
    match v
    case Null => NULL
    case Undefined => NULL
    case Bool(b) => if b then TRUE else FALSE
    case Num(t) => t
    case Str(s) => Quote(s)
    case Arr(items) => [91] + CommaJoin(PrintItems(items)) + [93]
    case Obj(fields) => [123] + CommaJoin(PrintFields(v, fields, SortedKeys(fields.Keys))) + [125]
  }

  /** Array.prototype.join(','). */
  function CommaJoin(parts: seq<Text>): Text
    decreases |parts|, 1
  {
    if parts == [] then [] else parts[0] + JoinTail(parts)
  }

  function JoinTail(parts: seq<Text>): Text
    requires parts != []
    decreases |parts|, 0
  {
    if |parts| == 1 then [] else [COMMA] + CommaJoin(parts[1..])
  }

  ghost function PrintItems(items: seq<Json>): (r: seq<Text>)
    ensures |r| == |items|
    decreases items, 0
  {
    if items == [] then [] else [Print(items[0])] + PrintItems(items[1..])
  }

  ghost function PrintEntry(whole: Json, fields: map<Text, Json>, k: Text): Text
    requires k in fields && fields[k] < whole
    decreases whole, 0, 0
  {
    Quote(k) + [COLON] + Print(fields[k])
  }

  ghost function PrintFields(whole: Json, fields: map<Text, Json>, ks: seq<Text>): (r: seq<Text>)
    requires forall i :: 0 <= i < |ks| ==> ks[i] in fields
    requires forall k :: k in fields ==> fields[k] < whole
    ensures |r| == |ks|
    decreases whole, 0, |ks| + 1
  {
    if ks == [] then [] else [PrintEntry(whole, fields, ks[0])] + PrintFields(whole, fields, ks[1..])
  }

  // ---- equality up to key order ----

  /** The value with every Undefined read as Null, which is how it prints. Maps carry no key order. */
  function Norm(v: Json): Json
    decreases v, 0
  {
    match v
    case Undefined => Null
    case Arr(items) => Arr(NormItems(items))
    case Obj(fields) => Obj(map k | k in fields :: Norm(fields[k]))
    case _ => v
  }

  function NormItems(items: seq<Json>): seq<Json>
    decreases items, 0
  {
    if items == [] then [] else [Norm(items[0])] + NormItems(items[1..])
  }

  // ---- unambiguous strings ----

  lemma HexInjective(a: int, b: int)
    requires 0 <= a < 16 && 0 <= b < 16 && Hex(a) == Hex(b)
    ensures a == b
  {
  }

  lemma UnicodeEscapeInjective(u: Unit, v: Unit)
    requires UnicodeEscape(u) == UnicodeEscape(v)
    ensures u == v
  {
    var x, y := UnicodeEscape(u), UnicodeEscape(v);
    assert x[2] == y[2] && x[3] == y[3] && x[4] == y[4] && x[5] == y[5];
    HexInjective(u / 4096, v / 4096);
    HexInjective(u / 256 % 16, v / 256 % 16);
    HexInjective(u / 16 % 16, v / 16 % 16);
    HexInjective(u % 16, v % 16);
    FourDigits(u);
    FourDigits(v);
  }

  lemma FourDigits(u: Unit)
    ensures u == 4096 * (u / 4096) + 256 * (u / 256 % 16) + 16 * (u / 16 % 16) + u % 16
  {
    assert u / 256 == (u / 16) / 16;
    assert u / 4096 == (u / 256) / 16;
  }

  /** How many units of `s` its first escape stands for. */
  function HeadSize(s: Text): nat
    requires s != []
  {
    if |s| > 1 && IsLead(s[0]) && IsTrail(s[1]) then 2 else 1
  }

  function HeadEscape(s: Text): Text
    requires s != []
  {
    if HeadSize(s) == 2 then [s[0], s[1]] else EscapeUnit(s[0])
  }

  lemma EscapeSplits(s: Text)
    requires s != []
    ensures Escape(s) == HeadEscape(s) + Escape(s[HeadSize(s)..])
    ensures HeadEscape(s) != [] && HeadEscape(s)[0] != 34
  {
  }

  lemma EscapeUnitForms(u: Unit)
    ensures var e := EscapeUnit(u);
      || (e == [u] && u != 92 && u != 34 && !IsLead(u) && !IsTrail(u))
      || (|e| == 2 && e[0] == 92 && e[1] != 117)
      || (|e| == 6 && e[0] == 92 && e[1] == 117 && e == UnicodeEscape(u))
  {
  }

  lemma SameUnit(u: Unit, v: Unit, x: Text, y: Text)
    requires EscapeUnit(u) + x == EscapeUnit(v) + y
    ensures u == v
  {
    EscapeUnitForms(u);
    EscapeUnitForms(v);
    var a, b := EscapeUnit(u), EscapeUnit(v);
    var t := a + x;
    assert t[0] == a[0] == b[0];
    if |a| > 1 { assert t[1] == a[1]; }
    if |b| > 1 { assert t[1] == b[1]; }
    if |a| == 6 && |b| == 6 {
      assert t[..6] == a && t[..6] == b;
      UnicodeEscapeInjective(u, v);
    }
  }

  /** Two strings whose escaped texts start alike start with the same units. */
  lemma SameHead(a: Text, b: Text, x: Text, y: Text)
    requires a != [] && b != [] && HeadEscape(a) + x == HeadEscape(b) + y
    ensures HeadSize(a) == HeadSize(b) && a[..HeadSize(a)] == b[..HeadSize(a)]
    ensures HeadEscape(a) == HeadEscape(b) && x == y
  {
    var p, q := HeadEscape(a), HeadEscape(b);
    var t := p + x;
    assert t[0] == p[0] == q[0];
    EscapeUnitForms(a[0]);
    EscapeUnitForms(b[0]);
    if HeadSize(a) == 2 {
      assert t[1] == p[1] && t[1] == q[1];
    } else {
      assert HeadSize(b) == 1;
      SameUnit(a[0], b[0], x, y);
    }
    assert p == q;
    assert x == t[|p|..] && y == (q + y)[|q|..];
  }

  lemma {:induction false} EscapeUnambiguous(a: Text, b: Text, r: Text, s: Text)
    requires Escape(a) + [34] + r == Escape(b) + [34] + s
    ensures a == b && r == s
    decreases |a|
  {
    QuoteComesFirst(a, r);
    QuoteComesFirst(b, s);
    if a == [] {
      EndOfText(Escape(a), Escape(b), 34, r, s);
    } else {
      EscapeSplits(a);
      EscapeSplits(b);
      var n, m := HeadSize(a), HeadSize(b);
      Regroup(HeadEscape(a), Escape(a[n..]), 34, r);
      Regroup(HeadEscape(b), Escape(b[m..]), 34, s);
      SameHead(a, b, Escape(a[n..]) + [34] + r, Escape(b[m..]) + [34] + s);
      EscapeUnambiguous(a[n..], b[m..], r, s);
      assert a == a[..n] + a[n..] && b == b[..m] + b[m..];
    }
  }

  lemma QuoteComesFirst(a: Text, r: Text)
    ensures (Escape(a) + [34] + r)[0] == 34 <==> a == []
  {
  }

  lemma EndOfText(x: Text, y: Text, close: Unit, r: Text, s: Text)
    requires x == [] && y == [] && x + [close] + r == y + [close] + s
    ensures r == s
  {
    assert x + [close] + r == [close] + r && y + [close] + s == [close] + s;
    assert r == ([close] + r)[1..] && s == ([close] + s)[1..];
  }

  lemma QuoteUnambiguous(a: Text, b: Text, r: Text, s: Text)
    requires Quote(a) + r == Quote(b) + s
    ensures a == b && r == s
  {
    hide Escape;
    assert Quote(a) + r == [34] + (Escape(a) + [34] + r);
    assert Quote(b) + s == [34] + (Escape(b) + [34] + s);
    assert Escape(a) + [34] + r == (Quote(a) + r)[1..];
    assert Escape(b) + [34] + s == (Quote(b) + s)[1..];
    EscapeUnambiguous(a, b, r, s);
  }

  // ---- unambiguous values ----

  /** What may follow a value: nothing, a comma, or a closing bracket or brace. */
  predicate Delimited(r: Text) { r == [] || r[0] == COMMA || r[0] == 93 || r[0] == 125 }

  lemma NumberUnambiguous(a: Number, b: Number, r: Text, s: Text)
    requires a + r == b + s && Delimited(r) && Delimited(s)
    ensures a == b && r == s
  {
    TokenEnds(a, r);
    TokenEnds(b, s);
    assert a == (a + r)[..|a|] && b == (b + s)[..|b|] && r == (a + r)[|a|..] && s == (b + s)[|b|..];
  }

  /** The length of the longest prefix made of number characters. */
  function TokenLength(t: Text): nat {
    if t == [] || !NumberUnit(t[0]) then 0 else 1 + TokenLength(t[1..])
  }

  lemma {:induction false} TokenEnds(a: Text, r: Text)
    requires (forall i :: 0 <= i < |a| ==> NumberUnit(a[i])) && Delimited(r)
    ensures TokenLength(a + r) == |a|
  {
    if a == [] {
      assert a + r == r;
    } else {
      assert (a + r)[1..] == a[1..] + r;
      TokenEnds(a[1..], r);
    }
  }

  /** The first unit tells the kinds of value apart. */
  ghost function Kind(v: Json): nat {
    match v
    case Null => 0
    case Undefined => 0
    case Bool(b) => if b then 1 else 2
    case Num(_) => 3
    case Str(_) => 4
    case Arr(_) => 5
    case Obj(_) => 6
  }

  function KindOfUnit(u: Unit): int {
    if u == 110 then 0 else if u == 116 then 1 else if u == 102 then 2
    else if 48 <= u <= 57 || u == 45 then 3
    else if u == 34 then 4 else if u == 91 then 5 else if u == 123 then 6 else -1
  }

  lemma FirstUnit(v: Json)
    ensures Print(v) != [] && KindOfUnit(Print(v)[0]) == Kind(v)
  {
  }

  lemma SameKind(v: Json, w: Json, r: Text, s: Text)
    requires Print(v) + r == Print(w) + s
    ensures Kind(v) == Kind(w)
  {
    FirstUnit(v);
    FirstUnit(w);
    assert (Print(v) + r)[0] == Print(v)[0] && (Print(w) + s)[0] == Print(w)[0];
  }

  lemma DropPrefix(p: Text, x: Text, y: Text)
    requires p + x == p + y
    ensures x == y
  {
    assert x == (p + x)[|p|..] && y == (p + y)[|p|..];
  }

  lemma Peel(p: Text, x: Text, y: Text, close: Unit, r: Text, s: Text)
    requires (p + x + [close]) + r == (p + y + [close]) + s
    ensures x + [close] + r == y + [close] + s
  {
    assert (p + x + [close]) + r == p + (x + [close] + r);
    assert (p + y + [close]) + s == p + (y + [close] + s);
    DropPrefix(p, x + [close] + r, y + [close] + s);
  }

  /** A printed value followed by a delimiter can be read in one way only. */
  lemma {:induction false} Unambiguous(v: Json, w: Json, r: Text, s: Text)
    requires Print(v) + r == Print(w) + s && Delimited(r) && Delimited(s)
    ensures Norm(v) == Norm(w) && r == s
    decreases v, 1
  {
    SameKind(v, w, r, s);
    match v
    case Null => DropPrefix(NULL, r, s);
    case Undefined => DropPrefix(NULL, r, s);
    case Bool(b) => DropPrefix(if b then TRUE else FALSE, r, s);
    case Num(t) => NumberUnambiguous(t, w.token, r, s);
    case Str(x) => QuoteUnambiguous(x, w.s, r, s);
    case Arr(items) => ArrayUnambiguous(v, w, r, s);
    case Obj(fields) => ObjectUnambiguous(v, w, r, s);
  }

  lemma {:induction false} ArrayUnambiguous(v: Json, w: Json, r: Text, s: Text)
    requires v.Arr? && w.Arr? && Print(v) + r == Print(w) + s
    ensures Norm(v) == Norm(w) && r == s
    decreases v, 0
  {
    Peel([91], CommaJoin(PrintItems(v.items)), CommaJoin(PrintItems(w.items)), 93, r, s);
    ItemsUnambiguous(v.items, w.items, r, s);
  }

  lemma {:induction false} ObjectUnambiguous(v: Json, w: Json, r: Text, s: Text)
    requires v.Obj? && w.Obj? && Print(v) + r == Print(w) + s
    ensures Norm(v) == Norm(w) && r == s
    decreases v, 0
  {
    var ks, ls := SortedKeys(v.fields.Keys), SortedKeys(w.fields.Keys);
    Peel([123], CommaJoin(PrintFields(v, v.fields, ks)), CommaJoin(PrintFields(w, w.fields, ls)), 125, r, s);
    FieldsUnambiguous(v, w, v.fields, w.fields, ks, ls, r, s);
    SameFields(v, w, ks);
  }

  lemma SameFields(v: Json, w: Json, ks: seq<Text>)
    requires v.Obj? && w.Obj?
    requires ks == SortedKeys(v.fields.Keys) == SortedKeys(w.fields.Keys)
    requires forall k :: k in ks ==> Norm(v.fields[k]) == Norm(w.fields[k])
    ensures Norm(v) == Norm(w)
  {
  }

  lemma Regroup(head: Text, tail: Text, close: Unit, r: Text)
    requires head != []
    ensures (head + tail) + [close] + r == head + (tail + [close] + r)
    ensures ((head + tail) + [close] + r)[0] == head[0]
    ensures tail == [] ==> (tail + [close] + r)[0] == close
    ensures tail != [] ==> (tail + [close] + r)[0] == tail[0]
  {
  }

  /** A joined, closed list: empty exactly when the closer comes first, else its first part and the rest. */
  lemma ListSplit(parts: seq<Text>, close: Unit, r: Text)
    requires parts != [] ==> parts[0] != [] && parts[0][0] != close
    requires close == 93 || close == 125
    ensures var t := CommaJoin(parts) + [close] + r;
      && (t[0] == close <==> parts == [])
      && (parts != [] ==>
            var x := JoinTail(parts) + [close] + r;
            t == parts[0] + x && Delimited(x) && (x[0] == close <==> |parts| == 1))
  {
    if parts == [] {
      assert CommaJoin(parts) + [close] + r == [close] + r;
    } else {
      Regroup(parts[0], JoinTail(parts), close, r);
    }
  }

  /** What is left of two equal joined lists behind equal first parts. */
  lemma ListRest(ps: seq<Text>, qs: seq<Text>, close: Unit, r: Text, s: Text)
    requires ps != [] && qs != []
    requires JoinTail(ps) + [close] + r == JoinTail(qs) + [close] + s
    requires |ps| == 1 <==> |qs| == 1
    ensures |ps| == 1 ==> r == s
    ensures |ps| > 1 ==> CommaJoin(ps[1..]) + [close] + r == CommaJoin(qs[1..]) + [close] + s
  {
    if |ps| == 1 {
      EndOfText(JoinTail(ps), JoinTail(qs), close, r, s);
    } else {
      Peel([COMMA], CommaJoin(ps[1..]), CommaJoin(qs[1..]), close, r, s);
    }
  }

  lemma {:induction false} ItemsUnambiguous(a: seq<Json>, b: seq<Json>, r: Text, s: Text)
    requires CommaJoin(PrintItems(a)) + [93] + r == CommaJoin(PrintItems(b)) + [93] + s
    ensures NormItems(a) == NormItems(b) && r == s
    decreases a, 0
  {
    var ps, qs := PrintItems(a), PrintItems(b);
    if a != [] { FirstUnit(a[0]); }
    if b != [] { FirstUnit(b[0]); }
    ListSplit(ps, 93, r);
    ListSplit(qs, 93, s);
    if a == [] {
      EndOfText(CommaJoin(ps), CommaJoin(qs), 93, r, s);
    } else {
      Unambiguous(a[0], b[0], JoinTail(ps) + [93] + r, JoinTail(qs) + [93] + s);
      ListRest(ps, qs, 93, r, s);
      assert ps[1..] == PrintItems(a[1..]) && qs[1..] == PrintItems(b[1..]);
      if |a| > 1 {
        ItemsUnambiguous(a[1..], b[1..], r, s);
      } else {
        assert a[1..] == [] && b[1..] == [];
      }
    }
  }

  lemma FieldsStart(v: Json, f: map<Text, Json>, ks: seq<Text>)
    requires forall i :: 0 <= i < |ks| ==> ks[i] in f
    requires forall k :: k in f ==> f[k] < v
    ensures |PrintFields(v, f, ks)| == |ks|
    ensures ks == [] ==> CommaJoin(PrintFields(v, f, ks)) == []
    ensures ks != [] ==>
              && PrintFields(v, f, ks)[0] == PrintEntry(v, f, ks[0])
              && PrintEntry(v, f, ks[0]) != [] && PrintEntry(v, f, ks[0])[0] == 34
              && PrintFields(v, f, ks)[1..] == PrintFields(v, f, ks[1..])
  {
  }

  lemma {:induction false} FieldsUnambiguous(
    v: Json, w: Json, f: map<Text, Json>, g: map<Text, Json>, ks: seq<Text>, ls: seq<Text>, r: Text, s: Text)
    requires forall i :: 0 <= i < |ks| ==> ks[i] in f
    requires forall i :: 0 <= i < |ls| ==> ls[i] in g
    requires forall k :: k in f ==> f[k] < v
    requires forall k :: k in g ==> g[k] < w
    requires CommaJoin(PrintFields(v, f, ks)) + [125] + r == CommaJoin(PrintFields(w, g, ls)) + [125] + s
    ensures ks == ls && r == s
    ensures forall k :: k in ks ==> k in g && Norm(f[k]) == Norm(g[k])
    decreases v, 0, |ks|
  {
    hide Norm, PrintFields, CommaJoin, JoinTail;
    var ps, qs := PrintFields(v, f, ks), PrintFields(w, g, ls);
    FieldsStart(v, f, ks);
    FieldsStart(w, g, ls);
    ListSplit(ps, 125, r);
    ListSplit(qs, 125, s);
    if ks == [] {
      EndOfText(CommaJoin(ps), CommaJoin(qs), 125, r, s);
    } else {
      EntryUnambiguous(v, w, f, g, ks[0], ls[0], JoinTail(ps) + [125] + r, JoinTail(qs) + [125] + s);
      ListRest(ps, qs, 125, r, s);
      assert ks == [ks[0]] + ks[1..] && ls == [ls[0]] + ls[1..];
      if |ks| > 1 { FieldsUnambiguous(v, w, f, g, ks[1..], ls[1..], r, s); }
    }
  }

  lemma {:induction false} EntryUnambiguous(
    v: Json, w: Json, f: map<Text, Json>, g: map<Text, Json>, k: Text, l: Text, x: Text, y: Text)
    requires k in f && l in g && f[k] < v && g[l] < w
    requires PrintEntry(v, f, k) + x == PrintEntry(w, g, l) + y && Delimited(x) && Delimited(y)
    ensures k == l && x == y && Norm(f[k]) == Norm(g[l])
    decreases v, 0, 0
  {
    EntrySplits(v, f, k, x);
    EntrySplits(w, g, l, y);
    QuoteUnambiguous(k, l, [COLON] + (Print(f[k]) + x), [COLON] + (Print(g[l]) + y));
    DropPrefix([COLON], Print(f[k]) + x, Print(g[l]) + y);
    Unambiguous(f[k], g[l], x, y);
  }

  lemma EntrySplits(v: Json, f: map<Text, Json>, k: Text, x: Text)
    requires k in f && f[k] < v
    ensures PrintEntry(v, f, k) + x == Quote(k) + ([COLON] + (Print(f[k]) + x))
  {
  }

  // ---- reading Undefined as Null does not change the text ----

  lemma {:induction false} NormPrintsTheSame(v: Json)
    ensures Print(Norm(v)) == Print(v)
    decreases v, 0
  {
    match v
    case Arr(items) => NormItemsPrintTheSame(items);
    case Obj(fields) =>
      var n := Norm(v);
      assert n.fields.Keys == fields.Keys;
      NormFieldsPrintTheSame(v, n, SortedKeys(fields.Keys));
    case _ =>
  }

  lemma {:induction false} NormItemsPrintTheSame(items: seq<Json>)
    ensures PrintItems(NormItems(items)) == PrintItems(items) && |NormItems(items)| == |items|
    decreases items, 0
  {
    if items != [] {
      NormPrintsTheSame(items[0]);
      NormItemsPrintTheSame(items[1..]);
      assert NormItems(items)[1..] == NormItems(items[1..]);
    }
  }

  lemma {:induction false} NormFieldsPrintTheSame(v: Json, n: Json, ks: seq<Text>)
    requires v.Obj? && n == Norm(v)
    requires forall i :: 0 <= i < |ks| ==> ks[i] in v.fields && ks[i] in n.fields
    ensures PrintFields(n, n.fields, ks) == PrintFields(v, v.fields, ks)
    decreases v, 0, |ks|
  {
    if ks != [] {
      NormPrintsTheSame(v.fields[ks[0]]);
      NormFieldsPrintTheSame(v, n, ks[1..]);
    }
  }

  /** Two values print the same text exactly when they are equal up to key order (and Undefined reads as Null). */
  lemma CanonicalJsonIsInjective(v: Json, w: Json)
    ensures Print(v) == Print(w) <==> Norm(v) == Norm(w)
  {
    if Print(v) == Print(w) {
      assert Print(v) + [] == Print(w) + [];
      Unambiguous(v, w, [], []);
    }
    NormPrintsTheSame(v);
    NormPrintsTheSame(w);
  }

  /** No Undefined anywhere: what a parsed configuration file holds. */
  ghost predicate Parsed(v: Json) { Norm(v) == v }

  /** For parsed values the text determines the value. */
  lemma ParsedValuesPrintApart(v: Json, w: Json)
    requires Parsed(v) && Parsed(w)
    ensures Print(v) == Print(w) <==> v == w
  {
    CanonicalJsonIsInjective(v, w);
  }

  /** A field that holds undefined shares its text with one that holds null, and not with a record that lacks it. */
  lemma UndefinedFieldReadsAsNull(fields: map<Text, Json>, key: Text)
    ensures Print(Obj(fields[key := Undefined])) == Print(Obj(fields[key := Null]))
    ensures Print(Obj(fields[key := Undefined])) != Print(Obj(fields - {key}))
  {
    var undef, none, gone := Obj(fields[key := Undefined]), Obj(fields[key := Null]), Obj(fields - {key});
    CanonicalJsonIsInjective(undef, none);
    CanonicalJsonIsInjective(undef, gone);
    assert Norm(undef).fields == Norm(none).fields;
    assert key in Norm(undef).fields && key !in Norm(gone).fields;
  }
}
