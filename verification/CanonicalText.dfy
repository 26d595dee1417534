/** The text canonicalJson prints (src/dynamic-config.ts), character by character. */
module CanonicalText {
  import opened Seqs
  import opened CanonicalJson

  /** The code units of an ASCII text. */
  function Ascii(s: string): Text {
    seq(|s|, i requires 0 <= i < |s| => if s[i] as int < 128 then s[i] as int else 63)
  }

  // ---- values ----

  lemma LiteralsAre(token: Number, s: Text)
    ensures Print(Null) == Ascii("null")
    ensures Print(Bool(true)) == Ascii("true") && Print(Bool(false)) == Ascii("false")
    ensures Print(Num(token)) == token
    ensures Print(Str(s)) == Ascii("\"") + Escape(s) + Ascii("\"")
    ensures Print(Arr([])) == Ascii("[]") && Print(Obj(map[])) == Ascii("{}")
  {
    assert SortedKeys({}) == [];
  }

  /** A text without its closing bracket. */
  function Open(t: Text): Text {
    if t == [] then [] else t[..|t| - 1]
  }

  lemma JoinNext(parts: seq<Text>, x: Text)
    ensures CommaJoin(parts + [x]) == if parts == [] then x else CommaJoin(parts) + Ascii(",") + x
  {
    if parts == [] {
      assert [] + [x] == [x];
      assert x + [] == x;
    } else {
      JoinMore(parts, x);
    }
  }

  lemma {:induction false} JoinMore(parts: seq<Text>, x: Text)
    requires parts != []
    ensures CommaJoin(parts + [x]) == CommaJoin(parts) + Ascii(",") + x
  {
    var more := parts + [x];
    assert more[0] == parts[0] && more[1..] == parts[1..] + [x];
    if |parts| == 1 {
      assert parts[1..] == [] && more[1..] == [x];
      assert CommaJoin([x]) == x + [] == x;
      assert CommaJoin(more) == parts[0] + ([COMMA] + x);
      assert CommaJoin(parts) == parts[0] + [];
    } else {
      JoinMore(parts[1..], x);
      var rest := CommaJoin(parts[1..]);
      assert CommaJoin(parts) == parts[0] + ([COMMA] + rest);
      assert CommaJoin(more) == parts[0] + ([COMMA] + (rest + Ascii(",") + x));
    }
  }

  lemma {:induction false} ItemsNext(items: seq<Json>, x: Json)
    ensures PrintItems(items + [x]) == PrintItems(items) + [Print(x)]
  {
    if items == [] {
      assert [] + [x] == [x] && [x][1..] == [];
      assert PrintItems([x]) == [Print(x)] + PrintItems([x][1..]);
    } else {
      assert (items + [x])[0] == items[0] && (items + [x])[1..] == items[1..] + [x];
      ItemsNext(items[1..], x);
      assert PrintItems(items + [x]) == [Print(items[0])] + (PrintItems(items[1..]) + [Print(x)]);
    }
  }

  /** One more item is printed at the end of an array, behind a comma if it is not the first. */
  lemma ArrayGrows(items: seq<Json>, x: Json)
    ensures Print(Arr(items + [x])) ==
            Open(Print(Arr(items))) + (if items == [] then [] else Ascii(",")) + Print(x) + Ascii("]")
  {
    hide CommaJoin, PrintItems;
    ItemsNext(items, x);
    JoinNext(PrintItems(items), Print(x));
    assert Print(Arr(items)) == [91] + CommaJoin(PrintItems(items)) + [93];
    assert Open(Print(Arr(items))) == [91] + CommaJoin(PrintItems(items));
    assert CommaJoin([]) == [] by { NothingJoined(); }
    assert items == [] ==> PrintItems(items) == [];
  }

  lemma NothingJoined()
    ensures CommaJoin([]) == []
  {
  }

  // ---- objects ----

  ghost predicate Greatest(k: Text, ks: set<Text>) {
    forall j :: j in ks ==> LexLess(j, k)
  }

  lemma {:induction false} LessIsOneWay(a: Text, b: Text)
    requires LexLess(a, b)
    ensures !LexLess(b, a) && a != b
  {
    if a != [] && a[0] == b[0] { LessIsOneWay(a[1..], b[1..]); }
  }

  lemma LeastIsUnique(k: Text, l: Text, ks: set<Text>)
    requires IsLeast(k, ks) && IsLeast(l, ks)
    ensures k == l
  {
    if k != l { LessIsOneWay(k, l); }
  }

  lemma FirstKey(ks: set<Text>, k: Text)
    requires IsLeast(k, ks)
    ensures SortedKeys(ks) == [k] + SortedKeys(ks - {k})
  {
    var l := SortedKeys(ks)[0];
    assert IsLeast(l, ks);
    LeastIsUnique(k, l, ks);
  }

  lemma {:induction false} LastKey(ks: set<Text>, k: Text)
    requires Greatest(k, ks) && k !in ks
    ensures SortedKeys(ks + {k}) == SortedKeys(ks) + [k]
    decreases |ks|
  {
    hide SortedKeys, LexLess;
    if ks == {} {
      assert ks + {k} == {k} && {k} - {k} == {};
      FirstKey({k}, k);
      NoKeys();
    } else {
      var l := LeastExists(ks);
      LeastOfMore(l, k, ks);
      assert (ks + {k}) - {l} == (ks - {l}) + {k};
      FirstKey(ks, l);
      FirstKey(ks + {k}, l);
      LastKey(ks - {l}, k);
    }
  }

  lemma NoKeys()
    ensures SortedKeys({}) == []
  {
  }

  lemma LeastOfMore(l: Text, k: Text, ks: set<Text>)
    requires IsLeast(l, ks) && Greatest(k, ks)
    ensures IsLeast(l, ks + {k})
  {
    hide LexLess;
  }

  lemma {:induction false} FieldsNext(f: map<Text, Json>, g: map<Text, Json>, ks: seq<Text>, k: Text)
    requires forall i :: 0 <= i < |ks| ==> ks[i] in f && ks[i] in g && g[ks[i]] == f[ks[i]]
    requires k in g
    ensures PrintFields(Obj(g), g, ks + [k]) == PrintFields(Obj(f), f, ks) + [Quote(k) + [COLON] + Print(g[k])]
  {
    hide Print, Quote;
    if ks == [] {
      assert [] + [k] == [k] && [k][1..] == [];
    } else {
      assert (ks + [k])[0] == ks[0] && (ks + [k])[1..] == ks[1..] + [k];
      FieldsNext(f, g, ks[1..], k);
    }
  }

  /** A field whose key comes after all others is printed last, behind a comma if it is not the first. */
  lemma ObjectGrows(fields: map<Text, Json>, k: Text, v: Json)
    requires Greatest(k, fields.Keys)
    ensures Print(Obj(fields[k := v])) ==
            Open(Print(Obj(fields))) + (if fields == map[] then [] else Ascii(","))
            + Print(Str(k)) + Ascii(":") + Print(v) + Ascii("}")
  {
    if k in fields { LessIsOneWay(k, k); }
    hide CommaJoin, PrintFields, Quote, Print, SortedKeys, Ascii;
    var parts, entry := FieldTexts(fields), Quote(k) + [COLON] + Print(v);
    FieldTextsNext(fields, k, v);
    JoinNext(parts, entry);
    ObjectText(fields);
    ObjectText(fields[k := v]);
    StringText(k);
    NothingJoined();
    NoFields(fields);
    AsciiUnits();
    Assembled(CommaJoin(parts), parts == [], Quote(k), Print(v));
  }

  ghost function FieldTexts(fields: map<Text, Json>): seq<Text> {
    PrintFields(Obj(fields), fields, SortedKeys(fields.Keys))
  }

  lemma FieldTextsNext(fields: map<Text, Json>, k: Text, v: Json)
    requires Greatest(k, fields.Keys) && k !in fields
    ensures FieldTexts(fields[k := v]) == FieldTexts(fields) + [Quote(k) + [COLON] + Print(v)]
  {
    hide PrintFields, Quote, Print;
    var more := fields[k := v];
    var ks := SortedKeys(fields.Keys);
    LastKey(fields.Keys, k);
    assert more.Keys == fields.Keys + {k};
    assert forall i :: 0 <= i < |ks| ==> ks[i] in ks;
    FieldsNext(fields, more, ks, k);
  }

  lemma AsciiUnits()
    ensures Ascii(",") == [44] && Ascii(":") == [58] && Ascii("}") == [125]
  {
  }

  lemma Assembled(joined: Text, first: bool, key: Text, value: Text)
    requires first ==> joined == []
    ensures var entry := key + [58] + value;
            [123] + (if first then entry else joined + [44] + entry) + [125]
            == Open([123] + joined + [125]) + (if first then [] else [44]) + key + [58] + value + [125]
  {
    assert Open([123] + joined + [125]) == [123] + joined;
  }

  lemma NoFields(fields: map<Text, Json>)
    ensures FieldTexts(fields) == [] <==> fields == map[]
  {
    hide PrintFields;
    var ks := SortedKeys(fields.Keys);
    if |ks| == 0 {
      assert forall k :: k in fields ==> k in ks;
    } else {
      assert ks[0] in ks;
    }
  }

  lemma ObjectText(fields: map<Text, Json>)
    ensures Print(Obj(fields)) == [123] + CommaJoin(FieldTexts(fields)) + [125]
  {
  }

  lemma StringText(s: Text)
    ensures Print(Str(s)) == Quote(s)
  {
  }

  // ---- strings, read back as JSON strings (RFC 8259, section 7) ----

  /** The value of a hexadecimal digit. */
  function Digit(u: Unit): Option<int> {
    if 48 <= u <= 57 then Some(u - 48)
    else if 97 <= u <= 102 then Some(u - 87)
    else if 65 <= u <= 70 then Some(u - 55)
    else None
  }

  function FourDigits(t: Text): Option<Unit>
    requires |t| >= 4
  {
    match (Digit(t[0]), Digit(t[1]), Digit(t[2]), Digit(t[3]))
    case (Some(a), Some(b), Some(c), Some(d)) => Some(((a * 16 + b) * 16 + c) * 16 + d)
    case _ => None
  }

  /** What a character behind a backslash stands for. */
  function Short(u: Unit): Option<Unit> {
    if u == '"' as int || u == '\\' as int || u == '/' as int then Some(u)
    else if u == 'b' as int then Some(8)
    else if u == 't' as int then Some(9)
    else if u == 'n' as int then Some(10)
    else if u == 'f' as int then Some(12)
    else if u == 'r' as int then Some(13)
    else None
  }

  /** The text between the quotes of a JSON string, or None if it is not one. */
  function ReadString(t: Text): Option<Text> {
    if t == [] then Some([])
    else if t[0] == '\\' as int then
      if |t| >= 6 && t[1] == 'u' as int && FourDigits(t[2..6]).Some? then
        Prepend(FourDigits(t[2..6]).value, ReadString(t[6..]))
      else if |t| >= 2 && Short(t[1]).Some? then Prepend(Short(t[1]).value, ReadString(t[2..]))
      else None
    else if t[0] < 32 || t[0] == '"' as int then None
    else Prepend(t[0], ReadString(t[1..]))
  }

  function Prepend(u: Unit, rest: Option<Text>): Option<Text> {
    match rest
    case None => None
    case Some(s) => Some([u] + s)
  }

  lemma HexReads(d: int)
    requires 0 <= d < 16
    ensures Digit(Hex(d)) == Some(d)
  {
  }

  lemma UnicodeReads(u: Unit)
    ensures |UnicodeEscape(u)| == 6 && UnicodeEscape(u)[..2] == Ascii("\\u")
    ensures FourDigits(UnicodeEscape(u)[2..]) == Some(u)
  {
    HexReads(u / 4096);
    HexReads(u / 256 % 16);
    HexReads(u / 16 % 16);
    HexReads(u % 16);
    hide Hex, Digit;
    Digits(u);
  }

  lemma Digits(u: Unit)
    ensures ((u / 4096 * 16 + u / 256 % 16) * 16 + u / 16 % 16) * 16 + u % 16 == u
  {
    assert u / 256 == u / 4096 * 16 + u / 256 % 16;
    assert u / 16 == u / 256 * 16 + u / 16 % 16;
  }

  /** Reading one escaped unit off the front of a text. */
  lemma UnitReads(u: Unit, rest: Text)
    ensures ReadString(EscapeUnit(u) + rest) == Prepend(u, ReadString(rest))
  {
    var t := EscapeUnit(u) + rest;
    var e := EscapeUnit(u);
    if e == UnicodeEscape(u) {
      UnicodeReads(u);
      assert t[2..6] == UnicodeEscape(u)[2..] && t[6..] == rest;
      assert t[0] == e[0] && t[1] == e[1];
      assert Ascii("\\u")[0] == 92 && Ascii("\\u")[1] == 117;
    } else if |e| == 2 {
      assert t[2..] == rest && t[0] == e[0] && t[1] == e[1];
    } else {
      assert t[1..] == rest && t[0] == e[0];
    }
  }

  /** An escaped string reads back as the string. */
  lemma {:induction false} EscapedReadsBack(s: Text)
    ensures ReadString(Escape(s)) == Some(s)
  {
    hide EscapeUnit;
    if s != [] {
      if |s| > 1 && IsLead(s[0]) && IsTrail(s[1]) {
        EscapedReadsBack(s[2..]);
        var rest := Escape(s[2..]);
        assert Escape(s) == [s[0], s[1]] + rest;
        assert ([s[0], s[1]] + rest)[1..] == [s[1]] + rest && ([s[1]] + rest)[1..] == rest;
        assert [s[0]] + ([s[1]] + s[2..]) == s;
      } else {
        EscapedReadsBack(s[1..]);
        UnitReads(s[0], Escape(s[1..]));
        assert [s[0]] + s[1..] == s;
      }
    }
  }

  /**
   * Which form a unit takes: the seven short escapes; itself if it is neither a control character nor a lone surrogate;
   * else a backslash, u and four lower-case digits. A surrogate pair stands for itself.
   */
  lemma FormsAre(u: Unit, v: Unit, rest: Text)
    ensures Escape([8]) == Ascii("\\b") && Escape([9]) == Ascii("\\t") && Escape([10]) == Ascii("\\n")
    ensures Escape([12]) == Ascii("\\f") && Escape([13]) == Ascii("\\r")
    ensures Escape([34]) == Ascii("\\\"") && Escape([92]) == Ascii("\\\\")
    ensures 32 <= u && u != 34 && u != 92 && !(0xD800 <= u <= 0xDFFF) ==> Escape([u]) == [u]
    ensures (u < 32 && u !in {8, 9, 10, 12, 13}) || 0xD800 <= u <= 0xDFFF ==>
              var t := Escape([u]);
              |t| == 6 && t[..2] == Ascii("\\u") && forall i :: 2 <= i < 6 ==> 48 <= t[i] <= 57 || 97 <= t[i] <= 102
    ensures if 0xD800 <= u <= 0xDBFF && 0xDC00 <= v <= 0xDFFF then Escape([u, v] + rest) == [u, v] + Escape(rest)
            else Escape([u, v] + rest) == Escape([u]) + Escape([v] + rest)
  {
    forall x: Unit ensures Escape([x]) == EscapeUnit(x) {
      assert [x][1..] == [] && EscapeUnit(x) + [] == EscapeUnit(x);
    }
    assert ([u, v] + rest)[2..] == rest && ([u, v] + rest)[1..] == [v] + rest;
  }
}
