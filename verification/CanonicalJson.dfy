/** The canonical text of a JSON document, hashed to identify a resolved scenario.
    Two documents have the same text exactly when they are equal up to the order of
    object members. */
module CanonicalJson {
  import opened Texts
  import opened Json
  import opened Sorting

  /** A JavaScript string is a sequence of UTF-16 code units, paired or not. */
  type CodeUnit = u: int | 0 <= u < 0x1_0000
  type Text = seq<CodeUnit>
  type Document = Json<Text>

  const QUOTE: CodeUnit := 0x22
  const COMMA: CodeUnit := 0x2C
  const COLON: CodeUnit := 0x3A
  const BACKSLASH: CodeUnit := 0x5C

  // ----- strings -----

  predicate HighSurrogate(u: CodeUnit) { 0xD800 <= u < 0xDC00 }

  predicate LowSurrogate(u: CodeUnit) { 0xDC00 <= u < 0xE000 }

  function HexDigit(d: nat): CodeUnit
    requires d < 16
  {
    if d < 10 then 0x30 + d else 0x57 + d
  }

  function Hex4(u: CodeUnit): Text {
    [HexDigit(u / 0x1000), HexDigit(u / 0x100 % 16), HexDigit(u / 16 % 16), HexDigit(u % 16)]
  }

  /** One code unit inside a string literal; section 7 of RFC 8259, with unpaired
      surrogates escaped as ECMAScript does. */
  function EscapeUnit(u: CodeUnit): Text {
    if u == QUOTE || u == BACKSLASH then [BACKSLASH, u]
    else if u == 0x08 then [BACKSLASH, 0x62]
    else if u == 0x09 then [BACKSLASH, 0x74]
    else if u == 0x0A then [BACKSLASH, 0x6E]
    else if u == 0x0C then [BACKSLASH, 0x66]
    else if u == 0x0D then [BACKSLASH, 0x72]
    else if u < 0x20 || HighSurrogate(u) || LowSurrogate(u) then [BACKSLASH, 0x75] + Hex4(u)
    else [u]
  }

  predicate StartsPair(s: Text) { |s| > 1 && HighSurrogate(s[0]) && LowSurrogate(s[1]) }

  function Escape(s: Text): Text {
    if s == [] then []
    else if StartsPair(s) then s[..2] + Escape(s[2..])
    else EscapeUnit(s[0]) + Escape(s[1..])
  }

  function Quoted(s: Text): Text { [QUOTE] + Escape(s) + [QUOTE] }

  // ----- documents -----

  const NULL_TEXT: Text := [0x6E, 0x75, 0x6C, 0x6C]
  const TRUE_TEXT: Text := [0x74, 0x72, 0x75, 0x65]
  const FALSE_TEXT: Text := [0x66, 0x61, 0x6C, 0x73, 0x65]

  datatype Entry = Entry(key: Text, text: Text)

  /** The default order of `Array.prototype.sort`: by code units. */
  predicate TextLe(a: Text, b: Text)
    decreases |a|
  {
    a == [] || (b != [] && (a[0] < b[0] || (a[0] == b[0] && TextLe(a[1..], b[1..]))))
  }

  predicate KeyLe(a: Entry, b: Entry) { TextLe(a.key, b.key) }

  function Joined(parts: seq<Text>): Text {
    if parts == [] then []
    else if |parts| == 1 then parts[0]
    else parts[0] + [COMMA] + Joined(parts[1..])
  }

  function MemberText(e: Entry): Text { Quoted(e.key) + [COLON] + e.text }

  function MemberTexts(entries: seq<Entry>): (r: seq<Text>)
    ensures |r| == |entries|
    ensures forall i | 0 <= i < |r| :: r[i] == MemberText(entries[i])
  {
    if entries == [] then [] else [MemberText(entries[0])] + MemberTexts(entries[1..])
  }

  function Canonical(v: Document): Text
    decreases v, 1
  {
    match v
    case Null => NULL_TEXT
    case Bool(b) => if b then TRUE_TEXT else FALSE_TEXT
    case Num(numeral) => numeral
    case Str(s) => Quoted(s)
    case Arr(items) => [0x5B] + Joined(ItemTexts(items)) + [0x5D]
    case Obj(fields) => [0x7B] + Joined(MemberTexts(Sort(Entries(fields), KeyLe))) + [0x7D]
  }

  function ItemTexts(items: seq<Document>): (r: seq<Text>)
    ensures |r| == |items|
    ensures forall i | 0 <= i < |r| :: r[i] == Canonical(items[i])
    decreases items, 0
  {
    if items == [] then [] else [Canonical(items[0])] + ItemTexts(items[1..])
  }

  function EntryOf(f: Field<Text>): Entry
    decreases f, 0
  {
    assert f.value < f;
    Entry(f.key, Canonical(f.value))
  }

  function Entries(fields: seq<Field<Text>>): (r: seq<Entry>)
    ensures |r| == |fields|
    ensures forall i | 0 <= i < |r| :: r[i] == EntryOf(fields[i])
    decreases fields, 0
  {
    if fields == [] then [] else [EntryOf(fields[0])] + Entries(fields[1..])
  }

  // ----- well-formed documents and equality up to member order -----

  predicate NumeralUnit(u: CodeUnit) { 0x30 <= u <= 0x39 || u == 0x2D || u == 0x2B || u == 0x2E || u == 0x65 }

  /** The numerals ECMAScript prints for finite numbers. */
  predicate Numeral(s: Text) {
    s != [] && (0x30 <= s[0] <= 0x39 || s[0] == 0x2D) && forall u | u in s :: NumeralUnit(u)
  }

  predicate DistinctMembers(fields: seq<Field<Text>>) {
    forall i, j | 0 <= i < j < |fields| :: fields[i].key != fields[j].key
  }

  /** Numbers are printed as numerals and no object has a key twice. */
  predicate WellFormed(v: Document)
    decreases v
  {
    match v
    case Num(numeral) => Numeral(numeral)
    case Arr(items) => forall w | w in items :: WellFormed(w)
    case Obj(fields) => DistinctMembers(fields) && forall f | f in fields :: WellFormed(f.value)
    case _ => true
  }

  /** Equal up to the order of object members. */
  predicate Same(a: Document, b: Document)
    decreases a
  {
    match (a, b)
    case (Arr(x), Arr(y)) => |x| == |y| && forall i | 0 <= i < |x| :: Same(x[i], y[i])
    case (Obj(x), Obj(y)) =>
      |x| == |y| && forall f | f in x :: Lookup(y, f.key).Some? && Same(f.value, Lookup(y, f.key).value)
    case (_, _) => a == b
  }

  // ----- texts that cannot be confused whatever follows -----

  /** What can follow a value inside a document. */
  predicate Stop(r: Text) { r == [] || r[0] == COMMA || r[0] == 0x5D || r[0] == 0x7D }

  /** `t` and `u` differ already before whatever comes after them. */
  ghost predicate Apart(t: Text, u: Text) {
    forall r, s | Stop(r) && Stop(s) && t + r == u + s :: t == u && r == s
  }

  lemma UnitDecodes(u: CodeUnit, v: CodeUnit, x: Text, y: Text)
    requires EscapeUnit(u) + x == EscapeUnit(v) + y
    ensures u == v && x == y
  {
    var a, b := EscapeUnit(u) + x, EscapeUnit(v) + y;
    assert a[0] == EscapeUnit(u)[0] && b[0] == EscapeUnit(v)[0];
    if a[0] == BACKSLASH {
      assert a[1] == EscapeUnit(u)[1] && b[1] == EscapeUnit(v)[1];
      if a[1] == 0x75 {
        assert a[2..6] == Hex4(u) && b[2..6] == Hex4(v);
        HexDecodes(u, v);
      }
    }
    assert u == v;
    assert x == a[|EscapeUnit(u)|..] && y == b[|EscapeUnit(u)|..];
  }

  lemma HexDigitDecodes(c: nat, d: nat)
    requires c < 16 && d < 16 && HexDigit(c) == HexDigit(d)
    ensures c == d
  {
  }

  lemma HexParts(u: CodeUnit)
    ensures u == u / 0x1000 * 0x1000 + u / 0x100 % 16 * 0x100 + u / 16 % 16 * 16 + u % 16
  {
    var b, c := u / 16, u / 0x100;
    assert c == b / 16 && u / 0x1000 == c / 16;
    assert u == b * 16 + u % 16 && b == c * 16 + b % 16 && c == c / 16 * 16 + c % 16;
  }

  lemma HexDecodes(u: CodeUnit, v: CodeUnit)
    requires Hex4(u) == Hex4(v)
    ensures u == v
  {
    var x, y := Hex4(u), Hex4(v);
    assert x[0] == y[0] && x[1] == y[1] && x[2] == y[2] && x[3] == y[3];
    HexDigitDecodes(u / 0x1000, v / 0x1000);
    HexDigitDecodes(u / 0x100 % 16, v / 0x100 % 16);
    HexDigitDecodes(u / 16 % 16, v / 16 % 16);
    HexDigitDecodes(u % 16, v % 16);
    HexParts(u);
    HexParts(v);
  }

  lemma BracketsOff(open: Text, inner: Text, close: Text, r: Text)
    requires |open| == 1
    ensures (open + inner + close + r)[1..] == inner + (close + r)
  {
  }

  /** What the literal of `x`, closed and followed by `r`, begins with. */
  lemma EscapeShape(x: Text, r: Text)
    ensures x == [] ==> Escape(x) + ([QUOTE] + r) == [QUOTE] + r
    ensures StartsPair(x) ==> Escape(x) + ([QUOTE] + r) == x[..2] + (Escape(x[2..]) + ([QUOTE] + r))
    ensures x != [] && !StartsPair(x) ==>
              Escape(x) + ([QUOTE] + r) == EscapeUnit(x[0]) + (Escape(x[1..]) + ([QUOTE] + r))
  {
    if StartsPair(x) {
      Associative(x[..2], Escape(x[2..]), [QUOTE] + r);
    } else if x != [] {
      Associative(EscapeUnit(x[0]), Escape(x[1..]), [QUOTE] + r);
    }
  }

  /** The first output unit tells the end of the string, a surrogate pair and an
      ordinary unit apart. */
  lemma EscapeStart(x: Text, r: Text)
    ensures x == [] <==> (Escape(x) + ([QUOTE] + r))[0] == QUOTE
    ensures StartsPair(x) <==> HighSurrogate((Escape(x) + ([QUOTE] + r))[0])
  {
    EscapeShape(x, r);
    if x != [] && !StartsPair(x) {
      var a := EscapeUnit(x[0]) + (Escape(x[1..]) + ([QUOTE] + r));
      assert a[0] == EscapeUnit(x[0])[0];
    }
  }

  /** A string literal ends where it says it ends and stands for one string. */
  lemma {:induction false} EscapeDecodes(x: Text, y: Text, r: Text, s: Text)
    requires Escape(x) + ([QUOTE] + r) == Escape(y) + ([QUOTE] + s)
    ensures x == y && r == s
    decreases |x|
  {
    EscapeStart(x, r);
    EscapeStart(y, s);
    EscapeShape(x, r);
    EscapeShape(y, s);
    if x == [] {
      assert ([QUOTE] + r)[1..] == r && ([QUOTE] + s)[1..] == s;
    } else if StartsPair(x) {
      var x', y' := Escape(x[2..]) + ([QUOTE] + r), Escape(y[2..]) + ([QUOTE] + s);
      assert (x[..2] + x')[..2] == x[..2] && (y[..2] + y')[..2] == y[..2];
      assert (x[..2] + x')[2..] == x' && (y[..2] + y')[2..] == y';
      EscapeDecodes(x[2..], y[2..], r, s);
      assert x == x[..2] + x[2..] && y == y[..2] + y[2..];
    } else {
      UnitDecodes(x[0], y[0], Escape(x[1..]) + ([QUOTE] + r), Escape(y[1..]) + ([QUOTE] + s));
      EscapeDecodes(x[1..], y[1..], r, s);
      assert x == [x[0]] + x[1..] && y == [y[0]] + y[1..];
    }
  }

  lemma QuotedDecodes(x: Text, y: Text, r: Text, s: Text)
    requires Quoted(x) + r == Quoted(y) + s
    ensures x == y && r == s
  {
    BracketsOff([QUOTE], Escape(x), [QUOTE], r);
    BracketsOff([QUOTE], Escape(y), [QUOTE], s);
    EscapeDecodes(x, y, r, s);
  }

  /** Whether a text goes on with a numeral can be seen from its first unit. */
  lemma StopsOrDigit(x: Text, r: Text)
    requires (forall u | u in x :: NumeralUnit(u)) && Stop(r)
    ensures x == [] ==> x + r == r
    ensures x != [] <==> x + r != [] && NumeralUnit((x + r)[0])
  {
    if x != [] { assert x[0] in x; }
  }

  lemma {:induction false} NumeralsApart(x: Text, y: Text, r: Text, s: Text)
    requires (forall u | u in x :: NumeralUnit(u)) && forall u | u in y :: NumeralUnit(u)
    requires Stop(r) && Stop(s) && x + r == y + s
    ensures x == y && r == s
  {
    if x == [] || y == [] {
      assert (x + r == []) == (x == [] && r == []);
      StopsOrDigit(x, r);
      StopsOrDigit(y, s);
    } else {
      assert (x + r)[0] == x[0] && (y + s)[0] == y[0];
      assert (x + r)[1..] == x[1..] + r && (y + s)[1..] == y[1..] + s;
      NumeralsApart(x[1..], y[1..], r, s);
      assert x == [x[0]] + x[1..] && y == [y[0]] + y[1..];
    }
  }

  /** Whether a list is empty can be seen from its first unit. */
  lemma JoinedStart(xs: seq<Text>, close: CodeUnit, r: Text)
    requires forall t | t in xs :: t != [] && t[0] != close
    ensures xs == [] <==> (Joined(xs) + ([close] + r))[0] == close
  {
    if xs != [] { assert xs[0] in xs; }
  }

  /** What follows the first text of a list. */
  function AfterFirst(xs: seq<Text>, close: CodeUnit, r: Text): Text
    requires xs != []
  {
    if |xs| == 1 then [close] + r else [COMMA] + (Joined(xs[1..]) + ([close] + r))
  }

  lemma JoinedShape(xs: seq<Text>, close: CodeUnit, r: Text)
    requires xs != []
    ensures Joined(xs) + ([close] + r) == xs[0] + AfterFirst(xs, close, r)
  {
    if |xs| > 1 {
      Associative(xs[0] + [COMMA], Joined(xs[1..]), [close] + r);
      Associative(xs[0], [COMMA], Joined(xs[1..]) + ([close] + r));
    }
  }

  lemma RestDecodes(xs: seq<Text>, ys: seq<Text>, close: CodeUnit, r: Text, s: Text)
    requires xs != [] && ys != [] && close != COMMA && AfterFirst(xs, close, r) == AfterFirst(ys, close, s)
    ensures |xs| == 1 <==> |ys| == 1
    ensures |xs| == 1 ==> r == s
    ensures |xs| > 1 ==> Joined(xs[1..]) + ([close] + r) == Joined(ys[1..]) + ([close] + s)
  {
    var x, y := AfterFirst(xs, close, r), AfterFirst(ys, close, s);
    assert x[0] == y[0];
    if |xs| == 1 {
      assert x[1..] == r && y[1..] == s;
    } else {
      assert x[1..] == Joined(xs[1..]) + ([close] + r) && y[1..] == Joined(ys[1..]) + ([close] + s);
    }
  }

  /** A comma-separated list of texts that are pairwise apart can be split again. */
  lemma {:induction false} JoinedDecodes(xs: seq<Text>, ys: seq<Text>, close: CodeUnit, r: Text, s: Text)
    requires close == 0x5D || close == 0x7D
    requires forall t | t in xs :: t != [] && t[0] != close
    requires forall t | t in ys :: t != [] && t[0] != close
    requires forall t, u | t in xs && u in ys :: Apart(t, u)
    requires Joined(xs) + ([close] + r) == Joined(ys) + ([close] + s)
    ensures xs == ys && r == s
    decreases |xs|
  {
    JoinedStart(xs, close, r);
    JoinedStart(ys, close, s);
    if xs == [] {
      assert (Joined(xs) + ([close] + r))[1..] == r && (Joined(ys) + ([close] + s))[1..] == s;
    } else {
      JoinedShape(xs, close, r);
      JoinedShape(ys, close, s);
      assert xs[0] in xs && ys[0] in ys && Apart(xs[0], ys[0]);
      assert Stop(AfterFirst(xs, close, r)) && Stop(AfterFirst(ys, close, s));
      RestDecodes(xs, ys, close, r, s);
      forall t | t in xs[1..] ensures t in xs {}
      forall t | t in ys[1..] ensures t in ys {}
      if |xs| > 1 { JoinedDecodes(xs[1..], ys[1..], close, r, s); }
      assert xs == [xs[0]] + xs[1..] && ys == [ys[0]] + ys[1..];
    }
  }

  // ----- documents are apart -----

  lemma {:induction false} FirstUnit(v: Document)
    requires WellFormed(v)
    ensures var t := Canonical(v);
            t != [] &&
            match v
            case Null => t[0] == 0x6E
            case Bool(b) => t[0] == if b then 0x74 else 0x66
            case Num(_) => 0x30 <= t[0] <= 0x39 || t[0] == 0x2D
            case Str(_) => t[0] == QUOTE
            case Arr(_) => t[0] == 0x5B
            case Obj(_) => t[0] == 0x7B
  {
  }

  lemma MemberShape(e: Entry, r: Text)
    ensures MemberText(e) + r == Quoted(e.key) + ([COLON] + (e.text + r))
  {
    Associative(Quoted(e.key), [COLON], e.text);
    Associative(Quoted(e.key), [COLON] + e.text, r);
    Associative([COLON], e.text, r);
  }

  /** What follows the key of a member is told apart by the key and the value. */
  lemma MemberDecodes(e: Entry, f: Entry, r: Text, s: Text)
    requires MemberText(e) + r == MemberText(f) + s
    ensures e.key == f.key && e.text + r == f.text + s
  {
    var x, y := [COLON] + (e.text + r), [COLON] + (f.text + s);
    MemberShape(e, r);
    MemberShape(f, s);
    QuotedDecodes(e.key, f.key, x, y);
    assert x[1..] == e.text + r && y[1..] == f.text + s;
  }

  lemma MemberApart(e: Entry, f: Entry)
    requires Apart(e.text, f.text)
    ensures Apart(MemberText(e), MemberText(f))
  {
    forall r, s | Stop(r) && Stop(s) && MemberText(e) + r == MemberText(f) + s
      ensures MemberText(e) == MemberText(f) && r == s
    {
      MemberDecodes(e, f, r, s);
    }
  }

  lemma TextOfMember(xs: seq<Entry>, t: Text) returns (e: Entry)
    requires t in MemberTexts(xs)
    ensures e in xs && t == MemberText(e)
  {
    var i :| 0 <= i < |xs| && MemberTexts(xs)[i] == t;
    e := xs[i];
  }

  lemma MembersApart(xs: seq<Entry>, ys: seq<Entry>)
    requires forall e, f | e in xs && f in ys :: Apart(e.text, f.text)
    ensures forall t, u | t in MemberTexts(xs) && u in MemberTexts(ys) :: Apart(t, u)
  {
    forall t, u | t in MemberTexts(xs) && u in MemberTexts(ys) ensures Apart(t, u) {
      var e := TextOfMember(xs, t);
      var f := TextOfMember(ys, u);
      MemberApart(e, f);
    }
  }

  lemma MembersStart(xs: seq<Entry>)
    ensures forall t | t in MemberTexts(xs) :: t != [] && t[0] == QUOTE
  {
    forall t | t in MemberTexts(xs) ensures t != [] && t[0] == QUOTE {
      var e := TextOfMember(xs, t);
    }
  }

  lemma {:induction false} DocumentsApart(a: Document, b: Document)
    requires WellFormed(a) && WellFormed(b)
    ensures Apart(Canonical(a), Canonical(b))
    decreases a
  {
    forall r, s | Stop(r) && Stop(s) && Canonical(a) + r == Canonical(b) + s
      ensures Canonical(a) == Canonical(b) && r == s
    {
      FirstUnit(a);
      FirstUnit(b);
      assert Canonical(a)[0] == (Canonical(a) + r)[0] == (Canonical(b) + s)[0] == Canonical(b)[0];
      match a {
        case Str(x) => QuotedDecodes(x, b.s, r, s);
        case Num(x) => NumeralsApart(x, b.numeral, r, s);
        case Arr(x) => ArraysApart(x, b.items, r, s);
        case Obj(x) => ObjectsApart(x, b.fields, r, s);
        case _ =>
          assert Canonical(a) == Canonical(b);
          assert r == (Canonical(a) + r)[|Canonical(a)|..] == s;
      }
    }
  }

  lemma ItemsStart(items: seq<Document>)
    requires forall w | w in items :: WellFormed(w)
    ensures forall t | t in ItemTexts(items) :: t != [] && t[0] != 0x5D
  {
    forall t | t in ItemTexts(items) ensures t != [] && t[0] != 0x5D {
      var i :| 0 <= i < |items| && ItemTexts(items)[i] == t;
      assert items[i] in items;
      FirstUnit(items[i]);
    }
  }

  lemma {:induction false} ArraysApart(x: seq<Document>, y: seq<Document>, r: Text, s: Text)
    requires WellFormed(Arr(x)) && WellFormed(Arr(y))
    requires Canonical(Arr(x)) + r == Canonical(Arr(y)) + s
    ensures ItemTexts(x) == ItemTexts(y) && r == s
    decreases x
  {
    var xs, ys := ItemTexts(x), ItemTexts(y);
    forall t, u | t in xs && u in ys ensures Apart(t, u) {
      var i :| 0 <= i < |x| && xs[i] == t;
      var j :| 0 <= j < |y| && ys[j] == u;
      assert x[i] in x && y[j] in y;
      DocumentsApart(x[i], y[j]);
    }
    ItemsStart(x);
    ItemsStart(y);
    BracketsOff([0x5B], Joined(xs), [0x5D], r);
    BracketsOff([0x5B], Joined(ys), [0x5D], s);
    JoinedDecodes(xs, ys, 0x5D, r, s);
  }

  /** The entries of a well-formed object are apart from those of another. */
  lemma {:induction false} EntriesApart(x: seq<Field<Text>>, y: seq<Field<Text>>)
    requires WellFormed(Obj(x)) && WellFormed(Obj(y))
    ensures forall e, f | e in Sort(Entries(x), KeyLe) && f in Sort(Entries(y), KeyLe) :: Apart(e.text, f.text)
    decreases x, 0
  {
    forall e, f | e in Sort(Entries(x), KeyLe) && f in Sort(Entries(y), KeyLe) ensures Apart(e.text, f.text) {
      SortElements(Entries(x), KeyLe, e);
      SortElements(Entries(y), KeyLe, f);
      var i :| 0 <= i < |x| && Entries(x)[i] == e;
      var j :| 0 <= j < |y| && Entries(y)[j] == f;
      assert x[i] in x && y[j] in y;
      assert x[i].value < x[i];
      DocumentsApart(x[i].value, y[j].value);
    }
  }

  lemma {:induction false} ObjectsApart(x: seq<Field<Text>>, y: seq<Field<Text>>, r: Text, s: Text)
    requires WellFormed(Obj(x)) && WellFormed(Obj(y))
    requires Canonical(Obj(x)) + r == Canonical(Obj(y)) + s
    ensures MemberTexts(Sort(Entries(x), KeyLe)) == MemberTexts(Sort(Entries(y), KeyLe)) && r == s
    decreases x, 1
  {
    var xs, ys := MemberTexts(Sort(Entries(x), KeyLe)), MemberTexts(Sort(Entries(y), KeyLe));
    EntriesApart(x, y);
    MembersApart(Sort(Entries(x), KeyLe), Sort(Entries(y), KeyLe));
    MembersStart(Sort(Entries(x), KeyLe));
    MembersStart(Sort(Entries(y), KeyLe));
    BracketsOff([0x7B], Joined(xs), [0x7D], r);
    BracketsOff([0x7B], Joined(ys), [0x7D], s);
    JoinedDecodes(xs, ys, 0x7D, r, s);
  }

  // ----- the theorem -----

  /** Code-unit order is a total order on texts. */
  lemma {:induction false} TextLeTotal(a: Text, b: Text)
    ensures TextLe(a, b) || TextLe(b, a)
    ensures TextLe(a, b) && TextLe(b, a) ==> a == b
    decreases |a|
  {
    if a != [] && b != [] && a[0] == b[0] {
      TextLeTotal(a[1..], b[1..]);
      assert a == [a[0]] + a[1..] && b == [b[0]] + b[1..];
    }
  }

  lemma {:induction false} TextLeTransitive(a: Text, b: Text, c: Text)
    requires TextLe(a, b) && TextLe(b, c)
    ensures TextLe(a, c)
    decreases |a|
  {
    if a != [] && a[0] == b[0] == c[0] { TextLeTransitive(a[1..], b[1..], c[1..]); }
  }

  lemma KeyLeTotalPreorder()
    ensures TotalPreorder(KeyLe)
  {
    forall a: Entry, b: Entry ensures KeyLe(a, b) || KeyLe(b, a) { TextLeTotal(a.key, b.key); }
    forall a: Entry, b: Entry, c: Entry | KeyLe(a, b) && KeyLe(b, c) ensures KeyLe(a, c) {
      TextLeTransitive(a.key, b.key, c.key);
    }
  }

  lemma ElsewhereStays<T>(b: seq<T>, k: nat, x: T)
    requires k < |b| && x in b && x != b[k]
    ensures x in b[..k] + b[k + 1..]
  {
    var j :| 0 <= j < |b| && b[j] == x;
    assert if j < k then (b[..k] + b[k + 1..])[j] == x else (b[..k] + b[k + 1..])[j - 1] == x;
  }

  /** Lists without repetition and with the same members are rearrangements. */
  lemma {:induction false} SameMembersSameMultiset<T>(a: seq<T>, b: seq<T>)
    requires forall i, j | 0 <= i < j < |a| :: a[i] != a[j]
    requires |a| == |b| && forall x | x in a :: x in b
    ensures multiset(a) == multiset(b)
    decreases |a|
  {
    if a == [] {
    } else {
      assert a[0] in a && a[0] in b;
      var k :| 0 <= k < |b| && b[k] == a[0];
      var rest := b[..k] + b[k + 1..];
      assert b == b[..k] + [b[k]] + b[k + 1..];
      forall x | x in a[1..] ensures x in rest {
        var i :| 0 <= i < |a[1..]| && a[1..][i] == x;
        assert a[i + 1] == x && x != a[0] && x in a;
        ElsewhereStays(b, k, x);
      }
      SameMembersSameMultiset(a[1..], rest);
      assert a == [a[0]] + a[1..];
    }
  }

  lemma LookupMember(fields: seq<Field<Text>>, f: Field<Text>)
    requires DistinctMembers(fields) && f in fields
    ensures Lookup(fields, f.key) == Some(f.value)
  {
    var v := Lookup(fields, f.key).value;
    assert Field(f.key, v) in fields;
    var i :| 0 <= i < |fields| && fields[i] == f;
    var j :| 0 <= j < |fields| && fields[j] == Field(f.key, v);
    assert i == j;
  }

  /** Equal up to member order implies equal text. */
  lemma {:induction false} SameHasSameText(a: Document, b: Document)
    requires WellFormed(a) && WellFormed(b) && Same(a, b)
    ensures Canonical(a) == Canonical(b)
    decreases a
  {
    match (a, b)
    case (Arr(x), Arr(y)) =>
      forall i | 0 <= i < |x| ensures ItemTexts(x)[i] == ItemTexts(y)[i] {
        assert x[i] in x && y[i] in y;
        SameHasSameText(x[i], y[i]);
      }
      assert ItemTexts(x) == ItemTexts(y);
    case (Obj(x), Obj(y)) =>
      forall f | f in x ensures EntryOf(f) in Entries(y) {
        assert f.value < f;
        var w := Lookup(y, f.key).value;
        SameHasSameText(f.value, w);
        EntryListed(y, Field(f.key, w));
      }
      SameEntriesSameOrder(x, y);
    case (_, _) =>
  }

  lemma EntryListed(fields: seq<Field<Text>>, f: Field<Text>)
    requires f in fields
    ensures EntryOf(f) in Entries(fields)
  {
    var i :| 0 <= i < |fields| && fields[i] == f;
    assert Entries(fields)[i] == EntryOf(f);
  }

  lemma SameEntriesSameOrder(x: seq<Field<Text>>, y: seq<Field<Text>>)
    requires DistinctMembers(x) && |x| == |y| && forall f | f in x :: EntryOf(f) in Entries(y)
    ensures Sort(Entries(x), KeyLe) == Sort(Entries(y), KeyLe)
  {
    var xs, ys := Entries(x), Entries(y);
    forall e | e in xs ensures e in ys {
      var i :| 0 <= i < |x| && xs[i] == e;
      assert x[i] in x;
    }
    SameMembersSameMultiset(xs, ys);
    KeyLeTotalPreorder();
    forall e, f | e in xs && f in xs && KeyLe(e, f) && KeyLe(f, e) ensures e == f {
      TextLeTotal(e.key, f.key);
      var i :| 0 <= i < |x| && xs[i] == e;
      var j :| 0 <= j < |x| && xs[j] == f;
      assert i == j;
    }
    SortIgnoresOrder(xs, ys, KeyLe);
  }

  /** Equal texts come from documents equal up to member order. */
  lemma {:induction false} SameTextIsSame(a: Document, b: Document)
    requires WellFormed(a) && WellFormed(b) && Canonical(a) == Canonical(b)
    ensures Same(a, b)
    decreases a
  {
    FirstUnit(a);
    FirstUnit(b);
    assert Canonical(a) + [] == Canonical(b) + [];
    match a {
      case Str(x) => QuotedDecodes(x, b.s, [], []);
      case Arr(x) =>
        var y := b.items;
        ArraysApart(x, y, [], []);
        forall i | 0 <= i < |x| ensures Same(x[i], y[i]) {
          assert x[i] in x && y[i] in y;
          assert ItemTexts(x)[i] == ItemTexts(y)[i];
          SameTextIsSame(x[i], y[i]);
        }
      case Obj(x) =>
        var y := b.fields;
        ObjectsApart(x, y, [], []);
        EqualMembersEqualEntries(Sort(Entries(x), KeyLe), Sort(Entries(y), KeyLe));
        SortPermutes(Entries(x), KeyLe);
        SortPermutes(Entries(y), KeyLe);
        forall f | f in x ensures Lookup(y, f.key).Some? && Same(f.value, Lookup(y, f.key).value) {
          var g := PartnerField(x, y, f);
          assert f.value < f;
          LookupMember(y, g);
          SameTextIsSame(f.value, g.value);
        }
      case _ =>
    }
  }

  lemma EqualMembersEqualEntries(xs: seq<Entry>, ys: seq<Entry>)
    requires MemberTexts(xs) == MemberTexts(ys)
    ensures xs == ys
  {
    assert |xs| == |MemberTexts(xs)| == |ys|;
    forall i | 0 <= i < |xs| ensures xs[i] == ys[i] {
      assert MemberText(xs[i]) + [] == MemberTexts(xs)[i] + [] == MemberText(ys[i]) + [];
      MemberDecodes(xs[i], ys[i], [], []);
      assert xs[i].text + [] == xs[i].text && ys[i].text + [] == ys[i].text;
    }
  }

  lemma PartnerField(x: seq<Field<Text>>, y: seq<Field<Text>>, f: Field<Text>) returns (g: Field<Text>)
    requires Sort(Entries(x), KeyLe) == Sort(Entries(y), KeyLe) && f in x
    ensures g in y && g.key == f.key && Canonical(g.value) == Canonical(f.value)
  {
    var i :| 0 <= i < |x| && x[i] == f;
    var e := Entries(x)[i];
    SortElements(Entries(x), KeyLe, e);
    SortElements(Entries(y), KeyLe, e);
    var j :| 0 <= j < |y| && Entries(y)[j] == e;
    g := y[j];
  }

  /** The text hashed for a document identifies it up to the order of object members. */
  lemma CanonicalIffSame(a: Document, b: Document)
    requires WellFormed(a) && WellFormed(b)
    ensures Canonical(a) == Canonical(b) <==> Same(a, b)
  {
    if Canonical(a) == Canonical(b) { SameTextIsSame(a, b); }
    if Same(a, b) { SameHasSameText(a, b); }
  }
}
