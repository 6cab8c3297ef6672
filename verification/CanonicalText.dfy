/** The canonical text of a document is a JSON text, and stands for the document with the
    members of each object in the order of their keys. */
module CanonicalText {
  import opened Json
  import opened Sorting
  import opened CanonicalJson

  // ----- what a JSON text stands for; RFC 8259 -----

  /** The value of a hexadecimal digit. */
  function HexValue(u: CodeUnit): Option<nat> {
    if 0x30 <= u <= 0x39 then Some(u - 0x30)
    else if 0x41 <= u <= 0x46 then Some(u - 0x41 + 10)
    else if 0x61 <= u <= 0x66 then Some(u - 0x61 + 10)
    else None
  }

  function HexNumber(t: Text): Option<nat> {
    if t == [] then Some(0)
    else
      match (HexNumber(t[..|t| - 1]), HexValue(t[|t| - 1]))
      case (Some(high), Some(low)) => Some(high * 16 + low)
      case _ => None
  }

  /** What stands for itself, or for a control character, after a backslash. */
  function ShortEscape(u: CodeUnit): Option<CodeUnit> {
    if u == QUOTE || u == BACKSLASH || u == 0x2F then Some(u)
    else if u == 0x62 then Some(0x08)
    else if u == 0x74 then Some(0x09)
    else if u == 0x6E then Some(0x0A)
    else if u == 0x66 then Some(0x0C)
    else if u == 0x72 then Some(0x0D)
    else None
  }

  /** The inside of a string literal stands for `s`; section 7. */
  predicate Literal(t: Text, s: Text)
    decreases |t|
  {
    if t == [] then s == []
    else if t[0] != BACKSLASH then
      t[0] >= 0x20 && t[0] != QUOTE && s != [] && s[0] == t[0] && Literal(t[1..], s[1..])
    else if |t| > 1 && t[1] == 0x75 then
      |t| >= 6 && s != [] && HexNumber(t[2..6]) == Some(s[0]) && Literal(t[6..], s[1..])
    else |t| > 1 && s != [] && ShortEscape(t[1]) == Some(s[0]) && Literal(t[2..], s[1..])
  }

  predicate StringText(t: Text, s: Text) {
    |t| >= 2 && t[0] == QUOTE && t[|t| - 1] == QUOTE && Literal(t[1..|t| - 1], s)
  }

  /** `t` lists the parts with a comma between each two. */
  predicate Lists(t: Text, parts: seq<Text>)
    decreases |parts|
  {
    if parts == [] then t == []
    else if |parts| == 1 then t == parts[0]
    else
      && |t| > |parts[0]| && t[..|parts[0]|] == parts[0] && t[|parts[0]|] == COMMA
      && Lists(t[|parts[0]| + 1..], parts[1..])
  }

  predicate Enclosed(t: Text, open: CodeUnit, parts: seq<Text>, close: CodeUnit) {
    |t| >= 2 && t[0] == open && t[|t| - 1] == close && Lists(t[1..|t| - 1], parts)
  }

  /** `t` is a key and a value, with a colon between them. */
  predicate Member(t: Text, key: Text, value: Text) {
    |key| < |t| && t[..|key|] == key && t[|key|] == COLON && t[|key| + 1..] == value
  }

  /** `t` is a JSON text, without white space, and stands for `v`; sections 3 to 7. */
  ghost predicate Denotes(t: Text, v: Document)
    decreases v
  {
    match v
    case Null => t == [0x6E, 0x75, 0x6C, 0x6C]
    case Bool(b) => t == if b then [0x74, 0x72, 0x75, 0x65] else [0x66, 0x61, 0x6C, 0x73, 0x65]
    case Num(numeral) => t == numeral
    case Str(s) => StringText(t, s)
    case Arr(items) =>
      exists parts: seq<Text> ::
        && |parts| == |items| && Enclosed(t, 0x5B, parts, 0x5D)
        && forall i | 0 <= i < |items| :: Denotes(parts[i], items[i])
    case Obj(fields) =>
      exists parts: seq<Text> ::
        && |parts| == |fields| && Enclosed(t, 0x7B, parts, 0x7D)
        && forall i | 0 <= i < |fields| :: MemberDenotes(parts[i], fields[i])
  }

  ghost predicate MemberDenotes(t: Text, f: Field<Text>)
    decreases f
  {
    assert f.value < f;
    exists key, value :: Member(t, key, value) && StringText(key, f.key) && Denotes(value, f.value)
  }

  // ----- members in order -----

  predicate FieldLe(a: Field<Text>, b: Field<Text>) { TextLe(a.key, b.key) }

  /** The document with the members of each object sorted by their keys. */
  function Ordered(v: Document): Document
    decreases v, 1
  {
    match v
    case Arr(items) => Arr(OrderedItems(items))
    case Obj(fields) => Obj(Sort(OrderedFields(fields), FieldLe))
    case _ => v
  }

  function OrderedItems(items: seq<Document>): (r: seq<Document>)
    ensures |r| == |items| && forall i | 0 <= i < |r| :: r[i] == Ordered(items[i])
    decreases items, 0
  {
    if items == [] then [] else [Ordered(items[0])] + OrderedItems(items[1..])
  }

  function OrderedField(f: Field<Text>): Field<Text>
    decreases f, 0
  {
    assert f.value < f;
    Field(f.key, Ordered(f.value))
  }

  function OrderedFields(fields: seq<Field<Text>>): (r: seq<Field<Text>>)
    ensures |r| == |fields| && forall i | 0 <= i < |r| :: r[i] == OrderedField(fields[i])
    decreases fields, 0
  {
    if fields == [] then [] else [OrderedField(fields[0])] + OrderedFields(fields[1..])
  }

  // ----- strings -----

  lemma {:induction false} LiteralConcat(a: Text, x: Text, b: Text, y: Text)
    requires Literal(a, x) && Literal(b, y)
    ensures Literal(a + b, x + y)
    decreases |a|
  {
    if a == [] {
      assert a + b == b && x + y == y;
    } else {
      var n := if a[0] != BACKSLASH then 1 else if a[1] == 0x75 then 6 else 2;
      LiteralConcat(a[n..], x[1..], b, y);
      assert (a + b)[n..] == a[n..] + b && (x + y)[1..] == x[1..] + y;
      if n == 6 { assert (a + b)[2..6] == a[2..6]; }
    }
  }

  lemma HexReads(u: CodeUnit)
    ensures HexNumber(Hex4(u)) == Some(u)
  {
    var t := Hex4(u);
    var a, b, c, d := u / 0x1000, u / 0x100 % 16, u / 16 % 16, u % 16;
    assert t[..3] == [HexDigit(a), HexDigit(b), HexDigit(c)] && t[..3][..2] == [HexDigit(a), HexDigit(b)];
    assert t[..3][..2][..1] == [HexDigit(a)] && t[..3][..2][..1][..0] == [];
    assert HexNumber(t[..3][..2][..1]) == Some(a);
    assert HexNumber(t[..3][..2]) == Some(a * 16 + b);
    assert HexNumber(t[..3]) == Some((a * 16 + b) * 16 + c);
    HexParts(u);
  }

  lemma UnitLiteral(u: CodeUnit)
    ensures Literal(EscapeUnit(u), [u])
  {
    var t := EscapeUnit(u);
    assert [u][1..] == [] && Literal([], []);
    if |t| == 6 {
      assert t[2..6] == Hex4(u) && t[6..] == [];
      HexReads(u);
    } else if |t| == 2 {
      assert t[2..] == [];
    } else {
      assert t[1..] == [];
    }
  }

  /** A unit is written as itself where it can be, unless it is an unpaired surrogate; else
      by the two units that there are for some; else by its number in four lower-case
      hexadecimal digits. */
  lemma EscapeChoice(u: CodeUnit)
    ensures var t, itself := EscapeUnit(u), u >= 0x20 && u != QUOTE && u != BACKSLASH && !(0xD800 <= u < 0xE000);
            && (t == [u] <==> itself)
            && (|t| == 2 <==> !itself && exists e :: ShortEscape(e) == Some(u))
            && (!itself && |t| != 2 ==>
                  |t| == 6 && forall i | 2 <= i < 6 :: 0x30 <= t[i] <= 0x39 || 0x61 <= t[i] <= 0x66)
  {
    if |EscapeUnit(u)| == 2 { assert ShortEscape(EscapeUnit(u)[1]) == Some(u); }
    if e :| ShortEscape(e) == Some(u) { assert u in [QUOTE, BACKSLASH, 0x2F, 0x08, 0x09, 0x0A, 0x0C, 0x0D]; }
  }

  /** An escaped string stands for the string. */
  lemma {:induction false} EscapeLiteral(s: Text)
    ensures Literal(Escape(s), s)
    decreases |s|
  {
    if s == [] {
    } else if StartsPair(s) {
      EscapeLiteral(s[2..]);
      UnitsLiteral(s[0], s[1]);
      LiteralConcat(s[..2], s[..2], Escape(s[2..]), s[2..]);
      assert s[..2] == [s[0], s[1]] && s == s[..2] + s[2..];
    } else {
      EscapeLiteral(s[1..]);
      UnitLiteral(s[0]);
      LiteralConcat(EscapeUnit(s[0]), [s[0]], Escape(s[1..]), s[1..]);
      assert s == [s[0]] + s[1..];
    }
  }

  lemma UnitsLiteral(u: CodeUnit, v: CodeUnit)
    requires u > BACKSLASH && v > BACKSLASH
    ensures Literal([u, v], [u, v])
  {
    assert [u, v][1..] == [v] && [v][1..] == [] && Literal([], []) && Literal([v], [v]);
  }

  lemma QuotedText(s: Text)
    ensures StringText(Quoted(s), s)
  {
    var t := Quoted(s);
    assert t[1..|t| - 1] == Escape(s);
    EscapeLiteral(s);
  }

  // ----- lists -----

  lemma {:induction false} JoinedLists(parts: seq<Text>)
    ensures Lists(Joined(parts), parts)
  {
    if |parts| > 1 {
      var t := Joined(parts);
      assert t[..|parts[0]|] == parts[0] && t[|parts[0]|] == COMMA && t[|parts[0]| + 1..] == Joined(parts[1..]);
      JoinedLists(parts[1..]);
    }
  }

  lemma BracketsEnclose(open: CodeUnit, parts: seq<Text>, close: CodeUnit)
    ensures Enclosed([open] + Joined(parts) + [close], open, parts, close)
  {
    var t := [open] + Joined(parts) + [close];
    assert t[1..|t| - 1] == Joined(parts);
    JoinedLists(parts);
  }

  // ----- members -----

  ghost predicate Stands(e: Entry, f: Field<Text>) { e.key == f.key && Denotes(e.text, f.value) }

  ghost predicate AllStand(entries: seq<Entry>, fields: seq<Field<Text>>) {
    |entries| == |fields| && forall i | 0 <= i < |entries| :: Stands(entries[i], fields[i])
  }

  lemma {:induction false} InsertStands(e: Entry, f: Field<Text>, entries: seq<Entry>, fields: seq<Field<Text>>)
    requires Stands(e, f) && AllStand(entries, fields)
    ensures AllStand(Insert(e, entries, KeyLe), Insert(f, fields, FieldLe))
  {
    if entries != [] {
      assert Stands(entries[0], fields[0]);
      if !KeyLe(e, entries[0]) { InsertStands(e, f, entries[1..], fields[1..]); }
    }
  }

  /** Sorting entries by key sorts the members that they stand for. */
  lemma {:induction false} SortStands(entries: seq<Entry>, fields: seq<Field<Text>>)
    requires AllStand(entries, fields)
    ensures AllStand(Sort(entries, KeyLe), Sort(fields, FieldLe))
  {
    if entries != [] {
      assert Stands(entries[0], fields[0]);
      SortStands(entries[1..], fields[1..]);
      InsertStands(entries[0], fields[0], Sort(entries[1..], KeyLe), Sort(fields[1..], FieldLe));
    }
  }

  lemma EntryDenotes(e: Entry, f: Field<Text>)
    requires Stands(e, f)
    ensures MemberDenotes(MemberText(e), f)
  {
    var t, key := MemberText(e), Quoted(e.key);
    QuotedText(e.key);
    assert t[..|key|] == key && t[|key|] == COLON && t[|key| + 1..] == e.text;
    assert Member(t, key, e.text);
  }

  // ----- documents -----

  /** The canonical text of a document is a JSON text that stands for it, with the members
      of its objects in order. */
  lemma {:induction false} CanonicalDenotes(v: Document)
    ensures Denotes(Canonical(v), Ordered(v))
    decreases v, 1
  {
    match v
    case Str(s) => QuotedText(s);
    case Arr(items) =>
      var parts, ordered := ItemTexts(items), OrderedItems(items);
      BracketsEnclose(0x5B, parts, 0x5D);
      forall i | 0 <= i < |items| ensures Denotes(parts[i], ordered[i]) { CanonicalDenotes(items[i]); }
    case Obj(fields) =>
      FieldsStand(fields);
      var entries, ordered := Sort(Entries(fields), KeyLe), Sort(OrderedFields(fields), FieldLe);
      SortStands(Entries(fields), OrderedFields(fields));
      var parts := MemberTexts(entries);
      BracketsEnclose(0x7B, parts, 0x7D);
      forall i | 0 <= i < |ordered| ensures MemberDenotes(parts[i], ordered[i]) {
        assert Stands(entries[i], ordered[i]);
        EntryDenotes(entries[i], ordered[i]);
      }
    case _ =>
  }

  lemma {:induction false} FieldsStand(fields: seq<Field<Text>>)
    ensures AllStand(Entries(fields), OrderedFields(fields))
    decreases fields, 0
  {
    forall i | 0 <= i < |fields| ensures Stands(Entries(fields)[i], OrderedFields(fields)[i]) {
      assert fields[i].value < fields[i];
      CanonicalDenotes(fields[i].value);
    }
  }

  // ----- the order of the members -----

  /** The texts are the same up to `k`, where the unit of the first one is smaller. */
  predicate SmallerAt(a: Text, b: Text, k: nat) { k < |a| && k < |b| && a[..k] == b[..k] && a[k] < b[k] }

  /** Keys are compared by their first different code units, and a shorter one comes before
      those that it begins. */
  lemma {:induction false} TextLeIff(a: Text, b: Text)
    ensures TextLe(a, b) <==> a <= b || exists k: nat :: SmallerAt(a, b, k)
    decreases |a|
  {
    if a != [] && b != [] {
      assert a == [a[0]] + a[1..] && b == [b[0]] + b[1..];
      if a[0] == b[0] {
        TextLeIff(a[1..], b[1..]);
        SmallerLater(a, b);
      } else if a[0] < b[0] {
        assert SmallerAt(a, b, 0);
      } else {
        SmallerFirst(a, b);
      }
    }
  }

  lemma SmallerFirst(a: Text, b: Text)
    requires a != [] && b != []
    ensures forall k: nat | SmallerAt(a, b, k) :: k == 0 || a[0] == b[0]
  {
    forall k: nat | SmallerAt(a, b, k) ensures k == 0 || a[0] == b[0] {
      if k > 0 { assert a[..k][0] == b[..k][0]; }
    }
  }

  lemma SmallerLater(a: Text, b: Text)
    requires a != [] && b != [] && a[0] == b[0]
    ensures (exists k: nat :: SmallerAt(a, b, k)) <==> exists k: nat :: SmallerAt(a[1..], b[1..], k)
  {
    if k: nat :| SmallerAt(a, b, k) {
      assert a[1..][..k - 1] == a[..k][1..] && b[1..][..k - 1] == b[..k][1..];
      assert SmallerAt(a[1..], b[1..], k - 1);
    }
    if k: nat :| SmallerAt(a[1..], b[1..], k) {
      assert a[..k + 1] == [a[0]] + a[1..][..k] && b[..k + 1] == [b[0]] + b[1..][..k];
      assert SmallerAt(a, b, k + 1);
    }
  }

  /** The members of an object are those of the document, each with its own members in
      order, and come in the order of their keys. */
  lemma MembersInOrder(fields: seq<Field<Text>>)
    ensures var members := Ordered(Obj(fields)).fields;
            && multiset(members) == multiset(OrderedFields(fields))
            && forall i, j | 0 <= i < j < |members| :: TextLe(members[i].key, members[j].key)
  {
    forall a: Field<Text>, b: Field<Text> ensures FieldLe(a, b) || FieldLe(b, a) { TextLeTotal(a.key, b.key); }
    forall a: Field<Text>, b: Field<Text>, c: Field<Text> | FieldLe(a, b) && FieldLe(b, c) ensures FieldLe(a, c) {
      TextLeTransitive(a.key, b.key, c.key);
    }
    SortPermutes(OrderedFields(fields), FieldLe);
    SortSorted(OrderedFields(fields), FieldLe);
    var members := Ordered(Obj(fields)).fields;
    forall i, j | 0 <= i < j < |members| ensures TextLe(members[i].key, members[j].key) {
      assert FieldLe(members[i], members[j]);
    }
  }
}
