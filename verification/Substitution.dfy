/** What a substitution produces: the text between the placeholders, with the text of each
    variable in the place of its placeholder. */
module Substitution {
  import opened Json
  import opened Texts
  import opened Template
  import opened Steps

  // ----- texts cut at their placeholders -----

  predicate Letter(c: char) { 'a' <= c <= 'z' || 'A' <= c <= 'Z' }

  /** `[a-zA-Z][a-zA-Z0-9_.-]*` */
  predicate IsName(n: string) {
    n != "" && Letter(n[0]) && forall c | c in n :: Letter(c) || '0' <= c <= '9' || c in "_.-"
  }

  function Hole(name: string): string { "{{" + (name + "}}") }

  function Holes(names: seq<string>): (r: seq<string>)
    ensures |r| == |names| && forall i | 0 <= i < |names| :: r[i] == Hole(names[i])
  {
    seq(|names|, i requires 0 <= i < |names| => Hole(names[i]))
  }

  /** The pieces with the fills between them. */
  function Woven(pieces: seq<string>, fills: seq<string>): string
    requires |pieces| == |fills| + 1
  {
    if fills == [] then pieces[0] else pieces[0] + (fills[0] + Woven(pieces[1..], fills[1..]))
  }

  ghost predicate HoleAt(text: string, i: nat)
    requires i <= |text|
  {
    exists n :: IsName(n) && Hole(n) <= text[i..]
  }

  /** The text is the pieces with the placeholders of `names` between them, and no
      placeholder begins in a piece: these are the ones that a scan from the left finds. */
  ghost predicate Cut(text: string, pieces: seq<string>, names: seq<string>)
    decreases |names|
  {
    && |pieces| == |names| + 1 && (forall n | n in names :: IsName(n))
    && text == Woven(pieces, Holes(names))
    && |pieces[0]| <= |text| && (forall i | 0 <= i < |pieces[0]| :: !HoleAt(text, i))
    && (names != [] ==> Cut(Woven(pieces[1..], Holes(names[1..])), pieces[1..], names[1..]))
  }

  lemma {:induction false} RunIsName(s: string, n: string, rest: string)
    requires s == n + rest && (forall c | c in n :: NameChar(c)) && (rest == "" || !NameChar(rest[0]))
    ensures NameRun(s) == |n|
    decreases |n|
  {
    if n == "" {
    } else {
      assert s[0] == n[0] && s[1..] == n[1..] + rest;
      RunIsName(s[1..], n[1..], rest);
    }
  }

  /** The scanner finds a placeholder exactly where there is one. */
  lemma FoundIff(s: string, n: string)
    ensures PlaceholderAt(s) == Some(n) <==> IsName(n) && Hole(n) <= s
  {
    if IsName(n) && Hole(n) <= s {
      var rest := s[|n| + 2..];
      assert s[..|n| + 4] == Hole(n);
      assert s[2..|n| + 2] == n && s[2..] == n + rest && rest[0] == '}' && s[2] == n[0];
      RunIsName(s[2..], n, rest);
      assert s[|n| + 2] == '}' && s[|n| + 3] == '}';
    }
    if PlaceholderAt(s) == Some(n) {
      assert |n| + 4 <= |s| && n == s[2..|n| + 2];
      assert forall i | 0 <= i < |n| :: n[i] == s[2..][i];
      assert Hole(n) == s[..|n| + 4];
    }
  }

  lemma FoundHole(s: string)
    ensures PlaceholderAt(s).Some? <==> HoleAt(s, 0)
  {
    assert s[0..] == s;
    if PlaceholderAt(s).Some? { FoundIff(s, PlaceholderAt(s).value); }
    if HoleAt(s, 0) {
      var n :| IsName(n) && Hole(n) <= s[0..];
      FoundIff(s, n);
    }
  }

  // ----- the text that comes out -----

  /** The text of a variable in a longer text. */
  predicate Reads(v: Value, text: string) {
    v == Str(text) || v == Num(text) || (v == Bool(true) && text == "true") || (v == Bool(false) && text == "false")
  }

  predicate Readable(vars: Record, name: string) {
    match Lookup(vars, name)
    case Some(v) => v.Str? || v.Num? || v.Bool?
    case None => false
  }

  predicate Filled(vars: Record, names: seq<string>, fills: seq<string>) {
    |fills| == |names| && forall i | 0 <= i < |names| ::
      Lookup(vars, names[i]).Some? && Reads(Lookup(vars, names[i]).value, fills[i])
  }

  /** One more character in front. */
  lemma CutChar(s: string, pieces: seq<string>, names: seq<string>, fills: seq<string>)
    returns (longer: seq<string>)
    requires s != "" && PlaceholderAt(s) == None && Cut(s[1..], pieces, names) && |fills| == |names|
    ensures Cut(s, longer, names) && Woven(longer, fills) == [s[0]] + Woven(pieces, fills)
  {
    longer := [[s[0]] + pieces[0]] + pieces[1..];
    assert longer[1..] == pieces[1..];
    Associative([s[0]], pieces[0], if fills == [] then [] else fills[0] + Woven(pieces[1..], fills[1..]));
    Associative([s[0]], pieces[0],
                if names == [] then [] else Holes(names)[0] + Woven(pieces[1..], Holes(names)[1..]));
    assert s == [s[0]] + s[1..];
    assert Holes(names) != [] ==> Holes(names)[1..] == Holes(names[1..]);
    assert [s[0]] + pieces[0] + [] == [s[0]] + pieces[0] && pieces[0] + [] == pieces[0];
    forall i | 0 <= i < |longer[0]| ensures !HoleAt(s, i) {
      if i == 0 { FoundHole(s); } else { assert s[i..] == s[1..][i - 1..] && !HoleAt(s[1..], i - 1); }
    }
  }

  /** A placeholder in front. */
  lemma CutHole(
      s: string, name: string, pieces: seq<string>, names: seq<string>, fill: string, fills: seq<string>)
    requires PlaceholderAt(s) == Some(name) && Cut(s[|name| + 4..], pieces, names) && |fills| == |names|
    ensures Cut(s, [""] + pieces, [name] + names)
    ensures Woven([""] + pieces, [fill] + fills) == fill + Woven(pieces, fills)
  {
    FoundIff(s, name);
    var more, all := [""] + pieces, [name] + names;
    assert more[1..] == pieces && all[1..] == names && ([fill] + fills)[1..] == fills;
    assert Holes(all)[1..] == Holes(names) && Holes(all)[0] == Hole(name);
    assert s[..|name| + 4] == Hole(name) && s == Hole(name) + s[|name| + 4..];
  }

  lemma CutEmpty()
    ensures Cut("", [""], [])
  {
  }

  /** The first name that cannot be read. */
  predicate FirstUnreadable(vars: Record, names: seq<string>, i: nat) {
    i < |names| && !Readable(vars, names[i]) && forall j | 0 <= j < i :: Readable(vars, names[j])
  }

  function Complaint(vars: Record, name: string): Error {
    if Lookup(vars, name).None? then UndefinedVariable(name) else NotInterpolable(name)
  }

  /** A result that is the woven text if all names can be read, and else complains of the
      first that cannot. */
  predicate Said(
      r: Result<string>, vars: Record, pieces: seq<string>, names: seq<string>, fills: seq<string>, bad: nat)
    requires |pieces| == |names| + 1 && |fills| == |names|
  {
    && (r.Ok? <==> forall n | n in names :: Readable(vars, n))
    && match r
       case Ok(text) => Filled(vars, names, fills) && text == Woven(pieces, fills)
       case Err(e) => FirstUnreadable(vars, names, bad) && e == Complaint(vars, names[bad])
  }

  ghost predicate WovenAs(
      s: string, vars: Record, pieces: seq<string>, names: seq<string>, fills: seq<string>, bad: nat)
  {
    Cut(s, pieces, names) && |fills| == |names| && Said(Interpolate(s, vars), vars, pieces, names, fills, bad)
  }

  lemma CharWoven(
      s: string, vars: Record, pieces: seq<string>, names: seq<string>, fills: seq<string>, bad: nat)
      returns (longer: seq<string>)
    requires s != "" && PlaceholderAt(s) == None && WovenAs(s[1..], vars, pieces, names, fills, bad)
    ensures WovenAs(s, vars, longer, names, fills, bad)
  {
    longer := CutChar(s, pieces, names, fills);
  }

  lemma NamesCons(vars: Record, name: string, names: seq<string>, fill: string, fills: seq<string>)
    requires |fills| == |names|
    ensures (forall n | n in [name] + names :: Readable(vars, n)) <==>
              Readable(vars, name) && forall n | n in names :: Readable(vars, n)
    ensures Filled(vars, names, fills) && Lookup(vars, name).Some? && Reads(Lookup(vars, name).value, fill) ==>
              Filled(vars, [name] + names, [fill] + fills)
  {
    var all, texts := [name] + names, [fill] + fills;
    assert all[0] == name && all[1..] == names && texts[0] == fill && texts[1..] == fills;
    if forall n | n in all :: Readable(vars, n) {
      assert name in all;
      forall n | n in names ensures Readable(vars, n) { assert n in all; }
    }
    if Filled(vars, names, fills) {
      assert forall i | 0 < i < |all| :: all[i] == names[i - 1] && texts[i] == fills[i - 1];
    }
  }

  lemma LaterUnreadable(vars: Record, name: string, names: seq<string>, bad: nat)
    requires Readable(vars, name) && FirstUnreadable(vars, names, bad)
    ensures FirstUnreadable(vars, [name] + names, bad + 1) && ([name] + names)[bad + 1] == names[bad]
  {
    assert forall j | 0 < j <= |names| :: ([name] + names)[j] == names[j - 1];
  }

  lemma HoleUnread(
      r: Result<string>, vars: Record, name: string, pieces: seq<string>, names: seq<string>, fills: seq<string>)
    requires |pieces| == |names| + 1 && |fills| == |names|
    requires !Readable(vars, name) && r == Err(Complaint(vars, name))
    ensures Said(r, vars, pieces, names, fills, 0) <== names != [] && names[0] == name
  {
  }

  lemma HoleRead(
      r: Result<string>, rest: Result<string>, vars: Record, name: string, pieces: seq<string>, names: seq<string>,
      fill: string, fills: seq<string>, bad: nat)
    requires |pieces| == |names| + 1 && |fills| == |names| && Said(rest, vars, pieces, names, fills, bad)
    requires Readable(vars, name) && Reads(Lookup(vars, name).value, fill)
    requires r == match rest case Ok(text) => Ok(fill + text) case Err(e) => Err(e)
    ensures Said(r, vars, [""] + pieces, [name] + names, [fill] + fills, bad + 1)
  {
    var more, all, texts := [""] + pieces, [name] + names, [fill] + fills;
    NamesCons(vars, name, names, fill, fills);
    match rest
    case Ok(text) => assert more[1..] == pieces && texts[1..] == fills;
    case Err(_) => LaterUnreadable(vars, name, names, bad);
  }

  lemma InterpolateHole(s: string, vars: Record, name: string) returns (fill: string)
    requires PlaceholderAt(s) == Some(name)
    ensures Readable(vars, name) ==>
              && Reads(Lookup(vars, name).value, fill)
              && Interpolate(s, vars) ==
                 match Interpolate(s[|name| + 4..], vars) case Ok(text) => Ok(fill + text) case Err(e) => Err(e)
    ensures !Readable(vars, name) ==> Interpolate(s, vars) == Err(Complaint(vars, name))
  {
    fill := if Readable(vars, name) then ScalarText(name, Lookup(vars, name).value).value else "";
  }

  lemma HoleWoven(
      s: string, vars: Record, name: string, pieces: seq<string>, names: seq<string>, fills: seq<string>, bad: nat)
      returns (fill: string, first: nat)
    requires PlaceholderAt(s) == Some(name) && WovenAs(s[|name| + 4..], vars, pieces, names, fills, bad)
    ensures WovenAs(s, vars, [""] + pieces, [name] + names, [fill] + fills, first)
  {
    fill := InterpolateHole(s, vars, name);
    CutHole(s, name, pieces, names, fill, fills);
    if Readable(vars, name) {
      first := bad + 1;
      HoleRead(Interpolate(s, vars), Interpolate(s[|name| + 4..], vars), vars, name, pieces, names, fill, fills, bad);
    } else {
      first := 0;
      assert ([name] + names)[0] == name;
      HoleUnread(Interpolate(s, vars), vars, name, [""] + pieces, [name] + names, [fill] + fills);
    }
  }

  /** What a text with placeholders becomes: its pieces with the variables' texts between
      them. It fails exactly when one of the names is undefined or bound to null, an array
      or an object, with the first such name. */
  lemma {:induction false} TextWoven(s: string, vars: Record)
      returns (pieces: seq<string>, names: seq<string>, fills: seq<string>, bad: nat)
    ensures WovenAs(s, vars, pieces, names, fills, bad)
    decreases |s|
  {
    if s == "" {
      CutEmpty();
      pieces, names, fills, bad := [""], [], [], 0;
    } else {
      match PlaceholderAt(s)
      case None =>
        pieces, names, fills, bad := TextWoven(s[1..], vars);
        pieces := CharWoven(s, vars, pieces, names, fills, bad);
      case Some(name) =>
        pieces, names, fills, bad := TextWoven(s[|name| + 4..], vars);
        var fill, first := HoleWoven(s, vars, name, pieces, names, fills, bad);
        pieces, names, fills, bad := [""] + pieces, [name] + names, [fill] + fills, first;
    }
  }

  /** A text is cut in one way. */
  lemma {:induction false} CutUnique(
      text: string, p: seq<string>, m: seq<string>, q: seq<string>, n: seq<string>)
    requires Cut(text, p, m) && Cut(text, q, n)
    ensures p == q && m == n
    decreases |m|
  {
    CutHead(text, p, m);
    CutHead(text, q, n);
    assert |p[0]| == |q[0]| && p[0] == q[0];
    if m != [] && n != [] {
      FoundIff(text[|p[0]|..], m[0]);
      FoundIff(text[|p[0]|..], n[0]);
      var k := |p[0]| + |m[0]| + 4;
      assert Hole(m[0]) == Hole(n[0]);
      assert Woven(p[1..], Holes(m[1..])) == text[k..] && Woven(q[1..], Holes(n[1..])) == text[k..];
      CutUnique(text[k..], p[1..], m[1..], q[1..], n[1..]);
      assert p == [p[0]] + p[1..] && q == [q[0]] + q[1..] && m == [m[0]] + m[1..] && n == [n[0]] + n[1..];
    } else {
      assert p == [p[0]] && q == [q[0]];
    }
  }

  /** The first piece ends at the first placeholder, or at the end. */
  lemma CutHead(text: string, pieces: seq<string>, names: seq<string>)
    requires Cut(text, pieces, names)
    ensures text[..|pieces[0]|] == pieces[0]
    ensures names == [] ==> text == pieces[0]
    ensures names != [] ==>
              && HoleAt(text, |pieces[0]|) && Hole(names[0]) <= text[|pieces[0]|..] && IsName(names[0])
              && text[|pieces[0]| + |names[0]| + 4..] == Woven(pieces[1..], Holes(names[1..]))
  {
    if names != [] {
      var tail := Woven(pieces[1..], Holes(names[1..]));
      assert Holes(names)[1..] == Holes(names[1..]) && Holes(names)[0] == Hole(names[0]);
      assert text == pieces[0] + (Hole(names[0]) + tail);
      assert text[|pieces[0]|..] == Hole(names[0]) + tail;
      assert names[0] in names;
    }
  }

  // ----- values -----

  /** The whole text is one placeholder. */
  predicate Whole(pieces: seq<string>, names: seq<string>) { |names| == 1 && pieces == ["", ""] }

  /** A text that is one placeholder becomes the variable's value, of any type; any other
      becomes the text woven from its pieces. */
  ghost predicate TextBecomes(s: string, w: Value, vars: Record) {
    exists pieces, names, fills ::
      Cut(s, pieces, names) &&
      if Whole(pieces, names) then Lookup(vars, names[0]) == Some(w)
      else Filled(vars, names, fills) && w == Str(Woven(pieces, fills))
  }

  /** It cannot become anything. */
  ghost predicate TextUnfit(s: string, vars: Record) {
    exists pieces, names ::
      Cut(s, pieces, names) &&
      if Whole(pieces, names) then Lookup(vars, names[0]).None?
      else exists n :: n in names && !Readable(vars, n)
  }

  /** The same shape with the same keys, and every text become what it becomes. */
  ghost predicate Becomes(v: Value, w: Value, vars: Record)
    decreases v
  {
    match v
    case Str(s) => TextBecomes(s, w, vars)
    case Arr(items) =>
      w.Arr? && |w.items| == |items| && forall i | 0 <= i < |items| :: Becomes(items[i], w.items[i], vars)
    case Obj(fields) =>
      && w.Obj? && |w.fields| == |fields|
      && forall i | 0 <= i < |fields| ::
           assert fields[i].value < fields[i];
           w.fields[i].key == fields[i].key && Becomes(fields[i].value, w.fields[i].value, vars)
    case _ => w == v
  }

  ghost predicate Unfit(v: Value, vars: Record)
    decreases v
  {
    match v
    case Str(s) => TextUnfit(s, vars)
    case Arr(items) => exists i :: 0 <= i < |items| && Unfit(items[i], vars)
    case Obj(fields) =>
      exists i :: 0 <= i < |fields| && (assert fields[i].value < fields[i]; Unfit(fields[i].value, vars))
    case _ => false
  }

  lemma StringBecomes(s: string, vars: Record)
    ensures forall w :: Subst(Str(s), vars) == Ok(w) <==> TextBecomes(s, w, vars)
    ensures Subst(Str(s), vars).Err? <==> TextUnfit(s, vars)
  {
    var pieces, names, fills, bad := TextWoven(s, vars);
    WholeFound(s, pieces, names);
    forall w ensures Subst(Str(s), vars) == Ok(w) <==> TextBecomes(s, w, vars) {
      if TextBecomes(s, w, vars) {
        var p, n, f :| Cut(s, p, n) &&
          if Whole(p, n) then Lookup(vars, n[0]) == Some(w) else Filled(vars, n, f) && w == Str(Woven(p, f));
        CutUnique(s, pieces, names, p, n);
        if !Whole(p, n) { FilledOnce(vars, names, fills, f); }
      }
    }
    if TextUnfit(s, vars) {
      var p, n :| Cut(s, p, n) &&
        if Whole(p, n) then Lookup(vars, n[0]).None? else exists m :: m in n && !Readable(vars, m);
      CutUnique(s, pieces, names, p, n);
    }
  }

  /** Names that are all readable have one text each. */
  lemma FilledOnce(vars: Record, names: seq<string>, a: seq<string>, b: seq<string>)
    requires Filled(vars, names, b)
    ensures forall n | n in names :: Readable(vars, n)
    ensures Filled(vars, names, a) ==> a == b
  {
    forall n | n in names ensures Readable(vars, n) {
      var i :| 0 <= i < |names| && names[i] == n;
      assert Reads(Lookup(vars, names[i]).value, b[i]);
    }
    if Filled(vars, names, a) {
      forall i | 0 <= i < |names| ensures a[i] == b[i] {
        assert Reads(Lookup(vars, names[i]).value, a[i]) && Reads(Lookup(vars, names[i]).value, b[i]);
      }
    }
  }

  /** The scanner sees that the whole text is a placeholder. */
  lemma WholeFound(s: string, pieces: seq<string>, names: seq<string>)
    requires Cut(s, pieces, names)
    ensures Whole(pieces, names) <==> PlaceholderAt(s).Some? && |PlaceholderAt(s).value| + 4 == |s|
    ensures Whole(pieces, names) ==> PlaceholderAt(s) == Some(names[0])
  {
    CutHead(s, pieces, names);
    FoundHole(s);
    assert s[0..] == s;
    if PlaceholderAt(s).Some? {
      NoPieceFirst(s, pieces, names);
      FoundIff(s, names[0]);
      var tail := Woven(pieces[1..], Holes(names[1..]));
      assert s[|names[0]| + 4..] == tail;
      if |names[0]| + 4 == |s| { NothingWoven(pieces[1..], names[1..]); }
    }
    if Whole(pieces, names) {
      assert pieces[1..] == [""] && names[1..] == [] && Woven([""], []) == "";
      FoundIff(s, names[0]);
    }
  }

  lemma NoPieceFirst(s: string, pieces: seq<string>, names: seq<string>)
    requires Cut(s, pieces, names) && HoleAt(s, 0)
    ensures pieces[0] == ""
  {
  }

  lemma HolesShow(pieces: seq<string>, names: seq<string>)
    requires |pieces| == |names| + 1 && names != []
    ensures |Woven(pieces, Holes(names))| >= 4
  {
    assert |Holes(names)[0]| >= 4;
  }

  lemma NothingWoven(pieces: seq<string>, names: seq<string>)
    requires |pieces| == |names| + 1 && Woven(pieces, Holes(names)) == ""
    ensures pieces == [""] && names == []
  {
    if names != [] { HolesShow(pieces, names); }
  }

  /** What a value becomes, if anything; and it fails exactly when it is unfit. */
  lemma {:induction false} SubstIff(v: Value, vars: Record)
    ensures forall w :: Subst(v, vars) == Ok(w) <==> Becomes(v, w, vars)
    ensures Subst(v, vars).Err? <==> Unfit(v, vars)
    decreases v, 1
  {
    match v
    case Str(s) => StringBecomes(s, vars);
    case Arr(items) =>
      ItemsIff(items, vars);
      forall w ensures Subst(v, vars) == Ok(w) <==> Becomes(v, w, vars) {
        if w.Arr? { assert SubstItems(items, vars) == Ok(w.items) <==> ItemsBecome(items, w.items, vars); }
      }
    case Obj(fields) =>
      FieldsIff(fields, vars);
      forall w ensures Subst(v, vars) == Ok(w) <==> Becomes(v, w, vars) {
        if w.Obj? { assert SubstFields(fields, vars) == Ok(w.fields) <==> FieldsBecome(fields, w.fields, vars); }
      }
    case _ =>
  }

  ghost predicate ItemsBecome(items: seq<Value>, ws: seq<Value>, vars: Record) {
    |ws| == |items| && forall i | 0 <= i < |items| :: Becomes(items[i], ws[i], vars)
  }

  lemma {:induction false} ItemsIff(items: seq<Value>, vars: Record)
    ensures forall ws :: SubstItems(items, vars) == Ok(ws) <==> ItemsBecome(items, ws, vars)
    ensures SubstItems(items, vars).Err? <==> exists i :: 0 <= i < |items| && Unfit(items[i], vars)
    decreases items, 0
  {
    if items == [] {
    } else {
      SubstIff(items[0], vars);
      ItemsIff(items[1..], vars);
      forall ws ensures SubstItems(items, vars) == Ok(ws) <==> ItemsBecome(items, ws, vars) {
        if |ws| == |items| {
          assert ws == [ws[0]] + ws[1..];
          assert SubstItems(items[1..], vars) == Ok(ws[1..]) <==> ItemsBecome(items[1..], ws[1..], vars);
          if ItemsBecome(items[1..], ws[1..], vars) && Becomes(items[0], ws[0], vars) {
            forall i | 0 <= i < |items| ensures Becomes(items[i], ws[i], vars) {
              if i > 0 { assert items[i] == items[1..][i - 1] && ws[i] == ws[1..][i - 1]; }
            }
          }
        }
      }
      if i :| 0 <= i < |items| && Unfit(items[i], vars) && i > 0 { assert items[i] == items[1..][i - 1]; }
      if j :| 0 <= j < |items[1..]| && Unfit(items[1..][j], vars) { assert items[j + 1] == items[1..][j]; }
    }
  }

  ghost predicate FieldsBecome(fields: Record, ws: Record, vars: Record) {
    |ws| == |fields| && forall i | 0 <= i < |fields| ::
      ws[i].key == fields[i].key && Becomes(fields[i].value, ws[i].value, vars)
  }

  lemma FieldsBecomeCons(fields: Record, ws: Record, vars: Record)
    requires fields != [] && |ws| == |fields|
    ensures FieldsBecome(fields, ws, vars) <==>
              FieldsBecome(fields[..1], ws[..1], vars) && FieldsBecome(fields[1..], ws[1..], vars)
  {
    assert fields == fields[..1] + fields[1..] && ws == ws[..1] + ws[1..];
    if FieldsBecome(fields[..1], ws[..1], vars) && FieldsBecome(fields[1..], ws[1..], vars) {
      assert fields[..1][0] == fields[0] && ws[..1][0] == ws[0];
      assert forall i | 0 < i < |fields| :: fields[i] == fields[1..][i - 1] && ws[i] == ws[1..][i - 1];
    }
  }

  lemma FieldsBecomeOne(f: Field<string>, g: Field<string>, vars: Record)
    ensures FieldsBecome([f], [g], vars) <==> g.key == f.key && Becomes(f.value, g.value, vars)
  {
    assert [f][0] == f && [g][0] == g;
  }

  lemma {:induction false} FieldsIff(fields: Record, vars: Record)
    ensures forall ws :: SubstFields(fields, vars) == Ok(ws) <==> FieldsBecome(fields, ws, vars)
    ensures SubstFields(fields, vars).Err? <==> exists i :: 0 <= i < |fields| && Unfit(fields[i].value, vars)
    decreases fields, 0
  {
    if fields == [] {
    } else {
      assert fields[0].value < fields[0];
      SubstIff(fields[0].value, vars);
      FieldsIff(fields[1..], vars);
      forall ws ensures SubstFields(fields, vars) == Ok(ws) <==> FieldsBecome(fields, ws, vars) {
        if |ws| == |fields| {
          assert ws == [ws[0]] + ws[1..];
          assert SubstFields(fields[1..], vars) == Ok(ws[1..]) <==> FieldsBecome(fields[1..], ws[1..], vars);
          FieldsBecomeCons(fields, ws, vars);
          assert fields[..1] == [fields[0]] && ws[..1] == [ws[0]];
          FieldsBecomeOne(fields[0], ws[0], vars);
        }
      }
      if i :| 0 <= i < |fields| && Unfit(fields[i].value, vars) && i > 0 { assert fields[i] == fields[1..][i - 1]; }
      if j :| 0 <= j < |fields[1..]| && Unfit(fields[1..][j].value, vars) { assert fields[j + 1] == fields[1..][j]; }
    }
  }

  // ----- steps -----

  ghost predicate InputBecomes(a: Option<Value>, b: Option<Value>, vars: Record) {
    match a case None => b == None case Some(v) => b.Some? && Becomes(v, b.value, vars)
  }

  ghost predicate CallBecomes(a: Call, b: Call, vars: Record) {
    b.action == a.action && InputBecomes(a.input, b.input, vars)
  }

  ghost predicate ConditionBecomes(a: Condition, b: Condition, vars: Record) {
    Becomes(a.path, b.path, vars) && Becomes(a.equals, b.equals, vars)
  }

  /** Every text of the step becomes what it becomes, and all else stays: the input of the
      call and of its compensation, the path and the value of the condition. */
  ghost predicate OwnBecomes(s: Step, t: Step, vars: Record) {
    match s
    case Task(id, call, retry, timeout, compensate) =>
      && t.Task? && t.id == id && t.retry == retry && t.timeout == timeout && CallBecomes(call, t.call, vars)
      && (match compensate
          case None => t.compensate == None
          case Some(c) => t.compensate.Some? && CallBecomes(c, t.compensate.value, vars))
    case Poll(id, call, until, intervalMs, retry, timeout) =>
      && t.Poll? && t.id == id && t.intervalMs == intervalMs && t.retry == retry && t.timeout == timeout
      && CallBecomes(call, t.call, vars) && ConditionBecomes(until, t.until, vars)
    case Branch(id, timeout, when, thens, elses) =>
      && t.Branch? && t.id == id && t.timeout == timeout && t.thens == thens && t.elses == elses
      && ConditionBecomes(when, t.when, vars)
    case _ => t == s
  }

  lemma CallIff(c: Call, vars: Record)
    ensures forall d :: SubstCall(c, vars) == Ok(d) <==> CallBecomes(c, d, vars)
  {
    if c.input.Some? { SubstIff(c.input.value, vars); }
  }

  lemma ConditionIff(c: Condition, vars: Record)
    ensures forall d :: SubstCondition(c, vars) == Ok(d) <==> ConditionBecomes(c, d, vars)
  {
    SubstIff(c.path, vars);
    SubstIff(c.equals, vars);
  }

  /** What a step becomes when its own text is substituted. */
  lemma OwnIff(s: Step, t: Step, vars: Record)
    ensures SubstOwn(s, vars) == Ok(t) <==> OwnBecomes(s, t, vars)
  {
    match s
    case Task(_, call, _, _, compensate) =>
      CallIff(call, vars);
      if compensate.Some? { CallIff(compensate.value, vars); }
    case Poll(_, call, until, _, _, _) =>
      CallIff(call, vars);
      ConditionIff(until, vars);
    case Branch(_, _, when, _, _) => ConditionIff(when, vars);
    case _ =>
  }
}
