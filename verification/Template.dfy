/** `{{name}}` placeholders inside the strings of a scenario. */
module Template {
  import opened Json

  type Value = Json<string>
  type Record = seq<Field<string>>

  datatype Error =
    | FragmentCycle(path: seq<string>)
    | UnknownFragment(name: string)
    | UndefinedVariable(name: string)
    | NotInterpolable(name: string)

  datatype Result<+T> = Ok(value: T) | Err(error: Error) {
    predicate IsFailure() { Err? }
    function PropagateFailure<U>(): Result<U>
      requires Err?
    {
      Err(error)
    }
    function Extract(): T
      requires Ok?
    {
      value
    }
  }

  predicate NameStart(c: char) { 'a' <= c <= 'z' || 'A' <= c <= 'Z' }

  predicate NameChar(c: char) {
    NameStart(c) || '0' <= c <= '9' || c == '_' || c == '.' || c == '-'
  }

  /** Length of the longest run of name characters at the head of `s`. */
  function NameRun(s: string): (n: nat)
    ensures n <= |s|
    ensures forall i | 0 <= i < n :: NameChar(s[i])
    ensures n < |s| ==> !NameChar(s[n])
  {
    if s == [] || !NameChar(s[0]) then 0 else 1 + NameRun(s[1..])
  }

  /** The name of the placeholder that `s` starts with, if it starts with one. */
  function PlaceholderAt(s: string): (r: Option<string>)
    ensures r.Some? ==> |r.value| + 4 <= |s| && s[0] == '{'
  {
    if |s| >= 5 && s[0] == '{' && s[1] == '{' && NameStart(s[2]) then
      var n := NameRun(s[2..]);
      if n + 4 <= |s| && s[n + 2] == '}' && s[n + 3] == '}' then Some(s[2..n + 2]) else None
    else None
  }

  /** `String(replacement)`; objects, arrays and null are refused. */
  function ScalarText(name: string, v: Value): Result<string> {
    match v
    case Str(s) => Ok(s)
    case Num(n) => Ok(n)
    case Bool(b) => Ok(if b then "true" else "false")
    case _ => Err(NotInterpolable(name))
  }

  function Variable(vars: Record, name: string): Result<Value> {
    match Lookup(vars, name)
    case None => Err(UndefinedVariable(name))
    case Some(v) => Ok(v)
  }

  /** Replace every placeholder of `s`, left to right. */
  function Interpolate(s: string, vars: Record): Result<string>
    decreases |s|
  {
    if s == [] then Ok([])
    else match PlaceholderAt(s)
      case None =>
        var rest :- Interpolate(s[1..], vars);
        Ok([s[0]] + rest)
      case Some(name) =>
        var v :- Variable(vars, name);
        var text :- ScalarText(name, v);
        var rest :- Interpolate(s[|name| + 4..], vars);
        Ok(text + rest)
  }

  /** A string that is one placeholder becomes the variable's value, of any type;
      any other string stays a string. */
  function SubstString(s: string, vars: Record): Result<Value> {
    match PlaceholderAt(s)
    case Some(name) =>
      if |name| + 4 == |s| then Variable(vars, name)
      else (var t :- Interpolate(s, vars); Ok(Str(t)))
    case None => var t :- Interpolate(s, vars); Ok(Str(t))
  }

  function Subst(v: Value, vars: Record): Result<Value>
    decreases v, 1
  {
    match v
    case Str(s) => SubstString(s, vars)
    case Arr(items) => var r :- SubstItems(items, vars); Ok(Arr(r))
    case Obj(fields) => var r :- SubstFields(fields, vars); Ok(Obj(r))
    case _ => Ok(v)
  }

  function SubstItems(items: seq<Value>, vars: Record): Result<seq<Value>>
    decreases items, 0
  {
    if items == [] then Ok([])
    else
      var head :- Subst(items[0], vars);
      var tail :- SubstItems(items[1..], vars);
      Ok([head] + tail)
  }

  function SubstFields(fields: Record, vars: Record): Result<Record>
    decreases fields, 0
  {
    if fields == [] then Ok([])
    else
      assert fields[0].value < fields[0];
      var head :- Subst(fields[0].value, vars);
      var tail :- SubstFields(fields[1..], vars);
      Ok([Field(fields[0].key, head)] + tail)
  }

  // ----- when a second substitution changes nothing -----

  /** Every string inside the value satisfies `p`. */
  predicate AllText(v: Value, p: string -> bool)
    decreases v
  {
    match v
    case Str(s) => p(s)
    case Num(n) => p(n)
    case Arr(items) => forall w | w in items :: AllText(w, p)
    case Obj(fields) => forall f | f in fields :: AllText(f.value, p)
    case _ => true
  }

  /** No placeholder anywhere in the text. */
  predicate Bare(s: string) { s == "" || (PlaceholderAt(s).None? && Bare(s[1..])) }

  predicate Final(v: Value) { AllText(v, Bare) }

  /** Substituting a second time changes nothing. */
  predicate Stable(v: Value, vars: Record) {
    Subst(v, vars).Ok? ==> Subst(Subst(v, vars).value, vars) == Subst(v, vars)
  }

  lemma {:induction false} BareUnchanged(s: string, vars: Record)
    requires Bare(s)
    ensures Interpolate(s, vars) == Ok(s)
    decreases |s|
  {
    if s == [] {
    } else {
      BareUnchanged(s[1..], vars);
      assert s == [s[0]] + s[1..];
    }
  }

  /** A value without placeholders is a fixed point of substitution. */
  lemma {:induction false} FinalUnchanged(v: Value, vars: Record)
    requires Final(v)
    ensures Subst(v, vars) == Ok(v)
    decreases v, 1
  {
    match v
    case Str(s) => BareUnchanged(s, vars);
    case Arr(items) => FinalItemsUnchanged(items, vars);
    case Obj(fields) => FinalFieldsUnchanged(fields, vars);
    case _ =>
  }

  lemma {:induction false} FinalItemsUnchanged(items: seq<Value>, vars: Record)
    requires forall w | w in items :: Final(w)
    ensures SubstItems(items, vars) == Ok(items)
    decreases items, 0
  {
    if items == [] {
    } else {
      FinalUnchanged(items[0], vars);
      FinalItemsUnchanged(items[1..], vars);
      assert items == [items[0]] + items[1..];
    }
  }

  lemma {:induction false} FinalFieldsUnchanged(fields: Record, vars: Record)
    requires forall f | f in fields :: Final(f.value)
    ensures SubstFields(fields, vars) == Ok(fields)
    decreases fields, 0
  {
    if fields == [] {
    } else {
      assert fields[0].value < fields[0] && fields[0] in fields;
      FinalUnchanged(fields[0].value, vars);
      FinalFieldsUnchanged(fields[1..], vars);
      assert fields == [fields[0]] + fields[1..];
    }
  }

  // ----- a condition on the authored text -----

  /** No opening brace anywhere in the text. */
  predicate PlainText(s: string) { '{' !in s }

  /** Every opening brace of `s` belongs to a placeholder. */
  predicate TemplateText(s: string)
    decreases |s|
  {
    s == [] ||
    match PlaceholderAt(s)
    case Some(name) => TemplateText(s[|name| + 4..])
    case None => s[0] != '{' && TemplateText(s[1..])
  }

  predicate Plain(v: Value) { AllText(v, PlainText) }

  /** Numerals are never templates. */
  predicate Templated(v: Value)
    decreases v
  {
    match v
    case Str(s) => TemplateText(s)
    case Num(n) => PlainText(n)
    case Arr(items) => forall w | w in items :: Templated(w)
    case Obj(fields) => forall f | f in fields :: Templated(f.value)
    case _ => true
  }

  predicate PlainRecord(vars: Record) { forall f | f in vars :: Plain(f.value) }

  lemma {:induction false} PlainIsBare(s: string)
    requires PlainText(s)
    ensures Bare(s)
  {
    if s == "" {
    } else {
      PlainIsBare(s[1..]);
    }
  }

  lemma {:induction false} PlainIsFinal(v: Value)
    requires Plain(v)
    ensures Final(v)
    decreases v
  {
    match v
    case Str(s) => PlainIsBare(s);
    case Num(n) => PlainIsBare(n);
    case Arr(items) => forall w | w in items ensures Final(w) { PlainIsFinal(w); }
    case Obj(fields) =>
      forall f | f in fields ensures Final(f.value) {
        assert f.value < f;
        PlainIsFinal(f.value);
      }
    case _ =>
  }

  lemma {:induction false} InterpolatedIsPlain(s: string, vars: Record)
    requires TemplateText(s) && PlainRecord(vars)
    requires Interpolate(s, vars).Ok?
    ensures PlainText(Interpolate(s, vars).value)
    decreases |s|
  {
    if s == [] {
    } else {
      match PlaceholderAt(s)
      case None =>
        InterpolatedIsPlain(s[1..], vars);
        assert Interpolate(s, vars).value == [s[0]] + Interpolate(s[1..], vars).value;
      case Some(name) =>
        var rest := s[|name| + 4..];
        InterpolatedIsPlain(rest, vars);
        var v := Lookup(vars, name).value;
        assert Plain(v);
        assert Interpolate(s, vars).value == ScalarText(name, v).value + Interpolate(rest, vars).value;
    }
  }

  lemma {:induction false} SubstIsPlain(v: Value, vars: Record)
    requires Templated(v) && PlainRecord(vars)
    requires Subst(v, vars).Ok?
    ensures Plain(Subst(v, vars).value)
    decreases v, 1
  {
    match v
    case Str(s) =>
      if !(PlaceholderAt(s).Some? && |PlaceholderAt(s).value| + 4 == |s|) {
        InterpolatedIsPlain(s, vars);
      }
    case Arr(items) => SubstItemsPlain(items, vars);
    case Obj(fields) => SubstFieldsPlain(fields, vars);
    case _ =>
  }

  lemma {:induction false} SubstItemsPlain(items: seq<Value>, vars: Record)
    requires PlainRecord(vars) && SubstItems(items, vars).Ok?
    requires forall w | w in items :: Templated(w)
    ensures forall w | w in SubstItems(items, vars).value :: Plain(w)
    decreases items, 0
  {
    if items == [] {
    } else {
      SubstIsPlain(items[0], vars);
      SubstItemsPlain(items[1..], vars);
    }
  }

  lemma {:induction false} SubstFieldsPlain(fields: Record, vars: Record)
    requires PlainRecord(vars) && SubstFields(fields, vars).Ok?
    requires forall f | f in fields :: Templated(f.value)
    ensures forall f | f in SubstFields(fields, vars).value :: Plain(f.value)
    decreases fields, 0
  {
    if fields == [] {
    } else {
      assert fields[0].value < fields[0] && fields[0] in fields;
      SubstIsPlain(fields[0].value, vars);
      SubstFieldsPlain(fields[1..], vars);
    }
  }

  /** Brace-free variable values and no stray opening brace in the text are enough. */
  lemma BraceFreeIsStable(v: Value, vars: Record)
    requires Templated(v) && PlainRecord(vars)
    ensures Stable(v, vars)
  {
    if Subst(v, vars).Ok? {
      SubstIsPlain(v, vars);
      PlainIsFinal(Subst(v, vars).value);
      FinalUnchanged(Subst(v, vars).value, vars);
    }
  }

  lemma OnePlaceholder(c: char, rest: string)
    requires NameStart(c) && (rest == [] || !NameChar(rest[0]))
    ensures NameRun([c] + rest) == 1
  {
    assert ([c] + rest)[1..] == rest;
  }

  /** A variable value that is itself a placeholder is replaced again by a second
      substitution. */
  lemma SubstTwiceCanDifferByValue()
    ensures var vars := [Field("x", Str("{{y}}")), Field("y", Str("b"))];
            Templated(Str("{{x}}"))
            && Subst(Str("{{x}}"), vars) == Ok(Str("{{y}}"))
            && Subst(Str("{{y}}"), vars) == Ok(Str("b"))
  {
    var vars := [Field("x", Str("{{y}}")), Field("y", Str("b"))];
    OnePlaceholder('x', "}}");
    assert "{{x}}"[2..] == ['x'] + "}}" && "{{x}}"[2..3] == "x";
    assert PlaceholderAt("{{x}}") == Some("x");
    assert TemplateText("{{x}}"[5..]);
    OnePlaceholder('y', "}}");
    assert "{{y}}"[2..] == ['y'] + "}}" && "{{y}}"[2..3] == "y";
    assert PlaceholderAt("{{y}}") == Some("y");
    assert vars[1..] == [Field("y", Str("b"))];
  }
}
