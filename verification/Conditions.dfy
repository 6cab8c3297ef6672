/** Which step outputs a condition can read. */
module Conditions {
  import opened Json
  import opened Template
  import opened Steps
  import opened Interpreter

  /** What the path of a condition is read from. */
  function Root(vars: Record, outputs: Record): Value {
    Obj([Field("variables", Obj(vars)), Field("outputs", Obj(outputs))])
  }

  lemma {:induction false} SplitPlain(s: string)
    requires '.' !in s
    ensures Split(s) == [s]
  {
    if s == "" {
    } else {
      SplitPlain(s[1..]);
      assert s == [s[0]] + s[1..];
    }
  }

  /** The first segment ends at the first dot. */
  lemma {:induction false} SplitDotted(s: string)
    requires '.' in s
    ensures |Split(s)| > 1 && |Split(s)[0]| < |s|
  {
    if s[0] != '.' { SplitDotted(s[1..]); }
  }

  lemma {:induction false} SplitAfter(a: string, b: string)
    requires '.' !in a
    ensures Split(a + "." + b) == [a] + Split(b)
  {
    var s := a + "." + b;
    if a == "" {
      assert s[1..] == b;
    } else {
      assert s[1..] == a[1..] + "." + b;
      SplitAfter(a[1..], b);
      assert a == [a[0]] + a[1..];
    }
  }

  /** A path is walked segment by segment: each one takes a member of an object, and there
      is nothing below anything else. */
  lemma WalkSegments(v: Value, a: string, rest: string)
    requires '.' !in a
    ensures Walk(v, Split(a)) == if v.Obj? then Lookup(v.fields, a) else None
    ensures Walk(v, Split(a + "." + rest)) ==
            if v.Obj? && Lookup(v.fields, a).Some? then Walk(Lookup(v.fields, a).value, Split(rest)) else None
  {
    SplitPlain(a);
    SplitAfter(a, rest);
    assert [a][1..] == [] && Split(a + "." + rest)[1..] == Split(rest);
  }

  function OutputOf(id: string): string { "outputs" + "." + id }

  /** A leading `$.` is optional. */
  lemma DollarOptional(root: Value, path: string)
    requires path != "" && path[0] != '$'
    ensures ReadPath(root, "$." + path) == ReadPath(root, path)
  {
    assert ("$." + path)[1..] == "." + path && ("." + path)[1..] == path;
  }

  /** A path below `outputs` is walked from the record of outputs. */
  lemma OutputPath(vars: Record, outputs: Record, id: string)
    ensures ReadPath(Root(vars, outputs), OutputOf(id)) == Walk(Obj(outputs), Split(id))
  {
    var segments, fields := Split(OutputOf(id)), Root(vars, outputs).fields;
    SplitAfter("outputs", id);
    assert segments[0] == "outputs" && segments[1..] == Split(id);
    assert fields[1..] == [Field("outputs", Obj(outputs))];
    assert Lookup(fields, "outputs") == Some(Obj(outputs));
    assert Walk(Root(vars, outputs), segments) == Walk(Obj(outputs), Split(id));
    assert OutputOf(id)[0] == 'o';
  }

  lemma WalkOne(outputs: Record, id: string)
    ensures Walk(Obj(outputs), [id]) == Lookup(outputs, id)
  {
    assert [id][1..] == [];
  }

  /** A condition reads the output of a step by its id, in every run, exactly when the id
      has no dot: the ids of steps nested in others, or in fragments, do. */
  lemma OutputReadableIff(vars: Record, id: string)
    ensures (forall outputs: Record | Lookup(outputs, id).Some? ::
               ReadPath(Root(vars, outputs), OutputOf(id)) == Lookup(outputs, id))
            <==> '.' !in id
  {
    if '.' !in id {
      SplitPlain(id);
      forall outputs: Record | Lookup(outputs, id).Some?
        ensures ReadPath(Root(vars, outputs), OutputOf(id)) == Lookup(outputs, id)
      {
        OutputPath(vars, outputs, id);
        WalkOne(outputs, id);
      }
    } else {
      var outputs := [Field(id, Null)];
      SplitDotted(id);
      OutputPath(vars, outputs, id);
      assert outputs[1..] == [] && Split(id)[0] != id;
      assert Lookup(outputs, Split(id)[0]).None?;
      assert Lookup(outputs, id) == Some(Null);
      assert ReadPath(Root(vars, outputs), OutputOf(id)) == None;
    }
  }

  /** So a condition on the output of a step at the top of a phase holds exactly when the
      step has an output and it is the expected value. */
  lemma OutputCondition(vars: Record, outputs: Record, current: Option<Value>, id: string, expected: Value)
    requires '.' !in id
    ensures Evaluate(Condition(Str("$." + OutputOf(id)), expected), vars, outputs, current) ==
            if Lookup(outputs, id) == Some(expected) then Holds else Fails
  {
    OutputPath(vars, outputs, id);
    DollarOptional(Root(vars, outputs), OutputOf(id));
    SplitPlain(id);
    WalkOne(outputs, id);
    assert |"$." + OutputOf(id)| > 1;
  }

  function VariableOf(key: string): string { "variables" + "." + key }

  /** A path below `variables` is walked from the record of variables. */
  lemma VariablePath(vars: Record, outputs: Record, key: string)
    ensures ReadPath(Root(vars, outputs), VariableOf(key)) == Walk(Obj(vars), Split(key))
  {
    var segments, fields := Split(VariableOf(key)), Root(vars, outputs).fields;
    SplitAfter("variables", key);
    assert segments[0] == "variables" && segments[1..] == Split(key);
    assert Lookup(fields, "variables") == Some(Obj(vars));
    assert Walk(Root(vars, outputs), segments) == Walk(Obj(vars), Split(key));
    assert VariableOf(key)[0] == 'v';
  }

  /** A condition on a variable holds exactly when the variable has the expected value. */
  lemma VariableCondition(vars: Record, outputs: Record, current: Option<Value>, key: string, expected: Value)
    requires '.' !in key
    ensures Evaluate(Condition(Str("$." + VariableOf(key)), expected), vars, outputs, current) ==
            if Lookup(vars, key) == Some(expected) then Holds else Fails
  {
    VariablePath(vars, outputs, key);
    DollarOptional(Root(vars, outputs), VariableOf(key));
    SplitPlain(key);
    WalkOne(vars, key);
    assert |"$." + VariableOf(key)| > 1;
  }

  /** The condition `$` of a poll step holds exactly when its handler left the expected
      output, and a condition step has none. */
  lemma CurrentCondition(vars: Record, outputs: Record, current: Option<Value>, expected: Value)
    ensures Evaluate(Condition(Str("$"), expected), vars, outputs, current) ==
            if current == Some(expected) then Holds else Fails
  {
  }
}
