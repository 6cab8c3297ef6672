/** Step ids of a resolved phase are pairwise distinct. */
module StepIds {
  import opened Json
  import opened Template
  import opened Steps
  import opened Resolver

  predicate Distinct<T(==)>(s: seq<T>) { forall i, j | 0 <= i < j < |s| :: s[i] != s[j] }

  /** An authored id: the scenario schema allows lower-case letters, digits and dashes. */
  predicate PlainId(id: string) { id != "" && '.' !in id }

  /** Sibling ids are plain and distinct, in this list and in every nested one. */
  predicate UniqueSiblings(steps: seq<Step>)
    decreases steps, 0
  {
    (forall i | 0 <= i < |steps| :: PlainId(steps[i].id)) &&
    (forall i, j | 0 <= i < j < |steps| :: steps[i].id != steps[j].id) &&
    forall s | s in steps :: UniqueBelow(s)
  }

  predicate UniqueBelow(s: Step)
    decreases s, 1
  {
    match s
    case Parallel(_, _, steps) => UniqueSiblings(steps)
    case Repeat(_, _, _, steps) => UniqueSiblings(steps)
    case Branch(_, _, _, thens, elses) => UniqueSiblings(thens) && UniqueSiblings(elses)
    case _ => true
  }

  predicate UniqueFragments(frags: Fragments) { forall f | f in frags :: UniqueSiblings(frags[f]) }

  /** Every step id of a tree, in document order. */
  function Ids(steps: seq<Step>): seq<string>
    decreases steps, 0
  {
    if steps == [] then [] else IdsOf(steps[0]) + Ids(steps[1..])
  }

  function IdsOf(s: Step): seq<string>
    decreases s, 1
  {
    [s.id] +
    match s
    case Parallel(_, _, steps) => Ids(steps)
    case Repeat(_, _, _, steps) => Ids(steps)
    case Branch(_, _, _, thens, elses) => Ids(thens) + Ids(elses)
    case _ => []
  }

  // ----- id paths -----

  /** `u` is `p` or a dotted extension of `p`. */
  predicate Under(u: string, p: string) { p <= u && (|u| == |p| || u[|p|] == '.') }

  lemma UnderTrans(u: string, p: string, q: string)
    requires Under(u, p) && Under(p, q)
    ensures Under(u, q)
  {
  }

  /** The text before the first dot. */
  function Head(s: string): string {
    if s == "" || s[0] == '.' then "" else [s[0]] + Head(s[1..])
  }

  lemma {:induction false} HeadOfJoined(a: string, rest: string)
    requires '.' !in a && (rest == "" || rest[0] == '.')
    ensures Head(a + rest) == a
  {
    if a == "" {
      assert a + rest == rest;
    } else {
      assert (a + rest)[1..] == a[1..] + rest;
      HeadOfJoined(a[1..], rest);
    }
  }

  /** An id below `prefix.a` names `a` in the segment after the prefix. */
  lemma SegmentOf(u: string, prefix: string, a: string)
    requires PlainId(a) && Under(u, Join(prefix, a))
    ensures var n := if prefix == "" then 0 else |prefix| + 1; n <= |u| && Head(u[n..]) == a
  {
    var n := if prefix == "" then 0 else |prefix| + 1;
    var p := Join(prefix, a);
    assert p[n..] == a && u[..|p|] == p;
    assert u[n..] == u[n..|p|] + u[|p|..] && u[n..|p|] == p[n..];
    HeadOfJoined(a, u[|p|..]);
  }

  /** Nothing is below two different siblings. */
  lemma UnderOne(u: string, prefix: string, a: string, b: string)
    requires PlainId(a) && PlainId(b)
    requires Under(u, Join(prefix, a)) && Under(u, Join(prefix, b))
    ensures a == b
  {
    SegmentOf(u, prefix, a);
    SegmentOf(u, prefix, b);
  }

  /** `u` is below one of the steps of the list. */
  predicate Covered(u: string, steps: seq<Step>, prefix: string) {
    exists i :: 0 <= i < |steps| && Under(u, Join(prefix, steps[i].id))
  }

  lemma CoveredBelow(u: string, steps: seq<Step>, prefix: string)
    requires Covered(u, steps, prefix) && prefix != ""
    ensures Under(u, prefix) && u != prefix
  {
    var i :| 0 <= i < |steps| && Under(u, Join(prefix, steps[i].id));
    assert Join(prefix, steps[i].id)[..|prefix|] == prefix;
    assert Under(Join(prefix, steps[i].id), prefix);
    UnderTrans(u, Join(prefix, steps[i].id), prefix);
  }

  lemma DistinctConcat<T>(a: seq<T>, b: seq<T>)
    requires Distinct(a) && Distinct(b)
    requires forall x | x in a :: x !in b
    ensures Distinct(a + b)
  {
    var c := a + b;
    forall i, j | 0 <= i < j < |c| ensures c[i] != c[j] {
      if i < |a| && |a| <= j { assert c[i] in a && c[j] in b; }
    }
  }

  lemma {:induction false} IdsConcat(a: seq<Step>, b: seq<Step>)
    ensures Ids(a + b) == Ids(a) + Ids(b)
  {
    if a == [] {
      assert a + b == b;
    } else {
      assert (a + b)[1..] == a[1..] + b;
      IdsConcat(a[1..], b);
    }
  }

  // ----- substitution keeps ids -----

  lemma {:induction false} SubstKeepsUnique(steps: seq<Step>, vars: Record)
    requires UniqueSiblings(steps) && SubstSteps(steps, vars).Ok?
    ensures UniqueSiblings(SubstSteps(steps, vars).value)
    decreases steps, 0
  {
    var mapped := SubstSteps(steps, vars).value;
    forall i | 0 <= i < |steps| ensures mapped[i].id == steps[i].id && UniqueBelow(mapped[i]) {
      SubstAt(steps, vars, i);
      assert steps[i] in steps;
      match steps[i]
      case Parallel(_, _, nested) => SubstKeepsUnique(nested, vars);
      case Repeat(_, _, _, nested) => SubstKeepsUnique(nested, vars);
      case Branch(_, _, _, thens, elses) =>
        SubstKeepsUnique(thens, vars);
        SubstKeepsUnique(elses, vars);
      case _ =>
    }
  }

  lemma {:induction false} SubstAt(steps: seq<Step>, vars: Record, i: nat)
    requires i < |steps| && SubstSteps(steps, vars).Ok?
    ensures SubstStep(steps[i], vars) == Ok(SubstSteps(steps, vars).value[i])
  {
    if i == 0 {
    } else {
      SubstAt(steps[1..], vars, i - 1);
      assert SubstSteps(steps, vars).value[i] == SubstSteps(steps[1..], vars).value[i - 1];
    }
  }

  // ----- the theorem -----

  /** All ids of an expanded list are distinct, and each lies below one authored step. */
  lemma {:induction false} ExpandedIdsDistinct(steps: seq<Step>, scope: Scope, stack: seq<string>, prefix: string)
    requires UniqueSiblings(steps) && UniqueFragments(scope.frags)
    requires Expand(steps, scope, stack, prefix).Ok?
    ensures Distinct(Ids(Expand(steps, scope, stack, prefix).value))
    ensures forall u | u in Ids(Expand(steps, scope, stack, prefix).value) :: Covered(u, steps, prefix)
    decreases Remaining(scope.frags, stack), SizeAll(steps), 1
  {
    if steps == [] {
    } else {
      var step, id := steps[0], Join(prefix, steps[0].id);
      assert step in steps;
      var tail := Expand(steps[1..], scope, stack, prefix).value;
      var head: seq<Step>;
      if step.Fragment? {
        EnteringShrinks(scope.frags, stack, step.useFragment);
        var body := scope.frags[step.useFragment];
        head := Expand(body, scope, stack + [step.useFragment], id).value;
        ExpandedIdsDistinct(body, scope, stack + [step.useFragment], id);
        forall u | u in Ids(head) ensures Under(u, id) { CoveredBelow(u, body, id); }
      } else {
        head := [ResolveStep(step, id, scope, stack).value];
        ResolvedIdsDistinct(step, id, scope, stack);
        assert Ids(head) == IdsOf(head[0]);
      }
      ExpandedIdsDistinct(steps[1..], scope, stack, prefix);
      ConsIdsDistinct(steps, prefix, head, tail);
    }
  }

  lemma ConsIdsDistinct(steps: seq<Step>, prefix: string, head: seq<Step>, tail: seq<Step>)
    requires UniqueSiblings(steps) && steps != [] && Distinct(Ids(head)) && Distinct(Ids(tail))
    requires forall u | u in Ids(head) :: Under(u, Join(prefix, steps[0].id))
    requires forall u | u in Ids(tail) :: Covered(u, steps[1..], prefix)
    ensures Distinct(Ids(head + tail))
    ensures forall u | u in Ids(head + tail) :: Covered(u, steps, prefix)
  {
    IdsConcat(head, tail);
    forall u | u in Ids(tail) ensures u !in Ids(head) && Covered(u, steps, prefix) {
      var i :| 0 <= i < |steps[1..]| && Under(u, Join(prefix, steps[1..][i].id));
      assert steps[i + 1] == steps[1..][i];
      if Under(u, Join(prefix, steps[0].id)) { UnderOne(u, prefix, steps[0].id, steps[i + 1].id); }
    }
    DistinctConcat(Ids(head), Ids(tail));
  }

  lemma BranchIdsDistinct(id: string, a: seq<string>, b: seq<string>)
    requires id != "" && Distinct(a) && Distinct(b)
    requires forall u | u in a :: Under(u, id + ".then")
    requires forall u | u in b :: Under(u, id + ".else")
    ensures Distinct([id] + (a + b))
    ensures forall u | u in [id] + (a + b) :: Under(u, id)
  {
    var yes, no := id + ".then", id + ".else";
    assert yes == Join(id, "then") && no == Join(id, "else");
    assert Under(yes, id) && Under(no, id);
    forall u | u in a ensures u !in b {
      if u in b { UnderOne(u, id, "then", "else"); }
    }
    DistinctConcat(a, b);
    forall u | u in a + b ensures Under(u, id) && u != id {
      if u in a { UnderTrans(u, yes, id); } else { UnderTrans(u, no, id); }
    }
    DistinctConcat([id], a + b);
  }

  lemma {:induction false} ResolvedIdsDistinct(step: Step, id: string, scope: Scope, stack: seq<string>)
    requires UniqueBelow(step) && UniqueFragments(scope.frags) && !step.Fragment? && id != ""
    requires ResolveStep(step, id, scope, stack).Ok?
    ensures Distinct(IdsOf(ResolveStep(step, id, scope, stack).value))
    ensures forall u | u in IdsOf(ResolveStep(step, id, scope, stack).value) :: Under(u, id)
    decreases Remaining(scope.frags, stack), Size(step), 0
  {
    var mapped := SubstStep(step, scope.vars).value;
    match step
    case Parallel(_, _, nested) =>
      NestedIdsDistinct(mapped.steps, nested, id, scope, stack);
      DistinctConcat([id], Ids(Expand(mapped.steps, scope, stack, id).value));
    case Repeat(_, _, _, nested) =>
      NestedIdsDistinct(mapped.steps, nested, id, scope, stack);
      DistinctConcat([id], Ids(Expand(mapped.steps, scope, stack, id).value));
    case Branch(_, _, _, thens, elses) =>
      var yes, no := id + ".then", id + ".else";
      NestedIdsDistinct(mapped.thens, thens, yes, scope, stack);
      NestedIdsDistinct(mapped.elses, elses, no, scope, stack);
      BranchIdsDistinct(id, Ids(Expand(mapped.thens, scope, stack, yes).value),
                        Ids(Expand(mapped.elses, scope, stack, no).value));
    case _ =>
  }

  lemma {:induction false} NestedIdsDistinct(
      mapped: seq<Step>, nested: seq<Step>, id: string, scope: Scope, stack: seq<string>)
    requires UniqueSiblings(nested) && SubstSteps(nested, scope.vars) == Ok(mapped)
    requires UniqueFragments(scope.frags) && id != ""
    requires Expand(mapped, scope, stack, id).Ok?
    ensures var ids := Ids(Expand(mapped, scope, stack, id).value);
            Distinct(ids) && forall u | u in ids :: Under(u, id) && u != id
    decreases Remaining(scope.frags, stack), SizeAll(nested), 2
  {
    SubstKeepsUnique(nested, scope.vars);
    ExpandedIdsDistinct(mapped, scope, stack, id);
    var ids := Ids(Expand(mapped, scope, stack, id).value);
    forall u | u in ids ensures Under(u, id) && u != id { CoveredBelow(u, mapped, id); }
  }

  // ----- validation -----

  datatype Report = Report(seen: set<string>, issues: seq<string>)

  /** The source's `visit`: keys seen so far and the duplicates found. */
  function Visit(steps: seq<Step>, place: string, r: Report): Report
    decreases steps
  {
    if steps == [] then r
    else
      var step := steps[0];
      var key := place + ":" + step.id;
      var r1 := Report(r.seen + {key}, if key in r.seen then r.issues + [step.id] else r.issues);
      var below := place + "." + step.id;
      var r2 :=
        match step
        case Parallel(_, _, nested) => Visit(nested, below, r1)
        case Repeat(_, _, _, nested) => Visit(nested, below, r1)
        case Branch(_, _, _, thens, elses) => Visit(elses, below + ".else", Visit(thens, below + ".then", r1))
        case _ => r1;
      Visit(steps[1..], place, r2)
  }

  /** The set and the issue list that the source's closure updates in place. */
  class IdValidator {
    var seen: set<string>
    var issues: seq<string>

    constructor ()
      ensures State() == Report({}, [])
    {
      seen, issues := {}, [];
    }

    function State(): Report
      reads this
    {
      Report(seen, issues)
    }

    method VisitSteps(steps: seq<Step>, place: string)
      modifies this
      ensures State() == Visit(steps, place, old(State()))
      decreases steps
    {
      var i := 0;
      while i < |steps|
        invariant 0 <= i <= |steps|
        invariant Visit(steps, place, old(State())) == Visit(steps[i..], place, State())
      {
        var step := steps[i];
        assert steps[i..][0] == step && steps[i..][1..] == steps[i + 1..];
        var key, below := place + ":" + step.id, place + "." + step.id;
        if key in seen { issues := issues + [step.id]; }
        seen := seen + {key};
        match step {
          case Parallel(_, _, nested) => VisitSteps(nested, below);
          case Repeat(_, _, _, nested) => VisitSteps(nested, below);
          case Branch(_, _, _, thens, elses) =>
            VisitSteps(thens, below + ".then");
            VisitSteps(elses, below + ".else");
          case _ =>
        }
        i := i + 1;
      }
    }
  }

  /** Whether every id in the tree is one the schema admits. */
  predicate PlainIds(steps: seq<Step>)
    decreases steps, 0
  {
    forall s | s in steps ::
      PlainId(s.id) &&
      match s
      case Parallel(_, _, nested) => PlainIds(nested)
      case Repeat(_, _, _, nested) => PlainIds(nested)
      case Branch(_, _, _, thens, elses) => PlainIds(thens) && PlainIds(elses)
      case _ => true
  }

  lemma {:induction false} VisitGrows(steps: seq<Step>, place: string, r: Report)
    ensures r.seen <= Visit(steps, place, r).seen
    ensures |r.issues| <= |Visit(steps, place, r).issues|
    decreases steps
  {
    if steps == [] {
    } else {
      var step := steps[0];
      var key, below := place + ":" + step.id, place + "." + step.id;
      var r1 := Report(r.seen + {key}, if key in r.seen then r.issues + [step.id] else r.issues);
      match step {
        case Parallel(_, _, nested) =>
          VisitGrows(nested, below, r1);
          VisitGrows(steps[1..], place, Visit(nested, below, r1));
        case Repeat(_, _, _, nested) =>
          VisitGrows(nested, below, r1);
          VisitGrows(steps[1..], place, Visit(nested, below, r1));
        case Branch(_, _, _, thens, elses) =>
          var r2 := Visit(thens, below + ".then", r1);
          VisitGrows(thens, below + ".then", r1);
          VisitGrows(elses, below + ".else", r2);
          VisitGrows(steps[1..], place, Visit(elses, below + ".else", r2));
        case _ => VisitGrows(steps[1..], place, r1);
      }
    }
  }

  /** A list the validation finds no issue in has distinct siblings throughout. */
  lemma {:induction false} VisitSound(steps: seq<Step>, place: string, r: Report)
    requires PlainIds(steps) && Visit(steps, place, r).issues == []
    ensures UniqueSiblings(steps)
    ensures forall i | 0 <= i < |steps| :: place + ":" + steps[i].id !in r.seen
    decreases steps
  {
    VisitGrows(steps, place, r);
    if steps == [] {
    } else {
      var step := steps[0];
      assert step in steps;
      var key, below := place + ":" + step.id, place + "." + step.id;
      var r1 := Report(r.seen + {key}, if key in r.seen then r.issues + [step.id] else r.issues);
      var r2 := r1;
      match step {
        case Parallel(_, _, nested) =>
          r2 := Visit(nested, below, r1);
          VisitGrows(steps[1..], place, r2);
          VisitGrows(nested, below, r1);
          VisitSound(nested, below, r1);
        case Repeat(_, _, _, nested) =>
          r2 := Visit(nested, below, r1);
          VisitGrows(steps[1..], place, r2);
          VisitGrows(nested, below, r1);
          VisitSound(nested, below, r1);
        case Branch(_, _, _, thens, elses) =>
          var rt := Visit(thens, below + ".then", r1);
          r2 := Visit(elses, below + ".else", rt);
          VisitGrows(steps[1..], place, r2);
          VisitGrows(elses, below + ".else", rt);
          VisitGrows(thens, below + ".then", r1);
          VisitSound(thens, below + ".then", r1);
          VisitSound(elses, below + ".else", rt);
        case _ => VisitGrows(steps[1..], place, r2);
      }
      VisitSound(steps[1..], place, r2);
      forall i | 0 < i < |steps| ensures steps[i].id != step.id && place + ":" + steps[i].id !in r.seen {
        assert steps[i] == steps[1..][i - 1];
        assert key in r2.seen && place + ":" + steps[1..][i - 1].id !in r2.seen;
      }
      forall i, j | 0 <= i < j < |steps| ensures steps[i].id != steps[j].id {
        if i > 0 { assert steps[i] == steps[1..][i - 1] && steps[j] == steps[1..][j - 1]; }
      }
      forall s | s in steps ensures UniqueBelow(s) {
        if s != step { assert s in steps[1..]; }
      }
      forall i | 0 <= i < |steps| ensures PlainId(steps[i].id) { assert steps[i] in steps; }
    }
  }

  /** A labelled step list: a phase or a fragment body. */
  datatype Root = Root(place: string, steps: seq<Step>)

  /** `validateUniqueStepIds` over all phases and fragments in turn. */
  function Validate(roots: seq<Root>, r: Report): Report {
    if roots == [] then r else Validate(roots[1..], Visit(roots[0].steps, roots[0].place, r))
  }

  lemma {:induction false} ValidateSound(roots: seq<Root>, r: Report)
    requires Validate(roots, r).issues == []
    requires forall root | root in roots :: PlainIds(root.steps)
    ensures r.issues == []
    ensures forall root | root in roots :: UniqueSiblings(root.steps)
  {
    if roots == [] {
    } else {
      var r1 := Visit(roots[0].steps, roots[0].place, r);
      ValidateSound(roots[1..], r1);
      VisitGrows(roots[0].steps, roots[0].place, r);
      VisitSound(roots[0].steps, roots[0].place, r);
    }
  }

  // ----- validation refuses nothing else -----

  /** No id has a colon, which separates an id from its place in the keys recorded. */
  predicate ColonFree(steps: seq<Step>)
    decreases steps, 0
  {
    forall s | s in steps :: ColonFreeStep(s)
  }

  predicate ColonFreeStep(s: Step)
    decreases s, 1
  {
    ':' !in s.id &&
    match s
    case Parallel(_, _, nested) => ColonFree(nested)
    case Repeat(_, _, _, nested) => ColonFree(nested)
    case Branch(_, _, _, thens, elses) => ColonFree(thens) && ColonFree(elses)
    case _ => true
  }

  /** `k` extends `place` by a segment. */
  predicate Within(k: string, place: string) {
    |place| < |k| && place <= k && (k[|place|] == '.' || k[|place|] == ':')
  }

  /** The key recorded for a step `id` of the list at `place`, or one below it. */
  predicate Touched(k: string, place: string, id: string) { k == place + ":" + id || Within(k, place + "." + id) }

  lemma TouchedWithin(k: string, place: string, id: string)
    requires Touched(k, place, id)
    ensures Within(k, place)
  {
    if k != place + ":" + id { assert (place + "." + id)[..|place|] == place && (place + "." + id)[|place|] == '.'; }
  }

  /** A key belongs to one sibling. */
  lemma OneOwner(k: string, place: string, a: string, b: string)
    requires PlainId(a) && PlainId(b) && ':' !in a && ':' !in b
    requires Touched(k, place, a) && Touched(k, place, b)
    ensures a == b
  {
    var n := |place| + 1;
    if k == place + ":" + a || k == place + ":" + b {
      assert k[|place|] == ':' && (place + "." + a)[|place|] == '.' && (place + "." + b)[|place|] == '.';
      assert k[n..] == a && k[n..] == b;
    } else {
      assert k[..n + |a|] == place + "." + a && k[..n + |b|] == place + "." + b;
      assert k[n..n + |a|] == a && k[n..n + |b|] == b;
    }
  }

  /** None of the steps at `place` has a key in `seen`, nor has anything below them. */
  predicate Untouched(seen: set<string>, place: string, steps: seq<Step>) {
    forall k, i | k in seen && 0 <= i < |steps| :: !Touched(k, place, steps[i].id)
  }

  /** Visiting found nothing and recorded only keys within `place`. */
  predicate Quiet(before: Report, after: Report, place: string) {
    after.issues == before.issues && forall k | k in after.seen :: k in before.seen || Within(k, place)
  }

  lemma NothingWithin(seen: set<string>, place: string, steps: seq<Step>)
    requires forall k | k in seen :: !Within(k, place)
    ensures Untouched(seen, place, steps)
  {
    forall k, i | k in seen && 0 <= i < |steps| ensures !Touched(k, place, steps[i].id) {
      if Touched(k, place, steps[i].id) { TouchedWithin(k, place, steps[i].id); }
    }
  }

  lemma KeyOutside(place: string, id: string, suffix: string)
    ensures !Within(place + ":" + id, place + "." + id + suffix)
  {
    assert (place + "." + id + suffix)[|place|] == '.' && (place + ":" + id)[|place|] == ':';
  }

  lemma WithinPrefix(k: string, below: string, suffix: string)
    requires Within(k, below + suffix) && suffix != "" && suffix[0] == '.'
    ensures Within(k, below)
  {
    assert (below + suffix)[..|below|] == below && (below + suffix)[|below|] == '.';
  }

  lemma ThenNotElse(k: string, below: string)
    requires Within(k, below + ".then")
    ensures !Within(k, below + ".else")
  {
    assert (below + ".then")[|below| + 1] == 't' && (below + ".else")[|below| + 1] == 'e';
  }

  /** A step with distinct siblings throughout adds only keys of its own. */
  lemma {:induction false} StepQuiet(step: Step, place: string, r: Report) returns (r2: Report)
    requires UniqueBelow(step) && ColonFreeStep(step) && forall k | k in r.seen :: !Touched(k, place, step.id)
    ensures forall rest: seq<Step> :: Visit([step] + rest, place, r) == Visit(rest, place, r2)
    ensures r2.issues == r.issues
    ensures forall k | k in r2.seen :: k in r.seen || Touched(k, place, step.id)
    decreases Size(step), 0
  {
    var key, below := place + ":" + step.id, place + "." + step.id;
    var r1 := Report(r.seen + {key}, r.issues);
    assert forall rest: seq<Step> :: ([step] + rest)[1..] == rest;
    KeyOutside(place, step.id, "");
    assert place + "." + step.id + "" == below;
    match step {
      case Parallel(_, _, nested) => r2 := Visit(nested, below, r1); ListQuiet(nested, below, r1);
      case Repeat(_, _, _, nested) => r2 := Visit(nested, below, r1); ListQuiet(nested, below, r1);
      case Branch(_, _, _, thens, elses) =>
        var rt := Visit(thens, below + ".then", r1);
        r2 := Visit(elses, below + ".else", rt);
        BranchQuiet(thens, elses, below, r1);
      case _ => r2 := r1;
    }
  }

  lemma {:induction false} BranchQuiet(thens: seq<Step>, elses: seq<Step>, below: string, r: Report)
    requires UniqueSiblings(thens) && UniqueSiblings(elses) && ColonFree(thens) && ColonFree(elses)
    requires forall k | k in r.seen :: !Within(k, below)
    ensures Quiet(r, Visit(elses, below + ".else", Visit(thens, below + ".then", r)), below)
    decreases SizeAll(thens) + SizeAll(elses), 3
  {
    var rt := Visit(thens, below + ".then", r);
    forall k | k in r.seen ensures !Within(k, below + ".then") {
      if Within(k, below + ".then") { WithinPrefix(k, below, ".then"); }
    }
    ListQuiet(thens, below + ".then", r);
    forall k | k in rt.seen ensures !Within(k, below + ".else") {
      if Within(k, below + ".else") { WithinPrefix(k, below, ".else"); }
      if Within(k, below + ".then") { ThenNotElse(k, below); }
    }
    ListQuiet(elses, below + ".else", rt);
    forall k | k in Visit(elses, below + ".else", rt).seen ensures k in r.seen || Within(k, below) {
      if Within(k, below + ".then") { WithinPrefix(k, below, ".then"); }
      if Within(k, below + ".else") { WithinPrefix(k, below, ".else"); }
    }
  }

  lemma {:induction false} ListQuiet(steps: seq<Step>, place: string, r: Report)
    requires UniqueSiblings(steps) && ColonFree(steps) && forall k | k in r.seen :: !Within(k, place)
    ensures Quiet(r, Visit(steps, place, r), place)
    decreases SizeAll(steps), 2
  {
    NothingWithin(r.seen, place, steps);
    SiblingsQuiet(steps, place, r);
  }

  lemma {:induction false} SiblingsQuiet(steps: seq<Step>, place: string, r: Report)
    requires UniqueSiblings(steps) && ColonFree(steps) && Untouched(r.seen, place, steps)
    ensures Quiet(r, Visit(steps, place, r), place)
    decreases SizeAll(steps), 1
  {
    if steps == [] {
    } else {
      var step := steps[0];
      assert step in steps;
      var r2 := StepQuiet(step, place, r);
      assert steps == [step] + steps[1..];
      forall k, i | k in r2.seen && 0 <= i < |steps[1..]| ensures !Touched(k, place, steps[1..][i].id) {
        assert steps[1..][i] == steps[i + 1] && PlainId(step.id) && PlainId(steps[i + 1].id);
        assert steps[i + 1] in steps && ColonFreeStep(step) && ColonFreeStep(steps[i + 1]);
        if k in r.seen {
          assert !Touched(k, place, steps[i + 1].id);
        } else if Touched(k, place, steps[i + 1].id) {
          OneOwner(k, place, step.id, steps[i + 1].id);
        }
      }
      SiblingsQuiet(steps[1..], place, r2);
      forall k | k in r2.seen ensures k in r.seen || Within(k, place) {
        if k !in r.seen { TouchedWithin(k, place, step.id); }
      }
    }
  }

  /** No root label begins another: a label ends with a quote its name cannot contain. */
  predicate SeparateLabels(roots: seq<Root>) {
    forall i, j | 0 <= i < j < |roots| :: !(roots[i].place <= roots[j].place) && !(roots[j].place <= roots[i].place)
  }

  lemma WithinOne(k: string, p: string, q: string)
    requires Within(k, p) && Within(k, q)
    ensures p <= q || q <= p
  {
    if |p| <= |q| { assert k[..|q|][..|p|] == k[..|p|]; } else { assert k[..|p|][..|q|] == k[..|q|]; }
  }

  lemma {:induction false} ValidateComplete(roots: seq<Root>, r: Report)
    requires SeparateLabels(roots) && forall root | root in roots :: UniqueSiblings(root.steps) && ColonFree(root.steps)
    requires forall k, root | k in r.seen && root in roots :: !Within(k, root.place)
    ensures Validate(roots, r).issues == r.issues
    decreases |roots|
  {
    if roots == [] {
    } else {
      assert roots[0] in roots;
      ListQuiet(roots[0].steps, roots[0].place, r);
      var r1 := Visit(roots[0].steps, roots[0].place, r);
      forall k, root | k in r1.seen && root in roots[1..] ensures !Within(k, root.place) {
        var j :| 0 <= j < |roots[1..]| && roots[1..][j] == root;
        assert roots[j + 1] == root && root in roots;
        if k !in r.seen && Within(k, root.place) { WithinOne(k, roots[0].place, root.place); }
      }
      ValidateComplete(roots[1..], r1);
    }
  }

  /** `validateUniqueStepIds` reports nothing exactly when sibling ids are distinct in
      every list of every phase and fragment. */
  lemma ValidateIff(roots: seq<Root>)
    requires SeparateLabels(roots) && forall root | root in roots :: PlainIds(root.steps) && ColonFree(root.steps)
    ensures Validate(roots, Report({}, [])).issues == [] <==> forall root | root in roots :: UniqueSiblings(root.steps)
  {
    if Validate(roots, Report({}, [])).issues == [] { ValidateSound(roots, Report({}, [])); }
    if forall root | root in roots :: UniqueSiblings(root.steps) { ValidateComplete(roots, Report({}, [])); }
  }

  /** The assert phase stays distinct with the task `system-assertions` appended,
      because no authored top-level step may have that id. */
  lemma AssertPhaseIdsDistinct(phase: seq<Step>, scope: Scope, input: Value)
    requires UniqueSiblings(phase) && UniqueFragments(scope.frags)
    requires forall s | s in phase :: s.id != SYSTEM_ASSERTIONS
    requires Expand(phase, scope, [], "").Ok?
    ensures Distinct(Ids(Expand(phase, scope, [], "").value + [SystemTask(input)]))
  {
    var tree := Expand(phase, scope, [], "").value;
    ExpandedIdsDistinct(phase, scope, [], "");
    if SYSTEM_ASSERTIONS in Ids(tree) { NotCovered(phase); }
    AppendedIdDistinct(tree, SystemTask(input));
  }

  const SYSTEM_ASSERTIONS := "system-assertions"

  function SystemTask(input: Value): Step {
    Task(SYSTEM_ASSERTIONS, Call("assertions-evaluate", Some(input)), None, None, None)
  }

  lemma NotCovered(phase: seq<Step>)
    requires UniqueSiblings(phase) && forall s | s in phase :: s.id != SYSTEM_ASSERTIONS
    ensures !Covered(SYSTEM_ASSERTIONS, phase, "")
  {
    forall i | 0 <= i < |phase| ensures !Under(SYSTEM_ASSERTIONS, Join("", phase[i].id)) {
      assert phase[i] in phase && PlainId(phase[i].id);
      if Under(SYSTEM_ASSERTIONS, Join("", phase[i].id)) {
        UnderOne(SYSTEM_ASSERTIONS, "", phase[i].id, SYSTEM_ASSERTIONS);
      }
    }
  }

  lemma AppendedIdDistinct(tree: seq<Step>, task: Step)
    requires Distinct(Ids(tree)) && task.Task? && task.id !in Ids(tree)
    ensures Distinct(Ids(tree + [task]))
  {
    IdsConcat(tree, [task]);
    assert [task][1..] == [] && IdsOf(task) == [task.id];
    assert Ids([task]) == [task.id];
    DistinctConcat(Ids(tree), [task.id]);
  }
}
