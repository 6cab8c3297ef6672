/** Which side of a condition runs, in every schedule, and that it can. */
module Branches {
  import opened Json
  import opened Steps
  import opened Template
  import opened Resolver
  import opened Interpreter
  import opened Moves
  import opened StepIds
  import opened Conditions
  import opened Words
  import opened Steering

  // ----- the steps a word speaks of -----

  predicate Speaks(w: seq<Sign>, ids: seq<string>) { forall s | s in w :: s.step.id in ids }

  lemma SpeaksFirst(w: seq<Sign>, ids: seq<string>)
    requires w != [] && w[0].step.id in ids && Speaks(w[1..], ids)
    ensures Speaks(w, ids)
  {
    forall s | s in w ensures s.step.id in ids { if s != w[0] { assert s in w[1..]; } }
  }

  lemma SpeaksSplit(w: seq<Sign>, k: nat, a: seq<string>, b: seq<string>)
    requires k <= |w| && Speaks(w[..k], a) && Speaks(w[k..], b)
    ensures Speaks(w, a + b)
  {
    assert w == w[..k] + w[k..];
  }

  /** Each sign of a task or poll step is its own, and takes it from one stage to another. */
  lemma Follow(j: Job, leaf: Leaf, w: seq<Sign>, whole: bool) returns (next: Leaf)
    requires (j.step.Task? || j.step.Poll?) && LeafWord(j, leaf, w, whole) && w != []
    ensures w[0].step == j.step && !w[0].Starts? && LeafWord(j, next, w[1..], whole)
    ensures leaf.Reporting? <==> w[0].Delivers?
    ensures next == Ended(Fulfilled) ==> leaf.Reporting?
    ensures j.step.Task? && leaf.Reporting? ==> next == Ended(Fulfilled)
  {
    next := Ended(Rejected(Timeout));
    match leaf
    case Ready(attempt) => next := FollowTry(j, attempt, w, whole);
    case Announced(attempt, number) =>
      next := match w[0].signal case None => Called(attempt, number)
                                case Some(r) => Raced(attempt, number, Lost(Stopped(r)));
    case Called(attempt, number) => next := Raced(attempt, number, RaceOf(j.step, w[0].answer, w[0].signal).value);
    case Raced(attempt, number, race) =>
      if race.Won? { next := Reporting(number, race.output); }
      else { next := Failing(attempt, race.fault, w[0].cancelled); }
    case Reporting(_, output) => next := FollowPoll(j, output, w, whole);
    case Failing(attempt, fault, cancelled) => next := FollowBroken(j, attempt, fault, cancelled, w, whole);
    case Backoff(attempt) => if w[0].Wakes? { next := Ready(attempt + 1); }
    case Waiting(wake) => if w[0].Wakes? { next := Ready(1); }
    case Ended(_) =>
  }

  lemma FollowTry(j: Job, attempt: nat, w: seq<Sign>, whole: bool) returns (next: Leaf)
    requires (j.step.Task? || j.step.Poll?) && TryWord(j, attempt, w, whole) && w != []
    ensures w[0].step == j.step && !w[0].Starts? && !w[0].Delivers? && LeafWord(j, next, w[1..], whole)
    ensures next != Ended(Fulfilled)
  {
    next := if w[0].Begins? then Announced(attempt, w[0].number) else Ended(Rejected(Timeout));
  }

  lemma FollowPoll(j: Job, output: Option<Value>, w: seq<Sign>, whole: bool) returns (next: Leaf)
    requires (j.step.Task? || j.step.Poll?) && PassedWord(j, output, w, whole) && w != []
    ensures w[0].step == j.step && w[0].Delivers? && LeafWord(j, next, w[1..], whole)
    ensures j.step.Task? ==> next == Ended(Fulfilled)
  {
    next := Ended(Fulfilled);
    if j.step.Poll? {
      var verdict := Evaluate(j.step.until, j.vars, w[0].outputs, w[0].output);
      if verdict.NotAString? || (verdict.Fails? && w[0].signal.Some?) {
        next := Failing(1, w[1].fault, true);
      } else if verdict.Fails? {
        next := if j.step.intervalMs == 0 then Ready(1) else Waiting(w[0].now + j.step.intervalMs);
      }
    }
  }

  lemma FollowBroken(j: Job, attempt: nat, fault: Fault, cancelled: bool, w: seq<Sign>, whole: bool)
      returns (next: Leaf)
    requires (j.step.Task? || j.step.Poll?) && BrokenWord(j, attempt, fault, cancelled, w, whole) && w != []
    ensures w[0].step == j.step && !w[0].Starts? && !w[0].Delivers? && LeafWord(j, next, w[1..], whole)
    ensures next != Ended(Fulfilled)
  {
    next := Ended(Rejected(Timeout));
    if w[0].Begins? {
      next := FollowTry(j, attempt + 1, w, whole);
    } else if w[0].Wakes? {
      next := Ready(attempt + 1);
    }
  }

  lemma {:induction false} LeafSpeaks(j: Job, leaf: Leaf, w: seq<Sign>, whole: bool)
    requires (j.step.Task? || j.step.Poll?) && LeafWord(j, leaf, w, whole)
    ensures Speaks(w, [j.step.id]) && forall s | s in w :: !s.Starts?
    decreases |w|
  {
    if w == [] {
    } else {
      var next := Follow(j, leaf, w, whole);
      LeafSpeaks(j, next, w[1..], whole);
      SpeaksFirst(w, [j.step.id]);
      assert w == [w[0]] + w[1..];
    }
  }

  /** Every sign of a merged word is one of the words merged. */
  lemma {:induction false} ShuffleSpeaks(ws: seq<seq<Sign>>, w: seq<Sign>, ids: seq<string>)
    requires Shuffle(ws, w) && forall i | 0 <= i < |ws| :: Speaks(ws[i], ids)
    ensures Speaks(w, ids)
    decreases |w|
  {
    if w == [] {
    } else {
      var i :| 0 <= i < |ws| && ws[i] != [] && ws[i][0] == w[0] && Shuffle(ws[i := ws[i][1..]], w[1..]);
      assert Speaks(ws[i], ids) && ws[i][0] in ws[i];
      var rest := ws[i := ws[i][1..]];
      forall j | 0 <= j < |rest| ensures Speaks(rest[j], ids) { assert Speaks(ws[j], ids); }
      ShuffleSpeaks(rest, w[1..], ids);
      SpeaksFirst(w, ids);
    }
  }

  lemma {:induction false} MemberIds(steps: seq<Step>, i: nat)
    requires i < |steps|
    ensures forall id | id in IdsOf(steps[i]) :: id in Ids(steps)
  {
    if i == 0 {
    } else {
      MemberIds(steps[1..], i - 1);
    }
  }

  lemma SpeaksMore(w: seq<Sign>, a: seq<string>, b: seq<string>)
    requires Speaks(w, a) && forall id | id in a :: id in b
    ensures Speaks(w, b)
  {
  }

  /** What a step says is about the steps in it. */
  lemma {:induction false} StepSpeaks(step: Step, w: seq<Sign>, whole: bool, env: Env)
    requires StepWord(step, w, whole, env)
    ensures Speaks(w, IdsOf(step))
    decreases step, 1
  {
    if w != [] {
      CoreSpeaks(step, w[0].outputs, w[0].now, w[1..], whole, env);
      SpeaksFirst(w, IdsOf(step));
    }
  }

  lemma {:induction false} CoreSpeaks(step: Step, outputs: Record, now: nat, w: seq<Sign>, whole: bool, env: Env)
    requires CoreWord(step, outputs, now, w, whole, env)
    ensures Speaks(w, IdsOf(step))
    decreases step, 0
  {
    match step
    case Task(_, _, _, _, _) => LeafSpeaks(Job(step, 0, env.scope.vars), Ready(1), w, whole);
    case Poll(_, _, _, _, _, timeout) =>
      var deadline := now + (if timeout.Some? then timeout.value else env.timeoutMs);
      LeafSpeaks(Job(step, deadline, env.scope.vars), Ready(1), w, whole);
    case Parallel(_, _, steps) => ParallelSpeaks(step, w, whole, env);
    case Repeat(_, _, times, steps) =>
      RoundsSpeak(steps, times, w, whole, env);
      SpeaksMore(w, Ids(steps), IdsOf(step));
    case Branch(_, _, when, thens, elses) =>
      if Evaluate(when, env.scope.vars, outputs, None) == Holds {
        ListSpeaks(thens, w, whole, env);
        SpeaksMore(w, Ids(thens), IdsOf(step));
      } else if w != [] {
        ListSpeaks(elses, w, whole, env);
        SpeaksMore(w, Ids(elses), IdsOf(step));
      }
    case Fragment(_, _) =>
  }

  lemma {:induction false} ParallelSpeaks(step: Step, w: seq<Sign>, whole: bool, env: Env)
    requires step.Parallel? && CoreWord(step, [], 0, w, whole, env)
    ensures Speaks(w, IdsOf(step))
    decreases step, 0, 0
  {
    var steps := step.steps;
    var ws: seq<seq<Sign>> :| |ws| == |steps| && Shuffle(ws, w)
                              && forall i | 0 <= i < |steps| :: StepWord(steps[i], ws[i], whole, env);
    forall i | 0 <= i < |ws| ensures Speaks(ws[i], IdsOf(step)) {
      StepSpeaks(steps[i], ws[i], whole, env);
      MemberIds(steps, i);
      SpeaksMore(ws[i], IdsOf(steps[i]), IdsOf(step));
    }
    ShuffleSpeaks(ws, w, IdsOf(step));
  }

  lemma {:induction false} ListSpeaks(steps: seq<Step>, w: seq<Sign>, whole: bool, env: Env)
    requires ListWord(steps, w, whole, env)
    ensures Speaks(w, Ids(steps))
    decreases steps, 0
  {
    if steps == [] {
    } else if !whole && StepWord(steps[0], w, false, env) {
      StepSpeaks(steps[0], w, false, env);
    } else {
      var k :| 0 <= k <= |w| && StepWord(steps[0], w[..k], true, env) && ListWord(steps[1..], w[k..], whole, env);
      StepSpeaks(steps[0], w[..k], true, env);
      ListSpeaks(steps[1..], w[k..], whole, env);
      SpeaksSplit(w, k, IdsOf(steps[0]), Ids(steps[1..]));
    }
  }

  lemma {:induction false} RoundsSpeak(steps: seq<Step>, times: nat, w: seq<Sign>, whole: bool, env: Env)
    requires RoundsWord(steps, times, w, whole, env)
    ensures Speaks(w, Ids(steps))
    decreases steps, 1, times
  {
    if times == 0 {
    } else if !whole && ListWord(steps, w, false, env) {
      ListSpeaks(steps, w, false, env);
    } else {
      var k :| 0 <= k <= |w| && ListWord(steps, w[..k], true, env) && RoundsWord(steps, times - 1, w[k..], whole, env);
      ListSpeaks(steps, w[..k], true, env);
      RoundsSpeak(steps, times - 1, w[k..], whole, env);
      SpeaksSplit(w, k, Ids(steps), Ids(steps));
      SpeaksMore(w, Ids(steps) + Ids(steps), Ids(steps));
    }
  }

  // ----- the side a condition takes -----

  /** The condition `b` is one of the steps, or stands somewhere in one of them. */
  predicate Among(b: Step, steps: seq<Step>)
    decreases steps, 0
  {
    steps != [] && (Inside(b, steps[0]) || Among(b, steps[1..]))
  }

  predicate Inside(b: Step, step: Step)
    decreases step, 1
  {
    b == step ||
    match step
    case Parallel(_, _, steps) => Among(b, steps)
    case Repeat(_, _, _, steps) => Among(b, steps)
    case Branch(_, _, _, thens, elses) => Among(b, thens) || Among(b, elses)
    case _ => false
  }

  /** Every sign of a step on one side of `b` comes after `b` has started, and the condition
      was met, or was not, as that side asks, by the outputs when it last did: `from`, if it
      did before the word. */
  predicate Chosen(w: seq<Sign>, b: Step, vars: Record, from: Option<Record>)
    requires b.Branch?
    decreases |w|
  {
    w == [] || (Fits(w[0], b, vars, from) && Chosen(w[1..], b, vars, Since(w[0], b, from)))
  }

  predicate Fits(s: Sign, b: Step, vars: Record, from: Option<Record>)
    requires b.Branch?
  {
    && (s.step.id in Ids(b.thens) ==> from.Some? && Evaluate(b.when, vars, from.value, None) == Holds)
    && (s.step.id in Ids(b.elses) ==> from.Some? && Evaluate(b.when, vars, from.value, None) == Verdict.Fails)
  }

  function Since(s: Sign, b: Step, from: Option<Record>): Option<Record> {
    if s.Starts? && s.step == b then Some(s.outputs) else from
  }

  lemma {:induction false} ChosenFrom(w: seq<Sign>, b: Step, vars: Record, from: Option<Record>)
    requires b.Branch? && Chosen(w, b, vars, None)
    ensures Chosen(w, b, vars, from)
    decreases |w|
  {
    if w != [] && Since(w[0], b, None) == None { ChosenFrom(w[1..], b, vars, from); }
  }

  lemma {:induction false} ChosenThen(a: seq<Sign>, c: seq<Sign>, b: Step, vars: Record, from: Option<Record>)
    requires b.Branch? && Chosen(a, b, vars, from) && Chosen(c, b, vars, None)
    ensures Chosen(a + c, b, vars, from)
    decreases |a|
  {
    if a == [] {
      assert a + c == c;
      ChosenFrom(c, b, vars, from);
    } else {
      assert (a + c)[1..] == a[1..] + c;
      ChosenThen(a[1..], c, b, vars, Since(a[0], b, from));
    }
  }

  predicate Apart(a: seq<string>, b: seq<string>) { forall id | id in a :: id !in b }

  /** Other steps do not concern it. */
  lemma {:induction false} OthersChosen(w: seq<Sign>, ids: seq<string>, b: Step, vars: Record, from: Option<Record>)
    requires b.Branch? && Speaks(w, ids) && Apart(ids, IdsOf(b))
    ensures Chosen(w, b, vars, from)
    decreases |w|
  {
    if w != [] {
      assert w[0] in w && w[0].step.id in ids;
      OthersChosen(w[1..], ids, b, vars, Since(w[0], b, from));
    }
  }

  lemma DistinctParts(a: seq<string>, b: seq<string>)
    requires Distinct(a + b)
    ensures Distinct(a) && Distinct(b) && Apart(a, b) && Apart(b, a)
  {
    var c := a + b;
    assert forall i | 0 <= i < |a| :: c[i] == a[i];
    assert forall i | 0 <= i < |b| :: b[i] == c[|a| + i];
    assert forall i, j | 0 <= i < |a| && 0 <= j < |b| :: a[i] != b[j];
  }

  lemma BranchIds(b: Step)
    requires b.Branch? && Distinct(IdsOf(b))
    ensures b.id !in Ids(b.thens) && b.id !in Ids(b.elses) && Apart(Ids(b.thens), Ids(b.elses))
  {
    assert IdsOf(b) == [b.id] + (Ids(b.thens) + Ids(b.elses));
    DistinctParts([b.id], Ids(b.thens) + Ids(b.elses));
    DistinctParts(Ids(b.thens), Ids(b.elses));
    assert b.id in [b.id];
  }

  /** The side taken, once the condition has started. */
  lemma {:induction false} SideChosen(w: seq<Sign>, side: seq<Step>, b: Step, vars: Record, outputs: Record)
    requires b.Branch? && Distinct(IdsOf(b)) && Speaks(w, Ids(side))
    requires var verdict := Evaluate(b.when, vars, outputs, None);
             (verdict.Holds? && side == b.thens) || (verdict.Fails? && side == b.elses)
    ensures Chosen(w, b, vars, Some(outputs))
    decreases |w|
  {
    if w != [] {
      BranchIds(b);
      assert w[0] in w && w[0].step.id in Ids(side);
      SideChosen(w[1..], side, b, vars, outputs);
    }
  }

  /** The words of the other members of a parallel step leave that of the one with the
      condition as it is. */
  lemma {:induction false} ShuffleChosen(
      ws: seq<seq<Sign>>, w: seq<Sign>, i: nat, b: Step, vars: Record, from: Option<Record>, ids: seq<string>)
    requires b.Branch? && Shuffle(ws, w) && i < |ws| && Chosen(ws[i], b, vars, from) && Apart(ids, IdsOf(b))
    requires forall j | 0 <= j < |ws| && j != i :: Speaks(ws[j], ids)
    ensures Chosen(w, b, vars, from)
    decreases |w|
  {
    if w != [] {
      var k :| 0 <= k < |ws| && ws[k] != [] && ws[k][0] == w[0] && Shuffle(ws[k := ws[k][1..]], w[1..]);
      var rest := ws[k := ws[k][1..]];
      if k != i { assert Speaks(ws[k], ids) && w[0] in ws[k] && w[0].step.id != b.id; }
      forall j | 0 <= j < |rest| && j != i ensures Speaks(rest[j], ids) { assert Speaks(ws[j], ids); }
      ShuffleChosen(rest, w[1..], i, b, vars, Since(w[0], b, from), ids);
    }
  }

  lemma {:induction false} AmongIds(b: Step, steps: seq<Step>)
    requires Among(b, steps)
    ensures forall id | id in IdsOf(b) :: id in Ids(steps)
    decreases steps, 0
  {
    if Inside(b, steps[0]) { InsideIds(b, steps[0]); } else { AmongIds(b, steps[1..]); }
  }

  lemma {:induction false} InsideIds(b: Step, step: Step)
    requires Inside(b, step)
    ensures forall id | id in IdsOf(b) :: id in IdsOf(step)
    decreases step, 1
  {
    if b != step {
      match step
      case Parallel(_, _, steps) => AmongIds(b, steps);
      case Repeat(_, _, _, steps) => AmongIds(b, steps);
      case Branch(_, _, _, thens, elses) => if Among(b, thens) { AmongIds(b, thens); } else { AmongIds(b, elses); }
    }
  }

  // ----- in every word -----

  lemma {:induction false} StepChosen(step: Step, w: seq<Sign>, whole: bool, env: Env, b: Step)
    requires StepWord(step, w, whole, env) && b.Branch? && Inside(b, step) && Distinct(IdsOf(step))
    ensures Chosen(w, b, env.scope.vars, None)
    decreases step, 1
  {
    if w != [] {
      var inner := w[1..];
      if b == step {
        BranchIds(b);
        BranchChosen(b, w[0].outputs, w[0].now, inner, whole, env);
      } else {
        CoreChosen(step, w[0].outputs, w[0].now, inner, whole, env, b);
        NestedIds(b, step);
        assert w[0].step.id !in IdsOf(b) && Since(w[0], b, None) == None;
      }
    }
  }

  lemma NestedIds(b: Step, step: Step)
    requires b.Branch? && Inside(b, step) && b != step && Distinct(IdsOf(step))
    ensures step.id !in IdsOf(b)
  {
    DistinctParts([step.id], IdsOf(step)[1..]);
    assert IdsOf(step) == [step.id] + IdsOf(step)[1..];
    match step
    case Parallel(_, _, steps) => AmongIds(b, steps);
    case Repeat(_, _, _, steps) => AmongIds(b, steps);
    case Branch(_, _, _, thens, elses) => if Among(b, thens) { AmongIds(b, thens); } else { AmongIds(b, elses); }
  }

  lemma BranchChosen(b: Step, outputs: Record, now: nat, w: seq<Sign>, whole: bool, env: Env)
    requires b.Branch? && CoreWord(b, outputs, now, w, whole, env) && Distinct(IdsOf(b))
    ensures Chosen(w, b, env.scope.vars, Some(outputs))
  {
    var verdict := Evaluate(b.when, env.scope.vars, outputs, None);
    if verdict.Holds? {
      ListSpeaks(b.thens, w, whole, env);
      SideChosen(w, b.thens, b, env.scope.vars, outputs);
    } else if verdict.Fails? {
      ListSpeaks(b.elses, w, whole, env);
      SideChosen(w, b.elses, b, env.scope.vars, outputs);
    }
  }

  lemma {:induction false} CoreChosen(
      step: Step, outputs: Record, now: nat, w: seq<Sign>, whole: bool, env: Env, b: Step)
    requires CoreWord(step, outputs, now, w, whole, env) && b.Branch? && Distinct(IdsOf(step))
    requires Inside(b, step) && b != step
    ensures Chosen(w, b, env.scope.vars, None)
    decreases step, 0
  {
    DistinctParts([step.id], IdsOf(step)[1..]);
    assert IdsOf(step) == [step.id] + IdsOf(step)[1..];
    match step
    case Parallel(_, _, steps) =>
      assert IdsOf(step)[1..] == Ids(steps);
      ParallelChosen(steps, w, whole, env, b);
    case Repeat(_, _, times, steps) =>
      assert IdsOf(step)[1..] == Ids(steps);
      RoundsChosen(steps, times, w, whole, env, b);
    case Branch(_, _, when, thens, elses) =>
      assert IdsOf(step)[1..] == Ids(thens) + Ids(elses);
      DistinctParts(Ids(thens), Ids(elses));
      if Evaluate(when, env.scope.vars, outputs, None) == Holds {
        PartChosen(thens, elses, w, whole, env, b);
      } else if w != [] {
        PartChosen(elses, thens, w, whole, env, b);
      }
  }

  /** The condition may stand on the other side of another one. */
  lemma {:induction false} PartChosen(
      side: seq<Step>, other: seq<Step>, w: seq<Sign>, whole: bool, env: Env, b: Step)
    requires ListWord(side, w, whole, env) && b.Branch? && Distinct(Ids(side)) && Apart(Ids(side), Ids(other))
    requires Among(b, side) || Among(b, other)
    ensures Chosen(w, b, env.scope.vars, None)
    decreases side, 1
  {
    if Among(b, side) {
      ListChosen(side, w, whole, env, b);
    } else {
      AmongIds(b, other);
      ListSpeaks(side, w, whole, env);
      OthersChosen(w, Ids(side), b, env.scope.vars, None);
    }
  }

  lemma {:induction false} ListChosen(steps: seq<Step>, w: seq<Sign>, whole: bool, env: Env, b: Step)
    requires ListWord(steps, w, whole, env) && b.Branch? && Among(b, steps) && Distinct(Ids(steps))
    ensures Chosen(w, b, env.scope.vars, None)
    decreases steps, 0
  {
    DistinctParts(IdsOf(steps[0]), Ids(steps[1..]));
    if !whole && StepWord(steps[0], w, false, env) {
      HeadChosen(steps, w, false, env, b);
    } else {
      var k :| 0 <= k <= |w| && StepWord(steps[0], w[..k], true, env) && ListWord(steps[1..], w[k..], whole, env);
      HeadChosen(steps, w[..k], true, env, b);
      if Among(b, steps[1..]) {
        ListChosen(steps[1..], w[k..], whole, env, b);
      } else {
        InsideIds(b, steps[0]);
        ListSpeaks(steps[1..], w[k..], whole, env);
        OthersChosen(w[k..], Ids(steps[1..]), b, env.scope.vars, None);
      }
      ChosenThen(w[..k], w[k..], b, env.scope.vars, None);
      assert w == w[..k] + w[k..];
    }
  }

  lemma {:induction false} HeadChosen(steps: seq<Step>, w: seq<Sign>, whole: bool, env: Env, b: Step)
    requires steps != [] && StepWord(steps[0], w, whole, env) && b.Branch? && Among(b, steps) && Distinct(Ids(steps))
    ensures Chosen(w, b, env.scope.vars, None)
    decreases steps[0], 2
  {
    DistinctParts(IdsOf(steps[0]), Ids(steps[1..]));
    if Inside(b, steps[0]) {
      StepChosen(steps[0], w, whole, env, b);
    } else {
      AmongIds(b, steps[1..]);
      StepSpeaks(steps[0], w, whole, env);
      OthersChosen(w, IdsOf(steps[0]), b, env.scope.vars, None);
    }
  }

  lemma {:induction false} RoundsChosen(
      steps: seq<Step>, times: nat, w: seq<Sign>, whole: bool, env: Env, b: Step)
    requires RoundsWord(steps, times, w, whole, env) && b.Branch? && Among(b, steps) && Distinct(Ids(steps))
    ensures Chosen(w, b, env.scope.vars, None)
    decreases steps, 1, times
  {
    if times == 0 {
    } else if !whole && ListWord(steps, w, false, env) {
      ListChosen(steps, w, false, env, b);
    } else {
      var k :| 0 <= k <= |w| && ListWord(steps, w[..k], true, env) && RoundsWord(steps, times - 1, w[k..], whole, env);
      ListChosen(steps, w[..k], true, env, b);
      RoundsChosen(steps, times - 1, w[k..], whole, env, b);
      ChosenThen(w[..k], w[k..], b, env.scope.vars, None);
      assert w == w[..k] + w[k..];
    }
  }

  /** The place of the member with the condition, and the ids of the others. */
  lemma {:induction false} Place(steps: seq<Step>, b: Step) returns (i: nat)
    requires Among(b, steps) && Distinct(Ids(steps))
    ensures i < |steps| && Inside(b, steps[i]) && Distinct(IdsOf(steps[i]))
    ensures forall j | 0 <= j < |steps| && j != i :: Apart(IdsOf(steps[j]), IdsOf(b))
  {
    DistinctParts(IdsOf(steps[0]), Ids(steps[1..]));
    if Inside(b, steps[0]) {
      i := 0;
      InsideIds(b, steps[0]);
      forall j | 0 < j < |steps| ensures Apart(IdsOf(steps[j]), IdsOf(b)) { MemberIds(steps[1..], j - 1); }
    } else {
      i := Place(steps[1..], b);
      i := i + 1;
      AmongIds(b, steps[1..]);
      forall j | 0 < j < |steps| && j != i ensures Apart(IdsOf(steps[j]), IdsOf(b)) {
        assert Apart(IdsOf(steps[1..][j - 1]), IdsOf(b));
      }
    }
  }

  lemma {:induction false} ParallelChosen(steps: seq<Step>, w: seq<Sign>, whole: bool, env: Env, b: Step)
    requires b.Branch? && Among(b, steps) && Distinct(Ids(steps))
    requires exists ws: seq<seq<Sign>> ::
               |ws| == |steps| && Shuffle(ws, w) && forall i | 0 <= i < |steps| :: StepWord(steps[i], ws[i], whole, env)
    ensures Chosen(w, b, env.scope.vars, None)
    decreases steps, 1
  {
    var ws: seq<seq<Sign>> :| |ws| == |steps| && Shuffle(ws, w)
                              && forall i | 0 <= i < |steps| :: StepWord(steps[i], ws[i], whole, env);
    var i := Place(steps, b);
    StepChosen(steps[i], ws[i], whole, env, b);
    var others := OtherIds(steps, i, b);
    forall j | 0 <= j < |ws| && j != i ensures Speaks(ws[j], others) {
      StepSpeaks(steps[j], ws[j], whole, env);
      SpeaksMore(ws[j], IdsOf(steps[j]), others);
    }
    ShuffleChosen(ws, w, i, b, env.scope.vars, None, others);
  }

  lemma {:induction false} OtherIds(steps: seq<Step>, i: nat, b: Step) returns (others: seq<string>)
    requires forall j | 0 <= j < |steps| && j != i :: Apart(IdsOf(steps[j]), IdsOf(b))
    ensures Apart(others, IdsOf(b))
    ensures forall j | 0 <= j < |steps| && j != i :: forall id | id in IdsOf(steps[j]) :: id in others
  {
    others := [];
    var k := 0;
    while k < |steps|
      invariant 0 <= k <= |steps| && Apart(others, IdsOf(b))
      invariant forall j | 0 <= j < k && j != i :: forall id | id in IdsOf(steps[j]) :: id in others
    {
      if k != i { others := others + IdsOf(steps[k]); }
      k := k + 1;
    }
  }

  // ----- what the counters show -----

  /** The attempts of a step that begin. */
  function Begun(w: seq<Sign>, id: string): nat {
    if w == [] then 0 else (if w[0].Begins? && w[0].step.id == id then 1 else 0) + Begun(w[1..], id)
  }

  lemma {:induction false} BegunConcat(a: seq<Sign>, b: seq<Sign>, id: string)
    ensures Begun(a + b, id) == Begun(a, id) + Begun(b, id)
    decreases |a|
  {
    if a == [] {
      assert a + b == b;
    } else {
      assert (a + b)[1..] == a[1..] + b;
      BegunConcat(a[1..], b, id);
    }
  }

  lemma ReadyCounts(
      step: Step, deadline: nat, leaf: Leaf, signal: Option<Fault>, ev: Event, st: Store, env: Env, id: string)
    requires (step.Task? || step.Poll?) && leaf.Ready?
    ensures var (after, st') := LeafNext(step, deadline, leaf, signal, ev, st, env);
            CounterOf(st', id) ==
            CounterOf(st, id) + Begun(LeafSigns(step, leaf, after, ev, signal, st.now, st'.outputs), id)
  {
    assert forall s: Sign :: Begun([s], id) == if s.Begins? && s.step.id == id then 1 else 0;
  }

  lemma LaterKeepsCounters(
      step: Step, deadline: nat, leaf: Leaf, signal: Option<Fault>, ev: Event, st: Store, env: Env)
    requires (step.Task? || step.Poll?) && !leaf.Ready?
    ensures LeafNext(step, deadline, leaf, signal, ev, st, env).1.counters == st.counters
  {
    if leaf.Reporting? { assert PutOutput(st, step.id, leaf.output).counters == st.counters; }
  }

  lemma LaterSigns(
      step: Step, leaf: Leaf, after: Leaf, ev: Event, signal: Option<Fault>, now: nat, outputs: Record, id: string)
    requires !leaf.Ready?
    ensures Begun(LeafSigns(step, leaf, after, ev, signal, now, outputs), id) == 0
  {
    NoBegins(LeafSigns(step, leaf, after, ev, signal, now, outputs), id);
  }

  lemma {:induction false} NoBegins(w: seq<Sign>, id: string)
    requires forall s | s in w :: !s.Begins?
    ensures Begun(w, id) == 0
  {
    if w != [] {
      assert w[0] in w;
      NoBegins(w[1..], id);
    }
  }

  lemma LeafCounts(
      step: Step, deadline: nat, leaf: Leaf, signal: Option<Fault>, ev: Event, st: Store, env: Env, id: string)
    requires step.Task? || step.Poll?
    ensures var (after, st') := LeafNext(step, deadline, leaf, signal, ev, st, env);
            CounterOf(st', id) ==
            CounterOf(st, id) + Begun(LeafSigns(step, leaf, after, ev, signal, st.now, st'.outputs), id)
  {
    if leaf.Ready? {
      ReadyCounts(step, deadline, leaf, signal, ev, st, env, id);
    } else {
      var (after, st') := LeafNext(step, deadline, leaf, signal, ev, st, env);
      LaterKeepsCounters(step, deadline, leaf, signal, ev, st, env);
      LaterSigns(step, leaf, after, ev, signal, st.now, st'.outputs, id);
    }
  }

  lemma {:induction false} NextCounts(
      p: Proc, signal: Option<Fault>, addr: seq<nat>, ev: Event, st: Store, env: Env, id: string)
    ensures CounterOf(Next(p, signal, addr, ev, st, env).1, id) ==
            CounterOf(st, id) + Begun(Signs(p, signal, addr, ev, st, env), id)
    decreases p
  {
    match p
    case Action(step, deadline, leaf) =>
      if step.Task? || step.Poll? { LeafCounts(step, deadline, leaf, signal, ev, st, env, id); }
    case Sequence(head, _) => if !Completed(head, env.scope) { NextCounts(head, signal, addr, ev, st, env, id); }
    case Loop(body, _, _) => if !Completed(body, env.scope) { NextCounts(body, signal, addr, ev, st, env, id); }
    case Group(members, own, _) =>
      if addr != [] && addr[0] < |members| {
        NextCounts(members[addr[0]], Below(own, signal), addr[1..], ev, st, env, id);
      }
    case Timed(body, own, _) => if addr != [] { NextCounts(body, Below(own, signal), addr[1..], ev, st, env, id); }
    case _ =>
  }

  /** A counter grows by the attempts that begin. */
  lemma {:induction false} TraceCounts(s: State, moves: seq<Move>, env: Env, id: string)
    ensures CounterOf(Play(s, moves, env).store, id) == CounterOf(s.store, id) + Begun(Trace(s, moves, env), id)
    decreases |moves|
  {
    if moves != [] {
      match moves[0] {
        case At(addr, ev) => NextCounts(s.proc, s.abort, addr, ev, s.store, env, id);
        case _ =>
      }
      TraceCounts(Advance(s, moves[0], env), moves[1..], env, id);
      BegunConcat(SignsOfMove(s, moves[0], env), Trace(Advance(s, moves[0], env), moves[1..], env), id);
    }
  }

  /** A step starts with the outputs there are. */
  lemma {:induction false} StartSees(p: Proc, signal: Option<Fault>, addr: seq<nat>, ev: Event, st: Store, env: Env)
    ensures var e := Signs(p, signal, addr, ev, st, env);
            e != [] && e[0].Starts? ==> e == [Starts(e[0].step, st.outputs, st.now)]
    decreases p
  {
    match p
    case Sequence(head, _) => StartSees(head, signal, addr, ev, st, env);
    case Loop(body, _, _) => StartSees(body, signal, addr, ev, st, env);
    case Group(members, own, _) =>
      if addr != [] && addr[0] < |members| {
        StartSees(members[addr[0]], Below(own, signal), addr[1..], ev, st, env);
      }
    case Timed(body, own, _) => if addr != [] { StartSees(body, Below(own, signal), addr[1..], ev, st, env); }
    case _ =>
  }

  // ----- in every run -----

  predicate StartsWith(w: seq<Sign>, b: Step) { w != [] && w[0].Starts? && w[0].step == b }

  predicate Restarts(w: seq<Sign>, b: Step) { exists s :: s in w && s.Starts? && s.step == b }

  lemma {:induction false} ChosenTail(a: seq<Sign>, c: seq<Sign>, b: Step, vars: Record, from: Option<Record>)
      returns (since: Option<Record>)
    requires b.Branch? && Chosen(a + c, b, vars, from)
    ensures Chosen(c, b, vars, since)
    decreases |a|
  {
    if a == [] {
      assert a + c == c;
      since := from;
    } else {
      assert (a + c)[1..] == a[1..] + c;
      since := ChosenTail(a[1..], c, b, vars, Since(a[0], b, from));
    }
  }

  /** Until the condition starts again, the other side says nothing. */
  lemma {:induction false} OtherSideSilent(w: seq<Sign>, b: Step, vars: Record, outputs: Record)
    requires b.Branch? && Chosen(w, b, vars, Some(outputs)) && !Restarts(w, b)
    ensures Evaluate(b.when, vars, outputs, None) != Verdict.Fails ==>
              forall id | id in Ids(b.elses) :: Begun(w, id) == 0
    ensures Evaluate(b.when, vars, outputs, None) != Holds ==> forall id | id in Ids(b.thens) :: Begun(w, id) == 0
    decreases |w|
  {
    if w != [] {
      assert w[0] in w && Since(w[0], b, Some(outputs)) == Some(outputs);
      OtherSideSilent(w[1..], b, vars, outputs);
    }
  }

  /** No attempt of these steps begins between the two states. */
  predicate Idle(a: State, b: State, ids: seq<string>) {
    forall id | id in ids :: CounterOf(b.store, id) == CounterOf(a.store, id)
  }

  /** In every phase and schedule, at the latest until the condition starts again, no step
      of the side that its verdict rules out is attempted. */
  lemma SideIdle(
      steps: seq<Step>, b: Step, abort: Option<Fault>, store: Store, before: seq<Move>, m: Move, after: seq<Move>,
      env: Env)
    requires b.Branch? && Among(b, steps) && Distinct(Ids(steps))
    requires var s := Play(State(Run(Block(steps, Absolute)), abort, store), before, env);
             StartsWith(SignsOfMove(s, m, env), b) && !Restarts(Trace(Advance(s, m, env), after, env), b)
    ensures var s := Play(State(Run(Block(steps, Absolute)), abort, store), before, env);
            var u := Play(Advance(s, m, env), after, env);
            var verdict := Evaluate(b.when, env.scope.vars, s.store.outputs, None);
            (verdict != Verdict.Fails ==> Idle(s, u, Ids(b.elses))) && (verdict != Holds ==> Idle(s, u, Ids(b.thens)))
  {
    var start := State(Run(Block(steps, Absolute)), abort, store);
    var s := Play(start, before, env);
    var t := Advance(s, m, env);
    var first, rest := SignsOfMove(s, m, env), Trace(t, after, env);
    StartSees(s.proc, s.abort, m.addr, m.ev, s.store, env);
    PhaseSays(steps, abort, store, before + ([m] + after), env);
    TraceConcat(start, before, [m] + after, env);
    assert ([m] + after)[1..] == after;
    var whole := Trace(start, before + ([m] + after), env);
    assert whole == Trace(start, before, env) + (first + rest);
    ListChosen(steps, whole, Completed(Play(start, before + ([m] + after), env).proc, env.scope), env, b);
    var since := ChosenTail(Trace(start, before, env), first + rest, b, env.scope.vars, None);
    assert first == [first[0]] && (first + rest)[1..] == rest;
    OtherSideSilent(rest, b, env.scope.vars, s.store.outputs);
    forall id ensures CounterOf(Play(t, after, env).store, id) == CounterOf(s.store, id) + Begun(rest, id) {
      TraceCounts(t, after, env, id);
      TraceCounts(s, [m], env, id);
      PlayOne(s, m, env);
      OneMove(s, m, env);
      assert Begun(first[1..], id) == 0;
    }
  }

  lemma OneMove(s: State, m: Move, env: Env)
    ensures Trace(s, [m], env) == SignsOfMove(s, m, env)
  {
    assert [m][1..] == [] && Trace(Advance(s, m, env), [], env) == [];
  }

  /** A condition on the output of a step: when it starts with the expected output there,
      no step of the other side is attempted; when it does not, none of its own side is. */
  lemma OutputDecides(
      steps: seq<Step>, b: Step, abort: Option<Fault>, store: Store, before: seq<Move>, m: Move, after: seq<Move>,
      env: Env, k: string, expected: Value)
    requires b.Branch? && Among(b, steps) && Distinct(Ids(steps))
    requires '.' !in k && b.when == Condition(Str("$." + OutputOf(k)), expected)
    requires var s := Play(State(Run(Block(steps, Absolute)), abort, store), before, env);
             StartsWith(SignsOfMove(s, m, env), b) && !Restarts(Trace(Advance(s, m, env), after, env), b)
    ensures var s := Play(State(Run(Block(steps, Absolute)), abort, store), before, env);
            Idle(s, Play(Advance(s, m, env), after, env),
                 Ids(if Lookup(s.store.outputs, k) == Some(expected) then b.elses else b.thens))
  {
    var s := Play(State(Run(Block(steps, Absolute)), abort, store), before, env);
    SideIdle(steps, b, abort, store, before, m, after, env);
    OutputCondition(env.scope.vars, s.store.outputs, None, k, expected);
  }

  /** So it is for a condition on a variable. */
  lemma VariableDecides(
      steps: seq<Step>, b: Step, abort: Option<Fault>, store: Store, before: seq<Move>, m: Move, after: seq<Move>,
      env: Env, k: string, expected: Value)
    requires b.Branch? && Among(b, steps) && Distinct(Ids(steps))
    requires '.' !in k && b.when == Condition(Str("$." + VariableOf(k)), expected)
    requires var s := Play(State(Run(Block(steps, Absolute)), abort, store), before, env);
             StartsWith(SignsOfMove(s, m, env), b) && !Restarts(Trace(Advance(s, m, env), after, env), b)
    ensures var s := Play(State(Run(Block(steps, Absolute)), abort, store), before, env);
            Idle(s, Play(Advance(s, m, env), after, env),
                 Ids(if Lookup(env.scope.vars, k) == Some(expected) then b.elses else b.thens))
  {
    var s := Play(State(Run(Block(steps, Absolute)), abort, store), before, env);
    SideIdle(steps, b, abort, store, before, m, after, env);
    VariableCondition(env.scope.vars, s.store.outputs, None, k, expected);
  }
}
