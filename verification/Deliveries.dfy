/** How often each task leaves its output, and the schedules in which the side that a
    condition selects runs. */
module Deliveries {
  import opened Json
  import opened Steps
  import opened Template
  import opened Resolver
  import opened Interpreter
  import opened Moves
  import opened StepIds
  import opened Conditions
  import opened Words
  import opened Steering
  import opened Branches

  // ----- how often a task is delivered -----

  /** How often a task leaves its output. */
  function Delivered(w: seq<Sign>, id: string): nat {
    if w == [] then 0 else DeliversTask(w[0], id) + Delivered(w[1..], id)
  }

  function DeliversTask(s: Sign, id: string): nat {
    if s.Delivers? && s.step.Task? && s.step.id == id then 1 else 0
  }

  lemma {:induction false} DeliveriesConcat(a: seq<Sign>, b: seq<Sign>, id: string)
    ensures Delivered(a + b, id) == Delivered(a, id) + Delivered(b, id)
    decreases |a|
  {
    if a == [] {
      assert a + b == b;
    } else {
      assert (a + b)[1..] == a[1..] + b;
      DeliveriesConcat(a[1..], b, id);
    }
  }

  lemma DeliveriesSplit(w: seq<Sign>, k: nat, id: string)
    requires k <= |w|
    ensures Delivered(w, id) == Delivered(w[..k], id) + Delivered(w[k..], id)
  {
    assert w == w[..k] + w[k..];
    DeliveriesConcat(w[..k], w[k..], id);
  }

  /** How often the steps run the task `id`: a condition runs it as often as one of its
      sides does, at the least the smaller number and at the most the greater. */
  function AtLeast(steps: seq<Step>, id: string): nat
    decreases steps, 0
  {
    if steps == [] then 0 else AtLeastOf(steps[0], id) + AtLeast(steps[1..], id)
  }

  function AtLeastOf(step: Step, id: string): nat
    decreases step, 1
  {
    match step
    case Task(own, _, _, _, _) => if own == id then 1 else 0
    case Poll(_, _, _, _, _, _) => 0
    case Parallel(_, _, steps) => AtLeast(steps, id)
    case Repeat(_, _, times, steps) => times * AtLeast(steps, id)
    case Branch(_, _, _, thens, elses) =>
      var a, b := AtLeast(thens, id), AtLeast(elses, id); if a < b then a else b
    case Fragment(_, _) => 0
  }

  function AtMost(steps: seq<Step>, id: string): nat
    decreases steps, 0
  {
    if steps == [] then 0 else AtMostOf(steps[0], id) + AtMost(steps[1..], id)
  }

  function AtMostOf(step: Step, id: string): nat
    decreases step, 1
  {
    match step
    case Task(own, _, _, _, _) => if own == id then 1 else 0
    case Poll(_, _, _, _, _, _) => 0
    case Parallel(_, _, steps) => AtMost(steps, id)
    case Repeat(_, _, times, steps) => times * AtMost(steps, id)
    case Branch(_, _, _, thens, elses) =>
      var a, b := AtMost(thens, id), AtMost(elses, id); if a < b then b else a
    case Fragment(_, _) => 0
  }

  /** A word delivers the task at most so often, and a whole one at least so often. */
  predicate Between(w: seq<Sign>, id: string, whole: bool, least: nat, most: nat) {
    Delivered(w, id) <= most && (whole ==> least <= Delivered(w, id))
  }

  lemma {:induction false} LeafDelivers(j: Job, leaf: Leaf, w: seq<Sign>, whole: bool, id: string)
    requires (j.step.Task? || j.step.Poll?) && LeafWord(j, leaf, w, whole)
    requires j.step.Task? && leaf.Ended? ==> !whole
    ensures var n := if j.step.Task? && j.step.id == id then 1 else 0;
            Between(w, id, whole, n, n)
    decreases |w|
  {
    if w != [] {
      var next := Follow(j, leaf, w, whole);
      if j.step.Task? && w[0].Delivers? {
        assert w[1..] == [];
      } else {
        LeafDelivers(j, next, w[1..], whole, id);
      }
    }
  }

  function SumDeliveries(ws: seq<seq<Sign>>, id: string): nat {
    if ws == [] then 0 else Delivered(ws[0], id) + SumDeliveries(ws[1..], id)
  }

  lemma {:induction false} SumTail(ws: seq<seq<Sign>>, i: nat, id: string)
    requires i < |ws| && ws[i] != []
    ensures SumDeliveries(ws, id) == DeliversTask(ws[i][0], id) + SumDeliveries(ws[i := ws[i][1..]], id)
  {
    var rest := ws[i := ws[i][1..]];
    if i == 0 {
      assert rest[1..] == ws[1..];
    } else {
      assert rest[1..] == ws[1..][i - 1 := ws[1..][i - 1][1..]];
      SumTail(ws[1..], i - 1, id);
    }
  }

  lemma {:induction false} ShuffleDelivers(ws: seq<seq<Sign>>, w: seq<Sign>, id: string)
    requires Shuffle(ws, w)
    ensures Delivered(w, id) == SumDeliveries(ws, id)
    decreases |w|
  {
    if w == [] {
      NoDelivered(ws, id);
    } else {
      var i :| 0 <= i < |ws| && ws[i] != [] && ws[i][0] == w[0] && Shuffle(ws[i := ws[i][1..]], w[1..]);
      ShuffleDelivers(ws[i := ws[i][1..]], w[1..], id);
      SumTail(ws, i, id);
    }
  }

  lemma {:induction false} NoDelivered(ws: seq<seq<Sign>>, id: string)
    requires forall i | 0 <= i < |ws| :: ws[i] == []
    ensures SumDeliveries(ws, id) == 0
  {
    if ws == [] {
    } else {
      NoDelivered(ws[1..], id);
    }
  }

  lemma {:induction false} StepDelivers(step: Step, w: seq<Sign>, whole: bool, env: Env, id: string)
    requires StepWord(step, w, whole, env)
    ensures Between(w, id, whole, AtLeastOf(step, id), AtMostOf(step, id))
    decreases step, 1
  {
    if w != [] { CoreDelivers(step, w[0].outputs, w[0].now, w[1..], whole, env, id); }
  }

  lemma {:induction false} CoreDelivers(
      step: Step, outputs: Record, now: nat, w: seq<Sign>, whole: bool, env: Env, id: string)
    requires CoreWord(step, outputs, now, w, whole, env)
    ensures Between(w, id, whole, AtLeastOf(step, id), AtMostOf(step, id))
    decreases step, 0
  {
    match step
    case Task(_, _, _, _, _) => LeafDelivers(Job(step, 0, env.scope.vars), Ready(1), w, whole, id);
    case Poll(_, _, _, _, _, timeout) =>
      var deadline := now + (if timeout.Some? then timeout.value else env.timeoutMs);
      LeafDelivers(Job(step, deadline, env.scope.vars), Ready(1), w, whole, id);
    case Parallel(_, _, steps) =>
      var ws: seq<seq<Sign>> :| |ws| == |steps| && Shuffle(ws, w)
                                && forall i | 0 <= i < |steps| :: StepWord(steps[i], ws[i], whole, env);
      ShuffleDelivers(ws, w, id);
      MembersDeliver(steps, ws, whole, env, id);
    case Repeat(_, _, times, steps) => RoundsDeliver(steps, times, w, whole, env, id);
    case Branch(_, _, when, thens, elses) =>
      if Evaluate(when, env.scope.vars, outputs, None) == Holds {
        ListDelivers(thens, w, whole, env, id);
      } else if Evaluate(when, env.scope.vars, outputs, None) == Verdict.Fails {
        ListDelivers(elses, w, whole, env, id);
      }
    case Fragment(_, _) =>
  }

  lemma {:induction false} MembersDeliver(steps: seq<Step>, ws: seq<seq<Sign>>, whole: bool, env: Env, id: string)
    requires |ws| == |steps| && forall i | 0 <= i < |steps| :: StepWord(steps[i], ws[i], whole, env)
    ensures SumDeliveries(ws, id) <= AtMost(steps, id) && (whole ==> AtLeast(steps, id) <= SumDeliveries(ws, id))
    decreases steps, 0
  {
    if steps != [] {
      StepDelivers(steps[0], ws[0], whole, env, id);
      MembersDeliver(steps[1..], ws[1..], whole, env, id);
    }
  }

  lemma {:induction false} ListDelivers(steps: seq<Step>, w: seq<Sign>, whole: bool, env: Env, id: string)
    requires ListWord(steps, w, whole, env)
    ensures Between(w, id, whole, AtLeast(steps, id), AtMost(steps, id))
    decreases steps, 0
  {
    if steps == [] {
    } else if !whole && StepWord(steps[0], w, false, env) {
      StepDelivers(steps[0], w, false, env, id);
    } else {
      var k :| 0 <= k <= |w| && StepWord(steps[0], w[..k], true, env) && ListWord(steps[1..], w[k..], whole, env);
      StepDelivers(steps[0], w[..k], true, env, id);
      ListDelivers(steps[1..], w[k..], whole, env, id);
      DeliveriesSplit(w, k, id);
    }
  }

  lemma {:induction false} RoundsDeliver(
      steps: seq<Step>, times: nat, w: seq<Sign>, whole: bool, env: Env, id: string)
    requires RoundsWord(steps, times, w, whole, env)
    ensures Between(w, id, whole, times * AtLeast(steps, id), times * AtMost(steps, id))
    decreases steps, 1, times
  {
    if times == 0 {
    } else if !whole && ListWord(steps, w, false, env) {
      ListDelivers(steps, w, false, env, id);
      Once(times, AtMost(steps, id));
    } else {
      var k :| 0 <= k <= |w| && ListWord(steps, w[..k], true, env) && RoundsWord(steps, times - 1, w[k..], whole, env);
      ListDelivers(steps, w[..k], true, env, id);
      RoundsDeliver(steps, times - 1, w[k..], whole, env, id);
      DeliveriesSplit(w, k, id);
      Once(times, AtLeast(steps, id));
      Once(times, AtMost(steps, id));
    }
  }

  lemma Once(times: nat, n: nat)
    requires times > 0
    ensures times * n == n + (times - 1) * n
  {
  }

  /** However a phase goes, a task leaves its output at most as often as the phase's steps
      run it, and once the phase is fulfilled as often as they ask: exactly so often if no
      condition decides about it. */
  lemma PhaseDelivers(steps: seq<Step>, abort: Option<Fault>, store: Store, moves: seq<Move>, env: Env, id: string)
    ensures var s := State(Run(Block(steps, Absolute)), abort, store);
            var n := Delivered(Trace(s, moves, env), id);
            n <= AtMost(steps, id) && (Completed(Play(s, moves, env).proc, env.scope) ==> AtLeast(steps, id) <= n)
  {
    var s := State(Run(Block(steps, Absolute)), abort, store);
    PhaseSays(steps, abort, store, moves, env);
    ListDelivers(steps, Trace(s, moves, env), Completed(Play(s, moves, env).proc, env.scope), env, id);
  }

  // ----- the side that runs -----

  /** The move that leaves an output shows. */
  lemma DeliveryShows(step: Step, deadline: nat, leaf: Leaf, signal: Option<Fault>, st: Store, env: Env)
    requires (step.Task? || step.Poll?) && leaf.Reporting?
    ensures Signs(Action(step, deadline, leaf), signal, [], Go, st, env) != []
  {
    assert !Deliver(step, leaf.output, signal, st, env).0.Reporting?;
  }

  lemma LeafSilent(
      step: Step, deadline: nat, leaf: Leaf, signal: Option<Fault>, ev: Event, st: Store, env: Env)
    requires (step.Task? || step.Poll?) && Signs(Action(step, deadline, leaf), signal, [], ev, st, env) == []
    ensures LeafNext(step, deadline, leaf, signal, ev, st, env).1.outputs == st.outputs
  {
    if leaf.Reporting? { DeliveryShows(step, deadline, leaf, signal, st, env); }
  }

  /** Nothing is left among the outputs before the first sign. */
  lemma {:induction false} SilentNext(p: Proc, signal: Option<Fault>, addr: seq<nat>, ev: Event, st: Store, env: Env)
    requires Signs(p, signal, addr, ev, st, env) == []
    ensures Next(p, signal, addr, ev, st, env).1.outputs == st.outputs
    decreases p
  {
    match p
    case Action(step, deadline, leaf) =>
      if step.Task? || step.Poll? { LeafSilent(step, deadline, leaf, signal, ev, st, env); }
    case Sequence(head, _) => if !Completed(head, env.scope) { SilentNext(head, signal, addr, ev, st, env); }
    case Loop(body, _, _) => if !Completed(body, env.scope) { SilentNext(body, signal, addr, ev, st, env); }
    case Group(members, own, _) =>
      if addr != [] && addr[0] < |members| {
        SilentNext(members[addr[0]], Below(own, signal), addr[1..], ev, st, env);
      }
    case Timed(body, own, _) => if addr != [] { SilentNext(body, Below(own, signal), addr[1..], ev, st, env); }
    case _ =>
  }

  lemma {:induction false} FirstStart(s: State, moves: seq<Move>, env: Env)
    requires var w := Trace(s, moves, env); w != [] && w[0].Starts?
    ensures Trace(s, moves, env)[0].outputs == s.store.outputs
    decreases |moves|
  {
    var e := SignsOfMove(s, moves[0], env);
    if e == [] {
      if moves[0].At? { SilentNext(s.proc, s.abort, moves[0].addr, moves[0].ev, s.store, env); }
      FirstStart(Advance(s, moves[0], env), moves[1..], env);
    } else {
      assert Trace(s, moves, env)[0] == e[0];
      StartSees(s.proc, s.abort, moves[0].addr, moves[0].ev, s.store, env);
    }
  }

  lemma {:induction false} SpeaksNot(w: seq<Sign>, ids: seq<string>, id: string)
    requires Speaks(w, ids) && id !in ids
    ensures Begun(w, id) == 0
  {
    if w != [] {
      assert w[0] in w;
      SpeaksNot(w[1..], ids, id);
    }
  }

  lemma OnlyStep(b: Step, w: seq<Sign>, env: Env)
    requires ListWord([b], w, true, env)
    ensures StepWord(b, w, true, env)
  {
    var k :| 0 <= k <= |w| && StepWord([b][0], w[..k], true, env) && ListWord([b][1..], w[k..], true, env);
    assert [b][1..] == [] && w[..k] == w;
  }

  /** A whole word of a condition speaks of the side that the outputs select. */
  lemma SideWord(b: Step, w: seq<Sign>, env: Env, outputs: Record, met: bool)
    requires b.Branch? && Distinct(IdsOf(b)) && StepWord(b, w, true, env) && w[0].outputs == outputs
    requires Evaluate(b.when, env.scope.vars, outputs, None) == if met then Holds else Verdict.Fails
    ensures var side, other := if met then b.thens else b.elses, if met then b.elses else b.thens;
            && (forall id :: AtLeast(side, id) <= Delivered(w, id))
            && (forall id | id in Ids(other) :: Begun(w, id) == 0)
  {
    var side, other := if met then b.thens else b.elses, if met then b.elses else b.thens;
    forall id ensures AtLeast(side, id) <= Delivered(w, id) { ListDelivers(side, w[1..], true, env, id); }
    BranchIds(b);
    ListSpeaks(side, w[1..], true, env);
    forall id | id in Ids(other) ensures Begun(w, id) == 0 { SpeaksNot(w[1..], Ids(side), id); }
  }

  /** A condition on an output: whatever the outputs there are, some schedule runs every
      task of the side they select, as often as that side asks, and none of the other. */
  lemma SelectedSidePasses(b: Step, store: Store, env: Env, k: string, expected: Value) returns (moves: seq<Move>)
    requires b.Branch? && Passable([b]) && Distinct(IdsOf(b))
    requires '.' !in k && b.when == Condition(Str("$." + OutputOf(k)), expected)
    ensures var s := State(Run(Block([b], Absolute)), None, store);
            var u := Play(s, moves, env);
            var met := Lookup(store.outputs, k) == Some(expected);
            && Completed(u.proc, env.scope)
            && (forall id :: Delivered(Trace(s, moves, env), id) >= AtLeast(if met then b.thens else b.elses, id))
            && Idle(s, u, Ids(if met then b.elses else b.thens))
  {
    var s := State(Run(Block([b], Absolute)), None, store);
    moves := PhasePasses([b], store, env);
    var u, w, met := Play(s, moves, env), Trace(s, moves, env), Lookup(store.outputs, k) == Some(expected);
    OutputCondition(env.scope.vars, store.outputs, None, k, expected);
    PhaseSays([b], None, store, moves, env);
    OnlyStep(b, w, env);
    FirstStart(s, moves, env);
    SideWord(b, w, env, store.outputs, met);
    forall id | id in Ids(if met then b.elses else b.thens) ensures CounterOf(u.store, id) == CounterOf(s.store, id) {
      TraceCounts(s, moves, env, id);
    }
  }
}
