/** Schedules put together from the moves of one activity, and a schedule with which steps
    that can be attempted pass. */
module Steering {
  import opened Json
  import opened Steps
  import opened Template
  import opened Resolver
  import opened Interpreter
  import opened Moves

  datatype Turn = Turn(addr: seq<nat>, ev: Event)

  /** The turns take the activity from `p` to `q`, and it settles at the last if at all. */
  predicate Path(p: Proc, signal: Option<Fault>, turns: seq<Turn>, st: Store, env: Env, q: Proc, st': Store)
    decreases |turns|
  {
    if turns == [] then q == p && st' == st
    else
      var (next, st1) := Next(p, signal, turns[0].addr, turns[0].ev, st, env);
      OutcomeOf(p, env.scope) == None && Path(next, signal, turns[1..], st1, env, q, st')
  }

  lemma PathOne(p: Proc, signal: Option<Fault>, turn: Turn, st: Store, env: Env)
    requires OutcomeOf(p, env.scope) == None
    ensures var (q, st') := Next(p, signal, turn.addr, turn.ev, st, env); Path(p, signal, [turn], st, env, q, st')
  {
    var (q, st') := Next(p, signal, turn.addr, turn.ev, st, env);
    assert [turn][1..] == [] && Path(q, signal, [], st', env, q, st');
  }

  lemma {:induction false} PathThen(
      p: Proc, signal: Option<Fault>, a: seq<Turn>, st: Store, env: Env, q: Proc, st': Store, b: seq<Turn>, r: Proc,
      st'': Store)
    requires Path(p, signal, a, st, env, q, st') && Path(q, signal, b, st', env, r, st'')
    ensures Path(p, signal, a + b, st, env, r, st'')
    decreases |a|
  {
    if a == [] {
      assert a + b == b;
    } else {
      assert (a + b)[1..] == a[1..] + b;
      var (next, st1) := Next(p, signal, a[0].addr, a[0].ev, st, env);
      PathThen(next, signal, a[1..], st1, env, q, st', b, r, st'');
    }
  }

  /** A turn, and then a path. */
  lemma TurnThen(
      p: Proc, signal: Option<Fault>, turn: Turn, st: Store, env: Env, q: Proc, st': Store, b: seq<Turn>, r: Proc,
      st'': Store)
    requires OutcomeOf(p, env.scope) == None && Next(p, signal, turn.addr, turn.ev, st, env) == (q, st')
    requires Path(q, signal, b, st', env, r, st'')
    ensures Path(p, signal, [turn] + b, st, env, r, st'')
  {
    PathOne(p, signal, turn, st, env);
    PathThen(p, signal, [turn], st, env, q, st', b, r, st'');
  }

  // ----- paths below -----

  lemma {:induction false} HeadPath(
      head: Proc, code: seq<Block>, signal: Option<Fault>, turns: seq<Turn>, st: Store, env: Env, q: Proc, st': Store)
    requires Path(head, signal, turns, st, env, q, st')
    ensures Path(Sequence(head, code), signal, turns, st, env, Sequence(q, code), st')
    decreases |turns|
  {
    if turns == [] {
    } else {
      var (next, st1) := Next(head, signal, turns[0].addr, turns[0].ev, st, env);
      assert Next(Sequence(head, code), signal, turns[0].addr, turns[0].ev, st, env) == (Sequence(next, code), st1);
      HeadPath(next, code, signal, turns[1..], st1, env, q, st');
    }
  }

  lemma {:induction false} BodyPath(
      body: Proc, left: nat, again: Block, signal: Option<Fault>, turns: seq<Turn>, st: Store, env: Env, q: Proc,
      st': Store)
    requires Path(body, signal, turns, st, env, q, st')
    ensures Path(Loop(body, left, again), signal, turns, st, env, Loop(q, left, again), st')
    decreases |turns|
  {
    if turns == [] {
    } else {
      var (next, st1) := Next(body, signal, turns[0].addr, turns[0].ev, st, env);
      assert Next(Loop(body, left, again), signal, turns[0].addr, turns[0].ev, st, env) ==
             (Loop(next, left, again), st1);
      BodyPath(next, left, again, signal, turns[1..], st1, env, q, st');
    }
  }

  /** The same turns for what stands at `i` of a group, or below a timer. */
  function Under(i: nat, turns: seq<Turn>): (r: seq<Turn>)
    ensures |r| == |turns|
  {
    if turns == [] then [] else [Turn([i] + turns[0].addr, turns[0].ev)] + Under(i, turns[1..])
  }

  lemma {:induction false} TimedPath(
      body: Proc, signal: Option<Fault>, turns: seq<Turn>, st: Store, env: Env, q: Proc, st': Store)
    requires Path(body, signal, turns, st, env, q, st')
    ensures Path(Timed(body, None, None), signal, Under(0, turns), st, env, Timed(q, None, None), st')
    decreases |turns|
  {
    if turns == [] {
    } else {
      var (next, st1) := Next(body, signal, turns[0].addr, turns[0].ev, st, env);
      assert ([0] + turns[0].addr)[1..] == turns[0].addr && Under(0, turns)[1..] == Under(0, turns[1..]);
      assert Next(Timed(body, None, None), signal, [0] + turns[0].addr, turns[0].ev, st, env) ==
             (Timed(next, None, None), st1);
      TimedPath(next, signal, turns[1..], st1, env, q, st');
    }
  }

  lemma MemberTurn(members: seq<Proc>, i: nat, signal: Option<Fault>, turn: Turn, st: Store, env: Env)
    requires i < |members|
    ensures var (m, st') := Next(members[i], signal, turn.addr, turn.ev, st, env);
            Next(Group(members, None, None), signal, [i] + turn.addr, turn.ev, st, env) ==
            (GroupAfter(members, i, m, None, None, signal, env.scope), st')
  {
    assert ([i] + turn.addr)[1..] == turn.addr;
  }

  /** A path of one member is a path of the group, which sees how the member ends. */
  lemma {:induction false} MemberPath(
      members: seq<Proc>, i: nat, signal: Option<Fault>, turns: seq<Turn>, st: Store, env: Env, q: Proc, st': Store)
    requires i < |members| && turns != [] && Path(members[i], signal, turns, st, env, q, st')
    ensures Path(Group(members, None, None), signal, Under(i, turns), st, env,
                 GroupAfter(members, i, q, None, None, signal, env.scope), st')
    decreases |turns|
  {
    var (next, st1) := Next(members[i], signal, turns[0].addr, turns[0].ev, st, env);
    MemberTurn(members, i, signal, turns[0], st, env);
    assert Under(i, turns)[1..] == Under(i, turns[1..]);
    if |turns| == 1 {
      assert turns[1..] == [];
    } else {
      assert members[i := next][i := q] == members[i := q];
      MemberPath(members[i := next], i, signal, turns[1..], st1, env, q, st');
    }
  }

  /** A path from the start of a member is one from the member as it waits. */
  lemma PendingPath(step: Step, signal: Option<Fault>, turns: seq<Turn>, st: Store, env: Env, q: Proc, st': Store)
    requires Path(Start(step, Absolute, st, env), signal, turns, st, env, q, st')
    ensures Path(Pending(step, Absolute), signal, [Turn([], Go)] + turns, st, env, q, st')
  {
    TurnThen(Pending(step, Absolute), signal, Turn([], Go), st, env, Start(step, Absolute, st, env), st, turns, q, st');
  }

  // ----- steps that can pass -----

  /** Tasks that are attempted, in parallel steps and in repeats that run. */
  predicate Simple(steps: seq<Step>) { forall s | s in steps :: SimpleStep(s) }

  predicate SimpleStep(step: Step) {
    match step
    case Task(_, _, _, _, _) => AttemptLimit(step) >= 1
    case Parallel(_, _, steps) => Simple(steps)
    case Repeat(_, _, times, steps) => times >= 1 && Simple(steps)
    case _ => false
  }

  /** Tasks and poll steps that are attempted, the latter until their handler answers as
      expected, and conditions whose path is a text, wherever they stand. */
  predicate Passable(steps: seq<Step>) { forall s | s in steps :: PassableStep(s) }

  predicate PassableStep(step: Step) {
    match step
    case Task(_, _, _, _, _) => AttemptLimit(step) >= 1
    case Poll(_, _, until, _, _, _) => AttemptLimit(step) >= 1 && until.path == Str("$")
    case Parallel(_, _, steps) => Passable(steps)
    case Repeat(_, _, _, steps) => Passable(steps)
    case Branch(_, _, when, thens, elses) => when.path.Str? && Passable(thens) && Passable(elses)
    case Fragment(_, _) => true
  }

  lemma {:induction false} SimpleIsPassable(step: Step)
    requires SimpleStep(step)
    ensures PassableStep(step)
  {
    match step
    case Parallel(_, _, steps) => SimplePassable(steps);
    case Repeat(_, _, _, steps) => SimplePassable(steps);
    case _ =>
  }

  lemma SimplePassable(steps: seq<Step>)
    requires Simple(steps)
    ensures Passable(steps)
  {
    forall s | s in steps ensures PassableStep(s) { SimpleIsPassable(s); }
  }

  lemma FetchFirst(steps: seq<Step>, scope: Scope)
    ensures Fetch([Block(steps, Absolute)], scope) ==
            if steps == [] then None else Some(Fetched(steps[0], Absolute, [Block(steps[1..], Absolute)]))
  {
    var code := [Block(steps, Absolute)];
    assert code[1..] == [] && Fetch([], scope) == None;
    if steps != [] { assert [Block(steps[1..], Absolute)] + code[1..] == [Block(steps[1..], Absolute)]; }
  }

  /** The next step of a list starts. */
  lemma NextStarts(head: Proc, steps: seq<Step>, st: Store, env: Env)
    requires Completed(head, env.scope) && steps != []
    ensures OutcomeOf(Sequence(head, [Block(steps, Absolute)]), env.scope) == None
    ensures Next(Sequence(head, [Block(steps, Absolute)]), None, [], Go, st, env) ==
            (Sequence(Start(steps[0], Absolute, st, env), [Block(steps[1..], Absolute)]), st)
  {
    FetchFirst(steps, env.scope);
  }

  /** A step of a list, from where the one before is done. */
  lemma ListPath(
      head: Proc, steps: seq<Step>, turns: seq<Turn>, st: Store, env: Env, q: Proc, st': Store)
    requires Completed(head, env.scope) && steps != []
    requires Path(Start(steps[0], Absolute, st, env), None, turns, st, env, q, st')
    ensures Path(Sequence(head, [Block(steps, Absolute)]), None, [Turn([], Go)] + turns, st, env,
                 Sequence(q, [Block(steps[1..], Absolute)]), st')
  {
    var rest := [Block(steps[1..], Absolute)];
    NextStarts(head, steps, st, env);
    HeadPath(Start(steps[0], Absolute, st, env), rest, None, turns, st, env, q, st');
    TurnThen(Sequence(head, [Block(steps, Absolute)]), None, Turn([], Go), st, env,
             Sequence(Start(steps[0], Absolute, st, env), rest), st, turns, Sequence(q, rest), st');
  }

  /** A repeat begins a round. */
  lemma RoundPath(
      body: Proc, left: nat, steps: seq<Step>, turns: seq<Turn>, st: Store, env: Env, q: Proc, st': Store)
    requires Completed(body, env.scope) && left > 0
    requires Path(Run(Block(steps, Absolute)), None, turns, st, env, q, st')
    ensures Path(Loop(body, left, Block(steps, Absolute)), None, [Turn([], Go)] + turns, st, env,
                 Loop(q, left - 1, Block(steps, Absolute)), st')
  {
    var again := Block(steps, Absolute);
    BodyPath(Run(again), left - 1, again, None, turns, st, env, q, st');
    TurnThen(Loop(body, left, again), None, Turn([], Go), st, env, Loop(Run(again), left - 1, again), st, turns,
             Loop(q, left - 1, again), st');
  }

  /** The timer of a step, if it has one, leaves a path below it as it is. */
  function Clocked(step: Step, p: Proc): Proc { if HasTimer(step) then Timed(p, None, None) else p }

  function ClockedTurns(step: Step, turns: seq<Turn>): seq<Turn> { if HasTimer(step) then Under(0, turns) else turns }

  lemma ClockedPath(
      step: Step, signal: Option<Fault>, turns: seq<Turn>, st: Store, env: Env, q: Proc, st': Store)
    requires Path(StartCore(step, Absolute, st, env), signal, turns, st, env, q, st')
    ensures Path(Start(step, Absolute, st, env), signal, ClockedTurns(step, turns), st, env, Clocked(step, q), st')
  {
    if HasTimer(step) { TimedPath(StartCore(step, Absolute, st, env), signal, turns, st, env, q, st'); }
  }

  // ----- passing -----

  /** The handler of a step is called and answers: its passed record is begun. */
  lemma HandlerWins(step: Step, deadline: nat, output: Option<Value>, st: Store, env: Env)
      returns (turns: seq<Turn>, number: nat, st': Store)
    requires (step.Task? || step.Poll?) && AttemptLimit(step) >= 1 && (step.Poll? ==> st.now <= deadline)
    ensures Path(Action(step, deadline, Ready(1)), None, turns, st, env,
                 Action(step, deadline, Reporting(number, output)), st')
  {
    var (announced, st1) := Announce(step, 1, st);
    number := announced.number;
    var st2 := CallHandler(step, 1, number, None, st1).1;
    st' := Report(st2, step.id, number, PASSED);
    var go, answer, called, raced :=
      Turn([], Go), Turn([], Resolve(output)), Called(1, number), Raced(1, number, Won(output));
    var won := Action(step, deadline, Reporting(number, output));
    PathOne(Action(step, deadline, raced), None, go, st2, env);
    TurnThen(Action(step, deadline, called), None, answer, st2, env, Action(step, deadline, raced), st2,
             [go], won, st');
    var rest := [answer] + [go];
    TurnThen(Action(step, deadline, announced), None, go, st1, env, Action(step, deadline, called), st2, rest,
             won, st');
    TurnThen(Action(step, deadline, Ready(1)), None, go, st, env, Action(step, deadline, announced), st1,
             [go] + rest, won, st');
    turns := [go] + ([go] + rest);
  }

  /** The output that a poll step waits for. */
  function Awaited(step: Step): Option<Value> { if step.Poll? then Some(step.until.equals) else None }

  lemma ActionPasses(step: Step, deadline: nat, st: Store, env: Env) returns (turns: seq<Turn>, st': Store)
    requires (step.Task? || step.Poll?) && PassableStep(step) && (step.Poll? ==> st.now <= deadline)
    ensures Path(Action(step, deadline, Ready(1)), None, turns, st, env, Action(step, deadline, Ended(Fulfilled)), st')
  {
    var wins, number, st1 := HandlerWins(step, deadline, Awaited(step), st, env);
    var reporting := Action(step, deadline, Reporting(number, Awaited(step)));
    PathOne(reporting, None, Turn([], Go), st1, env);
    assert Deliver(step, Awaited(step), None, st1, env).0 == Ended(Fulfilled);
    st' := Next(reporting, None, [], Go, st1, env).1;
    turns := wins + [Turn([], Go)];
    PathThen(Action(step, deadline, Ready(1)), None, wins, st, env, reporting, st1, [Turn([], Go)],
             Action(step, deadline, Ended(Fulfilled)), st');
  }

  /** Whatever stands in the store, there is a schedule with which the step passes. */
  lemma {:induction false} StartPasses(step: Step, st: Store, env: Env) returns (turns: seq<Turn>, q: Proc, st': Store)
    requires PassableStep(step)
    ensures Path(Start(step, Absolute, st, env), None, turns, st, env, q, st') && Completed(q, env.scope)
    decreases Size(step), 1, 0
  {
    var core;
    turns, core, st' := CorePasses(step, st, env);
    ClockedPath(step, None, turns, st, env, core, st');
    turns, q := ClockedTurns(step, turns), Clocked(step, core);
    if HasTimer(step) {
      PathOne(q, None, Turn([], Settle), st', env);
      PathThen(Start(step, Absolute, st, env), None, turns, st, env, q, st', [Turn([], Settle)],
               Timed(core, None, Some(Fulfilled)), st');
      turns, q := turns + [Turn([], Settle)], Timed(core, None, Some(Fulfilled));
    }
  }

  lemma {:induction false} CorePasses(step: Step, st: Store, env: Env) returns (turns: seq<Turn>, q: Proc, st': Store)
    requires PassableStep(step)
    ensures Path(StartCore(step, Absolute, st, env), None, turns, st, env, q, st') && Completed(q, env.scope)
    decreases Size(step), 0, 0
  {
    match step
    case Task(_, _, _, _, _) =>
      turns, st' := ActionPasses(step, 0, st, env);
      q := Action(step, 0, Ended(Fulfilled));
    case Poll(_, _, _, _, _, _) =>
      var deadline := StartCore(step, Absolute, st, env).deadline;
      turns, st' := ActionPasses(step, deadline, st, env);
      q := Action(step, deadline, Ended(Fulfilled));
    case Parallel(_, _, steps) =>
      var members := Members(Block(steps, Absolute), env.scope);
      if steps == [] {
        turns, q, st' := [], StartCore(step, Absolute, st, env), st;
      } else {
        turns, q, st' := MembersPass(steps, members, 0, st, env);
      }
    case Repeat(_, _, times, steps) => turns, q, st' := RoundsPass(Settled(Fulfilled), times, steps, st, env);
    case Branch(_, _, when, thens, elses) =>
      var side := if Evaluate(when, env.scope.vars, st.outputs, None) == Holds then thens else elses;
      turns, q, st' := ListPasses(Settled(Fulfilled), side, st, env);
    case Fragment(_, _) => turns, q, st' := [], Settled(Fulfilled), st;
  }

  /** The members from `k` on pass one after the other. */
  lemma {:induction false} MembersPass(steps: seq<Step>, members: seq<Proc>, k: nat, st: Store, env: Env)
      returns (turns: seq<Turn>, q: Proc, st': Store)
    requires Passable(steps) && |members| == |steps| && k < |steps|
    requires forall j | 0 <= j < k :: Completed(members[j], env.scope)
    requires forall j | k <= j < |steps| :: members[j] == Pending(steps[j], Absolute)
    ensures Path(Group(members, None, None), None, turns, st, env, q, st') && Completed(q, env.scope)
    decreases SizeAll(steps), 2, |steps| - k
  {
    assert steps[k] in steps;
    SizeOfMember(steps, k);
    var own, m, st1 := StartPasses(steps[k], st, env);
    PendingPath(steps[k], None, own, st, env, m, st1);
    MemberPath(members, k, None, [Turn([], Go)] + own, st, env, m, st1);
    turns := Under(k, [Turn([], Go)] + own);
    var after := members[k := m];
    if k + 1 == |steps| {
      assert AllCompleted(after, env.scope);
      q, st' := Group(after, None, Some(Fulfilled)), st1;
    } else {
      assert after[k + 1] == Pending(steps[k + 1], Absolute) && after[k + 1] in after;
      assert !AllCompleted(after, env.scope);
      var rest;
      rest, q, st' := MembersPass(steps, after, k + 1, st1, env);
      PathThen(Group(members, None, None), None, turns, st, env, Group(after, None, None), st1, rest, q, st');
      turns := turns + rest;
    }
  }

  lemma {:induction false} SizeOfMember(steps: seq<Step>, i: nat)
    requires i < |steps|
    ensures Size(steps[i]) <= SizeAll(steps)
  {
    if i == 0 {
    } else {
      SizeOfMember(steps[1..], i - 1);
    }
  }

  lemma {:induction false} RoundsPass(body: Proc, left: nat, steps: seq<Step>, st: Store, env: Env)
      returns (turns: seq<Turn>, q: Proc, st': Store)
    requires Passable(steps) && Completed(body, env.scope)
    ensures Path(Loop(body, left, Block(steps, Absolute)), None, turns, st, env, q, st') && Completed(q, env.scope)
    decreases SizeAll(steps), 3, left
  {
    if left == 0 {
      turns, q, st' := [], Loop(body, left, Block(steps, Absolute)), st;
    } else {
      var own, round, st1 := ListPasses(Settled(Fulfilled), steps, st, env);
      RoundPath(body, left, steps, own, st, env, round, st1);
      var rest;
      rest, q, st' := RoundsPass(round, left - 1, steps, st1, env);
      turns := ([Turn([], Go)] + own) + rest;
      PathThen(Loop(body, left, Block(steps, Absolute)), None, [Turn([], Go)] + own, st, env,
               Loop(round, left - 1, Block(steps, Absolute)), st1, rest, q, st');
    }
  }

  lemma {:induction false} ListPasses(head: Proc, steps: seq<Step>, st: Store, env: Env)
      returns (turns: seq<Turn>, q: Proc, st': Store)
    requires Passable(steps) && Completed(head, env.scope)
    ensures Path(Sequence(head, [Block(steps, Absolute)]), None, turns, st, env, q, st') && Completed(q, env.scope)
    decreases SizeAll(steps), 2, 0
  {
    FetchFirst(steps, env.scope);
    if steps == [] {
      turns, q, st' := [], Sequence(head, [Block(steps, Absolute)]), st;
    } else {
      assert steps[0] in steps;
      var own, next, st1 := StartPasses(steps[0], st, env);
      ListPath(head, steps, own, st, env, next, st1);
      var rest;
      rest, q, st' := ListPasses(next, steps[1..], st1, env);
      turns := ([Turn([], Go)] + own) + rest;
      PathThen(Sequence(head, [Block(steps, Absolute)]), None, [Turn([], Go)] + own, st, env,
               Sequence(next, [Block(steps[1..], Absolute)]), st1, rest, q, st');
    }
  }

  // ----- phases -----

  function AsMoves(turns: seq<Turn>): (r: seq<Move>)
    ensures |r| == |turns|
  {
    if turns == [] then [] else [At(turns[0].addr, turns[0].ev)] + AsMoves(turns[1..])
  }

  lemma {:induction false} PlayPath(
      p: Proc, abort: Option<Fault>, turns: seq<Turn>, st: Store, env: Env, q: Proc, st': Store)
    requires Path(p, abort, turns, st, env, q, st')
    ensures Play(State(p, abort, st), AsMoves(turns), env) == State(q, abort, st')
    decreases |turns|
  {
    if turns == [] {
    } else {
      var (next, st1) := Next(p, abort, turns[0].addr, turns[0].ev, st, env);
      assert AsMoves(turns)[1..] == AsMoves(turns[1..]);
      PlayPath(next, abort, turns[1..], st1, env, q, st');
    }
  }

  /** Whatever the outputs, a phase of such steps has a schedule with which it passes. */
  lemma PhasePasses(steps: seq<Step>, st: Store, env: Env) returns (moves: seq<Move>)
    requires Passable(steps)
    ensures var s := Play(State(Run(Block(steps, Absolute)), None, st), moves, env);
            Completed(s.proc, env.scope) && s.abort == None
  {
    var turns, q, st' := ListPasses(Settled(Fulfilled), steps, st, env);
    PlayPath(Run(Block(steps, Absolute)), None, turns, st, env, q, st');
    moves := AsMoves(turns);
  }
}
