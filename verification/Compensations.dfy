/** Which tasks are compensated when a run fails: those that have registered their
    compensation by the time it is due, which need not be all that are recorded PASSED. */
module Compensations {
  import opened Json
  import opened Steps
  import opened Template
  import opened Resolver
  import opened Interpreter
  import opened Moves
  import opened Attempts
  import opened Lifecycle
  import opened Runs
  import opened FailFast

  lemma SameReversed<T>(s: seq<T>)
    ensures multiset(Reverse(s)) == multiset(s)
  {
    if s == [] {
    } else {
      SameReversed(s[1..]);
      assert s == [s[0]] + s[1..];
    }
  }

  /** When a run fails or is cancelled, the compensations that run are those registered,
      the last first. Together with those of the tasks that are recorded PASSED but still
      in flight they are exactly the compensations of the tasks recorded PASSED; so they
      cover every such task if and only if none was still in flight. */
  lemma CompensatedIff(phases: seq<Block>, env: Env, w: World, now: nat, r: RunReport)
    requires |phases| == |PHASES|
    requires var end := RunPhases(phases, 0, w.abort, Fresh(now), env, w);
             end.over && end.error.Some? && Accounted(r, end, w)
    ensures var end := RunPhases(phases, 0, w.abort, Fresh(now), env, w);
            var h := RunHistory(phases, 0, w.abort, Fresh(now), env, w);
            && Explains(h, Fresh(now), multiset{}, end.store, Flights(end.proc))
            && r.compensated == Reverse(Gains(h))
            && multiset(Owed(h)) == multiset(r.compensated) + Gather(end.proc, Unpaid)
            && (multiset(r.compensated) == multiset(Owed(h)) <==> Gather(end.proc, Unpaid) == multiset{})
  {
    var h := RunHistory(phases, 0, w.abort, Fresh(now), env, w);
    RunExplained(phases, env, w, now);
    SameReversed(Gains(h));
  }

  // ----- a compensation that comes too late -----

  /** A parallel step with two members. */
  function Pair(p: Proc, q: Proc): Proc { Sequence(Group([p, q], None, None), [Block([], Absolute)]) }

  lemma FirstMoves(p: Proc, q: Proc, ev: Event, st: Store, env: Env, p': Proc, st': Store)
    requires Next(p, None, [], ev, st, env) == (p', st') && OutcomeOf(p', env.scope) == None
    ensures Advance(State(Pair(p, q), None, st), At([0], ev), env) == State(Pair(p', q), None, st')
  {
    assert [0][1..] == [];
    assert [p, q][0 := p'] == [p', q];
    assert Next(Group([p, q], None, None), None, [0], ev, st, env) == (Group([p', q], None, None), st');
  }

  lemma SecondMoves(p: Proc, q: Proc, ev: Event, st: Store, env: Env, q': Proc, st': Store)
    requires Next(q, None, [], ev, st, env) == (q', st') && OutcomeOf(q', env.scope) == None
    ensures Advance(State(Pair(p, q), None, st), At([1], ev), env) == State(Pair(p, q'), None, st')
  {
    assert [1][1..] == [];
    assert [p, q][1 := q'] == [p, q'];
    assert Next(Group([p, q], None, None), None, [1], ev, st, env) == (Group([p, q'], None, None), st');
  }

  /** The first member is called and succeeds; its passed record is still to be written. */
  const firstWins: seq<Move> := [At([0], Go), At([0], Go), At([0], Go), At([0], Resolve(None))]

  lemma FirstWins(a: Step, q: Proc, st: Store, env: Env)
    requires a.Task? && AttemptLimit(a) >= 1
    ensures var (announced, st1) := Announce(a, 1, st);
            var n := announced.number;
            Play(State(Pair(Pending(a, Absolute), q), None, st), firstWins, env) ==
            State(Pair(Action(a, 0, Raced(1, n, Won(None))), q), None, CallHandler(a, 1, n, None, st1).1)
  {
    var (announced, st1) := Announce(a, 1, st);
    var n := announced.number;
    var st2 := CallHandler(a, 1, n, None, st1).1;
    var go, resolve := At([0], Go), At([0], Resolve(None));
    assert firstWins == [go] + ([go] + ([go] + [resolve]));
    FirstMoves(Pending(a, Absolute), q, Go, st, env, Action(a, 0, Ready(1)), st);
    FirstMoves(Action(a, 0, Ready(1)), q, Go, st, env, Action(a, 0, announced), st1);
    FirstMoves(Action(a, 0, announced), q, Go, st1, env, Action(a, 0, Called(1, n)), st2);
    FirstMoves(Action(a, 0, Called(1, n)), q, Resolve(None), st2, env, Action(a, 0, Raced(1, n, Won(None))), st2);
    PlayFirst(State(Pair(Pending(a, Absolute), q), None, st), go, [go] + ([go] + [resolve]), env);
    PlayFirst(State(Pair(Action(a, 0, Ready(1)), q), None, st), go, [go] + [resolve], env);
    PlayFirst(State(Pair(Action(a, 0, announced), q), None, st1), go, [resolve], env);
    PlayOne(State(Pair(Action(a, 0, Called(1, n)), q), None, st2), resolve, env);
  }

  /** The second is called and fails, and its failed record is being written. */
  const secondFails: seq<Move> :=
    [At([1], Go), At([1], Go), At([1], Go), At([1], Reject(Failure("x"))), At([1], Go)]

  lemma SecondFails(p: Proc, b: Step, st: Store, env: Env)
    requires b.Task? && b.retry == None
    ensures var (announced, st1) := Announce(b, 1, st);
            var n := announced.number;
            var st2 := CallHandler(b, 1, n, None, st1).1;
            Play(State(Pair(p, Pending(b, Absolute)), None, st), secondFails, env) ==
            State(Pair(p, Action(b, 0, Failing(1, Failure("x"), false))), None, Report(st2, b.id, n, FAILED))
  {
    var (announced, st1) := Announce(b, 1, st);
    var n := announced.number;
    var st2 := CallHandler(b, 1, n, None, st1).1;
    var lost := Raced(1, n, Lost(Failure("x")));
    var failing := Action(b, 0, Failing(1, Failure("x"), false));
    var go, reject := At([1], Go), At([1], Reject(Failure("x")));
    assert secondFails == [go] + ([go] + ([go] + ([reject] + [go])));
    SecondMoves(p, Pending(b, Absolute), Go, st, env, Action(b, 0, Ready(1)), st);
    SecondMoves(p, Action(b, 0, Ready(1)), Go, st, env, Action(b, 0, announced), st1);
    SecondMoves(p, Action(b, 0, announced), Go, st1, env, Action(b, 0, Called(1, n)), st2);
    SecondMoves(p, Action(b, 0, Called(1, n)), Reject(Failure("x")), st2, env, Action(b, 0, lost), st2);
    SecondMoves(p, Action(b, 0, lost), Go, st2, env, failing, Report(st2, b.id, n, FAILED));
    PlayFirst(State(Pair(p, Pending(b, Absolute)), None, st), go, [go] + ([go] + ([reject] + [go])), env);
    PlayFirst(State(Pair(p, Action(b, 0, Ready(1))), None, st), go, [go] + ([reject] + [go]), env);
    PlayFirst(State(Pair(p, Action(b, 0, announced)), None, st1), go, [reject] + [go], env);
    PlayFirst(State(Pair(p, Action(b, 0, Called(1, n))), None, st2), reject, [go], env);
    PlayOne(State(Pair(p, Action(b, 0, lost)), None, st2), go, env);
  }

  /** Then the passed record of the first is written, and before it has registered its
      compensation the second ends: the parallel step rejects. */
  const tooLate: seq<Move> := [At([], Go)] + (firstWins + (secondFails + [At([0], Go), At([1], Go)]))

  lemma PairStarts(id: string, a: Step, b: Step, st: Store, env: Env)
    ensures Advance(State(Run(Block([Parallel(id, None, [a, b])], Absolute)), None, st), At([], Go), env) ==
            State(Pair(Pending(a, Absolute), Pending(b, Absolute)), None, st)
  {
    var par := Parallel(id, None, [a, b]);
    var code := [Block([par], Absolute)];
    assert [par][1..] == [] && code[1..] == [];
    assert [Block([], Absolute)] + code[1..] == [Block([], Absolute)];
    assert Fetch(code, env.scope) == Some(Fetched(par, Absolute, [Block([], Absolute)]));
    assert Members(Block([a, b], Absolute), env.scope) == [Pending(a, Absolute), Pending(b, Absolute)];
    assert Next(Run(code[0]), None, [], Go, st, env).0 == Pair(Pending(a, Absolute), Pending(b, Absolute));
  }

  /** The last two moves. */
  lemma LastMoves(a: Step, b: Step, n: nat, st: Store, env: Env)
    requires a.Task? && b.Task? && b.retry == None
    ensures var raced, failing := Raced(1, n, Won(None)), Failing(1, Failure("x"), false);
            var s := Play(State(Pair(Action(a, 0, raced), Action(b, 0, failing)), None, st),
                          [At([0], Go), At([1], Go)], env);
            && OutcomeOf(s.proc, env.scope) == Some(Rejected(Failure("x"))) && s.abort == None
            && s.store == Report(st, a.id, n, PASSED)
            && s.proc == Sequence(Group([Action(a, 0, Reporting(n, None)), Action(b, 0, Ended(Rejected(Failure("x"))))],
                                        Some(Failure("x")), Some(Rejected(Failure("x")))), [Block([], Absolute)])
  {
    var raced, failing := Raced(1, n, Won(None)), Failing(1, Failure("x"), false);
    var p, q := Action(a, 0, Reporting(n, None)), Action(b, 0, failing);
    var gone := Action(b, 0, Ended(Rejected(Failure("x"))));
    var st' := Report(st, a.id, n, PASSED);
    assert [At([0], Go), At([1], Go)] == [At([0], Go)] + [At([1], Go)];
    FirstMoves(Action(a, 0, raced), q, Go, st, env, p, st');
    PlayFirst(State(Pair(Action(a, 0, raced), q), None, st), At([0], Go), [At([1], Go)], env);
    PlayOne(State(Pair(p, q), None, st'), At([1], Go), env);
    assert [1][1..] == [];
    assert Next(q, None, [], Go, st', env) == (gone, st');
    assert [p, q][1 := gone] == [p, gone];
    assert Next(Group([p, q], None, None), None, [1], Go, st', env) ==
           (Group([p, gone], Some(Failure("x")), Some(Rejected(Failure("x")))), st');
  }

  /** Where the second has failed and the first has won. */
  lemma BothRaced(id: string, a: Step, b: Step, st: Store, env: Env) returns (n: nat, st': Store)
    requires a.Task? && AttemptLimit(a) >= 1 && b.Task? && b.retry == None
    ensures var start := State(Run(Block([Parallel(id, None, [a, b])], Absolute)), None, st);
            var last := [At([0], Go), At([1], Go)];
            var raced, failing := Action(a, 0, Raced(1, n, Won(None))), Action(b, 0, Failing(1, Failure("x"), false));
            && n == CounterOf(st, a.id) + 1 && st'.compensations == st.compensations
            && Play(start, tooLate, env) == Play(State(Pair(raced, failing), None, st'), last, env)
  {
    var start := State(Run(Block([Parallel(id, None, [a, b])], Absolute)), None, st);
    var last := [At([0], Go), At([1], Go)];
    var (announced, st1) := Announce(a, 1, st);
    n := announced.number;
    var st2 := CallHandler(a, 1, n, None, st1).1;
    var first := Action(a, 0, Raced(1, n, Won(None)));
    var (announcedB, st3) := Announce(b, 1, st2);
    st' := Report(CallHandler(b, 1, announcedB.number, None, st3).1, b.id, announcedB.number, FAILED);
    PairStarts(id, a, b, st, env);
    PlayFirst(start, At([], Go), firstWins + (secondFails + last), env);
    FirstWins(a, Pending(b, Absolute), st, env);
    PlayConcat(Advance(start, At([], Go), env), firstWins, secondFails + last, env);
    SecondFails(first, b, st2, env);
    PlayConcat(State(Pair(first, Pending(b, Absolute)), None, st2), secondFails, last, env);
  }

  lemma TooLate(id: string, a: Step, b: Step, st: Store, env: Env)
    requires a.Task? && AttemptLimit(a) >= 1 && b.Task? && b.retry == None
    ensures var s := Play(State(Run(Block([Parallel(id, None, [a, b])], Absolute)), None, st), tooLate, env);
            && OutcomeOf(s.proc, env.scope) == Some(Rejected(Failure("x"))) && s.abort == None
            && s.proc == Sequence(Group([Action(a, 0, Reporting(CounterOf(st, a.id) + 1, None)),
                                         Action(b, 0, Ended(Rejected(Failure("x"))))],
                                        Some(Failure("x")), Some(Rejected(Failure("x")))), [Block([], Absolute)])
            && s.store.compensations == st.compensations
            && Find(s.store.records, a.id, CounterOf(st, a.id) + 1) == Some(PASSED)
  {
    var n, st1 := BothRaced(id, a, b, st, env);
    LastMoves(a, b, n, st1, env);
    FindUpsert(st1.records, StepRecord(a.id, n, PASSED), a.id, n);
  }

  /** A task with a compensation that runs beside a task that fails can be recorded PASSED
      and not be compensated: at the end of this schedule it still has its compensation to
      register, and the compensations of the run have been listed. */
  lemma PassedButNotCompensated(
      phases: seq<Block>, id: string, a: Step, b: Step, env: Env, w: World, now: nat, r: RunReport)
    requires a.Task? && AttemptLimit(a) >= 1 && a.compensate.Some? && b.Task? && b.retry == None
    requires |phases| == |PHASES| && phases[0] == Block([Parallel(id, None, [a, b])], Absolute)
    requires w.abort == None && w.moves(0) == tooLate && w.late == []
    ensures var end := RunPhases(phases, 0, w.abort, Fresh(now), env, w);
            && end.over && end.error == Some(Failure("x"))
            && Find(end.store.records, a.id, 1) == Some(PASSED)
            && Gather(end.proc, Unpaid) == multiset{Compensation(a.id, a.compensate.value)}
            && (Accounted(r, end, w) ==> r.compensated == [])
  {
    TooLate(id, a, b, Fresh(now), env);
    var s := Play(State(Run(phases[0]), None, Fresh(now)), tooLate, env);
    var end := RunPhases(phases, 0, w.abort, Fresh(now), env, w);
    assert end == Ending(1, Some(Failure("x")), s, env, w);
    assert Play(s, [], env) == s;
    OneUnpaid(a, b);
  }

  lemma OneUnpaid(a: Step, b: Step)
    requires a.Task? && a.compensate.Some?
    ensures Gather(Group([Action(a, 0, Reporting(1, None)), Action(b, 0, Ended(Rejected(Failure("x"))))],
                         Some(Failure("x")), Some(Rejected(Failure("x")))), Unpaid) ==
            multiset{Compensation(a.id, a.compensate.value)}
  {
    var reporting, ended := Action(a, 0, Reporting(1, None)), Action(b, 0, Ended(Rejected(Failure("x"))));
    GatherPair(reporting, ended, Unpaid);
    assert Gather(reporting, Unpaid) == multiset{Compensation(a.id, a.compensate.value)};
    assert Gather(ended, Unpaid) == multiset{};
  }
}
