/** The life of a run: phases in order, then compensations and cleanups. */
module Lifecycle {
  import opened Json
  import opened Steps
  import opened Template
  import opened Resolver
  import opened Interpreter

  datatype RunStatus =
    | CREATED | VALIDATING | ALLOCATING | COMPILING | CONFIGURING | RUNNING_PHASE | OBSERVING | ASSERTING
    | RUN_PASSED | RUN_FAILED | CANCELLING | RUN_CANCELLED | CLEANUP

  /** The transition table. */
  function Successors(s: RunStatus): set<RunStatus> {
    match s
    case CREATED => {VALIDATING, CANCELLING}
    case VALIDATING => {ALLOCATING, RUN_FAILED, CANCELLING}
    case ALLOCATING => {COMPILING, RUN_FAILED, CANCELLING}
    case COMPILING => {CONFIGURING, RUN_FAILED, CANCELLING}
    case CONFIGURING => {RUNNING_PHASE, RUN_FAILED, CANCELLING}
    case RUNNING_PHASE => {OBSERVING, RUN_FAILED, CANCELLING}
    case OBSERVING => {ASSERTING, RUN_FAILED, CANCELLING}
    case ASSERTING => {RUN_PASSED, RUN_FAILED, CANCELLING}
    case RUN_PASSED => {CLEANUP}
    case RUN_FAILED => {CLEANUP}
    case CANCELLING => {RUN_CANCELLED}
    case RUN_CANCELLED => {CLEANUP}
    case CLEANUP => {RUN_PASSED, RUN_FAILED, RUN_CANCELLED}
  }

  predicate Terminal(s: RunStatus) { s == RUN_PASSED || s == RUN_FAILED || s == RUN_CANCELLED }

  class RunStateMachine {
    var status: RunStatus

    constructor ()
      ensures status == CREATED
    {
      status := CREATED;
    }

    predicate CanTransition(next: RunStatus)
      reads this
    {
      next in Successors(status)
    }

    /** Move to `next`; an illegal move is refused and changes nothing. */
    method Transition(next: RunStatus) returns (ok: bool)
      modifies this
      ensures ok == old(CanTransition(next))
      ensures status == if ok then next else old(status)
    {
      ok := CanTransition(next);
      if ok { status := next; }
    }
  }

  /** Consecutive statuses follow the table. */
  predicate LegalPath(from: RunStatus, path: seq<RunStatus>)
    decreases path
  {
    path == [] || (path[0] in Successors(from) && LegalPath(path[0], path[1..]))
  }

  const PHASES: seq<RunStatus> := [ALLOCATING, COMPILING, CONFIGURING, RUNNING_PHASE, OBSERVING, ASSERTING]

  /** The place of a status on the way of a run that meets no obstacle. */
  function Place(s: RunStatus): Option<nat> {
    match s
    case CREATED => Some(0)
    case VALIDATING => Some(1)
    case ALLOCATING => Some(2)
    case COMPILING => Some(3)
    case CONFIGURING => Some(4)
    case RUNNING_PHASE => Some(5)
    case OBSERVING => Some(6)
    case ASSERTING => Some(7)
    case RUN_PASSED => Some(8)
    case _ => None
  }

  predicate Underway(s: RunStatus) { Place(s).Some? && s != RUN_PASSED }

  /** The whole table: a run goes on step by step along that way, can be cancelled until its
      end and, once it validates, fail; a cancelled one is first cancelling; then comes
      CLEANUP, and after it the reported status. */
  lemma TransitionIff(s: RunStatus, next: RunStatus)
    ensures next in Successors(s) <==>
            || (Underway(s) && Place(next) == Some(Place(s).value + 1))
            || (Underway(s) && next == CANCELLING)
            || (Underway(s) && s != CREATED && next == RUN_FAILED)
            || (s == CANCELLING && next == RUN_CANCELLED)
            || (Terminal(s) && next == CLEANUP)
            || (s == CLEANUP && Terminal(next))
    ensures forall i | 0 <= i < |PHASES| :: Place(PHASES[i]) == Some(i + 2)
  {
  }

  // ----- what the environment does -----

  /** A compensation handler ran: it may register cleanups and it may fail. */
  datatype Attempted = Attempted(registered: seq<Cleanup>, error: Option<Fault>)

  /** A cleanup ran, and its lease, if it has one, was reported released: either may
      fail. Meanwhile others may register cleanups. */
  datatype Cleaned = Cleaned(error: Option<Fault>, releaseError: Option<Fault>, registered: seq<Cleanup>)

  /** Everything a run depends on: an abort before it starts, the schedule of each phase
      until the run goes on from it, what still moves from then until the compensations
      are due, and how compensations and cleanups go. */
  datatype World = World(
    abort: Option<Fault>,
    moves: nat -> seq<Move>,
    late: seq<Move>,
    compensate: nat -> Attempted,
    clean: nat -> Cleaned)

  // ----- the phases -----

  /** How the phases ended: how many were entered, the error thrown, the abort when it was
      caught, and what is left behind when the compensations are due: the store, and the
      activities that are still going. `over` is false when a phase has not settled. */
  datatype PhasesEnd = PhasesEnd(
    entered: nat, over: bool, error: Option<Fault>, abort: Option<Fault>, store: Store, proc: Proc)

  function Ending(entered: nat, error: Option<Fault>, s: State, env: Env, w: World): PhasesEnd {
    var t := Play(s, w.late, env);
    PhasesEnd(entered, true, error, s.abort, t.store, t.proc)
  }

  function RunPhases(phases: seq<Block>, i: nat, abort: Option<Fault>, store: Store, env: Env, w: World): PhasesEnd
    requires |phases| == |PHASES| && i <= |PHASES|
    decreases |PHASES| - i
  {
    var idle := State(Settled(Fulfilled), abort, store);
    if i == |PHASES| then Ending(i, None, idle, env, w)
    else if abort.Some? then Ending(i, Some(Thrown(abort.value)), idle, env, w)
    else
      var s := Play(State(Run(phases[i]), abort, store), w.moves(i), env);
      match OutcomeOf(s.proc, env.scope)
      case None => PhasesEnd(i + 1, false, None, s.abort, s.store, s.proc)
      case Some(Rejected(f)) => Ending(i + 1, Some(f), s, env, w)
      case Some(Fulfilled) => RunPhases(phases, i + 1, s.abort, s.store, env, w)
  }

  function OutcomeStatus(end: PhasesEnd): RunStatus {
    match end.error
    case None => RUN_PASSED
    case Some(f) => if IsCancellation(f, end.abort) then RUN_CANCELLED else RUN_FAILED
  }

  // ----- cleaning up -----

  function Reverse<T>(s: seq<T>): (r: seq<T>)
    ensures |r| == |s|
    ensures forall i | 0 <= i < |s| :: r[i] == s[|s| - 1 - i]
  {
    if s == [] then [] else Reverse(s[1..]) + [s[0]]
  }

  /** Cleanups registered by the first `n` compensations. */
  function RegisteredBy(w: World, n: nat): seq<Cleanup> {
    if n == 0 then [] else RegisteredBy(w, n - 1) + w.compensate(n - 1).registered
  }

  function CompensationErrors(w: World, n: nat): seq<Fault> {
    if n == 0 then []
    else CompensationErrors(w, n - 1) + match w.compensate(n - 1).error case Some(f) => [f] case None => []
  }

  /** The error the i-th cleanup contributes, if any. */
  function EntryError(c: Cleanup, done: Cleaned): Option<Fault> {
    if done.error.Some? then done.error else if c.lease.Some? then done.releaseError else None
  }

  function CleanupErrors(entries: seq<Cleanup>, w: World, n: nat): seq<Fault>
    requires n <= |entries|
  {
    if n == 0 then []
    else
      CleanupErrors(entries, w, n - 1) +
      match EntryError(entries[n - 1], w.clean(n - 1)) case Some(f) => [f] case None => []
  }

  /** The leases reported released by the first `n` cleanups. */
  function Released(entries: seq<Cleanup>, w: World, n: nat): seq<string>
    requires n <= |entries|
  {
    if n == 0 then []
    else
      Released(entries, w, n - 1) +
      if entries[n - 1].lease.Some? && EntryError(entries[n - 1], w.clean(n - 1)).None?
      then [entries[n - 1].lease.value]
      else []
  }

  datatype RunReport = RunReport(
    status: RunStatus,
    statuses: seq<RunStatus>,
    error: Option<Fault>,
    compensated: seq<Compensation>,
    cleaned: seq<Cleanup>,
    released: seq<string>,
    cleanupErrors: seq<Fault>)

  /** From the phases through the outcome to CLEANUP. */
  function Leaving(outcome: RunStatus): seq<RunStatus> {
    if outcome == RUN_CANCELLED then [CANCELLING, outcome, CLEANUP] else [outcome, CLEANUP]
  }

  /** What a run emits: VALIDATING, the phases entered, the outcome, one CLEANUP, and
      the reported status. */
  function Emitted(entered: nat, outcome: RunStatus, status: RunStatus): seq<RunStatus>
    requires entered <= |PHASES|
  {
    [VALIDATING] + (PHASES[..entered] + (Leaving(outcome) + [status]))
  }

  /** The cleanups that are due, oldest first: those registered in the phases and by compensations. */
  function Due(end: PhasesEnd, w: World): seq<Cleanup> {
    end.store.cleanups + RegisteredBy(w, if end.error.None? then 0 else |end.store.compensations|)
  }

  /** Compensations run when the phases threw, newest first. */
  function Compensations(end: PhasesEnd): seq<Compensation> {
    if end.error.None? then [] else Reverse(end.store.compensations)
  }

  /** What a finished run must say of its compensations, cleanups and leases. */
  predicate CleanedUp(
      compensated: seq<Compensation>, cleaned: seq<Cleanup>, released: seq<string>, errors: seq<Fault>,
      end: PhasesEnd, w: World)
  {
    var entries := Reverse(Due(end, w));
    && compensated == Compensations(end)
    && cleaned == entries
    && released == Released(entries, w, |entries|)
    && errors == CompensationErrors(w, |Compensations(end)|) + CleanupErrors(entries, w, |entries|)
  }

  /** The account a finished run must give. */
  predicate Accounted(r: RunReport, end: PhasesEnd, w: World) {
    && end.entered <= |PHASES|
    && r.error == end.error
    && r.statuses == Emitted(end.entered, OutcomeStatus(end), r.status)
    && CleanedUp(r.compensated, r.cleaned, r.released, r.cleanupErrors, end, w)
    && r.status == if r.cleanupErrors != [] && OutcomeStatus(end) == RUN_PASSED then RUN_FAILED else OutcomeStatus(end)
  }

  /** The status in which `i` phases have been entered. */
  function Reached(i: nat): RunStatus
    requires i <= |PHASES|
  {
    if i == 0 then VALIDATING else PHASES[i - 1]
  }

  /** The loop over the phases; `entered` phases were entered. */
  method EnterPhases(state: RunStateMachine, phases: seq<Block>, store: Store, env: Env, w: World)
      returns (end: PhasesEnd)
    requires |phases| == |PHASES| && state.status == VALIDATING
    modifies state
    ensures end == RunPhases(phases, 0, w.abort, store, env, w)
    ensures end.entered <= |PHASES| && (end.over && end.error.None? ==> end.entered == |PHASES|)
    ensures state.status == Reached(end.entered)
  {
    var abort, st := w.abort, store;
    var i := 0;
    while i < |PHASES|
      invariant 0 <= i <= |PHASES|
      invariant state.status == Reached(i)
      invariant RunPhases(phases, 0, w.abort, store, env, w) == RunPhases(phases, i, abort, st, env, w)
    {
      if abort.Some? {
        return Ending(i, Some(Thrown(abort.value)), State(Settled(Fulfilled), abort, st), env, w);
      }
      PhaseExits(i);
      var ok := state.Transition(PHASES[i]);
      assert ok;
      var s := Play(State(Run(phases[i]), abort, st), w.moves(i), env);
      match OutcomeOf(s.proc, env.scope) {
        case None => return PhasesEnd(i + 1, false, None, s.abort, s.store, s.proc);
        case Some(Rejected(f)) => return Ending(i + 1, Some(f), s, env, w);
        case Some(Fulfilled) =>
      }
      abort, st := s.abort, s.store;
      i := i + 1;
    }
    end := Ending(i, None, State(Settled(Fulfilled), abort, st), env, w);
  }

  /** Run the compensations in `pending`; they may register more cleanups. */
  method Compensate(pending: seq<Compensation>, registered: seq<Cleanup>, w: World)
      returns (compensated: seq<Compensation>, cleanups: seq<Cleanup>, errors: seq<Fault>)
    ensures compensated == pending
    ensures cleanups == registered + RegisteredBy(w, |pending|)
    ensures errors == CompensationErrors(w, |pending|)
  {
    compensated, cleanups, errors := [], registered, [];
    var k := 0;
    while k < |pending|
      invariant 0 <= k <= |pending|
      invariant compensated == pending[..k]
      invariant cleanups == registered + RegisteredBy(w, k)
      invariant errors == CompensationErrors(w, k)
    {
      var done := w.compensate(k);
      compensated := compensated + [pending[k]];
      cleanups := cleanups + done.registered;
      if done.error.Some? { errors := errors + [done.error.value]; }
      k := k + 1;
    }
  }

  /** Run the cleanups in `entries`, each once and whatever the others do. What is
      registered meanwhile comes too late. */
  method RunCleanups(entries: seq<Cleanup>, earlier: seq<Fault>, w: World)
      returns (cleaned: seq<Cleanup>, released: seq<string>, errors: seq<Fault>)
    ensures cleaned == entries
    ensures released == Released(entries, w, |entries|)
    ensures errors == earlier + CleanupErrors(entries, w, |entries|)
  {
    cleaned, released, errors := [], [], earlier;
    var j := 0;
    while j < |entries|
      invariant 0 <= j <= |entries|
      invariant cleaned == entries[..j]
      invariant released == Released(entries, w, j)
      invariant errors == earlier + CleanupErrors(entries, w, j)
    {
      cleaned := cleaned + [entries[j]];
      var failure := EntryError(entries[j], w.clean(j));
      if failure.Some? {
        errors := errors + [failure.value];
      } else if entries[j].lease.Some? {
        released := released + [entries[j].lease.value];
      }
      j := j + 1;
    }
  }

  /** Compensations when the outcome is not a pass, then every cleanup registered until
      now, newest first. */
  method CleanUp(end: PhasesEnd, w: World)
      returns (compensated: seq<Compensation>, cleaned: seq<Cleanup>, released: seq<string>, errors: seq<Fault>)
    ensures CleanedUp(compensated, cleaned, released, errors, end, w)
  {
    var pending := if OutcomeStatus(end) != RUN_PASSED then Reverse(end.store.compensations) else [];
    var cleanups;
    compensated, cleanups, errors := Compensate(pending, end.store.cleanups, w);
    assert cleanups == Due(end, w);
    cleaned, released, errors := RunCleanups(Reverse(cleanups), errors, w);
  }

  /** From any point of the phases a run can fail or be cancelled; it can pass from the last. */
  lemma PhaseExits(i: nat)
    requires i <= |PHASES|
    ensures RUN_FAILED in Successors(Reached(i)) && CANCELLING in Successors(Reached(i))
    ensures i < |PHASES| ==> PHASES[i] in Successors(Reached(i))
    ensures i == |PHASES| ==> RUN_PASSED in Successors(Reached(i))
  {
  }

  /** Leave the phases with `outcome` and enter CLEANUP. */
  method LeavePhases(state: RunStateMachine, outcome: RunStatus) returns (statuses: seq<RunStatus>)
    requires Terminal(outcome)
    requires (if outcome == RUN_CANCELLED then CANCELLING else outcome) in Successors(state.status)
    modifies state
    ensures state.status == CLEANUP
    ensures statuses == Leaving(outcome)
  {
    statuses := [];
    if outcome == RUN_CANCELLED {
      var ok := state.Transition(CANCELLING);
      assert ok;
      statuses := [CANCELLING];
    }
    var ok := state.Transition(outcome);
    assert ok;
    ok := state.Transition(CLEANUP);
    assert ok;
    statuses := statuses + [outcome, CLEANUP];
  }

  /** What follows the phases, however they ended. */
  method Conclude(state: RunStateMachine, end: PhasesEnd, w: World) returns (report: RunReport)
    requires end.entered <= |PHASES| && (end.error.None? ==> end.entered == |PHASES|)
    requires state.status == Reached(end.entered)
    modifies state
    ensures Accounted(report, end, w) && state.status == report.status
  {
    PhaseExits(end.entered);
    var outcome := OutcomeStatus(end);
    var leaving := LeavePhases(state, outcome);
    var compensated, cleaned, released, errors := CleanUp(end, w);
    var status := if errors != [] && outcome == RUN_PASSED then RUN_FAILED else outcome;
    var ok := state.Transition(status);
    assert ok;
    var statuses := [VALIDATING] + (PHASES[..end.entered] + (leaving + [status]));
    report := RunReport(status, statuses, end.error, compensated, cleaned, released, errors);
  }

  /** `executeScenario`. `None` means a phase is still in progress. */
  method ExecuteScenario(phases: seq<Block>, store: Store, env: Env, w: World) returns (report: Option<RunReport>)
    requires |phases| == |PHASES|
    ensures var end := RunPhases(phases, 0, w.abort, store, env, w);
            (report.Some? <==> end.over) && (report.Some? ==> Accounted(report.value, end, w))
    ensures report.Some? ==>
              var path := report.value.statuses;
              && LegalPath(CREATED, path) && path[0] == VALIDATING && Occurrences(path, CLEANUP) == 1
              && path[|path| - 1] == report.value.status && Terminal(report.value.status)
    ensures report.Some? ==>
              var end, r := RunPhases(phases, 0, w.abort, store, env, w), report.value;
              && r.error == end.error
              && (r.status == RUN_CANCELLED <==> ThrewCancelled(end.error, end.abort))
              && (r.status == RUN_FAILED <==>
                    (end.error.Some? && !ThrewCancelled(end.error, end.abort))
                    || (end.error.None? && r.cleanupErrors != []))
              && (CANCELLING in r.statuses <==> r.status == RUN_CANCELLED)
  {
    var state := new RunStateMachine();
    var ok := state.Transition(VALIDATING);
    assert ok;
    var end := EnterPhases(state, phases, store, env, w);
    if !end.over { return None; }
    var r := Conclude(state, end, w);
    PathIsLegal(r, end, w);
    StatusIff(r, end, w);
    report := Some(r);
  }

  /** The phases threw, and what they threw is a cancellation, or the signal of the run had
      been aborted for another reason than its timeout. */
  predicate ThrewCancelled(error: Option<Fault>, abort: Option<Fault>) {
    error.Some? && (error == Some(Cancelled) || (abort.Some? && abort != Some(Timeout)))
  }

  lemma PathShows(entered: nat, outcome: RunStatus, status: RunStatus)
    requires entered <= |PHASES| && Terminal(outcome) && Terminal(status)
    ensures CANCELLING in Emitted(entered, outcome, status) <==> outcome == RUN_CANCELLED
  {
    var head, rest := PHASES[..entered], Leaving(outcome) + [status];
    assert CANCELLING !in head && (CANCELLING in rest <==> outcome == RUN_CANCELLED);
    assert Emitted(entered, outcome, status) == [VALIDATING] + (head + rest);
  }

  /** What the phases threw, and the reason the run's signal was aborted for by then, tell
      a cancelled run from a failed one. */
  lemma StatusIff(r: RunReport, end: PhasesEnd, w: World)
    requires Accounted(r, end, w)
    ensures r.status == RUN_CANCELLED <==> ThrewCancelled(end.error, end.abort)
    ensures r.status == RUN_FAILED <==>
              (end.error.Some? && !ThrewCancelled(end.error, end.abort))
              || (end.error.None? && r.cleanupErrors != [])
    ensures CANCELLING in r.statuses <==> r.status == RUN_CANCELLED
  {
    PathShows(end.entered, OutcomeStatus(end), r.status);
  }

  // ----- what the account means -----

  lemma {:induction false} LegalConcat(from: RunStatus, a: seq<RunStatus>, b: seq<RunStatus>)
    requires LegalPath(from, a) && LegalPath(if a == [] then from else a[|a| - 1], b)
    ensures LegalPath(from, a + b)
    decreases a
  {
    if a == [] {
      assert a + b == b;
    } else {
      assert (a + b)[1..] == a[1..] + b;
      LegalConcat(a[0], a[1..], b);
    }
  }

  lemma {:induction false} PhasesLegal(i: nat)
    requires i <= |PHASES|
    ensures LegalPath(VALIDATING, PHASES[..i])
    ensures Reached(i) == if i == 0 then VALIDATING else PHASES[..i][i - 1]
  {
    if i == 0 {
    } else {
      PhasesLegal(i - 1);
      PhaseExits(i - 1);
      assert PHASES[..i] == PHASES[..i - 1] + [PHASES[i - 1]];
      LegalConcat(VALIDATING, PHASES[..i - 1], [PHASES[i - 1]]);
    }
  }

  lemma LeavingLegal(from: RunStatus, outcome: RunStatus, status: RunStatus)
    requires Terminal(outcome) && Terminal(status)
    requires (if outcome == RUN_CANCELLED then CANCELLING else outcome) in Successors(from)
    ensures LegalPath(from, Leaving(outcome) + [status])
  {
    var tail := [CLEANUP, status];
    assert tail[1..] == [status] && [status][1..] == [];
    assert LegalPath(outcome, tail);
    assert ([outcome] + tail)[1..] == tail;
    if outcome == RUN_CANCELLED {
      assert LegalPath(CANCELLING, [outcome] + tail);
      assert Leaving(outcome) + [status] == [CANCELLING] + ([outcome] + tail);
      assert ([CANCELLING] + ([outcome] + tail))[1..] == [outcome] + tail;
    } else {
      assert Leaving(outcome) + [status] == [outcome] + tail;
    }
  }

  function Occurrences(path: seq<RunStatus>, s: RunStatus): nat {
    if path == [] then 0 else (if path[0] == s then 1 else 0) + Occurrences(path[1..], s)
  }

  lemma {:induction false} OccurrencesConcat(a: seq<RunStatus>, b: seq<RunStatus>, s: RunStatus)
    ensures Occurrences(a + b, s) == Occurrences(a, s) + Occurrences(b, s)
  {
    if a == [] {
      assert a + b == b;
    } else {
      assert (a + b)[1..] == a[1..] + b;
      OccurrencesConcat(a[1..], b, s);
    }
  }

  lemma {:induction false} NoOccurrence(path: seq<RunStatus>, s: RunStatus)
    requires s !in path
    ensures Occurrences(path, s) == 0
  {
    if path == [] {
    } else {
      NoOccurrence(path[1..], s);
    }
  }

  lemma OneCleanup(entered: nat, outcome: RunStatus, status: RunStatus)
    requires entered <= |PHASES| && Terminal(outcome) && Terminal(status)
    ensures Occurrences(Emitted(entered, outcome, status), CLEANUP) == 1
  {
    var before, after := if outcome == RUN_CANCELLED then [CANCELLING, outcome] else [outcome], [CLEANUP, status];
    NoOccurrence([VALIDATING], CLEANUP);
    NoOccurrence(PHASES[..entered], CLEANUP);
    NoOccurrence(before, CLEANUP);
    NoOccurrence([status], CLEANUP);
    assert after[1..] == [status];
    assert Leaving(outcome) + [status] == before + after;
    OccurrencesConcat(before, after, CLEANUP);
    OccurrencesConcat(PHASES[..entered], before + after, CLEANUP);
    OccurrencesConcat([VALIDATING], PHASES[..entered] + (before + after), CLEANUP);
  }

  lemma EveryPathLegal(entered: nat, outcome: RunStatus, status: RunStatus)
    requires entered <= |PHASES| && Terminal(outcome) && Terminal(status)
    requires outcome == RUN_PASSED ==> entered == |PHASES|
    ensures LegalPath(CREATED, Emitted(entered, outcome, status))
  {
    var head, ending := PHASES[..entered], Leaving(outcome) + [status];
    PhasesLegal(entered);
    PhaseExits(entered);
    LeavingLegal(Reached(entered), outcome, status);
    LegalConcat(VALIDATING, head, ending);
    assert Emitted(entered, outcome, status)[1..] == head + ending;
  }

  /** Whatever fails and whenever: the statuses emitted follow the table from CREATED,
      start with VALIDATING, contain CLEANUP once, and end with the reported status,
      which is terminal. */
  lemma PathIsLegal(r: RunReport, end: PhasesEnd, w: World)
    requires end.over && Accounted(r, end, w)
    requires end.error.None? ==> end.entered == |PHASES|
    ensures LegalPath(CREATED, r.statuses)
    ensures r.statuses[0] == VALIDATING && Occurrences(r.statuses, CLEANUP) == 1
    ensures r.statuses[|r.statuses| - 1] == r.status && Terminal(r.status)
  {
    OneCleanup(end.entered, OutcomeStatus(end), r.status);
    EveryPathLegal(end.entered, OutcomeStatus(end), r.status);
  }

  /** A cleanup succeeds if it does not fail itself and its lease, if it has one, can be
      reported released. */
  predicate Succeeds(c: Cleanup, done: Cleaned) { done.error.None? && (c.lease.Some? ==> done.releaseError.None?) }

  lemma {:induction false} NoCleanupErrors(entries: seq<Cleanup>, w: World, n: nat)
    requires n <= |entries|
    ensures CleanupErrors(entries, w, n) == [] <==> forall i | 0 <= i < n :: Succeeds(entries[i], w.clean(i))
  {
    if n == 0 {
    } else {
      NoCleanupErrors(entries, w, n - 1);
    }
  }

  /** A run is reported PASSED exactly when nothing was thrown in its phases and no
      cleanup that was due failed. */
  lemma PassedIff(r: RunReport, end: PhasesEnd, w: World)
    requires end.over && Accounted(r, end, w)
    ensures r.status == RUN_PASSED <==> r.error.None? && r.cleanupErrors == []
    ensures r.status == RUN_PASSED <==>
              r.error.None? &&
              forall i | 0 <= i < |r.cleaned| :: Succeeds(r.cleaned[i], w.clean(i))
  {
    NoCleanupErrors(r.cleaned, w, |r.cleaned|);
  }

  function Failures(entries: seq<Cleanup>, w: World, n: nat): nat
    requires n <= |entries|
  {
    if n == 0 then 0
    else Failures(entries, w, n - 1) + if Succeeds(entries[n - 1], w.clean(n - 1)) then 0 else 1
  }

  /** `f` is the error of the cleanup, or that of reporting its lease released. */
  predicate FailedWith(c: Cleanup, done: Cleaned, f: Fault) {
    done.error == Some(f) || (done.error.None? && c.lease.Some? && done.releaseError == Some(f))
  }

  /** Every cleanup due ran exactly once, in reverse order of registration, and each
      lease among them was either reported released or accounts for one error. */
  lemma {:induction false} LeasesAccounted(entries: seq<Cleanup>, w: World, n: nat)
    requires n <= |entries|
    ensures |CleanupErrors(entries, w, n)| == Failures(entries, w, n)
    ensures forall f | f in CleanupErrors(entries, w, n) ::
              exists i :: 0 <= i < n && FailedWith(entries[i], w.clean(i), f)
    ensures forall i | 0 <= i < n && entries[i].lease.Some? ::
              Succeeds(entries[i], w.clean(i)) ==> entries[i].lease.value in Released(entries, w, n)
    ensures forall l | l in Released(entries, w, n) ::
              exists i :: 0 <= i < n && entries[i].lease == Some(l) && Succeeds(entries[i], w.clean(i))
  {
    if n == 0 {
    } else {
      LeasesAccounted(entries, w, n - 1);
    }
  }
}
