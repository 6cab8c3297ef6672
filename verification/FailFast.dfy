/** What has been aborted or has failed starts no attempt; what it still does is exactly
    what was in flight. */
module FailFast {
  import opened Json
  import opened Steps
  import opened Template
  import opened Resolver
  import opened Interpreter
  import opened Moves
  import opened Attempts

  // ----- after a failure -----

  predicate Rejects(p: Proc, scope: Scope) { OutcomeOf(p, scope).Some? && OutcomeOf(p, scope).value.Rejected? }

  /** A promise that has rejected while something below it can still move has its signal
      aborted. */
  predicate Guarded(p: Proc, signal: Option<Fault>, scope: Scope)
    decreases p
  {
    match p
    case Sequence(head, _) => Guarded(head, signal, scope)
    case Loop(body, _, _) => Guarded(body, signal, scope)
    case Group(members, own, out) =>
      && (forall m | m in members :: Guarded(m, Below(own, signal), scope))
      && (out.Some? && out.value.Rejected? ==> Below(own, signal).Some?)
    case Timed(body, own, out) =>
      && Guarded(body, Below(own, signal), scope)
      && (out.Some? && out.value.Rejected? ==> Below(own, signal).Some? || Rejects(body, scope))
    case _ => true
  }

  /** Aborting a signal keeps everything below it guarded. */
  lemma {:induction false} GuardedAborted(p: Proc, signal: Option<Fault>, aborted: Option<Fault>, scope: Scope)
    requires Guarded(p, signal, scope) && (signal.Some? ==> aborted.Some?)
    ensures Guarded(p, aborted, scope)
    decreases p
  {
    match p
    case Sequence(head, _) => GuardedAborted(head, signal, aborted, scope);
    case Loop(body, _, _) => GuardedAborted(body, signal, aborted, scope);
    case Group(members, own, _) =>
      forall m | m in members ensures Guarded(m, Below(own, aborted), scope) {
        GuardedAborted(m, Below(own, signal), Below(own, aborted), scope);
      }
    case Timed(body, own, _) => GuardedAborted(body, Below(own, signal), Below(own, aborted), scope);
    case _ =>
  }

  /** A rejected promise stays rejected, with the same fault. */
  lemma {:induction false} RejectedStays(
      p: Proc, signal: Option<Fault>, addr: seq<nat>, ev: Event, st: Store, env: Env)
    requires Rejects(p, env.scope)
    ensures OutcomeOf(Next(p, signal, addr, ev, st, env).0, env.scope) == OutcomeOf(p, env.scope)
    decreases p
  {
    match p
    case Sequence(head, _) => RejectedStays(head, signal, addr, ev, st, env);
    case Loop(body, _, _) => RejectedStays(body, signal, addr, ev, st, env);
    case _ =>
  }

  lemma StartGuarded(step: Step, ctx: Ctx, st: Store, env: Env, signal: Option<Fault>)
    ensures Guarded(Start(step, ctx, st, env), signal, env.scope)
  {
    if step.Parallel? && ctx.Authored? { MembersPending(step.steps, ctx.prefix, ctx.stack, env.scope); }
    assert Guarded(StartCore(step, ctx, st, env), signal, env.scope);
  }

  lemma GroupGuarded(
      members: seq<Proc>, i: nat, m: Proc, own: Option<Fault>, out: Option<Outcome>,
      signal: Option<Fault>, scope: Scope)
    requires Guarded(Group(members, own, out), signal, scope) && i < |members|
    requires Guarded(m, Below(own, signal), scope)
    ensures Guarded(GroupAfter(members, i, m, own, out, signal, scope), signal, scope)
  {
    var after := GroupAfter(members, i, m, own, out, signal, scope);
    forall q | q in after.members ensures Guarded(q, Below(after.own, signal), scope) {
      if q != m { assert q in members; }
      GuardedAborted(q, Below(own, signal), Below(after.own, signal), scope);
    }
  }

  lemma TimerGuarded(
      body: Proc, own: Option<Fault>, out: Option<Outcome>, signal: Option<Fault>, ev: Event, st: Store, env: Env)
    requires Guarded(Timed(body, own, out), signal, env.scope)
    ensures Guarded(Next(Timed(body, own, out), signal, [], ev, st, env).0, signal, env.scope)
  {
    GuardedAborted(body, Below(own, signal), Some(Timeout), env.scope);
  }

  lemma SequenceGuarded(
      head: Proc, code: seq<Block>, signal: Option<Fault>, addr: seq<nat>, ev: Event, st: Store, env: Env)
    requires Guarded(head, signal, env.scope) && Completed(head, env.scope)
    ensures Guarded(Next(Sequence(head, code), signal, addr, ev, st, env).0, signal, env.scope)
  {
    var f := Fetch(code, env.scope);
    if f.Some? { StartGuarded(f.value.step, f.value.ctx, st, env, signal); }
  }

  /** Every move keeps the activity guarded. */
  lemma {:induction false} NextGuarded(
      p: Proc, signal: Option<Fault>, addr: seq<nat>, ev: Event, st: Store, env: Env)
    requires Guarded(p, signal, env.scope)
    ensures Guarded(Next(p, signal, addr, ev, st, env).0, signal, env.scope)
    decreases p
  {
    match p {
      case Pending(step, ctx) => StartGuarded(step, ctx, st, env, signal);
      case Sequence(head, code) =>
        if Completed(head, env.scope) {
          SequenceGuarded(head, code, signal, addr, ev, st, env);
        } else {
          NextGuarded(head, signal, addr, ev, st, env);
        }
      case Loop(body, _, _) => if !Completed(body, env.scope) { NextGuarded(body, signal, addr, ev, st, env); }
      case Group(members, own, out) =>
        if addr != [] && addr[0] < |members| {
          assert members[addr[0]] in members;
          NextGuarded(members[addr[0]], Below(own, signal), addr[1..], ev, st, env);
          var m := Next(members[addr[0]], Below(own, signal), addr[1..], ev, st, env).0;
          GroupGuarded(members, addr[0], m, own, out, signal, env.scope);
        }
      case Timed(body, own, out) =>
        if addr != [] {
          NextGuarded(body, Below(own, signal), addr[1..], ev, st, env);
          if Rejects(body, env.scope) { RejectedStays(body, Below(own, signal), addr[1..], ev, st, env); }
        } else {
          TimerGuarded(body, own, out, signal, ev, st, env);
        }
      case _ =>
    }
  }

  lemma AdvanceGuarded(s: State, m: Move, env: Env)
    requires Guarded(s.proc, s.abort, env.scope)
    ensures var t := Advance(s, m, env); Guarded(t.proc, t.abort, env.scope)
  {
    match m
    case At(addr, ev) => NextGuarded(s.proc, s.abort, addr, ev, s.store, env);
    case Abort(reason) => GuardedAborted(s.proc, s.abort, Some(reason), env.scope);
    case _ =>
  }

  lemma {:induction false} PlayGuarded(s: State, moves: seq<Move>, env: Env)
    requires Guarded(s.proc, s.abort, env.scope)
    ensures var t := Play(s, moves, env); Guarded(t.proc, t.abort, env.scope)
    decreases |moves|
  {
    if moves == [] {
    } else {
      AdvanceGuarded(s, moves[0], env);
      PlayGuarded(Advance(s, moves[0], env), moves[1..], env);
    }
  }

  // ----- activities that start nothing -----

  /** Everything below is aborted or has failed. */
  predicate Cut(p: Proc, signal: Option<Fault>, scope: Scope) {
    || signal.Some?
    || ((p.Group? || p.Timed?) && p.own.Some?)
    || (Guarded(p, signal, scope) && Rejects(p, scope))
  }

  /** A step that a move touches there sees an aborted signal, or has ended. */
  predicate Spent(t: Option<Touch>) { t.Some? ==> t.value.signal.Some? || t.value.leaf.Ended? }

  lemma {:induction false} RejectedTouch(p: Proc, signal: Option<Fault>, addr: seq<nat>, scope: Scope)
    requires Guarded(p, signal, scope) && Rejects(p, scope)
    ensures Spent(Touched(p, signal, addr, scope))
    decreases p
  {
    match p
    case Sequence(head, _) => RejectedTouch(head, signal, addr, scope);
    case Loop(body, _, _) => RejectedTouch(body, signal, addr, scope);
    case Group(members, own, _) =>
      if addr != [] && addr[0] < |members| { TouchedAborted(members[addr[0]], Below(own, signal), addr[1..], scope); }
    case Timed(body, own, _) =>
      if addr != [] {
        if Below(own, signal).Some? {
          TouchedAborted(body, Below(own, signal), addr[1..], scope);
        } else {
          RejectedTouch(body, Below(own, signal), addr[1..], scope);
        }
      }
    case _ =>
  }

  lemma CutTouch(p: Proc, signal: Option<Fault>, addr: seq<nat>, scope: Scope)
    requires Cut(p, signal, scope)
    ensures Spent(Touched(p, signal, addr, scope))
  {
    if signal.Some? {
      TouchedAborted(p, signal, addr, scope);
    } else if Guarded(p, signal, scope) && Rejects(p, scope) {
      RejectedTouch(p, signal, addr, scope);
    } else if addr != [] {
      match p
      case Group(members, own, _) =>
        if addr[0] < |members| { TouchedAborted(members[addr[0]], Below(own, signal), addr[1..], scope); }
      case Timed(body, own, _) => TouchedAborted(body, Below(own, signal), addr[1..], scope);
    }
  }

  lemma CutStays(p: Proc, signal: Option<Fault>, addr: seq<nat>, ev: Event, st: Store, env: Env)
    requires Cut(p, signal, env.scope)
    ensures Cut(Next(p, signal, addr, ev, st, env).0, signal, env.scope)
  {
    if Guarded(p, signal, env.scope) && Rejects(p, env.scope) {
      NextGuarded(p, signal, addr, ev, st, env);
      RejectedStays(p, signal, addr, ev, st, env);
    }
  }

  lemma CutAdvances(s: State, m: Move, env: Env)
    requires Cut(s.proc, s.abort, env.scope)
    ensures Cut(Advance(s, m, env).proc, Advance(s, m, env).abort, env.scope)
  {
    if m.At? { CutStays(s.proc, s.abort, m.addr, m.ev, s.store, env); }
  }

  // ----- what was in flight when it was cut -----

  /** An attempt that passed and has not left its output and compensation yet. */
  predicate Passing(leaf: Leaf) { leaf.Reporting? || (leaf.Raced? && leaf.race.Won?) }

  function OutputOf(leaf: Leaf): Option<Value>
    requires Passing(leaf)
  {
    if leaf.Reporting? then leaf.output else leaf.race.output
  }

  /** The call an announced attempt will make. */
  function CallDue(step: Step, leaf: Leaf): multiset<Invocation> {
    if leaf.Announced? && (step.Task? || step.Poll?) then multiset{Invocation(step.id, leaf.number, step.call)}
    else multiset{}
  }

  /** The compensation a passing attempt will leave. */
  function UndoDue(step: Step, leaf: Leaf): multiset<Compensation> {
    if Passing(leaf) then multiset(Undo(step)) else multiset{}
  }

  /** The output it will leave. */
  function OutputDue(step: Step, leaf: Leaf): multiset<(string, Value)> {
    if Passing(leaf) && OutputOf(leaf).Some? then multiset{(step.id, OutputOf(leaf).value)} else multiset{}
  }

  predicate CallsConserved(s: State, t: State) {
    && s.store.invoked <= t.store.invoked
    && multiset(t.store.invoked) + Gather(t.proc, CallDue) == multiset(s.store.invoked) + Gather(s.proc, CallDue)
  }

  predicate UndosConserved(s: State, t: State) {
    && s.store.compensations <= t.store.compensations
    && multiset(t.store.compensations) + Gather(t.proc, UndoDue) ==
       multiset(s.store.compensations) + Gather(s.proc, UndoDue)
  }

  /** An output changes only to one that was due. */
  predicate Delivers(s: State, t: State, id: string) {
    || Lookup(t.store.outputs, id) == Lookup(s.store.outputs, id)
    || (Lookup(t.store.outputs, id).Some? && (id, Lookup(t.store.outputs, id).value) in Gather(s.proc, OutputDue))
  }

  ghost predicate OutputsConserved(s: State, t: State) {
    Gather(t.proc, OutputDue) <= Gather(s.proc, OutputDue) && forall id: string :: Delivers(s, t, id)
  }

  /** No attempt begins; the handlers called, the compensations and outputs left are those
      that were due, each at most once. */
  ghost predicate Conserves(s: State, t: State) {
    t.store.counters == s.store.counters && CallsConserved(s, t) && UndosConserved(s, t) && OutputsConserved(s, t)
  }

  /** What a step that sees an aborted signal can do. */
  predicate SpentMove(step: Step, leaf: Leaf, st: Store, leaf': Leaf, st': Store)
    requires step.Task? || step.Poll?
  {
    && st'.counters == st.counters
    && (leaf'.Announced? ==> leaf' == leaf)
    && (if leaf.Announced? && !leaf'.Announced?
        then st'.invoked == st.invoked + [Invocation(step.id, leaf.number, step.call)]
        else st'.invoked == st.invoked)
    && (if leaf.Reporting? && !leaf'.Reporting?
        then !Passing(leaf') && st'.compensations == st.compensations + Undo(step)
             && st'.outputs == PutOutput(st, step.id, leaf.output).outputs
        else st'.compensations == st.compensations && st'.outputs == st.outputs
             && (Passing(leaf') <==> Passing(leaf)) && (Passing(leaf) ==> OutputOf(leaf') == OutputOf(leaf)))
  }

  lemma DeliverSpent(step: Step, output: Option<Value>, signal: Option<Fault>, st: Store, env: Env)
    requires (step.Task? || step.Poll?) && signal.Some?
    ensures var (leaf', st') := Deliver(step, output, signal, st, env);
            && leaf'.Ended? && st'.counters == st.counters && st'.invoked == st.invoked
            && st'.compensations == st.compensations + Undo(step)
            && st'.outputs == PutOutput(st, step.id, output).outputs
  {
    assert st.compensations + [] == st.compensations;
  }

  lemma LeafSpent(t: Touch, ev: Event, st: Store, env: Env)
    requires (t.step.Task? || t.step.Poll?) && (t.signal.Some? || t.leaf.Ended?)
    ensures var (leaf', st') := Moved(t, ev, st, env); SpentMove(t.step, t.leaf, st, leaf', st')
  {
    if t.leaf.Reporting? && ev == Go { DeliverSpent(t.step, t.leaf.output, t.signal, st, env); }
  }

  /** The leaf a move touches in an activity that is cut, and what it does. */
  predicate CutMove(s: State, addr: seq<nat>, ev: Event, env: Env, t: Touch, next: State) {
    && Tidy(s.proc, env.scope) && Touched(s.proc, s.abort, addr, env.scope) == Some(t)
    && (t.step.Task? || t.step.Poll?)
    && next == Advance(s, At(addr, ev), env)
    && SpentMove(t.step, t.leaf, s.store, Moved(t, ev, s.store, env).0, next.store)
  }

  lemma CallsMove(s: State, addr: seq<nat>, ev: Event, env: Env, t: Touch, next: State)
    requires CutMove(s, addr, ev, env, t, next)
    ensures CallsConserved(s, next)
  {
    var rest := TouchSwaps(s.proc, s.abort, addr, ev, s.store, env, t, CallDue);
  }

  lemma UndosMove(s: State, addr: seq<nat>, ev: Event, env: Env, t: Touch, next: State)
    requires CutMove(s, addr, ev, env, t, next)
    ensures UndosConserved(s, next)
  {
    var rest := TouchSwaps(s.proc, s.abort, addr, ev, s.store, env, t, UndoDue);
  }

  lemma OutputsMove(s: State, addr: seq<nat>, ev: Event, env: Env, t: Touch, next: State)
    requires CutMove(s, addr, ev, env, t, next)
    ensures OutputsConserved(s, next)
  {
    var rest := TouchSwaps(s.proc, s.abort, addr, ev, s.store, env, t, OutputDue);
    forall id: string ensures Delivers(s, next, id) {
      if t.leaf.Reporting? && t.leaf.output.Some? && t.step.id != id {
        PutElsewhere(s.store.outputs, t.step.id, t.leaf.output.value, id);
      }
    }
  }

  lemma Unmoved(s: State, next: State)
    requires SameBook(next.store, s.store)
    requires Gather(next.proc, CallDue) == Gather(s.proc, CallDue)
    requires Gather(next.proc, UndoDue) == Gather(s.proc, UndoDue)
    requires Gather(next.proc, OutputDue) == Gather(s.proc, OutputDue)
    ensures Conserves(s, next)
  {
  }

  /** A move of a step that sees an aborted signal, or of none. */
  lemma CutTouches(s: State, addr: seq<nat>, ev: Event, env: Env)
    requires Tidy(s.proc, env.scope) && Cut(s.proc, s.abort, env.scope)
    ensures match Touched(s.proc, s.abort, addr, env.scope)
            case None => Advance(s, At(addr, ev), env).store == s.store
            case Some(t) => CutMove(s, addr, ev, env, t, Advance(s, At(addr, ev), env))
  {
    MoveStore(s.proc, s.abort, addr, ev, s.store, env);
    CutTouch(s.proc, s.abort, addr, env.scope);
    var t := Touched(s.proc, s.abort, addr, env.scope);
    if t.Some? { LeafSpent(t.value, ev, s.store, env); }
  }

  lemma UntouchedConserves(s: State, addr: seq<nat>, ev: Event, env: Env, next: State)
    requires Tidy(s.proc, env.scope) && Touched(s.proc, s.abort, addr, env.scope) == None
    requires Next(s.proc, s.abort, addr, ev, s.store, env) == (next.proc, next.store) && next.store == s.store
    ensures Conserves(s, next)
  {
    SameGathered(s, addr, ev, env, next, CallDue);
    SameGathered(s, addr, ev, env, next, UndoDue);
    SameGathered(s, addr, ev, env, next, OutputDue);
    Unmoved(s, next);
  }

  lemma TouchConserves(s: State, addr: seq<nat>, ev: Event, env: Env, t: Touch, next: State)
    requires CutMove(s, addr, ev, env, t, next)
    ensures Conserves(s, next)
  {
    CallsMove(s, addr, ev, env, t, next);
    UndosMove(s, addr, ev, env, t, next);
    OutputsMove(s, addr, ev, env, t, next);
  }

  lemma MoveConserves(s: State, m: Move, env: Env)
    requires Tidy(s.proc, env.scope) && Cut(s.proc, s.abort, env.scope)
    ensures Conserves(s, Advance(s, m, env))
  {
    var next := Advance(s, m, env);
    if !m.At? {
      OtherMove(s, m, env);
      Unmoved(s, next);
    } else {
      CutTouches(s, m.addr, m.ev, env);
      match Touched(s.proc, s.abort, m.addr, env.scope)
      case None => UntouchedConserves(s, m.addr, m.ev, env, next);
      case Some(t) => TouchConserves(s, m.addr, m.ev, env, t, next);
    }
  }

  lemma ConservesThen(s: State, t: State, u: State)
    requires Conserves(s, t) && Conserves(t, u)
    ensures Conserves(s, u)
  {
    forall id: string ensures Delivers(s, u, id) {
      assert Delivers(s, t, id) && Delivers(t, u, id);
    }
  }

  lemma MoveTidy(s: State, m: Move, env: Env)
    requires Tidy(s.proc, env.scope)
    ensures Tidy(Advance(s, m, env).proc, env.scope)
  {
    MoveEffect(s, m, env);
  }

  /** What is cut begins no attempt, under any schedule: all it still does was in flight. */
  lemma {:induction false} CutConserves(s: State, moves: seq<Move>, env: Env)
    requires Tidy(s.proc, env.scope) && Cut(s.proc, s.abort, env.scope)
    ensures Conserves(s, Play(s, moves, env))
    decreases |moves|
  {
    if moves == [] {
      Unmoved(s, s);
    } else {
      var t := Advance(s, moves[0], env);
      MoveConserves(s, moves[0], env);
      MoveTidy(s, moves[0], env);
      CutAdvances(s, moves[0], env);
      CutConserves(t, moves[1..], env);
      ConservesThen(s, t, Play(t, moves[1..], env));
    }
  }

  // ----- when nothing at all happens -----

  /** Nothing new: no attempt, no call, no output, no compensation. */
  predicate Frozen(st: Store, st': Store) {
    && st'.counters == st.counters && st'.invoked == st.invoked
    && st'.outputs == st.outputs && st'.compensations == st.compensations
  }

  /** An attempt in flight that will call a handler, leave a compensation, or change an
      output. */
  predicate Harmful(step: Step, leaf: Leaf, outputs: Record) {
    || leaf.Announced?
    || (Passing(leaf) && (Undo(step) != [] || Changes(step.id, OutputOf(leaf), outputs)))
  }

  predicate Changes(id: string, output: Option<Value>, outputs: Record) {
    output.Some? && Lookup(outputs, id) != output
  }

  lemma {:induction false} PutSame(fields: Record, key: string, value: Value)
    requires Lookup(fields, key) == Some(value)
    ensures Put(fields, key, value) == fields
  {
    if fields[0].key != key { PutSame(fields[1..], key, value); }
  }

  /** The steps with a harmful attempt. */
  function Harm(outputs: Record): (Step, Leaf) -> multiset<string> {
    (step: Step, leaf: Leaf) => if Harmful(step, leaf, outputs) then multiset{step.id} else multiset{}
  }

  /** Those that a single move is enough for. */
  function HarmNow(outputs: Record): (Step, Leaf) -> multiset<string> {
    (step: Step, leaf: Leaf) => if Harmful(step, leaf, outputs) && !leaf.Raced? then multiset{step.id} else multiset{}
  }

  /** No attempt in flight is harmful. */
  predicate Still(s: State) { Gather(s.proc, Harm(s.store.outputs)) == multiset{} }

  lemma LeafHarmless(t: Touch, st: Store, leaf': Leaf, st': Store)
    requires (t.step.Task? || t.step.Poll?) && SpentMove(t.step, t.leaf, st, leaf', st')
    requires !Harmful(t.step, t.leaf, st.outputs)
    ensures Frozen(st, st') && !Harmful(t.step, leaf', st'.outputs)
  {
    if t.leaf.Reporting? && t.leaf.output.Some? { PutSame(st.outputs, t.step.id, t.leaf.output.value); }
  }

  lemma StillTouch(s: State, addr: seq<nat>, ev: Event, env: Env, t: Touch, next: State)
    requires CutMove(s, addr, ev, env, t, next) && Still(s)
    ensures Frozen(s.store, next.store) && Still(next)
  {
    var harm := Harm(s.store.outputs);
    var leaf' := Moved(t, ev, s.store, env).0;
    var rest := TouchSwaps(s.proc, s.abort, addr, ev, s.store, env, t, harm);
    assert harm(t.step, t.leaf) == multiset{};
    LeafHarmless(t, s.store, leaf', next.store);
    assert harm(t.step, leaf') == multiset{};
  }

  lemma StillAdvances(s: State, m: Move, env: Env)
    requires Tidy(s.proc, env.scope) && Cut(s.proc, s.abort, env.scope) && Still(s)
    ensures Frozen(s.store, Advance(s, m, env).store) && Still(Advance(s, m, env))
  {
    var next := Advance(s, m, env);
    if !m.At? {
      OtherMove(s, m, env);
    } else {
      CutTouches(s, m.addr, m.ev, env);
      match Touched(s.proc, s.abort, m.addr, env.scope)
      case None => SameGathered(s, m.addr, m.ev, env, next, Harm(s.store.outputs));
      case Some(t) => StillTouch(s, m.addr, m.ev, env, t, next);
    }
  }

  lemma {:induction false} StillFreezes(s: State, moves: seq<Move>, env: Env)
    requires Tidy(s.proc, env.scope) && Cut(s.proc, s.abort, env.scope) && Still(s)
    ensures Frozen(s.store, Play(s, moves, env).store)
    decreases |moves|
  {
    if moves == [] {
    } else {
      StillAdvances(s, moves[0], env);
      MoveTidy(s, moves[0], env);
      CutAdvances(s, moves[0], env);
      StillFreezes(Advance(s, moves[0], env), moves[1..], env);
    }
  }

  /** A move of an attempt that is harmful at once. */
  lemma HarmDone(t: Touch, st: Store, env: Env)
    requires (t.step.Task? || t.step.Poll?) && Harmful(t.step, t.leaf, st.outputs) && !t.leaf.Raced?
    ensures !Frozen(st, Moved(t, Go, st, env).1)
  {
    var st' := Moved(t, Go, st, env).1;
    if t.leaf.Announced? {
      assert |st'.invoked| == |st.invoked| + 1;
    } else {
      DeliverShows(t.step, t.leaf.number, t.leaf.output, t.signal, st, env);
      if Undo(t.step) != [] { assert |st'.compensations| == |st.compensations| + 1; }
    }
  }

  lemma HarmAt(s: State, addr: seq<nat>, env: Env, t: Touch)
    requires Touched(s.proc, s.abort, addr, env.scope) == Some(t) && !t.leaf.Raced?
    requires (t.step.Task? || t.step.Poll?) && Harmful(t.step, t.leaf, s.store.outputs)
    ensures !Frozen(s.store, Advance(s, At(addr, Go), env).store)
  {
    MoveStore(s.proc, s.abort, addr, Go, s.store, env);
    HarmDone(t, s.store, env);
  }

  lemma HarmSoon(s: State, env: Env) returns (moves: seq<Move>)
    requires Tidy(s.proc, env.scope) && Gather(s.proc, HarmNow(s.store.outputs)) != multiset{}
    ensures |moves| == 1 && !Frozen(s.store, Play(s, moves, env).store)
  {
    var addr, t := HarmfulNow(s, env);
    HarmAt(s, addr, env, t);
    moves := [At(addr, Go)];
    PlayOne(s, At(addr, Go), env);
  }

  lemma HarmfulNow(s: State, env: Env) returns (addr: seq<nat>, t: Touch)
    requires Tidy(s.proc, env.scope) && Gather(s.proc, HarmNow(s.store.outputs)) != multiset{}
    ensures Touched(s.proc, s.abort, addr, env.scope) == Some(t) && !t.leaf.Raced?
    ensures (t.step.Task? || t.step.Poll?) && Harmful(t.step, t.leaf, s.store.outputs)
  {
    addr := FindTouch(s.proc, s.abort, env.scope, HarmNow(s.store.outputs));
    t := Touched(s.proc, s.abort, addr, env.scope).value;
  }

  lemma HarmfulSoon(s: State, env: Env) returns (addr: seq<nat>, t: Touch)
    requires Tidy(s.proc, env.scope) && !Still(s)
    ensures Touched(s.proc, s.abort, addr, env.scope) == Some(t)
    ensures (t.step.Task? || t.step.Poll?) && Harmful(t.step, t.leaf, s.store.outputs)
  {
    addr := FindTouch(s.proc, s.abort, env.scope, Harm(s.store.outputs));
    t := Touched(s.proc, s.abort, addr, env.scope).value;
  }

  lemma WonIsRecorded(t: Touch, st: Store, env: Env)
    requires (t.step.Task? || t.step.Poll?) && Harmful(t.step, t.leaf, st.outputs) && t.leaf.Raced?
    ensures var (leaf', st') := Moved(t, Go, st, env);
            leaf'.Reporting? && st'.outputs == st.outputs && Frozen(st, st') && Harmful(t.step, leaf', st.outputs)
  {
  }

  /** A harmful attempt whose race is over needs one move to be harmful at once. */
  lemma HarmNears(s: State, addr: seq<nat>, env: Env, t: Touch)
    requires Tidy(s.proc, env.scope) && Touched(s.proc, s.abort, addr, env.scope) == Some(t) && t.leaf.Raced?
    requires (t.step.Task? || t.step.Poll?) && Harmful(t.step, t.leaf, s.store.outputs)
    ensures var next := Advance(s, At(addr, Go), env);
            Frozen(s.store, next.store) && Gather(next.proc, HarmNow(next.store.outputs)) != multiset{}
  {
    var now := HarmNow(s.store.outputs);
    MoveStore(s.proc, s.abort, addr, Go, s.store, env);
    WonIsRecorded(t, s.store, env);
    var rest := TouchSwaps(s.proc, s.abort, addr, Go, s.store, env, t, now);
    assert t.step.id in now(t.step, Moved(t, Go, s.store, env).0);
  }

  /** From an activity with a harmful attempt in flight some schedule does harm. */
  lemma HarmComes(s: State, env: Env) returns (moves: seq<Move>)
    requires Tidy(s.proc, env.scope) && !Still(s)
    ensures !Frozen(s.store, Play(s, moves, env).store)
  {
    var addr, t := HarmfulSoon(s, env);
    if t.leaf.Raced? {
      HarmNears(s, addr, env, t);
      MoveTidy(s, At(addr, Go), env);
      var more := HarmSoon(Advance(s, At(addr, Go), env), env);
      moves := [At(addr, Go)] + more;
      PlayFirst(s, At(addr, Go), more, env);
    } else {
      HarmAt(s, addr, env, t);
      moves := [At(addr, Go)];
      PlayOne(s, At(addr, Go), env);
    }
  }

  /** What is cut changes nothing under any schedule exactly when no attempt in flight
      there is harmful. */
  lemma FrozenIff(s: State, env: Env)
    requires Tidy(s.proc, env.scope) && Cut(s.proc, s.abort, env.scope)
    ensures (forall moves: seq<Move> :: Frozen(s.store, Play(s, moves, env).store)) <==> Still(s)
  {
    if Still(s) {
      forall moves: seq<Move> ensures Frozen(s.store, Play(s, moves, env).store) { StillFreezes(s, moves, env); }
    } else {
      var moves := HarmComes(s, env);
      assert !Frozen(s.store, Play(s, moves, env).store);
    }
  }

  /** A phase that has rejected, however it came there. */
  lemma PhaseFailsFast(code: Block, before: seq<Move>, after: seq<Move>, st: Store, env: Env)
    requires Rejects(Play(State(Run(code), None, st), before, env).proc, env.scope)
    ensures var s := Play(State(Run(code), None, st), before, env);
            && Conserves(s, Play(s, after, env))
            && ((forall moves: seq<Move> :: Frozen(s.store, Play(s, moves, env).store)) <==> Still(s))
            && OutcomeOf(Play(s, after, env).proc, env.scope) == OutcomeOf(s.proc, env.scope)
  {
    var start := State(Run(code), None, st);
    var s := Play(start, before, env);
    FreshRun(code, env.scope);
    HistoryExplains(start, before, env);
    PlayGuarded(start, before, env);
    CutConserves(s, after, env);
    FrozenIff(s, env);
    OutcomeStays(s, after, env);
  }

  lemma {:induction false} OutcomeStays(s: State, moves: seq<Move>, env: Env)
    requires Rejects(s.proc, env.scope)
    ensures OutcomeOf(Play(s, moves, env).proc, env.scope) == OutcomeOf(s.proc, env.scope)
    decreases |moves|
  {
    if moves == [] {
    } else {
      if moves[0].At? { RejectedStays(s.proc, s.abort, moves[0].addr, moves[0].ev, s.store, env); }
      OutcomeStays(Advance(s, moves[0], env), moves[1..], env);
    }
  }

  /** After an abort, however the run came there. */
  lemma AbortFreezesIff(code: Block, before: seq<Move>, reason: Fault, after: seq<Move>, st: Store, env: Env)
    requires Play(State(Run(code), None, st), before, env).abort == None
    ensures var s := Advance(Play(State(Run(code), None, st), before, env), Abort(reason), env);
            && Conserves(s, Play(s, after, env))
            && ((forall moves: seq<Move> :: Frozen(s.store, Play(s, moves, env).store)) <==> Still(s))
  {
    var start := State(Run(code), None, st);
    FreshRun(code, env.scope);
    HistoryExplains(start, before, env);
    var s := Advance(Play(start, before, env), Abort(reason), env);
    CutConserves(s, after, env);
    FrozenIff(s, env);
  }

  // ----- two schedules that go on after an abort -----

  /** A run of one task, once it has started. */
  function Doing(task: Step, leaf: Leaf): Proc { Sequence(Action(task, 0, leaf), [Block([], Absolute)]) }

  lemma TaskStarts(task: Step, abort: Option<Fault>, st: Store, env: Env)
    requires task.Task? && abort == None
    ensures Advance(State(Run(Block([task], Absolute)), abort, st), At([], Go), env) ==
            State(Doing(task, Ready(1)), abort, st)
  {
    var code := [Block([task], Absolute)];
    assert [task][1..] == [] && code[1..] == [];
    assert [Block([], Absolute)] + code[1..] == [Block([], Absolute)];
    assert Fetch(code, env.scope) == Some(Fetched(task, Absolute, [Block([], Absolute)]));
    assert Start(task, Absolute, st, env) == Action(task, 0, Ready(1));
    assert Next(Run(code[0]), abort, [], Go, st, env) == (Doing(task, Ready(1)), st);
  }

  lemma TaskMoves(task: Step, leaf: Leaf, abort: Option<Fault>, ev: Event, st: Store, env: Env)
    requires task.Task? && !leaf.Ended?
    ensures var (leaf', st') := LeafNext(task, 0, leaf, abort, ev, st, env);
            Advance(State(Doing(task, leaf), abort, st), At([], ev), env) == State(Doing(task, leaf'), abort, st')
  {
    var (leaf', st') := LeafNext(task, 0, leaf, abort, ev, st, env);
    assert Next(Action(task, 0, leaf), abort, [], ev, st, env) == (Action(task, 0, leaf'), st');
    assert Next(Doing(task, leaf), abort, [], ev, st, env) == (Doing(task, leaf'), st');
  }

  lemma Announces(task: Step, st: Store, env: Env)
    requires task.Task? && AttemptLimit(task) >= 1
    ensures var (leaf, st') := Announce(task, 1, st);
            Play(State(Run(Block([task], Absolute)), None, st), [At([], Go), At([], Go)], env) ==
            State(Doing(task, leaf), None, st')
  {
    var go := At([], Go);
    var start := State(Run(Block([task], Absolute)), None, st);
    assert [go, go] == [go] + [go];
    PlayFirst(start, go, [go], env);
    TaskStarts(task, None, st, env);
    PlayOne(State(Doing(task, Ready(1)), None, st), go, env);
    TaskMoves(task, Ready(1), None, Go, st, env);
  }

  /** A run of one task, aborted while its running record is written: the handler is
      called nevertheless. */
  lemma CalledAfterAbort(task: Step, reason: Fault, st: Store, env: Env)
    requires task.Task? && AttemptLimit(task) >= 1
    ensures var s := Play(State(Run(Block([task], Absolute)), None, st), [At([], Go), At([], Go)], env);
            var aborted := Advance(s, Abort(reason), env);
            && aborted.abort.Some? && aborted.store.invoked == st.invoked
            && Advance(aborted, At([], Go), env).store.invoked ==
               st.invoked + [Invocation(task.id, CounterOf(st, task.id) + 1, task.call)]
  {
    var (leaf, st') := Announce(task, 1, st);
    Announces(task, st, env);
    TaskMoves(task, leaf, Some(reason), Go, st', env);
  }

  /** A started task whose handler is called and succeeds: its passed record is begun. */
  lemma Succeeds(task: Step, leaf: Leaf, output: Value, st: Store, env: Env)
    requires task.Task? && leaf.Announced? && leaf.attempt == 1
    ensures var n, go := leaf.number, At([], Go);
            var called := CallHandler(task, 1, n, None, st).1;
            Play(State(Doing(task, leaf), None, st), [go, At([], Resolve(Some(output))), go], env) ==
            State(Doing(task, Reporting(n, Some(output))), None, Report(called, task.id, n, PASSED))
  {
    var n, go, resolve := leaf.number, At([], Go), At([], Resolve(Some(output)));
    var (called, st2) := CallHandler(task, 1, n, None, st);
    var won := Raced(1, n, Won(Some(output)));
    assert [go, resolve, go] == [go] + [resolve, go] && [resolve, go] == [resolve] + [go];
    PlayFirst(State(Doing(task, leaf), None, st), go, [resolve, go], env);
    TaskMoves(task, leaf, None, Go, st, env);
    PlayFirst(State(Doing(task, called), None, st2), resolve, [go], env);
    TaskMoves(task, called, None, Resolve(Some(output)), st2, env);
    PlayOne(State(Doing(task, won), None, st2), go, env);
    TaskMoves(task, won, None, Go, st2, env);
  }

  /** Aborted while its passed record is written: its output and its compensation are
      left nevertheless. */
  lemma DeliveredAfterAbort(task: Step, output: Value, reason: Fault, st: Store, env: Env)
    requires task.Task? && AttemptLimit(task) >= 1 && task.compensate.Some?
    ensures var go := At([], Go);
            var s := Play(Play(State(Run(Block([task], Absolute)), None, st), [go, go], env),
                          [go, At([], Resolve(Some(output))), go], env);
            var aborted := Advance(s, Abort(reason), env);
            && aborted.abort.Some?
            && aborted.store.outputs == st.outputs && aborted.store.compensations == st.compensations
            && Advance(aborted, go, env).store.outputs == Put(st.outputs, task.id, output)
            && Advance(aborted, go, env).store.compensations ==
               st.compensations + [Compensation(task.id, task.compensate.value)]
  {
    var (leaf, st1) := Announce(task, 1, st);
    var n := leaf.number;
    var st3 := Report(CallHandler(task, 1, n, None, st1).1, task.id, n, PASSED);
    Announces(task, st, env);
    Succeeds(task, leaf, output, st1, env);
    TaskMoves(task, Reporting(n, Some(output)), Some(reason), Go, st3, env);
  }
}
