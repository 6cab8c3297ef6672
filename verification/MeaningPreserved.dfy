/** Fragment resolution preserves meaning: running the resolved tree and running the
    authored steps with every fragment in place agree under every schedule. */
module MeaningPreserved {
  import opened Json
  import opened Template
  import opened Steps
  import opened Resolver
  import opened Interpreter
  import Depth

  // ----- what an activity of the authored run looks like once resolved -----

  /** The steps of a block, resolved. */
  function CloseBlock(b: Block, scope: Scope): Result<seq<Step>> {
    match b.ctx
    case Absolute => Ok(b.steps)
    case Authored(prefix, stack) => Inline(b.steps, scope, stack, prefix)
  }

  function CloseCode(code: seq<Block>, scope: Scope): Result<seq<Step>> {
    if code == [] then Ok([])
    else
      var head :- CloseBlock(code[0], scope);
      var tail :- CloseCode(code[1..], scope);
      Ok(head + tail)
  }

  function CloseStep(step: Step, ctx: Ctx, scope: Scope): Result<Step> {
    match ctx
    case Absolute => Ok(step)
    case Authored(prefix, stack) => InlineChildren(step, step, step.id, scope, stack)
  }

  /** Ids of nested steps are read below the id of the step itself. */
  predicate Anchored(step: Step, ctx: Ctx) { ctx.Authored? ==> ctx.prefix == step.id && !step.Fragment? }

  /** Everything the activity still has to run resolves. */
  predicate Resolves(p: Proc, scope: Scope) {
    match p
    case Settled(_) => true
    case Pending(step, ctx) => Anchored(step, ctx) && CloseStep(step, ctx, scope).Ok?
    case Action(_, _, _) => true
    case Sequence(head, code) => Resolves(head, scope) && CloseCode(code, scope).Ok?
    case Loop(body, _, again) => Resolves(body, scope) && CloseBlock(again, scope).Ok?
    case Group(members, _, _) => forall m | m in members :: Resolves(m, scope)
    case Timed(body, _, _) => Resolves(body, scope)
  }

  function Resolved(p: Proc, scope: Scope): Proc
    requires Resolves(p, scope)
  {
    match p
    case Settled(_) => p
    case Pending(step, ctx) => Pending(CloseStep(step, ctx, scope).value, Absolute)
    case Action(_, _, _) => p
    case Sequence(head, code) => Sequence(Resolved(head, scope), [Block(CloseCode(code, scope).value, Absolute)])
    case Loop(body, left, again) => Loop(Resolved(body, scope), left, Block(CloseBlock(again, scope).value, Absolute))
    case Group(members, own, out) => Group(ResolvedAll(members, scope), own, out)
    case Timed(body, own, out) => Timed(Resolved(body, scope), own, out)
  }

  function ResolvedAll(members: seq<Proc>, scope: Scope): (r: seq<Proc>)
    requires forall m | m in members :: Resolves(m, scope)
    ensures |r| == |members|
    ensures forall i | 0 <= i < |members| :: r[i] == Resolved(members[i], scope)
  {
    if members == [] then [] else [Resolved(members[0], scope)] + ResolvedAll(members[1..], scope)
  }

  // ----- fetching a step -----

  lemma {:induction false} CloseCodeConcat(a: seq<Block>, b: seq<Block>, scope: Scope)
    requires CloseCode(a, scope).Ok? && CloseCode(b, scope).Ok?
    ensures CloseCode(a + b, scope) == Ok(CloseCode(a, scope).value + CloseCode(b, scope).value)
  {
    if a == [] {
      assert a + b == b;
      assert [] + CloseCode(b, scope).value == CloseCode(b, scope).value;
    } else {
      assert (a + b)[1..] == a[1..] + b;
      CloseCodeConcat(a[1..], b, scope);
      var x, y, z := CloseBlock(a[0], scope).value, CloseCode(a[1..], scope).value, CloseCode(b, scope).value;
      assert x + (y + z) == (x + y) + z;
    }
  }

  lemma CloseOne(b: Block, scope: Scope)
    requires CloseBlock(b, scope).Ok?
    ensures CloseCode([b], scope) == CloseBlock(b, scope)
  {
    assert CloseBlock(b, scope).value + [] == CloseBlock(b, scope).value;
  }

  /** The fetched step, resolved, is the head of the resolved steps; what is left
      resolves to their tail. */
  predicate FetchAgrees(f: Option<Fetched>, tree: seq<Step>, scope: Scope) {
    match f
    case None => tree == []
    case Some(f) =>
      && tree != []
      && Anchored(f.step, f.ctx)
      && CloseStep(f.step, f.ctx, scope) == Ok(tree[0])
      && CloseCode(f.rest, scope) == Ok(tree[1..])
  }

  lemma {:induction false} SameChildren(step: Step, own: Step, id: string, scope: Scope, stack: seq<string>)
    requires SubstOwn(step, scope.vars) == Ok(own) && !step.Fragment?
    ensures InlineChildren(step, own, id, scope, stack) == CloseStep(WithId(own, id), Authored(id, stack), scope)
  {
  }

  lemma InlineFragment(steps: seq<Step>, prefix: string, stack: seq<string>, scope: Scope)
    requires steps != [] && steps[0].Fragment? && Inline(steps, scope, stack, prefix).Ok?
    ensures var name, id := steps[0].useFragment, Join(prefix, steps[0].id);
            && name !in stack && name in scope.frags
            && var body := Inline(scope.frags[name], scope, stack + [name], id);
               var tail := Inline(steps[1..], scope, stack, prefix);
               body.Ok? && tail.Ok? && Inline(steps, scope, stack, prefix) == Ok(body.value + tail.value)
  {
  }

  lemma InlineOne(steps: seq<Step>, prefix: string, stack: seq<string>, scope: Scope) returns (own: Step, r: Step)
    requires steps != [] && !steps[0].Fragment? && Inline(steps, scope, stack, prefix).Ok?
    ensures SubstOwn(steps[0], scope.vars) == Ok(own) && !own.Fragment?
    ensures var id, tail := Join(prefix, steps[0].id), Inline(steps[1..], scope, stack, prefix);
            && CloseStep(WithId(own, id), Authored(id, stack), scope) == Ok(r)
            && tail.Ok? && Inline(steps, scope, stack, prefix) == Ok([r] + tail.value)
  {
    var id := Join(prefix, steps[0].id);
    own := SubstOwn(steps[0], scope.vars).value;
    r := InlineChildren(steps[0], own, id, scope, stack).value;
    SameChildren(steps[0], own, id, scope, stack);
  }

  lemma TailOfConcat<T>(a: seq<T>, b: seq<T>)
    requires a != []
    ensures (a + b)[0] == a[0] && (a + b)[1..] == a[1..] + b
  {
  }

  /** A step fetched from the head of the code leaves what follows in place. */
  lemma FetchedBefore(f: Fetched, code: seq<Block>, head: seq<Step>, tail: seq<Step>, scope: Scope)
    requires FetchAgrees(Some(f), head, scope) && CloseCode(code, scope) == Ok(tail)
    ensures FetchAgrees(Some(Fetched(f.step, f.ctx, f.rest + code)), head + tail, scope)
  {
    CloseCodeConcat(f.rest, code, scope);
    TailOfConcat(head, tail);
  }

  lemma {:induction false} FetchAuthoredAgrees(steps: seq<Step>, prefix: string, stack: seq<string>, scope: Scope)
    requires Inline(steps, scope, stack, prefix).Ok?
    ensures FetchAgrees(FetchAuthored(steps, prefix, stack, scope), Inline(steps, scope, stack, prefix).value, scope)
    decreases Remaining(scope.frags, stack), |steps|
  {
    if steps == [] {
    } else {
      var step, id := steps[0], Join(prefix, steps[0].id);
      var after := Block(steps[1..], Authored(prefix, stack));
      if step.Fragment? {
        InlineFragment(steps, prefix, stack, scope);
        EnteringShrinks(scope.frags, stack, step.useFragment);
        var body, deeper := scope.frags[step.useFragment], stack + [step.useFragment];
        var head, tail := Inline(body, scope, deeper, id).value, Inline(steps[1..], scope, stack, prefix).value;
        FetchAuthoredAgrees(body, id, deeper, scope);
        match FetchAuthored(body, id, deeper, scope) {
          case Some(f) =>
            CloseOne(after, scope);
            FetchedBefore(f, [after], head, tail, scope);
          case None =>
            FetchAuthoredAgrees(steps[1..], prefix, stack, scope);
            assert head + tail == tail;
        }
      } else {
        FetchStepAgrees(steps, prefix, stack, scope);
      }
    }
  }

  lemma FetchStepAgrees(steps: seq<Step>, prefix: string, stack: seq<string>, scope: Scope)
    requires steps != [] && !steps[0].Fragment? && Inline(steps, scope, stack, prefix).Ok?
    ensures FetchAgrees(FetchAuthored(steps, prefix, stack, scope), Inline(steps, scope, stack, prefix).value, scope)
  {
    var id := Join(prefix, steps[0].id);
    var own, r := InlineOne(steps, prefix, stack, scope);
    var after := Block(steps[1..], Authored(prefix, stack));
    CloseOne(after, scope);
    assert FetchAuthored(steps, prefix, stack, scope) == Some(Fetched(WithId(own, id), Authored(id, stack), [after]));
    var tail := Inline(steps[1..], scope, stack, prefix).value;
    assert ([r] + tail)[1..] == tail;
  }

  lemma FetchBlockAgrees(b: Block, scope: Scope)
    requires CloseBlock(b, scope).Ok?
    ensures FetchAgrees(FetchBlock(b, scope), CloseBlock(b, scope).value, scope)
  {
    if b.ctx.Authored? {
      FetchAuthoredAgrees(b.steps, b.ctx.prefix, b.ctx.stack, scope);
    } else if b.steps != [] {
      CloseOne(Block(b.steps[1..], Absolute), scope);
    }
  }

  lemma {:induction false} FetchAgreesWithTree(code: seq<Block>, scope: Scope)
    requires CloseCode(code, scope).Ok?
    ensures FetchAgrees(Fetch(code, scope), CloseCode(code, scope).value, scope)
  {
    if code == [] {
    } else {
      var head, tail := CloseBlock(code[0], scope).value, CloseCode(code[1..], scope).value;
      FetchBlockAgrees(code[0], scope);
      match FetchBlock(code[0], scope)
      case Some(f) => FetchedBefore(f, code[1..], head, tail, scope);
      case None =>
        FetchAgreesWithTree(code[1..], scope);
        assert head + tail == tail;
    }
  }

  lemma FetchResolved(tree: seq<Step>, scope: Scope)
    ensures Fetch([Block(tree, Absolute)], scope) ==
            if tree == [] then None else Some(Fetched(tree[0], Absolute, [Block(tree[1..], Absolute)]))
  {
    var code := [Block(tree, Absolute)];
    assert code[1..] == [];
    if tree != [] { assert [Block(tree[1..], Absolute)] + code[1..] == [Block(tree[1..], Absolute)]; }
  }

  // ----- starting a step -----

  /** The members resolve to the steps of the tree. */
  predicate Matched(ms: seq<Proc>, tree: seq<Step>, scope: Scope) {
    |ms| == |tree| &&
    forall i | 0 <= i < |ms| :: Resolves(ms[i], scope) && Resolved(ms[i], scope) == Pending(tree[i], Absolute)
  }

  lemma MatchedConcat(a: seq<Proc>, b: seq<Proc>, x: seq<Step>, y: seq<Step>, scope: Scope)
    requires Matched(a, x, scope) && Matched(b, y, scope)
    ensures Matched(a + b, x + y, scope)
  {
  }

  lemma {:induction false} MembersAgree(steps: seq<Step>, prefix: string, stack: seq<string>, scope: Scope)
    requires Inline(steps, scope, stack, prefix).Ok?
    ensures Matched(MembersAuthored(steps, prefix, stack, scope), Inline(steps, scope, stack, prefix).value, scope)
    decreases Remaining(scope.frags, stack), |steps|
  {
    if steps == [] {
    } else {
      var id := Join(prefix, steps[0].id);
      var head: seq<Proc>;
      var tree: seq<Step>;
      if steps[0].Fragment? {
        InlineFragment(steps, prefix, stack, scope);
        var f := steps[0].useFragment;
        EnteringShrinks(scope.frags, stack, f);
        MembersAgree(scope.frags[f], id, stack + [f], scope);
        head := MembersAuthored(scope.frags[f], id, stack + [f], scope);
        tree := Inline(scope.frags[f], scope, stack + [f], id).value;
      } else {
        var own, r := InlineOne(steps, prefix, stack, scope);
        head, tree := [Pending(WithId(own, id), Authored(id, stack))], [r];
      }
      MembersAgree(steps[1..], prefix, stack, scope);
      MatchedConcat(head, MembersAuthored(steps[1..], prefix, stack, scope), tree,
                    Inline(steps[1..], scope, stack, prefix).value, scope);
    }
  }

  lemma RunAgrees(b: Block, scope: Scope)
    requires CloseBlock(b, scope).Ok?
    ensures Resolves(Run(b), scope)
    ensures Resolved(Run(b), scope) == Run(Block(CloseBlock(b, scope).value, Absolute))
  {
    CloseOne(b, scope);
  }

  lemma MembersResolve(steps: seq<Step>, ctx: Ctx, scope: Scope)
    requires CloseBlock(Block(steps, ctx), scope).Ok?
    ensures forall m | m in Members(Block(steps, ctx), scope) :: Resolves(m, scope)
    ensures ResolvedAll(Members(Block(steps, ctx), scope), scope) ==
            Members(Block(CloseBlock(Block(steps, ctx), scope).value, Absolute), scope)
  {
    if ctx.Authored? { MembersAgree(steps, ctx.prefix, ctx.stack, scope); }
  }

  lemma StartCoreAgrees(step: Step, ctx: Ctx, st: Store, env: Env)
    requires Anchored(step, ctx) && CloseStep(step, ctx, env.scope).Ok?
    ensures Resolves(StartCore(step, ctx, st, env), env.scope)
    ensures Resolved(StartCore(step, ctx, st, env), env.scope) ==
            StartCore(CloseStep(step, ctx, env.scope).value, Absolute, st, env)
  {
    match step
    case Parallel(_, _, steps) => MembersResolve(steps, ctx, env.scope);
    case Branch(_, _, _, thens, elses) =>
      RunAgrees(Block(thens, Nested(ctx, ".then")), env.scope);
      RunAgrees(Block(elses, Nested(ctx, ".else")), env.scope);
    case _ =>
  }

  lemma StartAgrees(step: Step, ctx: Ctx, st: Store, env: Env)
    requires Anchored(step, ctx) && CloseStep(step, ctx, env.scope).Ok?
    ensures Resolves(Start(step, ctx, st, env), env.scope)
    ensures Resolved(Start(step, ctx, st, env), env.scope) ==
            Start(CloseStep(step, ctx, env.scope).value, Absolute, st, env)
  {
    StartCoreAgrees(step, ctx, st, env);
    assert HasTimer(CloseStep(step, ctx, env.scope).value) == HasTimer(step);
  }

  // ----- one move -----

  lemma {:induction false} OutcomeAgrees(p: Proc, scope: Scope)
    requires Resolves(p, scope)
    ensures OutcomeOf(Resolved(p, scope), scope) == OutcomeOf(p, scope)
  {
    match p
    case Sequence(head, code) =>
      OutcomeAgrees(head, scope);
      FetchAgreesWithTree(code, scope);
      FetchResolved(CloseCode(code, scope).value, scope);
    case Loop(body, _, _) => OutcomeAgrees(body, scope);
    case _ =>
  }

  lemma AllCompletedAgrees(members: seq<Proc>, scope: Scope)
    requires forall m | m in members :: Resolves(m, scope)
    ensures AllCompleted(members, scope) <==> AllCompleted(ResolvedAll(members, scope), scope)
  {
    var r := ResolvedAll(members, scope);
    forall j | 0 <= j < |members| ensures Completed(r[j], scope) == Completed(members[j], scope) {
      OutcomeAgrees(members[j], scope);
    }
    if AllCompleted(members, scope) {
      forall m | m in r ensures Completed(m, scope) {
        var j :| 0 <= j < |r| && r[j] == m;
        assert members[j] in members;
      }
    }
    if AllCompleted(r, scope) {
      forall m | m in members ensures Completed(m, scope) {
        var j :| 0 <= j < |members| && members[j] == m;
        assert r[j] in r;
      }
    }
  }

  lemma GroupAgrees(
      members: seq<Proc>, i: nat, moved: Proc, own: Option<Fault>, out: Option<Outcome>,
      signal: Option<Fault>, scope: Scope)
    requires i < |members| && Resolves(moved, scope) && forall m | m in members :: Resolves(m, scope)
    ensures Resolves(GroupAfter(members, i, moved, own, out, signal, scope), scope)
    ensures Resolved(GroupAfter(members, i, moved, own, out, signal, scope), scope) ==
            GroupAfter(ResolvedAll(members, scope), i, Resolved(moved, scope), own, out, signal, scope)
  {
    var members' := members[i := moved];
    forall m | m in members' ensures Resolves(m, scope) { if m != moved { assert m in members; } }
    assert ResolvedAll(members', scope) == ResolvedAll(members, scope)[i := Resolved(moved, scope)];
    OutcomeAgrees(moved, scope);
    OutcomeAgrees(members[i], scope);
    AllCompletedAgrees(members', scope);
  }

  /** A move takes the activity and its resolved form to an activity and its resolved
      form, with the same effect on the store. */
  predicate LockStep(p: Proc, signal: Option<Fault>, addr: seq<nat>, ev: Event, st: Store, env: Env)
    requires Resolves(p, env.scope)
  {
    var (p', st') := Next(p, signal, addr, ev, st, env);
    Resolves(p', env.scope) && Next(Resolved(p, env.scope), signal, addr, ev, st, env) == (Resolved(p', env.scope), st')
  }

  lemma SequenceStep(
      head: Proc, code: seq<Block>, signal: Option<Fault>, addr: seq<nat>, ev: Event, st: Store, env: Env)
    requires Resolves(Sequence(head, code), env.scope) && Completed(head, env.scope)
    ensures LockStep(Sequence(head, code), signal, addr, ev, st, env)
  {
    OutcomeAgrees(head, env.scope);
    FetchAgreesWithTree(code, env.scope);
    FetchResolved(CloseCode(code, env.scope).value, env.scope);
    match Fetch(code, env.scope)
    case Some(f) => StartAgrees(f.step, f.ctx, st, env);
    case None =>
  }

  lemma HeadStep(
      head: Proc, code: seq<Block>, signal: Option<Fault>, addr: seq<nat>, ev: Event, st: Store, env: Env)
    requires Resolves(Sequence(head, code), env.scope) && !Completed(head, env.scope)
    requires LockStep(head, signal, addr, ev, st, env)
    ensures LockStep(Sequence(head, code), signal, addr, ev, st, env)
  {
    OutcomeAgrees(head, env.scope);
  }

  lemma LoopStep(
      body: Proc, left: nat, again: Block, signal: Option<Fault>, addr: seq<nat>, ev: Event, st: Store, env: Env)
    requires Resolves(Loop(body, left, again), env.scope)
    requires !Completed(body, env.scope) ==> LockStep(body, signal, addr, ev, st, env)
    ensures LockStep(Loop(body, left, again), signal, addr, ev, st, env)
  {
    OutcomeAgrees(body, env.scope);
    RunAgrees(again, env.scope);
  }

  lemma GroupStep(
      members: seq<Proc>, own: Option<Fault>, out: Option<Outcome>,
      signal: Option<Fault>, addr: seq<nat>, ev: Event, st: Store, env: Env)
    requires Resolves(Group(members, own, out), env.scope) && addr != [] && addr[0] < |members|
    requires members[addr[0]] in members && LockStep(members[addr[0]], Below(own, signal), addr[1..], ev, st, env)
    ensures LockStep(Group(members, own, out), signal, addr, ev, st, env)
  {
    var m := Next(members[addr[0]], Below(own, signal), addr[1..], ev, st, env).0;
    GroupAgrees(members, addr[0], m, own, out, signal, env.scope);
  }

  lemma TimedStep(
      body: Proc, own: Option<Fault>, out: Option<Outcome>,
      signal: Option<Fault>, addr: seq<nat>, ev: Event, st: Store, env: Env)
    requires Resolves(Timed(body, own, out), env.scope) && addr != []
    requires LockStep(body, Below(own, signal), addr[1..], ev, st, env)
    ensures LockStep(Timed(body, own, out), signal, addr, ev, st, env)
  {
  }

  lemma TimerStep(
      body: Proc, own: Option<Fault>, out: Option<Outcome>, signal: Option<Fault>, ev: Event, st: Store, env: Env)
    requires Resolves(Timed(body, own, out), env.scope)
    ensures LockStep(Timed(body, own, out), signal, [], ev, st, env)
  {
    OutcomeAgrees(body, env.scope);
  }

  /** The authored run and the resolved run move in lock step. */
  lemma {:induction false} NextAgrees(
      p: Proc, signal: Option<Fault>, addr: seq<nat>, ev: Event, st: Store, env: Env)
    requires Resolves(p, env.scope)
    ensures LockStep(p, signal, addr, ev, st, env)
    decreases p
  {
    match p
    case Pending(step, ctx) => if ev == Go { StartAgrees(step, ctx, st, env); }
    case Sequence(head, code) =>
      if Completed(head, env.scope) {
        SequenceStep(head, code, signal, addr, ev, st, env);
      } else {
        NextAgrees(head, signal, addr, ev, st, env);
        HeadStep(head, code, signal, addr, ev, st, env);
      }
    case Loop(body, left, again) =>
      if !Completed(body, env.scope) { NextAgrees(body, signal, addr, ev, st, env); }
      LoopStep(body, left, again, signal, addr, ev, st, env);
    case Group(members, own, out) =>
      if addr != [] && addr[0] < |members| {
        assert members[addr[0]] in members;
        NextAgrees(members[addr[0]], Below(own, signal), addr[1..], ev, st, env);
        GroupStep(members, own, out, signal, addr, ev, st, env);
      }
    case Timed(body, own, out) =>
      if addr != [] {
        NextAgrees(body, Below(own, signal), addr[1..], ev, st, env);
        TimedStep(body, own, out, signal, addr, ev, st, env);
      } else {
        TimerStep(body, own, out, signal, ev, st, env);
      }
    case _ =>
  }

  // ----- whole runs -----

  lemma {:induction false} PlayAgrees(s: State, moves: seq<Move>, env: Env)
    requires Resolves(s.proc, env.scope)
    ensures var d := Play(s, moves, env);
            var r := Play(s.(proc := Resolved(s.proc, env.scope)), moves, env);
            Resolves(d.proc, env.scope) && r == d.(proc := Resolved(d.proc, env.scope))
    decreases |moves|
  {
    if moves == [] {
    } else {
      if moves[0].At? { NextAgrees(s.proc, s.abort, moves[0].addr, moves[0].ev, s.store, env); }
      PlayAgrees(Advance(s, moves[0], env), moves[1..], env);
    }
  }

  /** For every schedule, and so for every behaviour of handlers, timers and aborts:
      the steps `Expand` returns and the authored steps with their fragments run in
      place invoke the same actions with the same inputs and attempt numbers, write
      the same outputs and step records, push the same compensations, and end the
      same way, wherever repeated substitution is harmless. */
  lemma ResolutionPreservesMeaning(
      steps: seq<Step>, env: Env, moves: seq<Move>, abort: Option<Fault>, store: Store)
    requires Expand(steps, env.scope, [], "").Ok? && Depth.Settled(steps, env.scope, [], 0)
    ensures var tree := Expand(steps, env.scope, [], "").value;
            var a := Play(State(Run(Block(steps, Authored("", []))), abort, store), moves, env);
            var r := Play(State(Run(Block(tree, Absolute)), abort, store), moves, env);
            a.store == r.store && a.abort == r.abort
            && OutcomeOf(a.proc, env.scope) == OutcomeOf(r.proc, env.scope)
  {
    var scope := env.scope;
    var tree := Expand(steps, scope, [], "").value;
    Depth.DepthShowsIff(steps, scope, [], "");
    var authored := Block(steps, Authored("", []));
    CloseOne(authored, scope);
    var s := State(Run(authored), abort, store);
    assert Resolved(s.proc, scope) == Run(Block(tree, Absolute));
    PlayAgrees(s, moves, env);
    OutcomeAgrees(Play(s, moves, env).proc, scope);
  }
}
