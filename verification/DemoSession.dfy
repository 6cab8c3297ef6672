/** Hibernate, resume and stop of one interactive demo session, as they run inside the
    session lock. */
module DemoSession {
  import opened Json
  import opened Texts

  datatype Status =
    | CREATE | PROVISIONING | READY | ACTIVE | HIBERNATING | HIBERNATED | RESUMING | DELETING | STOPPING | STOPPED
    | FAILED

  datatype Session = Session(
    status: Status, targetRunId: Option<string>, password: Option<string>, keepWorkspace: bool, activeRoute: bool)

  datatype Lease = Lease(resourceType: string, resourceKey: string, active: bool)

  /** The live half of a session. It holds the cleanups of the leases registered since it
      was created, which are those from position `since` on, and `cleanups` others. */
  datatype Runtime = Runtime(since: nat, cleanups: nat)

  /** A call out of the service. An action comes with the target it is given or, if it goes
      by the run, deletes; the cleanup that came with a lease with the target it deletes, if
      any; a registered cleaner is given the key of the lease. */
  datatype ExternalCall =
    | Act(name: string, target: Option<string>)
    | LocalCleanup(resourceType: string, target: Option<string>)
    | CleanLease(resourceType: string, resourceKey: string)
    | RunCleanup

  datatype Entry = Entry(call: ExternalCall, ok: bool)

  const TARGET := "target-run"
  const CLEANUP_TARGET := "target.cleanup-target"
  const CLEANUP_RUN := "target.cleanup-run"
  const HIBERNATE := "target.hibernate-run"

  /** The calls that delete a target workspace. */
  predicate Deletes(c: ExternalCall) {
    match c
    case Act(name, _) => name == CLEANUP_TARGET || name == CLEANUP_RUN
    case LocalCleanup(resourceType, _) => resourceType == TARGET
    case CleanLease(resourceType, _) => resourceType == TARGET
    case RunCleanup => false
  }

  /** The target that such a call deletes. */
  function TargetOf(c: ExternalCall): Option<string>
    requires Deletes(c)
  {
    if c.CleanLease? then Some(c.resourceKey) else c.target
  }

  predicate NoneDeletes(log: seq<Entry>) { forall e | e in log :: !Deletes(e.call) }

  /** The log grew, by calls that do not delete the target. */
  predicate Keeps(before: seq<Entry>, after: seq<Entry>) { before <= after && NoneDeletes(after[|before|..]) }

  /** The calls from `from` on succeeded, but for the last perhaps. */
  predicate StopsShort(log: seq<Entry>, from: nat) { forall j | from <= j < |log| - 1 :: log[j].ok }

  predicate Succeeds(log: seq<Entry>, from: nat) { forall j | from <= j < |log| :: log[j].ok }

  lemma KeepsTwice(a: seq<Entry>, b: seq<Entry>, c: seq<Entry>)
    requires Keeps(a, b) && Keeps(b, c)
    ensures Keeps(a, c)
  {
    assert c[|a|..] == b[|a|..] + c[|b|..];
  }

  lemma LogGrows(a: seq<Entry>, b: seq<Entry>, c: seq<Entry>)
    requires a <= b <= c
    ensures c[|a|..] == b[|a|..] + c[|b|..]
  {
  }

  lemma KeepsOne(a: seq<Entry>, b: seq<Entry>, e: Entry)
    requires Keeps(a, b) && !Deletes(e.call)
    ensures Keeps(a, b + [e])
  {
    assert (b + [e])[|a|..] == b[|a|..] + [e];
  }

  /** A deletion of the target `id` succeeded. */
  predicate DeletionConfirmed(log: seq<Entry>, id: string) {
    exists e :: e in log && Deletes(e.call) && e.ok && TargetOf(e.call) == Some(id)
  }

  /** The one call that deletes a target is `c`, and it succeeded. */
  predicate OneDeletion(log: seq<Entry>, c: ExternalCall) {
    Deletes(c) && Entry(c, true) in log && forall e | e in log && Deletes(e.call) :: e == Entry(c, true)
  }

  lemma ConfirmedIff(log: seq<Entry>, c: ExternalCall, id: string)
    requires OneDeletion(log, c)
    ensures DeletionConfirmed(log, id) <==> TargetOf(c) == Some(id)
  {
    assert Entry(c, true) in log && Deletes(Entry(c, true).call);
  }

  lemma NoOtherDeletion(log: seq<Entry>, c: ExternalCall, more: seq<Entry>)
    requires OneDeletion(log, c) && NoneDeletes(more)
    ensures OneDeletion(log + more, c)
  {
    assert Entry(c, true) in log + more;
  }

  /** The newest lease of a target that is still held. */
  function NewestTarget(leases: seq<Lease>): (i: Option<nat>)
    ensures i.Some? ==> i.value < |leases| && leases[i.value].active && leases[i.value].resourceType == TARGET
  {
    if leases == [] then None
    else
      var last := |leases| - 1;
      if leases[last].active && leases[last].resourceType == TARGET then Some(last) else NewestTarget(leases[..last])
  }

  /** Neither made nor dropped. */
  predicate SameSince(a: Option<Runtime>, b: Option<Runtime>) {
    a.Some? == b.Some? && (a.Some? ==> a.value.since == b.value.since)
  }

  /** The lease was registered with the runtime, which holds a cleanup of its own for it. */
  predicate IsLocal(runtime: Option<Runtime>, i: nat) { runtime.Some? && i >= runtime.value.since }

  /** How many of the leases are held. */
  function Held(leases: seq<Lease>): nat {
    if leases == [] then 0 else (if leases[0].active then 1 else 0) + Held(leases[1..])
  }

  predicate AllReleased(leases: seq<Lease>) { forall l | l in leases :: !l.active }

  predicate Dormant(s: Session) { s.status == HIBERNATED || s.status == STOPPED }

  /** What is stored of a session between runs of the service: a hibernated or stopped
      session holds no lease, and a stopped one has no password. */
  predicate AtRest(session: Option<Session>, leases: seq<Lease>) {
    session.Some? ==>
      && (Dormant(session.value) ==> AllReleased(leases))
      && (session.value.status == STOPPED ==> session.value.password.None?)
  }

  /** What an operation returns: nothing for an unknown session, a record, or an error. */
  datatype Result = Unknown | Returned | Threw

  /** The actions a resume invokes after the target is prepared and resumed. */
  const RESUME_ACTIONS := [
    "vendor.compile", "vendor.start-runtime", "vendor.compile", "vendor.start-runtime", "vendor.compile",
    "vendor.start-runtime", "gateway.create-route", "browser.load-package", "site.start",
    "target.configure-vendors", "target.configure-site", "target.start-observation", "site.configure-manual-tracking"]

  /** The statuses a hibernation may start from. */
  const HIBERNATABLE := {READY, ACTIVE, HIBERNATING, RESUMING, PROVISIONING, FAILED}

  datatype Op = Hibernate | Resume | Stop

  // ----- the deletion of the target, lease by lease -----

  /** What is known when a stop begins: the target to delete, the actions, the runtime, the
      leases, the targets that would go by the run at each call, and the number of the
      first call. */
  datatype Case = Case(
    id: string, actions: set<string>, runtime: Option<Runtime>, leases: seq<Lease>, ofRun: nat -> Option<string>,
    first: nat)

  // ----- the calls that clean up -----

  /** The call that cleans up lease `i`, if it is call number `n`. */
  function CallOf(c: Case, i: nat, n: nat): ExternalCall
    requires i < |c.leases|
  {
    var l := c.leases[i];
    if IsLocal(c.runtime, i) then LocalCleanup(l.resourceType, c.ofRun(n))
    else CleanLease(l.resourceType, l.resourceKey)
  }

  /** The leases that are cleaned up, in order: those held, the newest first; of the leases
      of a target only the newest, and that only if the target is not `deleted` yet. */
  function Order(leases: seq<Lease>, deleted: bool): (r: seq<nat>)
    ensures forall i | i in r :: i < |leases|
  {
    if leases == [] then []
    else
      var i := |leases| - 1;
      if !leases[i].active || (deleted && leases[i].resourceType == TARGET) then Order(leases[..i], deleted)
      else [i] + Order(leases[..i], deleted || leases[i].resourceType == TARGET)
  }

  lemma OrderThen(leases: seq<Lease>, i: nat, done: seq<nat>, deleted: bool)
    requires i < |leases|
    ensures leases[..i + 1][..i] == leases[..i]
    ensures done + Order(leases[..i + 1], deleted) ==
            if leases[i].active && !(deleted && leases[i].resourceType == TARGET)
            then (done + [i]) + Order(leases[..i], deleted || leases[i].resourceType == TARGET)
            else done + Order(leases[..i], deleted)
  {
    assert leases[..i + 1][..i] == leases[..i] && leases[..i + 1][i] == leases[i];
    Associative(done, [i], Order(leases[..i], deleted || leases[i].resourceType == TARGET));
  }

  /** Each of them once and no other, from the newest to the oldest. */
  lemma {:induction false} OrderExact(leases: seq<Lease>, deleted: bool)
    ensures forall j, k | 0 <= j < k < |Order(leases, deleted)| :: Order(leases, deleted)[j] > Order(leases, deleted)[k]
    ensures forall i | 0 <= i < |leases| ::
              i in Order(leases, deleted) <==>
                leases[i].active &&
                (leases[i].resourceType != TARGET || (!deleted && NewestTarget(leases) == Some(i)))
  {
    if leases == [] {
    } else {
      var i := |leases| - 1;
      var earlier := leases[..i];
      if !leases[i].active || (deleted && leases[i].resourceType == TARGET) {
        OrderExact(earlier, deleted);
      } else {
        OrderExact(earlier, deleted || leases[i].resourceType == TARGET);
        assert forall k | 0 < k < |Order(leases, deleted)| ::
            Order(leases, deleted)[k] in Order(earlier, deleted || leases[i].resourceType == TARGET);
      }
      assert forall k | 0 <= k < i :: earlier[k] == leases[k];
    }
  }

  function LeaseCalls(c: Case, order: seq<nat>): seq<Entry>
    requires forall i | i in order :: i < |c.leases|
  {
    seq(|order|, j requires 0 <= j < |order| =>
      assert order[j] in order;
      Entry(CallOf(c, order[j], c.first + j), true))
  }

  lemma LeaseCallsSnoc(c: Case, order: seq<nat>, i: nat)
    requires i < |c.leases| && forall k | k in order :: k < |c.leases|
    ensures forall k | k in order + [i] :: k < |c.leases|
    ensures LeaseCalls(c, order + [i]) == LeaseCalls(c, order) + [Entry(CallOf(c, i, c.first + |order|), true)]
  {
    assert forall j | 0 <= j < |order| :: (order + [i])[j] == order[j];
  }

  /** The leases in `done` are cleaned up, and those before `i` are still to come. */
  ghost predicate Halfway(
      c: Case, deleted: bool, done: seq<nat>, i: nat, now: bool, before: seq<Entry>, log: seq<Entry>)
  {
    && i <= |c.leases| && |before| == c.first && (forall j | j in done :: j < |c.leases|)
    && done + Order(c.leases[..i], now) == Order(c.leases, deleted)
    && log == before + LeaseCalls(c, done)
  }

  lemma HalfwayStarts(c: Case, deleted: bool, log: seq<Entry>)
    requires |log| == c.first
    ensures Halfway(c, deleted, [], |c.leases|, deleted, log, log)
  {
    assert c.leases[..|c.leases|] == c.leases && [] + Order(c.leases, deleted) == Order(c.leases, deleted);
    assert LeaseCalls(c, []) == [] && log + [] == log;
  }

  /** Lease `i` has no cleanup, or the one it has failed. */
  predicate Excused(c: Case, i: nat, cleaners: set<string>, log: seq<Entry>, from: nat)
    requires i < |c.leases|
  {
    || (!IsLocal(c.runtime, i) && c.leases[i].resourceType !in cleaners)
    || exists n | from <= n < |log| :: log[n] == Entry(CallOf(c, i, n), false)
  }

  /** What is still held has no cleanup, or one that failed. */
  predicate LeftExcused(c: Case, leases: seq<Lease>, cleaners: set<string>, log: seq<Entry>, from: nat) {
    |leases| == |c.leases| && forall i | 0 <= i < |leases| && leases[i].active :: Excused(c, i, cleaners, log, from)
  }

  lemma ExcusedLater(c: Case, i: nat, cleaners: set<string>, log: seq<Entry>, more: seq<Entry>, from: nat)
    requires i < |c.leases| && log <= more && Excused(c, i, cleaners, log, from)
    ensures Excused(c, i, cleaners, more, from)
  {
    if n :| from <= n < |log| && log[n] == Entry(CallOf(c, i, n), false) { assert more[n] == log[n]; }
  }

  lemma StillExcused(
      c: Case, d: Case, leases: seq<Lease>, cleaners: set<string>, log: seq<Entry>, from: nat, more: seq<Entry>,
      earlier: nat)
    requires LeftExcused(c, leases, cleaners, log, from) && log <= more && earlier <= from
    requires d.leases == c.leases && d.runtime == c.runtime && d.ofRun == c.ofRun
    ensures LeftExcused(d, leases, cleaners, more, earlier)
  {
    forall i | 0 <= i < |leases| && leases[i].active ensures Excused(d, i, cleaners, more, earlier) {
      assert Excused(c, i, cleaners, log, from);
      if n :| from <= n < |log| && log[n] == Entry(CallOf(c, i, n), false) {
        assert more[n] == Entry(CallOf(d, i, n), false);
      }
    }
  }

  /** A stop that found the leases of `c` tried everything: each lease that is left is
      excused, and the runtime's cleanups all ran at the end. */
  predicate Tried(c: Case, leases: seq<Lease>, cleaners: set<string>, log: seq<Entry>, from: nat) {
    && LeftExcused(c, leases, cleaners, log, from)
    && from + CleanupsHeld(c) <= |log|
    && forall j | |log| - CleanupsHeld(c) <= j < |log| :: log[j].call == RunCleanup
  }

  lemma TriedAll(
      c: Case, d: Case, leases: seq<Lease>, cleaners: set<string>, log: seq<Entry>, from: nat, more: seq<Entry>,
      earlier: nat)
    requires LeftExcused(c, leases, cleaners, log, from) && log <= more && earlier <= from <= |log|
    requires d.leases == c.leases && d.runtime == c.runtime && d.ofRun == c.ofRun
    requires |more| == |log| + CleanupsHeld(c) && forall j | |log| <= j < |more| :: more[j].call == RunCleanup
    ensures Tried(d, leases, cleaners, more, earlier)
  {
    StillExcused(c, d, leases, cleaners, log, from, more, earlier);
  }

  /** Whether lease `i` is cleaned up next, if the target is `now` deleted. */
  predicate ToClean(c: Case, i: nat, now: bool)
    requires i < |c.leases|
  {
    c.leases[i].active && !(now && c.leases[i].resourceType == TARGET)
  }

  lemma HalfwaySkips(
      c: Case, deleted: bool, done: seq<nat>, i: nat, now: bool, before: seq<Entry>, log: seq<Entry>)
    requires i < |c.leases| && Halfway(c, deleted, done, i + 1, now, before, log) && !ToClean(c, i, now)
    ensures Halfway(c, deleted, done, i, now, before, log)
  {
    OrderThen(c.leases, i, done, now);
  }

  lemma HalfwayCleans(
      c: Case, deleted: bool, done: seq<nat>, i: nat, now: bool, before: seq<Entry>, log: seq<Entry>)
    requires i < |c.leases| && Halfway(c, deleted, done, i + 1, now, before, log) && ToClean(c, i, now)
    ensures Halfway(c, deleted, done + [i], i, now || c.leases[i].resourceType == TARGET, before,
                    log + [Entry(CallOf(c, i, |log|), true)])
  {
    CallsOfOrder(c, deleted, done, i, now);
    LeaseCallsSnoc(c, done, i);
    assert |log| == c.first + |done|;
    Associative(before, LeaseCalls(c, done), [Entry(CallOf(c, i, |log|), true)]);
  }

  lemma CallsOfOrder(c: Case, deleted: bool, done: seq<nat>, i: nat, now: bool)
    requires i < |c.leases| && ToClean(c, i, now)
    requires done + Order(c.leases[..i + 1], now) == Order(c.leases, deleted)
    ensures (done + [i]) + Order(c.leases[..i], now || c.leases[i].resourceType == TARGET) == Order(c.leases, deleted)
  {
    OrderThen(c.leases, i, done, now);
  }

  lemma HalfwayNext(
      c: Case, deleted: bool, done: seq<nat>, i: nat, now: bool, before: seq<Entry>, log: seq<Entry>)
      returns (more: seq<nat>)
    requires i < |c.leases| && Halfway(c, deleted, done, i + 1, now, before, log)
    ensures if ToClean(c, i, now)
            then Halfway(c, deleted, more, i, now || c.leases[i].resourceType == TARGET, before,
                         log + [Entry(CallOf(c, i, |log|), true)])
            else Halfway(c, deleted, more, i, now, before, log)
  {
    if ToClean(c, i, now) {
      HalfwayCleans(c, deleted, done, i, now, before, log);
      more := done + [i];
    } else {
      HalfwaySkips(c, deleted, done, i, now, before, log);
      more := done;
    }
  }

  lemma HalfwayEnds(c: Case, deleted: bool, done: seq<nat>, now: bool, before: seq<Entry>, log: seq<Entry>)
    requires Halfway(c, deleted, done, 0, now, before, log)
    ensures log == before + LeaseCalls(c, Order(c.leases, deleted))
  {
    assert c.leases[..0] == [] && done + [] == done;
  }

  /** All goes well down to lease `i`. */
  ghost predicate Clear(
      c: Case, deleted: bool, done: seq<nat>, i: nat, now: bool, before: seq<Entry>, log: seq<Entry>,
      leases: seq<Lease>)
  {
    && Halfway(c, deleted, done, i, now, before, log) && |leases| == |c.leases|
    && (forall j | i <= j < |leases| :: !leases[j].active)
    && (now <==> deleted || TargetFrom(c.leases, i))
  }

  /** `d` stands as `c` does, as far as the cleanup of lease `i` goes. */
  ghost predicate Alike(c: Case, d: Case, i: nat) {
    c.runtime == d.runtime && c.ofRun == d.ofRun && i < |c.leases| == |d.leases| && c.leases[i] == d.leases[i]
  }

  /** Lease `i` is cleaned up, unless it is not held or of a target already gone. */
  predicate Cleaned(d: Case, i: nat, gone: bool, log: seq<Entry>, now: bool, log': seq<Entry>)
    requires i < |d.leases|
  {
    && now == (gone || (ToClean(d, i, gone) && d.leases[i].resourceType == TARGET))
    && log' == if ToClean(d, i, gone) then log + [Entry(CallOf(d, i, d.first), true)] else log
  }

  /** Lease `i` is released, or its cleanup failed or does not exist; the others stay. */
  predicate LeaseTried(d: Case, i: nat, leases: seq<Lease>, cleaners: set<string>, log: seq<Entry>, ok: bool)
    requires i < |d.leases|
  {
    && |leases| == |d.leases| && (forall j | 0 <= j < |leases| && j != i :: leases[j] == d.leases[j])
    && if ok then !leases[i].active else Excused(d, i, cleaners, log, d.first)
  }

  /** The cleanup of lease `i` succeeds. */
  lemma ClearNext(
      c: Case, d: Case, deleted: bool, done: seq<nat>, i: nat, now: bool, before: seq<Entry>, log: seq<Entry>,
      leases: seq<Lease>, log': seq<Entry>, now': bool, leases': seq<Lease>, cleaners: set<string>)
      returns (more: seq<nat>)
    requires Alike(c, d, i) && d.first == |log| && Clear(c, deleted, done, i + 1, now, before, log, leases)
    requires Cleaned(d, i, now, log, now', log') && LeaseTried(d, i, leases', cleaners, log', true)
    requires d.leases == leases
    ensures Clear(c, deleted, more, i, now', before, log', leases')
  {
    more := HalfwayNext(c, deleted, done, i, now, before, log);
    if TargetFrom(c.leases, i) && !(c.leases[i].active && c.leases[i].resourceType == TARGET) {
      var j :| i <= j < |c.leases| && c.leases[j].active && c.leases[j].resourceType == TARGET;
      assert TargetFrom(c.leases, i + 1);
    }
  }

  /** What is left of the leases from `i` on is excused. */
  predicate LeftFrom(c: Case, i: nat, leases: seq<Lease>, cleaners: set<string>, log: seq<Entry>, from: nat) {
    && |leases| == |c.leases|
    && forall j | i <= j < |leases| && leases[j].active :: Excused(c, j, cleaners, log, from)
  }

  lemma LeftNext(
      c: Case, d: Case, i: nat, leases: seq<Lease>, log: seq<Entry>, leases': seq<Lease>, log': seq<Entry>,
      cleaners: set<string>, from: nat, mark: nat, ok: bool)
    requires Alike(c, d, i) && LeftFrom(c, i + 1, leases, cleaners, log, from) && log <= log' && from <= mark
    requires LeaseTried(d, i, leases', cleaners, log', ok) && d.leases == leases && mark == d.first
    ensures LeftFrom(c, i, leases', cleaners, log', from)
  {
    forall j | i <= j < |leases'| && leases'[j].active ensures Excused(c, j, cleaners, log', from) {
      if j > i {
        ExcusedLater(c, j, cleaners, log, log', from);
      } else if n :| mark <= n < |log'| && log'[n] == Entry(CallOf(d, i, n), false) {
        assert log'[n] == Entry(CallOf(c, i, n), false);
      }
    }
  }

  function Cleanups(n: nat): (r: seq<Entry>)
    ensures |r| == n && forall e | e in r :: e == Entry(RunCleanup, true)
  {
    seq(n, _ => Entry(RunCleanup, true))
  }

  /** The cleanups a runtime holds apart from those of leases. */
  function CleanupsHeld(c: Case): nat { match c.runtime case Some(r) => r.cleanups case None => 0 }

  /** The calls of a suspension that succeeds: the leases but for the target's, then every
      cleanup of the runtime. */
  function SuspendCalls(c: Case): seq<Entry> { LeaseCalls(c, Order(c.leases, true)) + Cleanups(CleanupsHeld(c)) }

  /** The calls of a hibernation that succeeds: first that of the target itself, and then
      the suspension of what is held once it has been handled. */
  function HibernateCalls(target: Option<string>, handled: Case): seq<Entry> {
    [Entry(Act(HIBERNATE, target), true)] + SuspendCalls(handled)
  }

  function Acted(names: seq<string>): (r: seq<Entry>)
    ensures |r| == |names| && forall i | 0 <= i < |names| :: r[i] == Entry(Act(names[i], None), true)
  {
    seq(|names|, i requires 0 <= i < |names| => Entry(Act(names[i], None), true))
  }

  lemma ActedSnoc(names: seq<string>, name: string)
    ensures Acted(names + [name]) == Acted(names) + [Entry(Act(name, None), true)]
  {
  }

  /** The calls that clean up what an earlier service left behind: the leases held but for
      the target's that have a cleaner, the newest first. */
  function RecoveryCalls(leases: seq<Lease>, cleaners: set<string>): seq<Entry> {
    if leases == [] then []
    else
      RecoveryCall(leases[|leases| - 1], cleaners) + RecoveryCalls(leases[..|leases| - 1], cleaners)
  }

  function RecoveryCall(l: Lease, cleaners: set<string>): seq<Entry> {
    if l.active && l.resourceType != TARGET && l.resourceType in cleaners
    then [Entry(CleanLease(l.resourceType, l.resourceKey), true)]
    else []
  }

  lemma RecoveryNext(leases: seq<Lease>, i: nat, cleaners: set<string>, calls: seq<Entry>)
    requires i < |leases|
    ensures calls + RecoveryCalls(leases[..i + 1], cleaners) ==
            (calls + RecoveryCall(leases[i], cleaners)) + RecoveryCalls(leases[..i], cleaners)
    ensures leases[..i + 1][..i] == leases[..i]
  {
    var upto := leases[..i + 1];
    assert upto[|upto| - 1] == leases[i] && upto[..|upto| - 1] == leases[..i];
    Associative(calls, RecoveryCall(leases[i], cleaners), RecoveryCalls(leases[..i], cleaners));
  }

  /** The calls of a restart that succeeds. */
  function RestartCalls(target: Option<string>): seq<Entry> {
    [Entry(Act("target.prepare-run", None), true), Entry(Act("target.resume-run", target), true)] +
    Acted(RESUME_ACTIONS)
  }

  lemma RestartLog(log: seq<Entry>, a: Entry, b: Entry, c: seq<Entry>)
    requires !Deletes(a.call) && !Deletes(b.call)
    ensures log + [a] + [b] + c == log + ([a, b] + c) && Keeps(log, log + [a] + [b]) && Keeps(log, log + [a])
  {
    assert (log + [a] + [b])[|log|..] == [a, b] && (log + [a])[|log|..] == [a];
  }

  /** The calls of a resume that succeeds. */
  function ResumeCalls(leases: seq<Lease>, cleaners: set<string>, target: Option<string>): seq<Entry> {
    [Entry(Act("profiles", None), true)] + (RecoveryCalls(leases, cleaners) + RestartCalls(target))
  }

  lemma ResumeLog(log: seq<Entry>, leases: seq<Lease>, cleaners: set<string>, target: Option<string>)
    ensures ((log + [Entry(Act("profiles", None), true)]) + RecoveryCalls(leases, cleaners)) + RestartCalls(target) ==
            log + ResumeCalls(leases, cleaners, target)
  {
  }

  lemma StopLog(log: seq<Entry>, a: seq<Entry>, b: seq<Entry>, c: seq<Entry>)
    ensures ((log + a) + b) + c == log + (a + (b + c))
  {
  }

  /** The calls of a stop that succeeds: the action that deletes the target, if there is
      one, and the cleanups of what is held once it has been handled; else the cleanups of
      what is held, the newest lease of a target among them. */
  function StopCalls(c: Case, handled: Case, target: Option<string>): seq<Entry> {
    if target.Some? && CLEANUP_TARGET in c.actions then
      [Entry(Act(CLEANUP_TARGET, target), true)] + SuspendCalls(handled)
    else if target.Some? && c.runtime.Some? && CLEANUP_RUN in c.actions then
      [Entry(Act(CLEANUP_RUN, c.ofRun(c.first)), true)] + SuspendCalls(handled)
    else LeaseCalls(c, Order(c.leases, false)) + Cleanups(CleanupsHeld(c))
  }

  /** The number of the call that cleans up lease `i`, when those newer have been: each
      that is held takes one. */
  function CleanupCall(c: Case, i: nat): nat
    requires i < |c.leases|
  {
    c.first + Held(c.leases[i + 1..])
  }

  /** The call by which a stop deletes the target: the action that is given the target,
      else the one that goes by the run, else the cleanup of the newest target lease. */
  predicate Stops(via: ExternalCall, c: Case) {
    if CLEANUP_TARGET in c.actions then via == Act(CLEANUP_TARGET, Some(c.id))
    else if c.runtime.Some? && CLEANUP_RUN in c.actions then via == Act(CLEANUP_RUN, c.ofRun(c.first))
    else
      match NewestTarget(c.leases)
      case None => false
      case Some(i) => via == CallOf(c, i, CleanupCall(c, i))
  }

  /** The target that is gone when a stop has succeeded. */
  function Gone(c: Case): Option<string> {
    if CLEANUP_TARGET in c.actions then Some(c.id)
    else if c.runtime.Some? && CLEANUP_RUN in c.actions then c.ofRun(c.first)
    else
      match NewestTarget(c.leases)
      case None => None
      case Some(i) => if IsLocal(c.runtime, i) then c.ofRun(CleanupCall(c, i)) else Some(c.leases[i].resourceKey)
  }

  lemma StopsGone(via: ExternalCall, c: Case)
    requires Stops(via, c)
    ensures Deletes(via) && TargetOf(via) == Gone(c)
  {
  }

  /** The lease of a target is held at `i` or later. */
  predicate TargetFrom(leases: seq<Lease>, i: nat) {
    exists j :: i <= j < |leases| && leases[j].active && leases[j].resourceType == TARGET
  }

  lemma NewestIff(leases: seq<Lease>)
    ensures NewestTarget(leases).Some? <==> TargetFrom(leases, 0)
  {
    if leases == [] {
    } else {
      var last := |leases| - 1;
      NewestIff(leases[..last]);
      assert forall j | 0 <= j < last :: leases[..last][j] == leases[j];
    }
  }

  lemma {:induction false} HeldSplit(a: seq<Lease>, l: Lease)
    ensures Held(a + [l]) == Held(a) + if l.active then 1 else 0
  {
    if a == [] {
      assert a + [l] == [l] && [l][1..] == [];
    } else {
      assert (a + [l])[1..] == a[1..] + [l];
      HeldSplit(a[1..], l);
    }
  }

  /** Without a deletion so far the newest target lease comes after those newer that are
      held. */
  lemma {:induction false} NewestPlace(leases: seq<Lease>)
    requires NewestTarget(leases).Some?
    ensures var i := NewestTarget(leases).value;
            Held(leases[i + 1..]) < |Order(leases, false)| && Order(leases, false)[Held(leases[i + 1..])] == i
  {
    var last := |leases| - 1;
    var i := NewestTarget(leases).value;
    if i == last {
      assert leases[i + 1..] == [];
    } else {
      NewestPlace(leases[..last]);
      assert leases[i + 1..] == leases[..last][i + 1..] + [leases[last]];
      HeldSplit(leases[..last][i + 1..], leases[last]);
    }
  }

  lemma CallDeletes(c: Case, order: seq<nat>, j: nat)
    requires j < |order| && forall i | i in order :: i < |c.leases|
    ensures order[j] in order && Deletes(LeaseCalls(c, order)[j].call) <==> c.leases[order[j]].resourceType == TARGET
  {
    assert order[j] in order;
  }

  lemma SuspendKeeps(c: Case)
    ensures NoneDeletes(SuspendCalls(c))
  {
    var order := Order(c.leases, true);
    OrderExact(c.leases, true);
    forall e | e in SuspendCalls(c) ensures !Deletes(e.call) {
      if e in LeaseCalls(c, order) {
        var j :| 0 <= j < |order| && LeaseCalls(c, order)[j] == e;
        CallDeletes(c, order, j);
      }
    }
  }

  lemma OnceInOrder(leases: seq<Lease>, deleted: bool, j: nat, k: nat)
    requires j < |Order(leases, deleted)| && k < |Order(leases, deleted)|
    requires Order(leases, deleted)[j] == Order(leases, deleted)[k]
    ensures j == k
  {
    OrderExact(leases, deleted);
  }

  /** Of the leases cleaned up without a deletion so far, the newest of a target deletes. */
  lemma LeasesDelete(c: Case)
    requires NewestTarget(c.leases).Some?
    ensures var i := NewestTarget(c.leases).value;
            OneDeletion(LeaseCalls(c, Order(c.leases, false)), CallOf(c, i, CleanupCall(c, i)))
  {
    var i, order := NewestTarget(c.leases).value, Order(c.leases, false);
    var k := Held(c.leases[i + 1..]);
    var calls := LeaseCalls(c, order);
    NewestPlace(c.leases);
    assert calls[k] == Entry(CallOf(c, i, CleanupCall(c, i)), true);
    CallDeletes(c, order, k);
    forall e | e in calls && Deletes(e.call) ensures e == calls[k] {
      var j :| 0 <= j < |order| && calls[j] == e;
      CallDeletes(c, order, j);
      OnlyNewest(c.leases, order[j]);
      OnceInOrder(c.leases, false, j, k);
    }
  }

  lemma OnlyNewest(leases: seq<Lease>, i: nat)
    requires i < |leases| && i in Order(leases, false) && leases[i].resourceType == TARGET
    ensures NewestTarget(leases) == Some(i)
  {
    OrderExact(leases, false);
  }

  /** The calls of a stop that succeeds delete one target. */
  lemma StopDeletes(c: Case, handled: Case) returns (via: ExternalCall)
    requires || CLEANUP_TARGET in c.actions || (c.runtime.Some? && CLEANUP_RUN in c.actions)
             || NewestTarget(c.leases).Some?
    ensures Stops(via, c) && OneDeletion(StopCalls(c, handled, Some(c.id)), via)
  {
    SuspendKeeps(handled);
    if CLEANUP_TARGET in c.actions {
      via := Act(CLEANUP_TARGET, Some(c.id));
      FirstThen(via, SuspendCalls(handled));
    } else if c.runtime.Some? && CLEANUP_RUN in c.actions {
      via := Act(CLEANUP_RUN, c.ofRun(c.first));
      FirstThen(via, SuspendCalls(handled));
    } else {
      var i := NewestTarget(c.leases).value;
      via := CallOf(c, i, CleanupCall(c, i));
      LeasesDelete(c);
      NoOtherDeletion(LeaseCalls(c, Order(c.leases, false)), via, Cleanups(CleanupsHeld(c)));
    }
  }

  lemma FirstThen(via: ExternalCall, more: seq<Entry>)
    requires Deletes(via) && NoneDeletes(more)
    ensures OneDeletion([Entry(via, true)] + more, via)
  {
    assert Entry(via, true) in [Entry(via, true)] + more;
  }

  class DemoService {
    // what the service is configured with
    const actions: set<string>
    const cleaners: set<string>
    // what the outside answers: whether call k succeeds, the type and key of the leases
    // it registers, how many cleanups, the target run it prepares, and the one it deletes
    // when it goes by the run
    const answers: nat -> bool
    const leasesOf: nat -> seq<(string, string)>
    const cleanupsOf: nat -> nat
    const preparedBy: nat -> string
    const ofRun: nat -> Option<string>

    var session: Option<Session>
    var leases: seq<Lease>
    var runtime: Option<Runtime>
    var log: seq<Entry>

    constructor (
        actions: set<string>, cleaners: set<string>, answers: nat -> bool, leasesOf: nat -> seq<(string, string)>,
        cleanupsOf: nat -> nat, preparedBy: nat -> string, ofRun: nat -> Option<string>, session: Option<Session>,
        leases: seq<Lease>)
      requires AtRest(session, leases)
      ensures Valid() && this.session == session && this.leases == leases && runtime.None? && log == []
    {
      this.actions, this.cleaners, this.answers := actions, cleaners, answers;
      this.leasesOf, this.cleanupsOf, this.preparedBy, this.ofRun := leasesOf, cleanupsOf, preparedBy, ofRun;
      this.session, this.leases, runtime, log := session, leases, None, [];
    }

    predicate Valid()
      reads this
    {
      && AtRest(session, leases)
      && (session.Some? && Dormant(session.value) ==> runtime.None?)
    }

    /** Where the service stands. */
    function Standing(): Case
      reads this
    {
      var id := if session.Some? && session.value.targetRunId.Some? then session.value.targetRunId.value else "";
      Case(id, actions, runtime, leases, ofRun, |log|)
    }

    /** The leases that the handler of call `k` registers. */
    function Registered(k: nat): (r: seq<Lease>)
      ensures |r| == |leasesOf(k)| && forall i | 0 <= i < |r| :: r[i] == Lease(leasesOf(k)[i].0, leasesOf(k)[i].1, true)
    {
      var of := leasesOf(k);
      seq(|of|, i requires 0 <= i < |of| => Lease(of[i].0, of[i].1, true))
    }

    /** Where it stands when an action called next has been handled. */
    function Handled(): Case
      reads this
    {
      var more := match runtime
                  case None => None
                  case Some(r) => Some(Runtime(r.since, r.cleanups + cleanupsOf(|log|)));
      Standing().(runtime := more, leases := leases + Registered(|log|), first := |log| + 1)
    }

    method Call(c: ExternalCall) returns (ok: bool)
      modifies this`log
      ensures log == old(log) + [Entry(c, ok)] && ok == answers(|old(log)|)
    {
      ok := answers(|log|);
      log := log + [Entry(c, ok)];
    }

    /** Invoke an action. While it runs its handler may register leases and cleanups with
        the runtime; without a runtime the leases have no local cleanup. */
    method Invoke(name: string, target: Option<string>) returns (ok: bool)
      modifies this`log, this`leases, this`runtime
      ensures name !in actions ==> !ok && log == old(log) && leases == old(leases) && runtime == old(runtime)
      ensures name in actions ==>
                && log == old(log) + [Entry(Act(name, target), ok)] && ok == answers(|old(log)|)
                && leases == old(Handled()).leases && runtime == old(Handled()).runtime
      ensures SameSince(old(runtime), runtime)
      ensures old(leases) <= leases
    {
      if name !in actions { return false; }
      var k := |log|;
      if runtime.Some? {
        runtime := Some(Runtime(runtime.value.since, runtime.value.cleanups + cleanupsOf(k)));
      }
      leases := leases + Registered(k);
      ok := Call(Act(name, target));
    }

    /** Invoke actions in turn until one fails. */
    method InvokeAll(names: seq<string>) returns (ok: bool)
      requires CLEANUP_TARGET !in names && CLEANUP_RUN !in names
      modifies this`log, this`leases, this`runtime
      ensures Keeps(old(log), log)
      ensures ok ==> log == old(log) + Acted(names) && forall n | n in names :: n in actions
      ensures StopsShort(log, |old(log)|)
      ensures SameSince(old(runtime), runtime)
    {
      assert log == old(log) + Acted(names[..0]);
      for i := 0 to |names|
        invariant Keeps(old(log), log)
        invariant SameSince(old(runtime), runtime)
        invariant log == old(log) + Acted(names[..i]) && forall n | n in names[..i] :: n in actions
      {
        assert names[i] in names;
        ok := Invoke(names[i], None);
        if !ok { return; }
        assert names[..i + 1] == names[..i] + [names[i]];
        ActedSnoc(names[..i], names[i]);
      }
      assert names[..|names|] == names;
      ok := true;
    }

    method Release(i: nat)
      requires i < |leases|
      modifies this`leases
      ensures leases == old(leases)[i := old(leases)[i].(active := false)]
    {
      leases := leases[i := leases[i].(active := false)];
    }

    /** The call that cleans up lease `i`, if there is one. */
    function CleanupOf(i: nat): Option<ExternalCall>
      requires i < |leases|
      reads this
    {
      if IsLocal(runtime, i) then Some(LocalCleanup(leases[i].resourceType, ofRun(|log|)))
      else if leases[i].resourceType in cleaners then Some(CleanLease(leases[i].resourceType, leases[i].resourceKey))
      else None
    }

    /** Clean up lease `i` through the runtime's own cleanup or the registered cleaner;
        it fails when there is neither. */
    method CleanUp(i: nat) returns (ok: bool)
      requires i < |leases|
      modifies this`log
      ensures old(CleanupOf(i)).None? ==> !ok && log == old(log)
      ensures old(CleanupOf(i)).Some? ==> log == old(log) + [Entry(old(CleanupOf(i)).value, ok)]
      ensures var l := leases[i];
              if runtime.Some? && i >= runtime.value.since then
                log == old(log) + [Entry(LocalCleanup(l.resourceType, ofRun(|old(log)|)), ok)]
              else if l.resourceType in cleaners then
                log == old(log) + [Entry(CleanLease(l.resourceType, l.resourceKey), ok)]
              else log == old(log) && !ok
    {
      if IsLocal(runtime, i) {
        ok := Call(LocalCleanup(leases[i].resourceType, ofRun(|log|)));
      } else if leases[i].resourceType in cleaners {
        ok := Call(CleanLease(leases[i].resourceType, leases[i].resourceKey));
      } else {
        ok := false;
      }
    }

    /** Clean up lease `i`, if it is held, and release it; that of the target is released,
        if at all, without cleaning up the target. */
    method SuspendLease(i: nat, releaseTarget: bool) returns (ok: bool)
      requires i < |leases|
      modifies this`log, this`leases
      ensures Keeps(old(log), log)
      ensures |leases| == |old(leases)| && forall j | 0 <= j < |leases| && j != i :: leases[j] == old(leases)[j]
      ensures ok && releaseTarget ==> !leases[i].active
      ensures StopsShort(log, |old(log)|) && |log| <= |old(log)| + 1
      ensures ok ==>
                var l := old(leases)[i];
                log == if l.active && l.resourceType != TARGET
                       then old(log) + [Entry(CallOf(old(Standing()), i, |old(log)|), true)]
                       else old(log)
    {
      ok := true;
      if leases[i].active {
        if leases[i].resourceType == TARGET {
          if releaseTarget { Release(i); }
        } else {
          ok := CleanUp(i);
          if ok { Release(i); }
        }
      }
    }

    /** Clean up and release the leases, newest first, and stop at the first failure. */
    method SuspendLeases(releaseTarget: bool) returns (ok: bool)
      modifies this`log, this`leases
      ensures Keeps(old(log), log)
      ensures ok && releaseTarget ==> AllReleased(leases)
      ensures ok ==> log == old(log) + LeaseCalls(old(Standing()), Order(old(leases), true))
      ensures StopsShort(log, |old(log)|) && (ok ==> Succeeds(log, |old(log)|))
    {
      ghost var c := Standing();
      ghost var done: seq<nat> := [];
      HalfwayStarts(c, true, log);
      var i := |leases|;
      while i > 0
        invariant 0 <= i <= |leases| == |c.leases| && forall j | 0 <= j < i :: leases[j] == c.leases[j]
        invariant Keeps(old(log), log)
        invariant releaseTarget ==> forall j | i <= j < |leases| :: !leases[j].active
        invariant Halfway(c, true, done, i, true, old(log), log) && Succeeds(log, |old(log)|)
      {
        i := i - 1;
        ghost var before := log;
        done := HalfwayNext(c, true, done, i, true, old(log), log);
        ok := SuspendLease(i, releaseTarget);
        KeepsTwice(old(log), before, log);
        if !ok { return; }
      }
      HalfwayEnds(c, true, done, true, old(log), log);
      ok := true;
    }

    /** Run the runtime's cleanups, stop at the first failure, and drop the runtime. */
    method SuspendCleanups() returns (ok: bool)
      modifies this`log, this`runtime
      ensures Keeps(old(log), log)
      ensures ok ==> runtime.None? && log == old(log) + Cleanups(CleanupsHeld(old(Standing())))
      ensures StopsShort(log, |old(log)|)
    {
      if runtime.None? { return true; }
      var n := runtime.value.cleanups;
      ghost var k := 0;
      assert log == old(log) + Cleanups(0);
      while n > 0
        invariant Keeps(old(log), log)
        invariant n + k == CleanupsHeld(old(Standing())) && log == old(log) + Cleanups(k)
      {
        n := n - 1;
        ok := Call(RunCleanup);
        if !ok { return; }
        assert Cleanups(k + 1) == Cleanups(k) + [Entry(RunCleanup, true)];
        k := k + 1;
      }
      runtime := None;
      ok := true;
    }

    /** `suspendRuntime`: release everything, newest first, and stop at the first
        failure. The target's lease is released without cleaning up the target. */
    method SuspendRuntime(releaseTarget: bool) returns (ok: bool)
      requires session.Some?
      modifies this
      ensures Keeps(old(log), log)
      ensures session.Some? && session.value == old(session.value).(activeRoute := session.value.activeRoute)
      ensures ok ==> runtime.None? && !session.value.activeRoute
      ensures ok && releaseTarget ==> AllReleased(leases)
      ensures ok ==> log == old(log) + SuspendCalls(old(Standing()))
      ensures StopsShort(log, |old(log)|)
    {
      ghost var c, before := Standing(), log;
      ok := SuspendLeases(releaseTarget);
      if !ok { return; }
      ghost var between := log;
      ok := SuspendCleanups();
      KeepsTwice(before, between, log);
      if !ok { return; }
      Associative(before, LeaseCalls(c, Order(c.leases, true)), Cleanups(CleanupsHeld(c)));
      session := Some(session.value.(activeRoute := false));
    }

    /** Hibernate the target, and suspend all around it. Without that action, or when it
        fails, nothing is suspended. */
    method HibernateTarget() returns (ok: bool)
      requires session.Some?
      modifies this
      ensures Keeps(old(log), log)
      ensures session.Some? && session.value == old(session.value).(activeRoute := session.value.activeRoute)
      ensures ok ==> runtime.None? && !session.value.activeRoute && AllReleased(leases)
      ensures ok ==> HIBERNATE in actions && answers(|old(log)|)
      ensures ok ==> log == old(log) + HibernateCalls(session.value.targetRunId, old(Handled()))
      ensures StopsShort(log, |old(log)|)
      ensures HIBERNATE !in actions ==> !ok && log == old(log) && leases == old(leases) && runtime == old(runtime)
      ensures HIBERNATE in actions && !answers(|old(log)|) ==>
                && !ok && log == old(log) + [Entry(Act(HIBERNATE, session.value.targetRunId), false)]
                && leases == old(Handled()).leases && runtime == old(Handled()).runtime
    {
      ghost var handled, before := Handled(), log;
      ok := Invoke(HIBERNATE, session.value.targetRunId);
      assert Keeps(before, log);
      if !ok { return; }
      assert Standing() == handled;
      ghost var called := log;
      ok := SuspendRuntime(true);
      KeepsTwice(before, called, log);
      Associative(before, [Entry(Act(HIBERNATE, session.value.targetRunId), true)], SuspendCalls(handled));
    }

    /** `hibernateUnlocked`. */
    method HibernateUnlocked() returns (r: Result)
      requires Valid()
      modifies this
      ensures Valid() && Keeps(old(log), log)
      ensures r.Unknown? <==> old(session).None?
      ensures r.Returned? ==>
                session.Some? && session.value.status == HIBERNATED && AllReleased(leases) && runtime.None?
      ensures session.Some? == old(session).Some?
      ensures session.Some? ==>
                && session.value.targetRunId == old(session).value.targetRunId
                && session.value.password == old(session).value.password
      ensures r.Threw? ==>
                if old(session).value.status in HIBERNATABLE && old(session).value.targetRunId.Some?
                then session.value.status == FAILED && session.value.keepWorkspace
                else session == old(session)
      ensures session.Some? && (old(session).value.status == HIBERNATED || old(session).value.status !in HIBERNATABLE ||
                                old(session).value.targetRunId.None?) ==>
                && (r.Returned? <==> old(session).value.status == HIBERNATED)
                && session == old(session) && log == old(log) && Standing() == old(Standing())
      ensures r.Returned? && old(session).value.status != HIBERNATED ==>
                HIBERNATE in actions && log == old(log) + HibernateCalls(session.value.targetRunId, old(Handled()))
      ensures StopsShort(log, |old(log)|)
      ensures session.Some? && old(session).value.status in HIBERNATABLE && old(session).value.targetRunId.Some? ==>
                && (HIBERNATE !in actions ==>
                      r.Threw? && log == old(log) && leases == old(leases) && runtime == old(runtime))
                && (HIBERNATE in actions && !answers(|old(log)|) ==>
                      && r.Threw? && log == old(log) + [Entry(Act(HIBERNATE, session.value.targetRunId), false)]
                      && leases == old(Handled()).leases && runtime == old(Handled()).runtime)
    {
      if session.None? { return Unknown; }
      if session.value.status == HIBERNATED { return Returned; }
      if session.value.status !in HIBERNATABLE { return Threw; }
      if session.value.targetRunId.None? { return Threw; }
      ghost var handled := Handled();
      assert handled == old(Handled());
      session := Some(session.value.(status := HIBERNATING, keepWorkspace := true));
      assert Handled() == handled;
      var ok := HibernateTarget();
      if ok {
        session := Some(session.value.(status := HIBERNATED, keepWorkspace := true, activeRoute := false));
        r := Returned;
      } else {
        session := Some(session.value.(status := FAILED, keepWorkspace := true));
        r := Threw;
      }
    }

    /** Clean up lease `i`, if it is held and not the target's, and release it; without a
        cleaner it is only released. */
    method RecoverLease(i: nat) returns (ok: bool)
      requires i < |leases|
      modifies this`log, this`leases
      ensures Keeps(old(log), log)
      ensures |leases| == |old(leases)| && forall j | 0 <= j < |leases| && j != i :: leases[j] == old(leases)[j]
      ensures ok ==> (leases[i].active ==> leases[i].resourceType == TARGET)
      ensures ok ==> log == old(log) + RecoveryCall(old(leases)[i], cleaners)
    {
      ok := true;
      if leases[i].active && leases[i].resourceType != TARGET {
        if leases[i].resourceType in cleaners {
          ok := Call(CleanLease(leases[i].resourceType, leases[i].resourceKey));
          if !ok { return; }
        }
        Release(i);
      }
    }

    /** `cleanupRecoverableResources`: the leases but for the target's, newest first. */
    method CleanUpRecoverable() returns (ok: bool)
      modifies this`log, this`leases
      ensures Keeps(old(log), log)
      ensures |leases| == |old(leases)|
      ensures ok ==> log == old(log) + RecoveryCalls(old(leases), cleaners)
      ensures ok ==> forall l | l in leases :: l.active ==> l.resourceType == TARGET
    {
      ghost var held, calls := leases, [];
      var i := |leases|;
      assert held[..i] == held && log == old(log) + calls;
      while i > 0
        invariant 0 <= i <= |leases| == |held| && forall j | 0 <= j < i :: leases[j] == held[j]
        invariant Keeps(old(log), log) && log == old(log) + calls
        invariant calls + RecoveryCalls(held[..i], cleaners) == RecoveryCalls(held, cleaners)
        invariant forall j | i <= j < |leases| :: leases[j].active ==> leases[j].resourceType == TARGET
      {
        i := i - 1;
        ghost var before := log;
        RecoveryNext(held, i, cleaners, calls);
        Associative(old(log), calls, RecoveryCall(held[i], cleaners));
        ok := RecoverLease(i);
        KeepsTwice(old(log), before, log);
        if !ok { return; }
        calls := calls + RecoveryCall(held[i], cleaners);
      }
      assert held[..0] == [] && calls + [] == calls;
      ok := true;
    }

    /** The leases of an earlier service, and then the release of those of its target. */
    method RecoverLeases() returns (ok: bool)
      modifies this`log, this`leases
      ensures Keeps(old(log), log)
      ensures |leases| == |old(leases)|
      ensures ok ==> AllReleased(leases) && log == old(log) + RecoveryCalls(old(leases), cleaners)
    {
      ok := CleanUpRecoverable();
      if !ok { return; }
      var i := 0;
      ghost var recovered := log;
      while i < |leases|
        invariant 0 <= i <= |leases| == |old(leases)| && log == recovered
        invariant forall j | 0 <= j < i :: !leases[j].active
      {
        if leases[i].active { Release(i); }
        i := i + 1;
      }
    }

    /** Bring the saved target back and start everything around it. Another target than
        the saved one is refused. */
    method RestartTarget(target: Option<string>) returns (ok: bool)
      modifies this`log, this`leases, this`runtime
      ensures Keeps(old(log), log)
      ensures SameSince(old(runtime), runtime)
      ensures ok ==> target == Some(preparedBy(|old(log)|))
      ensures ok ==> forall n | n in RESUME_ACTIONS :: n in actions
      ensures ok ==> log == old(log) + RestartCalls(target)
    {
      var k := |log|;
      ghost var prepared, restarted := Act("target.prepare-run", None), Act("target.resume-run", target);
      assert !Deletes(prepared) && !Deletes(restarted);
      ok := Invoke("target.prepare-run", None);
      RestartLog(old(log), Entry(prepared, ok), Entry(restarted, ok), []);
      if !ok { return; }
      if Some(preparedBy(k)) != target { return false; }
      ok := Invoke("target.resume-run", target);
      RestartLog(old(log), Entry(prepared, true), Entry(restarted, ok), Acted(RESUME_ACTIONS));
      if !ok { return; }
      ghost var resumed := log;
      ok := InvokeAll(RESUME_ACTIONS);
      KeepsTwice(old(log), resumed, log);
    }

    /** `resumeSession` from hibernation. */
    method ResumeSession() returns (ok: bool)
      requires session.Some? && session.value.status == RESUMING
      modifies this
      ensures Keeps(old(log), log)
      ensures session.Some?
      ensures session.value.targetRunId == old(session).value.targetRunId
      ensures session.value.password == old(session).value.password
      ensures session.value.status == if ok then READY else RESUMING
      ensures ok ==> runtime.Some? && runtime.value.since == |old(leases)| && session.value.activeRoute
      ensures ok ==> log == old(log) + ResumeCalls(old(leases), cleaners, session.value.targetRunId)
    {
      // reading the visitor profiles may fail
      ok := Call(Act("profiles", None));
      KeepsOne(old(log), old(log), Entry(Act("profiles", None), ok));
      if !ok { return; }
      ghost var ready := log;
      ok := RecoverLeases();
      KeepsTwice(old(log), ready, log);
      if !ok { return; }
      runtime := Some(Runtime(|leases|, 0));
      session := Some(session.value.(activeRoute := false));
      ghost var recovered := log;
      ok := RestartTarget(session.value.targetRunId);
      KeepsTwice(old(log), recovered, log);
      ResumeLog(old(log), old(leases), cleaners, session.value.targetRunId);
      if ok { session := Some(session.value.(status := READY, activeRoute := true)); }
    }

    /** A session that can be resumed: it is hibernated, with its target and password. */
    predicate CanResume()
      reads this
    {
      && session.Some? && session.value.status == HIBERNATED
      && session.value.targetRunId.Some? && session.value.password.Some?
    }

    /** `resume`. A failed resume hibernates the session again. */
    method ResumeLocked() returns (r: Result)
      requires Valid()
      modifies this
      ensures Valid() && Keeps(old(log), log)
      ensures r.Unknown? <==> old(session).None?
      ensures r.Returned? ==> session.Some? && (session.value.status == READY || session.value.status == ACTIVE)
      ensures session.Some? == old(session).Some?
      ensures session.Some? ==>
                && session.value.targetRunId == old(session).value.targetRunId
                && session.value.password == old(session).value.password
      ensures session.Some? && !old(CanResume()) ==>
                && (r.Returned? <==> old(session).value.status == READY || old(session).value.status == ACTIVE)
                && session == old(session) && log == old(log) && Standing() == old(Standing())
      ensures r.Returned? && old(session).value.status == HIBERNATED ==>
                log == old(log) + ResumeCalls(old(leases), cleaners, session.value.targetRunId)
      ensures r.Threw? && session != old(session) ==>
                session.value.status == HIBERNATED || (session.value.status == FAILED && session.value.keepWorkspace)
    {
      if session.None? { return Unknown; }
      if session.value.status == READY || session.value.status == ACTIVE { return Returned; }
      if session.value.status != HIBERNATED { return Threw; }
      if session.value.targetRunId.None? || session.value.password.None? { return Threw; }
      session := Some(session.value.(status := RESUMING));
      var ok := ResumeSession();
      if ok { return Returned; }
      var again := HibernateUnlocked();
      r := Threw;
    }

    /** Delete the target through whichever action is available. */
    method DeleteTarget() returns (deleted: bool, failed: bool)
      requires session.Some? && session.value.targetRunId.Some?
      modifies this`log, this`leases, this`runtime
      ensures old(log) <= log && runtime.Some? == old(runtime).Some?
      ensures !deleted && !failed ==>
                && log == old(log) && leases == old(leases) && runtime == old(runtime)
                && CLEANUP_TARGET !in actions && !(runtime.Some? && CLEANUP_RUN in actions)
      ensures deleted || failed ==> leases == old(Handled()).leases && runtime == old(Handled()).runtime
      ensures deleted || failed <==> old(DeletesByAction())
      ensures deleted ==>
                && !failed
                && (CLEANUP_TARGET in actions || (old(runtime).Some? && CLEANUP_RUN in actions))
                && log == old(log) + [Entry(if CLEANUP_TARGET in actions
                                            then Act(CLEANUP_TARGET, session.value.targetRunId)
                                            else Act(CLEANUP_RUN, ofRun(|old(log)|)), true)]
    {
      deleted, failed := false, false;
      if CLEANUP_TARGET in actions {
        deleted := Invoke(CLEANUP_TARGET, session.value.targetRunId);
        failed := !deleted;
      } else if runtime.Some? && CLEANUP_RUN in actions {
        deleted := Invoke(CLEANUP_RUN, ofRun(|log|));
        failed := !deleted;
      }
    }

    /** Clean up lease `i`, if it is held, and release it; nothing is left to clean up of a
        target already deleted. */
    method CleanUpLease(i: nat, deleted: bool) returns (ok: bool, now: bool)
      requires i < |leases|
      modifies this`log, this`leases
      ensures old(log) <= log && LeaseTried(old(Standing()), i, leases, cleaners, log, ok)
      ensures ok ==> Cleaned(old(Standing()), i, deleted, old(log), now, log)
    {
      ok, now := true, deleted;
      if leases[i].active && !(deleted && leases[i].resourceType == TARGET) {
        ok := CleanUp(i);
        now := deleted || (ok && leases[i].resourceType == TARGET);
        if !ok && |log| > |old(log)| { assert log[|old(log)|] == Entry(CallOf(old(Standing()), i, |old(log)|), false); }
      }
      if ok { Release(i); }
    }

    /** Clean up every lease, newest first, whatever fails. */
    method CleanUpLeases(deleted: bool) returns (errors: nat, now: bool)
      modifies this`log, this`leases
      ensures old(log) <= log
      ensures errors == 0 ==>
                && AllReleased(leases) && now == (deleted || NewestTarget(old(leases)).Some?)
                && log == old(log) + LeaseCalls(old(Standing()), Order(old(leases), deleted))
      ensures LeftExcused(old(Standing()), leases, cleaners, log, |old(log)|)
    {
      errors, now := 0, deleted;
      ghost var c, from := Standing(), log;
      ghost var done: seq<nat> := [];
      HalfwayStarts(c, deleted, log);
      NewestIff(leases);
      var i := |leases|;
      while i > 0
        invariant 0 <= i <= |leases| == |c.leases| && forall j | 0 <= j < i :: leases[j] == c.leases[j]
        invariant from <= log
        invariant errors == 0 ==> Clear(c, deleted, done, i, now, from, log, leases)
        invariant LeftFrom(c, i, leases, cleaners, log, |from|)
      {
        i := i - 1;
        ghost var d, before, held, gone := Standing(), log, leases, now;
        var ok;
        ok, now := CleanUpLease(i, now);
        LeftNext(c, d, i, held, before, leases, log, cleaners, |from|, |before|, ok);
        if !ok {
          errors := errors + 1;
        } else if errors == 0 {
          done := ClearNext(c, d, deleted, done, i, gone, from, before, held, log, now, leases, cleaners);
        }
      }
      if errors == 0 { HalfwayEnds(c, deleted, done, now, from, log); }
    }

    /** Run every cleanup of the runtime, whatever fails, and drop the runtime. */
    method RunCleanups() returns (errors: nat)
      modifies this`log, this`runtime
      ensures Keeps(old(log), log) && runtime.None?
      ensures errors == 0 ==> log == old(log) + Cleanups(CleanupsHeld(old(Standing())))
      ensures |log| == |old(log)| + CleanupsHeld(old(Standing()))
      ensures forall j | |old(log)| <= j < |log| :: log[j].call == RunCleanup
    {
      errors := 0;
      ghost var k := 0;
      assert log == old(log) + Cleanups(0);
      if runtime.Some? {
        var n := runtime.value.cleanups;
        while n > 0
          invariant Keeps(old(log), log)
          invariant n + k == CleanupsHeld(old(Standing())) && (errors == 0 ==> log == old(log) + Cleanups(k))
          invariant |log| == |old(log)| + k && forall j | |old(log)| <= j < |log| :: log[j].call == RunCleanup
        {
          n := n - 1;
          var ok := Call(RunCleanup);
          assert Cleanups(k + 1) == Cleanups(k) + [Entry(RunCleanup, true)];
          k := k + 1;
          if !ok { errors := errors + 1; }
        }
        runtime := None;
      }
    }

    /** There is an action to delete the target with. */
    predicate DeletesByAction()
      reads this
    {
      && session.Some? && session.value.targetRunId.Some?
      && (CLEANUP_TARGET in actions || (runtime.Some? && CLEANUP_RUN in actions))
    }

    /** What is standing when the leases' turn comes. */
    function Approached(): Case
      reads this
    {
      if DeletesByAction() then Handled() else Standing()
    }

    /** `cleanupSession`: delete the target, then clean up every lease and run every
        cleanup whatever fails; `errors` counts the failures. */
    method CleanupSession() returns (errors: nat)
      requires session.Some?
      modifies this`log, this`leases, this`runtime
      ensures old(log) <= log && runtime.None?
      ensures errors == 0 ==> AllReleased(leases)
      ensures errors == 0 ==>
                log == old(log) + StopCalls(old(Standing()), old(Handled()), session.value.targetRunId)
      ensures errors == 0 && session.value.targetRunId.Some? ==>
                || CLEANUP_TARGET in actions || (old(runtime).Some? && CLEANUP_RUN in actions)
                || NewestTarget(old(leases)).Some?
      ensures Tried(old(Approached()), leases, cleaners, log, |old(log)|)
    {
      ghost var approached, before := Approached(), log;
      var deleted, failed := false, false;
      if session.value.targetRunId.Some? { deleted, failed := DeleteTarget(); }
      ghost var c', first := Standing(), log;
      errors, deleted := CleanUpLeases(deleted);
      ghost var cleaned := log;
      if failed || (session.value.targetRunId.Some? && !deleted) { errors := errors + 1; }
      var more := RunCleanups();
      TriedAll(c', approached, leases, cleaners, cleaned, |first|, log, |before|);
      errors := errors + more;
      if errors == 0 {
        var order := Order(c'.leases, first != before);
        StopLog(before, first[|before|..], LeaseCalls(c', order), Cleanups(CleanupsHeld(c')));
        assert first == before + first[|before|..];
      }
    }

    /** `stop`. A session that it reports STOPPED had a target deleted by one call: the one
        that is `Gone`. That is the session's own if the action that is given the target
        exists; else the one that goes by the run, if there is an action for that; else what
        the cleanup of the newest target lease deletes, its own cleanup whatever goes by the
        run at that call, a cleaner the target whose id the lease carries. */
    method StopLocked() returns (r: Result)
      requires Valid()
      modifies this
      ensures Valid() && old(log) <= log
      ensures r.Unknown? <==> old(session).None?
      ensures session.Some? == old(session).Some?
      ensures session.Some? ==> r.Returned? && (session.value.status == STOPPED || session.value.status == FAILED)
      ensures session.Some? && old(session).value.status == STOPPED ==>
                session == old(session) && log == old(log) && Standing() == old(Standing())
      ensures session.Some? && session.value.status == STOPPED ==>
                session.value.password.None? && AllReleased(leases) && runtime.None?
      ensures session.Some? && old(session).value.status != STOPPED ==>
                Tried(old(Approached()), leases, cleaners, log, |old(log)|)
      ensures session.Some? && session.value.status == STOPPED && old(session).value.status != STOPPED ==>
                && session.value.targetRunId == old(session).value.targetRunId
                && log == old(log) + StopCalls(old(Standing()), old(Handled()), session.value.targetRunId)
                && (session.value.targetRunId.Some? ==>
                      var id, calls := session.value.targetRunId.value, log[|old(log)|..];
                      && (exists c :: OneDeletion(calls, c) && TargetOf(c) == Gone(old(Standing())))
                      && (DeletionConfirmed(calls, id) <==> Gone(old(Standing())) == Some(id))
                      && (CLEANUP_TARGET in actions || (old(runtime).Some? && CLEANUP_RUN in actions) ||
                          NewestTarget(old(leases)).Some?))
    {
      if session.None? { return Unknown; }
      if session.value.status == STOPPED { return Returned; }
      session := Some(session.value.(status := DELETING));
      ghost var c, handled, before := Standing(), Handled(), log;
      assert c == old(Standing()) && handled == old(Handled()) && Approached() == old(Approached());
      var errors := CleanupSession();
      session := Some(
        if errors == 0 then session.value.(status := STOPPED, password := None)
        else session.value.(status := FAILED));
      if errors == 0 && session.value.targetRunId.Some? {
        var via := StopDeletes(c, handled);
        assert log[|before|..] == StopCalls(c, handled, Some(c.id));
        StopsGone(via, c);
        ConfirmedIff(log[|before|..], via, c.id);
      }
      r := Returned;
    }

    /** Any sequence of locked operations keeps the invariant, and only a stop ever
        deletes the target workspace. */
    method RunOperations(ops: seq<Op>) returns (results: seq<Result>)
      requires Valid()
      modifies this
      ensures Valid() && |results| == |ops| && old(log) <= log
      ensures Stop !in ops ==> NoneDeletes(log[|old(log)|..])
      ensures Stop !in ops && session.Some? ==>
                old(session).Some? && session.value.targetRunId == old(session).value.targetRunId
                && session.value.password == old(session).value.password
    {
      results := [];
      for i := 0 to |ops|
        invariant Valid() && |results| == i && old(log) <= log
        invariant Stop !in ops[..i] ==> NoneDeletes(log[|old(log)|..])
        invariant Stop !in ops[..i] && session.Some? ==>
                    old(session).Some? && session.value.targetRunId == old(session).value.targetRunId
                    && session.value.password == old(session).value.password
      {
        ghost var before, mark := log[|old(log)|..], |log|;
        var r;
        match ops[i] {
          case Hibernate => r := HibernateUnlocked();
          case Resume => r := ResumeLocked();
          case Stop => r := StopLocked();
        }
        assert log[|old(log)|..] == before + log[mark..];
        assert ops[..i + 1] == ops[..i] + [ops[i]];
        results := results + [r];
      }
      assert ops[..|ops|] == ops;
    }
  }
}
