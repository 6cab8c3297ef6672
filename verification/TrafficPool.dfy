/** The worker pool of a traffic batch, under every interleaving of its workers. */
module TrafficPool {
  import opened Json
  import opened Texts

  /** The result of request `index`. */
  datatype RequestResult = RequestResult(index: nat, passed: bool)

  /** A worker is about to claim, busy with a request, finished, or has thrown. */
  datatype Worker = Claiming | Busy(index: nat) | Done | Thrown

  datatype Pool = Pool(
    next: nat, workers: seq<Worker>, results: seq<Option<RequestResult>>, timedOut: bool, aborted: bool)

  /** Steps between awaits. A request throws only when its signal is aborted, by the
      batch deadline or by the parent. */
  datatype Event =
    | Claim(worker: nat)
    | Finish(worker: nat, passed: bool)
    | Interrupt(worker: nat)
    | Deadline
    | ParentAbort

  function Start(requests: nat, concurrency: nat): Pool {
    Pool(0, seq(concurrency, _ => Claiming), seq(requests, _ => None), false, false)
  }

  function Advance(p: Pool, e: Event): Pool {
    match e
    case Claim(w) =>
      if w < |p.workers| && p.workers[w].Claiming? then
        p.(next := p.next + 1, workers := p.workers[w := if p.next < |p.results| then Busy(p.next) else Done])
      else p
    case Finish(w, passed) =>
      if w < |p.workers| && p.workers[w].Busy? && p.workers[w].index < |p.results| then
        var i := p.workers[w].index;
        p.(workers := p.workers[w := Claiming], results := p.results[i := Some(RequestResult(i, passed))])
      else p
    case Interrupt(w) =>
      if w < |p.workers| && p.workers[w].Busy? && p.workers[w].index < |p.results| && (p.timedOut || p.aborted) then
        var i := p.workers[w].index;
        if p.aborted then p.(workers := p.workers[w := Thrown])
        else p.(workers := p.workers[w := Claiming], results := p.results[i := Some(RequestResult(i, false))])
      else p
    case Deadline => p.(timedOut := true)
    case ParentAbort => p.(aborted := true)
  }

  function Play(p: Pool, events: seq<Event>): Pool
    decreases |events|
  {
    if events == [] then p else Play(Advance(p, events[0]), events[1..])
  }

  // ----- the invariant -----

  /** Some worker is busy with request `i`. */
  predicate InFlight(p: Pool, i: nat) { Busy(i) in p.workers }

  /** Each request below `next` is claimed by exactly one worker or has its result;
      those from `next` on are untouched; a worker stops only when none are left. */
  ghost predicate Valid(p: Pool) {
    && (forall i | 0 <= i < |p.results| ::
          && (p.results[i].Some? ==> p.results[i].value.index == i && i < p.next)
          && (InFlight(p, i) ==> i < p.next && p.results[i].None?)
          && (i < p.next && p.results[i].None? && Thrown !in p.workers ==> InFlight(p, i)))
    && (forall v, w | 0 <= v < w < |p.workers| && p.workers[v].Busy? :: p.workers[v] != p.workers[w])
    && (forall w | 0 <= w < |p.workers| && p.workers[w].Busy? :: p.workers[w].index < |p.results|)
    && (Done in p.workers ==> p.next >= |p.results|)
    && (Thrown in p.workers ==> p.aborted)
  }

  lemma WorkerAfter(workers: seq<Worker>, w: nat, x: Worker, y: Worker)
    requires w < |workers|
    ensures y in workers[w := x] ==> y == x || y in workers
    ensures y in workers && y != workers[w] ==> y in workers[w := x]
    ensures x in workers[w := x]
  {
    var after := workers[w := x];
    assert after[w] == x;
    if y in workers && y != workers[w] {
      var i :| 0 <= i < |workers| && workers[i] == y;
      assert after[i] == y;
    }
    if y in after {
      var i :| 0 <= i < |after| && after[i] == y;
      assert i != w ==> workers[i] == y;
    }
  }

  /** A busy worker holds its request alone. */
  lemma HeldAlone(p: Pool, w: nat, x: Worker)
    requires Valid(p) && w < |p.workers| && p.workers[w].Busy? && !x.Busy?
    ensures p.workers[w] !in p.workers[w := x]
  {
    var after := p.workers[w := x];
    forall i | 0 <= i < |after| ensures after[i] != p.workers[w] {
      if i < w {
        assert p.workers[i].Busy? ==> p.workers[i] != p.workers[w];
      } else if w < i {
        assert p.workers[w] != p.workers[i];
      }
    }
  }

  lemma ClaimValid(p: Pool, w: nat)
    requires Valid(p)
    ensures Valid(Advance(p, Claim(w)))
  {
    var q := Advance(p, Claim(w));
    if q != p {
      var x := q.workers[w];
      forall y: Worker
        ensures y in q.workers ==> y == x || y in p.workers
        ensures y in p.workers && !y.Claiming? ==> y in q.workers
      {
        WorkerAfter(p.workers, w, x, y);
      }
      WorkerAfter(p.workers, w, x, x);
      assert Busy(p.next) in p.workers ==> p.next < |p.results| by {
        if Busy(p.next) in p.workers { var v :| 0 <= v < |p.workers| && p.workers[v] == Busy(p.next); }
      }
      assert p.next < |p.results| ==> !InFlight(p, p.next);
    }
  }

  lemma FilledValid(p: Pool, w: nat, r: RequestResult)
    requires Valid(p) && w < |p.workers| && p.workers[w] == Busy(r.index)
    ensures r.index < |p.results|
    ensures Valid(p.(workers := p.workers[w := Claiming], results := p.results[r.index := Some(r)]))
  {
    var q := p.(workers := p.workers[w := Claiming], results := p.results[r.index := Some(r)]);
    forall y: Worker
      ensures y in q.workers ==> y == Claiming || y in p.workers
      ensures y in p.workers && y != Busy(r.index) ==> y in q.workers
    {
      WorkerAfter(p.workers, w, Claiming, y);
    }
    HeldAlone(p, w, Claiming);
    assert InFlight(p, r.index);
  }

  lemma ThrownValid(p: Pool, w: nat)
    requires Valid(p) && w < |p.workers| && p.workers[w].Busy? && p.aborted
    ensures Valid(p.(workers := p.workers[w := Thrown]))
  {
    var q := p.(workers := p.workers[w := Thrown]);
    forall y: Worker ensures (y in q.workers ==> y == Thrown || y in p.workers) {
      WorkerAfter(p.workers, w, Thrown, y);
    }
    WorkerAfter(p.workers, w, Thrown, Thrown);
  }

  lemma AdvanceValid(p: Pool, e: Event)
    requires Valid(p)
    ensures Valid(Advance(p, e))
    ensures |Advance(p, e).workers| == |p.workers| && |Advance(p, e).results| == |p.results|
  {
    match e
    case Claim(w) => ClaimValid(p, w);
    case Finish(w, passed) =>
      if Advance(p, e) != p { FilledValid(p, w, RequestResult(p.workers[w].index, passed)); }
    case Interrupt(w) =>
      if Advance(p, e) != p {
        if p.aborted { ThrownValid(p, w); } else { FilledValid(p, w, RequestResult(p.workers[w].index, false)); }
      }
    case _ =>
  }

  lemma {:induction false} PlayValid(p: Pool, events: seq<Event>)
    requires Valid(p)
    ensures var q := Play(p, events);
            Valid(q) && |q.workers| == |p.workers| && |q.results| == |p.results|
    decreases |events|
  {
    if events == [] {
    } else {
      AdvanceValid(p, events[0]);
      PlayValid(Advance(p, events[0]), events[1..]);
    }
  }

  lemma StartValid(requests: nat, concurrency: nat)
    ensures Valid(Start(requests, concurrency))
  {
    var p := Start(requests, concurrency);
    forall w | w in p.workers ensures w == Claiming {}
  }

  // ----- claims -----

  /** The requests claimed along a schedule, in order. */
  function Claims(p: Pool, events: seq<Event>): seq<nat>
    decreases |events|
  {
    if events == [] then []
    else
      var q := Advance(p, events[0]);
      (if q.next > p.next && p.next < |p.results| then [p.next] else []) + Claims(q, events[1..])
  }

  function Least(a: nat, b: nat): nat { if a < b then a else b }

  /** Requests are claimed once each, in order. */
  lemma {:induction false} ClaimedOnce(p: Pool, events: seq<Event>)
    ensures var q := Play(p, events);
            p.next <= q.next && |q.results| == |p.results|
            && |Claims(p, events)| == Least(q.next, |p.results|) - Least(p.next, |p.results|)
            && forall i | 0 <= i < |Claims(p, events)| :: Claims(p, events)[i] == p.next + i
    decreases |events|
  {
    if events == [] {
    } else {
      ClaimedOnce(Advance(p, events[0]), events[1..]);
    }
  }

  /** How many requests are in flight. */
  function InFlightCount(workers: seq<Worker>): nat {
    if workers == [] then 0 else (if workers[0].Busy? then 1 else 0) + InFlightCount(workers[1..])
  }

  lemma {:induction false} InFlightBounded(workers: seq<Worker>)
    ensures InFlightCount(workers) <= |workers|
  {
    if workers == [] {
    } else {
      InFlightBounded(workers[1..]);
    }
  }

  // ----- the report -----

  datatype BatchReport = BatchReport(
    passed: bool, results: seq<RequestResult>, passedCount: int, failedCount: nat, timedOut: bool)

  function FailedIn(results: seq<RequestResult>): nat {
    if results == [] then 0 else FailedIn(results[1..]) + if results[0].passed then 0 else 1
  }

  /** Slots left empty count as cut off by the deadline. */
  function Finalized(p: Pool): seq<RequestResult> {
    seq(|p.results|,
        i requires 0 <= i < |p.results| =>
          if p.results[i].Some? then p.results[i].value else RequestResult(i, false))
  }

  function Report(p: Pool): BatchReport {
    var results := Finalized(p);
    var failed := FailedIn(results);
    BatchReport(!p.timedOut && failed == 0, results, |results| - failed, failed, p.timedOut)
  }

  lemma {:induction false} FailedCounts(results: seq<RequestResult>)
    ensures FailedIn(results) <= |results|
    ensures FailedIn(results) == 0 <==> forall r | r in results :: r.passed
  {
    if results == [] {
    } else {
      FailedCounts(results[1..]);
      assert forall r | r in results :: r == results[0] || r in results[1..];
    }
  }

  /** The requests that failed. */
  function FailedSet(results: seq<RequestResult>): set<int> {
    set i | 0 <= i < |results| && !results[i].passed
  }

  /** The number of failures is the number of results that have not passed. */
  lemma {:induction false} FailedIsSize(results: seq<RequestResult>)
    ensures FailedIn(results) == |FailedSet(results)|
  {
    if results == [] {
      assert FailedSet(results) == {};
    } else {
      var init, last := results[..|results| - 1], |results| - 1;
      FailedSnoc(results);
      FailedIsSize(init);
      assert FailedSet(results) == FailedSet(init) + (if results[last].passed then {} else {last});
    }
  }

  lemma {:induction false} FailedSnoc(results: seq<RequestResult>)
    requires results != []
    ensures FailedIn(results) ==
            FailedIn(results[..|results| - 1]) + if results[|results| - 1].passed then 0 else 1
  {
    if |results| == 1 {
      assert results[1..] == [];
    } else {
      assert results[1..][..|results| - 2] == results[..|results| - 1][1..];
      FailedSnoc(results[1..]);
    }
  }

  /** Every worker has left its loop without throwing. */
  predicate Finished(p: Pool) { forall w | w in p.workers :: w.Done? }

  /** Whatever the interleaving and whenever the deadline fires, short of a parent
      abort: each request is claimed once; at most `concurrency` are in flight; when
      the workers finish every slot holds the result of its own request and no slot
      needed filling in; the counts add up; and the batch passed exactly when the
      deadline did not fire and every request passed. */
  lemma BatchCorrect(requests: nat, concurrency: nat, events: seq<Event>)
    requires concurrency > 0
    ensures var p := Play(Start(requests, concurrency), events);
            && |p.results| == requests && InFlightCount(p.workers) <= concurrency
            && (Finished(p) ==>
                  && |Claims(Start(requests, concurrency), events)| == requests
                  && (forall i | 0 <= i < requests :: Claims(Start(requests, concurrency), events)[i] == i)
                  && (forall i | 0 <= i < requests :: p.results[i].Some? && p.results[i].value.index == i))
            && var r := Report(p);
               && |r.results| == requests && r.passedCount + r.failedCount == requests && r.passedCount >= 0
               && (forall i | 0 <= i < requests :: r.results[i].index == i)
               && r.failedCount == |FailedSet(r.results)|
               && (r.passed <==> !p.timedOut && forall x | x in r.results :: x.passed)
  {
    var start := Start(requests, concurrency);
    var p := Play(start, events);
    StartValid(requests, concurrency);
    PlayValid(start, events);
    ClaimedOnce(start, events);
    InFlightBounded(p.workers);
    FailedCounts(Finalized(p));
    FailedIsSize(Finalized(p));
    if Finished(p) {
      assert p.workers[0] in p.workers;
      assert Thrown !in p.workers;
    }
  }

  // ----- whose result is in a slot -----

  /** Event `k` stored `r`: a worker that was busy with the request finished it, or was
      interrupted by the deadline. */
  predicate StoredAt(start: Pool, events: seq<Event>, k: nat, r: RequestResult)
    requires k < |events|
  {
    var p := Play(start, events[..k]);
    match events[k]
    case Finish(w, passed) => w < |p.workers| && p.workers[w] == Busy(r.index) && r.passed == passed
    case Interrupt(w) => w < |p.workers| && p.workers[w] == Busy(r.index) && p.timedOut && !p.aborted && !r.passed
    case _ => false
  }

  lemma {:induction false} PlaySnoc(p: Pool, events: seq<Event>, e: Event)
    ensures Play(p, events + [e]) == Advance(Play(p, events), e)
    decreases |events|
  {
    if events == [] {
      assert events + [e] == [e] && [e][1..] == [];
    } else {
      assert (events + [e])[1..] == events[1..] + [e];
      PlaySnoc(Advance(p, events[0]), events[1..], e);
    }
  }

  /** Each result in a slot was stored there by the worker that had claimed the request:
      it passed if its worker finished it so, and not if the deadline cut it off. */
  lemma {:induction false} ResultsStored(requests: nat, concurrency: nat, events: seq<Event>, i: nat)
    requires i < requests
    ensures var start := Start(requests, concurrency);
            var p := Play(start, events);
            && i < |p.results|
            && (p.results[i].Some? ==>
                  && p.results[i].value.index == i
                  && exists k :: 0 <= k < |events| && StoredAt(start, events, k, p.results[i].value))
    decreases |events|
  {
    var start := Start(requests, concurrency);
    if events != [] {
      var before, e := events[..|events| - 1], events[|events| - 1];
      assert events == before + [e];
      PlaySnoc(start, before, e);
      ResultsStored(requests, concurrency, before, i);
      var p, q := Play(start, before), Play(start, events);
      assert events[..|before|] == before;
      if q.results[i] != p.results[i] {
        assert StoredAt(start, events, |before|, q.results[i].value);
      } else if q.results[i].Some? {
        var k :| 0 <= k < |before| && StoredAt(start, before, k, q.results[i].value);
        assert events[..k] == before[..k] && StoredAt(start, events, k, q.results[i].value);
      }
    }
  }

  // ----- the pool in place -----

  class BatchPool {
    var next: nat
    var workers: array<Worker>
    var results: array<Option<RequestResult>>
    var timedOut: bool
    var aborted: bool

    constructor (requests: nat, concurrency: nat)
      ensures fresh(workers) && fresh(results)
      ensures Contents() == Start(requests, concurrency)
    {
      next, timedOut, aborted := 0, false, false;
      workers := new Worker[concurrency](_ => Claiming);
      results := new Option<RequestResult>[requests](_ => None);
    }

    function Contents(): Pool
      reads this, workers, results
    {
      Pool(next, workers[..], results[..], timedOut, aborted)
    }

    /** The top of a worker's loop: claim the next request or stop. */
    method ClaimNext(w: nat)
      requires w < workers.Length && workers[w].Claiming?
      modifies this`next, workers
      ensures Contents() == Advance(old(Contents()), Claim(w))
    {
      var index := next;
      next := next + 1;
      workers[w] := if index < results.Length then Busy(index) else Done;
    }

    /** A worker's request has completed. */
    method Store(w: nat, passed: bool)
      requires w < workers.Length && workers[w].Busy? && workers[w].index < results.Length
      modifies workers, results
      ensures Contents() == Advance(old(Contents()), Finish(w, passed))
    {
      var index := workers[w].index;
      results[index] := Some(RequestResult(index, passed));
      workers[w] := Claiming;
    }

    /** A worker's request threw. */
    method Catch(w: nat)
      requires w < workers.Length && workers[w].Busy? && workers[w].index < results.Length && (timedOut || aborted)
      modifies workers, results
      ensures Contents() == Advance(old(Contents()), Interrupt(w))
    {
      var index := workers[w].index;
      if aborted {
        workers[w] := Thrown;
      } else {
        results[index] := Some(RequestResult(index, false));
        workers[w] := Claiming;
      }
    }

    /** The timer of the batch fires, or the caller aborts. */
    method Stop(byDeadline: bool)
      modifies this`timedOut, this`aborted
      ensures Contents() == Advance(old(Contents()), if byDeadline then Deadline else ParentAbort)
    {
      if byDeadline { timedOut := true; } else { aborted := true; }
    }

    /** What one event does; an event that cannot happen now does nothing. */
    method Step(e: Event)
      modifies this`next, this`timedOut, this`aborted, workers, results
      ensures Contents() == Advance(old(Contents()), e)
    {
      match e
      case Claim(w) => if w < workers.Length && workers[w].Claiming? { ClaimNext(w); }
      case Finish(w, passed) =>
        if w < workers.Length && workers[w].Busy? && workers[w].index < results.Length { Store(w, passed); }
      case Interrupt(w) =>
        if w < workers.Length && workers[w].Busy? && workers[w].index < results.Length && (timedOut || aborted) {
          Catch(w);
        }
      case Deadline => Stop(true);
      case ParentAbort => Stop(false);
    }
  }

  // ----- the whole batch -----

  /** How a batch stands: workers still going, given up because the caller aborted, or
      reported. */
  datatype Outcome = Going | Cancelled | Reported(report: BatchReport)

  /** `executeBatch` along the events of its workers and timers. It throws only if the
      caller aborted. Otherwise, once every worker has left its loop, the report has the
      result of each request in its own slot, as its worker stored it, and passes exactly
      when the deadline has not fired and every request passed. */
  method ExecuteBatch(requests: nat, concurrency: nat, events: seq<Event>) returns (outcome: Outcome)
    requires concurrency > 0
    ensures var p := Play(Start(requests, concurrency), events);
            && (outcome.Cancelled? ==> p.aborted)
            && (outcome.Reported? <==> Finished(p) && !p.aborted)
    ensures outcome.Reported? ==>
              var p, r := Play(Start(requests, concurrency), events), outcome.report;
              && |r.results| == |p.results| == requests && r.timedOut == p.timedOut
              && (forall i | 0 <= i < requests :: r.results[i].index == i && p.results[i] == Some(r.results[i]))
              && r.passedCount + r.failedCount == requests && r.passedCount >= 0
              && (r.passed <==> !r.timedOut && forall x | x in r.results :: x.passed)
  {
    var pool := new BatchPool(requests, concurrency);
    for i := 0 to |events|
      invariant fresh(pool) && fresh(pool.workers) && fresh(pool.results)
      invariant Play(Start(requests, concurrency), events) == Play(pool.Contents(), events[i..])
    {
      assert events[i..][0] == events[i] && events[i..][1..] == events[i + 1..];
      pool.Step(events[i]);
    }
    BatchCorrect(requests, concurrency, events);
    var p := pool.Contents();
    assert p == Play(Start(requests, concurrency), events);
    PoolThrows(requests, concurrency, events);
    if Thrown in p.workers { return Cancelled; }
    if exists w :: w in p.workers && !w.Done? { return Going; }
    outcome := if p.aborted then Cancelled else Reported(Report(p));
  }

  lemma PoolThrows(requests: nat, concurrency: nat, events: seq<Event>)
    ensures var p := Play(Start(requests, concurrency), events); Thrown in p.workers ==> p.aborted
  {
    StartValid(requests, concurrency);
    PlayValid(Start(requests, concurrency), events);
  }

  // ----- generated request ids -----

  function Digit(d: nat): char { ('0' as int + d % 10) as char }

  /** `repeatedRequestId`: refused when the id would exceed 64 characters. */
  function RepeatedId(base: string, ordinal: nat): Option<string> {
    var suffix := "-" + Numeral(ordinal, Digit);
    if 64 - |suffix| < 1 || |base| > 64 - |suffix| then None else Some(base + suffix)
  }

  /** A generated id is the base, a dash and the ordinal in decimal digits. There is one
      exactly if that has at most 64 characters and leaves one to the base. */
  lemma RepeatedIdReads(base: string, ordinal: nat)
    ensures RepeatedId(base, ordinal).Some? <==>
              var n := |Numeral(ordinal, Digit)|; n <= 62 && |base| + 1 + n <= 64
    ensures RepeatedId(base, ordinal).Some? ==>
              var id := RepeatedId(base, ordinal).value;
              && |base| < |id| <= 64 && base + "-" <= id
              && Reading(id[|base| + 1..], (c: char) => c as int - 48) == ordinal
  {
    SuffixOf(base, Numeral(ordinal, Digit));
    NumeralReads(ordinal, Digit, (c: char) => c as int - 48);
    if RepeatedId(base, ordinal).Some? {
      var id := RepeatedId(base, ordinal).value;
      assert id[..|base| + 1] == base + "-";
    }
  }

  lemma SuffixOf(base: string, numeral: string)
    ensures (base + ("-" + numeral))[|base| + 1..] == numeral
  {
  }

  /** The requests generated from one definition have different ids, so the uniqueness
      check never refuses a repeat. */
  lemma RepeatedIdsDistinct(base: string, m: nat, n: nat)
    requires RepeatedId(base, m).Some? && RepeatedId(base, m) == RepeatedId(base, n)
    ensures m == n
  {
    SuffixOf(base, Numeral(m, Digit));
    SuffixOf(base, Numeral(n, Digit));
    NumeralInjective(m, n, Digit);
  }
}
