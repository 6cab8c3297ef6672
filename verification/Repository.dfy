/** The in-memory run repository: step records, resource leases and cancellation. */
module Repository {
  import opened Interpreter
  import opened Lifecycle

  datatype Lease = Lease(runId: string, released: bool)

  datatype RunState = RunState(status: RunStatus, cancelRequested: bool)

  type Leases = map<string, Lease>

  /** The leases of a run that were created and not released. */
  function ActiveOf(leases: Leases, runId: string): set<string> {
    set id | id in leases && leases[id].runId == runId && !leases[id].released
  }

  /** The position of the record with the key of `r`, or the length of the list. */
  function IndexOf(records: seq<StepRecord>, r: StepRecord): (i: nat)
    ensures i <= |records|
    ensures i < |records| ==> records[i].stepId == r.stepId && records[i].attempt == r.attempt
    ensures forall j | 0 <= j < i :: !(records[j].stepId == r.stepId && records[j].attempt == r.attempt)
  {
    if records == [] || (records[0].stepId == r.stepId && records[0].attempt == r.attempt) then 0
    else 1 + IndexOf(records[1..], r)
  }

  lemma ConsUpdate<T>(s: seq<T>, i: nat, x: T)
    requires s != []
    ensures i < |s[1..]| ==> s[i + 1 := x] == [s[0]] + s[1..][i := x]
    ensures s + [x] == [s[0]] + (s[1..] + [x])
  {
  }

  lemma {:induction false} UpsertAtIndex(records: seq<StepRecord>, r: StepRecord)
    ensures Upsert(records, r) ==
            if IndexOf(records, r) < |records| then records[IndexOf(records, r) := r] else records + [r]
  {
    if records != [] && !(records[0].stepId == r.stepId && records[0].attempt == r.attempt) {
      UpsertAtIndex(records[1..], r);
      assert Upsert(records, r) == [records[0]] + Upsert(records[1..], r);
      ConsUpdate(records, IndexOf(records[1..], r), r);
    }
  }

  class MemoryRepository {
    var steps: map<string, seq<StepRecord>>
    var leases: Leases
    var runs: map<string, RunState>

    constructor ()
      ensures steps == map[] && leases == map[] && runs == map[]
    {
      steps, leases, runs := map[], map[], map[];
    }

    function StepsOf(runId: string): seq<StepRecord>
      reads this
    {
      if runId in steps then steps[runId] else []
    }

    /** Overwrite the record of the same step and attempt, or append. */
    method RecordStep(runId: string, r: StepRecord)
      modifies this`steps
      ensures steps == old(steps)[runId := Upsert(old(StepsOf(runId)), r)]
    {
      var records := StepsOf(runId);
      var index := 0;
      while index < |records| && !(records[index].stepId == r.stepId && records[index].attempt == r.attempt)
        invariant index <= IndexOf(records, r)
      {
        index := index + 1;
      }
      UpsertAtIndex(records, r);
      steps := steps[runId := if index < |records| then records[index := r] else records + [r]];
    }

    /** A lease id can be used once. */
    method CreateResourceLease(id: string, runId: string) returns (created: bool)
      modifies this`leases
      ensures created == (id !in old(leases))
      ensures leases == if created then old(leases)[id := Lease(runId, false)] else old(leases)
      ensures created ==> ActiveOf(leases, runId) == ActiveOf(old(leases), runId) + {id}
    {
      created := id !in leases;
      if created { leases := leases[id := Lease(runId, false)]; }
    }

    /** Releasing is idempotent, and ignores leases it does not know. */
    method ReleaseResourceLease(id: string)
      modifies this`leases
      ensures leases.Keys == old(leases).Keys
      ensures forall run :: ActiveOf(leases, run) == ActiveOf(old(leases), run) - {id}
      ensures forall other | other in leases && other != id :: leases[other] == old(leases)[other]
    {
      if id in leases && !leases[id].released {
        leases := leases[id := leases[id].(released := true)];
      }
    }

    method ListActiveResourceLeases(runId: string) returns (active: set<string>)
      ensures active == ActiveOf(leases, runId)
    {
      active := set id | id in leases && leases[id].runId == runId && !leases[id].released;
    }

    /** Cancellation is accepted exactly while a known run has neither ended nor begun
        to clean up; a refused request changes nothing. */
    method RequestCancellation(runId: string) returns (accepted: bool)
      modifies this`runs
      ensures accepted <==>
                runId in old(runs) && !Terminal(old(runs)[runId].status) && old(runs)[runId].status != CLEANUP
      ensures runs == if accepted then old(runs)[runId := RunState(old(runs)[runId].status, true)] else old(runs)
    {
      if runId !in runs || Terminal(runs[runId].status) || runs[runId].status == CLEANUP { return false; }
      runs := runs[runId := RunState(runs[runId].status, true)];
      accepted := true;
    }
  }
}
