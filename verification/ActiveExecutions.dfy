/**
 * The registry of executions running in one process: registration, capacity reservations, the deferred clean-up
 * that runs once an execution's post-execute promise settles, and shutdown (packages/cli/src/active-executions.ts).
 */
module ActiveExecutions {

  type ExecutionId = string
  type RunId = nat

  datatype Status = New | Running | Waiting | Success | Error | Canceled | Crashed

  /** How far a call of `add` has come. After `Live` there is an execution object. */
  datatype Phase = Reserving | Writing | Written(ok: bool) | Failed | Live

  /**
   * One call of `add` together with the capacity reservation and the execution object it creates; the deferred
   * clean-up of the object closes over all three.
   */
  datatype Run = Run(
    id: ExecutionId,
    resuming: bool,     // started for an existing, waiting execution
    phase: Phase,
    held: bool,         // the reservation has been acquired and not released
    status: Status,     // of the execution object
    startedAt: int,
    settled: bool,      // the post-execute promise has been resolved or rejected
    cleaned: bool,      // the deferred clean-up has run
    ended: bool         // the execution has written its row for the last time
  )

  /** One process. `runs` is the heap of calls and execution objects, `entries` the registry by execution id. */
  datatype Process = Process(
    entries: map<ExecutionId, RunId>,
    runs: map<RunId, Run>,
    outstanding: int,   // capacity taken from the concurrency control and not given back
    enabled: bool       // concurrency control is switched off by shutdown
  )

  // ---------- The synchronous segments of the code ----------

  function Begin(p: Process, r: RunId, id: ExecutionId, resuming: bool): (q: Process) {
    p.(runs := p.runs[r := Run(
      id, resuming, Reserving, false, if resuming then Running else New, 0, false, false, false)])
  }

  /** `reserve` returns: the reservation is acquired. */
  function Grant(p: Process, r: RunId): (q: Process)
    requires r in p.runs
  {
    p.(runs := p.runs[r := p.runs[r].(phase := Writing, held := true)],
       outstanding := if p.enabled then p.outstanding + 1 else p.outstanding)
  }

  /** `release` of a reservation: only an acquired one gives capacity back. */
  function Release(p: Process, r: RunId): (q: Process)
    requires r in p.runs
  {
    if !p.runs[r].held then p else
      p.(runs := p.runs[r := p.runs[r].(held := false)],
         outstanding := if p.enabled then p.outstanding - 1 else p.outstanding)
  }

  /** The `catch` of `add`. */
  function Fail(p: Process, r: RunId): (q: Process)
    requires r in p.runs
  {
    var q := Release(p, r);
    q.(runs := q.runs[r := q.runs[r].(phase := Failed)])
  }

  function SetWritten(p: Process, r: RunId, ok: bool): (q: Process)
    requires r in p.runs
  {
    p.(runs := p.runs[r := p.runs[r].(phase := Written(ok))])
  }

  /** The rest of `add` after the database write: the execution object replaces any entry with its id. */
  function Register(p: Process, r: RunId, now: int): (q: Process)
    requires r in p.runs && EntriesKnown(p)
  {
    var id := p.runs[r].id;
    var startedAt := if id in p.entries then p.runs[p.entries[id]].startedAt else now;
    p.(runs := p.runs[r := p.runs[r].(phase := Live, status := Running, startedAt := startedAt)],
       entries := p.entries[id := r])
  }

  /** `setStatus`; without an entry it throws and changes nothing. */
  function SetStatus(p: Process, id: ExecutionId, status: Status): (q: Process)
    requires id in p.entries ==> p.entries[id] in p.runs
  {
    if id !in p.entries then p else
      var r := p.entries[id];
      p.(runs := p.runs[r := p.runs[r].(status := status)])
  }

  /** `finalizeExecution`: resolves the post-execute promise of the entry. */
  function Finalize(p: Process, id: ExecutionId): (q: Process)
    requires id in p.entries ==> p.entries[id] in p.runs
  {
    if id !in p.entries then p else
      var r := p.entries[id];
      p.(runs := p.runs[r := p.runs[r].(settled := true)])
  }

  /** `stopExecution`: a waiting entry is deleted at once, any other has its promise rejected. */
  function Stop(p: Process, id: ExecutionId): (q: Process)
    requires id in p.entries ==> p.entries[id] in p.runs
  {
    if id !in p.entries then p
    else if p.runs[p.entries[id]].status == Waiting then p.(entries := p.entries - {id})
    else Finalize(p, id)
  }

  /** The deferred clean-up of the run's execution object. */
  function CleanUp(p: Process, r: RunId): (q: Process)
    requires r in p.runs
  {
    var q := Release(p, r);
    q.(runs := q.runs[r := q.runs[r].(cleaned := true)],
       entries := if p.runs[r].status == Waiting then p.entries else p.entries - {p.runs[r].id})
  }

  // ---------- The invariant of a process ----------

  ghost function Holders(p: Process): (rs: set<RunId>) {
    set r | r in p.runs && p.runs[r].held
  }

  predicate EntriesKnown(p: Process) {
    forall id :: id in p.entries ==> p.entries[id] in p.runs
  }

  predicate Registered(p: Process, r: RunId)
    requires r in p.runs
  {
    p.runs[r].id in p.entries && p.entries[p.runs[r].id] == r
  }

  ghost predicate EntriesValid(p: Process) {
    forall id :: id in p.entries ==>
      var r := p.entries[id];
      && r in p.runs && p.runs[r].id == id && p.runs[r].phase == Live
      && (p.runs[r].cleaned ==> p.runs[r].status == Waiting) && p.runs[r].status != New
  }

  ghost predicate RunValid(p: Process, r: RunId)
    requires r in p.runs
  {
    var x := p.runs[r];
    // capacity is held exactly by calls that have reserved and by objects whose clean-up has not run
    && (x.held <==> x.phase.Writing? || x.phase.Written? || (x.phase.Live? && !x.cleaned))
    && (!x.phase.Live? ==> !x.settled && !x.cleaned && !x.ended)
    && (x.cleaned ==> x.settled)
    // an object that is not in the registry is settled and waiting, or has been cleaned up
    && (x.phase.Live? && !x.cleaned && (!x.settled || x.status != Waiting) ==> Registered(p, r))
  }

  ghost predicate Valid(p: Process) {
    && EntriesValid(p)
    && (forall r :: r in p.runs ==> RunValid(p, r))
    && (p.enabled ==> p.outstanding == |Holders(p)|)
  }

  /** The environment assumption of `stopExecution`: a waiting entry's promise has settled by then. */
  predicate WaitingIsSettled(p: Process, id: ExecutionId)
    requires id in p.entries ==> p.entries[id] in p.runs
  {
    id in p.entries ==> var x := p.runs[p.entries[id]]; x.status == Waiting ==> x.settled
  }

  // ---------- Every segment keeps it ----------

  lemma BeginValid(p: Process, r: RunId, id: ExecutionId, resuming: bool)
    requires Valid(p) && r !in p.runs
    ensures Valid(Begin(p, r, id, resuming))
  {
    var q := Begin(p, r, id, resuming);
    assert Holders(q) == Holders(p);
    forall x | x in q.runs ensures RunValid(q, x) { assert x != r ==> RunValid(p, x); }
  }

  lemma GrantValid(p: Process, r: RunId)
    requires Valid(p) && r in p.runs && p.runs[r].phase.Reserving?
    ensures Valid(Grant(p, r)) && Holders(Grant(p, r)) == Holders(p) + {r} && r !in Holders(p)
  {
    var q := Grant(p, r);
    assert RunValid(p, r);
    assert Holders(q) == Holders(p) + {r};
    forall x | x in q.runs ensures RunValid(q, x) { assert RunValid(p, x); }
  }

  lemma WrittenValid(p: Process, r: RunId, ok: bool)
    requires Valid(p) && r in p.runs && p.runs[r].phase.Writing?
    ensures Valid(SetWritten(p, r, ok)) && Holders(SetWritten(p, r, ok)) == Holders(p)
  {
    var q := SetWritten(p, r, ok);
    assert RunValid(p, r);
    assert Holders(q) == Holders(p);
    forall x | x in q.runs ensures RunValid(q, x) { assert RunValid(p, x); }
  }

  /** A failed `add` gives back what it reserved, if anything, and leaves the registry alone. */
  lemma FailValid(p: Process, r: RunId)
    requires Valid(p) && r in p.runs && !p.runs[r].phase.Live? && !p.runs[r].phase.Failed?
    ensures Valid(Fail(p, r)) && Holders(Fail(p, r)) == Holders(p) - {r}
    ensures Fail(p, r).entries == p.entries
  {
    var q := Fail(p, r);
    assert RunValid(p, r);
    assert Holders(q) == Holders(p) - {r};
    forall x | x in q.runs ensures RunValid(q, x) { assert RunValid(p, x); }
  }

  /** The entry that a resume would replace has settled and is waiting. */
  predicate ReplacesSettled(p: Process, r: RunId)
    requires r in p.runs && EntriesKnown(p)
  {
    var id := p.runs[r].id;
    id in p.entries ==> var x := p.runs[p.entries[id]]; x.settled && x.status == Waiting
  }

  /** The resumed execution may take the place of an entry exactly if that has settled and is waiting. */
  lemma RegisterValid(p: Process, r: RunId, now: int)
    requires Valid(p) && r in p.runs && p.runs[r].phase == Written(true)
    ensures Valid(Register(p, r, now)) <==> ReplacesSettled(p, r)
    ensures Holders(Register(p, r, now)) == Holders(p)
  {
    var q := Register(p, r, now);
    assert RunValid(p, r);
    assert Holders(q) == Holders(p);
    if ReplacesSettled(p, r) {
      forall x | x in q.runs ensures RunValid(q, x) { assert RunValid(p, x); }
    } else {
      assert !RunValid(q, p.entries[p.runs[r].id]);
    }
  }

  /** The entry may change to the status: never back to new, and never away from waiting once it is cleaned up. */
  predicate StatusMayChange(p: Process, id: ExecutionId, status: Status)
    requires EntriesKnown(p)
  {
    id in p.entries ==> status != New && (p.runs[p.entries[id]].cleaned ==> status == Waiting)
  }

  lemma SetStatusValid(p: Process, id: ExecutionId, status: Status)
    requires Valid(p)
    ensures Valid(SetStatus(p, id, status)) <==> StatusMayChange(p, id, status)
    ensures Holders(SetStatus(p, id, status)) == Holders(p)
  {
    assert Holders(SetStatus(p, id, status)) == Holders(p);
    if StatusMayChange(p, id, status) {
      forall r | r in p.runs ensures RunValid(SetStatus(p, id, status), r) { StatusKeepsRun(p, id, status, r); }
      StatusKeepsEntries(p, id, status);
    } else {
      var q := SetStatus(p, id, status);
      assert q.entries[id] == p.entries[id] && q.runs[q.entries[id]].status == status;
    }
  }

  lemma StatusKeepsRun(p: Process, id: ExecutionId, status: Status, r: RunId)
    requires EntriesValid(p) && r in p.runs && RunValid(p, r)
    ensures RunValid(SetStatus(p, id, status), r)
  {
  }

  lemma StatusKeepsEntries(p: Process, id: ExecutionId, status: Status)
    requires EntriesValid(p) && StatusMayChange(p, id, status)
    ensures EntriesValid(SetStatus(p, id, status))
  {
  }

  lemma FinalizeValid(p: Process, id: ExecutionId)
    requires Valid(p)
    ensures Valid(Finalize(p, id)) && Holders(Finalize(p, id)) == Holders(p)
  {
    var q := Finalize(p, id);
    assert Holders(q) == Holders(p);
    forall x | x in q.runs ensures RunValid(q, x) { assert RunValid(p, x); }
  }

  /** Stopping loses no capacity exactly if the entry, should it be waiting, has settled. */
  lemma StopValid(p: Process, id: ExecutionId)
    requires Valid(p)
    ensures Valid(Stop(p, id)) <==> WaitingIsSettled(p, id)
    ensures Holders(Stop(p, id)) == Holders(p)
  {
    FinalizeValid(p, id);
    var q := Stop(p, id);
    assert Holders(q) == Holders(p);
    if WaitingIsSettled(p, id) {
      forall x | x in q.runs ensures RunValid(q, x) { assert RunValid(p, x); }
    } else {
      assert RunValid(p, p.entries[id]) && !RunValid(q, p.entries[id]);
    }
  }

  /** A reservation is given back once: a second release of it changes nothing. */
  lemma ReleaseOnce(p: Process, r: RunId)
    requires r in p.runs
    ensures Release(Release(p, r), r) == Release(p, r)
    ensures Holders(Release(p, r)) == Holders(p) - {r}
    ensures (p.enabled ==> p.outstanding == |Holders(p)|) ==>
      (p.enabled ==> Release(p, r).outstanding == |Holders(Release(p, r))|)
  {
    assert Holders(Release(p, r)) == Holders(p) - {r};
  }

  /** The clean-up releases the run's capacity and removes at most the run's own entry, never a successor's. */
  lemma CleanUpValid(p: Process, r: RunId)
    requires Valid(p) && r in p.runs && p.runs[r].settled && !p.runs[r].cleaned
    ensures Valid(CleanUp(p, r)) && Holders(CleanUp(p, r)) == Holders(p) - {r} && r in Holders(p)
    ensures CleanUp(p, r).entries ==
      if Registered(p, r) && p.runs[r].status != Waiting then p.entries - {p.runs[r].id} else p.entries
    ensures forall id :: id in p.entries && p.entries[id] != r ==>
      id in CleanUp(p, r).entries && CleanUp(p, r).entries[id] == p.entries[id]
  {
    var q := CleanUp(p, r);
    assert RunValid(p, r);
    assert Holders(q) == Holders(p) - {r};
    forall x | x in q.runs ensures RunValid(q, x) { assert RunValid(p, x); }
  }

  /** Without the assumption, a run that is stopped as waiting before it settles keeps its capacity for good. */
  lemma StoppedTooEarlyIsLost(p: Process, id: ExecutionId)
    requires Valid(p) && id in p.entries && !WaitingIsSettled(p, id)
    ensures var r, q := p.entries[id], Stop(p, id);
      && r in Holders(q) && !q.runs[r].settled && !Registered(q, r)
      && Finalize(q, id) == q && Stop(q, id) == q && !Valid(q)
  {
    var r, q := p.entries[id], Stop(p, id);
    assert RunValid(p, r) && !RunValid(q, r);
  }

  // ---------- Draining ----------

  /** Runs whose deferred clean-up is due. */
  ghost function Pending(p: Process): (due: set<RunId>) {
    set r | r in p.runs && p.runs[r].settled && !p.runs[r].cleaned
  }

  ghost predicate AllWaitingSettled(p: Process)
    requires EntriesKnown(p)
  {
    forall id :: id in p.entries ==> WaitingIsSettled(p, id)
  }

  /**
   * `p` comes from `start` by shutting down the entries in `done`: what waits is gone, the rest is cancelled or
   * kept.
   */
  ghost predicate ShutDown(start: Process, p: Process, cancelAll: bool, done: set<ExecutionId>)
    requires EntriesValid(start)
  {
    && EntriesValid(p) && p.enabled == start.enabled
    && forall id :: ShutDownEntry(start, p, cancelAll, done, id)
  }

  ghost predicate ShutDownEntry(start: Process, p: Process, cancelAll: bool, done: set<ExecutionId>, id: ExecutionId)
    requires EntriesValid(start) && EntriesValid(p)
  {
    && (id in p.entries <==> id in start.entries && !(id in done && start.runs[start.entries[id]].status == Waiting))
    && (id in p.entries ==>
      var x, y := start.runs[start.entries[id]], p.runs[p.entries[id]];
      p.entries[id] == start.entries[id] && y.status == x.status &&
      (y.settled <==> x.settled || (cancelAll && id in done)))
  }

  /** One round of the shutdown loop. */
  function ShutDownOne(p: Process, cancelAll: bool, id: ExecutionId): (q: Process)
    requires EntriesKnown(p)
  {
    if id !in p.entries then p
    else if cancelAll then Stop(p, id)
    else if p.runs[p.entries[id]].status in {Waiting, New} then p.(entries := p.entries - {id})
    else p
  }

  lemma DrainStop(start: Process, p: Process, cancelAll: bool, done: set<ExecutionId>, id: ExecutionId)
    requires EntriesValid(start) && ShutDown(start, p, cancelAll, done) && id !in done
    ensures ShutDown(start, ShutDownOne(p, cancelAll, id), cancelAll, done + {id})
  {
    var q := ShutDownOne(p, cancelAll, id);
    assert EntriesValid(q);
    forall x ensures ShutDownEntry(start, q, cancelAll, done + {id}, x) {
      assert ShutDownEntry(start, p, cancelAll, done, x) && ShutDownEntry(start, p, cancelAll, done, id);
      if x in p.entries && id in p.entries && x != id { assert p.runs[p.entries[x]].id != p.runs[p.entries[id]].id; }
    }
  }

  /** After the loop nothing waits, everything is settled if all was cancelled, and the rest is as it was. */
  lemma WhatShutDownLeaves(start: Process, p: Process, cancelAll: bool)
    requires EntriesValid(start) && ShutDown(start, p, cancelAll, start.entries.Keys)
    ensures NoneWaiting(p)
    ensures cancelAll ==> forall id :: id in p.entries ==> p.runs[p.entries[id]].settled
    ensures forall id :: id in p.entries <==> id in start.entries && start.runs[start.entries[id]].status != Waiting
    ensures !cancelAll ==> forall id :: id in p.entries ==>
      p.entries[id] == start.entries[id] && (p.runs[p.entries[id]].settled <==> start.runs[start.entries[id]].settled)
  {
    forall id
      ensures id in p.entries <==> id in start.entries && start.runs[start.entries[id]].status != Waiting
      ensures id in p.entries ==> p.runs[p.entries[id]].status != Waiting
      ensures id in p.entries ==> p.entries[id] == start.entries[id]
      ensures id in p.entries ==>
        (p.runs[p.entries[id]].settled <==> cancelAll || start.runs[start.entries[id]].settled)
    {
      assert ShutDownEntry(start, p, cancelAll, start.entries.Keys, id);
    }
  }

  /** No round loses capacity if what was waiting at the start had settled. */
  lemma DrainStopValid(start: Process, p: Process, cancelAll: bool, done: set<ExecutionId>, id: ExecutionId)
    requires EntriesValid(start) && AllWaitingSettled(start) && ShutDown(start, p, cancelAll, done) && Valid(p)
    ensures Valid(ShutDownOne(p, cancelAll, id))
  {
    StopValid(p, id);
    assert ShutDownEntry(start, p, cancelAll, done, id);
    assert id in p.entries ==> WaitingIsSettled(start, id);
  }

  /**
   * A clean-up keeps the entries in order, changes no status and settles nothing; of valid entries it removes its
   * own.
   */
  lemma DrainCleanUp(p: Process, r: RunId)
    requires EntriesValid(p) && r in Pending(p)
    ensures var q := CleanUp(p, r);
      && EntriesValid(q) && Pending(q) == Pending(p) - {r} && q.enabled == p.enabled
      && (forall id :: id in q.entries ==> id in p.entries && SameEntry(p, q, id))
      && (Valid(p) ==> Valid(q) && forall id :: id in p.entries && id !in q.entries ==>
        p.entries[id] == r && p.runs[r].settled && p.runs[r].status != Waiting)
  {
    CleanUpKeepsEntries(p, r);
    if Valid(p) { CleanUpValid(p, r); }
  }

  lemma CleanUpKeepsEntries(p: Process, r: RunId)
    requires EntriesValid(p) && r in Pending(p)
    ensures var q := CleanUp(p, r);
      && EntriesValid(q) && Pending(q) == Pending(p) - {r} && q.enabled == p.enabled
      && forall id :: id in q.entries ==> id in p.entries && SameEntry(p, q, id)
  {
  }

  ghost predicate SameEntry(p: Process, q: Process, id: ExecutionId)
    requires EntriesKnown(p) && EntriesKnown(q) && id in p.entries && id in q.entries
  {
    var x, y := p.runs[p.entries[id]], q.runs[q.entries[id]];
    q.entries[id] == p.entries[id] && y.status == x.status && y.settled == x.settled
  }

  /** `q` comes from `p` by clean-ups. */
  ghost predicate CleanedUp(p: Process, q: Process)
    requires EntriesValid(p)
  {
    && EntriesValid(q) && q.enabled == p.enabled
    && (forall id :: id in q.entries ==> id in p.entries && SameEntry(p, q, id))
    && (Valid(p) ==> Valid(q) && forall id :: id in p.entries && id !in q.entries ==>
      var x := p.runs[p.entries[id]]; x.settled && x.status != Waiting)
  }

  lemma CleanedUpFurther(p: Process, q: Process, r: RunId)
    requires EntriesValid(p) && CleanedUp(p, q) && r in Pending(q)
    ensures CleanedUp(p, CleanUp(q, r)) && Pending(CleanUp(q, r)) == Pending(q) - {r}
  {
    DrainCleanUp(q, r);
  }

  /** When no clean-up is due, what is left in the registry waits or has not settled. */
  lemma NothingDue(p: Process, id: ExecutionId)
    requires EntriesValid(p) && Pending(p) == {} && id in p.entries
    ensures var x := p.runs[p.entries[id]]; x.status == Waiting || !x.settled
  {
    assert p.entries[id] !in Pending(p);
  }

  ghost predicate IsEnumeration(ids: seq<ExecutionId>, entries: map<ExecutionId, RunId>) {
    && (forall id :: id in ids <==> id in entries)
    && forall i, j :: 0 <= i < j < |ids| ==> ids[i] != ids[j]
  }

  /** Of the entries at the start, those are left that had not settled and have not finished since. */
  ghost predicate Remaining(start: Process, p: Process, finished: seq<ExecutionId>)
    requires EntriesValid(start) && EntriesValid(p)
  {
    forall id :: EntryRemains(start, p, finished, id)
  }

  ghost predicate EntryRemains(start: Process, p: Process, finished: seq<ExecutionId>, id: ExecutionId)
    requires EntriesValid(start) && EntriesValid(p)
  {
    var unfinished := id in start.entries && !start.runs[start.entries[id]].settled && id !in finished;
    && (id in p.entries ==> unfinished && !p.runs[p.entries[id]].settled && p.runs[p.entries[id]].status != Waiting)
    && (Valid(start) && unfinished ==> id in p.entries)
  }

  ghost predicate NoneWaiting(p: Process)
    requires EntriesKnown(p)
  {
    forall id :: id in p.entries ==> p.runs[p.entries[id]].status != Waiting
  }

  /** No entry is due for clean-up. */
  ghost predicate NoneDue(p: Process)
    requires EntriesKnown(p)
  {
    forall id :: id in p.entries ==> p.runs[p.entries[id]].status == Waiting || !p.runs[p.entries[id]].settled
  }

  lemma RemainingAtFirst(start: Process, p: Process)
    requires EntriesValid(start) && NoneWaiting(start) && CleanedUp(start, p) && NoneDue(p)
    ensures Remaining(start, p, [])
  {
    forall id ensures EntryRemains(start, p, [], id) {
      if id in p.entries { assert SameEntry(start, p, id); }
    }
  }

  /** One entry over one round of the polling loop, in which `id` finishes. */
  lemma RemainingOne(p: Process, q: Process, id: ExecutionId, x: ExecutionId)
    requires EntriesValid(p) && CleanedUp(Finalize(p, id), q) && NoneDue(q)
    ensures x in q.entries ==> x in p.entries && q.runs[q.entries[x]].status == p.runs[p.entries[x]].status
    ensures x in q.entries && q.runs[q.entries[x]].status != Waiting ==> x != id && !q.runs[q.entries[x]].settled
    ensures Valid(p) && x in p.entries && x != id && !p.runs[p.entries[x]].settled ==> x in q.entries
  {
    if Valid(p) { FinalizeValid(p, id); }
    if x in q.entries { assert SameEntry(Finalize(p, id), q, x); }
    if x in p.entries && x != id { assert p.runs[p.entries[x]].id == x; }
  }

  lemma RemainingNext(start: Process, p: Process, q: Process, finished: seq<ExecutionId>, id: ExecutionId)
    requires EntriesValid(start) && EntriesValid(p) && Remaining(start, p, finished) && (Valid(start) ==> Valid(p))
    requires CleanedUp(Finalize(p, id), q) && NoneDue(q)
    ensures Remaining(start, q, finished + [id])
  {
    forall x ensures EntryRemains(start, q, finished + [id], x) {
      assert EntryRemains(start, p, finished, x);
      RemainingOne(p, q, id, x);
    }
  }

  lemma RemainingAtLast(start: Process, p: Process, finishing: seq<ExecutionId>, k: nat)
    requires EntriesValid(start) && EntriesValid(p) && k <= |finishing| && Remaining(start, p, finishing[..k])
    requires p.entries == map[] || k == |finishing|
    ensures (forall id :: id in start.entries ==> start.runs[start.entries[id]].settled) ==> p.entries == map[]
    ensures Valid(start) ==> (p.entries == map[] <==> forall id :: id in start.entries ==>
      start.runs[start.entries[id]].settled || id in finishing)
  {
    forall id
      ensures p.entries == map[] && Valid(start) && id in start.entries ==>
        start.runs[start.entries[id]].settled || id in finishing
      ensures id in p.entries ==> id in start.entries && !start.runs[start.entries[id]].settled && id !in finishing[..k]
    {
      assert EntryRemains(start, p, finishing[..k], id);
    }
    if p.entries != map[] {
      assert finishing[..k] == finishing;
      var id :| id in p.entries;
      assert id in start.entries && !start.runs[start.entries[id]].settled && id !in finishing;
    }
  }

  // ---------- The registry object ----------

  class Registry {
    var activeExecutions: map<ExecutionId, RunId>
    var runs: map<RunId, Run>
    var outstanding: int
    var enabled: bool

    ghost function View(): (p: Process)
      reads this
    {
      Process(activeExecutions, runs, outstanding, enabled)
    }

    constructor ()
      ensures View() == Process(map[], map[], 0, true) && Valid(View())
    {
      activeExecutions, runs, outstanding, enabled := map[], map[], 0, true;
    }

    /** `release`: the run gives up the capacity it holds, at most once, and the count follows the holders. */
    method ReleaseReservation(r: RunId)
      requires r in runs
      modifies this`runs, this`outstanding
      ensures View() == Release(old(View()), r)
      ensures Holders(View()) == old(Holders(View())) - {r} && Release(View(), r) == View()
      ensures enabled && old(outstanding == |Holders(View())|) ==> outstanding == |Holders(View())|
    {
      ReleaseOnce(View(), r);
      if runs[r].held {
        if enabled { outstanding := outstanding - 1; }
        runs := runs[r := runs[r].(held := false)];
      }
    }

    /** The part of `add` that follows its last `await`. */
    method CompleteAdd(r: RunId, now: int)
      requires Valid(View()) && r in runs && runs[r].phase == Written(true)
      modifies this
      ensures View() == Register(old(View()), r, now)
      ensures var id := old(runs)[r].id;
        && activeExecutions == old(activeExecutions)[id := r] && runs[r].status == Running
        && outstanding == old(outstanding)
        && runs[r].startedAt ==
          (if id in old(activeExecutions) then old(runs[activeExecutions[runs[r].id]].startedAt) else now)
        && runs.Keys == old(runs).Keys && forall x :: x in runs && x != r ==> runs[x] == old(runs)[x]
      ensures Valid(View()) <==> old(ReplacesSettled(View(), r))
    {
      RegisterValid(View(), r, now);
      var id := runs[r].id;
      var startedAt := now;
      if id in activeExecutions { startedAt := runs[activeExecutions[id]].startedAt; }
      runs := runs[r := runs[r].(phase := Live, status := Running, startedAt := startedAt)];
      activeExecutions := activeExecutions[id := r];
    }

    /** `setStatus`; reports whether there was an entry, where the code throws if there is none. */
    method AssignStatus(id: ExecutionId, status: Status) returns (found: bool)
      requires Valid(View())
      modifies this
      ensures View() == SetStatus(old(View()), id, status)
      ensures Valid(View()) <==> old(StatusMayChange(View(), id, status))
      ensures found <==> id in old(activeExecutions)
    {
      SetStatusValid(View(), id, status);
      found := id in activeExecutions;
      if found {
        var r := activeExecutions[id];
        runs := runs[r := runs[r].(status := status)];
      }
    }

    method FinalizeExecution(id: ExecutionId)
      requires EntriesValid(View())
      modifies this`runs
      ensures View() == Finalize(old(View()), id) && EntriesValid(View())
      ensures old(Valid(View())) ==> Valid(View())
    {
      if Valid(View()) { FinalizeValid(View(), id); }
      if id in activeExecutions {
        var r := activeExecutions[id];
        runs := runs[r := runs[r].(settled := true)];
      }
    }

    method StopExecution(id: ExecutionId)
      requires EntriesValid(View())
      modifies this
      ensures View() == Stop(old(View()), id) && EntriesValid(View())
      ensures old(Valid(View())) ==> (Valid(View()) <==> old(WaitingIsSettled(View(), id)))
    {
      if Valid(View()) { StopValid(View(), id); }
      if id in activeExecutions {
        if runs[activeExecutions[id]].status == Waiting {
          activeExecutions := activeExecutions - {id};
        } else {
          FinalizeExecution(id);
        }
      }
    }

    method RunCleanUp(r: RunId)
      requires EntriesValid(View()) && r in runs && runs[r].settled && !runs[r].cleaned
      modifies this
      ensures View() == CleanUp(old(View()), r) && EntriesValid(View())
      ensures old(Valid(View())) ==> Valid(View())
    {
      DrainCleanUp(View(), r);
      ReleaseReservation(r);
      runs := runs[r := runs[r].(cleaned := true)];
      if runs[r].status != Waiting { activeExecutions := activeExecutions - {runs[r].id}; }
    }

    /**
     * `shutdown` in regular mode, up to the point where `finishing` are the executions that have finished by themselves
     * while the polling loop slept. `ids` enumerates the registry. Reports whether the loop has ended.
     */
    method Shutdown(cancelAll: bool, ids: seq<ExecutionId>, finishing: seq<ExecutionId>) returns (drained: bool)
      requires EntriesValid(View())
      requires IsEnumeration(ids, activeExecutions)
      modifies this
      ensures EntriesValid(View()) && !enabled && (drained <==> activeExecutions == map[])
      ensures cancelAll ==> drained
      ensures old(Valid(View()) && AllWaitingSettled(View())) ==>
        && Valid(View())
        && (drained <==> cancelAll || forall id :: id in old(activeExecutions) ==>
          var x := old(runs)[old(activeExecutions)[id]]; x.status == Waiting || x.settled || id in finishing)
    {
      ghost var start := View();
      enabled := false;
      assert Valid(start) ==> Valid(View()) by {
        assert Holders(View()) == Holders(start);
        forall x | x in runs && Valid(start) ensures RunValid(View(), x) { assert RunValid(start, x); }
      }
      assert AllWaitingSettled(start) ==> AllWaitingSettled(View());
      ghost var disabled := View();
      CancelOrDrop(cancelAll, ids);
      WhatShutDownLeaves(disabled, View(), cancelAll);
      drained := PollUntilEmpty(finishing);
    }

    /** The loop over the registry: cancel everything, or drop what would block the shutdown. */
    method CancelOrDrop(cancelAll: bool, ids: seq<ExecutionId>)
      requires EntriesValid(View()) && IsEnumeration(ids, activeExecutions)
      modifies this
      ensures ShutDown(old(View()), View(), cancelAll, old(activeExecutions).Keys)
      ensures old(Valid(View()) && AllWaitingSettled(View())) ==> Valid(View())
    {
      ghost var start := View();
      ghost var done := {};
      for i := 0 to |ids|
        invariant ShutDown(start, View(), cancelAll, done)
        invariant Valid(start) && AllWaitingSettled(start) ==> Valid(View())
        invariant forall id :: id in done <==> id in ids[..i]
      {
        var id := ids[i];
        assert id !in ids[..i] && ids[..i + 1] == ids[..i] + [id];
        DrainStop(start, View(), cancelAll, done, id);
        if Valid(start) && AllWaitingSettled(start) { DrainStopValid(start, View(), cancelAll, done, id); }
        done := done + {id};
        CancelOrDropOne(cancelAll, id);
      }
      assert ids[..|ids|] == ids && done == start.entries.Keys;
    }

    method CancelOrDropOne(cancelAll: bool, id: ExecutionId)
      requires EntriesValid(View())
      modifies this
      ensures View() == ShutDownOne(old(View()), cancelAll, id)
    {
      if id in activeExecutions {
        if cancelAll {
          StopExecution(id);
        } else if runs[activeExecutions[id]].status in {Waiting, New} {
          activeExecutions := activeExecutions - {id};
        }
      }
    }

    method PollUntilEmpty(finishing: seq<ExecutionId>) returns (drained: bool)
      requires EntriesValid(View()) && NoneWaiting(View())
      modifies this
      ensures EntriesValid(View()) && enabled == old(enabled) && (drained <==> activeExecutions == map[])
      ensures old(forall id :: id in activeExecutions ==> runs[activeExecutions[id]].settled) ==> drained
      ensures old(Valid(View())) ==>
        && Valid(View())
        && (drained <==> forall id :: id in old(activeExecutions) ==>
          old(runs)[old(activeExecutions)[id]].settled || id in finishing)
    {
      ghost var start := View();
      RunDueCleanUps();
      RemainingAtFirst(start, View());
      var k := KeepPolling(finishing, start);
      drained := activeExecutions == map[];
      RemainingAtLast(start, View(), finishing, k);
    }

    /** The polling loop: ends when the registry is empty; `k` executions have finished in the meantime. */
    method KeepPolling(finishing: seq<ExecutionId>, ghost start: Process) returns (k: nat)
      requires EntriesValid(start) && EntriesValid(View()) && Remaining(start, View(), []) &&
        (Valid(start) ==> Valid(View()))
      modifies this
      ensures enabled == old(enabled) && EntriesValid(View()) && (Valid(start) ==> Valid(View()))
      ensures k <= |finishing| && Remaining(start, View(), finishing[..k]) &&
        (activeExecutions == map[] || k == |finishing|)
    {
      k := 0;
      ghost var finished: seq<ExecutionId> := [];
      while activeExecutions != map[] && k < |finishing|
        invariant k <= |finishing| && finished == finishing[..k]
        invariant enabled == old(enabled) && EntriesValid(View()) && (Valid(start) ==> Valid(View()))
        invariant Remaining(start, View(), finished)
      {
        SleepUntilFinished(finishing[k], start, finished);
        finished := finished + [finishing[k]];
        k := k + 1;
      }
    }

    /** An execution finishes while the loop sleeps, and clean-ups run. */
    method SleepUntilFinished(id: ExecutionId, ghost start: Process, ghost finished: seq<ExecutionId>)
      requires EntriesValid(start) && EntriesValid(View()) && (Valid(start) ==> Valid(View()))
      requires Remaining(start, View(), finished)
      modifies this
      ensures enabled == old(enabled) && EntriesValid(View()) && (Valid(start) ==> Valid(View()))
      ensures Remaining(start, View(), finished + [id])
    {
      ghost var before := View();
      FinalizeExecution(id);
      RunDueCleanUps();
      RemainingNext(start, before, View(), finished, id);
    }

    /** The deferred clean-ups that are due run, in any order. */
    method RunDueCleanUps()
      requires EntriesValid(View())
      modifies this
      ensures CleanedUp(old(View()), View()) && Pending(View()) == {} && NoneDue(View())
    {
      while exists r :: r in runs && runs[r].settled && !runs[r].cleaned
        invariant EntriesValid(View()) && CleanedUp(old(View()), View())
        decreases Pending(View())
      {
        var r :| r in runs && runs[r].settled && !runs[r].cleaned;
        CleanedUpFurther(old(View()), View(), r);
        RunCleanUp(r);
      }
      forall id | id in activeExecutions
        ensures runs[activeExecutions[id]].status == Waiting || !runs[activeExecutions[id]].settled
      {
        NothingDue(View(), id);
      }
    }
  }
}
