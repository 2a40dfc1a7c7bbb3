/**
 * The timers that resume waiting executions, one set in each process (packages/cli/src/wait-tracker.ts). More than one
 * timer may be armed for an execution; that only one resume succeeds is shown in `ExecutionCluster`.
 */
module WaitTracker {
  import Runs

  type ExecutionId = string
  type TimerId = nat

  /** `entries` is the dictionary of tracked executions, `timers` the timers that are armed. */
  datatype Tracker = Tracker(entries: map<ExecutionId, TimerId>, timers: map<TimerId, ExecutionId>, next: TimerId)

  datatype Op =
    | Poll(ids: seq<ExecutionId>)   // the ids the database returned
    | StopExecution(id: ExecutionId)
    | StartExecution(id: ExecutionId)
    | Fire(t: TimerId)
    | StopTracking

  /** An execution that has no entry gets one, with a timer. */
  function Track(w: Tracker, id: ExecutionId): (w': Tracker) {
    if id in w.entries then w else
      Tracker(w.entries[id := w.next], w.timers[w.next := id], w.next + 1)
  }

  function Polled(w: Tracker, ids: seq<ExecutionId>): (w': Tracker) {
    if ids == [] then w else Track(Polled(w, ids[..|ids| - 1]), ids[|ids| - 1])
  }

  function Stopped(w: Tracker, id: ExecutionId): (w': Tracker) {
    if id in w.entries then w.(entries := w.entries - {id}, timers := w.timers - {w.entries[id]}) else w
  }

  /** Starting an execution forgets its entry, but leaves a timer that is still armed. */
  function Started(w: Tracker, id: ExecutionId): (w': Tracker) {
    w.(entries := w.entries - {id})
  }

  function Fired(w: Tracker, t: TimerId): (w': Tracker) {
    if t in w.timers then Started(w.(timers := w.timers - {t}), w.timers[t]) else w
  }

  /** Step-down disarms the timers of all entries, but leaves the entries. */
  function Halted(w: Tracker): (w': Tracker) {
    w.(timers := w.timers - set id | id in w.entries :: w.entries[id])
  }

  function Apply(w: Tracker, op: Op): (w': Tracker) {
    match op
    case Poll(ids) => Polled(w, ids)
    case StopExecution(id) => Stopped(w, id)
    case StartExecution(id) => Started(w, id)
    case Fire(t) => Fired(w, t)
    case StopTracking => Halted(w)
  }

  predicate Valid(w: Tracker) {
    && (forall t :: t in w.timers ==> t < w.next)
    && (forall id :: id in w.entries ==>
      w.entries[id] < w.next && (w.entries[id] in w.timers ==> w.timers[w.entries[id]] == id))
    && (forall a, b :: a in w.entries && b in w.entries && w.entries[a] == w.entries[b] ==> a == b)
  }

  /** Some armed timer will start the execution. */
  predicate Armed(w: Tracker, id: ExecutionId) {
    exists t :: t in w.timers && w.timers[t] == id
  }

  /** The execution has an entry whose timer is not armed. */
  predicate Stale(w: Tracker, id: ExecutionId) {
    id in w.entries && w.entries[id] !in w.timers
  }

  lemma {:induction false} PollKeepsValid(w: Tracker, ids: seq<ExecutionId>)
    requires Valid(w)
    ensures Valid(Polled(w, ids))
  {
    if ids != [] {
      PollKeepsValid(w, ids[..|ids| - 1]);
    }
  }

  lemma ApplyKeepsValid(w: Tracker, op: Op)
    requires Valid(w)
    ensures Valid(Apply(w, op))
  {
    if op.Poll? {
      PollKeepsValid(w, op.ids);
    }
  }

  /**
   * A poll touches no entry that exists, and gives every other execution it is told of an entry with an armed
   * timer.
   */
  lemma {:induction false} PollTracks(w: Tracker, ids: seq<ExecutionId>, id: ExecutionId)
    requires Valid(w)
    ensures var w' := Polled(w, ids);
      && (id in w'.entries <==> id in w.entries || id in ids)
      && (id in w.entries ==> w'.entries[id] == w.entries[id])
      && w.next <= w'.next
      && (id in w'.entries && id !in w.entries ==> w.next <= w'.entries[id] && w'.entries[id] in w'.timers)
      && (forall t :: t in w.timers ==> t in w'.timers && w'.timers[t] == w.timers[t])
      && (forall t :: t in w'.timers && t < w.next ==> t in w.timers)
  {
    if ids != [] {
      PollTracks(w, ids[..|ids| - 1], id);
      assert ids == ids[..|ids| - 1] + [ids[|ids| - 1]];
      PollKeepsValid(w, ids[..|ids| - 1]);
    }
  }

  /** After a poll, an execution it returned has its entry's timer armed exactly if it had no stale entry before. */
  lemma PollArmsExactly(w: Tracker, ids: seq<ExecutionId>, id: ExecutionId)
    requires Valid(w) && id in ids
    ensures !Stale(Polled(w, ids), id) <==> !Stale(w, id)
    ensures !Stale(w, id) ==> Armed(Polled(w, ids), id)
  {
    PollTracks(w, ids, id);
    PollKeepsValid(w, ids);
    var w' := Polled(w, ids);
    if !Stale(w, id) {
      assert w'.entries[id] in w'.timers && w'.timers[w'.entries[id]] == id;
    }
  }

  ghost predicate NoneStale(w: Tracker) {
    forall id :: id in w.entries ==> !Stale(w, id)
  }

  /** Only step-down makes entries stale, and it does so exactly if there are any. */
  lemma StaleOnlyByStepDown(w: Tracker, op: Op)
    requires Valid(w) && NoneStale(w)
    ensures NoneStale(Apply(w, op)) <==> !(op.StopTracking? && w.entries != map[])
  {
    if op.Poll? {
      forall id | id in Polled(w, op.ids).entries ensures !Stale(Polled(w, op.ids), id) {
        PollTracks(w, op.ids, id);
      }
    } else if op.StopTracking? && w.entries != map[] {
      var id :| id in w.entries;
      assert Stale(Halted(w), id);
    }
  }

  ghost function AfterAll(w: Tracker, ops: seq<Op>): (w': Tracker) {
    Runs.After(Apply, w, ops)
  }

  /** Starts or stops the execution, directly or through one of its timers. */
  predicate Touches(w: Tracker, op: Op, id: ExecutionId) {
    op == StopExecution(id) || op == StartExecution(id) || (op.Fire? && op.t in w.timers && w.timers[op.t] == id)
  }

  /** The execution has an entry, but nothing is going to resume it. */
  predicate Forgotten(w: Tracker, id: ExecutionId) {
    Valid(w) && Stale(w, id) && !Armed(w, id)
  }

  /**
   * However often the instance polls after taking over again, an execution with a stale entry stays forgotten
   * throughout, exactly if nothing else starts or stops it.
   */
  lemma StaleStaysStale(w: Tracker, ops: seq<Op>, id: ExecutionId)
    requires Forgotten(w, id)
    ensures Runs.Always(x => Forgotten(x, id), Apply, w, ops)
      <==> Runs.Never((x, op) => Touches(x, op, id), Apply, w, ops)
  {
    var possible := (x: Tracker, op: Op) => true;
    var forgotten, touches := (x: Tracker) => Forgotten(x, id), (x: Tracker, op: Op) => Touches(x, op, id);
    forall x, op | Valid(x) ensures Valid(Apply(x, op)) { ApplyKeepsValid(x, op); }
    forall x, op | Valid(x) && forgotten(x) ensures forgotten(Apply(x, op)) <==> !touches(x, op) {
      ApplyKeepsValid(x, op);
      if !touches(x, op) { StepKeepsStale(x, op, id); }
    }
    Runs.Anything(possible, Apply, w, ops);
    Runs.AlwaysExactly(possible, Apply, Valid, forgotten, touches, w, ops);
  }

  lemma StepKeepsStale(w: Tracker, op: Op, id: ExecutionId)
    requires Valid(w) && Stale(w, id) && !Armed(w, id) && !Touches(w, op, id)
    ensures Stale(Apply(w, op), id) && !Armed(Apply(w, op), id)
  {
    if op.Poll? {
      PollKeepsStale(w, op.ids, id);
    }
  }

  lemma {:induction false} PollKeepsStale(w: Tracker, ids: seq<ExecutionId>, id: ExecutionId)
    requires Valid(w) && Stale(w, id) && !Armed(w, id)
    ensures Stale(Polled(w, ids), id) && !Armed(Polled(w, ids), id)
  {
    if ids != [] {
      var before := Polled(w, ids[..|ids| - 1]);
      PollKeepsStale(w, ids[..|ids| - 1], id);
      PollKeepsValid(w, ids[..|ids| - 1]);
      var other := ids[|ids| - 1];
      if other !in before.entries {
        assert forall t :: t in Track(before, other).timers && Track(before, other).timers[t] == id ==>
          t in before.timers;
      }
    }
  }

  /** Poll, step down and poll again: the execution is still in the database's list, but no timer will resume it. */
  lemma ForgottenAfterStepDown(e: ExecutionId)
    ensures var start, ops := Tracker(map[], map[], 0), [Poll([e]), StopTracking, Poll([e])];
      AfterAll(start, ops) == Tracker(map[e := 0], map[], 1) && Stale(AfterAll(start, ops), e)
  {
    var start, once, halted := Tracker(map[], map[], 0), Tracker(map[e := 0], map[0 := e], 1),
      Tracker(map[e := 0], map[], 1);
    assert [e][..0] == [] && Polled(start, [e]) == Track(Polled(start, []), e) == once;
    assert Halted(once) == halted && Polled(halted, [e]) == Track(Polled(halted, []), e) == halted;
    var ops := [Poll([e]), StopTracking, Poll([e])];
    Runs.RunThree((w: Tracker, op: Op) => true, Apply, start, ops);
  }

  /** What stopping an execution does to the armed timers. */
  lemma StoppedArmed(w: Tracker, id: ExecutionId)
    requires Valid(w)
    ensures forall x :: x != id ==>
      (Armed(Stopped(w, id), x) <==> Armed(w, x)) && (Stale(Stopped(w, id), x) <==> Stale(w, x))
    ensures Armed(Stopped(w, id), id) <==>
      exists t :: t in w.timers && w.timers[t] == id && !(id in w.entries && t == w.entries[id])
  {
    var w' := Stopped(w, id);
    forall x | x != id && Armed(w, x) ensures Armed(w', x) {
      var t :| t in w.timers && w.timers[t] == x;
      assert t in w'.timers && w'.timers[t] == x;
    }
    if Armed(w', id) {
      var t :| t in w'.timers && w'.timers[t] == id;
      assert t in w.timers && w.timers[t] == id;
    }
    if t :| t in w.timers && w.timers[t] == id && !(id in w.entries && t == w.entries[id]) {
      assert t in w'.timers && w'.timers[t] == id;
    }
  }

  // ---------- What each operation touches ----------

  ghost predicate SameEntry(w: Tracker, w': Tracker, id: ExecutionId) {
    (id in w'.entries <==> id in w.entries) && (id in w.entries ==> w'.entries[id] == w.entries[id])
  }

  ghost predicate SameTimer(w: Tracker, w': Tracker, t: TimerId) {
    (t in w'.timers <==> t in w.timers) && (t in w.timers ==> w'.timers[t] == w.timers[t])
  }

  /** Starting an execution, directly or by its timer, drops its entry; stopping one drops the entry's timer too. */
  lemma StartsAndStops(w: Tracker, id: ExecutionId, t: TimerId, x: ExecutionId, u: TimerId)
    requires Valid(w)
    ensures id !in Started(w, id).entries && SameTimer(w, Started(w, id), u)
    ensures x != id ==> SameEntry(w, Started(w, id), x) && SameEntry(w, Stopped(w, id), x)
    ensures id !in Stopped(w, id).entries && (id !in w.entries ==> Stopped(w, id) == w)
    ensures id in w.entries ==> w.entries[id] !in Stopped(w, id).timers
    ensures id in w.entries && u != w.entries[id] ==> SameTimer(w, Stopped(w, id), u)
    ensures t in w.timers ==> t !in Fired(w, t).timers && w.timers[t] !in Fired(w, t).entries
    ensures t in w.timers && u != t ==> SameTimer(w, Fired(w, t), u)
    ensures t in w.timers && x != w.timers[t] ==> SameEntry(w, Fired(w, t), x)
    ensures t !in w.timers ==> Fired(w, t) == w
  {
  }

  /** Step-down disarms exactly the timers that belong to an entry, and keeps all entries. */
  lemma HaltDisarmsEntries(w: Tracker, id: ExecutionId, t: TimerId)
    ensures SameEntry(w, Halted(w), id)
    ensures t in Halted(w).timers <==> t in w.timers && forall x :: x in w.entries ==> w.entries[x] != t
    ensures t in Halted(w).timers ==> Halted(w).timers[t] == w.timers[t]
  {
  }

  /** A poll arms one timer for every execution that gets an entry, and no other. */
  lemma {:induction false} PollArmsOne(w: Tracker, ids: seq<ExecutionId>, t: TimerId)
    requires Valid(w) && t in Polled(w, ids).timers && t !in w.timers
    ensures var w' := Polled(w, ids);
      && w'.timers[t] !in w.entries && w'.timers[t] in ids
      && w'.timers[t] in w'.entries && w'.entries[w'.timers[t]] == t
  {
    var front := ids[..|ids| - 1];
    PollKeepsValid(w, front);
    assert ids == front + [ids[|ids| - 1]];
    PollTracks(w, front, ids[|ids| - 1]);
    PollTracks(w, ids, Polled(w, ids).timers[t]);
    if t in Polled(w, front).timers {
      PollArmsOne(w, front, t);
    }
  }

  /**
   * An execution that is started while its timer is still armed gets a second timer from the next poll that returns it,
   * because a poll goes by the entries alone.
   */
  lemma StartedEarlyGetsSecondTimer(w: Tracker, id: ExecutionId)
    requires Valid(w) && id in w.entries && !Stale(w, id)
    ensures var w', first := Polled(Started(w, id), [id]), w.entries[id];
      && id in w'.entries && first != w'.entries[id]
      && first in w'.timers && w'.timers[first] == id
      && w'.entries[id] in w'.timers && w'.timers[w'.entries[id]] == id
  {
    ApplyKeepsValid(w, StartExecution(id));
    PollTracks(Started(w, id), [id], id);
    PollKeepsValid(Started(w, id), [id]);
  }

  // ---------- The tracker object ----------

  class TrackerService {
    var waitingExecutions: map<ExecutionId, TimerId>
    var timers: map<TimerId, ExecutionId>
    var nextTimer: TimerId
    var mainTimer: bool

    ghost function View(): (w: Tracker)
      reads this
    {
      Tracker(waitingExecutions, timers, nextTimer)
    }

    constructor ()
      ensures View() == Tracker(map[], map[], 0) && Valid(View()) && !mainTimer
    {
      waitingExecutions, timers, nextTimer, mainTimer := map[], map[], 0, false;
    }

    /** `getWaitingExecutions`, for the executions that the database returned. */
    method GetWaitingExecutions(ids: seq<ExecutionId>)
      requires Valid(View())
      modifies this
      ensures View() == Polled(old(View()), ids) && Valid(View()) && mainTimer == old(mainTimer)
    {
      PollKeepsValid(View(), ids);
      for i := 0 to |ids|
        invariant View() == Polled(old(View()), ids[..i]) && mainTimer == old(mainTimer)
      {
        assert ids[..i + 1][..i] == ids[..i];
        var id := ids[i];
        if id !in waitingExecutions {
          waitingExecutions := waitingExecutions[id := nextTimer];
          timers := timers[nextTimer := id];
          nextTimer := nextTimer + 1;
        }
      }
      assert ids[..|ids|] == ids;
    }

    method StartTracking(ids: seq<ExecutionId>)
      requires Valid(View())
      modifies this
      ensures View() == Polled(old(View()), ids) && Valid(View()) && mainTimer
    {
      mainTimer := true;
      GetWaitingExecutions(ids);
    }

    /** `stopExecution`: the entry goes with its own timer; a timer that an earlier start has left armed stays. */
    method StopTrackedExecution(id: ExecutionId)
      requires Valid(View())
      modifies this`waitingExecutions, this`timers
      ensures View() == Stopped(old(View()), id) && Valid(View())
      ensures id !in waitingExecutions && (id in old(waitingExecutions) ==> old(waitingExecutions)[id] !in timers)
      ensures forall x :: x != id ==>
        (Armed(View(), x) <==> old(Armed(View(), x))) && (Stale(View(), x) <==> old(Stale(View(), x)))
      ensures Armed(View(), id) <==>
        exists t :: t in old(timers) && old(timers)[t] == id &&
          !(id in old(waitingExecutions) && t == old(waitingExecutions)[id])
    {
      StoppedArmed(View(), id);
      ApplyKeepsValid(View(), StopExecution(id));
      if id in waitingExecutions {
        timers := timers - {waitingExecutions[id]};
        waitingExecutions := waitingExecutions - {id};
      }
    }

    /** `stopTracking` on step-down. The interval handle is not reset, so later calls do the same again. */
    method Halt()
      requires Valid(View())
      modifies this
      ensures View() == (if mainTimer then Halted(old(View())) else old(View())) && Valid(View())
      ensures mainTimer == old(mainTimer)
    {
      ApplyKeepsValid(View(), StopTracking);
      if !mainTimer { return; }
      var left := waitingExecutions.Keys;
      while left != {}
        invariant left <= waitingExecutions.Keys && waitingExecutions == old(waitingExecutions)
        invariant nextTimer == old(nextTimer) && mainTimer == old(mainTimer)
        invariant timers == old(timers) - set id | id in waitingExecutions && id !in left :: waitingExecutions[id]
      {
        var id :| id in left;
        timers := timers - {waitingExecutions[id]};
        left := left - {id};
      }
      assert (set id | id in waitingExecutions && id !in left :: waitingExecutions[id])
          == (set id | id in waitingExecutions :: waitingExecutions[id]);
    }
  }
}
