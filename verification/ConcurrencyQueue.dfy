/**
 * The queue behind the concurrency control (packages/cli/src/concurrency/concurrency-queue.ts): executions beyond the
 * limit wait, and each release lets the next one through.
 */
module ConcurrencyQueue {
  import Runs

  type ExecutionId = string

  /** `running` counts the executions let through that have not given their capacity back. */
  datatype State = State(limit: nat, capacity: int, waiting: seq<ExecutionId>, running: nat)

  datatype Op = Enqueue(id: ExecutionId) | Dequeue | Remove(id: ExecutionId)

  function Initial(limit: nat): (s: State) {
    State(limit, limit, [], 0)
  }

  function Enqueued(s: State, id: ExecutionId): (s': State) {
    if s.capacity - 1 < 0 then s.(capacity := s.capacity - 1, waiting := s.waiting + [id])
    else s.(capacity := s.capacity - 1, running := s.running + 1)
  }

  /** The head of the queue, if there is one, is let through. */
  function ResolveNext(s: State): (s': State) {
    if s.waiting == [] then s else s.(waiting := s.waiting[1..], running := s.running + 1)
  }

  function Dequeued(s: State): (s': State)
    requires s.running > 0
  {
    ResolveNext(s.(capacity := s.capacity + 1, running := s.running - 1))
  }

  function IndexOf(ids: seq<ExecutionId>, id: ExecutionId): (i: nat)
    requires id in ids
    ensures i < |ids| && ids[i] == id && id !in ids[..i]
  {
    if ids[0] == id then 0 else 1 + IndexOf(ids[1..], id)
  }

  /** Removing a waiting execution gives back its capacity and, like a release, lets the next one through. */
  function Removed(s: State, id: ExecutionId): (s': State) {
    if id !in s.waiting then s else
      var i := IndexOf(s.waiting, id);
      ResolveNext(s.(capacity := s.capacity + 1, waiting := s.waiting[..i] + s.waiting[i + 1..]))
  }

  /** Capacity is neither lost nor made: it is what remains of the limit after those running and those waiting. */
  predicate Conserved(s: State) {
    s.capacity == s.limit - s.running - |s.waiting|
  }

  /** Nobody waits while there is room. */
  predicate NoIdleRoom(s: State) {
    s.waiting != [] ==> s.running >= s.limit
  }

  predicate InOrder(s: State) {
    Conserved(s) && NoIdleRoom(s)
  }

  predicate WithinLimit(s: State) {
    s.running <= s.limit
  }

  predicate CanApply(s: State, op: Op) {
    op.Dequeue? ==> s.running > 0
  }

  function Apply(s: State, op: Op): (s': State)
    requires CanApply(s, op)
  {
    match op
    case Enqueue(id) => Enqueued(s, id)
    case Dequeue => Dequeued(s)
    case Remove(id) => Removed(s, id)
  }

  /** The removal of an execution while others wait behind or before it. */
  predicate Overtakes(s: State, op: Op) {
    op.Remove? && op.id in s.waiting && |s.waiting| > 1
  }

  /** Every operation conserves capacity and leaves no room idle, and lets through at most the head of the queue. */
  lemma StepConserves(s: State, op: Op)
    requires InOrder(s) && CanApply(s, op)
    ensures InOrder(Apply(s, op))
    ensures Apply(s, op).running <= s.running + 1
    ensures op.Dequeue? && s.waiting != [] ==>
      Apply(s, op).waiting == s.waiting[1..] && Apply(s, op).running == s.running
  {
  }

  /** An operation keeps a full queue's limit exactly unless it removes one of several waiting executions. */
  lemma LimitKeptExactly(s: State, op: Op)
    requires InOrder(s) && WithinLimit(s) && CanApply(s, op)
    ensures WithinLimit(Apply(s, op)) <==> !Overtakes(s, op)
  {
  }

  /** What a removal leaves: the first entry with the id is gone, and the first of the rest has been let through. */
  ghost predicate RemovedOne(s: State, s': State, id: ExecutionId) {
    exists i :: 0 <= i < |s.waiting| && RemovedAt(s, s', id, i)
  }

  ghost predicate RemovedAt(s: State, s': State, id: ExecutionId, i: nat)
    requires i < |s.waiting|
  {
    && s.waiting[i] == id && (forall j :: 0 <= j < i ==> s.waiting[j] != id)
    && s'.limit == s.limit && s'.capacity == s.capacity + 1
    && (|s.waiting| == 1 ==> s'.waiting == [] && s'.running == s.running)
    && (|s.waiting| > 1 ==>
      && s'.running == s.running + 1 && |s'.waiting| == |s.waiting| - 2
      && forall k :: 0 <= k < |s'.waiting| ==>
           s'.waiting[k] == (if k + 1 < i then s.waiting[k + 1] else s.waiting[k + 2]))
  }

  lemma RemovalLetsHeadThrough(s: State, id: ExecutionId)
    ensures id !in s.waiting ==> Removed(s, id) == s
    ensures id in s.waiting ==> RemovedOne(s, Removed(s, id), id)
  {
    if id in s.waiting {
      assert RemovedAt(s, Removed(s, id), id, IndexOf(s.waiting, id));
    }
  }

  /** An operation that is not possible changes nothing. */
  function Next(s: State, op: Op): (s': State) {
    if CanApply(s, op) then Apply(s, op) else s
  }

  ghost predicate IsRun(s: State, ops: seq<Op>) {
    Runs.IsRun(CanApply, Next, s, ops)
  }

  ghost function After(s: State, ops: seq<Op>): (s': State) {
    Runs.After(Next, s, ops)
  }

  /** First come, first served: `n` releases let exactly the first `n` of those that wait through. */
  lemma {:induction false} ReleasesServeInOrder(s: State, n: nat)
    requires InOrder(s) && s.running > 0 && n <= |s.waiting|
    ensures var releases := seq(n, i => Dequeue);
      && IsRun(s, releases) && After(s, releases).waiting == s.waiting[n..]
      && After(s, releases).running == s.running && After(s, releases).capacity == s.capacity + n
    decreases n
  {
    var releases := seq(n, i => Dequeue);
    if n > 0 {
      var s' := Next(s, Dequeue);
      StepConserves(s, Dequeue);
      ReleasesServeInOrder(s', n - 1);
      assert releases[1..] == seq(n - 1, i => Dequeue);
      assert s.waiting[1..][n - 1..] == s.waiting[n..];
    }
  }

  /** What comes while there is no room waits behind those that wait already; otherwise it runs at once. */
  lemma ArrivalsQueueUp(s: State, id: ExecutionId)
    requires InOrder(s)
    ensures var s' := Next(s, Enqueue(id));
      && (s.running >= s.limit ==> s'.waiting == s.waiting + [id] && s'.running == s.running)
      && (s.running < s.limit ==> s'.waiting == s.waiting == [] && s'.running == s.running + 1)
  {
  }

  ghost function Overtakings(s: State, ops: seq<Op>): (n: nat)
    decreases |ops|
  {
    if ops == [] then 0 else (if Overtakes(s, ops[0]) then 1 else 0) + Overtakings(Next(s, ops[0]), ops[1..])
  }

  /** Over any run, the limit is exceeded by no more than the number of removals that let another execution through. */
  lemma {:induction false} ExcessIsBounded(s: State, ops: seq<Op>)
    requires InOrder(s) && IsRun(s, ops)
    ensures InOrder(After(s, ops)) && After(s, ops).limit == s.limit
    ensures After(s, ops).running <= (if s.running > s.limit then s.running else s.limit) + Overtakings(s, ops)
    decreases |ops|
  {
    if ops != [] {
      StepConserves(s, ops[0]);
      ExcessIsBounded(Next(s, ops[0]), ops[1..]);
    }
  }

  /** From an empty queue, the limit holds throughout a run exactly if no removal ever overtakes. */
  lemma RunsStayWithinLimit(limit: nat, ops: seq<Op>)
    requires IsRun(Initial(limit), ops)
    ensures Runs.Always(WithinLimit, Next, Initial(limit), ops) <==> Runs.Never(Overtakes, Next, Initial(limit), ops)
  {
    forall s, op | InOrder(s) && CanApply(s, op) ensures InOrder(Next(s, op)) {
      StepConserves(s, op);
    }
    forall s, op | InOrder(s) && WithinLimit(s) && CanApply(s, op)
      ensures WithinLimit(Next(s, op)) <==> !Overtakes(s, op)
    {
      LimitKeptExactly(s, op);
    }
    Runs.AlwaysExactly(CanApply, Next, InOrder, WithinLimit, Overtakes, Initial(limit), ops);
  }

  /** With room for one, removing one of two that wait lets the other through beside the one that runs. */
  lemma RemovalExceedsLimit(x: ExecutionId, a: ExecutionId, b: ExecutionId)
    requires a != b
    ensures var ops := [Enqueue(x), Enqueue(a), Enqueue(b), Remove(a)];
      IsRun(Initial(1), ops) && After(Initial(1), ops) == State(1, -1, [], 2)
  {
    var s1 := State(1, 0, [], 1);
    var s2 := State(1, -1, [a], 1);
    var s3 := State(1, -2, [a, b], 1);
    assert Apply(Initial(1), Enqueue(x)) == s1 && Apply(s1, Enqueue(a)) == s2 && Apply(s2, Enqueue(b)) == s3;
    assert IndexOf([a, b], a) == 0 && Removed(s3, a) == State(1, -1, [], 2);
    Runs.RunThree(CanApply, Next, s1, [Enqueue(a), Enqueue(b), Remove(a)]);
    Runs.RunStep(CanApply, Next, Initial(1), Enqueue(x), [Enqueue(a), Enqueue(b), Remove(a)]);
    assert [Enqueue(x)] + [Enqueue(a), Enqueue(b), Remove(a)] == [Enqueue(x), Enqueue(a), Enqueue(b), Remove(a)];
  }

  class Queue {
    const limit: nat
    var capacity: int
    var waiting: seq<ExecutionId>
    ghost var running: nat

    ghost function View(): (s: State)
      reads this
    {
      State(limit, capacity, waiting, running)
    }

    constructor (limit: nat)
      ensures View() == Initial(limit)
    {
      this.limit, capacity, waiting, running := limit, limit, [], 0;
    }

    method EnqueueExecution(id: ExecutionId) returns (throttled: bool)
      requires InOrder(View())
      modifies this
      ensures View() == Enqueued(old(View()), id) && InOrder(View())
      ensures throttled <==> old(running >= limit)
      ensures if throttled then waiting == old(waiting) + [id] && running == old(running)
              else waiting == old(waiting) == [] && running == old(running) + 1
    {
      capacity := capacity - 1;
      if capacity < 0 {
        waiting := waiting + [id];
        return true;
      }
      running := running + 1;
      return false;
    }

    /** `resolveNext`: the head of the queue is let through; whoever calls it has given back the capacity for that. */
    method ReleaseNext()
      modifies this`waiting, this`running
      ensures View() == ResolveNext(old(View()))
      ensures capacity + running + |waiting| == old(capacity + running + |waiting|)
      ensures old(waiting) != [] ==> [old(waiting)[0]] + waiting == old(waiting) && running == old(running) + 1
      ensures old(waiting) == [] ==> View() == old(View())
    {
      if waiting != [] {
        waiting := waiting[1..];
        running := running + 1;
      }
    }

    method DequeueExecution()
      requires running > 0 && InOrder(View())
      modifies this
      ensures View() == Dequeued(old(View())) && InOrder(View())
      ensures running == (if old(waiting) == [] then old(running) - 1 else old(running))
      ensures running > limit ==> old(running > limit)
    {
      capacity := capacity + 1;
      running := running - 1;
      ReleaseNext();
    }

    method RemoveExecution(id: ExecutionId)
      requires InOrder(View())
      modifies this
      ensures View() == Removed(old(View()), id) && InOrder(View())
      ensures id !in old(waiting) ==> View() == old(View())
      ensures id in old(waiting) ==> RemovedOne(old(View()), View(), id)
    {
      StepConserves(View(), Remove(id));
      RemovalLetsHeadThrough(View(), id);
      var i := 0;
      while i < |waiting| && waiting[i] != id
        invariant 0 <= i <= |waiting| && id !in waiting[..i]
      {
        i := i + 1;
      }
      if i < |waiting| {
        assert waiting == old(waiting) && i == IndexOf(waiting, id);
        waiting := waiting[..i] + waiting[i + 1..];
        capacity := capacity + 1;
        ReleaseNext();
      }
    }
  }
}
