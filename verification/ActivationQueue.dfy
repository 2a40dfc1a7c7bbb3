/**
 * The queue of workflows whose activation failed and is retried with a growing delay
 * (packages/cli/src/active-workflow-manager.ts).
 */
module ActivationQueue {
  import Runs

  type WorkflowId = string
  type TimerId = nat
  type AttemptId = nat

  const INITIAL_TIMEOUT: nat := 1000
  const MAX_TIMEOUT: nat := 86400000

  datatype Entry = Entry(lastTimeout: nat, timer: TimerId)

  /** A pending timer: which workflow it retries, and after how long. */
  datatype Timer = Timer(workflow: WorkflowId, delay: nat)

  datatype Queue = Queue(entries: map<WorkflowId, Entry>, timers: map<TimerId, Timer>, next: TimerId)

  /** How an attempt to activate ends. */
  datatype Outcome =
    | Activated                     // the workflow is active and taken off the queue
    | Skipped                       // archived or no longer active: returns without touching the queue
    | FailsEarly(isolate: bool)     // throws before the workflow is taken off the queue
    | FailsLate                     // throws after that, while saving

  // ---------- The operations ----------

  function Remove(q: Queue, w: WorkflowId): (q': Queue) {
    if w in q.entries then q.(entries := q.entries - {w}, timers := q.timers - {q.entries[w].timer}) else q
  }

  function Arm(q: Queue, w: WorkflowId, delay: nat): (q': Queue) {
    Queue(q.entries[w := Entry(delay, q.next)], q.timers[q.next := Timer(w, delay)], q.next + 1)
  }

  function Enqueue(q: Queue, w: WorkflowId): (q': Queue) {
    Arm(Remove(q, w), w, INITIAL_TIMEOUT)
  }

  function RemoveAll(q: Queue): (q': Queue) {
    q.(entries := map[], timers := q.timers - set w | w in q.entries :: q.entries[w].timer)
  }

  /** A timer fires: it is no longer pending, but stays the handle of its queue entry during the attempt. */
  function Fire(q: Queue, t: TimerId): (q': Queue) {
    q.(timers := q.timers - {t})
  }

  function NextDelay(lastTimeout: nat, isolate: bool): (d: nat) {
    if !isolate && lastTimeout < MAX_TIMEOUT then
      (if lastTimeout * 2 < MAX_TIMEOUT then lastTimeout * 2 else MAX_TIMEOUT)
    else lastTimeout
  }

  /** The `catch` of the retry. The code reads the entry of the workflow without checking that there is one. */
  function Reschedule(q: Queue, w: WorkflowId, isolate: bool): (q': Queue)
    requires w in q.entries
  {
    Arm(q, w, NextDelay(q.entries[w].lastTimeout, isolate))
  }

  /** The queue when the attempt's `catch` or normal end is reached. */
  function BeforeCatch(q: Queue, w: WorkflowId, outcome: Outcome): (q': Queue) {
    if outcome.Activated? || outcome.FailsLate? then Remove(q, w) else q
  }

  predicate Throws(outcome: Outcome) {
    outcome.FailsEarly? || outcome.FailsLate?
  }

  /** The attempt that ends so finds no entry in its `catch`. */
  predicate CatchFindsNothing(q: Queue, w: WorkflowId, outcome: Outcome) {
    Throws(outcome) && w !in BeforeCatch(q, w, outcome).entries
  }

  function EndAttempt(q: Queue, w: WorkflowId, outcome: Outcome): (q': Queue)
    requires !CatchFindsNothing(q, w, outcome)
  {
    var q1 := BeforeCatch(q, w, outcome);
    if Throws(outcome) then Reschedule(q1, w, outcome.FailsEarly? && outcome.isolate) else q1
  }

  // ---------- The invariant ----------

  /** Every pending timer is the handle of the entry of the workflow it retries, with that entry's delay. */
  predicate Valid(q: Queue) {
    && (forall t :: t in q.timers ==>
      var x := q.timers[t]; x.workflow in q.entries && q.entries[x.workflow] == Entry(x.delay, t))
    && (forall t :: t in q.timers ==> t < q.next)
    && (forall w :: w in q.entries ==>
      q.entries[w].timer < q.next && INITIAL_TIMEOUT <= q.entries[w].lastTimeout <= MAX_TIMEOUT)
    && (forall v, w :: v in q.entries && w in q.entries && q.entries[v].timer == q.entries[w].timer ==> v == w)
  }

  lemma OneRetryPerWorkflow(q: Queue, s: TimerId, t: TimerId)
    requires Valid(q) && s in q.timers && t in q.timers && q.timers[s].workflow == q.timers[t].workflow
    ensures s == t
  {
    assert q.entries[q.timers[s].workflow].timer == s;
  }

  lemma RemoveKeepsValid(q: Queue, w: WorkflowId)
    requires Valid(q)
    ensures Valid(Remove(q, w)) && w !in Remove(q, w).entries
  {
  }

  lemma ArmKeepsValid(q: Queue, w: WorkflowId, delay: nat)
    requires Valid(q) && (w in q.entries ==> q.entries[w].timer !in q.timers) && INITIAL_TIMEOUT <= delay <= MAX_TIMEOUT
    ensures Valid(Arm(q, w, delay))
  {
  }

  lemma EnqueueKeepsValid(q: Queue, w: WorkflowId)
    requires Valid(q)
    ensures Valid(Enqueue(q, w))
  {
    RemoveKeepsValid(q, w);
    ArmKeepsValid(Remove(q, w), w, INITIAL_TIMEOUT);
  }

  /** The entries and the pending retries of all other workflows are as before. */
  ghost predicate SameForOthers(q: Queue, q': Queue, w: WorkflowId) {
    && (forall v :: v != w ==>
      (v in q'.entries <==> v in q.entries) && (v in q.entries ==> q'.entries[v] == q.entries[v]))
    && (forall t :: t in q.timers && q.timers[t].workflow != w ==> t in q'.timers && q'.timers[t] == q.timers[t])
    && (forall t :: t in q'.timers && q'.timers[t].workflow != w ==> t in q.timers && q'.timers[t] == q.timers[t])
  }

  /** Taking a workflow off the queue, or queueing it anew, affects the retry of no other. */
  lemma OthersKeepTheirRetries(q: Queue, w: WorkflowId)
    requires Valid(q)
    ensures SameForOthers(q, Remove(q, w), w) && SameForOthers(q, Enqueue(q, w), w)
    ensures forall t :: t in Remove(q, w).timers ==> q.timers[t].workflow != w
  {
    forall t | t in q.timers && q.timers[t].workflow != w ensures t in Remove(q, w).timers {
      assert q.entries[q.timers[t].workflow].timer == t;
    }
    forall t | t in Remove(q, w).timers ensures q.timers[t].workflow != w {
      assert q.entries[q.timers[t].workflow].timer == t;
    }
  }

  /** A queued workflow is retried once, after a second, whether or not it was queued before. */
  lemma QueuedIsRetried(q: Queue, w: WorkflowId)
    requires Valid(q)
    ensures var q' := Enqueue(q, w);
      && w in q'.entries && q'.entries[w].timer in q'.timers
      && q'.timers[q'.entries[w].timer] == Timer(w, 1000) && q'.entries[w].lastTimeout == 1000
      && forall t :: t in q'.timers && q'.timers[t].workflow == w ==> t == q'.entries[w].timer
  {
    OthersKeepTheirRetries(q, w);
    EnqueueKeepsValid(q, w);
  }

  /** So is one whose retry has failed, and nothing else changes. */
  lemma OthersKeepTheirRetriesOnFailure(q: Queue, w: WorkflowId, isolate: bool)
    requires Valid(q) && w in q.entries
    ensures SameForOthers(q, Reschedule(q, w, isolate), w)
    ensures var q' := Reschedule(q, w, isolate);
      q'.entries[w].timer in q'.timers && q'.timers[q'.entries[w].timer].workflow == w
  {
  }

  /** A timer that fires is the only thing that changes. */
  lemma FiringTakesOneTimer(q: Queue, t: TimerId)
    ensures Fire(q, t).entries == q.entries
    ensures forall u :: u in Fire(q, t).timers <==> u in q.timers && u != t
    ensures forall u :: u in Fire(q, t).timers ==> Fire(q, t).timers[u] == q.timers[u]
  {
  }

  /** Emptying the queue, as on step-down, leaves no retry pending. */
  lemma RemoveAllCancelsEverything(q: Queue)
    requires Valid(q)
    ensures Valid(RemoveAll(q)) && RemoveAll(q).timers == map[] && RemoveAll(q).entries == map[]
  {
  }

  lemma FireKeepsValid(q: Queue, t: TimerId)
    requires Valid(q)
    ensures Valid(Fire(q, t))
  {
  }

  /** Rescheduling keeps the invariant exactly if the entry's timer is not pending; that one would be orphaned. */
  lemma RescheduleKeepsValidExactly(q: Queue, w: WorkflowId, isolate: bool)
    requires Valid(q) && w in q.entries
    ensures Valid(Reschedule(q, w, isolate)) <==> q.entries[w].timer !in q.timers
  {
    var armed, q' := q.entries[w].timer, Reschedule(q, w, isolate);
    if armed in q.timers {
      assert armed in q'.timers && q'.timers[armed].workflow == w && q'.entries[w].timer == q.next;
    } else {
      ArmKeepsValid(q, w, NextDelay(q.entries[w].lastTimeout, isolate));
    }
  }

  /** One new timer is armed, with a delay that is doubled up to a day, or kept after an isolate error. */
  lemma RescheduleArmsOnce(q: Queue, w: WorkflowId, isolate: bool)
    requires Valid(q) && w in q.entries
    ensures var q' := Reschedule(q, w, isolate);
      var before, after := q.entries[w].lastTimeout, q'.entries[w].lastTimeout;
      && before <= after <= 86400000 && (isolate ==> after == before)
      && (!isolate ==> after == 2 * before || (after == 86400000 < 2 * before))
      && q'.timers == q.timers[q'.entries[w].timer := Timer(w, after)] && q'.entries[w].timer !in q.timers
  {
  }

  /**
   * An attempt with nothing in between: it keeps the invariant and finds its entry, unless saving fails after the
   * workflow was taken off the queue. A failed attempt leaves exactly one pending retry of its workflow.
   */
  lemma AtomicAttempt(q: Queue, t: TimerId, outcome: Outcome)
    requires Valid(q) && t in q.timers
    ensures var w, fired := q.timers[t].workflow, Fire(q, t);
      && (CatchFindsNothing(fired, w, outcome) <==> outcome.FailsLate?)
      && (!outcome.FailsLate? ==>
        var q' := EndAttempt(fired, w, outcome);
        && Valid(q')
        && (outcome.Activated? ==> w !in q'.entries)
        && (outcome.FailsEarly? ==>
          q.next in q'.timers && q'.timers[q.next] == Timer(w, NextDelay(q.timers[t].delay, outcome.isolate)))
        && SameForOthers(q, q', w))
  {
    var w, fired := q.timers[t].workflow, Fire(q, t);
    FireKeepsValid(q, t);
    assert SameForOthers(q, fired, w);
    OthersKeepTheirRetries(fired, w);
    if outcome.Activated? {
      RemoveKeepsValid(fired, w);
    } else if outcome.FailsEarly? {
      RescheduleKeepsValidExactly(fired, w, outcome.isolate);
      OthersKeepTheirRetriesOnFailure(fired, w, outcome.isolate);
    }
  }

  /**
   * An attempt during which the queue changed: its failure finds an entry to reschedule and keeps the invariant
   * exactly if the workflow is still queued and was not queued anew; a new entry's timer would be orphaned.
   */
  lemma InterruptedAttempt(q: Queue, w: WorkflowId, isolate: bool)
    requires Valid(q)
    ensures (!CatchFindsNothing(q, w, FailsEarly(isolate)) && Valid(EndAttempt(q, w, FailsEarly(isolate))))
      <==> w in q.entries && q.entries[w].timer !in q.timers
  {
    if w in q.entries {
      RescheduleKeepsValidExactly(q, w, isolate);
    }
  }

  // ---------- Runs with attempts under way ----------

  /** An attempt between the firing of its timer and its end; it is activated once it has left the queue. */
  datatype Attempt = Attempt(workflow: WorkflowId, activated: bool)

  datatype State = State(q: Queue, attempts: map<AttemptId, Attempt>, crashed: bool)

  datatype Step =
    | Requeue(w: WorkflowId)                        // by a failed activation or a failing trigger
    | Unqueue(w: WorkflowId)                        // by a removal, or by an activation from elsewhere
    | UnqueueAll                                    // on step-down
    | FireTimer(t: TimerId, a: AttemptId)
    | Activate(a: AttemptId)                        // the attempt takes its workflow off the queue
    | Return(a: AttemptId)
    | Fail(a: AttemptId, isolate: bool)             // the attempt throws, before or after that

  ghost predicate Enabled(s: State, step: Step) {
    match step
    case FireTimer(t, a) => t in s.q.timers && a !in s.attempts
    case Activate(a) => a in s.attempts && !s.attempts[a].activated
    case Return(a) => a in s.attempts
    case Fail(a, _) => a in s.attempts
    case _ => true
  }

  ghost function Next(s: State, step: Step): (s': State) {
    if !Enabled(s, step) then s else
      match step
      case Requeue(w) => s.(q := Enqueue(s.q, w))
      case Unqueue(w) => s.(q := Remove(s.q, w))
      case UnqueueAll => s.(q := RemoveAll(s.q))
      case FireTimer(t, a) => s.(q := Fire(s.q, t), attempts := s.attempts[a := Attempt(s.q.timers[t].workflow, false)])
      case Activate(a) =>
        s.(q := Remove(s.q, s.attempts[a].workflow), attempts := s.attempts[a := s.attempts[a].(activated := true)])
      case Return(a) => s.(attempts := s.attempts - {a})
      case Fail(a, isolate) => Caught(s, s.attempts[a].workflow, isolate).(attempts := s.attempts - {a})
  }

  /** The `catch` of the retry on whatever the queue is by then. */
  function Caught(s: State, w: WorkflowId, isolate: bool): (s': State) {
    if w in s.q.entries then s.(q := Reschedule(s.q, w, isolate)) else s.(crashed := true)
  }

  predicate Good(s: State) {
    Valid(s.q) && !s.crashed
  }

  /** The failure of an attempt whose workflow is not queued any more, or has been queued anew. */
  predicate IsMishandled(s: State, step: Step) {
    step.Fail? && step.a in s.attempts &&
    var w := s.attempts[step.a].workflow; w in s.q.entries ==> s.q.entries[w].timer in s.q.timers
  }

  lemma StepKeepsGoodExactly(s: State, step: Step)
    requires Good(s) && Enabled(s, step)
    ensures Good(Next(s, step)) <==> !IsMishandled(s, step)
  {
    match step
    case Requeue(w) => EnqueueKeepsValid(s.q, w);
    case Unqueue(w) => RemoveKeepsValid(s.q, w);
    case UnqueueAll => RemoveAllCancelsEverything(s.q);
    case FireTimer(t, _) => FireKeepsValid(s.q, t);
    case Activate(a) => RemoveKeepsValid(s.q, s.attempts[a].workflow);
    case Return(_) =>
    case Fail(a, isolate) => InterruptedAttempt(s.q, s.attempts[a].workflow, isolate);
  }

  ghost predicate IsRun(s: State, steps: seq<Step>) {
    Runs.IsRun(Enabled, Next, s, steps)
  }

  function Initial(): (s: State) {
    State(Queue(map[], map[], 0), map[], false)
  }

  /**
   * However attempts and queue operations interleave: every pending timer stays the handle of its workflow's entry and
   * no failure finds its entry gone, exactly if no failing attempt was overtaken by a change of its entry.
   */
  lemma RetriesHandledExactly(steps: seq<Step>)
    requires IsRun(Initial(), steps)
    ensures Runs.Always(Good, Next, Initial(), steps) <==> Runs.Never(IsMishandled, Next, Initial(), steps)
  {
    var any := (s: State) => true;
    forall s, step | any(s) && Good(s) && Enabled(s, step) ensures Good(Next(s, step)) <==> !IsMishandled(s, step) {
      StepKeepsGoodExactly(s, step);
    }
    Runs.AlwaysExactly(Enabled, Next, any, Good, IsMishandled, Initial(), steps);
  }

  predicate InFlight(s: State, w: WorkflowId) {
    exists a :: a in s.attempts && s.attempts[a] == Attempt(w, false)
  }

  /** Nothing touches the entry of a workflow while its retry is under way, and saving does not fail. */
  ghost predicate Undisturbed(s: State, step: Step) {
    && Enabled(s, step)
    && match step
      case Requeue(w) => !InFlight(s, w)
      case Unqueue(w) => !InFlight(s, w)
      case UnqueueAll => forall a :: a in s.attempts ==> s.attempts[a].activated
      case Fail(a, _) => !s.attempts[a].activated
      case _ => true
  }

  /** Every attempt under way is the only one of its workflow, and its timer is still the handle of the entry. */
  ghost predicate AttemptsValid(s: State) {
    && Good(s)
    && (forall a :: a in s.attempts && !s.attempts[a].activated ==>
      var w := s.attempts[a].workflow; w in s.q.entries && s.q.entries[w].timer !in s.q.timers)
    && (forall a, b ::
      (a in s.attempts && b in s.attempts && !s.attempts[a].activated && s.attempts[a] == s.attempts[b]) ==> a == b)
  }

  lemma StepKeepsAttemptsValid(s: State, step: Step)
    requires AttemptsValid(s) && Undisturbed(s, step)
    ensures AttemptsValid(Next(s, step)) && !IsMishandled(s, step)
  {
    StepKeepsGoodExactly(s, step);
    var s' := Next(s, step);
    forall a | a in s'.attempts && !s'.attempts[a].activated
      ensures var w := s'.attempts[a].workflow; w in s'.q.entries && s'.q.entries[w].timer !in s'.q.timers
    {
      if a in s.attempts {
        assert InFlight(s, s.attempts[a].workflow);
      }
    }
  }

  /** Left alone, no retry is mishandled. */
  lemma UndisturbedRetriesAreHandled(steps: seq<Step>)
    requires Runs.IsRun(Undisturbed, Next, Initial(), steps)
    ensures IsRun(Initial(), steps) && Runs.Always(Good, Next, Initial(), steps)
  {
    forall s, step | AttemptsValid(s) && Undisturbed(s, step)
      ensures AttemptsValid(Next(s, step)) && !IsMishandled(s, step)
    {
      StepKeepsAttemptsValid(s, step);
    }
    Runs.NeverBad(Undisturbed, Next, AttemptsValid, IsMishandled, Initial(), steps);
    Runs.RunWeaken(Undisturbed, Enabled, Next, Initial(), steps);
    RetriesHandledExactly(steps);
  }

  /** A retry that is due can fire, and an attempt under way can end in any way; to return leaves the queue as it is. */
  lemma AttemptsGoOn(s: State, t: TimerId, a: AttemptId, isolate: bool)
    ensures t in s.q.timers && a !in s.attempts ==>
      Enabled(s, FireTimer(t, a)) &&
      Next(s, FireTimer(t, a)).attempts == s.attempts[a := Attempt(s.q.timers[t].workflow, false)]
    ensures a in s.attempts ==> Enabled(s, Return(a)) && Enabled(s, Fail(a, isolate))
    ensures a in s.attempts ==> Next(s, Return(a)) == State(s.q, s.attempts - {a}, s.crashed)
    ensures a in s.attempts && !s.attempts[a].activated ==>
      Enabled(s, Activate(a)) && s.attempts[a].workflow !in Next(s, Activate(a)).q.entries
  {
  }

  // ---------- No queued workflow is forgotten ----------

  /** Every queued workflow has its retry pending or under way. */
  ghost predicate AllServed(s: State) {
    Good(s) && forall w :: w in s.q.entries ==> s.q.entries[w].timer in s.q.timers || InFlight(s, w)
  }

  /** Another attempt for the workflow is under way. */
  predicate InFlightBeside(s: State, w: WorkflowId, a: AttemptId) {
    exists b :: b in s.attempts && b != a && s.attempts[b] == Attempt(w, false)
  }

  /** An attempt returns without activating its workflow, which stays queued with nothing to retry it. */
  predicate IsForgotten(s: State, step: Step) {
    step.Return? && step.a in s.attempts && !s.attempts[step.a].activated &&
    var w := s.attempts[step.a].workflow;
    w in s.q.entries && s.q.entries[w].timer !in s.q.timers && !InFlightBeside(s, w, step.a)
  }

  lemma ServedStays(s: State, step: Step, w: WorkflowId)
    requires AllServed(s) && Enabled(s, step) && !IsMishandled(s, step)
    && !IsForgotten(s, step) && w in Next(s, step).q.entries
    ensures var s' := Next(s, step); s'.q.entries[w].timer in s'.q.timers || InFlight(s', w)
  {
    var s' := Next(s, step);
    if step.Requeue? {
      OthersKeepTheirRetries(s.q, step.w);
    } else if step.Unqueue? {
      OthersKeepTheirRetries(s.q, step.w);
    } else if step.FireTimer? && s.q.timers[step.t].workflow == w {
      assert s'.attempts[step.a] == Attempt(w, false);
    } else if step.Activate? {
      OthersKeepTheirRetries(s.q, s.attempts[step.a].workflow);
    } else if step.Fail? && s.attempts[step.a].workflow != w {
      OthersKeepTheirRetriesOnFailure(s.q, s.attempts[step.a].workflow, step.isolate);
    }
    if w in s.q.entries && s.q.entries[w].timer !in s.q.timers && !step.Requeue? && !step.Unqueue? {
      InFlightStays(s, step, w);
    }
  }

  lemma InFlightStays(s: State, step: Step, w: WorkflowId)
    requires AllServed(s) && Enabled(s, step) && !IsMishandled(s, step) && !IsForgotten(s, step)
    requires w in s.q.entries && s.q.entries[w].timer !in s.q.timers && w in Next(s, step).q.entries
    ensures var s' := Next(s, step); s'.q.entries[w].timer in s'.q.timers || InFlight(s', w)
  {
    var s' := Next(s, step);
    var a :| a in s.attempts && s.attempts[a] == Attempt(w, false);
    if step.Return? && step.a == a {
      var b :| b in s.attempts && b != a && s.attempts[b] == Attempt(w, false);
      assert s'.attempts[b] == Attempt(w, false);
    } else if !(step.Fail? && s.attempts[step.a].workflow == w) && !(step.Requeue? && step.w == w) {
      assert a in s'.attempts && s'.attempts[a] == Attempt(w, false);
    }
  }

  /** A step keeps every queued workflow served exactly if it neither mishandles a failure nor forgets a workflow. */
  lemma StepKeepsServedExactly(s: State, step: Step)
    requires AllServed(s) && Enabled(s, step)
    ensures AllServed(Next(s, step)) <==> !IsMishandled(s, step) && !IsForgotten(s, step)
  {
    StepKeepsGoodExactly(s, step);
    if IsForgotten(s, step) {
      var w := s.attempts[step.a].workflow;
      assert !InFlight(Next(s, step), w);
    } else if !IsMishandled(s, step) {
      forall w | w in Next(s, step).q.entries
        ensures Next(s, step).q.entries[w].timer in Next(s, step).q.timers || InFlight(Next(s, step), w)
      {
        ServedStays(s, step, w);
      }
    }
  }

  ghost predicate LosesRetry(s: State, step: Step) {
    IsMishandled(s, step) || IsForgotten(s, step)
  }

  /**
   * Over every run: the queue is in order and every queued workflow has its retry pending or under way, exactly if no
   * failure is mishandled and no attempt returns leaving its workflow queued, as one does for an archived workflow.
   */
  lemma QueuedAreServedExactly(steps: seq<Step>)
    requires IsRun(Initial(), steps)
    ensures Runs.Always(AllServed, Next, Initial(), steps) <==> Runs.Never(LosesRetry, Next, Initial(), steps)
  {
    var any := (s: State) => true;
    forall s, step | any(s) && AllServed(s) && Enabled(s, step)
      ensures AllServed(Next(s, step)) <==> !LosesRetry(s, step) {
      StepKeepsServedExactly(s, step);
    }
    Runs.AlwaysExactly(Enabled, Next, any, AllServed, LosesRetry, Initial(), steps);
  }

  /** A retry that activates its workflow and then fails to save reads an entry that is gone. */
  lemma FailedSaveCrashes(w: WorkflowId) returns (steps: seq<Step>)
    ensures IsRun(Initial(), steps) && Runs.After(Next, Initial(), steps).crashed
  {
    var s, first, rest := Initial(), [Requeue(w)], [FireTimer(0, 0), Activate(0), Fail(0, false)];
    var s1 := Next(s, first[0]);
    assert s1.q == Arm(s.q, w, INITIAL_TIMEOUT);
    Runs.RunThree(Enabled, Next, s1, rest);
    Runs.RunStep(Enabled, Next, s, first[0], rest);
    steps := [first[0]] + rest;
  }

  // ---------- The delay ----------

  function Power2(n: nat): (p: nat)
    ensures p >= 1
  {
    if n == 0 then 1 else 2 * Power2(n - 1)
  }

  /** The delay after `m` failures that are not isolate errors. */
  function Backoff(m: nat): (d: nat) {
    if INITIAL_TIMEOUT * Power2(m) < MAX_TIMEOUT then INITIAL_TIMEOUT * Power2(m) else MAX_TIMEOUT
  }

  /** The queue after the retries of `w` failed once for each element of `isolates`. */
  ghost function AfterFailures(q: Queue, w: WorkflowId, isolates: seq<bool>): (q': Queue)
    requires w in q.entries
    ensures w in q'.entries
  {
    if isolates == [] then q else
      var q1 := AfterFailures(q, w, isolates[..|isolates| - 1]);
      Reschedule(Fire(q1, q1.entries[w].timer), w, isolates[|isolates| - 1])
  }

  function CountFalse(bs: seq<bool>): (n: nat) {
    if bs == [] then 0 else CountFalse(bs[..|bs| - 1]) + (if bs[|bs| - 1] then 0 else 1)
  }

  /** However the failures mix, the delay is the capped power of two; it never shrinks and never exceeds a day. */
  lemma {:induction false} DelayIsBackoff(q: Queue, w: WorkflowId, isolates: seq<bool>)
    ensures var q' := AfterFailures(Enqueue(q, w), w, isolates);
      && q'.entries[w].lastTimeout == Backoff(CountFalse(isolates)) <= MAX_TIMEOUT
      && q'.entries[w].timer in q'.timers && q'.timers[q'.entries[w].timer] == Timer(w, Backoff(CountFalse(isolates)))
      && (isolates != [] ==>
        var before := AfterFailures(Enqueue(q, w), w, isolates[..|isolates| - 1]).entries[w].lastTimeout;
        before <= q'.entries[w].lastTimeout && (isolates[|isolates| - 1] ==> before == q'.entries[w].lastTimeout))
  {
    if isolates != [] {
      DelayIsBackoff(q, w, isolates[..|isolates| - 1]);
    }
  }

  // ---------- The queue object ----------

  class ActivationManager {
    var queuedActivations: map<WorkflowId, Entry>
    var timers: map<TimerId, Timer>
    var nextTimer: TimerId
    var attempts: map<AttemptId, Attempt>

    ghost function View(): (q: Queue)
      reads this
    {
      Queue(queuedActivations, timers, nextTimer)
    }

    /** `crashed` tells whether the current call reads an entry that is gone. */
    ghost function Now(crashed: bool): (s: State)
      reads this
    {
      State(View(), attempts, crashed)
    }

    constructor ()
      ensures Now(false) == Initial() && Valid(View())
    {
      queuedActivations, timers, nextTimer, attempts := map[], map[], 0, map[];
    }

    method RemoveQueuedWorkflowActivation(w: WorkflowId)
      requires Valid(View())
      modifies this
      ensures Now(false) == Next(old(Now(false)), Unqueue(w)) && Valid(View())
      ensures View() == Remove(old(View()), w) && attempts == old(attempts)
      ensures w !in queuedActivations && forall t :: t in timers ==> timers[t].workflow != w
      ensures SameForOthers(old(View()), View(), w)
    {
      OthersKeepTheirRetries(View(), w);
      RemoveKeepsValid(View(), w);
      if w in queuedActivations {
        timers := timers - {queuedActivations[w].timer};
        queuedActivations := queuedActivations - {w};
      }
    }

    method SetTimeout(w: WorkflowId, delay: nat) returns (t: TimerId)
      modifies this`timers, this`nextTimer
      ensures t == old(nextTimer) && nextTimer == t + 1 && timers == old(timers)[t := Timer(w, delay)]
    {
      t := nextTimer;
      timers := timers[t := Timer(w, delay)];
      nextTimer := t + 1;
    }

    method AddQueuedWorkflowActivation(w: WorkflowId)
      requires Valid(View())
      modifies this
      ensures Now(false) == Next(old(Now(false)), Requeue(w)) && Valid(View()) && attempts == old(attempts)
      ensures w in queuedActivations && queuedActivations[w] == Entry(1000, old(nextTimer))
      ensures old(nextTimer) in timers && timers[old(nextTimer)] == Timer(w, 1000)
      ensures SameForOthers(old(View()), View(), w)
    {
      OthersKeepTheirRetries(View(), w);
      EnqueueKeepsValid(View(), w);
      RemoveQueuedWorkflowActivation(w);
      var t := SetTimeout(w, INITIAL_TIMEOUT);
      queuedActivations := queuedActivations[w := Entry(INITIAL_TIMEOUT, t)];
    }

    method RemoveAllQueuedWorkflowActivations()
      requires Valid(View())
      modifies this
      ensures queuedActivations == map[] && timers == map[] && Valid(View()) && attempts == old(attempts)
      ensures Now(false) == Next(old(Now(false)), UnqueueAll)
    {
      RemoveAllCancelsEverything(View());
      while queuedActivations != map[]
        invariant Valid(View()) && attempts == old(attempts) && nextTimer == old(nextTimer)
        decreases queuedActivations.Keys
      {
        var w :| w in queuedActivations;
        RemoveQueuedWorkflowActivation(w);
      }
    }

    /** A timer fires: the retry runs to its first await. */
    method BeginRetry(t: TimerId, a: AttemptId)
      requires Valid(View()) && t in timers && a !in attempts
      modifies this
      ensures Now(false) == Next(old(Now(false)), FireTimer(t, a)) && Valid(View())
    {
      FireKeepsValid(View(), t);
      attempts := attempts[a := Attempt(timers[t].workflow, false)];
      timers := timers - {t};
    }

    /** The retry has activated its workflow and goes on to save. */
    method FinishActivation(a: AttemptId)
      requires Valid(View()) && a in attempts && !attempts[a].activated
      modifies this
      ensures Now(false) == Next(old(Now(false)), Activate(a)) && Valid(View())
    {
      RemoveQueuedWorkflowActivation(attempts[a].workflow);
      attempts := attempts[a := attempts[a].(activated := true)];
    }

    /** The retry fails: its `catch`, whatever happened to the queue since it began. */
    method FailRetry(a: AttemptId, isolate: bool) returns (crashed: bool)
      requires Valid(View()) && a in attempts
      modifies this
      ensures Now(crashed) == Next(old(Now(false)), Fail(a, isolate))
      ensures crashed <==> old(attempts[a].workflow !in queuedActivations)
      ensures (Valid(View()) && !crashed) <==> !IsMishandled(old(Now(false)), Fail(a, isolate))
    {
      StepKeepsGoodExactly(Now(false), Fail(a, isolate));
      var w := attempts[a].workflow;
      attempts := attempts - {a};
      if w !in queuedActivations { return true; }
      RescheduleActivation(w, isolate);
      return false;
    }

    /** The `catch` of the retry function. */
    method RescheduleActivation(w: WorkflowId, isolate: bool)
      requires Valid(View()) && w in queuedActivations
      modifies this`queuedActivations, this`timers, this`nextTimer
      ensures View() == Reschedule(old(View()), w, isolate)
      ensures w in queuedActivations && queuedActivations[w].timer !in old(timers)
      ensures timers == old(timers)[queuedActivations[w].timer := Timer(w, queuedActivations[w].lastTimeout)]
      ensures Valid(View()) <==> old(queuedActivations[w].timer !in timers)
    {
      RescheduleKeepsValidExactly(View(), w, isolate);
      RescheduleArmsOnce(View(), w, isolate);
      var lastTimeout := queuedActivations[w].lastTimeout;
      if !isolate && lastTimeout < MAX_TIMEOUT {
        lastTimeout := if lastTimeout * 2 < MAX_TIMEOUT then lastTimeout * 2 else MAX_TIMEOUT;
      }
      ArmRetry(w, lastTimeout);
    }

    /** Records the delay and arms the next retry. */
    method ArmRetry(w: WorkflowId, lastTimeout: nat)
      requires w in queuedActivations
      modifies this`queuedActivations, this`timers, this`nextTimer
      ensures View() == Arm(old(View()), w, lastTimeout)
    {
      queuedActivations := queuedActivations[w := queuedActivations[w].(lastTimeout := lastTimeout)];
      var handle := SetTimeout(w, lastTimeout);
      queuedActivations := queuedActivations[w := queuedActivations[w].(timer := handle)];
    }
  }
}
