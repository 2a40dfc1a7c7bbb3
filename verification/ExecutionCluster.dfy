/**
 * Any number of processes sharing the execution table: the life of an execution cut into the steps between awaits,
 * with resumes raced by pollers, stale timers, children and webhooks (packages/cli/src/active-executions.ts and
 * packages/cli/src/wait-tracker.ts). A resume may begin at any time, for any execution, in any process; what makes it
 * safe is the conditional update of the row.
 */
module ExecutionCluster {
  import opened ActiveExecutions
  import Runs

  type ProcessId = nat

  /** The processes, and the status column of the execution table. */
  datatype Cluster = Cluster(procs: map<ProcessId, Process>, rows: map<ExecutionId, Status>)

  datatype Step =
    | Create(p: ProcessId, r: RunId, id: ExecutionId)       // `add` of a new execution: its row has been created
    | BeginResume(p: ProcessId, r: RunId, id: ExecutionId)  // `add` of an existing execution
    | Reserved(p: ProcessId, r: RunId)                      // the capacity reservation is granted
    | AddThrows(p: ProcessId, r: RunId)                     // reserving or writing throws
    | MarkRunning(p: ProcessId, r: RunId)                   // a new execution's row is set running
    | CompareAndSet(p: ProcessId, r: RunId)                 // a resumed execution's row is updated if it is waiting
    | AddReturns(p: ProcessId, r: RunId, now: int)          // the write succeeded, the object is registered
    | AddRejects(p: ProcessId, r: RunId)                    // the write changed nothing: already resuming
    | RunMain(p: ProcessId, r: RunId)                       // the runner sets the row running once more
    | ChangeStatus(p: ProcessId, id: ExecutionId, status: Status)
    | ParkRow(p: ProcessId, r: RunId)                       // the execution saves its row as waiting
    | EndRow(p: ProcessId, r: RunId, status: Status)        // the execution saves its row as finished
    | Settle(p: ProcessId, id: ExecutionId)
    | StopEntry(p: ProcessId, id: ExecutionId)
    | RunCleanUp(p: ProcessId, r: RunId)
    | CancelRow(id: ExecutionId)                            // a user or a shutdown cancels the row

  ghost predicate HasRun(s: Cluster, p: ProcessId, r: RunId) {
    p in s.procs && r in s.procs[p].runs
  }

  function TheRun(s: Cluster, p: ProcessId, r: RunId): (x: Run)
    requires HasRun(s, p, r)
  {
    s.procs[p].runs[r]
  }

  ghost predicate EntryOf(s: Cluster, p: ProcessId, id: ExecutionId) {
    p in s.procs && id in s.procs[p].entries && s.procs[p].entries[id] in s.procs[p].runs
  }

  /** The run owns its execution's row: it is starting or running it and has not written it for the last time. */
  predicate Claims(x: Run) {
    || (!x.resuming && (x.phase.Reserving? || x.phase.Writing?))
    || x.phase == Written(true)
    || (x.phase.Live? && !x.ended)
  }

  predicate IsFinal(status: Status) {
    status in {Success, Error, Canceled, Crashed}
  }

  /**
   * When a step can happen. Three conjuncts are assumptions about the environment rather than guards of the code:
   * an entry that is stopped while waiting, or replaced by a resume, has settled; and only an execution that
   * has not settled or ended changes its status.
   */
  ghost predicate Enabled(s: Cluster, step: Step) {
    match step
    case Create(p, r, id) => p in s.procs && r !in s.procs[p].runs && id !in s.rows
    case BeginResume(p, r, id) => p in s.procs && r !in s.procs[p].runs && id in s.rows
    case Reserved(p, r) => HasRun(s, p, r) && TheRun(s, p, r).phase.Reserving?
    case AddThrows(p, r) => HasRun(s, p, r) && (TheRun(s, p, r).phase.Reserving? || TheRun(s, p, r).phase.Writing?)
    case MarkRunning(p, r) => HasRun(s, p, r) && TheRun(s, p, r).phase.Writing? && !TheRun(s, p, r).resuming
    case CompareAndSet(p, r) =>
      HasRun(s, p, r) && TheRun(s, p, r).phase.Writing? && TheRun(s, p, r).resuming && TheRun(s, p, r).id in s.rows
    case AddReturns(p, r, _) =>
      HasRun(s, p, r) && TheRun(s, p, r).phase == Written(true) && EntriesValid(s.procs[p]) &&
      var id := TheRun(s, p, r).id;
      EntryOf(s, p, id) ==> s.procs[p].runs[s.procs[p].entries[id]].settled
    case AddRejects(p, r) => HasRun(s, p, r) && TheRun(s, p, r).phase == Written(false)
    case RunMain(p, r) =>
      HasRun(s, p, r) && TheRun(s, p, r).phase.Live? && !TheRun(s, p, r).ended && TheRun(s, p, r).id in s.rows
    case ChangeStatus(p, id, status) =>
      EntryOf(s, p, id) && status != New &&
      var x := s.procs[p].runs[s.procs[p].entries[id]]; !x.settled && !x.ended
    case ParkRow(p, r) =>
      HasRun(s, p, r) && TheRun(s, p, r).id in s.rows &&
      var x := TheRun(s, p, r); x.phase.Live? && !x.ended && !x.settled && x.status == Waiting
    case EndRow(p, r, status) =>
      HasRun(s, p, r) && TheRun(s, p, r).id in s.rows && IsFinal(status) &&
      TheRun(s, p, r).phase.Live? && !TheRun(s, p, r).ended
    case Settle(p, id) => EntryOf(s, p, id)
    case StopEntry(p, id) => EntryOf(s, p, id) && WaitingIsSettled(s.procs[p], id)
    case RunCleanUp(p, r) => HasRun(s, p, r) && TheRun(s, p, r).settled && !TheRun(s, p, r).cleaned
    case CancelRow(id) => id in s.rows
  }

  function SetEnded(p: Process, r: RunId): (q: Process)
    requires r in p.runs
  {
    p.(runs := p.runs[r := p.runs[r].(ended := true)])
  }

  /** The conditional update of a row: `requireStatus: 'waiting'`. */
  function UpdateIfWaiting(row: Status): (res: (bool, Status)) {
    if row == Waiting then (true, Running) else (false, row)
  }

  ghost function Next(s: Cluster, step: Step): (s': Cluster) {
    if !Enabled(s, step) then s
    else if step.CancelRow? then s.(rows := s.rows[step.id := Canceled])
    else Cluster(s.procs[step.p := NextProcess(s, step)], NextRows(s, step))
  }

  /** What a step does to its process. */
  ghost function NextProcess(s: Cluster, step: Step): (q: Process)
    requires Enabled(s, step) && !step.CancelRow?
  {
    var x := s.procs[step.p];
    match step
    case Create(_, r, id) => Begin(x, r, id, false)
    case BeginResume(_, r, id) => Begin(x, r, id, true)
    case Reserved(_, r) => Grant(x, r)
    case AddThrows(_, r) => Fail(x, r)
    case MarkRunning(_, r) => SetWritten(x, r, true)
    case CompareAndSet(_, r) => SetWritten(x, r, UpdateIfWaiting(s.rows[x.runs[r].id]).0)
    case AddReturns(_, r, now) => Register(x, r, now)
    case AddRejects(_, r) => Fail(x, r)
    case RunMain(_, _) => x
    case ChangeStatus(_, id, status) => SetStatus(x, id, status)
    case ParkRow(_, r) => SetEnded(x, r)
    case EndRow(_, r, _) => SetEnded(x, r)
    case Settle(_, id) => Finalize(x, id)
    case StopEntry(_, id) => Stop(x, id)
    case RunCleanUp(_, r) => CleanUp(x, r)
  }

  /** What a step does to the rows. */
  ghost function NextRows(s: Cluster, step: Step): (rows: map<ExecutionId, Status>)
    requires Enabled(s, step) && !step.CancelRow?
  {
    match step
    case Create(_, _, id) => s.rows[id := New]
    case MarkRunning(p, r) =>
      var id := TheRun(s, p, r).id;
      if id in s.rows then s.rows[id := Running] else s.rows
    case CompareAndSet(p, r) =>
      var id := TheRun(s, p, r).id;
      s.rows[id := UpdateIfWaiting(s.rows[id]).1]
    case RunMain(p, r) => s.rows[TheRun(s, p, r).id := Running]
    case ParkRow(p, r) => s.rows[TheRun(s, p, r).id := Waiting]
    case EndRow(p, r, status) => s.rows[TheRun(s, p, r).id := status]
    case _ => s.rows
  }

  // ---------- The invariant ----------

  ghost predicate RowsKnown(s: Cluster) {
    forall p, r :: HasRun(s, p, r) ==> TheRun(s, p, r).id in s.rows
  }

  /** At most one run in the whole cluster owns an execution. */
  ghost predicate OneOwner(s: Cluster) {
    forall p, r, q, t ::
      (HasRun(s, p, r) && HasRun(s, q, t) && TheRun(s, p, r).id == TheRun(s, q, t).id &&
       Claims(TheRun(s, p, r)) && Claims(TheRun(s, q, t)))
      ==> p == q && r == t
  }

  ghost predicate WaitingIsUnowned(s: Cluster)
    requires RowsKnown(s)
  {
    forall p, r :: HasRun(s, p, r) && Claims(TheRun(s, p, r)) ==> s.rows[TheRun(s, p, r).id] != Waiting
  }

  predicate IsOver(x: Run) {
    x.phase.Live? && x.ended && x.status != Waiting
  }

  /** An execution that ended for good neither waits nor has an owner, ever again. */
  ghost predicate OverIsOver(s: Cluster)
    requires RowsKnown(s)
  {
    forall p, r, q, t ::
      (HasRun(s, p, r) && HasRun(s, q, t) && TheRun(s, p, r).id == TheRun(s, q, t).id && IsOver(TheRun(s, p, r)))
      ==> s.rows[TheRun(s, p, r).id] != Waiting && !Claims(TheRun(s, q, t))
  }

  ghost predicate Inv(s: Cluster) {
    && (forall p :: p in s.procs ==> Valid(s.procs[p]))
    && RowsKnown(s) && OneOwner(s) && WaitingIsUnowned(s) && OverIsOver(s)
  }

  /** A resume only ever replaces an entry whose status is waiting. */
  lemma ReplacedIsWaiting(s: Cluster, p: ProcessId, r: RunId)
    requires Inv(s) && HasRun(s, p, r) && TheRun(s, p, r).phase == Written(true)
    ensures var id := TheRun(s, p, r).id; id in s.procs[p].entries ==>
      s.procs[p].entries[id] != r && s.procs[p].runs[s.procs[p].entries[id]].status == Waiting
  {
    var id := TheRun(s, p, r).id;
    if id in s.procs[p].entries {
      var u := s.procs[p].entries[id];
      assert HasRun(s, p, u) && TheRun(s, p, u).id == id && TheRun(s, p, u).phase.Live?;
      assert !Claims(TheRun(s, p, u));
      assert !IsOver(TheRun(s, p, u));
    }
  }

  lemma ProcessStaysValid(s: Cluster, step: Step)
    requires Inv(s) && Enabled(s, step)
    ensures forall p :: p in Next(s, step).procs ==> Valid(Next(s, step).procs[p])
  {
    if step.CancelRow? {
    } else if IsAddStep(step) {
      AddStepStaysValid(s, step);
    } else {
      OtherStepStaysValid(s, step);
    }
  }

  /** The steps of a call of `add`. */
  predicate IsAddStep(step: Step) {
    || step.Create? || step.BeginResume? || step.Reserved? || step.AddThrows? || step.MarkRunning?
    || step.CompareAndSet?
    || step.AddReturns? || step.AddRejects?
  }

  lemma AddStepStaysValid(s: Cluster, step: Step)
    requires Inv(s) && Enabled(s, step) && IsAddStep(step)
    ensures Valid(NextProcess(s, step))
  {
    var x := s.procs[step.p];
    match step
    case Create(_, r, id) => BeginValid(x, r, id, false);
    case BeginResume(_, r, id) => BeginValid(x, r, id, true);
    case Reserved(_, r) => GrantValid(x, r);
    case AddThrows(_, r) => FailValid(x, r);
    case MarkRunning(_, r) => WrittenValid(x, r, true);
    case CompareAndSet(_, r) => WrittenValid(x, r, UpdateIfWaiting(s.rows[x.runs[r].id]).0);
    case AddReturns(p, r, now) => ReplacedIsWaiting(s, p, r); RegisterValid(x, r, now);
    case AddRejects(_, r) => FailValid(x, r);
  }

  lemma OtherStepStaysValid(s: Cluster, step: Step)
    requires Inv(s) && Enabled(s, step) && !IsAddStep(step) && !step.CancelRow?
    ensures Valid(NextProcess(s, step))
  {
    var x := s.procs[step.p];
    match step
    case RunMain(_, r) =>
    case ChangeStatus(_, id, status) => SetStatusValid(x, id, status); assert RunValid(x, x.entries[id]);
    case ParkRow(_, r) => EndedValid(x, r);
    case EndRow(_, r, _) => EndedValid(x, r);
    case Settle(_, id) => FinalizeValid(x, id);
    case StopEntry(_, id) => StopValid(x, id);
    case RunCleanUp(_, r) => CleanUpValid(x, r);
  }

  lemma EndedValid(p: Process, r: RunId)
    requires Valid(p) && r in p.runs && p.runs[r].phase.Live?
    ensures Valid(SetEnded(p, r))
  {
    var q := SetEnded(p, r);
    assert Holders(q) == Holders(p);
    forall x | x in q.runs ensures RunValid(q, x) { assert RunValid(p, x); }
  }

  ghost predicate Ownership(s: Cluster) {
    RowsKnown(s) && OneOwner(s) && WaitingIsUnowned(s) && OverIsOver(s)
  }

  /** No run or owner is new, no execution is newly over, and no row newly waits. */
  ghost predicate Quiet(s: Cluster, s': Cluster)
    requires RowsKnown(s)
  {
    && s.rows.Keys <= s'.rows.Keys
    && (forall id :: id in s.rows ==> (s'.rows[id] == Waiting ==> s.rows[id] == Waiting))
    && forall p, r :: HasRun(s', p, r) ==>
      && HasRun(s, p, r) && TheRun(s', p, r).id == TheRun(s, p, r).id
      && (Claims(TheRun(s', p, r)) ==> Claims(TheRun(s, p, r)))
      && (IsOver(TheRun(s', p, r)) ==> IsOver(TheRun(s, p, r)))
  }

  lemma QuietKeepsOwnership(s: Cluster, s': Cluster)
    requires Ownership(s) && Quiet(s, s')
    ensures Ownership(s')
  {
  }

  /** Adding a run that owns nothing, or owns a brand-new row. */
  lemma BeginKeepsOwnership(s: Cluster, step: Step)
    requires Inv(s) && Enabled(s, step) && (step.Create? || step.BeginResume?)
    ensures Ownership(Next(s, step))
  {
    BeginAddsOne(s, step);
    if step.Create? { CreateKeepsOwnership(s, step); } else { BeginResumeKeepsOwnership(s, step); }
  }

  lemma BeginAddsOne(s: Cluster, step: Step)
    requires Inv(s) && Enabled(s, step) && (step.Create? || step.BeginResume?)
    ensures var s' := Next(s, step);
      && HasRun(s', step.p, step.r) && TheRun(s', step.p, step.r).id == step.id
      && (Claims(TheRun(s', step.p, step.r)) <==> step.Create?) && !IsOver(TheRun(s', step.p, step.r))
      && forall p, r :: HasRun(s', p, r) && !(p == step.p && r == step.r) ==>
        HasRun(s, p, r) && TheRun(s', p, r) == TheRun(s, p, r) && TheRun(s, p, r).id in s.rows
  {
  }

  lemma CreateKeepsOwnership(s: Cluster, step: Step)
    requires Inv(s) && Enabled(s, step) && step.Create?
    ensures Ownership(Next(s, step))
  {
    BeginAddsOne(s, step);
  }

  lemma BeginResumeKeepsOwnership(s: Cluster, step: Step)
    requires Inv(s) && Enabled(s, step) && step.BeginResume?
    ensures Ownership(Next(s, step))
  {
    BeginAddsOne(s, step);
  }

  /** A successful conditional update makes its run the only owner; a failed one changes nobody's ownership. */
  lemma CompareAndSetKeepsOwnership(s: Cluster, step: Step)
    requires Inv(s) && Enabled(s, step) && step.CompareAndSet?
    ensures Ownership(Next(s, step))
    ensures Claims(TheRun(Next(s, step), step.p, step.r)) <==> s.rows[TheRun(s, step.p, step.r).id] == Waiting
  {
    CompareAndSetChangesOne(s, step);
    if s.rows[TheRun(s, step.p, step.r).id] == Waiting {
      WinnerKeepsOwnership(s, step);
    } else {
      LoserKeepsOwnership(s, step);
    }
  }

  lemma CompareAndSetChangesOne(s: Cluster, step: Step)
    requires Inv(s) && Enabled(s, step) && step.CompareAndSet?
    ensures var s' := Next(s, step);
      && HasRun(s', step.p, step.r) && TheRun(s', step.p, step.r).id == TheRun(s, step.p, step.r).id
      && !IsOver(TheRun(s', step.p, step.r))
      && (Claims(TheRun(s', step.p, step.r)) <==> s.rows[TheRun(s, step.p, step.r).id] == Waiting)
      && forall p, r :: HasRun(s', p, r) && !(p == step.p && r == step.r) ==>
        HasRun(s, p, r) && TheRun(s', p, r) == TheRun(s, p, r)
  {
  }

  lemma WinnerKeepsOwnership(s: Cluster, step: Step)
    requires Inv(s) && Enabled(s, step) && step.CompareAndSet? && s.rows[TheRun(s, step.p, step.r).id] == Waiting
    ensures Ownership(Next(s, step))
  {
    CompareAndSetChangesOne(s, step);
  }

  lemma LoserKeepsOwnership(s: Cluster, step: Step)
    requires Inv(s) && Enabled(s, step) && step.CompareAndSet? && s.rows[TheRun(s, step.p, step.r).id] != Waiting
    ensures Ownership(Next(s, step))
  {
    CompareAndSetChangesOne(s, step);
    assert Next(s, step).rows == s.rows;
    QuietKeepsOwnership(s, Next(s, step));
  }

  /** Parking a row gives up the ownership of it. */
  lemma ParkKeepsOwnership(s: Cluster, step: Step)
    requires Inv(s) && Enabled(s, step) && step.ParkRow?
    ensures Ownership(Next(s, step))
  {
    LastWriteChangesOne(s, step);
  }

  /** So does writing it as finished. */
  lemma EndKeepsOwnership(s: Cluster, step: Step)
    requires Inv(s) && Enabled(s, step) && step.EndRow?
    ensures Ownership(Next(s, step))
  {
    LastWriteChangesOne(s, step);
  }

  lemma LastWriteChangesOne(s: Cluster, step: Step)
    requires Inv(s) && Enabled(s, step) && (step.ParkRow? || step.EndRow?)
    ensures var s' := Next(s, step);
      && HasRun(s', step.p, step.r) && TheRun(s', step.p, step.r).id == TheRun(s, step.p, step.r).id
      && Claims(TheRun(s, step.p, step.r)) && !Claims(TheRun(s', step.p, step.r))
      && forall p, r :: HasRun(s', p, r) && !(p == step.p && r == step.r) ==>
        HasRun(s, p, r) && TheRun(s', p, r) == TheRun(s, p, r)
  {
  }

  lemma LastWriteKeepsOwnership(s: Cluster, step: Step)
    requires Inv(s) && Enabled(s, step) && (step.ParkRow? || step.EndRow?)
    ensures Ownership(Next(s, step)) &&
      Claims(TheRun(s, step.p, step.r)) && !Claims(TheRun(Next(s, step), step.p, step.r))
  {
    if step.ParkRow? { ParkKeepsOwnership(s, step); } else { EndKeepsOwnership(s, step); }
    LastWriteChangesOne(s, step);
  }

  lemma OwnershipKept(s: Cluster, step: Step)
    requires Inv(s) && Enabled(s, step)
    ensures Ownership(Next(s, step))
  {
    if step.Create? || step.BeginResume? {
      BeginKeepsOwnership(s, step);
    } else if step.CompareAndSet? {
      CompareAndSetKeepsOwnership(s, step);
    } else if step.ParkRow? || step.EndRow? {
      LastWriteKeepsOwnership(s, step);
    } else {
      OtherStepsAreQuiet(s, step);
      QuietKeepsOwnership(s, Next(s, step));
    }
  }

  /** The same of one process. */
  ghost predicate QuietProcess(p: Process, q: Process) {
    forall r :: r in q.runs ==>
      && r in p.runs && q.runs[r].id == p.runs[r].id
      && (Claims(q.runs[r]) ==> Claims(p.runs[r])) && (IsOver(q.runs[r]) ==> IsOver(p.runs[r]))
  }

  lemma OtherStepsAreQuiet(s: Cluster, step: Step)
    requires Inv(s) && Enabled(s, step)
    requires !step.Create? && !step.BeginResume? && !step.CompareAndSet? && !step.ParkRow? && !step.EndRow?
    ensures Quiet(s, Next(s, step))
  {
    if !step.CancelRow? {
      if IsAddStep(step) { AddStepsAreQuiet(s, step); } else { LaterStepsAreQuiet(s, step); }
      forall p, r | HasRun(Next(s, step), p, r)
        ensures HasRun(s, p, r) && TheRun(Next(s, step), p, r).id == TheRun(s, p, r).id
        ensures Claims(TheRun(Next(s, step), p, r)) ==> Claims(TheRun(s, p, r))
        ensures IsOver(TheRun(Next(s, step), p, r)) ==> IsOver(TheRun(s, p, r))
      {
        if p != step.p { assert Next(s, step).procs[p] == s.procs[p]; }
      }
    }
  }

  lemma AddStepsAreQuiet(s: Cluster, step: Step)
    requires Inv(s) && Enabled(s, step)
    requires step.Reserved? || step.AddThrows? || step.MarkRunning? || step.AddReturns? || step.AddRejects?
    ensures QuietProcess(s.procs[step.p], NextProcess(s, step))
  {
    var x := s.procs[step.p];
    match step
    case Reserved(_, r) => GrantIsQuiet(x, r);
    case MarkRunning(_, r) => MarkIsQuiet(x, r);
    case AddReturns(_, r, now) => RegisterIsQuiet(x, r, now);
    case AddThrows(_, r) => FailIsQuiet(x, r);
    case AddRejects(_, r) => FailIsQuiet(x, r);
  }

  lemma LaterStepsAreQuiet(s: Cluster, step: Step)
    requires Inv(s) && Enabled(s, step)
    requires step.RunMain? || step.ChangeStatus? || step.Settle? || step.StopEntry? || step.RunCleanUp?
    ensures QuietProcess(s.procs[step.p], NextProcess(s, step))
  {
    var x := s.procs[step.p];
    match step
    case RunMain(_, _) =>
    case ChangeStatus(_, id, status) => StatusIsQuiet(x, id, status);
    case Settle(_, id) => FinalizeIsQuiet(x, id);
    case StopEntry(_, id) => FinalizeIsQuiet(x, id);
    case RunCleanUp(_, r) => CleanUpIsQuiet(x, r);
  }

  lemma GrantIsQuiet(p: Process, r: RunId)
    requires r in p.runs && p.runs[r].phase.Reserving?
    ensures QuietProcess(p, Grant(p, r))
  {
  }

  lemma MarkIsQuiet(p: Process, r: RunId)
    requires r in p.runs && p.runs[r].phase.Writing? && !p.runs[r].resuming
    ensures QuietProcess(p, SetWritten(p, r, true))
  {
  }

  lemma RegisterIsQuiet(p: Process, r: RunId, now: int)
    requires EntriesValid(p) && r in p.runs && RunValid(p, r) && p.runs[r].phase == Written(true)
    ensures QuietProcess(p, Register(p, r, now))
  {
  }

  lemma FailIsQuiet(p: Process, r: RunId)
    requires r in p.runs && !p.runs[r].phase.Live?
    ensures QuietProcess(p, Fail(p, r))
  {
  }

  lemma StatusIsQuiet(p: Process, id: ExecutionId, status: Status)
    requires EntriesValid(p) && (id in p.entries ==> !p.runs[p.entries[id]].ended)
    ensures QuietProcess(p, SetStatus(p, id, status))
  {
  }

  lemma FinalizeIsQuiet(p: Process, id: ExecutionId)
    requires EntriesValid(p)
    ensures QuietProcess(p, Finalize(p, id)) && QuietProcess(p, Stop(p, id))
  {
  }

  lemma CleanUpIsQuiet(p: Process, r: RunId)
    requires r in p.runs
    ensures QuietProcess(p, CleanUp(p, r))
  {
  }

  /** From a cluster that satisfies the invariant, every step leads to one that does. */
  lemma StepKeepsInv(s: Cluster, step: Step)
    requires Inv(s) && Enabled(s, step)
    ensures Inv(Next(s, step))
  {
    ProcessStaysValid(s, step);
    OwnershipKept(s, step);
  }

  // ---------- Whole runs ----------

  ghost predicate Initial(s: Cluster) {
    s.rows == map[] && forall p :: p in s.procs ==> s.procs[p] == Process(map[], map[], 0, true)
  }

  ghost predicate IsRun(s: Cluster, steps: seq<Step>) {
    Runs.IsRun(Enabled, Next, s, steps)
  }

  ghost function After(s: Cluster, steps: seq<Step>): (s': Cluster) {
    Runs.After(Next, s, steps)
  }

  lemma RunKeepsInv(s: Cluster, steps: seq<Step>)
    requires Inv(s) && IsRun(s, steps)
    ensures Inv(After(s, steps))
  {
    forall s, step | Inv(s) && Enabled(s, step) ensures Inv(Next(s, step)) {
      StepKeepsInv(s, step);
    }
    Runs.RunKeeps(Enabled, Next, Inv, s, steps);
  }

  /** Calls of `add` that have reserved and are still under way, and objects whose clean-up has not run. */
  ghost function HoldingCapacity(p: Process): (rs: set<RunId>) {
    set r | r in p.runs && var x := p.runs[r]; x.phase.Writing? || x.phase.Written? || (x.phase.Live? && !x.cleaned)
  }

  /**
   * In every reachable state: no execution has two owners anywhere in the cluster; capacity taken is the number of
   * calls of `add` that have reserved plus the objects whose clean-up has not run; and an object whose clean-up
   * may still remove an entry is the entry.
   */
  lemma ReachableIsSafe(s: Cluster, steps: seq<Step>)
    requires Initial(s) && IsRun(s, steps)
    ensures var s' := After(s, steps);
      && Inv(s')
      && (forall p, r, q, t ::
        (HasRun(s', p, r) && HasRun(s', q, t) && TheRun(s', p, r).id == TheRun(s', q, t).id &&
         Claims(TheRun(s', p, r)) && Claims(TheRun(s', q, t)))
        ==> p == q && r == t)
      && (forall p :: p in s'.procs && s'.procs[p].enabled ==>
        s'.procs[p].outstanding == |HoldingCapacity(s'.procs[p])|)
      && (forall p, r ::
        (HasRun(s', p, r) && TheRun(s', p, r).phase.Live? &&
         !TheRun(s', p, r).cleaned && TheRun(s', p, r).status != Waiting)
        ==> Registered(s'.procs[p], r))
  {
    forall p | p in s.procs ensures Valid(s.procs[p]) { assert Holders(s.procs[p]) == {}; }
    RunKeepsInv(s, steps);
    var s' := After(s, steps);
    forall p | p in s'.procs
      ensures Holders(s'.procs[p]) == HoldingCapacity(s'.procs[p])
    {
      assert forall r :: r in s'.procs[p].runs ==> RunValid(s'.procs[p], r);
    }
  }

  predicate IsPark(s: Cluster, step: Step, id: ExecutionId) {
    step.ParkRow? && step.p in s.procs && step.r in s.procs[step.p].runs && s.procs[step.p].runs[step.r].id == id
  }

  /** A conditional update that found the row waiting. */
  predicate IsResume(s: Cluster, step: Step, id: ExecutionId) {
    && step.CompareAndSet? && step.p in s.procs && step.r in s.procs[step.p].runs
    && s.procs[step.p].runs[step.r].id == id
    && id in s.rows && s.rows[id] == Waiting
  }

  ghost function Parks(s: Cluster, steps: seq<Step>, id: ExecutionId): (n: nat)
    decreases |steps|
  {
    if steps == [] then 0 else
      (if IsPark(s, steps[0], id) then 1 else 0) + Parks(Next(s, steps[0]), steps[1..], id)
  }

  ghost function Resumes(s: Cluster, steps: seq<Step>, id: ExecutionId): (n: nat)
    decreases |steps|
  {
    if steps == [] then 0 else
      (if IsResume(s, steps[0], id) then 1 else 0) + Resumes(Next(s, steps[0]), steps[1..], id)
  }

  predicate Waits(s: Cluster, id: ExecutionId) {
    id in s.rows && s.rows[id] == Waiting
  }

  /** Over any run, an execution is resumed at most once for each time it began to wait. */
  lemma {:induction false} ResumesNeverExceedParks(s: Cluster, steps: seq<Step>, id: ExecutionId)
    requires IsRun(s, steps)
    ensures Resumes(s, steps, id) + (if Waits(After(s, steps), id) then 1 else 0)
         <= Parks(s, steps, id) + (if Waits(s, id) then 1 else 0)
    decreases |steps|
  {
    if steps != [] {
      ResumesNeverExceedParks(Next(s, steps[0]), steps[1..], id);
      assert Waits(Next(s, steps[0]), id) ==> Waits(s, id) || IsPark(s, steps[0], id);
      assert IsResume(s, steps[0], id) ==> !Waits(Next(s, steps[0]), id);
    }
  }

  /** The conditional update succeeds exactly if the row waits, and otherwise changes no row. */
  lemma CompareAndSetOutcome(s: Cluster, p: ProcessId, r: RunId)
    requires Inv(s) && Enabled(s, CompareAndSet(p, r))
    ensures var s' := Next(s, CompareAndSet(p, r)); var id := TheRun(s, p, r).id;
      && TheRun(s', p, r).phase == Written(Waits(s, id))
      && (!Waits(s, id) ==> s'.rows == s.rows)
      && (Waits(s, id) ==> Claims(TheRun(s', p, r)) && s'.rows == s.rows[id := Running])
  {
  }

  /** A resume that lost gives its capacity back and leaves every row and registry as it was. */
  lemma LoserRollsBack(s: Cluster, p: ProcessId, r: RunId)
    requires Inv(s) && HasRun(s, p, r) && TheRun(s, p, r).phase == Written(false)
    ensures Enabled(s, AddRejects(p, r))
    ensures var s' := Next(s, AddRejects(p, r));
      && s'.rows == s.rows && TheRun(s', p, r).phase == Failed
      && (forall q :: q in s.procs ==> s'.procs[q].entries == s.procs[q].entries)
      && s'.procs[p].outstanding == s.procs[p].outstanding - (if s.procs[p].enabled then 1 else 0)
      && Holders(s'.procs[p]) == Holders(s.procs[p]) - {r} && r in Holders(s.procs[p])
  {
    FailValid(s.procs[p], r);
    assert RunValid(s.procs[p], r);
  }

  /** No capacity is lost: an object that holds some is either due for clean-up or can still be settled. */
  lemma HolderCanRelease(s: Cluster, p: ProcessId, r: RunId)
    requires Inv(s) && HasRun(s, p, r) && TheRun(s, p, r).phase.Live? && r in Holders(s.procs[p])
    ensures var settle := Settle(p, TheRun(s, p, r).id);
      var settled := if TheRun(s, p, r).settled then s else if Enabled(s, settle) then Next(s, settle) else s;
      Enabled(settled, RunCleanUp(p, r)) && r !in Holders(Next(settled, RunCleanUp(p, r)).procs[p])
  {
    assert RunValid(s.procs[p], r);
    FinalizeValid(s.procs[p], TheRun(s, p, r).id);
  }

  ghost predicate StaysRegistered(s: Cluster, steps: seq<Step>, p: ProcessId, id: ExecutionId)
    decreases |steps|
  {
    && EntryOf(s, p, id)
    && (steps != [] ==> StaysRegistered(Next(s, steps[0]), steps[1..], p, id))
  }

  ghost function StartedAt(s: Cluster, p: ProcessId, id: ExecutionId): (at: int)
    requires EntryOf(s, p, id)
  {
    s.procs[p].runs[s.procs[p].entries[id]].startedAt
  }

  /** Across any number of waits and resumes in a process, an execution keeps its start time until it is removed. */
  lemma {:induction false} StartedAtIsKept(s: Cluster, steps: seq<Step>, p: ProcessId, id: ExecutionId)
    requires Inv(s) && IsRun(s, steps) && StaysRegistered(s, steps, p, id)
    ensures EntryOf(After(s, steps), p, id) && StartedAt(After(s, steps), p, id) == StartedAt(s, p, id)
    decreases |steps|
  {
    if steps != [] {
      StepKeepsInv(s, steps[0]);
      StepKeepsStartedAt(s, steps[0], p, id);
      StartedAtIsKept(Next(s, steps[0]), steps[1..], p, id);
    }
  }

  /** The entry of an execution may change, but not its start time. */
  predicate KeepsStartedAt(x: Process, y: Process, id: ExecutionId) {
    id in x.entries && x.entries[id] in x.runs && id in y.entries && y.entries[id] in y.runs ==>
      y.runs[y.entries[id]].startedAt == x.runs[x.entries[id]].startedAt
  }

  lemma AddStepKeepsStartedAt(s: Cluster, step: Step, id: ExecutionId)
    requires Inv(s) && Enabled(s, step) && IsAddStep(step)
    ensures KeepsStartedAt(s.procs[step.p], NextProcess(s, step), id)
  {
    if step.AddReturns? {
      RegisterKeepsStartedAt(s.procs[step.p], step.r, step.now, id);
    }
  }

  lemma RegisterKeepsStartedAt(p: Process, r: RunId, now: int, id: ExecutionId)
    requires EntriesValid(p) && r in p.runs && !p.runs[r].phase.Live?
    ensures KeepsStartedAt(p, Register(p, r, now), id)
  {
  }

  lemma LaterStepKeepsStartedAt(s: Cluster, step: Step, id: ExecutionId)
    requires Inv(s) && Enabled(s, step) && !IsAddStep(step) && !step.CancelRow?
    ensures KeepsStartedAt(s.procs[step.p], NextProcess(s, step), id)
  {
  }

  lemma StepKeepsStartedAt(s: Cluster, step: Step, p: ProcessId, id: ExecutionId)
    requires Inv(s) && Enabled(s, step) && EntryOf(s, p, id) && EntryOf(Next(s, step), p, id)
    ensures StartedAt(Next(s, step), p, id) == StartedAt(s, p, id)
  {
    if step.CancelRow? || step.p != p {
      assert Next(s, step).procs[p] == s.procs[p];
    } else if IsAddStep(step) {
      AddStepKeepsStartedAt(s, step, id);
    } else {
      LaterStepKeepsStartedAt(s, step, id);
    }
  }
}
