/**
 * The life of an execution, from any state that the cluster can be in: it can be started, parked, resumed and finished,
 * and what each of these leaves behind (packages/cli/src/active-executions.ts).
 */
module ExecutionLife {
  import opened ActiveExecutions
  import opened ExecutionCluster
  import Runs

  // ---------- What the segments of one process leave behind ----------

  /** Nothing but the run changes. */
  ghost predicate OnlyRun(p: Process, q: Process, r: RunId) {
    && q.entries == p.entries && q.enabled == p.enabled && OtherRunsSame(p, q, r)
  }

  ghost predicate OtherRunsSame(p: Process, q: Process, r: RunId) {
    && q.runs.Keys == p.runs.Keys + {r}
    && forall x :: x in p.runs && x != r ==> q.runs[x] == p.runs[x]
  }

  /** Capacity given back by a run that may hold some. */
  function Freed(p: Process, r: RunId): (n: int) {
    if p.enabled && r in p.runs && p.runs[r].held then 1 else 0
  }

  lemma BeginLeaves(p: Process, r: RunId, id: ExecutionId, resuming: bool)
    ensures OnlyRun(p, Begin(p, r, id, resuming), r) && Begin(p, r, id, resuming).outstanding == p.outstanding
    ensures var x := Begin(p, r, id, resuming).runs[r];
      x.id == id && x.resuming == resuming && x.phase == Reserving && !x.held && !x.settled && !x.cleaned && !x.ended
      && x.status == (if resuming then Running else New)
  {
  }

  lemma GrantLeaves(p: Process, r: RunId)
    requires r in p.runs
    ensures OnlyRun(p, Grant(p, r), r) && Grant(p, r).runs[r] == p.runs[r].(phase := Writing, held := true)
    ensures Grant(p, r).outstanding == p.outstanding + (if p.enabled then 1 else 0)
  {
  }

  lemma WrittenLeaves(p: Process, r: RunId, ok: bool)
    requires r in p.runs
    ensures OnlyRun(p, SetWritten(p, r, ok), r) && SetWritten(p, r, ok).outstanding == p.outstanding
    ensures SetWritten(p, r, ok).runs[r] == p.runs[r].(phase := Written(ok))
  {
  }

  lemma FailLeaves(p: Process, r: RunId)
    requires r in p.runs
    ensures OnlyRun(p, Fail(p, r), r) && Fail(p, r).outstanding == p.outstanding - Freed(p, r)
    ensures Fail(p, r).runs[r] == p.runs[r].(phase := Failed, held := false)
  {
  }

  /**
   * The end of `add`: the run becomes the entry of its id, running, with the start time of the entry it replaces, or
   * the current one if there is none. No other entry, no other run and no capacity changes.
   */
  lemma RegisterLeaves(p: Process, r: RunId, now: int)
    requires r in p.runs && EntriesKnown(p)
    ensures var q, id := Register(p, r, now), p.runs[r].id;
      && OtherRunsSame(p, q, r) && q.outstanding == p.outstanding && q.enabled == p.enabled
      && q.entries == p.entries[id := r]
      && q.runs[r].startedAt == (if id in p.entries then p.runs[p.entries[id]].startedAt else now)
      && q.runs[r].status == Running && q.runs[r].phase == Live
      && q.runs[r] == p.runs[r].(phase := Live, status := Running, startedAt := q.runs[r].startedAt)
  {
  }

  lemma EntrySegments(p: Process, id: ExecutionId, status: Status)
    requires EntriesKnown(p)
    ensures id !in p.entries ==> SetStatus(p, id, status) == p && Finalize(p, id) == p && Stop(p, id) == p
    ensures id in p.entries ==> var r := p.entries[id];
      && OnlyRun(p, SetStatus(p, id, status), r) && SetStatus(p, id, status).outstanding == p.outstanding
      && SetStatus(p, id, status).runs[r] == p.runs[r].(status := status)
      && OnlyRun(p, Finalize(p, id), r) && Finalize(p, id).outstanding == p.outstanding
      && Finalize(p, id).runs[r] == p.runs[r].(settled := true)
    ensures id in p.entries ==> var r, q := p.entries[id], Stop(p, id);
      && OtherRunsSame(p, q, r) && q.outstanding == p.outstanding && q.enabled == p.enabled
      && (if p.runs[r].status == Waiting then q.runs[r] == p.runs[r] && q.entries == p.entries - {id}
          else q.runs[r] == p.runs[r].(settled := true) && q.entries == p.entries)
  {
  }

  lemma CleanUpLeaves(p: Process, r: RunId)
    requires r in p.runs
    ensures var q := CleanUp(p, r);
      && OtherRunsSame(p, q, r) && q.enabled == p.enabled && q.outstanding == p.outstanding - Freed(p, r)
      && q.runs[r] == p.runs[r].(held := false, cleaned := true)
      && q.entries == (if p.runs[r].status == Waiting then p.entries else p.entries - {p.runs[r].id})
  {
  }

  // ---------- What a step leaves alone ----------

  /** A step changes no other process and no other row. */
  lemma StepTouchesOnly(s: Cluster, step: Step, q: ProcessId, id: ExecutionId)
    requires Inv(s) && Enabled(s, step)
    ensures step.CancelRow? || step.p != q ==>
      (q in Next(s, step).procs <==> q in s.procs) && (q in s.procs ==> Next(s, step).procs[q] == s.procs[q])
    ensures RowOf(s, step) != {id} ==>
      (id in Next(s, step).rows <==> id in s.rows) && (id in s.rows ==> Next(s, step).rows[id] == s.rows[id])
  {
  }

  /** The row that a step writes, if any. */
  function RowOf(s: Cluster, step: Step): (ids: set<ExecutionId>) {
    if step.Create? || step.CancelRow? then {step.id}
    else if (step.MarkRunning? || step.CompareAndSet? || step.RunMain? || step.ParkRow? || step.EndRow?) &&
            step.p in s.procs && step.r in s.procs[step.p].runs then {s.procs[step.p].runs[step.r].id}
    else {}
  }

  // ---------- Starting ----------

  /** The steps of one process, one after the other. */
  lemma FourSteps(s: Cluster, a: Step, b: Step, c: Step, d: Step)
    requires Enabled(s, a) && Enabled(Next(s, a), b) && Enabled(Next(Next(s, a), b), c)
    requires Enabled(Next(Next(Next(s, a), b), c), d)
    ensures IsRun(s, [a, b, c, d]) && After(s, [a, b, c, d]) == Next(Next(Next(Next(s, a), b), c), d)
  {
    Runs.RunThree(Enabled, Next, Next(s, a), [b, c, d]);
    Runs.RunStep(Enabled, Next, s, a, [b, c, d]);
    assert [a] + [b, c, d] == [a, b, c, d];
  }

  // The states on the way are written out, so that each step is checked by itself.

  function Put(s: Cluster, p: ProcessId, q: Process, id: ExecutionId, status: Status): (s': Cluster) {
    Cluster(s.procs[p := q], s.rows[id := status])
  }

  function PutRun(x: Process, r: RunId, run: Run, outstanding: int): (y: Process) {
    x.(runs := x.runs[r := run], outstanding := outstanding)
  }

  function OneMore(x: Process): (n: int) {
    if x.enabled then x.outstanding + 1 else x.outstanding
  }

  function OneLess(x: Process): (n: int) {
    if x.enabled then x.outstanding - 1 else x.outstanding
  }

  /** A call of `add` that has reserved and written, and is about to register. */
  lemma CallProceeds(x: Process, r: RunId, id: ExecutionId, resuming: bool, ok: bool)
    requires Valid(x) && r !in x.runs
    ensures var run := Run(id, resuming, Reserving, false, if resuming then Running else New, 0, false, false, false);
      var x1, x2 := PutRun(x, r, run, x.outstanding), PutRun(x, r, run.(phase := Writing, held := true), OneMore(x));
      && Begin(x, r, id, resuming) == x1 && Grant(x1, r) == x2
      && SetWritten(x2, r, ok) == PutRun(x, r, run.(phase := Written(ok), held := true), OneMore(x))
  {
    var run := Run(id, resuming, Reserving, false, if resuming then Running else New, 0, false, false, false);
    var writing := run.(phase := Writing, held := true);
    assert x.runs[r := run][r := writing] == x.runs[r := writing];
    assert x.runs[r := writing][r := writing.(phase := Written(ok))] == x.runs[r := writing.(phase := Written(ok))];
  }

  /** The process after a complete call of `add`. */
  function Added(x: Process, r: RunId, id: ExecutionId, resuming: bool, startedAt: int): (y: Process) {
    PutRun(x, r, Run(id, resuming, Live, true, Running, startedAt, false, false, false), OneMore(x)).(
      entries := x.entries[id := r])
  }

  /** The last segment of such a call: the run takes over the start time of the entry that it replaces. */
  lemma RegisterIsAdded(x: Process, r: RunId, id: ExecutionId, resuming: bool, status: Status, now: int)
    requires EntriesValid(x) && r !in x.runs
    ensures var x3 := PutRun(x, r, Run(id, resuming, Written(true), true, status, 0, false, false, false), OneMore(x));
      && EntriesValid(x3)
      && Register(x3, r, now) ==
         Added(x, r, id, resuming, if id in x.entries then x.runs[x.entries[id]].startedAt else now)
  {
    var x3 := PutRun(x, r, Run(id, resuming, Written(true), true, status, 0, false, false, false), OneMore(x));
    assert forall e :: e in x.entries ==> x3.runs[x.entries[e]] == x.runs[x.entries[e]];
    assert Register(x3, r, now).runs == x.runs[r := Register(x3, r, now).runs[r]];
  }

  lemma CreateSteps(s: Cluster, p: ProcessId, r: RunId, id: ExecutionId)
    requires p in s.procs && Valid(s.procs[p]) && r !in s.procs[p].runs && id !in s.rows
    ensures var x := s.procs[p]; var run := Run(id, false, Reserving, false, New, 0, false, false, false);
      var s1 := Put(s, p, PutRun(x, r, run, x.outstanding), id, New);
      var s2 := Put(s, p, PutRun(x, r, run.(phase := Writing, held := true), OneMore(x)), id, New);
      && Enabled(s, Create(p, r, id)) && Next(s, Create(p, r, id)) == s1
      && Enabled(s1, Reserved(p, r)) && Next(s1, Reserved(p, r)) == s2
      && Enabled(s2, MarkRunning(p, r))
      && Next(s2, MarkRunning(p, r)) ==
         Put(s, p, PutRun(x, r, run.(phase := Written(true), held := true), OneMore(x)), id, Running)
  {
    CallProceeds(s.procs[p], r, id, false, true);
  }

  /** The last segment, for a written run whose id has an entry that has settled, or none. */
  lemma AddReturnsStep(s: Cluster, p: ProcessId, r: RunId, now: int)
    requires HasRun(s, p, r) && TheRun(s, p, r).phase == Written(true) && EntriesValid(s.procs[p])
    requires var id := TheRun(s, p, r).id; EntryOf(s, p, id) ==> s.procs[p].runs[s.procs[p].entries[id]].settled
    ensures Enabled(s, AddReturns(p, r, now))
    ensures Next(s, AddReturns(p, r, now)) == Cluster(s.procs[p := Register(s.procs[p], r, now)], s.rows)
  {
  }

  /**
   * What a returning `add` leaves behind: the execution runs, since the start of the entry it replaces, or since now if
   * its process had none. Nothing else in the cluster changes.
   */
  lemma AddReturnsOutcome(s: Cluster, p: ProcessId, r: RunId, now: int)
    requires Inv(s) && Enabled(s, AddReturns(p, r, now))
    ensures var s', id := Next(s, AddReturns(p, r, now)), TheRun(s, p, r).id;
      && EntryOf(s', p, id) && s'.procs[p].entries[id] == r && TheRun(s', p, r).status == Running
      && StartedAt(s', p, id) == (if EntryOf(s, p, id) then StartedAt(s, p, id) else now)
      && (forall other :: other != id ==> SameEntryOf(s, s', p, other))
      && OtherRunsSame(s.procs[p], s'.procs[p], r) && s'.procs[p].outstanding == s.procs[p].outstanding
      && s'.rows == s.rows && s'.procs.Keys == s.procs.Keys
      && forall q :: q in s.procs && q != p ==> s'.procs[q] == s.procs[q]
  {
    RegisterLeaves(s.procs[p], r, now);
    ProcessStaysValid(s, AddReturns(p, r, now));
  }

  ghost predicate SameEntryOf(s: Cluster, s': Cluster, p: ProcessId, id: ExecutionId) {
    (EntryOf(s', p, id) <==> EntryOf(s, p, id)) &&
    (EntryOf(s, p, id) ==> s'.procs[p].entries[id] == s.procs[p].entries[id])
  }

  /** A new execution can be started: it ends up running, from now on, and holds one unit of capacity. */
  lemma CanBeStarted(s: Cluster, p: ProcessId, r: RunId, id: ExecutionId, now: int)
    requires Inv(s) && p in s.procs && r !in s.procs[p].runs && id !in s.rows
    ensures var steps := [Create(p, r, id), Reserved(p, r), MarkRunning(p, r), AddReturns(p, r, now)];
      IsRun(s, steps) && After(s, steps) == Put(s, p, Added(s.procs[p], r, id, false, now), id, Running)
    ensures Next(s, Create(p, r, id)).rows == s.rows[id := New]
  {
    var x := s.procs[p];
    NewHasNoEntry(s, p, id);
    CreateSteps(s, p, r, id);
    RegisterIsAdded(x, r, id, false, New, now);
    var run := Run(id, false, Written(true), true, New, 0, false, false, false);
    var s3 := Put(s, p, PutRun(x, r, run, OneMore(x)), id, Running);
    AddReturnsStep(s3, p, r, now);
    assert s3.procs[p := Added(x, r, id, false, now)] == s.procs[p := Added(x, r, id, false, now)];
    FourSteps(s, Create(p, r, id), Reserved(p, r), MarkRunning(p, r), AddReturns(p, r, now));
  }

  lemma NewHasNoEntry(s: Cluster, p: ProcessId, id: ExecutionId)
    requires Inv(s) && p in s.procs && id !in s.rows
    ensures id !in s.procs[p].entries
  {
    assert id in s.procs[p].entries ==> HasRun(s, p, s.procs[p].entries[id]);
  }

  // ---------- Resuming ----------

  lemma ResumeSteps(s: Cluster, p: ProcessId, r: RunId, id: ExecutionId)
    requires p in s.procs && Valid(s.procs[p]) && r !in s.procs[p].runs && id in s.rows && s.rows[id] == Waiting
    ensures var x := s.procs[p]; var run := Run(id, true, Reserving, false, Running, 0, false, false, false);
      var s1 := s.(procs := s.procs[p := PutRun(x, r, run, x.outstanding)]);
      var s2 := s.(procs := s.procs[p := PutRun(x, r, run.(phase := Writing, held := true), OneMore(x))]);
      && Enabled(s, BeginResume(p, r, id)) && Next(s, BeginResume(p, r, id)) == s1
      && Enabled(s1, Reserved(p, r)) && Next(s1, Reserved(p, r)) == s2
      && Enabled(s2, CompareAndSet(p, r))
      && Next(s2, CompareAndSet(p, r)) ==
         Put(s, p, PutRun(x, r, run.(phase := Written(true), held := true), OneMore(x)), id, Running)
  {
    CallProceeds(s.procs[p], r, id, true, true);
  }

  /**
   * A waiting execution can be resumed in any process: there it takes the place of the entry that waits, with its start
   * time, or gets a new one if the process has none.
   */
  lemma CanBeResumed(s: Cluster, p: ProcessId, r: RunId, id: ExecutionId, now: int)
    requires Inv(s) && p in s.procs && r !in s.procs[p].runs && id in s.rows && s.rows[id] == Waiting
    requires EntryOf(s, p, id) ==> s.procs[p].runs[s.procs[p].entries[id]].settled
    ensures var steps := [BeginResume(p, r, id), Reserved(p, r), CompareAndSet(p, r), AddReturns(p, r, now)];
      var startedAt := if EntryOf(s, p, id) then StartedAt(s, p, id) else now;
      IsRun(s, steps) && After(s, steps) == Put(s, p, Added(s.procs[p], r, id, true, startedAt), id, Running)
  {
    var x := s.procs[p];
    ResumeSteps(s, p, r, id);
    RegisterIsAdded(x, r, id, true, Running, now);
    var run := Run(id, true, Written(true), true, Running, 0, false, false, false);
    var s3 := Put(s, p, PutRun(x, r, run, OneMore(x)), id, Running);
    assert EntriesValid(x);
    AddReturnsStep(s3, p, r, now);
    var startedAt := if EntryOf(s, p, id) then StartedAt(s, p, id) else now;
    assert s3.procs[p := Added(x, r, id, true, startedAt)] == s.procs[p := Added(x, r, id, true, startedAt)];
    FourSteps(s, BeginResume(p, r, id), Reserved(p, r), CompareAndSet(p, r), AddReturns(p, r, now));
  }

  /** A resume may begin whatever the row says. If the execution does not wait, only the failed call is left of it. */
  lemma LateResumeChangesNothing(s: Cluster, p: ProcessId, r: RunId, id: ExecutionId)
    requires Inv(s) && p in s.procs && r !in s.procs[p].runs && id in s.rows && s.rows[id] != Waiting
    ensures var steps := [BeginResume(p, r, id), Reserved(p, r), CompareAndSet(p, r), AddRejects(p, r)];
      var x := s.procs[p]; var run := Run(id, true, Failed, false, Running, 0, false, false, false);
      IsRun(s, steps) && After(s, steps) == s.(procs := s.procs[p := PutRun(x, r, run, x.outstanding)])
  {
    var x := s.procs[p];
    CallProceeds(x, r, id, true, false);
    var run := Run(id, true, Reserving, false, Running, 0, false, false, false);
    var s1 := Next(s, BeginResume(p, r, id));
    assert s1 == s.(procs := s.procs[p := PutRun(x, r, run, x.outstanding)]);
    var s2 := Next(s1, Reserved(p, r));
    assert s2 == s.(procs := s.procs[p := PutRun(x, r, run.(phase := Writing, held := true), OneMore(x))]);
    LoserFails(s, s2, p, r, id);
    FourSteps(s, BeginResume(p, r, id), Reserved(p, r), CompareAndSet(p, r), AddRejects(p, r));
  }

  /** Its last two steps. */
  lemma LoserFails(s: Cluster, s2: Cluster, p: ProcessId, r: RunId, id: ExecutionId)
    requires p in s.procs && r !in s.procs[p].runs && id in s.rows && s.rows[id] != Waiting
    requires var writing := Run(id, true, Writing, true, Running, 0, false, false, false);
      s2 == s.(procs := s.procs[p := PutRun(s.procs[p], r, writing, OneMore(s.procs[p]))])
    ensures var failed := Run(id, true, Failed, false, Running, 0, false, false, false);
      var s3 := Next(s2, CompareAndSet(p, r));
      && Enabled(s2, CompareAndSet(p, r)) && Enabled(s3, AddRejects(p, r))
      && Next(s3, AddRejects(p, r)) ==
         s.(procs := s.procs[p := PutRun(s.procs[p], r, failed, s.procs[p].outstanding)])
  {
    var x, s3 := s.procs[p], Next(s2, CompareAndSet(p, r));
    var lost := Run(id, true, Written(false), true, Running, 0, false, false, false);
    assert s3.procs[p] == PutRun(x, r, lost, OneMore(x)) && s3.rows == s.rows;
    assert Fail(s3.procs[p], r) == PutRun(x, r, lost.(phase := Failed, held := false), x.outstanding);
  }

  // ---------- Parking and finishing ----------

  /** The entry of the execution runs and has its capacity. */
  ghost predicate RunsAs(s: Cluster, p: ProcessId, r: RunId, id: ExecutionId) {
    && HasRun(s, p, r) && id in s.procs[p].entries && s.procs[p].entries[id] == r && id in s.rows
    && var x := TheRun(s, p, r);
      x.id == id && x.phase.Live? && x.held && !x.settled && !x.cleaned && !x.ended
  }

  /** What a step of such a run leaves in its process, and in its row if it writes it. */
  function Becomes(s: Cluster, p: ProcessId, r: RunId, run: Run): (s': Cluster)
    requires p in s.procs
  {
    s.(procs := s.procs[p := PutRun(s.procs[p], r, run, s.procs[p].outstanding)])
  }

  function Writes(s: Cluster, id: ExecutionId, status: Status): (s': Cluster) {
    s.(rows := s.rows[id := status])
  }

  lemma ChangeStep(s: Cluster, p: ProcessId, r: RunId, id: ExecutionId, status: Status)
    requires RunsAs(s, p, r, id) && status != New
    ensures Enabled(s, ChangeStatus(p, id, status))
    ensures Next(s, ChangeStatus(p, id, status)) == Becomes(s, p, r, TheRun(s, p, r).(status := status))
    ensures RunsAs(Next(s, ChangeStatus(p, id, status)), p, r, id)
  {
  }

  lemma WriteStep(s: Cluster, p: ProcessId, r: RunId, id: ExecutionId, status: Status)
    requires RunsAs(s, p, r, id)
    ensures IsFinal(status) ==>
      && Enabled(s, EndRow(p, r, status))
      && Next(s, EndRow(p, r, status)) == Writes(Becomes(s, p, r, TheRun(s, p, r).(ended := true)), id, status)
    ensures TheRun(s, p, r).status == Waiting ==>
      && Enabled(s, ParkRow(p, r))
      && Next(s, ParkRow(p, r)) == Writes(Becomes(s, p, r, TheRun(s, p, r).(ended := true)), id, Waiting)
  {
  }

  lemma SettleStep(s: Cluster, p: ProcessId, r: RunId, id: ExecutionId)
    requires HasRun(s, p, r) && id in s.procs[p].entries && s.procs[p].entries[id] == r
    ensures Enabled(s, Settle(p, id))
    ensures Next(s, Settle(p, id)) == Becomes(s, p, r, TheRun(s, p, r).(settled := true))
  {
  }

  lemma CleanUpStep(s: Cluster, p: ProcessId, r: RunId)
    requires HasRun(s, p, r) && TheRun(s, p, r).settled && !TheRun(s, p, r).cleaned && TheRun(s, p, r).held
    ensures Enabled(s, RunCleanUp(p, r))
    ensures var x, run := s.procs[p], TheRun(s, p, r);
      Next(s, RunCleanUp(p, r)) == s.(procs := s.procs[p :=
        PutRun(x, r, run.(held := false, cleaned := true), OneLess(x)).(
          entries := if run.status == Waiting then x.entries else x.entries - {run.id})])
  {
    var x, run := s.procs[p], TheRun(s, p, r);
    CleanUpLeaves(x, r);
    assert CleanUp(x, r).runs == x.runs[r := run.(held := false, cleaned := true)];
  }

  lemma BecomesTwice(s: Cluster, p: ProcessId, r: RunId, a: Run, b: Run)
    requires p in s.procs
    ensures Becomes(Becomes(s, p, r, a), p, r, b) == Becomes(s, p, r, b)
  {
    var x := s.procs[p];
    assert x.runs[r := a][r := b] == x.runs[r := b];
    var one, two := PutRun(x, r, a, x.outstanding), PutRun(x, r, b, x.outstanding);
    assert s.procs[p := one][p := two] == s.procs[p := two];
  }

  /** The run changes its status, writes its row and settles. */
  lemma ThreeSteps(s: Cluster, p: ProcessId, r: RunId, id: ExecutionId, status: Status, write: Step)
    requires RunsAs(s, p, r, id)
    requires (status == Waiting && write == ParkRow(p, r)) || (IsFinal(status) && write == EndRow(p, r, status))
    ensures var settled := TheRun(s, p, r).(status := status, ended := true, settled := true);
      var s1 := Next(s, ChangeStatus(p, id, status)); var s2 := Next(s1, write);
      && Enabled(s, ChangeStatus(p, id, status)) && Enabled(s1, write) && Enabled(s2, Settle(p, id))
      && Next(s2, Settle(p, id)) == Writes(Becomes(s, p, r, settled), id, status)
  {
    var run := TheRun(s, p, r);
    ChangeStep(s, p, r, id, status);
    var s1 := Next(s, ChangeStatus(p, id, status));
    WriteStep(s1, p, r, id, status);
    BecomesTwice(s, p, r, run.(status := status), run.(status := status, ended := true));
    var s2 := Next(s1, write);
    assert s2 == Writes(Becomes(s, p, r, run.(status := status, ended := true)), id, status);
    SettleStep(s2, p, r, id);
    BecomesTwice(s, p, r, run.(status := status, ended := true),
                 run.(status := status, ended := true, settled := true));
  }

  /** And cleans up. */
  lemma LastSteps(s: Cluster, p: ProcessId, r: RunId, id: ExecutionId, status: Status, write: Step)
    requires RunsAs(s, p, r, id)
    requires (status == Waiting && write == ParkRow(p, r)) || (IsFinal(status) && write == EndRow(p, r, status))
    ensures var steps := [ChangeStatus(p, id, status), write, Settle(p, id), RunCleanUp(p, r)];
      var x := s.procs[p];
      var run := x.runs[r].(status := status, ended := true, settled := true, cleaned := true, held := false);
      var entries := if status == Waiting then x.entries else x.entries - {id};
      IsRun(s, steps) &&
      After(s, steps) == Put(s, p, PutRun(x, r, run, OneLess(x)).(entries := entries), id, status)
  {
    ThreeSteps(s, p, r, id, status, write);
    var settled := TheRun(s, p, r).(status := status, ended := true, settled := true);
    CleanUpAtLast(s, p, r, id, status, settled);
    FourSteps(s, ChangeStatus(p, id, status), write, Settle(p, id), RunCleanUp(p, r));
  }

  lemma CleanUpAtLast(s: Cluster, p: ProcessId, r: RunId, id: ExecutionId, status: Status, settled: Run)
    requires HasRun(s, p, r) && settled.settled && !settled.cleaned && settled.held && settled.id == id
    requires settled.status == status
    ensures var s3, x := Writes(Becomes(s, p, r, settled), id, status), s.procs[p];
      var entries := if status == Waiting then x.entries else x.entries - {id};
      var last := PutRun(x, r, settled.(held := false, cleaned := true), OneLess(x)).(entries := entries);
      Enabled(s3, RunCleanUp(p, r)) && Next(s3, RunCleanUp(p, r)) == Put(s, p, last, id, status)
  {
    var s3, x := Writes(Becomes(s, p, r, settled), id, status), s.procs[p];
    CleanUpStep(s3, p, r);
    var run := settled.(held := false, cleaned := true);
    assert x.runs[r := settled][r := run] == x.runs[r := run];
    var entries := if status == Waiting then x.entries else x.entries - {id};
    var last := PutRun(x, r, run, OneLess(x)).(entries := entries);
    assert s.procs[p := PutRun(x, r, settled, x.outstanding)][p := last] == s.procs[p := last];
  }

  /** A running execution can be parked: its row waits, its entry stays, and its capacity is given back. */
  lemma CanBeParked(s: Cluster, p: ProcessId, r: RunId, id: ExecutionId)
    requires RunsAs(s, p, r, id)
    ensures var steps := [ChangeStatus(p, id, Waiting), ParkRow(p, r), Settle(p, id), RunCleanUp(p, r)];
      var x := s.procs[p];
      var run := x.runs[r].(status := Waiting, ended := true, settled := true, cleaned := true, held := false);
      IsRun(s, steps) && After(s, steps) == Put(s, p, PutRun(x, r, run, OneLess(x)), id, Waiting)
  {
    LastSteps(s, p, r, id, Waiting, ParkRow(p, r));
  }

  /** And it can be finished: its row says how, its entry is gone, and its capacity is given back. */
  lemma CanBeFinished(s: Cluster, p: ProcessId, r: RunId, id: ExecutionId, status: Status)
    requires RunsAs(s, p, r, id) && IsFinal(status)
    ensures var steps := [ChangeStatus(p, id, status), EndRow(p, r, status), Settle(p, id), RunCleanUp(p, r)];
      var x := s.procs[p];
      var run := x.runs[r].(status := status, ended := true, settled := true, cleaned := true, held := false);
      IsRun(s, steps) &&
      After(s, steps) == Put(s, p, PutRun(x, r, run, OneLess(x)).(entries := x.entries - {id}), id, status)
  {
    LastSteps(s, p, r, id, status, EndRow(p, r, status));
  }

  // ---------- Failing, stopping and cancelling ----------

  /** A call that has not written its row can throw: it gives back what it holds, and changes nothing else. */
  lemma AddCanThrow(s: Cluster, p: ProcessId, r: RunId)
    requires Inv(s) && HasRun(s, p, r) && (TheRun(s, p, r).phase.Reserving? || TheRun(s, p, r).phase.Writing?)
    ensures Enabled(s, AddThrows(p, r))
    ensures var s', x := Next(s, AddThrows(p, r)), s.procs[p];
      && s'.rows == s.rows && s'.procs == s.procs[p := s'.procs[p]] && OnlyRun(x, s'.procs[p], r)
      && TheRun(s', p, r).phase == Failed && r !in Holders(s'.procs[p])
      && s'.procs[p].outstanding == x.outstanding - (if x.enabled && TheRun(s, p, r).phase.Writing? then 1 else 0)
  {
    assert RunValid(s.procs[p], r);
    FailLeaves(s.procs[p], r);
  }

  /** An entry can be stopped: if it waits it is forgotten, otherwise it is settled. */
  lemma EntryCanBeStopped(s: Cluster, p: ProcessId, id: ExecutionId)
    requires Inv(s) && EntryOf(s, p, id) && WaitingIsSettled(s.procs[p], id)
    ensures Enabled(s, StopEntry(p, id))
    ensures var s', x, r := Next(s, StopEntry(p, id)), s.procs[p], s.procs[p].entries[id];
      && s'.rows == s.rows && s'.procs == s.procs[p := s'.procs[p]] && s'.procs[p].outstanding == x.outstanding
      && OtherRunsSame(x, s'.procs[p], r) && TheRun(s', p, r).settled
      && s'.procs[p].entries == (if TheRun(s, p, r).status == Waiting then x.entries - {id} else x.entries)
  {
    EntrySegments(s.procs[p], id, New);
  }

  /** The clean-up of what has settled gives its capacity back, and removes its entry unless it waits. */
  lemma SettledCanCleanUp(s: Cluster, p: ProcessId, r: RunId)
    requires Inv(s) && HasRun(s, p, r) && TheRun(s, p, r).settled && !TheRun(s, p, r).cleaned
    ensures Enabled(s, RunCleanUp(p, r))
    ensures var s', x, run := Next(s, RunCleanUp(p, r)), s.procs[p], TheRun(s, p, r);
      && s'.rows == s.rows && s'.procs == s.procs[p := s'.procs[p]]
      && OtherRunsSame(x, s'.procs[p], r) && TheRun(s', p, r) == run.(held := false, cleaned := true)
      && s'.procs[p].outstanding == x.outstanding - Freed(x, r)
      && s'.procs[p].entries == (if run.status == Waiting then x.entries else x.entries - {run.id})
  {
    CleanUpLeaves(s.procs[p], r);
  }

  /**
   * A row can be cancelled at any time; but the runner's own write, which comes after `add`, and the last write of an
   * execution that runs on, do not look at the row and overwrite the cancellation.
   */
  lemma CancellationIsOverwritten(s: Cluster, p: ProcessId, r: RunId, status: Status)
    requires Inv(s) && HasRun(s, p, r) && TheRun(s, p, r).phase.Live? && !TheRun(s, p, r).ended && IsFinal(status)
    ensures var id := TheRun(s, p, r).id; var cancelled := Next(s, CancelRow(id));
      && Enabled(s, CancelRow(id)) && cancelled == s.(rows := s.rows[id := Canceled])
      && Enabled(cancelled, RunMain(p, r)) && Next(cancelled, RunMain(p, r)) == s.(rows := s.rows[id := Running])
      && Enabled(cancelled, EndRow(p, r, status)) && Next(cancelled, EndRow(p, r, status)).rows == s.rows[id := status]
  {
    var id := TheRun(s, p, r).id;
    var cancelled := Next(s, CancelRow(id));
    assert Next(cancelled, RunMain(p, r)).rows == s.rows[id := Running];
    assert Next(cancelled, RunMain(p, r)).procs == s.procs[p := s.procs[p]] == s.procs;
  }
}
