/**
 * Children of a waiting parent execution that finish concurrently: each writes its output into the parent's stack and
 * then tries to resume the parent (packages/cli/src/workflow-helpers.ts and packages/cli/src/wait-tracker.ts).
 */
module ParentResume {
  import opened Wrappers
  import Runs

  type ChildId = nat
  type Data = string

  /** One entry of the node execution stack. */
  datatype Frame = Frame(node: string, data: Data)

  datatype ParentStatus = Running | Waiting | Ended

  /**
   * A stack as read from or stored in the row. `origin` is the wait period whose stack it was made from,
   * `writer` is the child whose output has been put into it last.
   */
  datatype Snapshot = Snapshot(stack: seq<Frame>, origin: nat, writer: Option<ChildId>)

  datatype Child =
    | Finished                  // the child's run is over
    | HasRead(snap: Snapshot)   // it has read the parent and is about to write it
    | Written                   // the update is done or was skipped
    | Loaded(snap: Snapshot)    // it has loaded the parent to resume it
    | Resumed(snap: Snapshot)
    | Lost                      // the parent was not waiting any more

  /** `entries` lists the stack the parent waited with, one for each wait period so far. */
  datatype State = State(
    status: ParentStatus,
    row: Snapshot,
    entries: seq<seq<Frame>>,
    resumedIn: set<nat>,
    outputs: map<ChildId, Option<Data>>,
    waits: map<ChildId, nat>,   // the wait period for which a finished child was started
    children: map<ChildId, Child>
  )

  datatype Step =
    | ParentWaits(stack: seq<Frame>)
    | ParentEnds
    | ChildFinishes(c: ChildId, n: nat, output: Option<Data>)  // a poller or a timer acts like a child without output
    | ReadParent(c: ChildId)
    | WriteParent(c: ChildId)
    | LoadParent(c: ChildId)
    | Resume(c: ChildId)

  ghost predicate Enabled(s: State, step: Step) {
    match step
    case ParentWaits(_) => s.status == Running
    case ParentEnds => s.status == Running
    case ChildFinishes(c, n, _) => c !in s.children && c !in s.outputs && n <= Period(s)
    case ReadParent(c) => c in s.children && s.children[c].Finished? && c in s.outputs
    case WriteParent(c) =>
      c in s.children && s.children[c].HasRead? && s.children[c].snap.stack != [] &&
      c in s.outputs && s.outputs[c].Some?
    case LoadParent(c) => c in s.children && s.children[c].Written?
    case Resume(c) => c in s.children && s.children[c].Loaded?
  }

  /** The assignment to the head of the stack. */
  function WithHead(snap: Snapshot, c: ChildId, data: Data): (out: Snapshot)
    requires snap.stack != []
  {
    Snapshot([snap.stack[0].(data := data)] + snap.stack[1..], snap.origin, Some(c))
  }

  /** Nothing is written without output data, for a parent that does not wait, or for an empty stack. */
  predicate SkipsUpdate(status: ParentStatus, stack: seq<Frame>, output: Option<Data>) {
    output.None? || status != Waiting || stack == []
  }

  /** The number of the current wait period. */
  function Period(s: State): (n: nat) {
    if s.entries == [] then 0 else |s.entries| - 1
  }

  function SetChild(s: State, c: ChildId, child: Child): (s': State) {
    s.(children := s.children[c := child])
  }

  ghost function Next(s: State, step: Step): (s': State) {
    if !Enabled(s, step) then s else
      match step
      case ParentWaits(stack) =>
        s.(status := Waiting, row := Snapshot(stack, |s.entries|, None), entries := s.entries + [stack])
      case ParentEnds => s.(status := Ended)
      case ChildFinishes(c, n, output) =>
        SetChild(s, c, Finished).(outputs := s.outputs[c := output], waits := s.waits[c := n])
      case ReadParent(c) =>
        SetChild(s, c, if SkipsUpdate(s.status, s.row.stack, s.outputs[c]) then Written else HasRead(s.row))
      case WriteParent(c) => SetChild(s, c, Written).(row := WithHead(s.children[c].snap, c, s.outputs[c].value))
      case LoadParent(c) => SetChild(s, c, Loaded(s.row))
      case Resume(c) =>
        if s.status != Waiting then SetChild(s, c, Lost) else
          SetChild(s, c, Resumed(s.children[c].snap)).(
            status := Running, row := s.children[c].snap, resumedIn := s.resumedIn + {Period(s)})
  }

  ghost predicate IsRun(s: State, steps: seq<Step>) {
    Runs.IsRun(Enabled, Next, s, steps)
  }

  ghost function After(s: State, steps: seq<Step>): (s': State) {
    Runs.After(Next, s, steps)
  }

  /** The parent waits for the first time; nothing has finished yet. */
  function Initial(stack: seq<Frame>): (s: State) {
    State(Waiting, Snapshot(stack, 0, None), [stack], {}, map[], map[], map[])
  }

  // ---------- What holds of every snapshot, in any interleaving ----------

  predicate IsOutput(s: State, data: Data) {
    exists c :: c in s.outputs && s.outputs[c] == Some(data)
  }

  /** The stack is the given one, except perhaps for the data of its head. */
  predicate SameUpToHeadData(a: seq<Frame>, b: seq<Frame>) {
    a == b || (a != [] && b != [] && a[1..] == b[1..] && a[0].node == b[0].node)
  }

  /** The stack of its origin, except that the data of the head may be a finished child's output. */
  ghost predicate FromOrigin(s: State, snap: Snapshot) {
    && snap.origin < |s.entries|
    && var entry := s.entries[snap.origin];
      if snap.writer.Some? then
        && snap.stack != [] && entry != [] && SameUpToHeadData(snap.stack, entry)
        && snap.writer.value in s.outputs && s.outputs[snap.writer.value] == Some(snap.stack[0].data)
      else
        snap.stack == entry
  }

  ghost predicate ChildValid(s: State, child: Child) {
    && (child.HasRead? || child.Loaded? || child.Resumed? ==> FromOrigin(s, child.snap))
    && (child.HasRead? ==> child.snap.stack != [])
  }

  ghost predicate Inv(s: State) {
    && s.entries != [] && FromOrigin(s, s.row)
    && (forall c :: c in s.children ==> c in s.outputs && ChildValid(s, s.children[c]))
    && (forall c :: c in s.outputs ==> c in s.waits)
    && (forall n :: n in s.resumedIn ==> n < |s.entries|)
    && (s.status == Waiting ==> Period(s) !in s.resumedIn)
  }

  lemma StepKeepsSnapshot(s: State, step: Step, snap: Snapshot)
    requires Inv(s) && Enabled(s, step) && FromOrigin(s, snap)
    ensures FromOrigin(Next(s, step), snap)
  {
  }

  lemma RowStaysFromOrigin(s: State, step: Step)
    requires Inv(s) && Enabled(s, step)
    ensures FromOrigin(Next(s, step), Next(s, step).row)
  {
    if step.WriteParent? {
      var snap := s.children[step.c].snap;
      assert ChildValid(s, s.children[step.c]);
      StepKeepsSnapshot(s, step, snap);
      var s' := Next(s, step);
      assert s'.row.stack[1..] == snap.stack[1..] && s'.row.stack[0].node == snap.stack[0].node;
    } else if step.Resume? {
      assert ChildValid(s, s.children[step.c]);
      StepKeepsSnapshot(s, step, s.children[step.c].snap);
      StepKeepsSnapshot(s, step, s.row);
    } else if !step.ParentWaits? {
      StepKeepsSnapshot(s, step, s.row);
    }
  }

  lemma ChildStaysValid(s: State, step: Step, c: ChildId)
    requires Inv(s) && Enabled(s, step) && c in Next(s, step).children
    ensures c in Next(s, step).outputs && ChildValid(Next(s, step), Next(s, step).children[c])
  {
    StepKeepsSnapshot(s, step, s.row);
    if c in s.children {
      assert ChildValid(s, s.children[c]);
      var child := s.children[c];
      if child.HasRead? || child.Loaded? || child.Resumed? {
        StepKeepsSnapshot(s, step, child.snap);
      }
    }
  }

  lemma StepKeepsInv(s: State, step: Step)
    requires Inv(s) && Enabled(s, step)
    ensures Inv(Next(s, step))
  {
    RowStaysFromOrigin(s, step);
    forall c | c in Next(s, step).children
      ensures c in Next(s, step).outputs && ChildValid(Next(s, step), Next(s, step).children[c])
    {
      ChildStaysValid(s, step, c);
    }
  }

  /** A child that finds the parent not waiting, or has no output, never writes; any other has read the row as it is. */
  lemma WritesOnlyIfWaiting(s: State, c: ChildId)
    requires Inv(s) && Enabled(s, ReadParent(c))
    ensures var s' := Next(s, ReadParent(c));
      && s'.row == s.row && s'.status == s.status
      && (s.status != Waiting || s.outputs[c] == None || s.row.stack == [] ==>
        !Enabled(s', WriteParent(c)) && s'.children[c] == Written)
      && (s.status == Waiting && s.outputs[c].Some? && s.row.stack != [] ==>
        Enabled(s', WriteParent(c)) && s'.children[c] == HasRead(s.row))
  {
  }

  /** A running parent can end, or wait anew with any stack. */
  lemma RunningParentGoesOn(s: State, stack: seq<Frame>)
    requires Inv(s) && s.status == Running
    ensures Enabled(s, ParentEnds) && Enabled(s, ParentWaits(stack))
    ensures var s' := Next(s, ParentWaits(stack));
      s'.entries == s.entries + [stack] && s'.row == Snapshot(stack, Period(s'), None)
  {
  }

  /** A child of the current wait or an earlier one may finish at any time, with or without output. */
  lemma ChildMayFinish(s: State, c: ChildId, n: nat, output: Option<Data>)
    requires Inv(s) && c !in s.children && c !in s.outputs && n <= Period(s)
    ensures Enabled(s, ChildFinishes(c, n, output))
    ensures var s' := Next(s, ChildFinishes(c, n, output));
      && s'.outputs[c] == output && s'.waits[c] == n && s'.children[c] == Finished && Enabled(s', ReadParent(c))
  {
  }

  /** Whatever the others do in the meantime, a child that has got so far can always go on. */
  lemma ChildGoesOn(s: State, c: ChildId)
    requires Inv(s) && c in s.children
    ensures match s.children[c]
      case Finished => Enabled(s, ReadParent(c))
      case HasRead(_) => s.outputs[c].Some? ==> Enabled(s, WriteParent(c))
      case Written => Enabled(s, LoadParent(c)) && Next(s, LoadParent(c)).children[c] == Loaded(s.row)
      case Loaded(_) => Enabled(s, Resume(c))
      case _ => true
  {
    assert ChildValid(s, s.children[c]);
  }

  /** A child that finishes by itself resumes the waiting parent, whose head then holds its output, if it has any. */
  lemma ChildResumesParent(s: State, c: ChildId) returns (steps: seq<Step>)
    requires Inv(s) && s.status == Waiting && c in s.children && s.children[c] == Finished
    ensures IsRun(s, steps)
    ensures var s' := After(s, steps);
      && s'.status == Running && SameUpToHeadData(s'.row.stack, s.row.stack)
      && (s.outputs[c].None? ==> s'.row.stack == s.row.stack)
      && (s.outputs[c].Some? && s.row.stack != [] ==>
        s'.row.stack != [] && s'.row.stack[0] == Frame(s.row.stack[0].node, s.outputs[c].value))
  {
    var s1 := Next(s, ReadParent(c));
    var first := [ReadParent(c)] + [];
    Runs.RunStep(Enabled, Next, s, ReadParent(c), []);
    if s.outputs[c].Some? && s.row.stack != [] {
      Runs.RunStep(Enabled, Next, s1, WriteParent(c), []);
      Runs.RunAppend(Enabled, Next, s, first, [WriteParent(c)] + []);
      s1, first := Next(s1, WriteParent(c)), first + ([WriteParent(c)] + []);
    }
    var s2 := Next(s1, LoadParent(c));
    Runs.RunStep(Enabled, Next, s2, Resume(c), []);
    Runs.RunStep(Enabled, Next, s1, LoadParent(c), [Resume(c)] + []);
    steps := [LoadParent(c)] + ([Resume(c)] + []);
    Runs.RunAppend(Enabled, Next, s, first, steps);
    steps := first + steps;
  }

  /** Nothing but a write, a wait or a resume changes the row; only the children's own steps move them on. */
  lemma OtherStepsKeepRow(s: State, step: Step)
    requires Inv(s) && Enabled(s, step)
    ensures !(step.WriteParent? || step.ParentWaits? || step.Resume?) ==> Next(s, step).row == s.row
    ensures forall c :: c in s.children && (step.ParentWaits? || step.ParentEnds? || step.c != c) ==>
      c in Next(s, step).children && Next(s, step).children[c] == s.children[c]
    ensures forall c :: c in s.outputs ==>
      c in Next(s, step).outputs && Next(s, step).outputs[c] == s.outputs[c] && Next(s, step).waits[c] == s.waits[c]
    ensures step.ChildFinishes? ==> Next(s, step).outputs == s.outputs[step.c := step.output]
    ensures step.ParentEnds? ==> Next(s, step).status == Ended
    ensures step.ParentWaits? ==> Next(s, step).status == Waiting && Next(s, step).row.stack == step.stack
  {
  }

  /** A parent is resumed at most once in a wait period; whoever comes later in that period loses. */
  lemma ResumedOncePerPeriod(s: State, c: ChildId)
    requires Inv(s) && Enabled(s, Resume(c))
    ensures var s' := Next(s, Resume(c));
      && (s'.children[c].Resumed? <==> s.status == Waiting)
      && (s'.children[c].Resumed? ==> Period(s) !in s.resumedIn && s'.resumedIn == s.resumedIn + {Period(s)})
      && (s'.children[c].Lost? ==> s' == SetChild(s, c, Lost))
  {
  }

  // ---------- Within one wait period ----------

  /** The parent has just begun to wait, and no child is between reading it and resuming it. */
  ghost predicate BeginsToWait(s: State) {
    && Inv(s) && s.status == Waiting && s.row == Snapshot(s.entries[Period(s)], Period(s), None)
    && forall c :: c in s.children ==> s.children[c].Finished? || s.children[c].Resumed? || s.children[c].Lost?
  }

  /** The child has output that goes into the stack of the current period. */
  predicate HasOutput(s: State, c: ChildId) {
    c in s.outputs && s.outputs[c].Some? && s.entries != [] && s.entries[Period(s)] != []
  }

  ghost predicate ChildInPeriod(s: State, c: ChildId)
    requires c in s.children
  {
    match s.children[c]
    case HasRead(snap) => snap.origin == Period(s)
    case Written => HasOutput(s, c) ==> s.row.writer.Some?
    case Loaded(snap) => snap.origin == Period(s) && (HasOutput(s, c) ==> snap.writer.Some?)
    case _ => true
  }

  /** While the period lasts, all stacks in use are of this period, and a child past its write has left its output. */
  ghost predicate InPeriod(s: State, n: nat, own: seq<Frame>) {
    && Inv(s) && n < |s.entries| && s.entries[n] == own
    && (s.status == Waiting && Period(s) == n ==>
      s.row.origin == n && forall c :: c in s.children ==> ChildInPeriod(s, c))
  }

  lemma StepKeepsInPeriod(s: State, step: Step, n: nat, own: seq<Frame>)
    requires InPeriod(s, n, own) && Enabled(s, step)
    ensures InPeriod(Next(s, step), n, own)
  {
    StepKeepsInv(s, step);
    var s' := Next(s, step);
    if s'.status == Waiting && Period(s') == n {
      assert s.status == Waiting && s'.entries == s.entries;
      forall c | c in s'.children ensures ChildInPeriod(s', c) {
        assert c in s.children ==> ChildInPeriod(s, c);
      }
    }
  }

  /**
   * In any interleaving within one wait period, a resumed parent continues with the stack it waited with, except
   * perhaps for the data of the head; and if the child that resumes it has output, that data is some finished child's
   * output.
   */
  lemma WinnerResumesOwnStack(s: State, steps: seq<Step>, c: ChildId)
    requires BeginsToWait(s) && IsRun(s, steps)
    requires var s' := After(s, steps); s'.status == Waiting && Period(s') == Period(s) && Enabled(s', Resume(c))
    ensures var s' := After(s, steps); var own, resumed := s.entries[Period(s)], Next(s', Resume(c)).row.stack;
      && SameUpToHeadData(resumed, own)
      && c in s'.outputs
      && (s'.outputs[c].Some? && own != [] ==> resumed != [] && IsOutput(s', resumed[0].data))
  {
    var n, own := Period(s), s.entries[Period(s)];
    var inv := x => InPeriod(x, n, own);
    forall x, step | inv(x) && Enabled(x, step) ensures inv(Next(x, step)) {
      StepKeepsInPeriod(x, step, n, own);
    }
    Runs.RunKeeps(Enabled, Next, inv, s, steps);
    var s' := After(s, steps);
    assert ChildInPeriod(s', c) && ChildValid(s', s'.children[c]);
  }

  // ---------- Across wait periods ----------

  /** No two waits so far had stacks that agree up to the data of the head. */
  ghost predicate DistinctWaits(s: State) {
    && Inv(s)
    && forall m, n :: 0 <= m < n < |s.entries| ==> !SameUpToHeadData(s.entries[m], s.entries[n])
  }

  /** The step is possible, and a new wait has a stack that differs from all before. */
  ghost predicate EnabledDistinct(s: State, step: Step) {
    && Enabled(s, step)
    && (step.ParentWaits? ==> forall n :: 0 <= n < |s.entries| ==> !SameUpToHeadData(s.entries[n], step.stack))
  }

  /** The row holds the stack of the current wait. */
  ghost predicate HoldsOwnStack(s: State) {
    s.entries != [] && SameUpToHeadData(s.row.stack, s.entries[Period(s)])
  }

  /** The step stores a stack that comes from an earlier wait. */
  predicate IsStale(s: State, step: Step) {
    && (step.WriteParent? || (step.Resume? && s.status == Waiting))
    && step.c in s.children && (s.children[step.c].HasRead? || s.children[step.c].Loaded?)
    && s.children[step.c].snap.origin != Period(s)
  }

  lemma SameUpToHeadDataTransitive(a: seq<Frame>, b: seq<Frame>, c: seq<Frame>)
    requires SameUpToHeadData(a, b) && SameUpToHeadData(a, c)
    ensures SameUpToHeadData(b, c) && SameUpToHeadData(c, b)
  {
  }

  lemma StepKeepsDistinctWaits(s: State, step: Step)
    requires DistinctWaits(s) && EnabledDistinct(s, step)
    ensures DistinctWaits(Next(s, step))
  {
    StepKeepsInv(s, step);
  }

  /** A snapshot holds the stack of the current wait exactly if it comes from it. */
  lemma OriginTells(s: State, snap: Snapshot)
    requires DistinctWaits(s) && FromOrigin(s, snap)
    ensures SameUpToHeadData(snap.stack, s.entries[Period(s)]) <==> snap.origin == Period(s)
  {
    if SameUpToHeadData(snap.stack, s.entries[Period(s)]) {
      SameUpToHeadDataTransitive(snap.stack, s.entries[Period(s)], s.entries[snap.origin]);
    }
  }

  /** A write or a resume leaves the right stack in the row exactly if what it stores comes from the current wait. */
  lemma StoredStackIsOwnExactly(s: State, step: Step)
    requires DistinctWaits(s) && EnabledDistinct(s, step) &&
      (step.WriteParent? || (step.Resume? && s.status == Waiting))
    ensures HoldsOwnStack(Next(s, step)) <==> s.children[step.c].snap.origin == Period(s)
  {
    StepKeepsDistinctWaits(s, step);
    OriginTells(Next(s, step), Next(s, step).row);
  }

  /** What a child reads comes from the current wait exactly if the row holds the stack of the current wait. */
  lemma ReadStackIsOwnExactly(s: State, step: Step)
    requires DistinctWaits(s) && Enabled(s, step) && (step.ReadParent? || step.LoadParent?)
    ensures var child := Next(s, step).children[step.c];
      child.HasRead? || child.Loaded? ==> child.snap == s.row && (child.snap.origin == Period(s) <==> HoldsOwnStack(s))
  {
    OriginTells(s, s.row);
  }

  /** Over any run from the first wait, the row always holds the current wait's stack exactly if no step is stale. */
  lemma OwnStackThroughoutExactly(stack: seq<Frame>, steps: seq<Step>)
    requires Runs.IsRun(EnabledDistinct, Next, Initial(stack), steps)
    ensures Runs.Always(HoldsOwnStack, Next, Initial(stack), steps)
      <==> Runs.Never(IsStale, Next, Initial(stack), steps)
  {
    forall s, step | DistinctWaits(s) && EnabledDistinct(s, step) ensures DistinctWaits(Next(s, step)) {
      StepKeepsDistinctWaits(s, step);
    }
    forall s, step | DistinctWaits(s) && HoldsOwnStack(s) && EnabledDistinct(s, step)
      ensures HoldsOwnStack(Next(s, step)) <==> !IsStale(s, step)
    {
      if step.WriteParent? || (step.Resume? && s.status == Waiting) {
        StoredStackIsOwnExactly(s, step);
      }
    }
    Runs.AlwaysExactly(EnabledDistinct, Next, DistinctWaits, HoldsOwnStack, IsStale, Initial(stack), steps);
  }

  // ---------- Whose output the parent is given ----------

  /** If the head's data was put there by a child, it is the output of a child of the current wait. */
  ghost predicate HoldsOwnOutput(s: State) {
    s.row.writer.Some? ==> s.row.writer.value in s.waits && s.waits[s.row.writer.value] == Period(s)
  }

  /** The step stores the output of a child of an earlier wait: its own, or one that it loaded with the stack. */
  predicate BringsOldOutput(s: State, step: Step) {
    || (step.WriteParent? && IsOfEarlierWait(s, step.c))
    || (step.Resume? && s.status == Waiting && step.c in s.children && s.children[step.c].Loaded? &&
        s.children[step.c].snap.writer.Some? && IsOfEarlierWait(s, s.children[step.c].snap.writer.value))
  }

  predicate IsOfEarlierWait(s: State, c: ChildId) {
    c in s.waits && s.waits[c] != Period(s)
  }

  /** The data that a child has put into the row's head is its output. */
  lemma HeadIsOutput(s: State)
    requires Inv(s) && s.row.writer.Some?
    ensures s.row.stack != [] && s.row.writer.value in s.outputs
    ensures s.outputs[s.row.writer.value] == Some(s.row.stack[0].data)
  {
  }

  lemma StepKeepsOwnOutputExactly(s: State, step: Step)
    requires Inv(s) && HoldsOwnOutput(s) && Enabled(s, step)
    ensures HoldsOwnOutput(Next(s, step)) <==> !BringsOldOutput(s, step)
  {
    if step.Resume? {
      assert ChildValid(s, s.children[step.c]);
    }
  }

  /**
   * Over any run from the first wait, even at the same node again and again: the head's data is never the output of a
   * child of an earlier wait, exactly if no child of an earlier wait writes and no resume brings such a write back.
   */
  lemma OwnOutputThroughoutExactly(stack: seq<Frame>, steps: seq<Step>)
    requires IsRun(Initial(stack), steps)
    ensures Runs.Always(HoldsOwnOutput, Next, Initial(stack), steps)
      <==> Runs.Never(BringsOldOutput, Next, Initial(stack), steps)
  {
    forall s, step | Inv(s) && Enabled(s, step) ensures Inv(Next(s, step)) {
      StepKeepsInv(s, step);
    }
    forall s, step | Inv(s) && HoldsOwnOutput(s) && Enabled(s, step)
      ensures HoldsOwnOutput(Next(s, step)) <==> !BringsOldOutput(s, step)
    {
      StepKeepsOwnOutputExactly(s, step);
    }
    Runs.AlwaysExactly(Enabled, Next, Inv, HoldsOwnOutput, BringsOldOutput, Initial(stack), steps);
  }

  // ---------- A late write ----------

  /** Child 1 has finished and read the waiting parent; child 2 has finished. */
  ghost predicate HasReadFirst(s: State, entries: seq<seq<Frame>>) {
    && s.status == Waiting && s.entries == entries
    && 1 in s.outputs && s.outputs[1] == Some("out")
    && 1 in s.children && s.children[1] == HasRead(Snapshot([Frame("A", "")], 0, None))
  }

  lemma EarlyRead(s: State) returns (steps: seq<Step>)
    requires s == Initial([Frame("A", "")])
    ensures IsRun(s, steps) && HasReadFirst(After(s, steps), s.entries)
    ensures var s' := After(s, steps);
      2 in s'.children && s'.children[2] == Finished && 2 in s'.outputs && s'.outputs[2] == None
  {
    steps := [ChildFinishes(1, 0, Some("out")), ReadParent(1), ChildFinishes(2, 0, None)];
    Runs.RunThree(Enabled, Next, s, steps);
  }

  lemma PollerResumes(s: State, second: seq<Frame>) returns (steps: seq<Step>)
    requires HasReadFirst(s, s.entries)
    requires 2 in s.children && s.children[2] == Finished && 2 in s.outputs && s.outputs[2] == None
    ensures IsRun(s, steps) && HasReadFirst(After(s, steps), s.entries + [second])
  {
    steps := [ReadParent(2), LoadParent(2), Resume(2)];
    Runs.RunThree(Enabled, Next, s, steps);
    var s1 := After(s, steps);
    Runs.RunStep(Enabled, Next, s1, ParentWaits(second), []);
    Runs.RunAppend(Enabled, Next, s, steps, [ParentWaits(second)] + []);
    steps := steps + ([ParentWaits(second)] + []);
  }

  lemma LateWrite(s: State) returns (steps: seq<Step>)
    requires HasReadFirst(s, s.entries)
    ensures IsRun(s, steps)
    ensures var s' := After(s, steps);
      s'.status == Running && s'.entries == s.entries && s'.row.stack == [Frame("A", "out")]
  {
    steps := [WriteParent(1), LoadParent(1), Resume(1)];
    Runs.RunThree(Enabled, Next, s, steps);
  }

  /** A write that arrives one wait period late replaces the parent's stack by an old one, and the resume runs it. */
  lemma LateWriteRestoresOldStack() returns (steps: seq<Step>)
    ensures var first, second := [Frame("A", "")], [Frame("B", "")];
      && IsRun(Initial(first), steps)
      && var s := After(Initial(first), steps);
      && s.status == Running && s.entries == [first, second] && s.row.stack == [Frame("A", "out")]
  {
    var first, second := [Frame("A", "")], [Frame("B", "")];
    var s := Initial(first);
    var a := EarlyRead(s);
    var b := PollerResumes(After(s, a), second);
    var c := LateWrite(After(After(s, a), b));
    Runs.RunAppend(Enabled, Next, After(s, a), b, c);
    Runs.RunAppend(Enabled, Next, s, a, b + c);
    steps := a + (b + c);
  }

  // ---------- The update as one uninterrupted call ----------

  /** The parent's row. */
  class ParentRow {
    var status: ParentStatus
    var stack: seq<Frame>

    constructor (status: ParentStatus, stack: seq<Frame>)
      ensures this.status == status && this.stack == stack
    {
      this.status, this.stack := status, stack;
    }
  }

  /** `updateParentExecutionWithChildResults`: `output` is the data of the child's last node, if it has any. */
  method UpdateParentExecution(parent: ParentRow, output: Option<Data>)
    modifies parent
    ensures parent.status == old(parent.status)
    ensures output == None ==> parent.stack == old(parent.stack)
    ensures old(parent.status) != Waiting ==> parent.stack == old(parent.stack)
    ensures old(parent.stack) == [] ==> parent.stack == []
    ensures output.Some? && old(parent.status) == Waiting && old(parent.stack) != [] ==>
      && |parent.stack| == |old(parent.stack)| && parent.stack[0] == Frame(old(parent.stack)[0].node, output.value)
      && parent.stack[1..] == old(parent.stack)[1..]
  {
    if output.None? { return; }
    if parent.status != Waiting { return; }
    if |parent.stack| == 0 { return; }
    parent.stack := parent.stack[0 := parent.stack[0].(data := output.value)];
  }
}
