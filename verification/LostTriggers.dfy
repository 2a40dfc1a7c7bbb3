/**
 * Concrete runs in which a leader that has stepped down keeps triggers or crons of a workflow in memory, beside those
 * of the next leader (packages/cli/src/active-workflow-manager.ts and
 * packages/core/src/execution-engine/active-workflows.ts).
 */
module LostTriggers {
  import opened MultiMain
  import opened Wrappers
  import Runs

  function Leading(): (x: Instance) {
    Idle().(leader := true)
  }

  function TwoInstances(): (s: State) {
    State(map[0 := Idle(), 1 := Idle()], {})
  }

  ghost predicate InMemoryTwice(s: State, w: WorkflowId) {
    0 in s.instances && 1 in s.instances && InMemory(s.instances[0], w) && InMemory(s.instances[1], w)
  }

  /** The second instance takes over and starts a trigger of the workflow. */
  lemma NextLeaderStarts(s: State, w: WorkflowId) returns (steps: seq<Step>)
    requires s.instances.Keys == {0, 1} && s.instances[1] == Idle() && !InCharge(s.instances[0])
    ensures IsRun(s, steps) && 0 in After(s, steps).instances && 1 in After(s, steps).instances
    ensures After(s, steps).instances[0] == s.instances[0] && InMemory(After(s, steps).instances[1], w)
  {
    steps := [Act(1, TakeOver), Act(1, BeginAdd(0, w)), Act(1, StartTrigger(0))];
    Runs.RunThree(Enabled, Next, s, steps);
    var x := After(s, steps).instances[1];
    assert 0 in x.adds && x.adds[0].workflow == w && x.adds[0].open;
  }

  /** Whatever a leader leaves in memory when it has stepped down runs beside what the next leader starts. */
  lemma LeftoverIsDuplicated(w: WorkflowId, actions: seq<Action>) returns (steps: seq<Step>)
    requires CanDo(Leading(), actions)
    requires !InCharge(Done(Leading(), actions)) && InMemory(Done(Leading(), actions), w)
    ensures IsRun(TwoInstances(), steps) && InMemoryTwice(After(TwoInstances(), steps), w)
  {
    var s, s1 := TwoInstances(), State(map[0 := Leading(), 1 := Idle()], {});
    assert Next(s, Act(0, TakeOver)).instances == s1.instances;
    ActionsRun(s1, 0, actions);
    var s2 := After(s1, StepsOf(0, actions));
    var rest := NextLeaderStarts(s2, w);
    Runs.RunAppend(Enabled, Next, s1, StepsOf(0, actions), rest);
    Runs.RunStep(Enabled, Next, s, Act(0, TakeOver), StepsOf(0, actions) + rest);
    steps := [Act(0, TakeOver)] + (StepsOf(0, actions) + rest);
  }

  /** The leader with one finished add of the workflow. */
  function WithTrigger(w: WorkflowId): (x: Instance) {
    Leading().(entries := map[w := 0], adds := map[0 := Add(w, true, Stored, true, true)])
  }

  lemma AddsTrigger(w: WorkflowId) returns (actions: seq<Action>)
    ensures CanDo(Leading(), actions) && Done(Leading(), actions) == WithTrigger(w)
  {
    actions := [BeginAdd(0, w), StartTrigger(0), StoreEntry(0)];
    DoThree(Leading(), actions, WithTrigger(w));
  }

  /** Add 0 has started its trigger after the handler has made its empty list. */
  function StartedLate(w: WorkflowId): (x: Instance) {
    Idle().(closing := true, adds := map[0 := Add(w, true, Starting, true, true)])
  }

  lemma StartsLate(w: WorkflowId) returns (actions: seq<Action>)
    ensures CanDo(Leading(), actions) && Done(Leading(), actions) == StartedLate(w)
  {
    actions := [BeginAdd(0, w), StepDown, StartTrigger(0)];
    DoThree(Leading(), actions, StartedLate(w));
  }

  lemma StaysStarted(w: WorkflowId) returns (actions: seq<Action>, y: Instance)
    ensures CanDo(StartedLate(w), actions) && Done(StartedLate(w), actions) == y && !InCharge(y)
    ensures 0 in y.adds && y.adds[0] == Add(w, true, Ended, true, true)
  {
    actions := [StoreEntry(0), EndAdd(0), StepDownHandled];
    y := Idle().(entries := map[w := 0], adds := map[0 := Add(w, true, Ended, true, true)]);
    DoThree(StartedLate(w), actions, y);
  }

  /** An add that began before the step-down starts its triggers after the handler has made its list. */
  lemma LateAddDuplicates(w: WorkflowId) returns (steps: seq<Step>)
    ensures IsRun(TwoInstances(), steps) && InMemoryTwice(After(TwoInstances(), steps), w)
  {
    var a := StartsLate(w);
    var b, y := StaysStarted(w);
    DoThen(Leading(), a, b);
    assert y.adds[0].workflow == w && y.adds[0].open;
    steps := LeftoverIsDuplicated(w, a + b);
  }

  /** A trigger whose closing throws ends the handler. */
  lemma FailedCloseDuplicates(w: WorkflowId) returns (steps: seq<Step>)
    ensures IsRun(TwoInstances(), steps) && InMemoryTwice(After(TwoInstances(), steps), w)
  {
    var a := AddsTrigger(w);
    var b := [StepDown, HandlerTakes(w, 0), CloseThrows(0)];
    var y := WithTrigger(w).(leader := false);
    DoThree(WithTrigger(w), b, y);
    DoThen(Leading(), a, b);
    assert y.adds[0].workflow == w && y.adds[0].open;
    steps := LeftoverIsDuplicated(w, a + b);
  }

  /**
   * An update removes a workflow and adds it again: the removal, which has waited for the old triggers to close,
   * deletes the entry of the new ones, and the step-down does not find them.
   */
  lemma UpdateDuplicates(w: WorkflowId) returns (steps: seq<Step>)
    ensures IsRun(TwoInstances(), steps) && InMemoryTwice(After(TwoInstances(), steps), w)
  {
    var a := AddsTrigger(w);
    var b, x := UpdateBegins(w);
    var c, y := UpdateEnds(w, x);
    DoThen(WithTrigger(w), b, c);
    DoThen(Leading(), a, b + c);
    assert y.adds[1].workflow == w && y.adds[1].open;
    steps := LeftoverIsDuplicated(w, a + (b + c));
  }

  /** Removal 0 is under way, and add 1 has started its trigger. */
  function Updating(w: WorkflowId): (x: Instance) {
    Leading().(entries := map[w := 0], removals := map[0 := Removal(w, 0, false)],
               adds := map[0 := Add(w, true, Stored, true, true), 1 := Add(w, true, Starting, true, true)])
  }

  lemma UpdateBegins(w: WorkflowId) returns (actions: seq<Action>, x: Instance)
    ensures CanDo(WithTrigger(w), actions) && Done(WithTrigger(w), actions) == x == Updating(w)
  {
    actions, x := [BeginRemoval(0, w), BeginAdd(1, w), StartTrigger(1)], Updating(w);
    DoThree(WithTrigger(w), actions, x);
  }

  /** The removal has closed the old triggers and deleted the new entry. */
  function Updated(w: WorkflowId): (x: Instance) {
    Leading().(adds := map[0 := Add(w, true, Stored, true, false), 1 := Add(w, true, Stored, true, true)])
  }

  /** The old trigger is closed. */
  function ClosedOld(w: WorkflowId): (x: Instance) {
    Leading().(entries := map[w := 0], removals := map[0 := Removal(w, 0, true)],
               adds := map[0 := Add(w, true, Stored, true, false), 1 := Add(w, true, Starting, true, true)])
  }

  /** The new entry has replaced the old one. */
  function StoredNew(w: WorkflowId): (x: Instance) {
    Updated(w).(entries := map[w := 1], removals := map[0 := Removal(w, 0, true)])
  }

  lemma ClosesOld(w: WorkflowId)
    ensures ActsAlone(Updating(w), CloseTriggers(0)) && Do(Updating(w), CloseTriggers(0)) == ClosedOld(w)
  {
  }

  lemma StoresNew(w: WorkflowId)
    ensures ActsAlone(ClosedOld(w), StoreEntry(1)) && Do(ClosedOld(w), StoreEntry(1)) == StoredNew(w)
  {
  }

  lemma DeletesNew(w: WorkflowId)
    ensures ActsAlone(StoredNew(w), EndRemoval(0)) && Do(StoredNew(w), EndRemoval(0)) == Updated(w)
  {
  }

  lemma RemovalDeletesNewEntry(w: WorkflowId) returns (actions: seq<Action>)
    ensures CanDo(Updating(w), actions) && Done(Updating(w), actions) == Updated(w)
  {
    actions := [CloseTriggers(0), StoreEntry(1), EndRemoval(0)];
    ClosesOld(w);
    StoresNew(w);
    DeletesNew(w);
    DoThree(Updating(w), actions, Updated(w));
  }

  lemma NewTriggerKeepsRunning(w: WorkflowId) returns (actions: seq<Action>, y: Instance)
    ensures CanDo(Updated(w), actions) && Done(Updated(w), actions) == y && !InCharge(y)
    ensures 1 in y.adds && y.adds[1] == Add(w, true, Ended, true, true)
  {
    actions := [EndAdd(1), StepDown, StepDownHandled];
    y := Idle().(adds := map[0 := Add(w, true, Stored, true, false), 1 := Add(w, true, Ended, true, true)]);
    DoThree(Updated(w), actions, y);
  }

  lemma UpdateEnds(w: WorkflowId, x: Instance) returns (actions: seq<Action>, y: Instance)
    requires x == Updating(w)
    ensures CanDo(x, actions) && Done(x, actions) == y && !InCharge(y)
    ensures 1 in y.adds && y.adds[1] == Add(w, true, Ended, true, true)
  {
    var a := RemovalDeletesNewEntry(w);
    var b;
    b, y := NewTriggerKeepsRunning(w);
    DoThen(x, a, b);
    actions := a + b;
  }

  /** The entry of add 0 is overwritten by that of add 1. */
  function Overwritten(w: WorkflowId): (x: Instance) {
    Leading().(entries := map[w := 1],
               adds := map[0 := Add(w, true, Stored, true, true), 1 := Add(w, true, Stored, true, true)])
  }

  /** The handler has closed the triggers of add 1. */
  function FirstForgotten(w: WorkflowId): (x: Instance) {
    Overwritten(w).(leader := false, closing := true, current := Some(0), removals := map[0 := Removal(w, 1, true)],
                    adds := map[0 := Add(w, true, Stored, true, true), 1 := Add(w, true, Stored, true, false)])
  }

  lemma Overwrites(w: WorkflowId) returns (actions: seq<Action>)
    ensures CanDo(WithTrigger(w), actions) && Done(WithTrigger(w), actions) == Overwritten(w)
  {
    actions := [BeginAdd(1, w), StartTrigger(1), StoreEntry(1)];
    DoThree(WithTrigger(w), actions, Overwritten(w));
  }

  lemma ForgetsFirst(w: WorkflowId) returns (actions: seq<Action>)
    ensures CanDo(Overwritten(w), actions) && Done(Overwritten(w), actions) == FirstForgotten(w)
  {
    actions := [StepDown, HandlerTakes(w, 0), CloseTriggers(0)];
    DoThree(Overwritten(w), actions, FirstForgotten(w));
  }

  lemma FirstKeepsRunning(w: WorkflowId) returns (actions: seq<Action>, y: Instance)
    ensures CanDo(FirstForgotten(w), actions) && Done(FirstForgotten(w), actions) == y && !InCharge(y)
    ensures 0 in y.adds && y.adds[0] == Add(w, true, Stored, true, true)
  {
    actions := [EndRemoval(0), EndAdd(1), StepDownHandled];
    y := Idle().(adds := map[0 := Add(w, true, Stored, true, true), 1 := Add(w, true, Ended, true, false)]);
    DoThree(FirstForgotten(w), actions, y);
  }

  /** A second add of a workflow overwrites the entry of the first; the step-down closes only the second's triggers. */
  lemma SecondAddDuplicates(w: WorkflowId) returns (steps: seq<Step>)
    ensures IsRun(TwoInstances(), steps) && InMemoryTwice(After(TwoInstances(), steps), w)
  {
    var a := AddsTrigger(w);
    var b := Overwrites(w);
    var c := ForgetsFirst(w);
    var d, y := FirstKeepsRunning(w);
    DoThen(Overwritten(w), c, d);
    DoThen(WithTrigger(w), b, c + d);
    DoThen(Leading(), a, b + (c + d));
    assert y.adds[0].workflow == w && y.adds[0].open;
    steps := LeftoverIsDuplicated(w, a + (b + (c + d)));
  }

  /** An add of pollers has stored its entry, and the leader has stepped down. */
  function WithoutCron(w: WorkflowId): (x: Instance) {
    Idle().(closing := true, left := {w}, entries := map[w := 0], adds := map[0 := Add(w, true, Stored, false, false)])
  }

  lemma StepsDownBeforeCron(w: WorkflowId) returns (actions: seq<Action>)
    ensures CanDo(Leading(), actions) && Done(Leading(), actions) == WithoutCron(w)
  {
    actions := [BeginAdd(0, w), StoreEntry(0), StepDown];
    DoThree(Leading(), actions, WithoutCron(w));
  }

  lemma RegistersLateCron(w: WorkflowId) returns (actions: seq<Action>, y: Instance)
    ensures CanDo(WithoutCron(w), actions) && Done(WithoutCron(w), actions) == y && !InCharge(y) && w in y.crons
  {
    var a, b := [HandlerTakes(w, 0), CloseTriggers(0), EndRemoval(0)], [RegisterCron(0), EndAdd(0), StepDownHandled];
    var x := Idle().(closing := true, adds := map[0 := Add(w, true, Stored, false, false)]);
    DoThree(WithoutCron(w), a, x);
    y := Idle().(crons := {w}, adds := map[0 := Add(w, true, Ended, false, false)]);
    DoThree(x, b, y);
    DoThen(WithoutCron(w), a, b);
    actions := a + b;
  }

  /** An add that has stored its entry registers the cron of a poller after the handler has removed the workflow. */
  lemma LateCronDuplicates(w: WorkflowId) returns (steps: seq<Step>)
    ensures IsRun(TwoInstances(), steps) && InMemoryTwice(After(TwoInstances(), steps), w)
  {
    var a := StepsDownBeforeCron(w);
    var b, y := RegistersLateCron(w);
    DoThen(Leading(), a, b);
    steps := LeftoverIsDuplicated(w, a + b);
  }

  /** An add of pollers has registered a cron, failed and deleted its entry. */
  function WithLostCron(w: WorkflowId): (x: Instance) {
    Leading().(crons := {w}, adds := map[0 := Add(w, true, Ended, false, false)])
  }

  lemma LosesCron(w: WorkflowId) returns (actions: seq<Action>)
    ensures CanDo(Leading(), actions) && Done(Leading(), actions) == WithLostCron(w)
  {
    var a := [BeginAdd(0, w), StoreEntry(0), RegisterCron(0)];
    var x := Leading().(entries := map[w := 0], crons := {w}, adds := map[0 := Add(w, true, Stored, false, false)]);
    DoThree(Leading(), a, x);
    Runs.RunStep(ActsAlone, Do, x, DropEntry(0), []);
    DoThen(Leading(), a, [DropEntry(0)] + []);
    actions := a + ([DropEntry(0)] + []);
  }

  lemma KeepsLostCron(w: WorkflowId) returns (actions: seq<Action>, y: Instance)
    ensures CanDo(WithLostCron(w), actions) && Done(WithLostCron(w), actions) == y && !InCharge(y) && w in y.crons
  {
    var x1 := Do(WithLostCron(w), StepDown);
    y := Do(x1, StepDownHandled);
    Runs.RunStep(ActsAlone, Do, x1, StepDownHandled, []);
    Runs.RunStep(ActsAlone, Do, WithLostCron(w), StepDown, [StepDownHandled] + []);
    actions := [StepDown] + ([StepDownHandled] + []);
  }

  /** A poller that fails after another has registered its cron deletes the entry, and the cron stays. */
  lemma FailedPollerDuplicates(w: WorkflowId) returns (steps: seq<Step>)
    ensures IsRun(TwoInstances(), steps) && InMemoryTwice(After(TwoInstances(), steps), w)
  {
    var a := LosesCron(w);
    var b, y := KeepsLostCron(w);
    DoThen(Leading(), a, b);
    steps := LeftoverIsDuplicated(w, a + b);
  }
}
