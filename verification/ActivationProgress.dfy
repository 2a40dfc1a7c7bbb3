/**
 * What the instances can be relied on to do: a leader starts what it is told to add, a removal ends with nothing of the
 * workflow left, and a step-down can always be finished (packages/cli/src/active-workflow-manager.ts and
 * packages/core/src/execution-engine/active-workflows.ts).
 */
module ActivationProgress {
  import opened MultiMain
  import opened Wrappers
  import Runs

  // ---------- Adding ----------

  /** The workflow's entry is that of the call, whose triggers run. */
  ghost predicate RunsFor(x: Instance, a: AddId, w: WorkflowId) {
    InMemory(x, w) && w in x.entries && x.entries[w] == a && a in x.adds && x.adds[a].workflow == w && x.adds[a].open
  }

  /** A call that has begun on a leader can start its triggers and store its entry, even if the lead has been lost. */
  lemma BegunOnLeaderRuns(x: Instance, a: AddId, w: WorkflowId)
    requires a in x.adds && x.adds[a] == Add(w, true, Starting, false, false)
    ensures CanDo(x, [StartTrigger(a), StoreEntry(a)]) && RunsFor(Done(x, [StartTrigger(a), StoreEntry(a)]), a, w)
  {
    var actions := [StartTrigger(a), StoreEntry(a)];
    var x1 := Do(x, StartTrigger(a));
    var x2 := Do(x1, StoreEntry(a));
    assert x2.adds[a].workflow == w && x2.adds[a].open;
    Runs.RunStep(ActsAlone, Do, x1, StoreEntry(a), []);
    Runs.RunStep(ActsAlone, Do, x, StartTrigger(a), [StoreEntry(a)] + []);
    assert [StartTrigger(a)] + ([StoreEntry(a)] + []) == actions;
  }

  /** Or, for pollers, store its entry and register its crons. */
  lemma BegunOnLeaderPolls(x: Instance, a: AddId, w: WorkflowId)
    requires a in x.adds && x.adds[a] == Add(w, true, Starting, false, false)
    ensures CanDo(x, [StoreEntry(a), RegisterCron(a)])
    ensures var y := Done(x, [StoreEntry(a), RegisterCron(a)]); w in y.crons && w in y.entries && y.entries[w] == a
  {
    var actions := [StoreEntry(a), RegisterCron(a)];
    var x1 := Do(x, StoreEntry(a));
    Runs.RunStep(ActsAlone, Do, x1, RegisterCron(a), []);
    Runs.RunStep(ActsAlone, Do, x, StoreEntry(a), [RegisterCron(a)] + []);
    assert [StoreEntry(a)] + ([RegisterCron(a)] + []) == actions;
  }

  /** A trigger may register its crons before the entry is stored. */
  lemma BegunOnLeaderSchedules(x: Instance, a: AddId, w: WorkflowId)
    requires a in x.adds && x.adds[a] == Add(w, true, Starting, false, false)
    ensures CanDo(x, [RegisterCron(a), StoreEntry(a)])
    ensures Done(x, [RegisterCron(a), StoreEntry(a)]) == Done(x, [StoreEntry(a), RegisterCron(a)])
  {
    var x1, y1 := Do(x, RegisterCron(a)), Do(x, StoreEntry(a));
    Runs.RunStep(ActsAlone, Do, x1, StoreEntry(a), []);
    Runs.RunStep(ActsAlone, Do, x, RegisterCron(a), [StoreEntry(a)] + []);
    assert [RegisterCron(a)] + ([StoreEntry(a)] + []) == [RegisterCron(a), StoreEntry(a)];
    Runs.RunStep(ActsAlone, Do, y1, RegisterCron(a), []);
    Runs.RunStep(ActsAlone, Do, x, StoreEntry(a), [RegisterCron(a)] + []);
    assert [StoreEntry(a)] + ([RegisterCron(a)] + []) == [StoreEntry(a), RegisterCron(a)];
  }

  /** Both continuations are open to the call on the instance. */
  ghost predicate CanStart(s: State, i: InstanceId, a: AddId, w: WorkflowId) {
    && i in s.instances
    && var triggers, pollers := [StartTrigger(a), StoreEntry(a)], [StoreEntry(a), RegisterCron(a)];
    && IsRun(s, StepsOf(i, triggers)) && i in After(s, StepsOf(i, triggers)).instances
    && RunsFor(After(s, StepsOf(i, triggers)).instances[i], a, w)
    && IsRun(s, StepsOf(i, pollers)) && i in After(s, StepsOf(i, pollers)).instances
    && var y := After(s, StepsOf(i, pollers)).instances[i];
      w in y.crons && w in y.entries && y.entries[w] == a
  }

  lemma BegunOnLeaderCanStart(s: State, i: InstanceId, a: AddId, w: WorkflowId)
    requires i in s.instances && s.instances[i].leader
    requires a in s.instances[i].adds && s.instances[i].adds[a] == Add(w, true, Starting, false, false)
    ensures CanStart(s, i, a, w)
  {
    BegunOnLeaderRuns(s.instances[i], a, w);
    BegunOnLeaderPolls(s.instances[i], a, w);
    ActionsRun(s, i, [StartTrigger(a), StoreEntry(a)]);
    ActionsRun(s, i, [StoreEntry(a), RegisterCron(a)]);
  }

  /** A forwarded add that reaches the leader is taken off the commands, and can run. */
  lemma ForwardedAddRuns(s: State, i: InstanceId, a: AddId, w: WorkflowId)
    requires Inv(s) && i in s.instances && s.instances[i].leader && a !in s.instances[i].adds
    requires AddCommand(w) in s.commands
    ensures Enabled(s, Act(i, DeliverAdd(a, w)))
    ensures var s' := Next(s, Act(i, DeliverAdd(a, w)));
      s'.commands == s.commands - {AddCommand(w)} && CanStart(s', i, a, w)
  {
    BegunOnLeaderCanStart(Next(s, Act(i, DeliverAdd(a, w))), i, a, w);
  }

  /** So can an add that the leader begins itself. */
  lemma OwnAddRuns(s: State, i: InstanceId, a: AddId, w: WorkflowId)
    requires Inv(s) && i in s.instances && s.instances[i].leader && a !in s.instances[i].adds
    ensures Enabled(s, Act(i, BeginAdd(a, w))) && CanStart(Next(s, Act(i, BeginAdd(a, w))), i, a, w)
  {
    BegunOnLeaderCanStart(Next(s, Act(i, BeginAdd(a, w))), i, a, w);
  }

  /** What `add` and `remove` forward is there for the leader. */
  lemma PublishedIsKept(s: State, command: Command)
    ensures Enabled(s, Publish(command)) && Next(s, Publish(command)) == State(s.instances, s.commands + {command})
  {
  }

  /** The call has decided not to add triggers and pollers, and has added none. */
  predicate AddsNothing(s: State, i: InstanceId, a: AddId) {
    i in s.instances && AddsNothingOn(s.instances[i], a)
  }

  predicate AddsNothingOn(x: Instance, a: AddId) {
    a in x.adds && !x.adds[a].triggersAndPollers && !x.adds[a].open
  }

  lemma ActedAddsNothing(x: Instance, action: Action, a: AddId)
    requires CanAct(x, action) && AddsNothingOn(x, a)
    ensures AddsNothingOn(Acted(x, action), a)
  {
  }

  lemma StepKeepsAddsNothing(s: State, i: InstanceId, a: AddId, step: Step)
    requires AddsNothing(s, i, a) && Enabled(s, step)
    ensures AddsNothing(Next(s, step), i, a)
  {
    if step.Act? && step.i == i { ActedAddsNothing(s.instances[i], step.action, a); }
  }

  /**
   * An add begun off the lead never starts a trigger, registers a cron or stores an entry, even if its instance leads
   * later.
   */
  lemma AddOffTheLeadStartsNothing(s: State, i: InstanceId, a: AddId, w: WorkflowId, steps: seq<Step>)
    requires Enabled(s, Act(i, BeginAdd(a, w))) && !s.instances[i].leader
    requires IsRun(Next(s, Act(i, BeginAdd(a, w))), steps)
    ensures var s' := After(Next(s, Act(i, BeginAdd(a, w))), steps);
      && !Enabled(s', Act(i, StartTrigger(a))) && !Enabled(s', Act(i, RegisterCron(a)))
      && !Enabled(s', Act(i, StoreEntry(a)))
      && AddsNothing(s', i, a)
  {
    var inv := x => AddsNothing(x, i, a);
    forall x, step | inv(x) && Enabled(x, step) ensures inv(Next(x, step)) {
      StepKeepsAddsNothing(x, i, a, step);
    }
    Runs.RunKeeps(Enabled, Next, inv, Next(s, Act(i, BeginAdd(a, w))), steps);
  }

  /** A call can fail at any point; a poller that fails without triggers takes the entry with it, but no crons. */
  lemma CallsCanFail(x: Instance, a: AddId)
    requires Valid(x) && a in x.adds && !x.adds[a].phase.Ended?
    ensures CanAct(x, EndAdd(a)) && Acted(x, EndAdd(a)) == x.(adds := x.adds[a := x.adds[a].(phase := Ended)])
    ensures x.adds[a].phase.Stored? && !x.adds[a].triggered ==>
      CanAct(x, DropEntry(a)) &&
      Acted(x, DropEntry(a)) == Acted(x, EndAdd(a)).(entries := x.entries - {x.adds[a].workflow})
  {
  }

  // ---------- Removing ----------

  /** What an action is about; the actions of the roles are about no workflow. */
  function About(x: Instance, action: Action): (w: Option<WorkflowId>) {
    match action
    case HandlerTakes(w, _) => Some(w)
    case DeliverAdd(_, w) => Some(w)
    case DeliverRemove(_, w) => Some(w)
    case BeginAdd(_, w) => Some(w)
    case BeginRemoval(_, w) => Some(w)
    case StartTrigger(a) => if a in x.adds then Some(x.adds[a].workflow) else None
    case RegisterCron(a) => if a in x.adds then Some(x.adds[a].workflow) else None
    case StoreEntry(a) => if a in x.adds then Some(x.adds[a].workflow) else None
    case EndAdd(a) => if a in x.adds then Some(x.adds[a].workflow) else None
    case DropEntry(a) => if a in x.adds then Some(x.adds[a].workflow) else None
    case CloseTriggers(k) => if k in x.removals then Some(x.removals[k].workflow) else None
    case CloseThrows(k) => if k in x.removals then Some(x.removals[k].workflow) else None
    case EndRemoval(k) => if k in x.removals then Some(x.removals[k].workflow) else None
    case _ => None
  }

  /** The entry, the crons, the calls and the removals of a workflow are as before. */
  ghost predicate IsUntouched(x: Instance, y: Instance, v: WorkflowId) {
    && (v in y.entries <==> v in x.entries) && (v in x.entries ==> y.entries[v] == x.entries[v])
    && (v in y.crons <==> v in x.crons)
    && (forall a :: a in x.adds && x.adds[a].workflow == v ==> a in y.adds && y.adds[a] == x.adds[a])
    && (forall k :: k in x.removals && x.removals[k].workflow == v ==>
      k in y.removals && y.removals[k] == x.removals[k])
  }

  /** No action touches a workflow that it is not about. */
  lemma OtherWorkflowsUntouched(x: Instance, action: Action, v: WorkflowId)
    requires Valid(x) && CanAct(x, action) && About(x, action) != Some(v)
    ensures IsUntouched(x, Acted(x, action), v)
  {
    if IsAddAction(action) {
      AddActionTouchesOne(x, action, v);
    } else if IsRemovalAction(action) {
      RemovalTouchesOne(x, action, v);
    } else {
      HandlerTouchesOne(x, action, v);
    }
  }

  lemma AddActionTouchesOne(x: Instance, action: Action, v: WorkflowId)
    requires Valid(x) && CanAct(x, action) && IsAddAction(action) && About(x, action) != Some(v)
    ensures IsUntouched(x, Acted(x, action), v)
  {
  }

  lemma RemovalTouchesOne(x: Instance, action: Action, v: WorkflowId)
    requires Valid(x) && CanAct(x, action) && IsRemovalAction(action) && About(x, action) != Some(v)
    ensures IsUntouched(x, Acted(x, action), v)
  {
  }

  lemma HandlerTouchesOne(x: Instance, action: Action, v: WorkflowId)
    requires Valid(x) && CanAct(x, action) && !IsAddAction(action) && !IsRemovalAction(action)
    requires About(x, action) != Some(v)
    ensures IsUntouched(x, Acted(x, action), v)
  {
  }

  /** A removal that nothing disturbs closes the triggers of the entry, and leaves neither entry nor crons. */
  lemma RemovalLeavesNothing(x: Instance, k: RemovalId, w: WorkflowId)
    requires Valid(x) && w in x.entries && k in x.removals
    && x.removals[k] == Removal(w, x.entries[w], false) && w !in x.crons
    ensures CanDo(x, [CloseTriggers(k), EndRemoval(k)])
    ensures var y := Done(x, [CloseTriggers(k), EndRemoval(k)]);
      && w !in y.entries && w !in y.crons && k !in y.removals
      && y.adds.Keys == x.adds.Keys && !y.adds[x.entries[w]].open
      && (forall a :: a in x.adds && a != x.entries[w] ==> y.adds[a] == x.adds[a])
  {
    var x1 := Do(x, CloseTriggers(k));
    Runs.RunStep(ActsAlone, Do, x1, EndRemoval(k), []);
    Runs.RunStep(ActsAlone, Do, x, CloseTriggers(k), [EndRemoval(k)] + []);
    assert [CloseTriggers(k)] + ([EndRemoval(k)] + []) == [CloseTriggers(k), EndRemoval(k)];
  }

  /** A removal of a workflow with an entry begins by deregistering the crons, and remembers that entry. */
  lemma RemovalBegins(x: Instance, k: RemovalId, w: WorkflowId)
    requires Valid(x) && w in x.entries && k !in x.removals
    ensures CanAct(x, BeginRemoval(k, w))
    ensures var y := Acted(x, BeginRemoval(k, w));
      && y.removals == x.removals[k := Removal(w, x.entries[w], false)] && w !in y.crons
      && y.entries == x.entries && y.adds == x.adds
    ensures x.leader ==> CanAct(x, DeliverRemove(k, w)) && Acted(x, DeliverRemove(k, w)) == Acted(x, BeginRemoval(k, w))
  {
  }

  /** A forwarded removal that reaches the leader is taken off the commands, and begins there. */
  lemma ForwardedRemovalBegins(s: State, i: InstanceId, k: RemovalId, w: WorkflowId)
    requires Inv(s) && i in s.instances && s.instances[i].leader && k !in s.instances[i].removals
    requires RemoveCommand(w) in s.commands
    ensures Enabled(s, Act(i, DeliverRemove(k, w)))
    ensures var s' := Next(s, Act(i, DeliverRemove(k, w)));
      && s'.commands == s.commands - {RemoveCommand(w)} && i in s'.instances
      && (w in s.instances[i].entries ==>
        s'.instances[i].removals == s.instances[i].removals[k := Removal(w, s.instances[i].entries[w], false)])
  {
  }

  /** A forwarded removal of a workflow that is not in memory changes nothing. */
  lemma RemovalOfNothing(x: Instance, k: RemovalId, w: WorkflowId)
    requires CanAct(x, DeliverRemove(k, w)) && w !in x.entries
    ensures Acted(x, DeliverRemove(k, w)) == x
  {
  }

  // ---------- Stepping down ----------

  lemma {:induction false} FreshId(used: set<nat>) returns (k: nat)
    ensures forall x :: x in used ==> x < k
  {
    if used == {} { return 0; }
    var x :| x in used;
    var rest := FreshId(used - {x});
    k := if x < rest then rest else x + 1;
    assert forall y :: y in used ==> y == x || y in used - {x};
  }

  /** Nothing of the workflow is left: no entry, no crons, and the triggers of its entry are closed. */
  predicate IsGone(x: Instance, y: Instance, w: WorkflowId) {
    && w !in y.entries && w !in y.crons
    && (w in x.entries && x.entries[w] in y.adds ==> !y.adds[x.entries[w]].open)
  }

  /** The instance after the handler has removed the workflow. */
  function WithoutWorkflow(x: Instance, w: WorkflowId): (y: Instance)
    requires w in x.entries && x.entries[w] in x.adds
  {
    var e := x.entries[w];
    x.(left := x.left - {w}, entries := x.entries - {w}, crons := x.crons - {w},
       adds := x.adds[e := x.adds[e].(open := false)])
  }

  lemma RemovalOfOne(x: Instance, w: WorkflowId, k: RemovalId)
    requires Valid(x) && x.closing && x.current == None && w in x.left && w in x.entries && k !in x.removals
    ensures var actions := [HandlerTakes(w, k), CloseTriggers(k), EndRemoval(k)];
      CanDo(x, actions) && Done(x, actions) == WithoutWorkflow(x, w)
  {
    var e, y := x.entries[w], WithoutWorkflow(x, w);
    var x1 := x.(left := y.left, crons := y.crons, current := Some(k),
                 removals := x.removals[k := Removal(w, e, false)]);
    var x2 := x1.(adds := y.adds, removals := x.removals[k := Removal(w, e, true)]);
    assert Do(x, HandlerTakes(w, k)) == x1;
    assert x1.removals[k := Removal(w, e, true)] == x2.removals && Do(x1, CloseTriggers(k)) == x2;
    assert x2.removals - {k} == x.removals && Do(x2, EndRemoval(k)) == y;
    DoThree(x, [HandlerTakes(w, k), CloseTriggers(k), EndRemoval(k)], y);
  }

  /** The handler removes the next workflow of its list. */
  lemma HandlerRemovesOne(x: Instance, w: WorkflowId) returns (actions: seq<Action>)
    requires Valid(x) && x.closing && x.current == None && w in x.left && w in x.entries
    ensures CanDo(x, actions) && Done(x, actions) == WithoutWorkflow(x, w)
    ensures Valid(WithoutWorkflow(x, w)) && IsGone(x, WithoutWorkflow(x, w), w)
  {
    var k := FreshId(x.removals.Keys);
    actions := [HandlerTakes(w, k), CloseTriggers(k), EndRemoval(k)];
    RemovalOfOne(x, w, k);
  }

  lemma {:induction false} HandlerFinishes(x: Instance) returns (actions: seq<Action>)
    requires Valid(x) && x.closing && x.current == None
    ensures CanDo(x, actions)
    ensures var y := Done(x, actions);
      && !InCharge(y) && y.adds.Keys == x.adds.Keys
      && (forall w :: w in x.left && w in x.entries ==> IsGone(x, y, w))
      && (forall w :: w in y.entries ==> w in x.entries && w !in x.left) && y.crons <= x.crons
      && (forall a :: a in x.adds && y.adds[a].open ==> x.adds[a].open && y.adds[a].workflow == x.adds[a].workflow)
      && (forall a :: a in x.adds ==> y.adds[a].workflow == x.adds[a].workflow)
    decreases |x.left|
  {
    if x.left == {} {
      actions := [StepDownHandled] + [];
      Runs.RunStep(ActsAlone, Do, x, StepDownHandled, []);
    } else {
      var w :| w in x.left;
      var first;
      if w in x.entries {
        first := HandlerRemovesOne(x, w);
      } else {
        first := [HandlerSkips(w)] + [];
        ActedIsValid(x, HandlerSkips(w));
        Runs.RunStep(ActsAlone, Do, x, HandlerSkips(w), []);
      }
      var mid := Done(x, first);
      var rest := HandlerFinishes(mid);
      DoThen(x, first, rest);
      actions := first + rest;
      forall v | v in x.left && v in x.entries ensures IsGone(x, Done(x, actions), v) {
        if v != w {
          assert v in mid.left && v in mid.entries && mid.entries[v] == x.entries[v];
          assert IsGone(mid, Done(mid, rest), v);
        }
      }
    }
  }

  /**
   * A step-down can always be finished; and if the leader had nothing in memory but what its entries account for, then
   * nothing is left.
   */
  lemma StepDownEmptiesMemory(x: Instance) returns (actions: seq<Action>)
    requires Valid(x) && x.leader && Accounted(x) && !Orphans(x, StepDown)
    ensures CanDo(x, [StepDown] + actions)
    ensures var y := Done(x, [StepDown] + actions); !InCharge(y) && forall w :: !InMemory(y, w)
  {
    var x1 := Do(x, StepDown);
    ActedIsValid(x, StepDown);
    actions := HandlerFinishes(x1);
    Runs.RunStep(ActsAlone, Do, x, StepDown, actions);
    var y := Done(x1, actions);
    forall w ensures !InMemory(y, w) {
      assert w in x.entries ==> IsGone(x1, y, w);
      forall a | a in y.adds && y.adds[a].workflow == w ensures !y.adds[a].open {
        assert x.adds[a].open ==> IsEntry(x, a);
      }
    }
  }
}
