/**
 * Several main instances, one of which leads: the triggers that run and the crons that are registered in the memory of
 * each, and the dictionary of entries through which they are found again
 * (packages/cli/src/active-workflow-manager.ts and packages/core/src/execution-engine/active-workflows.ts).
 */
module MultiMain {
  import opened Wrappers
  import Runs

  type WorkflowId = string
  type InstanceId = nat
  type AddId = nat
  type RemovalId = nat

  /** Before and after the entry is stored, and when the call is over. */
  datatype Phase = Starting | Stored | Ended

  /**
   * A call of `add` that has decided, from the instance's role, whether to add triggers and pollers. The triggers it
   * has started are `open` until they are closed; `triggered` remembers that there were any.
   */
  datatype Add = Add(workflow: WorkflowId, triggersAndPollers: bool, phase: Phase, triggered: bool, open: bool)

  /** A removal under way: it closes the triggers of the entry it found, then deletes whatever entry there is. */
  datatype Removal = Removal(workflow: WorkflowId, entry: AddId, closed: bool)

  datatype Instance = Instance(
    leader: bool,
    closing: bool,                     // lost the lead, and the step-down handler has not finished
    left: set<WorkflowId>,             // what the handler has still to take from the list it made at its start
    current: Option<RemovalId>,        // the removal that the handler is waiting for
    entries: map<WorkflowId, AddId>,   // `activeWorkflows`: the call that stored each entry
    crons: set<WorkflowId>,            // workflows with registered crons
    adds: map<AddId, Add>,
    removals: map<RemovalId, Removal>
  )

  /** Commands are delivered to the leader only. */
  datatype Command = AddCommand(workflow: WorkflowId) | RemoveCommand(workflow: WorkflowId)

  datatype State = State(instances: map<InstanceId, Instance>, commands: set<Command>)

  datatype Step =
    | Publish(command: Command)                          // `add` or `remove` on any instance forwards to the leader
    | Act(i: InstanceId, action: Action)

  datatype Action =
    | TakeOver
    | StepDown                                           // the handler makes its list in the same turn
    | HandlerTakes(w: WorkflowId, k: RemovalId)
    | HandlerSkips(w: WorkflowId)                        // the entry has gone in the meantime
    | StepDownHandled
    | DeliverAdd(a: AddId, w: WorkflowId)
    | DeliverRemove(k: RemovalId, w: WorkflowId)
    | BeginAdd(a: AddId, w: WorkflowId)                  // at start-up, on take-over or in a retry
    | StartTrigger(a: AddId)
    | RegisterCron(a: AddId)                             // by a trigger, or for a poller after the entry is stored
    | StoreEntry(a: AddId)
    | EndAdd(a: AddId)                                   // success, or a failure that leaves things as they are
    | DropEntry(a: AddId)                                // a poller fails, there are no triggers: deletes the entry
    | BeginRemoval(k: RemovalId, w: WorkflowId)          // crons are deregistered at once
    | CloseTriggers(k: RemovalId)
    | CloseThrows(k: RemovalId)                          // closing a trigger throws, which ends the removal
    | EndRemoval(k: RemovalId)                           // the entry is deleted

  predicate InCharge(x: Instance) {
    x.leader || x.closing
  }

  /** When an action is possible on an instance by itself. */
  predicate CanAct(x: Instance, action: Action) {
    match action
    case TakeOver => !InCharge(x)
    case StepDown => x.leader
    case HandlerTakes(w, k) => x.closing && x.current == None && w in x.left && w in x.entries && k !in x.removals
    case HandlerSkips(w) => x.closing && x.current == None && w in x.left && w !in x.entries
    case StepDownHandled => x.closing && x.current == None && x.left == {}
    case DeliverAdd(a, _) => x.leader && a !in x.adds
    case DeliverRemove(k, _) => x.leader && k !in x.removals
    case BeginAdd(a, _) => a !in x.adds
    case StartTrigger(a) => a in x.adds && x.adds[a].triggersAndPollers && x.adds[a].phase.Starting?
    case RegisterCron(a) => a in x.adds && x.adds[a].triggersAndPollers && !x.adds[a].phase.Ended?
    case StoreEntry(a) => a in x.adds && x.adds[a].triggersAndPollers && x.adds[a].phase.Starting?
    case EndAdd(a) => a in x.adds && !x.adds[a].phase.Ended?
    case DropEntry(a) => a in x.adds && x.adds[a].phase.Stored? && !x.adds[a].triggered
    case BeginRemoval(k, w) => k !in x.removals && w in x.entries
    case CloseTriggers(k) => k in x.removals && !x.removals[k].closed && x.removals[k].entry in x.adds
    case CloseThrows(k) =>
      k in x.removals && !x.removals[k].closed && x.removals[k].entry in x.adds && x.adds[x.removals[k].entry].triggered
    case EndRemoval(k) => k in x.removals && x.removals[k].closed
  }

  /** Taking over waits until nobody leads or is still stepping down. */
  ghost predicate Enabled(s: State, step: Step) {
    match step
    case Publish(_) => true
    case Act(i, action) =>
      && i in s.instances && CanAct(s.instances[i], action)
      && (action.TakeOver? ==> forall j :: j in s.instances ==> !InCharge(s.instances[j]))
      && (action.DeliverAdd? ==> AddCommand(action.w) in s.commands)
      && (action.DeliverRemove? ==> RemoveCommand(action.w) in s.commands)
  }

  function SetAdd(x: Instance, a: AddId, add: Add): (y: Instance) {
    x.(adds := x.adds[a := add])
  }

  /** The synchronous beginning of a removal; without an entry there is nothing to do. */
  function Removing(x: Instance, k: RemovalId, w: WorkflowId): (y: Instance) {
    if w !in x.entries then x else
      x.(crons := x.crons - {w}, removals := x.removals[k := Removal(w, x.entries[w], false)])
  }

  /** What an action does to its instance. */
  function Acted(x: Instance, action: Action): (y: Instance)
    requires CanAct(x, action)
  {
    match action
    case TakeOver => x.(leader := true)
    case StepDown => x.(leader := false, closing := true, left := x.entries.Keys, current := None)
    case HandlerTakes(w, k) => Removing(x, k, w).(left := x.left - {w}, current := Some(k))
    case HandlerSkips(w) => x.(left := x.left - {w})
    case StepDownHandled => x.(closing := false)
    case DeliverAdd(a, w) => SetAdd(x, a, Add(w, x.leader, Starting, false, false))
    case DeliverRemove(k, w) => Removing(x, k, w)
    case BeginAdd(a, w) => SetAdd(x, a, Add(w, x.leader, Starting, false, false))
    case StartTrigger(a) => SetAdd(x, a, x.adds[a].(triggered := true, open := true))
    case RegisterCron(a) => x.(crons := x.crons + {x.adds[a].workflow})
    case StoreEntry(a) =>
      SetAdd(x, a, x.adds[a].(phase := Stored)).(entries := x.entries[x.adds[a].workflow := a])
    case EndAdd(a) => SetAdd(x, a, x.adds[a].(phase := Ended))
    case DropEntry(a) => SetAdd(x, a, x.adds[a].(phase := Ended)).(entries := x.entries - {x.adds[a].workflow})
    case BeginRemoval(k, w) => Removing(x, k, w)
    case CloseTriggers(k) =>
      var e := x.removals[k].entry;
      SetAdd(x, e, x.adds[e].(open := false)).(removals := x.removals[k := x.removals[k].(closed := true)])
    case CloseThrows(k) => RemovalOver(x, k, true)
    case EndRemoval(k) => RemovalOver(x, k, false).(entries := x.entries - {x.removals[k].workflow})
  }

  /** The handler goes on after the removal it waited for, or gives up if that threw. */
  function RemovalOver(x: Instance, k: RemovalId, thrown: bool): (y: Instance) {
    var y := x.(removals := x.removals - {k});
    if x.current != Some(k) then y
    else if thrown then y.(current := None, closing := false, left := {})
    else y.(current := None)
  }

  ghost function Next(s: State, step: Step): (s': State) {
    if !Enabled(s, step) then s else
      match step
      case Publish(command) => s.(commands := s.commands + {command})
      case Act(i, action) =>
        State(s.instances[i := Acted(s.instances[i], action)],
              if action.DeliverAdd? then s.commands - {AddCommand(action.w)}
              else if action.DeliverRemove? then s.commands - {RemoveCommand(action.w)}
              else s.commands)
  }

  // ---------- What always holds ----------

  predicate RolesValid(x: Instance) {
    && (x.leader ==> !x.closing)
    && (!x.closing ==> x.left == {} && x.current == None)
    && (x.current.Some? ==> x.current.value in x.removals)
  }

  predicate Valid(x: Instance) {
    && RolesValid(x)
    && (forall w :: w in x.entries ==> IsStoredFor(x, x.entries[w], w))
    && (forall k :: k in x.removals ==> IsStoredFor(x, x.removals[k].entry, x.removals[k].workflow))
  }

  predicate IsStoredFor(x: Instance, a: AddId, w: WorkflowId) {
    a in x.adds && x.adds[a].workflow == w && !x.adds[a].phase.Starting?
  }

  ghost predicate Inv(s: State) {
    && (forall i, j ::
      i in s.instances && j in s.instances && InCharge(s.instances[i]) && InCharge(s.instances[j]) ==> i == j)
    && (forall i :: i in s.instances ==> Valid(s.instances[i]))
  }

  lemma RolesStayValid(x: Instance, action: Action)
    requires RolesValid(x) && CanAct(x, action)
    ensures RolesValid(Acted(x, action))
    ensures InCharge(Acted(x, action)) ==> InCharge(x) || action.TakeOver?
  {
  }

  lemma StoredStays(x: Instance, action: Action, a: AddId, w: WorkflowId)
    requires CanAct(x, action) && IsStoredFor(x, a, w)
    ensures IsStoredFor(Acted(x, action), a, w)
  {
  }

  lemma EntryStaysStored(x: Instance, action: Action, w: WorkflowId)
    requires Valid(x) && CanAct(x, action) && w in Acted(x, action).entries
    ensures IsStoredFor(Acted(x, action), Acted(x, action).entries[w], w)
  {
    if w in x.entries { StoredStays(x, action, x.entries[w], w); }
  }

  lemma RemovalStaysStored(x: Instance, action: Action, k: RemovalId)
    requires Valid(x) && CanAct(x, action) && k in Acted(x, action).removals
    ensures var r := Acted(x, action).removals[k]; IsStoredFor(Acted(x, action), r.entry, r.workflow)
  {
    var r := Acted(x, action).removals[k];
    assert IsStoredFor(x, r.entry, r.workflow);
    StoredStays(x, action, r.entry, r.workflow);
  }

  lemma ActedIsValid(x: Instance, action: Action)
    requires Valid(x) && CanAct(x, action)
    ensures Valid(Acted(x, action))
  {
    RolesStayValid(x, action);
    var y := Acted(x, action);
    forall w | w in y.entries ensures IsStoredFor(y, y.entries[w], w) { EntryStaysStored(x, action, w); }
    forall k | k in y.removals ensures IsStoredFor(y, y.removals[k].entry, y.removals[k].workflow) {
      RemovalStaysStored(x, action, k);
    }
  }

  lemma StepKeepsInv(s: State, step: Step)
    requires Inv(s) && Enabled(s, step)
    ensures Inv(Next(s, step))
  {
    if step.Act? {
      ActedIsValid(s.instances[step.i], step.action);
      RolesStayValid(s.instances[step.i], step.action);
    }
  }

  // ---------- What runs is accounted for ----------

  /** The call's entry is in the dictionary. */
  predicate IsEntry(x: Instance, a: AddId)
    requires a in x.adds
  {
    x.adds[a].workflow in x.entries && x.entries[x.adds[a].workflow] == a
  }

  /** A removal is about to close the call's triggers; off the lead, only the one that the handler waits for counts. */
  predicate BeingClosed(x: Instance, a: AddId, except: Option<RemovalId>) {
    exists k :: k in x.removals && x.removals[k].entry == a && !x.removals[k].closed && Some(k) != except &&
      (x.leader || x.current == Some(k))
  }

  /** Entries count while the instance leads, and afterwards if the handler has them on its list. */
  predicate IsListed(x: Instance, w: WorkflowId) {
    w in x.entries && (x.leader || w in x.left)
  }

  predicate IsStarting(x: Instance, w: WorkflowId, except: Option<AddId>) {
    exists a :: a in x.adds && x.adds[a].workflow == w && x.adds[a].triggersAndPollers && x.adds[a].phase.Starting? &&
      Some(a) != except
  }

  /**
   * Triggers that run belong to a listed entry, are being closed, or belong to a call that is starting them as
   * leader.
   */
  predicate TriggersAccounted(x: Instance, a: AddId)
    requires a in x.adds
  {
    x.adds[a].open ==>
      || (IsEntry(x, a) && IsListed(x, x.adds[a].workflow))
      || BeingClosed(x, a, None)
      || (x.leader && x.adds[a].phase.Starting?)
  }

  /** Crons belong to a workflow with a listed entry, or with a call that is going to store one as leader. */
  predicate CronsAccounted(x: Instance, w: WorkflowId) {
    w in x.crons ==> IsListed(x, w) || (x.leader && IsStarting(x, w, None))
  }

  ghost predicate Accounted(x: Instance) {
    (forall a :: a in x.adds ==> TriggersAccounted(x, a)) && (forall w :: CronsAccounted(x, w))
  }

  ghost predicate AllAccounted(s: State) {
    forall i :: i in s.instances ==> Accounted(s.instances[i])
  }

  /** The entry of the workflow has open triggers that nothing else is about to close. */
  predicate EntryIsNeeded(x: Instance, w: WorkflowId) {
    w in x.entries && x.entries[w] in x.adds && x.adds[x.entries[w]].open && !BeingClosed(x, x.entries[w], None)
  }

  /** The workflow has crons, and after `except` no call is going to store an entry for it as leader. */
  predicate CronsNeedEntry(x: Instance, w: WorkflowId, except: Option<AddId>) {
    w in x.crons && !(x.leader && IsStarting(x, w, except))
  }

  /** The call's triggers run, its entry is gone, and no removal but `k` is going to close them. */
  predicate IsForgotten(x: Instance, a: AddId, k: RemovalId) {
    a in x.adds && x.adds[a].open && !IsEntry(x, a) && !BeingClosed(x, a, Some(k))
  }

  /**
   * The action leaves triggers or crons behind that nothing leads to any more: they are started or registered too late,
   * their entry is overwritten or deleted by a call that does not know of them, or whoever should close them gives up.
   */
  ghost predicate Orphans(x: Instance, action: Action) {
    match action
    case StepDown =>
      || (exists a :: a in x.adds && x.adds[a].open && !IsEntry(x, a))
      || exists w :: w in x.crons && w !in x.entries
    case StartTrigger(_) => !x.leader
    case RegisterCron(a) => a in x.adds &&
      var w := x.adds[a].workflow; !IsListed(x, w) && !(x.leader && IsStarting(x, w, None))
    case StoreEntry(a) => a in x.adds && EntryIsNeeded(x, x.adds[a].workflow)
    case EndAdd(a) => a in x.adds && x.adds[a].phase.Starting? &&
      (x.adds[a].open ||
       (x.leader && x.adds[a].workflow !in x.entries && CronsNeedEntry(x, x.adds[a].workflow, Some(a))))
    case DropEntry(a) => a in x.adds && x.adds[a].workflow in x.entries &&
      (EntryIsNeeded(x, x.adds[a].workflow) || CronsNeedEntry(x, x.adds[a].workflow, None))
    case EndRemoval(k) => k in x.removals && x.removals[k].workflow in x.entries &&
      (EntryIsNeeded(x, x.removals[k].workflow) || CronsNeedEntry(x, x.removals[k].workflow, None))
    case CloseThrows(k) => k in x.removals &&
      if x.current == Some(k) then x.crons != {} || (exists a :: a in x.adds && x.adds[a].open)
      else x.leader && IsForgotten(x, x.removals[k].entry, k)
    case _ => false
  }

  // ---------- Exactly the orphaning actions break it ----------

  predicate IsAddAction(action: Action) {
    || action.DeliverAdd? || action.BeginAdd? || action.StartTrigger? || action.RegisterCron? || action.StoreEntry?
    || action.EndAdd? || action.DropEntry?
  }

  /** The triggers that run after an action, one call at a time. */
  lemma TriggersStay(x: Instance, action: Action, a: AddId)
    requires Valid(x) && CanAct(x, action) && Accounted(x) && !Orphans(x, action) && a in Acted(x, action).adds
    ensures TriggersAccounted(Acted(x, action), a)
  {
    if a in x.adds && Acted(x, action).adds[a].open {
      assert TriggersAccounted(x, a);
      if BeingClosed(x, a, None) && !action.StepDown? {
        BeingClosedStays(x, action, a);
      } else if IsAddAction(action) {
        AddActionKeepsTriggers(x, action, a);
      } else {
        OtherActionKeepsTriggers(x, action, a);
      }
    }
  }

  lemma AddActionKeepsTriggers(x: Instance, action: Action, a: AddId)
    requires Valid(x) && CanAct(x, action) && !Orphans(x, action) && IsAddAction(action)
    requires a in x.adds && TriggersAccounted(x, a) && !BeingClosed(x, a, None)
    ensures TriggersAccounted(Acted(x, action), a)
  {
  }

  lemma OtherActionKeepsTriggers(x: Instance, action: Action, a: AddId)
    requires Valid(x) && CanAct(x, action) && !Orphans(x, action) && !IsAddAction(action)
    requires a in x.adds && TriggersAccounted(x, a) && (action.StepDown? || !BeingClosed(x, a, None))
    ensures TriggersAccounted(Acted(x, action), a)
  {
    var y := Acted(x, action);
    if action.HandlerTakes? && IsEntry(x, a) && x.adds[a].workflow == action.w {
      assert action.k in y.removals && y.removals[action.k].entry == a;
    }
  }

  lemma BeingClosedStays(x: Instance, action: Action, a: AddId)
    requires Valid(x) && CanAct(x, action) && !Orphans(x, action) && !action.StepDown?
    requires a in x.adds && BeingClosed(x, a, None) && Acted(x, action).adds[a].open
    ensures BeingClosed(Acted(x, action), a, None) ||
      (IsEntry(Acted(x, action), a) && IsListed(Acted(x, action), x.adds[a].workflow))
  {
    var y := Acted(x, action);
    var k :| k in x.removals && x.removals[k].entry == a && !x.removals[k].closed && (x.leader || x.current == Some(k));
    if action == CloseThrows(k) {
      if BeingClosed(x, a, Some(k)) {
        var l :| l in x.removals && x.removals[l].entry == a && !x.removals[l].closed && Some(l) != Some(k) &&
          (x.leader || x.current == Some(l));
        assert l in y.removals && y.removals[l] == x.removals[l];
      }
    } else {
      assert k in y.removals && y.removals[k] == x.removals[k];
    }
  }

  lemma CronsStay(x: Instance, action: Action, w: WorkflowId)
    requires Valid(x) && CanAct(x, action) && Accounted(x) && !Orphans(x, action)
    ensures CronsAccounted(Acted(x, action), w)
  {
    var y := Acted(x, action);
    assert CronsAccounted(x, w);
  }

  /** An orphaning action leaves some triggers or crons behind. */
  lemma OrphansShow(x: Instance, action: Action)
    requires Valid(x) && CanAct(x, action) && Accounted(x) && Orphans(x, action)
    ensures !Accounted(Acted(x, action))
  {
    if action.StepDown? {
      StepDownShows(x);
    } else if action.StoreEntry? || action.DropEntry? || action.EndRemoval? {
      LostEntryShows(x, action);
    } else if action.CloseThrows? {
      ThrowShows(x, action.k);
    } else {
      LateShows(x, action);
    }
  }

  lemma StepDownShows(x: Instance)
    requires Valid(x) && x.leader && Orphans(x, StepDown)
    ensures !Accounted(Acted(x, StepDown))
  {
    var y := Acted(x, StepDown);
    if a :| a in x.adds && x.adds[a].open && !IsEntry(x, a) {
      assert a in y.adds && !TriggersAccounted(y, a);
    } else {
      var w :| w in x.crons && w !in x.entries;
      assert !CronsAccounted(y, w);
    }
  }

  lemma ThrowShows(x: Instance, k: RemovalId)
    requires Valid(x) && CanAct(x, CloseThrows(k)) && Accounted(x) && Orphans(x, CloseThrows(k))
    ensures !Accounted(Acted(x, CloseThrows(k)))
  {
    var y := Acted(x, CloseThrows(k));
    if x.current != Some(k) {
      var e := x.removals[k].entry;
      assert e in y.adds && !TriggersAccounted(y, e);
    } else if a :| a in x.adds && x.adds[a].open {
      assert a in y.adds && !TriggersAccounted(y, a);
    } else {
      var w :| w in x.crons;
      assert !CronsAccounted(y, w);
    }
  }

  lemma LateShows(x: Instance, action: Action)
    requires Valid(x) && CanAct(x, action) && Accounted(x) && Orphans(x, action)
    requires action.StartTrigger? || action.RegisterCron? || action.EndAdd?
    ensures !Accounted(Acted(x, action))
  {
    var y, a := Acted(x, action), action.a;
    assert !TriggersAccounted(y, a) || !CronsAccounted(y, x.adds[a].workflow);
    assert a in y.adds;
  }

  /** The entry that is overwritten or deleted was needed, by its triggers or by crons. */
  lemma LostEntryShows(x: Instance, action: Action)
    requires Valid(x) && CanAct(x, action) && Accounted(x) && Orphans(x, action)
    requires action.StoreEntry? || action.DropEntry? || action.EndRemoval?
    ensures !Accounted(Acted(x, action))
  {
    var y := Acted(x, action);
    var w := if action.EndRemoval? then x.removals[action.k].workflow else x.adds[action.a].workflow;
    if EntryIsNeeded(x, w) {
      var e := x.entries[w];
      assert e in y.adds && !TriggersAccounted(y, e);
    } else {
      assert !CronsAccounted(y, w);
    }
  }

  /** An action keeps everything accounted for exactly if it orphans nothing. */
  lemma ActedKeepsAccountedExactly(x: Instance, action: Action)
    requires Valid(x) && CanAct(x, action) && Accounted(x)
    ensures Accounted(Acted(x, action)) <==> !Orphans(x, action)
  {
    if Orphans(x, action) {
      OrphansShow(x, action);
    } else {
      forall a | a in Acted(x, action).adds
        ensures TriggersAccounted(Acted(x, action), a) { TriggersStay(x, action, a); }
      forall w ensures CronsAccounted(Acted(x, action), w) { CronsStay(x, action, w); }
    }
  }

  ghost predicate StepOrphans(s: State, step: Step) {
    step.Act? && step.i in s.instances && Orphans(s.instances[step.i], step.action)
  }

  lemma StepKeepsAccountedExactly(s: State, step: Step)
    requires Inv(s) && AllAccounted(s) && Enabled(s, step)
    ensures AllAccounted(Next(s, step)) <==> !StepOrphans(s, step)
  {
    if step.Act? {
      var x := s.instances[step.i];
      ActedKeepsAccountedExactly(x, step.action);
      assert Next(s, step).instances == s.instances[step.i := Acted(x, step.action)];
      assert step.i in Next(s, step).instances;
    }
  }

  // ---------- Whole runs ----------

  function Idle(): (x: Instance) {
    Instance(false, false, {}, None, map[], {}, map[], map[])
  }

  ghost predicate Initial(s: State) {
    forall i :: i in s.instances ==> s.instances[i] == Idle()
  }

  ghost predicate IsRun(s: State, steps: seq<Step>) {
    Runs.IsRun(Enabled, Next, s, steps)
  }

  ghost function After(s: State, steps: seq<Step>): (s': State) {
    Runs.After(Next, s, steps)
  }

  ghost predicate NothingOrphaned(s: State, steps: seq<Step>) {
    Runs.Never(StepOrphans, Next, s, steps)
  }

  /** Throughout a run everything in memory is accounted for, exactly if no step orphans anything. */
  lemma AccountedThroughoutExactly(s: State, steps: seq<Step>)
    requires Initial(s) && IsRun(s, steps)
    ensures Runs.Always(AllAccounted, Next, s, steps) <==> NothingOrphaned(s, steps)
    ensures Inv(After(s, steps))
  {
    forall s, step | Inv(s) && Enabled(s, step) ensures Inv(Next(s, step)) {
      StepKeepsInv(s, step);
    }
    forall s, step | Inv(s) && AllAccounted(s) && Enabled(s, step)
      ensures AllAccounted(Next(s, step)) <==> !StepOrphans(s, step)
    {
      StepKeepsAccountedExactly(s, step);
    }
    Runs.AlwaysExactly(Enabled, Next, Inv, AllAccounted, StepOrphans, s, steps);
    Runs.RunKeeps(Enabled, Next, Inv, s, steps);
  }

  /** The workflow has a trigger running or a cron registered. */
  ghost predicate InMemory(x: Instance, w: WorkflowId) {
    w in x.crons || exists a :: a in x.adds && x.adds[a].workflow == w && x.adds[a].open
  }

  lemma InMemoryInCharge(x: Instance, w: WorkflowId)
    requires Valid(x) && Accounted(x) && InMemory(x, w)
    ensures InCharge(x)
  {
    if w in x.crons {
      assert CronsAccounted(x, w);
    } else {
      var a :| a in x.adds && x.adds[a].workflow == w && x.adds[a].open;
      assert TriggersAccounted(x, a);
    }
  }

  /** If nothing is orphaned, no workflow ever has triggers or crons in the memory of two instances. */
  lemma HeldOnOneInstance(s: State, steps: seq<Step>, i: InstanceId, j: InstanceId, w: WorkflowId)
    requires Initial(s) && IsRun(s, steps) && NothingOrphaned(s, steps)
    requires var s' := After(s, steps);
      i in s'.instances && j in s'.instances && InMemory(s'.instances[i], w) && InMemory(s'.instances[j], w)
    ensures i == j && InCharge(After(s, steps).instances[i])
  {
    AccountedThroughoutExactly(s, steps);
    Runs.AlwaysHoldsAfter(AllAccounted, Next, s, steps);
    InMemoryInCharge(After(s, steps).instances[i], w);
    InMemoryInCharge(After(s, steps).instances[j], w);
  }

  // ---------- Calls that do not overlap ----------

  /** A call of `add` that adds triggers and pollers is not over. */
  predicate InFlight(x: Instance, a: AddId) {
    a in x.adds && x.adds[a].triggersAndPollers && !x.adds[a].phase.Ended?
  }

  predicate IsBusy(x: Instance, w: WorkflowId) {
    || (exists a :: a in x.adds && InFlight(x, a) && x.adds[a].workflow == w)
    || exists k :: k in x.removals && x.removals[k].workflow == w
  }

  /**
   * Adds and removals of a workflow follow one another, and nothing is added that is there already; the leader steps
   * down between adds; nothing fails to close, and no add fails once it has started something.
   */
  predicate IsOrderly(x: Instance, action: Action) {
    match action
    case StepDown => forall a :: a in x.adds ==> !InFlight(x, a)
    case DeliverAdd(_, w) => !IsBusy(x, w) && w !in x.entries
    case BeginAdd(_, w) => x.leader ==> !IsBusy(x, w) && w !in x.entries
    case DeliverRemove(_, w) => w in x.entries ==> !IsBusy(x, w)
    case BeginRemoval(_, w) => !IsBusy(x, w)
    case EndAdd(a) => a in x.adds && (x.adds[a].phase.Starting? ==> !x.adds[a].open && x.adds[a].workflow !in x.crons)
    case DropEntry(a) => a in x.adds && x.adds[a].workflow !in x.crons
    case CloseThrows(_) => false
    case _ => true
  }

  predicate AddInOrder(x: Instance, a: AddId)
    requires a in x.adds
  {
    AddPlaced(x, a) && (InFlight(x, a) ==> AddAlone(x, a))
  }

  /** Triggers run for an entry or a call that is starting them; a call under way is the leader's. */
  predicate AddPlaced(x: Instance, a: AddId)
    requires a in x.adds
  {
    var add := x.adds[a];
    && (add.open ==> add.triggered && (IsEntry(x, a) || (add.phase.Starting? && add.triggersAndPollers)))
    && (add.phase.Stored? ==> add.triggersAndPollers)
    && (InFlight(x, a) ==> x.leader && if add.phase.Starting? then add.workflow !in x.entries else IsEntry(x, a))
  }

  /** No other call and no removal is under way for the workflow. */
  predicate AddAlone(x: Instance, a: AddId)
    requires a in x.adds
  {
    && (forall k :: k in x.removals ==> x.removals[k].workflow != x.adds[a].workflow)
    && (forall b :: b in x.adds && InFlight(x, b) && x.adds[b].workflow == x.adds[a].workflow ==> b == a)
  }

  predicate RemovalInOrder(x: Instance, k: RemovalId)
    requires k in x.removals
  {
    var r := x.removals[k];
    && r.workflow !in x.crons
    && (r.workflow in x.entries ==> x.entries[r.workflow] == r.entry)
    && (r.closed && r.entry in x.adds ==> !x.adds[r.entry].open)
  }

  ghost predicate InOrder(x: Instance) {
    && Valid(x) && Accounted(x)
    && (forall a :: a in x.adds ==> AddInOrder(x, a))
    && (forall k :: k in x.removals ==> RemovalInOrder(x, k))
  }

  lemma OrderlyOrphansNothing(x: Instance, action: Action)
    requires InOrder(x) && CanAct(x, action) && IsOrderly(x, action)
    ensures !Orphans(x, action)
  {
    match action
    case StepDown =>
      forall a | a in x.adds && x.adds[a].open ensures IsEntry(x, a) { assert AddInOrder(x, a); }
      forall w | w in x.crons ensures w in x.entries {
        assert CronsAccounted(x, w);
        if a :| a in x.adds && x.adds[a].workflow == w && x.adds[a].triggersAndPollers && x.adds[a].phase.Starting? {
          assert InFlight(x, a);
        }
      }
    case StartTrigger(a) => assert AddInOrder(x, a);
    case RegisterCron(a) => assert AddInOrder(x, a);
    case StoreEntry(a) => assert AddInOrder(x, a);
    case DropEntry(a) => assert AddInOrder(x, a);
    case EndRemoval(k) => assert RemovalInOrder(x, k);
    case _ =>
  }

  predicate IsRemovalAction(action: Action) {
    action.DeliverRemove? || action.BeginRemoval? || action.CloseTriggers? || action.EndRemoval?
  }

  lemma AddStaysInOrder(x: Instance, action: Action, a: AddId)
    requires InOrder(x) && CanAct(x, action) && IsOrderly(x, action) && a in Acted(x, action).adds
    ensures AddInOrder(Acted(x, action), a)
  {
    if a in x.adds { assert AddInOrder(x, a); }
    if IsAddAction(action) {
      if action.a in x.adds { assert AddInOrder(x, action.a); }
      AddActionKeepsPlaced(x, action, a);
      AddActionKeepsAlone(x, action, a);
    } else if IsRemovalAction(action) {
      if action.EndRemoval? { assert RemovalInOrder(x, action.k); }
      RemovalActionKeepsAdd(x, action, a);
    } else {
      HandlerKeepsAdd(x, action, a);
    }
  }

  lemma AddActionKeepsPlaced(x: Instance, action: Action, a: AddId)
    requires Valid(x) && CanAct(x, action) && IsOrderly(x, action) && IsAddAction(action) && a in Acted(x, action).adds
    requires (a in x.adds ==> AddInOrder(x, a)) && (action.a in x.adds ==> AddInOrder(x, action.a))
    ensures AddPlaced(Acted(x, action), a)
  {
  }

  lemma AddActionKeepsAlone(x: Instance, action: Action, a: AddId)
    requires Valid(x) && CanAct(x, action) && IsOrderly(x, action) && IsAddAction(action) && a in Acted(x, action).adds
    requires (a in x.adds ==> AddInOrder(x, a)) && (action.a in x.adds ==> AddInOrder(x, action.a))
    ensures InFlight(Acted(x, action), a) ==> AddAlone(Acted(x, action), a)
  {
  }

  lemma RemovalActionKeepsAdd(x: Instance, action: Action, a: AddId)
    requires Valid(x) && CanAct(x, action) && IsOrderly(x, action) && IsRemovalAction(action)
    requires a in x.adds && AddInOrder(x, a) && (action.EndRemoval? ==> RemovalInOrder(x, action.k))
    ensures AddInOrder(Acted(x, action), a)
  {
  }

  lemma HandlerKeepsAdd(x: Instance, action: Action, a: AddId)
    requires Valid(x) && CanAct(x, action) && IsOrderly(x, action) && !IsAddAction(action) && !IsRemovalAction(action)
    requires a in x.adds && AddInOrder(x, a)
    ensures AddInOrder(Acted(x, action), a)
  {
  }

  lemma RemovalStaysInOrder(x: Instance, action: Action, k: RemovalId)
    requires InOrder(x) && CanAct(x, action) && IsOrderly(x, action) && k in Acted(x, action).removals
    ensures RemovalInOrder(Acted(x, action), k)
  {
    if k in x.removals { assert RemovalInOrder(x, k); }
    if IsAddAction(action) {
      if action.a in x.adds { assert AddInOrder(x, action.a); }
      AddActionKeepsRemoval(x, action, k);
    } else {
      OtherActionKeepsRemoval(x, action, k);
    }
  }

  lemma AddActionKeepsRemoval(x: Instance, action: Action, k: RemovalId)
    requires Valid(x) && CanAct(x, action) && IsOrderly(x, action) && IsAddAction(action)
    requires k in x.removals && RemovalInOrder(x, k) && (action.a in x.adds ==> AddInOrder(x, action.a))
    ensures RemovalInOrder(Acted(x, action), k)
  {
  }

  lemma OtherActionKeepsRemoval(x: Instance, action: Action, k: RemovalId)
    requires Valid(x) && CanAct(x, action) && IsOrderly(x, action) && !IsAddAction(action)
    requires k in Acted(x, action).removals && (k in x.removals ==> RemovalInOrder(x, k))
    ensures RemovalInOrder(Acted(x, action), k)
  {
  }

  lemma OrderlyKeepsInOrder(x: Instance, action: Action)
    requires InOrder(x) && CanAct(x, action) && IsOrderly(x, action)
    ensures InOrder(Acted(x, action)) && !Orphans(x, action)
  {
    ActedIsValid(x, action);
    OrderlyOrphansNothing(x, action);
    ActedKeepsAccountedExactly(x, action);
    forall a | a in Acted(x, action).adds ensures AddInOrder(Acted(x, action), a) { AddStaysInOrder(x, action, a); }
    forall k | k in Acted(x, action).removals
      ensures RemovalInOrder(Acted(x, action), k) { RemovalStaysInOrder(x, action, k); }
  }

  ghost predicate OrderlyStep(s: State, step: Step) {
    Enabled(s, step) && (step.Act? ==> IsOrderly(s.instances[step.i], step.action))
  }

  ghost predicate AllInOrder(s: State) {
    forall i :: i in s.instances ==> InOrder(s.instances[i])
  }

  /** In a run of calls that do not overlap, with step-downs between adds, nothing is orphaned. */
  lemma OrderlyRunsOrphanNothing(s: State, steps: seq<Step>)
    requires Initial(s) && Runs.IsRun(OrderlyStep, Next, s, steps)
    ensures IsRun(s, steps) && NothingOrphaned(s, steps)
  {
    forall s, step | AllInOrder(s) && OrderlyStep(s, step) ensures AllInOrder(Next(s, step)) && !StepOrphans(s, step) {
      if step.Act? { OrderlyKeepsInOrder(s.instances[step.i], step.action); }
    }
    Runs.NeverBad(OrderlyStep, Next, AllInOrder, StepOrphans, s, steps);
    Runs.RunWeaken(OrderlyStep, Enabled, Next, s, steps);
  }

  // ---------- Runs of one instance ----------

  function Do(x: Instance, action: Action): (y: Instance) {
    if CanAct(x, action) then Acted(x, action) else x
  }

  /** The actions of one instance, none of which depends on the others. */
  ghost predicate CanDo(x: Instance, actions: seq<Action>) {
    Runs.IsRun(ActsAlone, Do, x, actions)
  }

  predicate ActsAlone(x: Instance, action: Action) {
    CanAct(x, action) && !action.TakeOver? && !action.DeliverAdd? && !action.DeliverRemove?
  }

  ghost function Done(x: Instance, actions: seq<Action>): (y: Instance) {
    Runs.After(Do, x, actions)
  }

  function StepsOf(i: InstanceId, actions: seq<Action>): (steps: seq<Step>) {
    if actions == [] then [] else [Act(i, actions[0])] + StepsOf(i, actions[1..])
  }

  lemma {:induction false} ActionsRun(s: State, i: InstanceId, actions: seq<Action>)
    requires i in s.instances && CanDo(s.instances[i], actions)
    ensures IsRun(s, StepsOf(i, actions))
    ensures After(s, StepsOf(i, actions)) == s.(instances := s.instances[i := Done(s.instances[i], actions)])
    decreases |actions|
  {
    if actions == [] {
      assert s.instances[i := s.instances[i]] == s.instances;
    } else {
      var s1 := Next(s, Act(i, actions[0]));
      assert s1 == s.(instances := s.instances[i := Do(s.instances[i], actions[0])]);
      ActionsRun(s1, i, actions[1..]);
      Runs.RunStep(Enabled, Next, s, Act(i, actions[0]), StepsOf(i, actions[1..]));
    }
  }

  lemma DoThree(x: Instance, a: seq<Action>, y: Instance)
    requires |a| == 3 && ActsAlone(x, a[0]) && ActsAlone(Do(x, a[0]), a[1]) && ActsAlone(Do(Do(x, a[0]), a[1]), a[2])
    requires Do(Do(Do(x, a[0]), a[1]), a[2]) == y
    ensures CanDo(x, a) && Done(x, a) == y
  {
    Runs.RunThree(ActsAlone, Do, x, a);
  }

  lemma DoThen(x: Instance, a: seq<Action>, b: seq<Action>)
    requires CanDo(x, a) && CanDo(Done(x, a), b)
    ensures CanDo(x, a + b) && Done(x, a + b) == Done(Done(x, a), b)
  {
    Runs.RunAppend(ActsAlone, Do, x, a, b);
  }
}
