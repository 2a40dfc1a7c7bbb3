/**
 * Execution deadlines: of nested sub-workflows (packages/cli/src/workflow-execute-additional-data.ts), and of an
 * execution in the main process, which may have waited and been resumed (packages/cli/src/workflow-runner.ts).
 * Instants are in milliseconds, timeouts in seconds.
 */
module Deadlines {
  import opened Wrappers

  const MAX_SAFE_INTEGER: int := 9007199254740991

  function Min(a: int, b: int): (m: int) {
    if a < b then a else b
  }

  // ---------- Sub-workflows ----------

  /** One sub-workflow call: when it started and the timeout in its settings. */
  datatype Level = Level(start: int, timeout: Option<int>)

  predicate HasTimeout(l: Level) {
    l.timeout.Some? && l.timeout.value > 0
  }

  function OwnDeadline(l: Level): (at: int)
    requires HasTimeout(l)
  {
    l.start + l.timeout.value * 1000
  }

  /** A parent deadline of zero counts as none. */
  function ChildDeadline(parent: Option<int>, l: Level): (d: Option<int>) {
    if HasTimeout(l) then
      Some(Min(if parent.Some? && parent.value != 0 then parent.value else MAX_SAFE_INTEGER, OwnDeadline(l)))
    else parent
  }

  method StartSubExecution(parent: Option<int>, l: Level) returns (deadline: Option<int>)
    ensures deadline == ChildDeadline(parent, l)
    ensures l.timeout.None? || l.timeout.value <= 0 ==> deadline == parent
    ensures l.timeout.Some? && l.timeout.value > 0 ==>
      var own := l.start + 1000 * l.timeout.value;
      && deadline.Some? && deadline.value <= own
      && (parent.Some? && parent.value != 0 ==> deadline.value <= parent.value && deadline.value in {own, parent.value})
      && (parent.None? || parent.value == 0 ==> deadline.value in {own, 9007199254740991})
      && deadline.value <= (if parent.None? || parent.value == 0 then 9007199254740991 else parent.value)
  {
    deadline := parent;
    if l.timeout.Some? && l.timeout.value > 0 {
      var bound := MAX_SAFE_INTEGER;
      if parent.Some? && parent.value != 0 { bound := parent.value; }
      var own := l.start + l.timeout.value * 1000;
      deadline := Some(if bound < own then bound else own);
    }
  }

  /** The deadline after entering the given sub-workflows one inside the other. */
  function NestedDeadline(parent: Option<int>, levels: seq<Level>): (d: Option<int>) {
    if levels == [] then parent
    else ChildDeadline(NestedDeadline(parent, levels[..|levels| - 1]), levels[|levels| - 1])
  }

  /** What bounds the deadlines of the levels from above: the parent's, or the largest exact number. */
  function Bound(parent: Option<int>): (b: int) {
    if parent.Some? && parent.value != 0 then parent.value else MAX_SAFE_INTEGER
  }

  predicate HasAnyTimeout(levels: seq<Level>) {
    exists i :: 0 <= i < |levels| && HasTimeout(levels[i])
  }

  /** The parent's deadline, or what the start and the positive timeout of a level add up to. */
  predicate IsSource(parent: Option<int>, levels: seq<Level>, d: int) {
    d == Bound(parent) || exists i :: 0 <= i < |levels| && HasTimeout(levels[i]) && OwnDeadline(levels[i]) == d
  }

  ghost predicate IsLeastSource(parent: Option<int>, levels: seq<Level>, d: int) {
    IsSource(parent, levels, d) && forall e :: IsSource(parent, levels, e) ==> d <= e
  }

  /**
   * At any depth, as long as clock readings are not negative: if some level has a timeout, the deadline is the least of
   * the bound and of all the levels' own; if none has, it is the parent's, whatever that is.
   */
  lemma {:induction false} NestedDeadlineIsLeast(parent: Option<int>, levels: seq<Level>)
    requires forall i :: 0 <= i < |levels| ==> levels[i].start >= 0
    ensures !HasAnyTimeout(levels) ==> NestedDeadline(parent, levels) == parent
    ensures HasAnyTimeout(levels) ==>
      && NestedDeadline(parent, levels).Some? && NestedDeadline(parent, levels).value != 0
      && IsLeastSource(parent, levels, NestedDeadline(parent, levels).value)
  {
    if levels != [] {
      var front, last := levels[..|levels| - 1], levels[|levels| - 1];
      NestedDeadlineIsLeast(parent, front);
      assert levels[|levels| - 1] == last;
      TimeoutsAppend(levels);
      forall e
        ensures IsSource(parent, levels, e) <==>
          IsSource(parent, front, e) || (HasTimeout(last) && OwnDeadline(last) == e)
      {
        SourcesAppend(parent, levels, e);
      }
      if !HasAnyTimeout(front) {
        assert forall e :: IsSource(parent, front, e) <==> e == Bound(parent);
      }
    }
  }

  lemma TimeoutsAppend(levels: seq<Level>)
    requires levels != []
    ensures HasAnyTimeout(levels) <==> HasAnyTimeout(levels[..|levels| - 1]) || HasTimeout(levels[|levels| - 1])
  {
    var front := levels[..|levels| - 1];
    if HasAnyTimeout(front) {
      var i :| 0 <= i < |front| && HasTimeout(front[i]);
      assert HasTimeout(levels[i]);
    }
    if HasAnyTimeout(levels) {
      var i :| 0 <= i < |levels| && HasTimeout(levels[i]);
      assert i < |front| ==> HasTimeout(front[i]);
    }
  }

  lemma SourcesAppend(parent: Option<int>, levels: seq<Level>, e: int)
    requires levels != []
    ensures var front, last := levels[..|levels| - 1], levels[|levels| - 1];
      IsSource(parent, levels, e) <==> IsSource(parent, front, e) || (HasTimeout(last) && OwnDeadline(last) == e)
  {
    var front, last := levels[..|levels| - 1], levels[|levels| - 1];
    if IsSource(parent, front, e) && e != Bound(parent) {
      var i :| 0 <= i < |front| && HasTimeout(front[i]) && OwnDeadline(front[i]) == e;
      assert levels[i] == front[i];
    }
    if IsSource(parent, levels, e) && e != Bound(parent) {
      var i :| 0 <= i < |levels| && HasTimeout(levels[i]) && OwnDeadline(levels[i]) == e;
      assert i < |front| ==> front[i] == levels[i];
    }
  }

  /** There is no deadline exactly if neither the parent nor any level has one. */
  lemma NoDeadlineNoSource(parent: Option<int>, levels: seq<Level>)
    requires forall i :: 0 <= i < |levels| ==> levels[i].start >= 0
    ensures NestedDeadline(parent, levels).None? <==> parent.None? && !HasAnyTimeout(levels)
  {
    NestedDeadlineIsLeast(parent, levels);
  }

  /** A child never outlives its parent's deadline, nor its own. */
  lemma DeadlinesShrink(parent: Option<int>, levels: seq<Level>, i: nat)
    requires i < |levels| && forall j :: 0 <= j < |levels| ==> levels[j].start >= 0
    ensures parent.Some? && parent.value != 0 ==>
      NestedDeadline(parent, levels).Some? && NestedDeadline(parent, levels).value <= parent.value
    ensures levels[i].timeout.Some? && levels[i].timeout.value > 0 ==>
      NestedDeadline(parent, levels).Some? &&
      NestedDeadline(parent, levels).value <= levels[i].start + 1000 * levels[i].timeout.value
  {
    NestedDeadlineIsLeast(parent, levels);
    assert IsSource(parent, levels, Bound(parent));
    if HasTimeout(levels[i]) {
      assert IsSource(parent, levels, OwnDeadline(levels[i]));
    }
  }

  /** If the bound is not reached, the deadline is exactly that of some level, in milliseconds after its start. */
  lemma DeadlineIsOfSomeLevel(parent: Option<int>, levels: seq<Level>)
    requires forall j :: 0 <= j < |levels| ==> levels[j].start >= 0
    ensures var d := NestedDeadline(parent, levels);
      || d == parent || d == Some(9007199254740991)
      || exists i :: 0 <= i < |levels| && levels[i].timeout.Some? && levels[i].timeout.value > 0 &&
           d == Some(levels[i].start + 1000 * levels[i].timeout.value)
  {
    NestedDeadlineIsLeast(parent, levels);
    var d := NestedDeadline(parent, levels);
    if HasAnyTimeout(levels) && d.value != Bound(parent) {
      var i :| 0 <= i < |levels| && HasTimeout(levels[i]) && OwnDeadline(levels[i]) == d.value;
      assert d == Some(levels[i].start + 1000 * levels[i].timeout.value);
    }
  }

  // ---------- The main process ----------

  /** The workflow's own timeout or the default, capped if it is positive. */
  function EffectiveTimeout(own: Option<int>, default: int, maxTimeout: int): (t: int) {
    var t := if own.Some? then own.value else default;
    if t > 0 then Min(t, maxTimeout) else t
  }

  /**
   * The timeouts set by `runMainProcess`: the deadline handed to the execution, read off the clock at `early`, and the
   * instant at which the execution is stopped, armed at `late`. `startedAt` is set for an execution that is resumed.
   */
  method ArmTimeouts(own: Option<int>, default: int, maxTimeout: int, startedAt: Option<int>, early: int, late: int)
      returns (soft: Option<int>, stop: Option<int>)
    ensures var t := EffectiveTimeout(own, default, maxTimeout);
      && soft == (if t <= 0 then None else Some(early + t * 1000))
      && stop == (if t <= 0 then None else Some(StopInstant(t, startedAt, late)))
    ensures (own.Some? && own.value <= 0) || (own.None? && default <= 0) || maxTimeout <= 0 ==>
      soft == None && stop == None
    ensures maxTimeout > 0 && (own.Some? ==> own.value > 0) && (own.None? ==> default > 0) ==>
      var wanted := if own.Some? then own.value else default;
      var t := if wanted < maxTimeout then wanted else maxTimeout;
      && soft == Some(early + 1000 * t)
      && (startedAt.None? ==> stop == Some(late + 1000 * t))
      && (startedAt.Some? && late <= startedAt.value + 1000 * t ==> stop == Some(startedAt.value + 1000 * t))
      && (startedAt.Some? && late >= startedAt.value + 1000 * t ==> stop == Some(late))
  {
    var workflowTimeout := default;
    if own.Some? { workflowTimeout := own.value; }
    if workflowTimeout > 0 { workflowTimeout := Min(workflowTimeout, maxTimeout); }
    soft, stop := None, None;
    if workflowTimeout > 0 { soft := Some(early + workflowTimeout * 1000); }
    if workflowTimeout > 0 {
      var timeout := Min(workflowTimeout, maxTimeout) * 1000;
      if startedAt.Some? {
        timeout := timeout - (late - startedAt.value);
        if timeout < 0 { timeout := 0; }
      }
      if timeout == 0 {
        stop := Some(late);
      } else {
        stop := Some(late + timeout);
      }
    }
  }

  /** A resumed execution is stopped relative to its first start, but never in the past. */
  function StopInstant(t: int, startedAt: Option<int>, now: int): (at: int) {
    var at := (if startedAt.Some? then startedAt.value else now) + t * 1000;
    if at < now then now else at
  }

  /**
   * On one resume, the stop is where the first start put it, or at the resume if that is later; the deadline handed to
   * the execution, in contrast, moves with the resume, and lies beyond the stop exactly if the resume came after the
   * start and before the deadline it is given.
   */
  lemma StopOnResume(t: int, startedAt: int, early: int, late: int)
    requires t > 0 && startedAt <= early <= late
    ensures StopInstant(t, Some(startedAt), late) >= late
    ensures late <= startedAt + t * 1000 ==> StopInstant(t, Some(startedAt), late) == startedAt + t * 1000
    ensures early + t * 1000 > StopInstant(t, Some(startedAt), late) <==> startedAt < early && late < early + t * 1000
  {
  }

  /** `setRunning`: the start time that the row has is kept, and with it that of every resume. */
  function SetRunning(startedAt: Option<int>, now: int): (out: Option<int>) {
    if startedAt.Some? then startedAt else Some(now)
  }

  /** A start or a resume: when the row is set running, and when the stop is armed. */
  datatype Start = Start(running: int, late: int)

  /** The start time in the row after the given starts. */
  function RowAfter(starts: seq<Start>): (startedAt: Option<int>) {
    if starts == [] then None else SetRunning(RowAfter(starts[..|starts| - 1]), starts[|starts| - 1].running)
  }

  /** Where the `i`-th start arms its stop, given the start time that it finds in the row. */
  function StopOf(t: int, starts: seq<Start>, i: nat): (at: int)
    requires i < |starts|
  {
    StopInstant(t, RowAfter(starts[..i]), starts[i].late)
  }

  predicate InTimeOrder(starts: seq<Start>) {
    && (forall i :: 0 <= i < |starts| ==> starts[i].running <= starts[i].late)
    && forall i, j :: 0 <= i < j < |starts| ==> starts[i].late <= starts[j].running
  }

  lemma {:induction false} RowKeepsFirstStart(starts: seq<Start>, i: nat)
    requires 0 < i <= |starts|
    ensures RowAfter(starts[..i]) == Some(starts[0].running)
  {
    assert starts[..i][..i - 1] == starts[..i - 1];
    if i > 1 {
      RowKeepsFirstStart(starts, i - 1);
    }
  }

  /**
   * Over any number of waits and resumes, all stops are set against the first start: a resume before that deadline is
   * stopped exactly at it, a later one at once, and no resume is stopped earlier than one before it.
   */
  lemma StopIsKeptAcrossResumes(t: int, starts: seq<Start>, i: nat, j: nat)
    requires t > 0 && InTimeOrder(starts) && 0 < i <= j < |starts|
    ensures var deadline := starts[0].running + t * 1000;
      && StopOf(t, starts, j) == (if starts[j].late <= deadline then deadline else starts[j].late)
      && StopOf(t, starts, 0) == starts[0].late + t * 1000 && StopOf(t, starts, i) <= StopOf(t, starts, j)
      && (starts[j].late <= deadline ==> StopOf(t, starts, i) == StopOf(t, starts, j) <= StopOf(t, starts, 0))
  {
    RowKeepsFirstStart(starts, i);
    RowKeepsFirstStart(starts, j);
    assert starts[..0] == [] && starts[i].late <= starts[j].late;
  }
}
