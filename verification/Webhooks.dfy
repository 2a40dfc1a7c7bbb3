/**
 * Registering the webhooks of a workflow, with a clean-up if one of them fails
 * (packages/cli/src/active-workflow-manager.ts and packages/cli/src/webhooks/webhook.service.ts).
 */
module Webhooks {
  import opened Wrappers

  type WorkflowId = string

  /** The primary key of the webhook table. */
  datatype Key = Key(verb: string, path: string)

  datatype Row = Row(workflow: WorkflowId, node: string)

  type Rows = map<Key, Row>

  datatype Webhook = Webhook(node: string, verb: string, path: string)

  /** Why a workflow is activated. */
  datatype Mode = Init | Create | Update | Activate | Manual | LeadershipChange

  /** What happens to one webhook: the upsert or the node's own set-up may throw, with a query error or another one. */
  datatype Outcome = Fine | StoreFails(query: bool) | HookFails(query: bool)

  /** `SaveFailed`: all webhooks were added, but saving the workflow's static data threw. */
  datatype Result = NoWebhooks | Added | Failed(pathTaken: bool) | SaveFailed

  /** A webhook that is registered with the external service for a workflow. */
  datatype Registration = Registration(workflow: WorkflowId, webhook: Webhook)

  /** One slash is dropped at either end. */
  function Normalized(path: string): (p: string) {
    var p := if path != "" && path[0] == '/' then path[1..] else path;
    if p != "" && p[|p| - 1] == '/' then p[..|p| - 1] else p
  }

  /** A path is stored without one slash at either end, so the four ways to write it share a row. */
  lemma SlashesAtTheEndsDoNotMatter(core: string)
    requires core != "" && core[0] != '/' && core[|core| - 1] != '/'
    ensures Normalized(core) == core && Normalized("/" + core) == core
    ensures Normalized(core + "/") == core && Normalized("/" + core + "/") == core
    ensures Normalized("//" + core) == "/" + core
    ensures forall path, node, verb :: path in {core, "/" + core, core + "/", "/" + core + "/"} ==>
      KeyOf(Webhook(node, verb, path)) == Key(verb, core)
  {
    assert ("/" + core)[1..] == core && ("//" + core)[1..] == "/" + core;
    assert (core + "/")[..|core|] == core;
    assert ("/" + core + "/")[1..] == core + "/";
  }

  /** Of any path, the slash it begins with is dropped, and then the slash that the rest ends with. */
  lemma OneSlashAtEitherEnd(path: string)
    ensures var begins := path != "" && path[0] == '/';
      var ends := |path| > (if begins then 1 else 0) && path[|path| - 1] == '/';
      path == (if begins then "/" else "") + Normalized(path) + (if ends then "/" else "")
  {
  }

  function KeyOf(h: Webhook): (k: Key) {
    Key(h.verb, Normalized(h.path))
  }

  /** On start-up and on a change of leadership, query errors are passed over. */
  predicate Fatal(o: Outcome, mode: Mode) {
    !o.Fine? && !(mode in {Init, LeadershipChange} && o.query)
  }

  lemma FatalExactly(o: Outcome, mode: Mode)
    ensures Fatal(o, mode) <==>
      o in {StoreFails(false), HookFails(false)} ||
      (mode in {Create, Update, Activate, Manual} && o in {StoreFails(true), HookFails(true)})
  {
  }

  /** The table after the first `n` webhooks: an upsert takes the row over from whichever workflow had it. */
  function Stored(rows: Rows, w: WorkflowId, hooks: seq<Webhook>, outcomes: seq<Outcome>, n: nat): (out: Rows)
    requires n <= |hooks| == |outcomes|
  {
    if n == 0 then rows else
      var before := Stored(rows, w, hooks, outcomes, n - 1);
      if outcomes[n - 1].StoreFails? then before else before[KeyOf(hooks[n - 1]) := Row(w, hooks[n - 1].node)]
  }

  function Without(rows: Rows, w: WorkflowId): (out: Rows) {
    map k | k in rows && rows[k].workflow != w :: rows[k]
  }

  /** The external registrations after the first `n` webhooks. */
  function Registered(external: set<Registration>, w: WorkflowId, hooks: seq<Webhook>, outcomes: seq<Outcome>, n: nat)
      : (out: set<Registration>)
    requires n <= |hooks| == |outcomes|
  {
    if n == 0 then external else
      var before := Registered(external, w, hooks, outcomes, n - 1);
      if outcomes[n - 1].Fine? then before + {Registration(w, hooks[n - 1])} else before
  }

  predicate Upserted(hooks: seq<Webhook>, outcomes: seq<Outcome>, n: nat, k: Key)
    requires n <= |hooks| == |outcomes|
  {
    exists i :: 0 <= i < n && !outcomes[i].StoreFails? && KeyOf(hooks[i]) == k
  }

  class WebhookTable {
    var rows: Rows
    var external: set<Registration>

    constructor (rows: Rows, external: set<Registration>)
      ensures this.rows == rows && this.external == external
    {
      this.rows, this.external := rows, external;
    }

    /**
     * `clearWebhooks`: the webhooks of the workflow's active version are deregistered one by one, then its rows are
     * deleted. Something may throw after a number of deregistrations, at the latest when static data is saved.
     */
    method ClearWebhooks(w: WorkflowId, current: seq<Webhook>, throwsAfter: Option<nat>) returns (thrown: bool)
      requires throwsAfter.Some? ==> throwsAfter.value <= |current|
      modifies this
      ensures thrown <==> throwsAfter.Some?
      ensures thrown ==> rows == old(rows)
      ensures !thrown ==> forall k ::
        (k in rows <==> k in old(rows) && old(rows)[k].workflow != w) && (k in rows ==> rows[k] == old(rows)[k])
      ensures forall x :: x in external <==>
        x in old(external) &&
        !(x.workflow == w && x.webhook in current[..if thrown then throwsAfter.value else |current|])
    {
      var i := 0;
      while i < |current|
        invariant i <= |current| && (throwsAfter.Some? ==> i <= throwsAfter.value) && rows == old(rows)
        invariant forall x :: x in external <==> x in old(external) && !(x.workflow == w && x.webhook in current[..i])
      {
        if throwsAfter == Some(i) { return true; }
        external := external - {Registration(w, current[i])};
        i := i + 1;
        assert current[..i] == current[..i - 1] + [current[i - 1]];
      }
      if throwsAfter.Some? { return true; }
      rows := map k | k in rows && rows[k].workflow != w :: rows[k];
      return false;
    }

    /** The attempt to clear the webhooks after a failure; an error of its own is only logged. */
    method TryToClear(w: WorkflowId, current: seq<Webhook>, throwsAfter: Option<nat>)
      requires throwsAfter.Some? ==> throwsAfter.value <= |current|
      modifies this
      ensures rows == (if throwsAfter.Some? then old(rows) else Without(old(rows), w))
      ensures var cleared := current[..if throwsAfter.Some? then throwsAfter.value else |current|];
        forall x :: x in external <==> x in old(external) && !(x.workflow == w && x.webhook in cleared)
    {
      var thrown := ClearWebhooks(w, current, throwsAfter);
      assert !thrown ==> rows == Without(old(rows), w);
    }

    /** `addWebhooks`. It stops at the first fatal error. */
    method AddWebhooks(w: WorkflowId, hooks: seq<Webhook>, outcomes: seq<Outcome>, mode: Mode,
                       current: seq<Webhook>, clearThrowsAfter: Option<nat>, saveThrows: bool)
        returns (result: Result, at: nat)
      requires |hooks| == |outcomes| && (clearThrowsAfter.Some? ==> clearThrowsAfter.value <= |current|)
      modifies this
      ensures result.NoWebhooks? <==> hooks == []
      ensures at <= |hooks|
      ensures mode in {Create, Update, Activate, Manual} ==> forall i :: 0 <= i < at ==> outcomes[i] == Fine
      ensures mode in {Init, LeadershipChange} ==>
        forall i :: 0 <= i < at ==> outcomes[i] in {Fine, StoreFails(true), HookFails(true)}
      ensures result.Failed? <==> at < |hooks|
      ensures result.SaveFailed? <==> at == |hooks| && hooks != [] && saveThrows
      ensures result.Failed? ==>
        && outcomes[at] in {StoreFails(false), HookFails(false), StoreFails(true), HookFails(true)}
        && (mode in {Init, LeadershipChange} ==> outcomes[at] in {StoreFails(false), HookFails(false)})
        && (result.pathTaken <==> outcomes[at] in {StoreFails(true), HookFails(true)})
        && rows == (if clearThrowsAfter.Some? then Stored(old(rows), w, hooks, outcomes, at + 1)
                    else Without(Stored(old(rows), w, hooks, outcomes, at + 1), w))
        && var cleared := current[..if clearThrowsAfter.Some? then clearThrowsAfter.value else |current|];
          forall x :: x in external <==>
            x in Registered(old(external), w, hooks, outcomes, at + 1) && !(x.workflow == w && x.webhook in cleared)
      ensures !result.Failed? ==>
        && rows == Stored(old(rows), w, hooks, outcomes, |hooks|)
        && external == Registered(old(external), w, hooks, outcomes, |hooks|)
    {
      at := 0;
      if |hooks| == 0 { return NoWebhooks, 0; }
      while at < |hooks|
        invariant at <= |hooks|
        invariant forall i :: 0 <= i < at ==>
          outcomes[i] == Fine ||
          (mode in {Init, LeadershipChange} && outcomes[i] in {StoreFails(true), HookFails(true)})
        invariant rows == Stored(old(rows), w, hooks, outcomes, at)
        invariant external == Registered(old(external), w, hooks, outcomes, at)
      {
        var hook, outcome := hooks[at], outcomes[at];
        FatalExactly(outcome, mode);
        if !outcome.StoreFails? {
          rows := rows[KeyOf(hook) := Row(w, hook.node)];
          if outcome.Fine? { external := external + {Registration(w, hook)}; }
        }
        if !outcome.Fine? && !(mode in {Init, LeadershipChange} && outcome.query) {
          TryToClear(w, current, clearThrowsAfter);
          return Failed(outcome.query), at;
        }
        at := at + 1;
      }
      if saveThrows { return SaveFailed, at; }
      return Added, at;
    }
  }

  // ---------- All or nothing ----------

  lemma {:induction false} StoredRows(
      rows: Rows, w: WorkflowId, hooks: seq<Webhook>, outcomes: seq<Outcome>, n: nat, k: Key)
    requires n <= |hooks| == |outcomes|
    ensures var out := Stored(rows, w, hooks, outcomes, n);
      && (Upserted(hooks, outcomes, n, k) ==> k in out && out[k].workflow == w)
      && (!Upserted(hooks, outcomes, n, k) ==> (k in out <==> k in rows) && (k in rows ==> out[k] == rows[k]))
  {
    if n > 0 {
      StoredRows(rows, w, hooks, outcomes, n - 1, k);
      if KeyOf(hooks[n - 1]) == k && !outcomes[n - 1].StoreFails? {
        assert Upserted(hooks, outcomes, n, k);
      }
      assert Upserted(hooks, outcomes, n, k) ==>
        Upserted(hooks, outcomes, n - 1, k) || (KeyOf(hooks[n - 1]) == k && !outcomes[n - 1].StoreFails?);
    }
  }

  /** No webhook after the `i`-th, of the first `n`, has been stored under the key. */
  predicate LastOnKey(hooks: seq<Webhook>, outcomes: seq<Outcome>, n: nat, k: Key, i: nat)
    requires i < n <= |hooks| == |outcomes|
  {
    && !outcomes[i].StoreFails? && KeyOf(hooks[i]) == k
    && forall j :: i < j < n && !outcomes[j].StoreFails? ==> KeyOf(hooks[j]) != k
  }

  /** A row names the node of the last webhook that was stored under its key. */
  lemma {:induction false} LastWebhookOwnsRow(
      rows: Rows, w: WorkflowId, hooks: seq<Webhook>, outcomes: seq<Outcome>, n: nat, k: Key, i: nat)
    requires i < n <= |hooks| == |outcomes| && LastOnKey(hooks, outcomes, n, k, i)
    ensures var out := Stored(rows, w, hooks, outcomes, n); k in out && out[k] == Row(w, hooks[i].node)
  {
    if i < n - 1 {
      LastWebhookOwnsRow(rows, w, hooks, outcomes, n - 1, k, i);
    }
  }

  /** Success outside start-up means that every webhook has its row, with its own node unless a later one shares it. */
  lemma AddedMeansAllStored(rows: Rows, w: WorkflowId, hooks: seq<Webhook>, outcomes: seq<Outcome>, mode: Mode, i: nat)
    requires i < |hooks| == |outcomes| && mode !in {Init, LeadershipChange}
    requires forall j :: 0 <= j < |hooks| ==> !Fatal(outcomes[j], mode)
    ensures var out := Stored(rows, w, hooks, outcomes, |hooks|);
      && KeyOf(hooks[i]) in out && out[KeyOf(hooks[i])].workflow == w
      && ((forall j :: i < j < |hooks| ==> KeyOf(hooks[j]) != KeyOf(hooks[i])) ==>
        out[KeyOf(hooks[i])].node == hooks[i].node)
  {
    StoredRows(rows, w, hooks, outcomes, |hooks|, KeyOf(hooks[i]));
    if forall j :: i < j < |hooks| ==> KeyOf(hooks[j]) != KeyOf(hooks[i]) {
      LastWebhookOwnsRow(rows, w, hooks, outcomes, |hooks|, KeyOf(hooks[i]), i);
    }
  }

  /** A failure that is cleaned up leaves no row of the workflow, and of the other rows those that were not upserted. */
  lemma FailureLeavesNothing(rows: Rows, w: WorkflowId, hooks: seq<Webhook>, outcomes: seq<Outcome>, n: nat, k: Key)
    requires n <= |hooks| == |outcomes|
    ensures var out := Without(Stored(rows, w, hooks, outcomes, n), w);
      && (k in out <==> k in rows && rows[k].workflow != w && !Upserted(hooks, outcomes, n, k))
      && (k in out ==> out[k] == rows[k])
  {
    StoredRows(rows, w, hooks, outcomes, n, k);
  }

  ghost predicate OthersUnchanged(before: Rows, after: Rows, w: WorkflowId) {
    forall k :: k in before && before[k].workflow != w ==> k in after && after[k] == before[k]
  }

  /** Some upserted key already belonged to another workflow. */
  ghost predicate TakesOver(rows: Rows, w: WorkflowId, hooks: seq<Webhook>, outcomes: seq<Outcome>, n: nat)
    requires n <= |hooks| == |outcomes|
  {
    exists i :: 0 <= i < n && !outcomes[i].StoreFails? && KeyOf(hooks[i]) in rows && rows[KeyOf(hooks[i])].workflow != w
  }

  /** The rows of other workflows survive, whether the call succeeds or is cleaned up, exactly if none is taken over. */
  lemma OthersUnchangedExactly(rows: Rows, w: WorkflowId, hooks: seq<Webhook>, outcomes: seq<Outcome>, n: nat)
    requires n <= |hooks| == |outcomes|
    ensures var stored := Stored(rows, w, hooks, outcomes, n);
      && (OthersUnchanged(rows, stored, w) <==> !TakesOver(rows, w, hooks, outcomes, n))
      && (OthersUnchanged(rows, Without(stored, w), w) <==> !TakesOver(rows, w, hooks, outcomes, n))
  {
    forall k ensures var stored := Stored(rows, w, hooks, outcomes, n);
        && (Upserted(hooks, outcomes, n, k) ==> k in stored && stored[k].workflow == w)
        && (!Upserted(hooks, outcomes, n, k) ==> (k in stored <==> k in rows) && (k in rows ==> stored[k] == rows[k]))
    {
      StoredRows(rows, w, hooks, outcomes, n, k);
    }
    if TakesOver(rows, w, hooks, outcomes, n) {
      var i :| 0 <= i < n && !outcomes[i].StoreFails? && KeyOf(hooks[i]) in rows && rows[KeyOf(hooks[i])].workflow != w;
      assert Upserted(hooks, outcomes, n, KeyOf(hooks[i]));
    }
  }

  /** Storing a webhook on the path of another workflow leaves that workflow without it, after success and clean-up. */
  lemma PathIsTakenOver()
    ensures var rows, hooks := map[Key("GET", "a") := Row("other", "n")], [Webhook("m", "GET", "/a")];
      && Stored(rows, "w", hooks, [Fine], 1) == map[Key("GET", "a") := Row("w", "m")]
      && Without(Stored(rows, "w", hooks, [HookFails(false)], 1), "w") == map[]
  {
    var rows, hooks := map[Key("GET", "a") := Row("other", "n")], [Webhook("m", "GET", "/a")];
    assert "/a"[1..] == "a" && KeyOf(hooks[0]) == Key("GET", "a");
    assert Stored(rows, "w", hooks, [Fine], 0) == rows && Stored(rows, "w", hooks, [HookFails(false)], 0) == rows;
  }

  lemma {:induction false} RegisteredHooks(
      external: set<Registration>, w: WorkflowId, hooks: seq<Webhook>, outcomes: seq<Outcome>, n: nat, x: Registration)
    requires n <= |hooks| == |outcomes|
    ensures x in Registered(external, w, hooks, outcomes, n) <==>
      x in external || (x.workflow == w && exists i :: 0 <= i < n && outcomes[i].Fine? && hooks[i] == x.webhook)
  {
    if n > 0 {
      RegisteredHooks(external, w, hooks, outcomes, n - 1, x);
      if x == Registration(w, hooks[n - 1]) && outcomes[n - 1].Fine? {
        assert 0 <= n - 1 < n && hooks[n - 1] == x.webhook;
      }
    }
  }

  /**
   * After a failure at `n - 1` and a complete clean-up, the external services hold what they held before without the
   * webhooks of the workflow's active version, and of those just registered exactly the ones that the active version
   * lacks; none, if all that were tried are in it.
   */
  lemma FailureDeregisters(external: set<Registration>, w: WorkflowId, hooks: seq<Webhook>, outcomes: seq<Outcome>,
                           current: seq<Webhook>, n: nat, x: Registration)
    requires n <= |hooks| == |outcomes|
    ensures var left := x in Registered(external, w, hooks, outcomes, n) && !(x.workflow == w && x.webhook in current);
      var leftBefore := x in external && !(x.workflow == w && x.webhook in current);
      var missed := x.workflow == w && x.webhook !in current &&
        exists i :: 0 <= i < n && outcomes[i].Fine? && hooks[i] == x.webhook;
      && (left <==> leftBefore || missed)
      && ((forall i :: 0 <= i < n ==> hooks[i] in current) ==> (left <==> leftBefore))
  {
    RegisteredHooks(external, w, hooks, outcomes, n, x);
  }
}
