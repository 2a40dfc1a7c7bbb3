/**
 * Repairing the credentials that the nodes of a workflow refer to, with one cache by name and one by id
 * (`replaceInvalidCredentials` in packages/cli/src/workflow-helpers.ts).
 */
module CredentialRepair {
  import opened Wrappers

  /** A node's credential of some type: missing, managed by the gateway, an old-style bare name, or an id and a name. */
  datatype Credential = Absent | Managed | Bare(bareName: string) | Ref(id: Option<string>, name: string)

  datatype Slot = Slot(kind: string, credential: Credential)

  datatype Node = Node(disabled: bool, slots: seq<Slot>)

  datatype Record = Record(id: string, name: string, kind: string, projects: set<string>)

  // ---------- The database ----------

  predicate UniqueIds(db: seq<Record>) {
    forall i, j :: 0 <= i < j < |db| ==> db[i].id != db[j].id
  }

  function FindById(db: seq<Record>, id: string, kind: string): (found: Option<Record>) {
    if db == [] then None
    else if db[0].id == id && db[0].kind == kind then Some(db[0])
    else FindById(db[1..], id, kind)
  }

  function FindByName(db: seq<Record>, name: string, kind: string, project: string): (found: seq<Record>) {
    if db == [] then []
    else (if db[0].name == name && db[0].kind == kind && project in db[0].projects then [db[0]] else [])
         + FindByName(db[1..], name, kind, project)
  }

  /** The only record with that name and type in the project, if there is exactly one. */
  function OnlyNamed(db: seq<Record>, project: string, kind: string, name: string): (found: Option<Record>) {
    var all := FindByName(db, name, kind, project);
    if |all| == 1 then Some(all[0]) else None
  }

  /** The lookup by id finds a record with that id and type if there is one. */
  lemma {:induction false} FindByIdFinds(db: seq<Record>, id: string, kind: string)
    ensures match FindById(db, id, kind)
      case Some(x) => x in db && x.id == id && x.kind == kind
      case None => forall x :: x in db && x.kind == kind ==> x.id != id
  {
    if db != [] {
      FindByIdFinds(db[1..], id, kind);
      forall x | x in db ensures x == db[0] || x in db[1..] {}
    }
  }

  /** The lookup by name finds the records with that name and type that the project may use. */
  lemma {:induction false} FindByNameFinds(db: seq<Record>, name: string, kind: string, project: string)
    ensures forall x :: x in FindByName(db, name, kind, project) <==>
      x in db && x.name == name && x.kind == kind && project in x.projects
  {
    if db != [] {
      FindByNameFinds(db[1..], name, kind, project);
      forall x ensures x in db <==> x == db[0] || x in db[1..] {}
    }
  }

  // ---------- Resolving one credential by itself ----------

  function RefTo(x: Record): (c: Credential) {
    Ref(Some(x.id), x.name)
  }

  /** What a credential should become, looked up in the database and nowhere else. */
  function Resolve(db: seq<Record>, project: string, kind: string, c: Credential): (out: Credential) {
    match c
    case Absent => c
    case Managed => c
    case Bare(name) => ResolveName(db, project, kind, name)
    case Ref(None, name) => ResolveName(db, project, kind, name)
    case Ref(Some(id), name) =>
      match FindById(db, id, kind)
      case Some(x) => RefTo(x)
      case None =>
        if OnlyNamed(db, project, kind, name).Some? then RefTo(OnlyNamed(db, project, kind, name).value)
          else c
  }

  function ResolveName(db: seq<Record>, project: string, kind: string, name: string): (out: Credential) {
    if OnlyNamed(db, project, kind, name).Some? then RefTo(OnlyNamed(db, project, kind, name).value)
    else Ref(None, name)
  }

  /** A bare name reads as a reference without id. */
  function Reading(c: Credential): (r: Credential) {
    if c.Bare? then Ref(None, c.bareName) else c
  }

  // ---------- Walking along a list with a state ----------

  /** The state after a list. */
  function After<E, S>(next: (E, S) -> E, e: E, list: seq<S>): (out: E) {
    if list == [] then e else next(After(next, e, list[..|list| - 1]), list[|list| - 1])
  }

  /** Every element of one list is right for its counterpart, given the state before it. */
  ghost predicate AllAlong<E, S>(next: (E, S) -> E, right: (E, S, S) -> bool, e: E, was: seq<S>, now: seq<S>) {
    && |was| == |now|
    && (was != [] ==>
      var n := |was| - 1;
      AllAlong(next, right, e, was[..n], now[..n]) && right(After(next, e, was[..n]), was[n], now[n]))
  }

  lemma AlongOne<E, S>(next: (E, S) -> E, right: (E, S, S) -> bool, e: E, list: seq<S>, j: nat, done: seq<S>, x: S)
    requires j < |list| && AllAlong(next, right, e, list[..j], done) && right(After(next, e, list[..j]), list[j], x)
    ensures AllAlong(next, right, e, list[..j + 1], done + [x])
    ensures After(next, e, list[..j + 1]) == next(After(next, e, list[..j]), list[j])
  {
    assert list[..j + 1][..j] == list[..j] && (done + [x])[..j] == done;
  }

  lemma {:induction false} AlongAppend<E, S>(next: (E, S) -> E, right: (E, S, S) -> bool, e: E,
                                             a: seq<S>, a': seq<S>, b: seq<S>, b': seq<S>)
    requires AllAlong(next, right, e, a, a') && AllAlong(next, right, After(next, e, a), b, b')
    ensures AllAlong(next, right, e, a + b, a' + b') && After(next, e, a + b) == After(next, After(next, e, a), b)
  {
    if b == [] {
      assert a + b == a && a' + b' == a';
    } else {
      var m, n := |b| - 1, |a + b| - 1;
      AlongAppend(next, right, e, a, a', b[..m], b'[..m]);
      assert (a + b)[..n] == a + b[..m] && (a' + b')[..n] == a' + b'[..m];
    }
  }

  lemma {:induction false} AlongAt<E, S>(
      next: (E, S) -> E, right: (E, S, S) -> bool, e: E, was: seq<S>, now: seq<S>, k: nat)
    requires AllAlong(next, right, e, was, now) && k < |was|
    ensures right(After(next, e, was[..k]), was[k], now[k])
  {
    var n := |was| - 1;
    if k < n {
      AlongAt(next, right, e, was[..n], now[..n], k);
      assert was[..n][..k] == was[..k];
    }
  }

  // ---------- Resolving with the caches ----------

  /** A credential type and an id, or a type and a name. */
  type Key = (string, string)

  type Cache = map<Key, Credential>

  /** The slot has an id that is not in the database. */
  predicate IsUnknownId(db: seq<Record>, s: Slot) {
    s.credential.Ref? && s.credential.id.Some? && FindById(db, s.credential.id.value, s.kind).None?
  }

  function IdKey(s: Slot): (key: Key)
    requires s.credential.Ref? && s.credential.id.Some?
  {
    (s.kind, s.credential.id.value)
  }

  /** The slot refers to an id that is not in the database, and its name does not help either. */
  predicate IsDeadEnd(db: seq<Record>, project: string, s: Slot) {
    IsUnknownId(db, s) && OnlyNamed(db, project, s.kind, s.credential.name).None?
  }

  /** The first dead end for each type and id, after one more slot. */
  function EndsAfter(db: seq<Record>, project: string, ends: Cache, s: Slot): (out: Cache) {
    if IsDeadEnd(db, project, s) && IdKey(s) !in ends then ends[IdKey(s) := s.credential] else ends
  }

  function EndsAfterAll(db: seq<Record>, project: string, ends: Cache, slots: seq<Slot>): (out: Cache) {
    After(Next(db, project), ends, slots)
  }

  function Next(db: seq<Record>, project: string): (next: (Cache, Slot) -> Cache) {
    (ends, s) => EndsAfter(db, project, ends, s)
  }

  /** What the code makes of a slot when `ends` are the first dead ends before it: one with the same id is copied. */
  function Repaired(db: seq<Record>, project: string, ends: Cache, s: Slot): (out: Credential) {
    if IsUnknownId(db, s) && IdKey(s) in ends then ends[IdKey(s)] else Resolve(db, project, s.kind, s.credential)
  }

  ghost predicate IsRepaired(db: seq<Record>, project: string, ends: Cache, w: Slot, n: Slot) {
    && n.kind == w.kind && Reading(n.credential) == Reading(Repaired(db, project, ends, w))
    && (w.credential.Absent? || w.credential.Managed? ==> n == w)
  }

  ghost predicate NameCacheValid(db: seq<Record>, project: string, byName: Cache) {
    forall kind, name :: (kind, name) in byName ==> byName[(kind, name)] == ResolveName(db, project, kind, name)
  }

  /** An id in the cache is in the database under the cached name, or is the first dead end seen with it. */
  ghost predicate IdCacheValid(db: seq<Record>, ends: Cache, byId: Cache) {
    && (forall kind, id :: (kind, id) in byId ==>
      match FindById(db, id, kind)
      case Some(x) => byId[(kind, id)] == RefTo(x)
      case None => (kind, id) in ends && byId[(kind, id)] == ends[(kind, id)])
    && (forall key :: key in ends ==> key in byId)
  }

  /** The body of the inner loop. */
  method RepairSlot(db: seq<Record>, project: string, s: Slot, byName: Cache, byId: Cache, ghost ends: Cache)
      returns (out: Credential, byName': Cache, byId': Cache)
    requires UniqueIds(db) && NameCacheValid(db, project, byName) && IdCacheValid(db, ends, byId)
    ensures IsRepaired(db, project, ends, s, Slot(s.kind, out))
    ensures NameCacheValid(db, project, byName') && IdCacheValid(db, EndsAfter(db, project, ends, s), byId')
  {
    out, byName', byId' := s.credential, byName, byId;
    if s.credential.Absent? || s.credential.Managed? { return; }
    if s.credential.Bare? || s.credential.id.None? {
      out, byName' := RepairName(db, project, s, byName);
      return;
    }
    out, byId' := RepairRef(db, project, s, byId, ends);
  }

  /**
   * The part of the loop body for a credential without an id. A name that leads nowhere leaves its credential alone the
   * first time; after that the credential becomes a reference without id.
   */
  method RepairName(db: seq<Record>, project: string, s: Slot, byName: Cache) returns (out: Credential, byName': Cache)
    requires NameCacheValid(db, project, byName) && (s.credential.Bare? || (s.credential.Ref? && s.credential.id.None?))
    ensures var key := (s.kind, NameOf(s.credential));
      && byName'.Keys == byName.Keys + {key} && NameCacheValid(db, project, byName')
      && out == (if key !in byName && byName'[key].id.None? then s.credential else byName'[key])
  {
    out, byName' := s.credential, byName;
    var name := if s.credential.Bare? then s.credential.bareName else s.credential.name;
    if (s.kind, name) !in byName {
      var found := FindByName(db, name, s.kind, project);
      if |found| == 1 {
        byName' := byName[(s.kind, name) := Ref(Some(found[0].id), found[0].name)];
        out := byName'[(s.kind, name)];
        return;
      }
      byName' := byName[(s.kind, name) := Ref(None, name)];
    } else {
      out := byName[(s.kind, name)];
    }
  }

  function NameOf(c: Credential): (name: string)
    requires c.Bare? || c.Ref?
  {
    if c.Bare? then c.bareName else c.name
  }

  /** The part of the loop body for a credential with an id. */
  method RepairRef(db: seq<Record>, project: string, s: Slot, byId: Cache, ghost ends: Cache)
      returns (out: Credential, byId': Cache)
    requires UniqueIds(db) && IdCacheValid(db, ends, byId) && s.credential.Ref? && s.credential.id.Some?
    ensures out == Repaired(db, project, ends, s)
    ensures IdCacheValid(db, EndsAfter(db, project, ends, s), byId')
  {
    out, byId' := s.credential, byId;
    var id, name := s.credential.id.value, s.credential.name;
    if (s.kind, id) !in byId {
      var record := FindById(db, id, s.kind);
      if record.Some? {
        FindByIdFinds(db, id, s.kind);
        byId' := byId[(s.kind, id) := Ref(Some(record.value.id), record.value.name)];
        out := byId'[(s.kind, id)];
        return;
      }
      var named := FindByName(db, name, s.kind, project);
      if |named| == 1 {
        FindByNameFinds(db, name, s.kind, project);
        assert named[0] in named;
        NamedIsFoundById(db, named[0]);
        byId' := byId[(s.kind, named[0].id) := Ref(Some(named[0].id), named[0].name)];
        out := byId'[(s.kind, named[0].id)];
        return;
      }
      byId' := byId[(s.kind, id) := s.credential];
      return;
    }
    out := byId[(s.kind, id)];
  }

  lemma {:induction false} NamedIsFoundById(db: seq<Record>, x: Record)
    requires UniqueIds(db) && x in db
    ensures FindById(db, x.id, x.kind) == Some(x)
  {
    if db[0] != x {
      NamedIsFoundById(db[1..], x);
    }
  }

  // ---------- All nodes ----------

  /** The slots that are looked at, in order: disabled nodes are passed over. */
  function Visited(nodes: seq<Node>): (slots: seq<Slot>) {
    if nodes == [] then []
    else Visited(nodes[..|nodes| - 1]) + (if nodes[|nodes| - 1].disabled then [] else nodes[|nodes| - 1].slots)
  }

  /** Every slot is repaired in the light of the dead ends before it. */
  ghost predicate AllRepaired(db: seq<Record>, project: string, ends: Cache, was: seq<Slot>, now: seq<Slot>) {
    AllAlong(Next(db, project), Right(db, project), ends, was, now)
  }

  ghost function Right(db: seq<Record>, project: string): (right: (Cache, Slot, Slot) -> bool) {
    (ends, w, n) => IsRepaired(db, project, ends, w, n)
  }

  method RepairNode(db: seq<Record>, project: string, n: Node, byName: Cache, byId: Cache, ghost ends: Cache)
      returns (n': Node, byName': Cache, byId': Cache)
    requires UniqueIds(db) && NameCacheValid(db, project, byName) && IdCacheValid(db, ends, byId)
    ensures n'.disabled == n.disabled && AllRepaired(db, project, ends, n.slots, n'.slots)
    ensures NameCacheValid(db, project, byName') && IdCacheValid(db, EndsAfterAll(db, project, ends, n.slots), byId')
  {
    n', byName', byId' := n, byName, byId;
    ghost var done: seq<Slot>, sofar: Cache := [], ends;
    for j := 0 to |n.slots|
      invariant n' == Node(n.disabled, done + n.slots[j..]) && |done| == j
      invariant SlotsSoFar(db, project, ends, n.slots[..j], done, sofar)
      invariant NameCacheValid(db, project, byName') && IdCacheValid(db, sofar, byId')
    {
      var out;
      out, byName', byId' := RepairSlot(db, project, n.slots[j], byName', byId', sofar);
      var slot := Slot(n.slots[j].kind, out);
      SlotStep(db, project, ends, n.slots, j, done, sofar, slot);
      n' := n'.(slots := n'.slots[j := slot]);
      done, sofar := done + [slot], EndsAfter(db, project, sofar, n.slots[j]);
    }
    assert n.slots[..|n.slots|] == n.slots && n'.slots == done;
  }

  /** What holds after some slots, which have left the dead ends `sofar` behind. */
  ghost predicate SlotsSoFar(db: seq<Record>, project: string, ends: Cache,
                           was: seq<Slot>, done: seq<Slot>, sofar: Cache) {
    AllRepaired(db, project, ends, was, done) && sofar == EndsAfterAll(db, project, ends, was)
  }

  lemma SlotStep(db: seq<Record>, project: string, ends: Cache,
                 slots: seq<Slot>, j: nat, done: seq<Slot>, sofar: Cache, x: Slot)
    requires j < |slots| && |done| == j && SlotsSoFar(db, project, ends, slots[..j], done, sofar)
    requires IsRepaired(db, project, sofar, slots[j], x)
    ensures SlotsSoFar(db, project, ends, slots[..j + 1], done + [x], EndsAfter(db, project, sofar, slots[j]))
    ensures (done + slots[j..])[j := x] == done + [x] + slots[j + 1..]
  {
    AlongOne(Next(db, project), Right(db, project), ends, slots, j, done, x);
  }

  /** `replaceInvalidCredentials`, on the nodes where they lie. */
  method ReplaceInvalidCredentials(nodes: array<Node>, db: seq<Record>, project: string)
    requires UniqueIds(db)
    modifies nodes
    ensures SameShape(old(nodes[..]), nodes[..])
    ensures AllRepaired(db, project, map[], Visited(old(nodes[..])), Visited(nodes[..]))
  {
    var byName: Cache, byId: Cache := map[], map[];
    ghost var was := nodes[..];
    ghost var done: seq<Node>, done': seq<Node>, ends: Cache := [], [], map[];
    for i := 0 to nodes.Length
      invariant forall k :: i <= k < nodes.Length ==> nodes[k] == was[k]
      invariant done == was[..i] && done' == nodes[..i]
      invariant SoFar(db, project, done, done', ends)
      invariant NameCacheValid(db, project, byName) && IdCacheValid(db, ends, byId)
    {
      ghost var before := ends;
      if !nodes[i].disabled {
        var n;
        n, byName, byId := RepairNode(db, project, nodes[i], byName, byId, ends);
        nodes[i] := n;
        ends := EndsAfterAll(db, project, ends, was[i].slots);
      }
      NodeStep(db, project, done, done', before, was[i], nodes[i]);
      done, done' := done + [was[i]], done' + [nodes[i]];
    }
    assert done == was && done' == nodes[..];
  }

  /** What holds after the first few nodes, which have left the dead ends `ends` behind. */
  ghost predicate SoFar(db: seq<Record>, project: string, done: seq<Node>, done': seq<Node>, ends: Cache) {
    && SameShape(done, done')
    && AllRepaired(db, project, map[], Visited(done), Visited(done'))
    && ends == EndsAfterAll(db, project, map[], Visited(done))
  }

  /** Disabled nodes are untouched, and no node loses or gains a credential. */
  ghost predicate SameShape(was: seq<Node>, now: seq<Node>) {
    && |was| == |now|
    && forall i :: 0 <= i < |was| ==>
      && now[i].disabled == was[i].disabled && |now[i].slots| == |was[i].slots|
      && (was[i].disabled ==> now[i] == was[i])
  }

  lemma NodeStep(db: seq<Record>, project: string, done: seq<Node>, done': seq<Node>, ends: Cache, n: Node, n': Node)
    requires SoFar(db, project, done, done', ends) && n'.disabled == n.disabled
    requires if n.disabled then n' == n else AllRepaired(db, project, ends, n.slots, n'.slots)
    ensures SoFar(db, project, done + [n], done' + [n'],
                  if n.disabled then ends else EndsAfterAll(db, project, ends, n.slots))
  {
    assert (done + [n])[..|done|] == done && (done' + [n'])[..|done'|] == done';
    assert Visited(done) + [] == Visited(done) && Visited(done') + [] == Visited(done');
    if !n.disabled {
      AlongAppend(Next(db, project), Right(db, project), map[], Visited(done), Visited(done'), n.slots, n'.slots);
    }
  }

  // ---------- When the caches make no difference ----------

  ghost predicate SameId(a: Slot, b: Slot) {
    a.kind == b.kind && a.credential.Ref? && b.credential.Ref? && a.credential.id == b.credential.id
  }

  /** Dead ends with the same type and id are referred to by one name. */
  ghost predicate DeadEndsAgree(db: seq<Record>, project: string, slots: seq<Slot>) {
    forall i, j :: 0 <= i < j < |slots| && IsDeadEnd(db, project, slots[i]) && SameId(slots[i], slots[j]) ==>
      slots[i].credential.name == slots[j].credential.name
  }

  ghost predicate CachesInvisible(db: seq<Record>, project: string, slots: seq<Slot>) {
    forall k :: 0 <= k < |slots| ==>
      Repaired(db, project, EndsAfterAll(db, project, map[], slots[..k]), slots[k])
      == Resolve(db, project, slots[k].kind, slots[k].credential)
  }

  /** Slot `i` is a dead end with that key, and none before it is. */
  ghost predicate IsFirst(db: seq<Record>, project: string, slots: seq<Slot>, i: nat, key: Key)
    requires i < |slots|
  {
    IsDeadEnd(db, project, slots[i]) && IdKey(slots[i]) == key && key !in EndsAfterAll(db, project, map[], slots[..i])
  }

  /** A recorded dead end is the first one with its key. */
  lemma {:induction false} WhichEnd(db: seq<Record>, project: string, slots: seq<Slot>, k: nat, key: Key)
      returns (i: nat)
    requires k <= |slots| && key in EndsAfterAll(db, project, map[], slots[..k])
    ensures i < k && IsFirst(db, project, slots, i, key)
    ensures EndsAfterAll(db, project, map[], slots[..k])[key] == slots[i].credential
  {
    assert k > 0 && slots[..k][..k - 1] == slots[..k - 1];
    if key in EndsAfterAll(db, project, map[], slots[..k - 1]) {
      i := WhichEnd(db, project, slots, k - 1, key);
    } else {
      i := k - 1;
    }
  }

  /** Every dead end is recorded, or an earlier one with its key. */
  lemma {:induction false} EndsAreRecorded(db: seq<Record>, project: string, slots: seq<Slot>, k: nat, i: nat)
    requires i < k <= |slots| && IsDeadEnd(db, project, slots[i])
    ensures IdKey(slots[i]) in EndsAfterAll(db, project, map[], slots[..k])
  {
    assert slots[..k][..k - 1] == slots[..k - 1];
    if i < k - 1 {
      EndsAreRecorded(db, project, slots, k - 1, i);
    }
  }

  /** Every credential comes out as if it had been looked up by itself, exactly if the dead ends agree on names. */
  lemma CachesInvisibleExactly(db: seq<Record>, project: string, slots: seq<Slot>)
    ensures CachesInvisible(db, project, slots) <==> DeadEndsAgree(db, project, slots)
  {
    if DeadEndsAgree(db, project, slots) {
      forall k | 0 <= k < |slots|
        ensures Repaired(db, project, EndsAfterAll(db, project, map[], slots[..k]), slots[k])
             == Resolve(db, project, slots[k].kind, slots[k].credential)
      {
        if IsUnknownId(db, slots[k]) && IdKey(slots[k]) in EndsAfterAll(db, project, map[], slots[..k]) {
          var i := WhichEnd(db, project, slots, k, IdKey(slots[k]));
          assert SameId(slots[i], slots[k]);
        }
      }
    } else {
      var i, j :| 0 <= i < j < |slots| && IsDeadEnd(db, project, slots[i]) && SameId(slots[i], slots[j]) &&
        slots[i].credential.name != slots[j].credential.name;
      DifferentNameShows(db, project, slots, i, j);
    }
  }

  lemma UnknownKeepsName(db: seq<Record>, project: string, s: Slot)
    requires IsUnknownId(db, s)
    ensures Resolve(db, project, s.kind, s.credential).Ref?
    ensures Resolve(db, project, s.kind, s.credential).name == s.credential.name
  {
    FindByNameFinds(db, s.credential.name, s.kind, project);
    var named := FindByName(db, s.credential.name, s.kind, project);
    assert |named| == 1 ==> named[0] in named;
  }

  /** Of two slots with the same dead-end id and different names, at least one comes out differently. */
  lemma DifferentNameShows(db: seq<Record>, project: string, slots: seq<Slot>, i: nat, j: nat)
    requires i < j < |slots| && IsDeadEnd(db, project, slots[i]) && SameId(slots[i], slots[j])
    requires slots[i].credential.name != slots[j].credential.name
    ensures !CachesInvisible(db, project, slots)
  {
    EndsAreRecorded(db, project, slots, j, i);
    var first := WhichEnd(db, project, slots, j, IdKey(slots[i]));
    UnknownKeepsName(db, project, slots[j]);
    assert Repaired(db, project, EndsAfterAll(db, project, map[], slots[..j]), slots[j]) == slots[first].credential;
    // slot j is given the name of the first dead end; if that happens to be its own, slot i differs from it
    if slots[first].credential.name == slots[j].credential.name {
      FirstIsCopied(db, project, slots, first, i);
    }
  }

  /** Whatever comes after the first dead end with an id is given its credential. */
  lemma FirstIsCopied(db: seq<Record>, project: string, slots: seq<Slot>, first: nat, i: nat)
    requires first < |slots| && i < |slots| && first != i
    requires IsDeadEnd(db, project, slots[i]) && IsFirst(db, project, slots, first, IdKey(slots[i]))
    ensures Repaired(db, project, EndsAfterAll(db, project, map[], slots[..i]), slots[i]) == slots[first].credential
  {
    if i < first {
      EndsAreRecorded(db, project, slots, first, i);
      assert false;
    }
    EndsKeep(db, project, slots, first, i);
  }

  lemma {:induction false} EndsKeep(db: seq<Record>, project: string, slots: seq<Slot>, first: nat, i: nat)
    requires first < i <= |slots| && IsDeadEnd(db, project, slots[first])
    requires IdKey(slots[first]) !in EndsAfterAll(db, project, map[], slots[..first])
    ensures var ends := EndsAfterAll(db, project, map[], slots[..i]);
      IdKey(slots[first]) in ends && ends[IdKey(slots[first])] == slots[first].credential
    decreases i
  {
    var before := EndsAfterAll(db, project, map[], slots[..i - 1]);
    assert slots[..i][..i - 1] == slots[..i - 1] && slots[..i][i - 1] == slots[i - 1];
    assert EndsAfterAll(db, project, map[], slots[..i]) == EndsAfter(db, project, before, slots[i - 1]);
    if first < i - 1 {
      EndsKeep(db, project, slots, first, i - 1);
    }
  }

  /** What the code leaves behind in one slot reads as the repaired credential. */
  lemma RepairedReads(db: seq<Record>, project: string, was: seq<Slot>, now: seq<Slot>, k: nat)
    requires AllRepaired(db, project, map[], was, now) && k < |was|
    ensures Reading(now[k].credential) == Repaired(db, project, EndsAfterAll(db, project, map[], was[..k]), was[k])
  {
    AlongAt(Next(db, project), Right(db, project), map[], was, now, k);
    if IsUnknownId(db, was[k]) && IdKey(was[k]) in EndsAfterAll(db, project, map[], was[..k]) {
      var i := WhichEnd(db, project, was, k, IdKey(was[k]));
    } else {
      ResolvedIsNotBare(db, project, was[k]);
    }
  }

  lemma ResolvedIsNotBare(db: seq<Record>, project: string, s: Slot)
    ensures !Resolve(db, project, s.kind, s.credential).Bare?
  {
  }

  /** What the code leaves behind is what independent lookups give, exactly if the dead ends agree. */
  lemma RepairedIndependentlyExactly(db: seq<Record>, project: string, was: seq<Slot>, now: seq<Slot>)
    requires AllRepaired(db, project, map[], was, now)
    ensures |now| == |was|
    ensures (forall k :: 0 <= k < |was| ==>
              Reading(now[k].credential) == Resolve(db, project, was[k].kind, was[k].credential))
      <==> DeadEndsAgree(db, project, was)
  {
    CachesInvisibleExactly(db, project, was);
    if DeadEndsAgree(db, project, was) {
      forall k | 0 <= k < |was|
        ensures Reading(now[k].credential) == Resolve(db, project, was[k].kind, was[k].credential)
      {
        RepairedReads(db, project, was, now, k);
      }
    } else {
      var k :| 0 <= k < |was| && Repaired(db, project, EndsAfterAll(db, project, map[], was[..k]), was[k])
                                 != Resolve(db, project, was[k].kind, was[k].credential);
      RepairedReads(db, project, was, now, k);
    }
  }

  /** Without records, a credential with an id is a dead end and its own lookup leaves it alone. */
  lemma NothingIsFound(kind: string, id: string, name: string)
    ensures var s := Slot(kind, Ref(Some(id), name));
      IsDeadEnd([], "p", s) && Resolve([], "p", kind, s.credential) == s.credential
  {
    assert FindById([], id, kind) == None && FindByName([], name, kind, "p") == [];
  }

  /** Without records, the second of two credentials with one id and two names is given the name of the first. */
  lemma SecondNameIsReplaced(kind: string, id: string, first: string, second: string)
    requires first != second
    ensures var a, b := Slot(kind, Ref(Some(id), first)), Slot(kind, Ref(Some(id), second));
      AllRepaired([], "p", map[], [a, b], [a, a]) &&
      Resolve([], "p", kind, b.credential) == b.credential != a.credential
  {
    var a, b := Slot(kind, Ref(Some(id), first)), Slot(kind, Ref(Some(id), second));
    NothingIsFound(kind, id, first);
    NothingIsFound(kind, id, second);
    assert [a, b][..0] == [] && [a, b][..1] == [a] && [a, b][..2] == [a, b];
    assert [] + [a] == [a] && [a] + [a] == [a, a];
    AlongOne(Next([], "p"), Right([], "p"), map[], [a, b], 0, [], a);
    AlongOne(Next([], "p"), Right([], "p"), map[], [a, b], 1, [a], a);
  }

  // ---------- A second run changes nothing ----------

  /** The record that a credential leads to is found again by its id. */
  lemma RecordFoundAgain(db: seq<Record>, project: string, w: Slot)
    requires UniqueIds(db)
    ensures var out := Resolve(db, project, w.kind, w.credential);
      out.Ref? && out.id.Some? ==>
        || (FindById(db, out.id.value, w.kind).Some? && out == RefTo(FindById(db, out.id.value, w.kind).value))
        || out == w.credential
  {
    var c := w.credential;
    var name := if c.Bare? then c.bareName else if c.Ref? then c.name else "";
    var named := FindByName(db, name, w.kind, project);
    FindByNameFinds(db, name, w.kind, project);
    if |named| == 1 {
      assert named[0] in named;
      NamedIsFoundById(db, named[0]);
    }
    if c.Ref? && c.id.Some? && FindById(db, c.id.value, w.kind).Some? {
      FindByIdFinds(db, c.id.value, w.kind);
      NamedIsFoundById(db, FindById(db, c.id.value, w.kind).value);
    }
  }

  ghost predicate EndsValid(db: seq<Record>, project: string, ends: Cache) {
    forall key :: key in ends ==> var s := Slot(key.0, ends[key]); IsDeadEnd(db, project, s) && IdKey(s) == key
  }

  /** A repaired slot leaves the same dead end behind as the original, and stays as it is when repaired again. */
  lemma RepairedStays(db: seq<Record>, project: string, ends: Cache, w: Slot, n: Slot, m: Slot)
    requires UniqueIds(db) && EndsValid(db, project, ends)
    requires IsRepaired(db, project, ends, w, n) && IsRepaired(db, project, ends, n, m)
    ensures EndsAfter(db, project, ends, n) == EndsAfter(db, project, ends, w)
    ensures EndsValid(db, project, EndsAfter(db, project, ends, w))
    ensures Reading(m.credential) == Reading(n.credential)
  {
    RecordFoundAgain(db, project, w);
  }

  /** Run on its own result, the repair changes nothing, whether or not the dead ends agreed. */
  lemma {:induction false} SecondRunChangesNothing(
      db: seq<Record>, project: string, was: seq<Slot>, now: seq<Slot>, again: seq<Slot>)
    requires UniqueIds(db)
    requires AllRepaired(db, project, map[], was, now) && AllRepaired(db, project, map[], now, again)
    ensures |again| == |now| == |was|
    ensures forall k :: 0 <= k < |was| ==> Reading(again[k].credential) == Reading(now[k].credential)
    ensures EndsAfterAll(db, project, map[], was) == EndsAfterAll(db, project, map[], now)
    ensures EndsValid(db, project, EndsAfterAll(db, project, map[], was))
  {
    if was != [] {
      var n := |was| - 1;
      SecondRunChangesNothing(db, project, was[..n], now[..n], again[..n]);
      RepairedStays(db, project, EndsAfterAll(db, project, map[], was[..n]), was[n], now[n], again[n]);
      forall k | 0 <= k < |was| ensures Reading(again[k].credential) == Reading(now[k].credential) {
        assert k < n ==> again[..n][k] == again[k] && now[..n][k] == now[k];
      }
    }
  }
}
