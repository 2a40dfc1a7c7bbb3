/**
 * What repairing a credential means for the user: which record it leads to, slot by slot and node by node
 * (`replaceInvalidCredentials` in packages/cli/src/workflow-helpers.ts).
 */
module CredentialLookup {
  import opened CredentialRepair
  import opened Wrappers

  // ---------- The record that is meant ----------

  /** A credential of that type and name that the project may use. */
  predicate IsMatch(x: Record, project: string, kind: string, name: string) {
    x.name == name && x.kind == kind && project in x.projects
  }

  /** The record at the index is the only match. */
  predicate IsOnlyMatch(db: seq<Record>, project: string, kind: string, name: string, i: nat) {
    && i < |db| && IsMatch(db[i], project, kind, name)
    && forall j :: 0 <= j < |db| && IsMatch(db[j], project, kind, name) ==> j == i
  }

  ghost predicate HasOnlyMatch(db: seq<Record>, project: string, kind: string, name: string) {
    exists i: nat :: IsOnlyMatch(db, project, kind, name, i)
  }

  lemma NoMatchExactly(db: seq<Record>, project: string, kind: string, name: string)
    ensures FindByName(db, name, kind, project) == [] <==>
      forall j :: 0 <= j < |db| ==> !IsMatch(db[j], project, kind, name)
  {
    FindByNameFinds(db, name, kind, project);
    var found := FindByName(db, name, kind, project);
    if found != [] {
      assert found[0] in found && found[0] in db;
    } else {
      forall j | 0 <= j < |db| ensures !IsMatch(db[j], project, kind, name) {
        assert db[j] !in found;
      }
    }
  }

  /** The lookup by name answers with a record exactly if that is the only match: not if there are several. */
  lemma {:induction false} OnlyNamedExactly(db: seq<Record>, project: string, kind: string, name: string)
    ensures OnlyNamed(db, project, kind, name).Some? <==> HasOnlyMatch(db, project, kind, name)
    ensures forall i: nat :: IsOnlyMatch(db, project, kind, name, i) ==>
      OnlyNamed(db, project, kind, name) == Some(db[i])
  {
    if db != [] {
      var rest := db[1..];
      OnlyNamedExactly(rest, project, kind, name);
      NoMatchExactly(rest, project, kind, name);
      if IsMatch(db[0], project, kind, name) {
        if FindByName(rest, name, kind, project) == [] {
          assert FindByName(db, name, kind, project) == [db[0]];
          forall j | 0 < j < |db| ensures !IsMatch(db[j], project, kind, name) {
            assert db[j] == rest[j - 1];
          }
          assert IsOnlyMatch(db, project, kind, name, 0);
        } else {
          var j :| 0 <= j < |rest| && IsMatch(rest[j], project, kind, name);
          assert db[j + 1] == rest[j];
        }
      } else {
        OnlyMatchInRest(db, project, kind, name);
      }
    }
  }

  lemma OnlyMatchInRest(db: seq<Record>, project: string, kind: string, name: string)
    requires db != [] && !IsMatch(db[0], project, kind, name)
    ensures forall i: nat ::
      IsOnlyMatch(db[1..], project, kind, name, i) <==> IsOnlyMatch(db, project, kind, name, i + 1)
    ensures !IsOnlyMatch(db, project, kind, name, 0)
    ensures HasOnlyMatch(db[1..], project, kind, name) <==> HasOnlyMatch(db, project, kind, name)
    ensures FindByName(db, name, kind, project) == FindByName(db[1..], name, kind, project)
  {
    var rest := db[1..];
    forall i: nat ensures IsOnlyMatch(rest, project, kind, name, i) <==> IsOnlyMatch(db, project, kind, name, i + 1) {
      forall j | 0 < j < |db| ensures db[j] == rest[j - 1] {}
      if IsOnlyMatch(db, project, kind, name, i + 1) {
        forall j | 0 <= j < |rest| && IsMatch(rest[j], project, kind, name)
          ensures j == i { assert db[j + 1] == rest[j]; }
      }
    }
    if HasOnlyMatch(db, project, kind, name) {
      var i: nat :| IsOnlyMatch(db, project, kind, name, i);
      assert IsOnlyMatch(rest, project, kind, name, i - 1);
    }
  }

  /** A name that two records share leads to neither. */
  lemma SharedNameLeadsNowhere(db: seq<Record>, project: string, kind: string, name: string, i: nat, j: nat)
    requires i < j < |db| && IsMatch(db[i], project, kind, name) && IsMatch(db[j], project, kind, name)
    ensures Resolve(db, project, kind, Bare(name)) == Ref(None, name)
    ensures Resolve(db, project, kind, Ref(None, name)) == Ref(None, name)
    ensures forall id :: FindById(db, id, kind).None? ==>
      Resolve(db, project, kind, Ref(Some(id), name)) == Ref(Some(id), name)
  {
    OnlyNamedExactly(db, project, kind, name);
    forall k: nat ensures !IsOnlyMatch(db, project, kind, name, k) {
      assert IsOnlyMatch(db, project, kind, name, k) ==> i == k == j;
    }
  }

  /** Some record has the id and type; ids being unique, it is at that index. */
  predicate HasId(db: seq<Record>, kind: string, id: string, i: nat) {
    i < |db| && db[i].id == id && db[i].kind == kind
  }

  /**
   * A credential whose id is known gets the name of that record; one whose id is not known, or that has none, gets id
   * and name of the only record with its name, if there is only one, and is otherwise left as it reads.
   */
  lemma ResolveLeadsTo(db: seq<Record>, project: string, kind: string, c: Credential, i: nat)
    requires UniqueIds(db)
    ensures c.Absent? || c.Managed? ==> Resolve(db, project, kind, c) == c
    ensures c.Ref? && c.id.Some? && HasId(db, kind, c.id.value, i) ==>
      Resolve(db, project, kind, c) == Ref(c.id, db[i].name)
    ensures var r := Reading(c);
      r.Ref? && (r.id.None? || forall j: nat :: !HasId(db, kind, r.id.value, j)) ==>
        && (IsOnlyMatch(db, project, kind, r.name, i) ==>
          Resolve(db, project, kind, c) == Ref(Some(db[i].id), db[i].name))
        && (!HasOnlyMatch(db, project, kind, r.name) ==> Resolve(db, project, kind, c) == r)
  {
    var r := Reading(c);
    if r.Ref? {
      OnlyNamedExactly(db, project, kind, r.name);
      if r.id.Some? {
        FindByIdFinds(db, r.id.value, kind);
        if HasId(db, kind, r.id.value, i) {
          NamedIsFoundById(db, db[i]);
        } else if x :| FindById(db, r.id.value, kind) == Some(x) {
          var j: nat :| j < |db| && db[j] == x;
          assert HasId(db, kind, r.id.value, j);
        }
      }
    }
  }

  // ---------- Node by node ----------

  /** Where the slots of the node are in the order of the pass. */
  function Offset(nodes: seq<Node>, i: nat): (n: nat)
    requires i <= |nodes|
  {
    |Visited(nodes[..i])|
  }

  /** Every slot of every enabled node is visited, in order. */
  lemma {:induction false} EverySlotIsVisited(nodes: seq<Node>, i: nat, j: nat)
    requires i < |nodes| && !nodes[i].disabled && j < |nodes[i].slots|
    ensures Offset(nodes, i) + j < |Visited(nodes)| && Visited(nodes)[Offset(nodes, i) + j] == nodes[i].slots[j]
  {
    var front, last := nodes[..|nodes| - 1], nodes[|nodes| - 1];
    assert front[..i] == nodes[..i];
    if i < |nodes| - 1 {
      EverySlotIsVisited(front, i, j);
      assert Offset(front, i) == Offset(nodes, i) && front[i] == nodes[i];
    } else {
      assert nodes[..i] == front;
    }
  }

  lemma {:induction false} SameOffsets(was: seq<Node>, now: seq<Node>, i: nat)
    requires SameShape(was, now) && i <= |was|
    ensures Offset(was, i) == Offset(now, i)
    decreases i
  {
    if i > 0 {
      assert was[..i][..i - 1] == was[..i - 1] && now[..i][..i - 1] == now[..i - 1];
      SameOffsets(was, now, i - 1);
    }
  }

  /**
   * What the pass leaves in the nodes: if dead ends agree on names, every credential of every enabled node is what its
   * own lookup gives, and every disabled node is as it was.
   */
  lemma EveryNodeIsRepaired(db: seq<Record>, project: string, was: seq<Node>, now: seq<Node>, i: nat, j: nat)
    requires SameShape(was, now) && AllRepaired(db, project, map[], Visited(was), Visited(now))
    requires DeadEndsAgree(db, project, Visited(was)) && i < |was| && j < |was[i].slots|
    ensures was[i].disabled ==> now[i] == was[i]
    ensures !was[i].disabled ==>
      && j < |now[i].slots| && now[i].slots[j].kind == was[i].slots[j].kind
      && Reading(now[i].slots[j].credential) == Resolve(db, project, was[i].slots[j].kind, was[i].slots[j].credential)
  {
    if !was[i].disabled {
      EverySlotIsVisited(was, i, j);
      EverySlotIsVisited(now, i, j);
      SameOffsets(was, now, i);
      RepairedIndependentlyExactly(db, project, Visited(was), Visited(now));
      AlongAt(Next(db, project), Right(db, project), map[], Visited(was), Visited(now), Offset(was, i) + j);
    }
  }
}
