/**
 * What the flattened overwrite table stores: which inherited fields are merged into an entry, and how that depends on
 * the order of the keys (`setPlainData` and `getOverwrites` in packages/cli/src/credentials-overwrites.ts).
 */
module StoredOverwrites {
  import opened CredentialTypes
  import opened CredentialsOverwrites
  import opened Wrappers

  // ---------- What one call merges ----------

  /** The fields are exactly those that the table gives the type, own and inherited, each from the nearest type. */
  ghost predicate HoldsAll(r: Registry, rank: TypeName -> nat, table: Table, t: TypeName, f: Fields)
    requires Acyclic(r, rank) && SingleInheritance(r)
  {
    forall key :: Effective(r, rank, table, t, key) == if key in f then Some(f[key]) else None
  }

  /** The type and all its ancestors are known, and none of them has been resolved. */
  ghost predicate LineIsFresh(r: Registry, rank: TypeName -> nat, resolved: seq<TypeName>, t: TypeName)
    requires Acyclic(r, rank) && SingleInheritance(r)
  {
    forall x :: x in [t] + Chain(r, rank, t) ==> x in r && x !in resolved
  }

  function FieldsOf(o: Option<Fields>): (f: Fields) {
    if o.Some? then o.value else map[]
  }

  lemma OneParent(r: Registry, rank: TypeName -> nat, table: Table, resolved: seq<TypeName>, t: TypeName, p: TypeName)
    requires Acyclic(r, rank) && t in r && t !in resolved && Extends(r, t) == [p]
    ensures var (o, marked) := Overwrites(r, rank, table, resolved, p);
      Overwrites(r, rank, table, resolved, t) == (Some(FieldsOf(o) + Entry(table, t)), marked + [t])
  {
    assert p in Extends(r, t);
    var (o, marked) := Overwrites(r, rank, table, resolved, p);
    var merged := if o.Some? then map[] + o.value else map[];
    assert Extends(r, t)[1..] == [] && merged == FieldsOf(o);
    assert MergeParents(r, rank, table, marked, Extends(r, t)[1..], rank(t), merged) == (merged, marked);
  }

  lemma NoParent(r: Registry, rank: TypeName -> nat, table: Table, resolved: seq<TypeName>, t: TypeName)
    requires Acyclic(r, rank) && t in r && t !in resolved && Extends(r, t) == [] && t in table
    ensures Overwrites(r, rank, table, resolved, t) == (Some(table[t]), resolved + [t])
  {
    assert map[] + Entry(table, t) == Entry(table, t);
  }

  /** What a type inherits is merged with its own fields: nothing is missing and nothing is added. */
  lemma {:induction false} OverwritesHoldAll(
      r: Registry, rank: TypeName -> nat, table: Table, resolved: seq<TypeName>, t: TypeName)
    requires Acyclic(r, rank) && SingleInheritance(r) && LineIsFresh(r, rank, resolved, t)
    ensures HoldsAll(r, rank, table, t, FieldsOf(Overwrites(r, rank, table, resolved, t).0))
    decreases rank(t)
  {
    assert t in [t] + Chain(r, rank, t);
    if Extends(r, t) == [] {
      assert map[] + Entry(table, t) == Entry(table, t);
    } else {
      var p := Extends(r, t)[0];
      assert Extends(r, t) == [p] && p in Extends(r, t);
      OneParent(r, rank, table, resolved, t, p);
      forall x | x in [p] + Chain(r, rank, p) ensures x in [t] + Chain(r, rank, t) {}
      OverwritesHoldAll(r, rank, table, resolved, p);
    }
    forall key ensures var f := FieldsOf(Overwrites(r, rank, table, resolved, t).0);
        Effective(r, rank, table, t, key) == if key in f then Some(f[key]) else None
    {
      EffectiveStep(r, rank, table, t, key);
    }
  }

  // ---------- What the call marks as resolved ----------

  ghost predicate NoRepeats(ts: seq<TypeName>) {
    forall i, j :: 0 <= i < j < |ts| ==> ts[i] != ts[j]
  }

  /** Types are only added at the end, each once, and none that ranks above `k`. */
  ghost predicate MarksMore(rank: TypeName -> nat, resolved: seq<TypeName>, marked: seq<TypeName>, k: nat) {
    && resolved <= marked && (NoRepeats(resolved) ==> NoRepeats(marked))
    && forall x :: x in marked ==> x in resolved || rank(x) < k
  }

  /** A known type is marked from then on, no type twice; an unknown one is not marked and has no overwrites. */
  lemma {:induction false} EachTypeMarkedOnce(
      r: Registry, rank: TypeName -> nat, table: Table, resolved: seq<TypeName>, t: TypeName)
    requires Acyclic(r, rank)
    ensures var (o, marked) := Overwrites(r, rank, table, resolved, t);
      && MarksMore(rank, resolved, marked, rank(t) + 1)
      && (t in marked <==> t in r || t in resolved)
      && (t !in r && t !in resolved ==> o == None && marked == resolved)
    decreases rank(t), 1, 0
  {
    if t !in resolved && t in r && r[t].Some? {
      MergingMarksOnce(r, rank, table, resolved, Extends(r, t), rank(t), map[]);
      var marked := MergeParents(r, rank, table, resolved, Extends(r, t), rank(t), map[]).1;
      assert t !in marked;
      AppendedOnce(marked, t);
    } else if t !in resolved && t in r {
      AppendedOnce(resolved, t);
    }
  }

  lemma {:induction false} MergingMarksOnce(r: Registry, rank: TypeName -> nat, table: Table, resolved: seq<TypeName>,
                                            ps: seq<TypeName>, k: nat, acc: Fields)
    requires Acyclic(r, rank) && RanksBelow(ps, rank, k)
    ensures MarksMore(rank, resolved, MergeParents(r, rank, table, resolved, ps, k, acc).1, k)
    decreases k, 0, |ps|
  {
    if ps != [] {
      assert rank(ps[0]) < k;
      EachTypeMarkedOnce(r, rank, table, resolved, ps[0]);
      var (o, marked) := Overwrites(r, rank, table, resolved, ps[0]);
      MergingMarksOnce(r, rank, table, marked, ps[1..], k, if o.Some? then acc + o.value else acc);
    }
  }

  lemma AppendedOnce(ts: seq<TypeName>, t: TypeName)
    requires t !in ts
    ensures ts <= ts + [t] && (NoRepeats(ts) ==> NoRepeats(ts + [t]))
  {
  }

  // ---------- What the table stores ----------

  /** The type's entry has everything that the raw table gives the type. */
  ghost predicate IsComplete(r: Registry, rank: TypeName -> nat, raw: Table, table: Table, t: TypeName)
    requires Acyclic(r, rank) && SingleInheritance(r)
  {
    HoldsAll(r, rank, raw, t, Entry(table, t))
  }

  /** The first key visited is stored with everything it inherits. */
  lemma FirstKeyIsComplete(r: Registry, rank: TypeName -> nat, raw: Table, keys: seq<TypeName>)
    requires Acyclic(r, rank) && SingleInheritance(r) && KeyOrder(raw, keys) && keys != []
    requires LineIsFresh(r, rank, [], keys[0])
    ensures IsComplete(r, rank, raw, Flatten(r, rank, raw, keys), keys[0])
  {
    var t := keys[0];
    OverwritesHoldAll(r, rank, raw, [], t);
    OwnFieldsSurvive(r, rank, raw, [], t);
    var (o, marked) := Overwrites(r, rank, raw, [], t);
    var next := if o.Some? && o.value != map[] then raw[t := o.value] else raw;
    assert t in raw && Entry(next, t) == FieldsOf(o);
    FlattenFrame(r, rank, next, marked, keys[1..], t);
  }

  /** If nothing is merged, the type had no fields of its own, so that the table is right as it is. */
  lemma OwnFieldsSurvive(r: Registry, rank: TypeName -> nat, table: Table, resolved: seq<TypeName>, t: TypeName)
    requires Acyclic(r, rank) && SingleInheritance(r) && LineIsFresh(r, rank, resolved, t)
    ensures Entry(table, t).Keys <= FieldsOf(Overwrites(r, rank, table, resolved, t).0).Keys
  {
    assert t in [t] + Chain(r, rank, t);
    if Extends(r, t) != [] {
      assert Extends(r, t) == [Extends(r, t)[0]];
      OneParent(r, rank, table, resolved, t, Extends(r, t)[0]);
    }
  }

  /** Parents are keys themselves and come before their children. */
  ghost predicate ParentsFirst(r: Registry, keys: seq<TypeName>) {
    forall i :: 0 <= i < |keys| ==> keys[i] in r && forall p :: p in Extends(r, keys[i]) ==> p in keys[..i]
  }

  /** Half way through such an order: what has been visited is marked and complete, what is to come is as it was. */
  ghost predicate VisitedAreComplete(r: Registry, rank: TypeName -> nat, raw: Table, table: Table,
                                     resolved: seq<TypeName>, keys: seq<TypeName>, n: nat)
    requires Acyclic(r, rank) && SingleInheritance(r) && n <= |keys|
  {
    && table.Keys == raw.Keys
    && (forall x :: x in resolved <==> x in keys[..n])
    && (forall i :: 0 <= i < n ==> IsComplete(r, rank, raw, table, keys[i]))
    && (forall i :: n <= i < |keys| ==> Entry(table, keys[i]) == Entry(raw, keys[i]))
  }

  lemma VisitParentsFirst(r: Registry, rank: TypeName -> nat, raw: Table, table: Table, resolved: seq<TypeName>,
                          keys: seq<TypeName>, n: nat)
    requires Acyclic(r, rank) && SingleInheritance(r) && KeyOrder(raw, keys) && ParentsFirst(r, keys) && n < |keys|
    requires VisitedAreComplete(r, rank, raw, table, resolved, keys, n)
    ensures var (o, marked) := Overwrites(r, rank, table, resolved, keys[n]);
      && marked == resolved + [keys[n]]
      && HoldsAll(r, rank, raw, keys[n], FieldsOf(o)) && Entry(raw, keys[n]).Keys <= FieldsOf(o).Keys
  {
    var t := keys[n];
    assert t !in keys[..n];
    if Extends(r, t) == [] {
      assert map[] + Entry(table, t) == Entry(table, t);
    } else {
      var p := Extends(r, t)[0];
      assert Extends(r, t) == [p] && p in Extends(r, t) && p in keys[..n];
      OneParent(r, rank, table, resolved, t, p);
      var i :| 0 <= i < n && keys[i] == p;
      assert IsComplete(r, rank, raw, table, keys[i]);
    }
    forall key ensures var f := FieldsOf(Overwrites(r, rank, table, resolved, t).0);
        Effective(r, rank, raw, t, key) == if key in f then Some(f[key]) else None
    {
      EffectiveStep(r, rank, raw, t, key);
    }
  }

  /** The next key has been stored. */
  lemma VisitedOneMore(r: Registry, rank: TypeName -> nat, raw: Table, table: Table, resolved: seq<TypeName>,
                       keys: seq<TypeName>, n: nat, o: Option<Fields>)
    requires Acyclic(r, rank) && SingleInheritance(r) && KeyOrder(raw, keys) && n < |keys|
    requires VisitedAreComplete(r, rank, raw, table, resolved, keys, n)
    requires HoldsAll(r, rank, raw, keys[n], FieldsOf(o)) && Entry(raw, keys[n]).Keys <= FieldsOf(o).Keys
    ensures var next := if o.Some? && o.value != map[] then table[keys[n] := o.value] else table;
      VisitedAreComplete(r, rank, raw, next, resolved + [keys[n]], keys, n + 1)
  {
    var next := if o.Some? && o.value != map[] then table[keys[n] := o.value] else table;
    EntriesOneMore(table, keys, n, o);
    assert keys[..n + 1] == keys[..n] + [keys[n]];
    forall i | 0 <= i < n + 1 ensures IsComplete(r, rank, raw, next, keys[i]) {
      if i < n {
        assert IsComplete(r, rank, raw, table, keys[i]);
        StaysComplete(r, rank, raw, table, next, keys[i]);
      }
    }
  }

  lemma EntriesOneMore(table: Table, keys: seq<TypeName>, n: nat, o: Option<Fields>)
    requires n < |keys| && KeyOrder(table, keys) && Entry(table, keys[n]).Keys <= FieldsOf(o).Keys
    ensures var next := if o.Some? && o.value != map[] then table[keys[n] := o.value] else table;
      && next.Keys == table.Keys && Entry(next, keys[n]) == FieldsOf(o)
      && forall i :: 0 <= i < |keys| && i != n ==> Entry(next, keys[i]) == Entry(table, keys[i])
  {
  }

  lemma StaysComplete(r: Registry, rank: TypeName -> nat, raw: Table, table: Table, next: Table, t: TypeName)
    requires Acyclic(r, rank) && SingleInheritance(r) && Entry(next, t) == Entry(table, t)
    requires IsComplete(r, rank, raw, table, t)
    ensures IsComplete(r, rank, raw, next, t)
  {
  }

  /** One round of the loop over the keys. */
  lemma NextKey(r: Registry, rank: TypeName -> nat, raw: Table, table: Table, resolved: seq<TypeName>,
                keys: seq<TypeName>, n: nat) returns (next: Table, marked: seq<TypeName>)
    requires Acyclic(r, rank) && SingleInheritance(r) && KeyOrder(raw, keys) && ParentsFirst(r, keys) && n < |keys|
    requires VisitedAreComplete(r, rank, raw, table, resolved, keys, n)
    ensures VisitedAreComplete(r, rank, raw, next, marked, keys, n + 1)
    ensures FlattenFrom(r, rank, table, resolved, keys[n..]) == FlattenFrom(r, rank, next, marked, keys[n + 1..])
  {
    var o := Overwrites(r, rank, table, resolved, keys[n]).0;
    next, marked := if o.Some? && o.value != map[] then table[keys[n] := o.value] else table, resolved + [keys[n]];
    VisitParentsFirst(r, rank, raw, table, resolved, keys, n);
    VisitedOneMore(r, rank, raw, table, resolved, keys, n, o);
    FlattenStep(r, rank, table, resolved, keys, n);
  }

  lemma FlattenStep(
      r: Registry, rank: TypeName -> nat, table: Table, resolved: seq<TypeName>, keys: seq<TypeName>, n: nat)
    requires Acyclic(r, rank) && n < |keys|
    ensures var (o, marked) := Overwrites(r, rank, table, resolved, keys[n]);
      var next := if o.Some? && o.value != map[] then table[keys[n] := o.value] else table;
      FlattenFrom(r, rank, table, resolved, keys[n..]) == FlattenFrom(r, rank, next, marked, keys[n + 1..])
  {
    assert keys[n..][0] == keys[n] && keys[n..][1..] == keys[n + 1..];
  }

  lemma {:induction false} ParentsFirstFrom(r: Registry, rank: TypeName -> nat, raw: Table, table: Table,
                                            resolved: seq<TypeName>, keys: seq<TypeName>, n: nat) returns (last: Table)
    requires Acyclic(r, rank) && SingleInheritance(r) && KeyOrder(raw, keys) && ParentsFirst(r, keys)
    requires n <= |keys| && VisitedAreComplete(r, rank, raw, table, resolved, keys, n)
    ensures last == FlattenFrom(r, rank, table, resolved, keys[n..])
    ensures forall i :: 0 <= i < |keys| ==> IsComplete(r, rank, raw, last, keys[i])
    decreases |keys| - n
  {
    if n < |keys| {
      var next, marked := NextKey(r, rank, raw, table, resolved, keys, n);
      last := ParentsFirstFrom(r, rank, raw, next, marked, keys, n + 1);
    } else {
      last := table;
      assert keys[n..] == [];
    }
  }

  /** If parents are visited before their children, every entry is stored with everything it inherits. */
  lemma ParentsFirstStoresAll(r: Registry, rank: TypeName -> nat, raw: Table, keys: seq<TypeName>, t: TypeName)
    requires Acyclic(r, rank) && SingleInheritance(r) && KeyOrder(raw, keys) && ParentsFirst(r, keys) && t in keys
    ensures IsComplete(r, rank, raw, Flatten(r, rank, raw, keys), t)
  {
    assert keys[..0] == [] && keys[0..] == keys;
    var flat := ParentsFirstFrom(r, rank, raw, raw, [], keys, 0);
  }

  /** A child, its parent and its grandparent, which alone has a field. */
  function ThreeEntries(c: TypeName, p: TypeName, g: TypeName): (raw: Table) {
    map[c := map[], p := map[], g := map["key" := Other(1)]]
  }

  /** Resolving the child marks all three. */
  lemma ChildMarksAll(r: Registry, rank: TypeName -> nat, table: Table, c: TypeName, p: TypeName, g: TypeName)
    requires Acyclic(r, rank) && SingleInheritance(r) && c in r && p in r && g in r && g in table
    requires Extends(r, c) == [p] && Extends(r, p) == [g] && Extends(r, g) == []
    ensures Overwrites(r, rank, table, [], c) == (Some(table[g] + Entry(table, p) + Entry(table, c)), [g, p, c])
  {
    NoParent(r, rank, table, [], g);
    OneParent(r, rank, table, [], p, g);
    OneParent(r, rank, table, [], c, p);
    assert [] + [g] == [g] && [g] + [p] == [g, p] && [g, p] + [c] == [g, p, c];
  }

  /** In the other order a parent, resolved on behalf of its child, never gets what it inherits itself. */
  lemma ChildFirstStoresLess(r: Registry, rank: TypeName -> nat, c: TypeName, p: TypeName, g: TypeName)
    requires Acyclic(r, rank) && SingleInheritance(r) && c in r && p in r && g in r
    requires Extends(r, c) == [p] && Extends(r, p) == [g] && Extends(r, g) == []
    ensures var raw := ThreeEntries(c, p, g);
      && KeyOrder(raw, [c, p, g])
      && var flat := Flatten(r, rank, raw, [c, p, g]);
      && c in flat && flat[c] == map["key" := Other(1)] && p in flat && flat[p] == map[]
      && Effective(r, rank, raw, p, "key") == Some(Other(1))
  {
    assert p in Extends(r, c) && g in Extends(r, p) && rank(g) < rank(p) < rank(c);
    var raw := ThreeEntries(c, p, g);
    var f: Fields := map["key" := Other(1)];
    ChildMarksAll(r, rank, raw, c, p, g);
    assert raw[g] + Entry(raw, p) + Entry(raw, c) == f;
    EffectiveStep(r, rank, raw, p, "key");
    EffectiveStep(r, rank, raw, g, "key");
    var flat, marked := raw[c := f], [g, p, c];
    assert [c, p, g][1..] == [p, g] && [p, g][1..] == [g] && [g][1..] == [];
    assert p in marked && g in marked;
    assert FlattenFrom(r, rank, flat, marked, [g]) == FlattenFrom(r, rank, flat[g := f], marked, []);
    assert flat[g := f] == flat;
    assert FlattenFrom(r, rank, flat, marked, [p, g]) == FlattenFrom(r, rank, flat, marked, [g]);
  }
}
