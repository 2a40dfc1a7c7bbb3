/**
 * Overwriting credential fields from an administrator's table, with inheritance between
 * credential types (packages/cli/src/credentials-overwrites.ts).
 */
module CredentialsOverwrites {
  import opened CredentialTypes
  import opened Wrappers

  /** A field of a credential. `Other` stands for numbers and booleans. */
  datatype Value = Null | Undefined | Text(s: string) | Other(n: int)

  type Fields = map<string, Value>
  type Table = map<TypeName, Fields>

  function Entry(table: Table, t: TypeName): (f: Fields) {
    if t in table then table[t] else map[]
  }

  // ---------- What the code computes, as functions of the table ----------

  /**
   * `getOverwrites`: the overwrites of `t` merged with its parents', and the list of types marked
   * as resolved. A type that is already marked is answered from the table as it stands.
   */
  ghost function Overwrites(r: Registry, rank: TypeName -> nat, table: Table, resolved: seq<TypeName>, t: TypeName)
      : (res: (Option<Fields>, seq<TypeName>))
    requires Acyclic(r, rank)
    decreases rank(t), 1, 0
  {
    if t in resolved then
      (if t in table then Some(table[t]) else None, resolved)
    else if t !in r then
      (None, resolved)
    else if r[t].None? then
      (if t in table then Some(table[t]) else None, resolved + [t])
    else
      var (merged, marked) := MergeParents(r, rank, table, resolved, Extends(r, t), rank(t), map[]);
      (Some(merged + Entry(table, t)), marked + [t])
  }

  /** The loop over the `extends` list: each parent's overwrites are assigned over the earlier ones. */
  ghost function MergeParents(r: Registry, rank: TypeName -> nat, table: Table, resolved: seq<TypeName>,
                              ps: seq<TypeName>, k: nat, acc: Fields): (res: (Fields, seq<TypeName>))
    requires Acyclic(r, rank) && RanksBelow(ps, rank, k)
    decreases k, 0, |ps|
  {
    if ps == [] then (acc, resolved) else
      var (o, marked) := Overwrites(r, rank, table, resolved, ps[0]);
      MergeParents(r, rank, table, marked, ps[1..], k, if o.Some? then acc + o.value else acc)
  }

  /** The loop of `setPlainData` over the table's keys: each type's entry is replaced by its merged overwrites. */
  ghost function FlattenFrom(r: Registry, rank: TypeName -> nat, table: Table, resolved: seq<TypeName>,
                               keys: seq<TypeName>)
      : (flat: Table)
    requires Acyclic(r, rank)
    decreases |keys|
  {
    if keys == [] then table else
      var (o, marked) := Overwrites(r, rank, table, resolved, keys[0]);
      var next := if o.Some? && o.value != map[] then table[keys[0] := o.value] else table;
      FlattenFrom(r, rank, next, marked, keys[1..])
  }

  /** `setPlainData`, for a table whose keys are enumerated in the given order. */
  ghost function Flatten(r: Registry, rank: TypeName -> nat, raw: Table, keys: seq<TypeName>): (flat: Table)
    requires Acyclic(r, rank)
  {
    FlattenFrom(r, rank, raw, [], keys)
  }

  /** `keys` lists the keys of the table, each once. */
  ghost predicate KeyOrder(table: Table, keys: seq<TypeName>) {
    && (forall t :: t in keys <==> t in table)
    && forall i, j :: 0 <= i < j < |keys| ==> keys[i] != keys[j]
  }

  /** Assigning the entries of `ts` from the last to the first: earlier types win. */
  function Layered(table: Table, ts: seq<TypeName>): (f: Fields) {
    if ts == [] then map[] else Layered(table, ts[1..]) + Entry(table, ts[0])
  }

  /** `get`: the effective overwrites of a type. */
  ghost function EffectiveOverwrites(r: Registry, rank: TypeName -> nat, table: Table, t: TypeName): (o: Option<Fields>)
    requires Acyclic(r, rank)
  {
    var ts := [t] + ParentTypes(r, rank, t);
    if forall x :: x in ts ==> x !in table then None else Some(Layered(table, ts))
  }

  // ---------- The reference: the nearest ancestor that defines a field ----------

  /** The value of a field in the nearest type of the line `ts` that defines it. */
  function Nearest(table: Table, ts: seq<TypeName>, key: string): (v: Option<Value>) {
    if ts == [] then None
    else if key in Entry(table, ts[0]) then Some(Entry(table, ts[0])[key])
    else Nearest(table, ts[1..], key)
  }

  lemma {:induction false} LayeredIsNearest(table: Table, ts: seq<TypeName>, key: string)
    ensures Nearest(table, ts, key) == if key in Layered(table, ts) then Some(Layered(table, ts)[key]) else None
  {
    if ts != [] {
      LayeredIsNearest(table, ts[1..], key);
    }
  }

  /** Only the first occurrence of a type in a line matters. */
  lemma {:induction false} NearestOfFirstOccurrences(table: Table, ts: seq<TypeName>, key: string)
    ensures Nearest(table, FirstOccurrences(ts), key) == Nearest(table, ts, key)
  {
    if ts != [] {
      var front, last := ts[..|ts| - 1], ts[|ts| - 1];
      NearestOfFirstOccurrences(table, front, key);
      assert ts == front + [last];
      NearestAppend(table, front, last, key);
      NearestAppend(table, FirstOccurrences(front), last, key);
      FirstOccurrencesElements(front);
      if last in front && Nearest(table, front, key).None? {
        NearestNone(table, front, last, key);
      }
    }
  }

  lemma {:induction false} NearestAppend(table: Table, ts: seq<TypeName>, t: TypeName, key: string)
    ensures Nearest(table, ts + [t], key) ==
      if Nearest(table, ts, key).Some? then Nearest(table, ts, key) else Nearest(table, [t], key)
  {
    if ts == [] {
      assert ts + [t] == [t];
    } else {
      assert (ts + [t])[1..] == ts[1..] + [t];
      NearestAppend(table, ts[1..], t, key);
    }
  }

  lemma {:induction false} NearestNone(table: Table, ts: seq<TypeName>, t: TypeName, key: string)
    requires t in ts && Nearest(table, ts, key).None?
    ensures key !in Entry(table, t)
  {
    if ts[0] != t {
      NearestNone(table, ts[1..], t, key);
    }
  }

  /** The value that the line `[t] + ancestors of t` gives a field. */
  ghost function Effective(r: Registry, rank: TypeName -> nat, table: Table, t: TypeName, key: string)
        : (v: Option<Value>)
    requires Acyclic(r, rank) && SingleInheritance(r)
  {
    Nearest(table, [t] + Chain(r, rank, t), key)
  }

  /** One step up the line. */
  lemma EffectiveStep(r: Registry, rank: TypeName -> nat, table: Table, t: TypeName, key: string)
    requires Acyclic(r, rank) && SingleInheritance(r)
    ensures Effective(r, rank, table, t, key) ==
      if key in Entry(table, t) then Some(Entry(table, t)[key])
      else if Extends(r, t) == [] then None
      else Effective(r, rank, table, Extends(r, t)[0], key)
  {
    var up := Chain(r, rank, t);
    assert ([t] + up)[1..] == up && ([t] + up)[0] == t;
    if Extends(r, t) != [] {
      var p := Extends(r, t)[0];
      assert p in Extends(r, t) && up == [p] + Chain(r, rank, p);
    } else {
      assert up == [] && Nearest(table, up, key) == None;
    }
  }

  /** A lookup in any table, flattened or not, finds the nearest entry of that table. */
  lemma GetIsNearest(r: Registry, rank: TypeName -> nat, table: Table, t: TypeName, key: string)
    requires Acyclic(r, rank) && SingleInheritance(r)
    ensures Effective(r, rank, table, t, key) ==
      match EffectiveOverwrites(r, rank, table, t) {
        case None => None case Some(f) => if key in f then Some(f[key]) else None }
  {
    var ps := ParentTypes(r, rank, t);
    var ts := [t] + ps;
    ParentTypesNearestFirst(r, rank, t);
    FirstOccurrencesCons(t, ps);
    NearestOfFirstOccurrences(table, ts, key);
    LayeredIsNearest(table, ts, key);
    if EffectiveOverwrites(r, rank, table, t).None? {
      NearestOfUndefined(table, ts, key);
    }
  }

  lemma {:induction false} NearestOfUndefined(table: Table, ts: seq<TypeName>, key: string)
    requires forall x :: x in ts ==> x !in table
    ensures Nearest(table, ts, key) == None
  {
    if ts != [] {
      NearestOfUndefined(table, ts[1..], key);
    }
  }

  // ---------- Flattening keeps the meaning ----------

  /**
   * Invariant of the flattening: the table has the raw table's keys, no entry loses a field, and every field
   * it holds, own or inherited, has the value that the raw table gives it. The table may be incomplete:
   * which inherited fields are stored depends on the order of the keys.
   */
  ghost predicate Sound(r: Registry, rank: TypeName -> nat, raw: Table, table: Table)
    requires Acyclic(r, rank) && SingleInheritance(r)
  {
    && table.Keys == raw.Keys
    && forall t :: t in raw ==> raw[t].Keys <= table[t].Keys && AgreesWith(r, rank, raw, t, table[t])
  }

  ghost predicate AgreesWith(r: Registry, rank: TypeName -> nat, raw: Table, t: TypeName, f: Fields)
    requires Acyclic(r, rank) && SingleInheritance(r)
  {
    forall key :: key in f ==> Effective(r, rank, raw, t, key) == Some(f[key])
  }

  lemma {:induction false} OverwritesAgree(
      r: Registry, rank: TypeName -> nat, raw: Table, table: Table, resolved: seq<TypeName>, t: TypeName)
    requires Acyclic(r, rank) && SingleInheritance(r) && Sound(r, rank, raw, table)
    ensures var o := Overwrites(r, rank, table, resolved, t).0;
      o.Some? ==> AgreesWith(r, rank, raw, t, o.value) && Entry(raw, t).Keys <= o.value.Keys
    decreases rank(t)
  {
    if t !in resolved && t in r && Extends(r, t) != [] {
      var p := Extends(r, t)[0];
      assert Extends(r, t) == [p];
      OverwritesAgree(r, rank, raw, table, resolved, p);
      var (o, marked) := Overwrites(r, rank, table, resolved, p);
      var merged := if o.Some? then map[] + o.value else map[];
      assert Extends(r, t)[1..] == [];
      assert MergeParents(r, rank, table, marked, Extends(r, t)[1..], rank(t), merged) == (merged, marked);
      assert Overwrites(r, rank, table, resolved, t).0 == Some(merged + Entry(table, t));
      forall key | key in merged + Entry(table, t)
        ensures Effective(r, rank, raw, t, key) == Some((merged + Entry(table, t))[key])
      {
        EffectiveStep(r, rank, raw, t, key);
      }
    } else if t !in resolved && t in r && r[t].Some? {
      assert map[] + Entry(table, t) == Entry(table, t);
    }
  }

  lemma {:induction false} FlattenSound(
      r: Registry, rank: TypeName -> nat, raw: Table, table: Table, resolved: seq<TypeName>, keys: seq<TypeName>)
    requires Acyclic(r, rank) && SingleInheritance(r) && Sound(r, rank, raw, table)
    requires forall t :: t in keys ==> t in table
    ensures Sound(r, rank, raw, FlattenFrom(r, rank, table, resolved, keys))
    decreases |keys|
  {
    if keys != [] {
      OverwritesAgree(r, rank, raw, table, resolved, keys[0]);
      var (o, marked) := Overwrites(r, rank, table, resolved, keys[0]);
      var next := if o.Some? && o.value != map[] then table[keys[0] := o.value] else table;
      FlattenSound(r, rank, raw, next, marked, keys[1..]);
    }
  }

  lemma RawIsSound(r: Registry, rank: TypeName -> nat, raw: Table)
    requires Acyclic(r, rank) && SingleInheritance(r)
    ensures Sound(r, rank, raw, raw)
  {
    forall t, key | t in raw && key in raw[t] ensures Effective(r, rank, raw, t, key) == Some(raw[t][key]) {
      EffectiveStep(r, rank, raw, t, key);
    }
  }

  /** Whatever a sound table left out, the lookup's walk up the line finds again. */
  lemma {:induction false} SoundKeepsEffective(
      r: Registry, rank: TypeName -> nat, raw: Table, table: Table, t: TypeName, key: string)
    requires Acyclic(r, rank) && SingleInheritance(r) && Sound(r, rank, raw, table)
    ensures Effective(r, rank, table, t, key) == Effective(r, rank, raw, t, key)
    decreases rank(t)
  {
    EffectiveStep(r, rank, raw, t, key);
    EffectiveStep(r, rank, table, t, key);
    if key !in Entry(table, t) && Extends(r, t) != [] {
      assert Extends(r, t)[0] in Extends(r, t);
      SoundKeepsEffective(r, rank, raw, table, Extends(r, t)[0], key);
    }
  }

  lemma SoundKeepsGet(r: Registry, rank: TypeName -> nat, raw: Table, table: Table, t: TypeName)
    requires Acyclic(r, rank) && SingleInheritance(r) && Sound(r, rank, raw, table)
    ensures EffectiveOverwrites(r, rank, table, t) == EffectiveOverwrites(r, rank, raw, t)
  {
    var a, b := EffectiveOverwrites(r, rank, table, t), EffectiveOverwrites(r, rank, raw, t);
    forall key
      ensures a.Some? && b.Some? ==>
        (key in a.value <==> key in b.value) && (key in a.value ==> a.value[key] == b.value[key])
    {
      GetIsNearest(r, rank, table, t, key);
      GetIsNearest(r, rank, raw, t, key);
      SoundKeepsEffective(r, rank, raw, table, t, key);
    }
    if a.Some? && b.Some? {
      assert a.value == b.value;
    }
  }

  /** Flattening a table, in whatever key order, gives every type the overwrites it had before. */
  ghost predicate MeaningKept(r: Registry, rank: TypeName -> nat, raw: Table, keys: seq<TypeName>)
    requires Acyclic(r, rank)
  {
    forall t :: EffectiveOverwrites(r, rank, Flatten(r, rank, raw, keys), t) == EffectiveOverwrites(r, rank, raw, t)
  }

  lemma SingleInheritanceKeepsMeaning(r: Registry, rank: TypeName -> nat, raw: Table, keys: seq<TypeName>)
    requires Acyclic(r, rank) && SingleInheritance(r) && KeyOrder(raw, keys)
    ensures MeaningKept(r, rank, raw, keys)
  {
    RawIsSound(r, rank, raw);
    FlattenSound(r, rank, raw, raw, [], keys);
    forall t
      ensures EffectiveOverwrites(r, rank, Flatten(r, rank, raw, keys), t) == EffectiveOverwrites(r, rank, raw, t) {
      SoundKeepsGet(r, rank, raw, Flatten(r, rank, raw, keys), t);
    }
  }

  // ---------- Two parents: the lookup prefers the first, the flattening the last ----------

  /** A known type keeps its own fields in its merged overwrites, however it was resolved before. */
  lemma KnownKeepsOwnFields(
      r: Registry, rank: TypeName -> nat, table: Table, resolved: seq<TypeName>, t: TypeName, key: string)
    requires Acyclic(r, rank) && t in r && t in table && key in table[t]
    ensures var o := Overwrites(r, rank, table, resolved, t).0;
      o.Some? && key in o.value && o.value[key] == table[t][key]
  {
  }

  lemma {:induction false} LastParentWins(r: Registry, rank: TypeName -> nat, table: Table, resolved: seq<TypeName>,
                                          ps: seq<TypeName>, k: nat, acc: Fields, key: string)
    requires Acyclic(r, rank) && RanksBelow(ps, rank, k) && ps != []
    requires var last := ps[|ps| - 1]; last in r && last in table && key in table[last]
    ensures var f := MergeParents(r, rank, table, resolved, ps, k, acc).0;
      key in f && f[key] == table[ps[|ps| - 1]][key]
    decreases |ps|
  {
    assert ps[0] in ps;
    var (o, marked) := Overwrites(r, rank, table, resolved, ps[0]);
    var acc' := if o.Some? then acc + o.value else acc;
    if |ps| == 1 {
      KnownKeepsOwnFields(r, rank, table, resolved, ps[0], key);
      assert MergeParents(r, rank, table, marked, ps[1..], k, acc') == (acc', marked);
    } else {
      LastParentWins(r, rank, table, marked, ps[1..], k, acc', key);
    }
  }

  /** Flattening never touches the entry of a type that is not among the remaining keys. */
  lemma {:induction false} FlattenFrame(
      r: Registry, rank: TypeName -> nat, table: Table, resolved: seq<TypeName>, keys: seq<TypeName>, t: TypeName)
    requires Acyclic(r, rank) && t in table && t !in keys
    ensures var flat := FlattenFrom(r, rank, table, resolved, keys); t in flat && flat[t] == table[t]
    decreases |keys|
  {
    if keys != [] {
      var (o, marked) := Overwrites(r, rank, table, resolved, keys[0]);
      var next := if o.Some? && o.value != map[] then table[keys[0] := o.value] else table;
      FlattenFrame(r, rank, next, marked, keys[1..], t);
    }
  }

  /** Any type whose last parent is known and differs from its first has a table that flattening changes. */
  lemma TwoParentsLoseMeaning(r: Registry, rank: TypeName -> nat, t: TypeName) returns (raw: Table, keys: seq<TypeName>)
    requires Acyclic(r, rank) && |Extends(r, t)| >= 2
    requires Extends(r, t)[0] != Extends(r, t)[|Extends(r, t)| - 1] && Extends(r, t)[|Extends(r, t)| - 1] in r
    ensures KeyOrder(raw, keys) && !MeaningKept(r, rank, raw, keys)
  {
    var first, last := Extends(r, t)[0], Extends(r, t)[|Extends(r, t)| - 1];
    assert first in Extends(r, t) && last in Extends(r, t);
    assert rank(first) < rank(t) && rank(last) < rank(t);
    assert t != first && t != last;
    raw := map[t := map[], first := map["key" := Other(1)], last := map["key" := Other(2)]];
    keys := [t, first, last];

    FlattenedFirst(r, rank, raw, keys, "key");
    FirstParentIsFound(r, rank, raw, t, "key");
    OwnFieldIsFound(r, rank, Flatten(r, rank, raw, keys), t, "key");
  }

  /** The first key of a table is stored with its last parent's fields. */
  lemma FlattenedFirst(r: Registry, rank: TypeName -> nat, raw: Table, keys: seq<TypeName>, key: string)
    requires Acyclic(r, rank) && KeyOrder(raw, keys) && keys != []
    requires var t := keys[0]; t in r && Extends(r, t) != [] && raw[t] == map[]
    requires var last := Extends(r, keys[0])[|Extends(r, keys[0])| - 1]; last in r && last in raw && key in raw[last]
    ensures var t, flat := keys[0], Flatten(r, rank, raw, keys);
      t in flat && key in flat[t] && flat[t][key] == raw[Extends(r, t)[|Extends(r, t)| - 1]][key]
  {
    var t := keys[0];
    var (o, marked) := Overwrites(r, rank, raw, [], t);
    var merged := MergeParents(r, rank, raw, [], Extends(r, t), rank(t), map[]).0;
    LastParentWins(r, rank, raw, [], Extends(r, t), rank(t), map[], key);
    assert o == Some(merged + map[]) && merged + map[] == merged;
    FlattenFrame(r, rank, raw[t := merged], marked, keys[1..], t);
  }

  lemma OwnFieldIsFound(r: Registry, rank: TypeName -> nat, table: Table, t: TypeName, key: string)
    requires Acyclic(r, rank) && t in table && key in table[t]
    ensures var o := EffectiveOverwrites(r, rank, table, t); o.Some? && key in o.value && o.value[key] == table[t][key]
  {
    var ts := [t] + ParentTypes(r, rank, t);
    assert ts[0] == t && t in ts;
  }

  lemma FirstParentIsFound(r: Registry, rank: TypeName -> nat, table: Table, t: TypeName, key: string)
    requires Acyclic(r, rank) && t in r && Extends(r, t) != [] && key !in Entry(table, t)
    requires Extends(r, t)[0] in table && key in table[Extends(r, t)[0]]
    ensures var o := EffectiveOverwrites(r, rank, table, t);
      o.Some? && key in o.value && o.value[key] == table[Extends(r, t)[0]][key]
  {
    var ps := ParentTypes(r, rank, t);
    var ts := [t] + ps;
    LevelsFixpoint(r, rank, Extends(r, t), rank(t));
    assert ts[1..] == ps && ps[0] == Extends(r, t)[0] && ps[0] in ts;
    assert Layered(table, ps) == Layered(table, ps[1..]) + Entry(table, ps[0]);
  }

  /** Every extended type is itself known, and no type extends another twice. */
  ghost predicate WellFormed(r: Registry) {
    forall t :: t in r ==>
      && (forall p :: p in Extends(r, t) ==> p in r)
      && forall i, j :: 0 <= i < j < |Extends(r, t)| ==> Extends(r, t)[i] != Extends(r, t)[j]
  }

  /** Flattening keeps the meaning of every table, in every key order, exactly under single inheritance. */
  lemma MeaningKeptExactly(r: Registry, rank: TypeName -> nat)
    requires Acyclic(r, rank) && WellFormed(r)
    ensures (forall raw, keys :: KeyOrder(raw, keys) ==> MeaningKept(r, rank, raw, keys)) <==> SingleInheritance(r)
  {
    if SingleInheritance(r) {
      forall raw, keys | KeyOrder(raw, keys) ensures MeaningKept(r, rank, raw, keys) {
        SingleInheritanceKeepsMeaning(r, rank, raw, keys);
      }
    } else {
      var t :| |Extends(r, t)| > 1;
      var raw, keys := TwoParentsLoseMeaning(r, rank, t);
    }
  }

  // ---------- Saving the flattened table and loading it again ----------

  /** The table after saving and reloading it once for each of the given key orders. */
  ghost function Reloaded(r: Registry, rank: TypeName -> nat, table: Table, orders: seq<seq<TypeName>>): (out: Table)
    requires Acyclic(r, rank)
    decreases |orders|
  {
    if orders == [] then table else Reloaded(r, rank, Flatten(r, rank, table, orders[0]), orders[1..])
  }

  lemma {:induction false} ReloadedSound(
      r: Registry, rank: TypeName -> nat, raw: Table, table: Table, orders: seq<seq<TypeName>>)
    requires Acyclic(r, rank) && SingleInheritance(r) && Sound(r, rank, raw, table)
    requires forall keys :: keys in orders ==> KeyOrder(raw, keys)
    ensures Sound(r, rank, raw, Reloaded(r, rank, table, orders))
    decreases |orders|
  {
    if orders != [] {
      assert KeyOrder(raw, orders[0]);
      FlattenSound(r, rank, raw, table, [], orders[0]);
      ReloadedSound(r, rank, raw, Flatten(r, rank, table, orders[0]), orders[1..]);
    }
  }

  /** Any number of save and reload rounds leaves every type's overwrites as the original input gave them. */
  lemma ReloadKeepsMeaning(r: Registry, rank: TypeName -> nat, raw: Table, orders: seq<seq<TypeName>>, t: TypeName)
    requires Acyclic(r, rank) && SingleInheritance(r)
    requires forall keys :: keys in orders ==> KeyOrder(raw, keys)
    ensures EffectiveOverwrites(r, rank, Reloaded(r, rank, raw, orders), t) == EffectiveOverwrites(r, rank, raw, t)
  {
    RawIsSound(r, rank, raw);
    ReloadedSound(r, rank, raw, raw, orders);
    SoundKeepsGet(r, rank, raw, Reloaded(r, rank, raw, orders), t);
  }

  // ---------- Applying overwrites to a credential ----------

  predicate IsBlank(f: Fields, key: string) {
    key !in f || f[key] in {Null, Undefined, Text("")}
  }

  /** Some overwritten field holds a non-blank value of the user's own. */
  predicate Customized(overwrites: Fields, data: Fields) {
    exists key :: key in overwrites && !IsBlank(data, key) && data[key] != overwrites[key]
  }

  /** `applyOverwrite`, given the overwrites found and whether the type is on the skip list. */
  function Applied(overwrites: Option<Fields>, skip: bool, data: Fields): (out: Fields) {
    if overwrites.None? || (skip && Customized(overwrites.value, data)) then data
    else data + map key | key in overwrites.value && IsBlank(data, key) :: overwrites.value[key]
  }

  lemma AppliedIsIdempotent(overwrites: Option<Fields>, skip: bool, data: Fields)
    ensures Applied(overwrites, skip, Applied(overwrites, skip, data)) == Applied(overwrites, skip, data)
  {
    if overwrites.Some? {
      var once := Applied(overwrites, skip, data);
      if !(skip && Customized(overwrites.value, data)) {
        assert forall key :: key in overwrites.value && IsBlank(data, key) ==> once[key] == overwrites.value[key];
        assert forall key :: key in overwrites.value && IsBlank(once, key) ==>
          key in once && once[key] == overwrites.value[key];
        assert skip ==> !Customized(overwrites.value, once);
        assert Applied(overwrites, skip, once) == once;
      }
    }
  }

  /** The user has filled in the field. */
  predicate HasValue(data: Fields, key: string) {
    key in data &&
    match data[key]
    case Null => false
    case Undefined => false
    case Text(s) => |s| > 0
    case Other(_) => true
  }

  /** The user has filled in some overwritten field differently from the nearest type that defines it. */
  ghost predicate UserDiffers(r: Registry, rank: TypeName -> nat, raw: Table, t: TypeName, data: Fields)
    requires Acyclic(r, rank) && SingleInheritance(r)
  {
    exists key ::
      HasValue(data, key) && Effective(r, rank, raw, t, key).Some? && Effective(r, rank, raw, t, key) != Some(data[key])
  }

  /**
   * What the user sees, under single inheritance: on the skip list, a credential in which the user differs is left
   * alone. Otherwise a field with a value keeps it, every other field gets the value of the nearest type that defines
   * it, if one does, and stays as it is if none does.
   */
  lemma AppliedMeaning(r: Registry, rank: TypeName -> nat, raw: Table, keys: seq<TypeName>, t: TypeName, skip: bool,
                       data: Fields, key: string)
    requires Acyclic(r, rank) && SingleInheritance(r) && KeyOrder(raw, keys)
    ensures var out := Applied(EffectiveOverwrites(r, rank, Flatten(r, rank, raw, keys), t), skip, data);
      var nearest := Effective(r, rank, raw, t, key);
      if skip && UserDiffers(r, rank, raw, t, data) then out == data
      else if HasValue(data, key) || nearest.None? then
        (key in out <==> key in data) && (key in out ==> out[key] == data[key])
      else key in out && out[key] == nearest.value
  {
    SingleInheritanceKeepsMeaning(r, rank, raw, keys);
    var o := EffectiveOverwrites(r, rank, raw, t);
    forall k ensures Effective(r, rank, raw, t, k) ==
      match o { case None => None case Some(f) => if k in f then Some(f[k]) else None }
    {
      GetIsNearest(r, rank, raw, t, k);
    }
    assert forall k :: HasValue(data, k) <==> !IsBlank(data, k);
    if o.Some? {
      assert Customized(o.value, data) <==> UserDiffers(r, rank, raw, t, data) by {
        if Customized(o.value, data) {
          var k :| k in o.value && !IsBlank(data, k) && data[k] != o.value[k];
          assert HasValue(data, k) && Effective(r, rank, raw, t, k) == Some(o.value[k]);
        }
      }
    }
  }

  /** A lookup answers at all exactly if some type of the line is in the table. */
  lemma GetFindsSomethingExactly(r: Registry, rank: TypeName -> nat, table: Table, t: TypeName)
    requires Acyclic(r, rank) && SingleInheritance(r)
    ensures EffectiveOverwrites(r, rank, table, t).Some? <==> exists x :: x in [t] + Chain(r, rank, t) && x in table
  {
    ParentTypesNearestFirst(r, rank, t);
    FirstOccurrencesElements(ParentTypes(r, rank, t));
    if x :| x in [t] + Chain(r, rank, t) && x in table {
      assert x in [t] + ParentTypes(r, rank, t);
    }
  }

  predicate AnyIn(ts: seq<TypeName>, table: Table) {
    exists x :: x in ts && x in table
  }

  /** The loop of `get` adds one type to those it has gone over. */
  lemma LayeredOneMore(table: Table, ts: seq<TypeName>, i: nat)
    requires i < |ts|
    ensures Layered(table, ts[i..]) == Layered(table, ts[i + 1..]) + Entry(table, ts[i])
    ensures AnyIn(ts[i..], table) <==> AnyIn(ts[i + 1..], table) || ts[i] in table
  {
    assert ts[i..] == [ts[i]] + ts[i + 1..];
  }

  // ---------- The service ----------

  /** A table as the service receives it: an object that the service keeps and changes in place. */
  class OverwriteTable {
    var entries: Table

    constructor (entries: Table)
      ensures this.entries == entries
    {
      this.entries := entries;
    }
  }

  /** The row of the settings table that the overwrites are saved in. Encryption and JSON are identities here. */
  class SettingsRow {
    var saved: Option<Table>

    constructor ()
      ensures saved == None
    {
      saved := None;
    }
  }

  class Service {
    const registry: Registry
    ghost const rank: TypeName -> nat
    const skipTypes: set<TypeName>
    const persistence: bool
    var overwriteData: OverwriteTable
    var resolvedTypes: seq<TypeName>
    var reloading: bool

    constructor (registry: Registry, ghost rank: TypeName -> nat, skipTypes: set<TypeName>, persistence: bool)
      requires Acyclic(registry, rank)
      ensures this.registry == registry && this.rank == rank
      ensures this.skipTypes == skipTypes && this.persistence == persistence
      ensures fresh(overwriteData) && overwriteData.entries == map[] && resolvedTypes == [] && !reloading
    {
      this.registry, this.rank, this.skipTypes, this.persistence := registry, rank, skipTypes, persistence;
      overwriteData := new OverwriteTable(map[]);
      resolvedTypes, reloading := [], false;
    }

    method GetOverwrites(t: TypeName) returns (o: Option<Fields>)
      requires Acyclic(registry, rank)
      modifies this`resolvedTypes
      ensures (o, resolvedTypes) == Overwrites(registry, rank, overwriteData.entries, old(resolvedTypes), t)
      decreases rank(t)
    {
      var table := overwriteData.entries;
      var stored := if t in table then Some(table[t]) else None;
      if t in resolvedTypes { return stored; }
      if t !in registry { return None; }
      if registry[t].None? {
        resolvedTypes := resolvedTypes + [t];
        return stored;
      }
      var parents := registry[t].value;
      var overwrites: Fields := map[];
      ghost var all := MergeParents(registry, rank, table, resolvedTypes, parents, rank(t), map[]);
      for i := 0 to |parents|
        invariant RanksBelow(parents[i..], rank, rank(t))
        invariant MergeParents(registry, rank, table, resolvedTypes, parents[i..], rank(t), overwrites) == all
      {
        var parent := parents[i];
        assert parent in Extends(registry, t) && parents[i..][0] == parent && parents[i..][1..] == parents[i + 1..];
        var more := GetOverwrites(parent);
        if more.Some? { overwrites := overwrites + more.value; }
      }
      assert parents[|parents|..] == [] && all == (overwrites, resolvedTypes);
      assert overwrites + map[] == overwrites;
      if t in table { overwrites := overwrites + table[t]; }
      resolvedTypes := resolvedTypes + [t];
      return Some(overwrites);
    }

    /** `setPlainData`: takes the table over and flattens it where it lies. */
    method SetPlainData(data: OverwriteTable, keys: seq<TypeName>)
      requires Acyclic(registry, rank) && KeyOrder(data.entries, keys)
      modifies this`overwriteData, this`resolvedTypes, data
      ensures overwriteData == data
      ensures data.entries == Flatten(registry, rank, old(data.entries), keys)
      ensures SingleInheritance(registry) ==>
        forall t :: EffectiveOverwrites(registry, rank, data.entries, t) ==
                    EffectiveOverwrites(registry, rank, old(data.entries), t)
    {
      ghost var raw := data.entries;
      resolvedTypes := [];
      overwriteData := data;
      for i := 0 to |keys|
        invariant overwriteData == data
        invariant FlattenFrom(registry, rank, data.entries, resolvedTypes, keys[i..]) ==
          Flatten(registry, rank, raw, keys)
      {
        assert keys[i..][0] == keys[i] && keys[i..][1..] == keys[i + 1..];
        var overwrites := GetOverwrites(keys[i]);
        if overwrites.Some? && overwrites.value != map[] {
          overwriteData.entries := overwriteData.entries[keys[i] := overwrites.value];
        }
      }
      if SingleInheritance(registry) {
        SingleInheritanceKeepsMeaning(registry, rank, raw, keys);
      }
    }

    /** `setData`: what is saved is the caller's table after it has been flattened in place. */
    method SetData(data: OverwriteTable, keys: seq<TypeName>, storeInDb: bool, row: SettingsRow)
      requires Acyclic(registry, rank) && KeyOrder(data.entries, keys)
      modifies this`overwriteData, this`resolvedTypes, data, row
      ensures overwriteData == data && data.entries == Flatten(registry, rank, old(data.entries), keys)
      ensures row.saved == if storeInDb && persistence then Some(data.entries) else old(row.saved)
    {
      SetPlainData(data, keys);
      if storeInDb && persistence { row.saved := Some(data.entries); }
    }

    /**
     * `loadOverwriteDataFromDB`: parses the saved table into a new object and installs it without saving. A load that
     * comes while another is under way does nothing; if the row cannot be read, the error is logged and the
     * table stays.
     */
    method LoadFromDB(row: SettingsRow, keys: seq<TypeName>, readable: bool)
      requires Acyclic(registry, rank) && (row.saved.Some? ==> KeyOrder(row.saved.value, keys))
      modifies this
      ensures reloading == old(reloading)
      ensures old(reloading) || !readable || row.saved.None? ==>
        && overwriteData == old(overwriteData) && overwriteData.entries == old(overwriteData.entries)
        && resolvedTypes == old(resolvedTypes)
      ensures !old(reloading) && readable && row.saved.Some? ==>
        fresh(overwriteData) && overwriteData.entries == Flatten(registry, rank, row.saved.value, keys)
    {
      if reloading { return; }
      reloading := true;
      if readable && row.saved.Some? {
        var data := new OverwriteTable(row.saved.value);
        SetPlainData(data, keys);
      }
      reloading := false;
    }

    /** `get`: assigns the entries of the type and its ancestors over one another, farthest first. */
    method Get(t: TypeName) returns (o: Option<Fields>)
      requires Acyclic(registry, rank)
      ensures o == EffectiveOverwrites(registry, rank, overwriteData.entries, t)
    {
      var parents := GetParentTypes(registry, rank, t);
      var types := [t] + parents;
      var fields: Fields := map[];
      var found := false;
      var i := |types|;
      while i > 0
        invariant 0 <= i <= |types|
        invariant fields == Layered(overwriteData.entries, types[i..])
        invariant found <==> AnyIn(types[i..], overwriteData.entries)
      {
        i := i - 1;
        LayeredOneMore(overwriteData.entries, types, i);
        if types[i] in overwriteData.entries {
          fields := fields + overwriteData.entries[types[i]];
          found := true;
        }
      }
      assert types[0..] == types;
      o := if found then Some(fields) else None;
    }

    /** `applyOverwrite`: fills blank fields one by one, in any order. */
    method ApplyOverwrite(t: TypeName, data: Fields) returns (out: Fields)
      requires Acyclic(registry, rank)
      ensures out == Applied(EffectiveOverwrites(registry, rank, overwriteData.entries, t), t in skipTypes, data)
    {
      var found := Get(t);
      if found.None? { return data; }
      var overwrites := found.value;
      if t in skipTypes && Customized(overwrites, data) { return data; }
      out := FillBlanks(overwrites, data);
    }

    static method FillBlanks(overwrites: Fields, data: Fields) returns (out: Fields)
      ensures out == data + map key | key in overwrites && IsBlank(data, key) :: overwrites[key]
    {
      out := data;
      var left := overwrites.Keys;
      while left != {}
        invariant left <= overwrites.Keys
        invariant forall key :: key in out <==> key in data || key in overwrites.Keys - left
        invariant forall key :: key in out ==>
          out[key] == if key in overwrites.Keys - left && IsBlank(data, key) then overwrites[key] else data[key]
      {
        var key :| key in left;
        if IsBlank(out, key) { out := out[key := overwrites[key]]; }
        left := left - {key};
      }
    }
  }
}
