/**
 * The `extends` hierarchy of credential types, and the lookup of all parent types
 * (packages/cli/src/credential-types.ts).
 */
module CredentialTypes {
  import opened Wrappers

  type TypeName = string

  /** The known credential types, each with the list of types it extends, if it declares one. */
  type Registry = map<TypeName, Option<seq<TypeName>>>

  /** A lookup of the list of an unknown type, or of one that declares none, falls back to the empty list. */
  function Extends(r: Registry, t: TypeName): (ps: seq<TypeName>) {
    if t in r && r[t].Some? then r[t].value else []
  }

  /** The hierarchy has no cycle: `rank` strictly decreases from a type to every type it extends. */
  ghost predicate Acyclic(r: Registry, rank: TypeName -> nat) {
    forall t, p :: p in Extends(r, t) ==> rank(p) < rank(t)
  }

  /** No type extends more than one other. */
  ghost predicate SingleInheritance(r: Registry) {
    forall t :: |Extends(r, t)| <= 1
  }

  ghost predicate RanksBelow(ts: seq<TypeName>, rank: TypeName -> nat, k: nat) {
    forall t :: t in ts ==> rank(t) < k
  }

  // ---------- The list the lookup computes, by levels ----------

  /**
   * The list that the in-place loop of `GetParentTypes` ends with, described without the loop:
   * the types extended by `t`, then everything below those, level by level.
   */
  ghost function ParentTypes(r: Registry, rank: TypeName -> nat, t: TypeName): (ps: seq<TypeName>)
    requires Acyclic(r, rank)
    ensures RanksBelow(ps, rank, rank(t))
    decreases rank(t), 1, 0
  {
    Levels(r, rank, Extends(r, t), rank(t))
  }

  ghost function Levels(r: Registry, rank: TypeName -> nat, ts: seq<TypeName>, k: nat): (ps: seq<TypeName>)
    requires Acyclic(r, rank) && RanksBelow(ts, rank, k)
    ensures RanksBelow(ps, rank, k)
    decreases k, 0, |ts|
  {
    if ts == [] then [] else
      assert rank(ts[0]) < k;
      ts + Levels(r, rank, AllParentTypes(r, rank, ts, k - 1), k - 1)
  }

  /** The parent lists of all of `ts`, one after the other. */
  ghost function AllParentTypes(r: Registry, rank: TypeName -> nat, ts: seq<TypeName>, k: nat): (ps: seq<TypeName>)
    requires Acyclic(r, rank) && RanksBelow(ts, rank, k + 1)
    ensures RanksBelow(ps, rank, k)
    decreases k, 2, |ts|
  {
    if ts == [] then [] else
      assert rank(ts[0]) < k + 1;
      ParentTypes(r, rank, ts[0]) + AllParentTypes(r, rank, ts[1..], k)
  }

  /** The parent lists of all of `ts`, without the bound that the recursion above needs to end. */
  ghost function Flat(r: Registry, rank: TypeName -> nat, ts: seq<TypeName>): (ps: seq<TypeName>)
    requires Acyclic(r, rank)
    decreases |ts|
  {
    if ts == [] then [] else ParentTypes(r, rank, ts[0]) + Flat(r, rank, ts[1..])
  }

  lemma {:induction false} AllParentTypesIsFlat(r: Registry, rank: TypeName -> nat, ts: seq<TypeName>, k: nat)
    requires Acyclic(r, rank) && RanksBelow(ts, rank, k + 1)
    ensures AllParentTypes(r, rank, ts, k) == Flat(r, rank, ts)
    ensures RanksBelow(Flat(r, rank, ts), rank, k)
    decreases |ts|
  {
    if ts != [] {
      AllParentTypesIsFlat(r, rank, ts[1..], k);
    }
  }

  lemma {:induction false} FlatConcat(r: Registry, rank: TypeName -> nat, a: seq<TypeName>, b: seq<TypeName>)
    requires Acyclic(r, rank)
    ensures Flat(r, rank, a + b) == Flat(r, rank, a) + Flat(r, rank, b)
    decreases |a|
  {
    if a == [] {
      assert a + b == b;
    } else {
      assert (a + b)[1..] == a[1..] + b;
      FlatConcat(r, rank, a[1..], b);
    }
  }

  lemma FlatOne(r: Registry, rank: TypeName -> nat, t: TypeName)
    requires Acyclic(r, rank)
    ensures Flat(r, rank, [t]) == ParentTypes(r, rank, t)
  {
    assert [t][1..] == [] && Flat(r, rank, []) == [];
  }

  lemma LevelsStep(r: Registry, rank: TypeName -> nat, ts: seq<TypeName>, k: nat)
    requires Acyclic(r, rank) && RanksBelow(ts, rank, k) && ts != []
    ensures k > 0 && RanksBelow(Flat(r, rank, ts), rank, k - 1)
    ensures Levels(r, rank, ts, k) == ts + Levels(r, rank, Flat(r, rank, ts), k - 1)
  {
    assert rank(ts[0]) < k;
    AllParentTypesIsFlat(r, rank, ts, k - 1);
  }

  /** The finished list is its first level followed by the parent lists of all its own elements. */
  lemma {:induction false} LevelsFixpoint(r: Registry, rank: TypeName -> nat, ts: seq<TypeName>, k: nat)
    requires Acyclic(r, rank) && RanksBelow(ts, rank, k)
    ensures var f := Levels(r, rank, ts, k); f == ts + Flat(r, rank, f)
    decreases k
  {
    if ts != [] {
      LevelsStep(r, rank, ts, k);
      var next := Flat(r, rank, ts);
      LevelsFixpoint(r, rank, next, k - 1);
      FlatConcat(r, rank, ts, Levels(r, rank, next, k - 1));
    }
  }

  /** Ranks strictly decrease under `Flat`, so only the empty list can reproduce itself. */
  lemma {:induction false} NoSelfReproduction(r: Registry, rank: TypeName -> nat, ts: seq<TypeName>, k: nat)
    requires Acyclic(r, rank) && RanksBelow(ts, rank, k)
    requires ts == Flat(r, rank, ts)
    ensures ts == []
    decreases k
  {
    if k > 0 {
      AllParentTypesIsFlat(r, rank, ts, k - 1);
      NoSelfReproduction(r, rank, ts, k - 1);
    } else {
      assert forall i :: 0 <= i < |ts| ==> ts[i] !in ts;
    }
  }

  /**
   * `getParentTypes`: iterates over the very list it keeps appending to. The list is always a
   * prefix of `ParentTypes`, which bounds the iteration.
   */
  method GetParentTypes(r: Registry, ghost rank: TypeName -> nat, t: TypeName) returns (ps: seq<TypeName>)
    requires Acyclic(r, rank)
    ensures ps == ParentTypes(r, rank, t)
    decreases rank(t)
  {
    if |Extends(r, t)| == 0 { return []; }
    ps := Extends(r, t);
    WalkStarts(r, rank, t);
    var i := 0;
    while i < |ps|
      invariant i <= |ps| && Walk(r, rank, t, ps, i)
      decreases |ParentTypes(r, rank, t)| - i
    {
      WalkOn(r, rank, t, ps, i);
      var more := GetParentTypes(r, rank, ps[i]);
      ps := ps + more;
      i := i + 1;
    }
    WalkEnds(r, rank, t, ps);
  }

  ghost predicate Walk(r: Registry, rank: TypeName -> nat, t: TypeName, ps: seq<TypeName>, i: nat)
    requires Acyclic(r, rank)
  {
    IsProgress(r, rank, Extends(r, t), ParentTypes(r, rank, t), ps, i)
  }

  /** The loop has processed the first `i` elements of `ps`, which is a part of the final list. */
  ghost predicate IsProgress(r: Registry, rank: TypeName -> nat, first: seq<TypeName>, final: seq<TypeName>,
                             ps: seq<TypeName>, i: nat)
    requires Acyclic(r, rank)
  {
    && i <= |ps| && ps <= final && final == first + Flat(r, rank, final)
    && ps == first + Flat(r, rank, final[..i])
    && (i < |ps| ==> ps[i] == final[i] && final[i] in final)
  }

  /** Before the first round the list is the type's own parents. */
  lemma WalkStarts(r: Registry, rank: TypeName -> nat, t: TypeName)
    requires Acyclic(r, rank)
    ensures Walk(r, rank, t, Extends(r, t), 0)
  {
    LevelsFixpoint(r, rank, Extends(r, t), rank(t));
  }

  /** A round processes a type that ranks lower, and brings the end of the finished list one element closer. */
  lemma WalkOn(r: Registry, rank: TypeName -> nat, t: TypeName, ps: seq<TypeName>, i: nat)
    requires Acyclic(r, rank) && Walk(r, rank, t, ps, i) && i < |ps|
    ensures rank(ps[i]) < rank(t) && i < |ParentTypes(r, rank, t)|
    ensures Walk(r, rank, t, ps + ParentTypes(r, rank, ps[i]), i + 1)
  {
    PushStep(r, rank, ParentTypes(r, rank, t), Extends(r, t), ps, i);
  }

  lemma WalkEnds(r: Registry, rank: TypeName -> nat, t: TypeName, ps: seq<TypeName>)
    requires Acyclic(r, rank) && Walk(r, rank, t, ps, |ps|)
    ensures ps == ParentTypes(r, rank, t)
  {
    PrefixIsWhole(r, rank, Extends(r, t), ParentTypes(r, rank, t), ps, rank(t));
  }

  /** Processing one more element appends that element's parent list and stays within the final list. */
  lemma PushStep(r: Registry, rank: TypeName -> nat,
                   final: seq<TypeName>, first: seq<TypeName>, ps: seq<TypeName>, i: nat)
    requires Acyclic(r, rank) && IsProgress(r, rank, first, final, ps, i) && i < |ps|
    ensures IsProgress(r, rank, first, final, ps + ParentTypes(r, rank, ps[i]), i + 1)
  {
    FlatSplit(r, rank, final, i);
    Push(first, Flat(r, rank, final[..i]), ParentTypes(r, rank, final[i]), Flat(r, rank, final[i + 1..]), final, i);
  }

  lemma FlatSplit(r: Registry, rank: TypeName -> nat, ts: seq<TypeName>, i: nat)
    requires Acyclic(r, rank) && i < |ts|
    ensures Flat(r, rank, ts[..i + 1]) == Flat(r, rank, ts[..i]) + ParentTypes(r, rank, ts[i])
    ensures Flat(r, rank, ts) == Flat(r, rank, ts[..i]) + ParentTypes(r, rank, ts[i]) + Flat(r, rank, ts[i + 1..])
  {
    assert ts == ts[..i + 1] + ts[i + 1..] && ts[..i + 1] == ts[..i] + [ts[i]];
    FlatConcat(r, rank, ts[..i + 1], ts[i + 1..]);
    FlatConcat(r, rank, ts[..i], [ts[i]]);
    FlatOne(r, rank, ts[i]);
  }

  lemma Push(first: seq<TypeName>, done: seq<TypeName>, more: seq<TypeName>,
               rest: seq<TypeName>, final: seq<TypeName>, i: nat)
    requires final == first + (done + more + rest)
    ensures first + done + more <= final && first + done + more == first + (done + more)
    ensures i + 1 < |first + done + more| ==> (first + done + more)[i + 1] == final[i + 1] && final[i + 1] in final
  {
    assert final == (first + done + more) + rest;
  }

  /** A list that accounts for all of its own elements is the whole list. */
  lemma PrefixIsWhole(r: Registry, rank: TypeName -> nat,
                        first: seq<TypeName>, final: seq<TypeName>, ps: seq<TypeName>, k: nat)
    requires Acyclic(r, rank) && IsProgress(r, rank, first, final, ps, |ps|) && RanksBelow(final, rank, k)
    ensures ps == final
  {
    var rest := final[|ps|..];
    assert final == ps + rest && final[..|ps|] == ps;
    FlatConcat(r, rank, ps, rest);
    SameRest(first, Flat(r, rank, ps), Flat(r, rank, rest), final, ps);
    NoSelfReproduction(r, rank, rest, k);
  }

  /** If a list is a prefix of its own continuation, the rests agree. */
  lemma SameRest(first: seq<TypeName>, done: seq<TypeName>, more: seq<TypeName>,
                   final: seq<TypeName>, ps: seq<TypeName>)
    requires ps <= final && ps == first + done && final == first + (done + more)
    ensures final[|ps|..] == more && final == ps + final[|ps|..]
  {
    assert final == ps + more;
  }

  // ---------- Exactly the ancestors ----------

  /** `a` is reached from `t` by following `extends` one or more times. */
  ghost predicate IsAncestor(r: Registry, rank: TypeName -> nat, t: TypeName, a: TypeName)
    requires Acyclic(r, rank)
    decreases rank(t)
  {
    exists p :: p in Extends(r, t) && (a == p || IsAncestor(r, rank, p, a))
  }

  lemma {:induction false} AncestorTransitive(
      r: Registry, rank: TypeName -> nat, t: TypeName, a: TypeName, b: TypeName)
    requires Acyclic(r, rank) && IsAncestor(r, rank, t, a) && IsAncestor(r, rank, a, b)
    ensures IsAncestor(r, rank, t, b)
    decreases rank(t)
  {
    var p :| p in Extends(r, t) && (a == p || IsAncestor(r, rank, p, a));
    if a != p {
      AncestorTransitive(r, rank, p, a, b);
    }
  }

  /** The computed list holds exactly the strict ancestors. */
  lemma {:induction false} ParentTypesAreAncestors(r: Registry, rank: TypeName -> nat, t: TypeName, a: TypeName)
    requires Acyclic(r, rank)
    ensures a in ParentTypes(r, rank, t) <==> IsAncestor(r, rank, t, a)
    decreases rank(t), 1
  {
    if a in ParentTypes(r, rank, t) {
      var p := LevelSource(r, rank, Extends(r, t), rank(t), a);
    }
    if IsAncestor(r, rank, t, a) {
      var p :| p in Extends(r, t) && (a == p || IsAncestor(r, rank, p, a));
      LevelsFixpoint(r, rank, Extends(r, t), rank(t));
      assert p in ParentTypes(r, rank, t);
      if a != p {
        ParentTypesAreAncestors(r, rank, p, a);
        FlatMember(r, rank, ParentTypes(r, rank, t), p, a);
      }
    }
  }

  /** Whatever a level-by-level list holds is in its first level or an ancestor of that. */
  lemma {:induction false} LevelSource(r: Registry, rank: TypeName -> nat, ts: seq<TypeName>, k: nat, a: TypeName)
      returns (y: TypeName)
    requires Acyclic(r, rank) && RanksBelow(ts, rank, k) && a in Levels(r, rank, ts, k)
    ensures y in ts && (a == y || IsAncestor(r, rank, y, a))
    decreases k, 0
  {
    if a in ts { return a; }
    LevelsStep(r, rank, ts, k);
    var z := LevelSource(r, rank, Flat(r, rank, ts), k - 1, a);
    y := FlatSource(r, rank, ts, z);
    ParentTypesAreAncestors(r, rank, y, z);
    if a != z {
      AncestorTransitive(r, rank, y, z, a);
    }
  }

  lemma {:induction false} FlatMember(r: Registry, rank: TypeName -> nat, ts: seq<TypeName>, p: TypeName, a: TypeName)
    requires Acyclic(r, rank) && p in ts && a in ParentTypes(r, rank, p)
    ensures a in Flat(r, rank, ts)
    decreases |ts|
  {
    if ts[0] != p {
      FlatMember(r, rank, ts[1..], p, a);
    }
  }

  lemma {:induction false} FlatSource(r: Registry, rank: TypeName -> nat, ts: seq<TypeName>, a: TypeName)
      returns (p: TypeName)
    requires Acyclic(r, rank) && a in Flat(r, rank, ts)
    ensures p in ts && a in ParentTypes(r, rank, p)
    decreases |ts|
  {
    if a in ParentTypes(r, rank, ts[0]) {
      p := ts[0];
    } else {
      p := FlatSource(r, rank, ts[1..], a);
    }
  }

  // ---------- Nearest first, under single inheritance ----------

  /** The first occurrences of a list, in order. */
  function FirstOccurrences(ts: seq<TypeName>): (u: seq<TypeName>) {
    if ts == [] then [] else
      var u := FirstOccurrences(ts[..|ts| - 1]);
      if ts[|ts| - 1] in u then u else u + [ts[|ts| - 1]]
  }

  /** The ancestors of `t` along its only line of inheritance, nearest first. */
  ghost function Chain(r: Registry, rank: TypeName -> nat, t: TypeName): (c: seq<TypeName>)
    requires Acyclic(r, rank) && SingleInheritance(r)
    ensures RanksBelow(c, rank, rank(t))
    decreases rank(t)
  {
    if Extends(r, t) == [] then [] else
      var p := Extends(r, t)[0];
      assert p in Extends(r, t);
      [p] + Chain(r, rank, p)
  }

  lemma {:induction false} FirstOccurrencesElements(ts: seq<TypeName>)
    ensures forall x :: x in FirstOccurrences(ts) <==> x in ts
  {
    if ts != [] {
      FirstOccurrencesElements(ts[..|ts| - 1]);
      assert ts == ts[..|ts| - 1] + [ts[|ts| - 1]];
    }
  }

  lemma {:induction false} FirstOccurrencesIgnoreRepeats(a: seq<TypeName>, b: seq<TypeName>)
    requires forall x :: x in b ==> x in a
    ensures FirstOccurrences(a + b) == FirstOccurrences(a)
  {
    if b == [] {
      assert a + b == a;
    } else {
      var front := b[..|b| - 1];
      assert (a + b)[..|a + b| - 1] == a + front;
      FirstOccurrencesIgnoreRepeats(a, front);
      FirstOccurrencesElements(a);
    }
  }

  lemma {:induction false} FirstOccurrencesCons(x: TypeName, b: seq<TypeName>)
    requires x !in b
    ensures FirstOccurrences([x] + b) == [x] + FirstOccurrences(b)
  {
    if b == [] {
      assert [x] + b == [x] && [x][..0] == [];
    } else {
      var front := b[..|b| - 1];
      assert ([x] + b)[..|b|] == [x] + front;
      FirstOccurrencesCons(x, front);
    }
  }

  /** With single inheritance, dropping repeats from the computed list leaves the line of ancestors in order. */
  lemma {:induction false} ParentTypesNearestFirst(r: Registry, rank: TypeName -> nat, t: TypeName)
    requires Acyclic(r, rank) && SingleInheritance(r)
    ensures FirstOccurrences(ParentTypes(r, rank, t)) == Chain(r, rank, t)
    decreases rank(t)
  {
    var first := Extends(r, t);
    if first != [] {
      var p := first[0];
      assert first == [p] && p in Extends(r, t);
      ParentTypesNearestFirst(r, rank, p);
      var up := ParentTypes(r, rank, p);
      var more := OnlyParentFirst(r, rank, t, p);
      FirstOccurrencesIgnoreRepeats([p] + up, more);
      FirstOccurrencesCons(p, up);
    }
  }

  /** The list of a type with one parent: that parent, the parent's list, then repeats of it. */
  lemma {:induction false} OnlyParentFirst(r: Registry, rank: TypeName -> nat, t: TypeName, p: TypeName)
      returns (more: seq<TypeName>)
    requires Acyclic(r, rank) && Extends(r, t) == [p] && rank(p) < rank(t)
    ensures p !in ParentTypes(r, rank, p)
    ensures ParentTypes(r, rank, t) == [p] + ParentTypes(r, rank, p) + more
    ensures forall x :: x in more ==> x in ParentTypes(r, rank, p)
  {
    var up, k := ParentTypes(r, rank, p), rank(t) - 1;
    LevelsStep(r, rank, [p], rank(t));
    FlatOne(r, rank, p);
    var deeper := Levels(r, rank, up, k);
    if up == [] { return []; }
    LevelsStep(r, rank, up, k);
    more := deeper[|up|..];
    assert deeper == up + more;
    forall x | x in more ensures x in up {
      assert x in deeper;
      var y := LevelSource(r, rank, up, k, x);
      if x != y {
        ParentTypesAreAncestors(r, rank, p, y);
        AncestorTransitive(r, rank, p, y, x);
        ParentTypesAreAncestors(r, rank, p, x);
      }
    }
  }
}
