/**
 * Validation of a workflow's node groups (`validateWorkflowNodeGroups` in packages/cli/src/workflow-helpers.ts).
 */
module NodeGroups {

  datatype Group = Group(name: string, nodeIds: seq<string>)

  datatype Verdict =
    | Accepted
    | DuplicateName(name: string)
    | UnknownNode(group: string, node: string)
    | InTwoGroups(node: string, first: string, second: string)

  /** One mention of a node id in a group. */
  datatype Mention = Mention(group: string, node: string)

  function MentionsOf(g: Group, n: nat): (ms: seq<Mention>)
    requires n <= |g.nodeIds|
    ensures |ms| == n && forall i :: 0 <= i < n ==> ms[i] == Mention(g.name, g.nodeIds[i])
  {
    seq(n, i requires 0 <= i < n => Mention(g.name, g.nodeIds[i]))
  }

  /** All mentions, in the order of the groups. */
  function Mentions(groups: seq<Group>): (ms: seq<Mention>) {
    if groups == [] then [] else
      var last := groups[|groups| - 1];
      Mentions(groups[..|groups| - 1]) + MentionsOf(last, |last.nodeIds|)
  }

  ghost predicate DistinctNames(groups: seq<Group>) {
    forall i, j :: 0 <= i < j < |groups| ==> groups[i].name != groups[j].name
  }

  predicate Exists(nodes: seq<string>, node: string) {
    node != "" && node in nodes
  }

  /** A node may be mentioned again only after mentions in the group whose name is empty. */
  ghost predicate OneGroupEach(ms: seq<Mention>) {
    forall i, j :: 0 <= i < j < |ms| && ms[i].node == ms[j].node ==> ms[i].group == ""
  }

  ghost predicate AllExist(nodes: seq<string>, ms: seq<Mention>) {
    forall i :: 0 <= i < |ms| ==> Exists(nodes, ms[i].node)
  }

  ghost predicate Acceptable(nodes: seq<string>, groups: seq<Group>) {
    DistinctNames(groups) && AllExist(nodes, Mentions(groups)) && OneGroupEach(Mentions(groups))
  }

  // ---------- The same, position by position ----------

  ghost predicate IsPosition(groups: seq<Group>, g: int, n: int) {
    0 <= g < |groups| && 0 <= n < |groups[g].nodeIds|
  }

  ghost predicate Before(g: int, n: int, h: int, m: int) {
    g < h || (g == h && n < m)
  }

  ghost predicate EveryIdExists(nodes: seq<string>, groups: seq<Group>) {
    forall g, n :: IsPosition(groups, g, n) ==> groups[g].nodeIds[n] != "" && groups[g].nodeIds[n] in nodes
  }

  /** An id occurs again, in its group or a later one, only if the earlier group has no name. */
  ghost predicate SharedOnlyByNameless(groups: seq<Group>) {
    forall g, n, h, m ::
      (IsPosition(groups, g, n) && IsPosition(groups, h, m) && Before(g, n, h, m) &&
       groups[g].nodeIds[n] == groups[h].nodeIds[m])
      ==> groups[g].name == ""
  }

  lemma {:induction false} MentionedExactly(groups: seq<Group>, x: Mention)
    ensures x in Mentions(groups) <==>
      exists g, n :: IsPosition(groups, g, n) && x == Mention(groups[g].name, groups[g].nodeIds[n])
  {
    if groups != [] {
      var front, last := groups[..|groups| - 1], groups[|groups| - 1];
      MentionedExactly(front, x);
      if x in Mentions(front) {
        var g, n :| IsPosition(front, g, n) && x == Mention(front[g].name, front[g].nodeIds[n]);
        assert IsPosition(groups, g, n);
      }
      var own := MentionsOf(last, |last.nodeIds|);
      if x in own {
        var n :| 0 <= n < |own| && own[n] == x;
        assert IsPosition(groups, |groups| - 1, n);
      }
      if g, n :| IsPosition(groups, g, n) && x == Mention(groups[g].name, groups[g].nodeIds[n]) {
        if g < |front| { assert IsPosition(front, g, n); } else { assert own[n] == x; }
      }
    }
  }

  lemma {:induction false} AllExistExactly(nodes: seq<string>, groups: seq<Group>)
    ensures AllExist(nodes, Mentions(groups)) <==> EveryIdExists(nodes, groups)
  {
    var ms := Mentions(groups);
    if AllExist(nodes, ms) {
      forall g, n | IsPosition(groups, g, n)
        ensures groups[g].nodeIds[n] != "" && groups[g].nodeIds[n] in nodes
      {
        MentionedExactly(groups, Mention(groups[g].name, groups[g].nodeIds[n]));
      }
    }
    if EveryIdExists(nodes, groups) {
      forall i | 0 <= i < |ms| ensures Exists(nodes, ms[i].node) {
        MentionedExactly(groups, ms[i]);
      }
    }
  }

  /** The last group against those before it. */
  ghost predicate LastSharesOnlyWithNameless(groups: seq<Group>)
    requires groups != []
  {
    var front, last := groups[..|groups| - 1], groups[|groups| - 1];
    && (forall x :: x in Mentions(front) && x.node in last.nodeIds ==> x.group == "")
    && ((exists n, m :: 0 <= n < m < |last.nodeIds| && last.nodeIds[n] == last.nodeIds[m]) ==> last.name == "")
  }

  lemma OneGroupEachAppends(a: seq<Mention>, b: seq<Mention>)
    ensures OneGroupEach(a + b) <==>
      && OneGroupEach(a) && OneGroupEach(b)
      && forall i, j :: 0 <= i < |a| && 0 <= j < |b| && a[i].node == b[j].node ==> a[i].group == ""
  {
    var ms := a + b;
    assert forall j :: 0 <= j < |b| ==> ms[|a| + j] == b[j];
    if OneGroupEach(ms) {
      forall i, j | 0 <= i < |a| && 0 <= j < |b| && a[i].node == b[j].node ensures a[i].group == "" {
        assert ms[i] == a[i] && ms[|a| + j] == b[j];
      }
      forall i, j | 0 <= i < j < |a| && a[i].node == a[j].node ensures a[i].group == "" {
        assert ms[i] == a[i] && ms[j] == a[j];
      }
      forall i, j | 0 <= i < j < |b| && b[i].node == b[j].node ensures b[i].group == "" {
        assert ms[|a| + i] == b[i] && ms[|a| + j] == b[j];
      }
    }
  }

  lemma OwnMentionsShare(g: Group)
    ensures OneGroupEach(MentionsOf(g, |g.nodeIds|)) <==>
      ((exists n, m :: 0 <= n < m < |g.nodeIds| && g.nodeIds[n] == g.nodeIds[m]) ==> g.name == "")
  {
    var b := MentionsOf(g, |g.nodeIds|);
    if n, m :| 0 <= n < m < |g.nodeIds| && g.nodeIds[n] == g.nodeIds[m] {
      assert b[n].node == b[m].node;
    }
  }

  lemma EarlierMentionsShare(a: seq<Mention>, g: Group)
    ensures var b := MentionsOf(g, |g.nodeIds|);
      (forall i, j :: 0 <= i < |a| && 0 <= j < |b| && a[i].node == b[j].node ==> a[i].group == "") <==>
      (forall x :: x in a && x.node in g.nodeIds ==> x.group == "")
  {
    var b := MentionsOf(g, |g.nodeIds|);
    if forall i, j :: 0 <= i < |a| && 0 <= j < |b| && a[i].node == b[j].node ==> a[i].group == "" {
      forall x | x in a && x.node in g.nodeIds ensures x.group == "" {
        var i, n :| 0 <= i < |a| && a[i] == x && 0 <= n < |g.nodeIds| && g.nodeIds[n] == x.node;
        assert b[n].node == x.node;
      }
    }
  }

  lemma OneGroupEachLast(groups: seq<Group>)
    requires groups != []
    ensures OneGroupEach(Mentions(groups)) <==>
      OneGroupEach(Mentions(groups[..|groups| - 1])) && LastSharesOnlyWithNameless(groups)
  {
    var last := groups[|groups| - 1];
    var a, b := Mentions(groups[..|groups| - 1]), MentionsOf(last, |last.nodeIds|);
    OneGroupEachAppends(a, b);
    EarlierMentionsShare(a, last);
    OwnMentionsShare(last);
  }

  lemma {:induction false} OneGroupEachExactly(groups: seq<Group>)
    ensures OneGroupEach(Mentions(groups)) <==> SharedOnlyByNameless(groups)
  {
    if groups != [] {
      OneGroupEachExactly(groups[..|groups| - 1]);
      OneGroupEachLast(groups);
      SharedAppends(groups);
    }
  }

  lemma SharedAppends(groups: seq<Group>)
    requires groups != []
    ensures SharedOnlyByNameless(groups) <==>
      SharedOnlyByNameless(groups[..|groups| - 1]) && LastSharesOnlyWithNameless(groups)
  {
    var front, last, l := groups[..|groups| - 1], groups[|groups| - 1], |groups| - 1;
    forall x ensures x in Mentions(front) <==>
        exists g, n :: IsPosition(front, g, n) && x == Mention(front[g].name, front[g].nodeIds[n])
    {
      MentionedExactly(front, x);
    }
    if SharedOnlyByNameless(groups) {
      forall g, n, h, m | IsPosition(front, g, n) && IsPosition(front, h, m) && Before(g, n, h, m) &&
          front[g].nodeIds[n] == front[h].nodeIds[m]
        ensures front[g].name == ""
      {
        assert IsPosition(groups, g, n) && IsPosition(groups, h, m);
      }
      forall x | x in Mentions(front) && x.node in last.nodeIds ensures x.group == "" {
        var g, n :| IsPosition(front, g, n) && x == Mention(front[g].name, front[g].nodeIds[n]);
        var m :| 0 <= m < |last.nodeIds| && last.nodeIds[m] == x.node;
        assert IsPosition(groups, g, n) && IsPosition(groups, l, m) && Before(g, n, l, m);
      }
      if n, m :| 0 <= n < m < |last.nodeIds| && last.nodeIds[n] == last.nodeIds[m] {
        assert IsPosition(groups, l, n) && IsPosition(groups, l, m) && Before(l, n, l, m);
      }
    }
    if SharedOnlyByNameless(front) && LastSharesOnlyWithNameless(groups) {
      forall g, n, h, m | IsPosition(groups, g, n) && IsPosition(groups, h, m) && Before(g, n, h, m) &&
          groups[g].nodeIds[n] == groups[h].nodeIds[m]
        ensures groups[g].name == ""
      {
        if h < l {
          assert IsPosition(front, g, n) && IsPosition(front, h, m);
        } else if g < l {
          assert IsPosition(front, g, n) && Mention(front[g].name, front[g].nodeIds[n]) in Mentions(front);
        }
      }
    }
  }

  /**
   * What is accepted, in full: no two groups have the same name, every id is that of a node, and an id occurs again
   * only after a group without a name.
   */
  lemma AcceptableExactly(nodes: seq<string>, groups: seq<Group>)
    ensures Acceptable(nodes, groups) <==>
      && (forall g, h :: 0 <= g < h < |groups| ==> groups[g].name != groups[h].name)
      && EveryIdExists(nodes, groups) && SharedOnlyByNameless(groups)
  {
    AllExistExactly(nodes, groups);
    OneGroupEachExactly(groups);
  }

  // ---------- The two loops ----------

  /** The map holds the group of each node's latest mention. */
  ghost predicate Tracks(nodeToGroup: map<string, string>, ms: seq<Mention>) {
    && (forall i :: 0 <= i < |ms| ==> ms[i].node in nodeToGroup)
    && (forall n :: n in nodeToGroup ==> exists i :: 0 <= i < |ms| && ms[i] == Mention(nodeToGroup[n], n))
    && (forall i :: 0 <= i < |ms| && ms[i].group != "" ==> nodeToGroup[ms[i].node] == ms[i].group)
  }

  /** A violation among the first mentions, or names, is a violation among all. */
  lemma {:induction false} MentionsPrefix(groups: seq<Group>, k: nat)
    requires k <= |groups|
    ensures Mentions(groups[..k]) <= Mentions(groups)
    decreases |groups|
  {
    if k < |groups| {
      var front := groups[..|groups| - 1];
      assert front[..k] == groups[..k];
      MentionsPrefix(front, k);
    } else {
      assert groups[..k] == groups;
    }
  }

  /** What a verdict says about a node is so. */
  ghost predicate Explained(v: Verdict, nodes: seq<string>, ms: seq<Mention>) {
    && (v.UnknownNode? ==> Mention(v.group, v.node) in ms && !(v.node != "" && v.node in nodes))
    && (v.InTwoGroups? ==>
      && v.first != ""
      && exists i, j :: 0 <= i < j < |ms| && ms[i] == Mention(v.first, v.node) && ms[j] == Mention(v.second, v.node))
  }

  lemma StaysExplained(v: Verdict, nodes: seq<string>, a: seq<Mention>, b: seq<Mention>)
    requires a <= b && Explained(v, nodes, a)
    ensures Explained(v, nodes, b)
  {
    if v.UnknownNode? {
      var i :| 0 <= i < |a| && a[i] == Mention(v.group, v.node);
      assert b[i] == a[i];
    }
    if v.InTwoGroups? {
      var i, j :| 0 <= i < j < |a| && a[i] == Mention(v.first, v.node) && a[j] == Mention(v.second, v.node);
      assert b[i] == a[i] && b[j] == a[j];
    }
  }

  lemma ExplainedViolates(v: Verdict, nodes: seq<string>, ms: seq<Mention>)
    requires Explained(v, nodes, ms)
    ensures v.UnknownNode? ==> !AllExist(nodes, ms)
    ensures v.InTwoGroups? ==> !OneGroupEach(ms)
  {
  }

  /** The next mention, if it is not in order. */
  lemma FirstViolation(nodes: seq<string>, ms: seq<Mention>, nodeToGroup: map<string, string>, m: Mention)
    requires Checked(nodes, ms, nodeToGroup)
    ensures !(m.node != "" && m.node in nodes) ==> Explained(UnknownNode(m.group, m.node), nodes, ms + [m])
    ensures m.node in nodeToGroup && nodeToGroup[m.node] != "" ==>
      Explained(InTwoGroups(m.node, nodeToGroup[m.node], m.group), nodes, ms + [m])
  {
    var next := ms + [m];
    assert next[|ms|] == m;
    if m.node in nodeToGroup {
      var i :| 0 <= i < |ms| && ms[i] == Mention(nodeToGroup[m.node], m.node);
      assert next[i] == ms[i];
    }
  }

  /** What has been checked of the mentions so far. */
  ghost predicate Checked(nodes: seq<string>, ms: seq<Mention>, nodeToGroup: map<string, string>) {
    AllExist(nodes, ms) && OneGroupEach(ms) && Tracks(nodeToGroup, ms)
  }

  method ValidateNodeGroups(nodes: seq<string>, groups: seq<Group>) returns (v: Verdict)
    ensures v.Accepted? <==> Acceptable(nodes, groups)
    ensures v.DuplicateName? ==> exists g, h :: 0 <= g < h < |groups| && groups[g].name == groups[h].name == v.name
    ensures Explained(v, nodes, Mentions(groups))
  {
    if |groups| == 0 { return Accepted; }
    var seen: set<string> := {};
    var nodeToGroup: map<string, string> := map[];
    for g := 0 to |groups|
      invariant forall name :: name in seen <==> exists i :: 0 <= i < g && groups[i].name == name
      invariant DistinctNames(groups[..g])
      invariant Checked(nodes, Mentions(groups[..g]), nodeToGroup)
    {
      var group := groups[g];
      if group.name in seen {
        return DuplicateName(group.name);
      }
      seen := seen + {group.name};
      v, nodeToGroup := CheckGroup(nodes, group, nodeToGroup, Mentions(groups[..g]));
      assert groups[..g + 1][..g] == groups[..g];
      assert Mentions(groups[..g + 1]) == Mentions(groups[..g]) + MentionsOf(group, |group.nodeIds|);
      if !v.Accepted? {
        MentionsPrefix(groups, g + 1);
        StaysExplained(v, nodes, Mentions(groups[..g + 1]), Mentions(groups));
        ExplainedViolates(v, nodes, Mentions(groups));
        return;
      }
    }
    assert groups[..|groups|] == groups;
    return Accepted;
  }

  /** The `n`-th id of a group: what either error says of it is so, and without an error one more mention is checked. */
  lemma NextMention(nodes: seq<string>, before: seq<Mention>, group: Group, n: nat, nodeToGroup: map<string, string>)
    requires n < |group.nodeIds| && Checked(nodes, before + MentionsOf(group, n), nodeToGroup)
    ensures var node, all := group.nodeIds[n], before + MentionsOf(group, |group.nodeIds|);
      var known, taken := node != "" && node in nodes, node in nodeToGroup && nodeToGroup[node] != "";
      && (!known ==> Explained(UnknownNode(group.name, node), nodes, all))
      && (taken ==> Explained(InTwoGroups(node, nodeToGroup[node], group.name), nodes, all))
      && (known && !taken ==> Checked(nodes, before + MentionsOf(group, n + 1), nodeToGroup[node := group.name]))
  {
    var ms, m := before + MentionsOf(group, n), Mention(group.name, group.nodeIds[n]);
    var all := before + MentionsOf(group, |group.nodeIds|);
    assert before + MentionsOf(group, n + 1) == ms + [m] == all[..|ms| + 1];
    OneMoreMention(nodes, ms, nodeToGroup, m);
    FirstViolation(nodes, ms, nodeToGroup, m);
    if !(m.node != "" && m.node in nodes) {
      StaysExplained(UnknownNode(m.group, m.node), nodes, ms + [m], all);
    }
    if m.node in nodeToGroup && nodeToGroup[m.node] != "" {
      StaysExplained(InTwoGroups(m.node, nodeToGroup[m.node], m.group), nodes, ms + [m], all);
    }
  }

  /** The inner loop: the node ids of one group, after the given mentions. */
  method CheckGroup(nodes: seq<string>, group: Group, nodeToGroup: map<string, string>, ghost before: seq<Mention>)
      returns (v: Verdict, nodeToGroup': map<string, string>)
    requires Checked(nodes, before, nodeToGroup)
    ensures v.Accepted? ==> Checked(nodes, before + MentionsOf(group, |group.nodeIds|), nodeToGroup')
    ensures Explained(v, nodes, before + MentionsOf(group, |group.nodeIds|))
    ensures !v.DuplicateName?
  {
    nodeToGroup' := nodeToGroup;
    assert before + MentionsOf(group, 0) == before;
    for n := 0 to |group.nodeIds|
      invariant Checked(nodes, before + MentionsOf(group, n), nodeToGroup')
    {
      NextMention(nodes, before, group, n, nodeToGroup');
      var node := group.nodeIds[n];
      if !(node != "" && node in nodes) {
        return UnknownNode(group.name, node), nodeToGroup';
      }
      if node in nodeToGroup' && nodeToGroup'[node] != "" {
        return InTwoGroups(node, nodeToGroup'[node], group.name), nodeToGroup';
      }
      nodeToGroup' := nodeToGroup'[node := group.name];
    }
    return Accepted, nodeToGroup';
  }

  /** One more mention is in order exactly if its node exists and was last mentioned in a nameless group, if at all. */
  lemma OneMoreMention(nodes: seq<string>, ms: seq<Mention>, nodeToGroup: map<string, string>, m: Mention)
    requires Checked(nodes, ms, nodeToGroup)
    ensures AllExist(nodes, ms + [m]) <==> Exists(nodes, m.node)
    ensures OneGroupEach(ms + [m]) <==> (m.node in nodeToGroup ==> nodeToGroup[m.node] == "")
    ensures OneGroupEach(ms + [m]) ==> Tracks(nodeToGroup[m.node := m.group], ms + [m])
  {
    var next := ms + [m];
    assert next[|ms|] == m && forall i :: 0 <= i < |ms| ==> next[i] == ms[i];
    if m.node in nodeToGroup {
      var i :| 0 <= i < |ms| && ms[i] == Mention(nodeToGroup[m.node], m.node);
      assert next[i].node == next[|ms|].node;
    }
    if m.node in nodeToGroup ==> nodeToGroup[m.node] == "" {
      TracksOneMore(nodeToGroup, ms, m);
      assert forall i :: 0 <= i < |ms| && ms[i].node == m.node ==> ms[i].group == "";
    }
  }

  lemma TracksOneMore(nodeToGroup: map<string, string>, ms: seq<Mention>, m: Mention)
    requires Tracks(nodeToGroup, ms) && (m.node in nodeToGroup ==> nodeToGroup[m.node] == "")
    ensures Tracks(nodeToGroup[m.node := m.group], ms + [m])
  {
    var next, now := ms + [m], nodeToGroup[m.node := m.group];
    forall n | n in now ensures exists i :: 0 <= i < |next| && next[i] == Mention(now[n], n) {
      if n == m.node {
        assert next[|ms|] == Mention(now[n], n);
      } else {
        var i :| 0 <= i < |ms| && ms[i] == Mention(nodeToGroup[n], n);
        assert next[i] == Mention(now[n], n);
      }
    }
  }

  /** When no group name is empty, acceptance means that no node is mentioned twice at all. */
  lemma NamedGroupsShareNothing(nodes: seq<string>, groups: seq<Group>)
    requires forall i :: 0 <= i < |groups| ==> groups[i].name != ""
    ensures Acceptable(nodes, groups) <==>
      && DistinctNames(groups) && AllExist(nodes, Mentions(groups))
      && forall i, j :: 0 <= i < j < |Mentions(groups)| ==> Mentions(groups)[i].node != Mentions(groups)[j].node
  {
    MentionsAreNamed(groups);
  }

  /** A node of the group with the empty name may be in another group as well. */
  lemma NamelessGroupSharesNode(n: string, g: string)
    requires n != "" && g != ""
    ensures var groups := [Group("", [n]), Group(g, [n])];
      Acceptable([n], groups) && Mentions(groups) == [Mention("", n), Mention(g, n)]
  {
    var first, groups := [Group("", [n])], [Group("", [n]), Group(g, [n])];
    assert first[..0] == [] && Mentions(first) == Mentions([]) + MentionsOf(first[0], 1);
    assert groups[..1] == first && Mentions(groups) == Mentions(first) + MentionsOf(groups[1], 1);
    assert Mentions(first) == [Mention("", n)];
    assert Mentions(groups) == [Mention("", n), Mention(g, n)];
  }

  lemma {:induction false} MentionsAreNamed(groups: seq<Group>)
    requires forall i :: 0 <= i < |groups| ==> groups[i].name != ""
    ensures forall i :: 0 <= i < |Mentions(groups)| ==> Mentions(groups)[i].group != ""
  {
    if groups != [] {
      MentionsAreNamed(groups[..|groups| - 1]);
    }
  }
}
