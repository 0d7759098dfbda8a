/** Counting and grouping a report's abnormal findings by node. */
module Grouping {
  import opened Inspect
  import opened Ordering

  function Select(fs: seq<Finding>, level: Level): seq<Finding> {
    if fs == [] then []
    else Select(fs[..|fs| - 1], level) + if fs[|fs| - 1].level == level then [fs[|fs| - 1]] else []
  }

  /** Critical, then Warn, then Unknown findings, each in report order. */
  function AbnormalOf(fs: seq<Finding>): seq<Finding> {
    Select(fs, Critical) + Select(fs, Warn) + Select(fs, Unknown)
  }

  // ---- what they mean ----

  /** Where the findings of one level stand. */
  ghost function PlacesOf(fs: seq<Finding>, level: Level): set<nat> {
    set i: nat | i < |fs| && fs[i].level == level
  }

  lemma {:induction false} SelectCount(fs: seq<Finding>, level: Level)
    ensures |Select(fs, level)| == |PlacesOf(fs, level)|
  {
    hide PlacesOf;
    if fs == [] {
      NoPlacesOf(level);
    } else {
      SelectCount(fs[..|fs| - 1], level);
      PlacesOfSnoc(fs, level);
    }
  }

  lemma NoPlacesOf(level: Level)
    ensures |PlacesOf([], level)| == 0
  {
  }

  lemma PlacesOfSnoc(fs: seq<Finding>, level: Level)
    requires fs != []
    ensures |PlacesOf(fs, level)| == |PlacesOf(fs[..|fs| - 1], level)| + if fs[|fs| - 1].level == level then 1 else 0
  {
    var n := |fs| - 1;
    var all, front := PlacesOf(fs, level), PlacesOf(fs[..n], level);
    forall i: nat ensures i in front <==> i < n && i in all {
      if i < n { assert fs[..n][i] == fs[i]; }
    }
    OneMorePlace(all, front, n, fs[n].level == level);
  }

  /** A list of places, each below `n`. */
  predicate Below(idx: seq<nat>, n: nat) {
    forall k :: 0 <= k < |idx| ==> idx[k] < n
  }

  /** The findings at those places, one after the other. */
  function Picked(fs: seq<Finding>, idx: seq<nat>): (r: seq<Finding>)
    requires Below(idx, |fs|)
    ensures |r| == |idx| && forall k :: 0 <= k < |r| ==> r[k] == fs[idx[k]]
  {
    seq(|idx|, k requires 0 <= k < |idx| => fs[idx[k]])
  }

  predicate Ascending(idx: seq<nat>) {
    forall a, b :: 0 <= a < b < |idx| ==> idx[a] < idx[b]
  }

  lemma {:induction false} SelectPicks(fs: seq<Finding>, level: Level) returns (idx: seq<nat>)
    ensures Below(idx, |fs|) && Select(fs, level) == Picked(fs, idx)
    ensures Ascending(idx) && forall i: nat :: i in idx <==> i < |fs| && fs[i].level == level
  {
    idx := [];
    if fs != [] {
      var n := |fs| - 1;
      var before := SelectPicks(fs[..n], level);
      idx := before + if fs[n].level == level then [n] else [];
      assert forall k :: 0 <= k < |before| ==> before[k] in before && fs[..n][before[k]] == fs[before[k]];
    }
  }

  /** The finding at `i` is listed before the one at `j`. */
  predicate MoreUrgent(fs: seq<Finding>, i: nat, j: nat)
    requires i < |fs| && j < |fs|
  {
    || (fs[i].level == Critical && fs[j].level != Critical)
    || (fs[i].level == Warn && fs[j].level == Unknown)
    || (fs[i].level == fs[j].level && i < j)
  }

  predicate UrgencyOrder(fs: seq<Finding>, idx: seq<nat>)
    requires Below(idx, |fs|)
  {
    forall a, b :: 0 <= a < b < |idx| ==> MoreUrgent(fs, idx[a], idx[b])
  }

  ghost predicate PlacesOfAbnormal(fs: seq<Finding>, idx: seq<nat>) {
    forall i: nat :: i in idx <==> i < |fs| && fs[i].level != OK
  }

  /** Every finding that is not OK, once: Critical ones first, then Warn, then Unknown, and those
      of one level as they stand in the report. */
  ghost predicate MostUrgentFirst(fs: seq<Finding>, out: seq<Finding>) {
    exists idx: seq<nat> ::
      Below(idx, |fs|) && out == Picked(fs, idx) && PlacesOfAbnormal(fs, idx) && UrgencyOrder(fs, idx)
  }

  lemma AbnormalMeans(fs: seq<Finding>)
    ensures MostUrgentFirst(fs, AbnormalOf(fs))
  {
    hide Select, UrgencyOrder, PlacesOfAbnormal, Ascending, Picked;
    var crit := SelectPicks(fs, Critical);
    var warn := SelectPicks(fs, Warn);
    var unknown := SelectPicks(fs, Unknown);
    Urgency(fs, crit, warn, unknown);
    PickedThree(fs, crit, warn, unknown);
  }

  lemma PickedThree(fs: seq<Finding>, a: seq<nat>, b: seq<nat>, c: seq<nat>)
    requires Below(a, |fs|) && Below(b, |fs|) && Below(c, |fs|)
    ensures Below(a + b + c, |fs|) && Picked(fs, a) + Picked(fs, b) + Picked(fs, c) == Picked(fs, a + b + c)
  {
  }

  lemma Urgency(fs: seq<Finding>, crit: seq<nat>, warn: seq<nat>, unknown: seq<nat>)
    requires Ascending(crit) && Ascending(warn) && Ascending(unknown)
    requires forall i: nat :: i in crit <==> i < |fs| && fs[i].level == Critical
    requires forall i: nat :: i in warn <==> i < |fs| && fs[i].level == Warn
    requires forall i: nat :: i in unknown <==> i < |fs| && fs[i].level == Unknown
    ensures var idx := crit + warn + unknown;
      Below(idx, |fs|) && PlacesOfAbnormal(fs, idx) && UrgencyOrder(fs, idx)
  {
    InLevel(fs, crit, Critical);
    InLevel(fs, warn, Warn);
    InLevel(fs, unknown, Unknown);
    assert forall i: nat :: i in crit + warn + unknown <==> i in crit || i in warn || i in unknown;
  }

  lemma InLevel(fs: seq<Finding>, idx: seq<nat>, level: Level)
    requires forall i: nat :: i in idx ==> i < |fs| && fs[i].level == level
    ensures forall k :: 0 <= k < |idx| ==> idx[k] < |fs| && fs[idx[k]].level == level
  {
    forall k | 0 <= k < |idx| ensures idx[k] < |fs| && fs[idx[k]].level == level { assert idx[k] in idx; }
  }

  method Counts(fs: seq<Finding>) returns (ok: nat, warn: nat, crit: nat, unknown: nat)
    ensures ok == |PlacesOf(fs, OK)| && warn == |PlacesOf(fs, Warn)|
    ensures crit == |PlacesOf(fs, Critical)| && unknown == |PlacesOf(fs, Unknown)|
    ensures |AbnormalOf(fs)| == warn + crit + unknown
    ensures ok + warn + crit + unknown == |fs|
  {
    ok, warn, crit, unknown := 0, 0, 0, 0;
    for i := 0 to |fs|
      invariant ok == |Select(fs[..i], OK)| && warn == |Select(fs[..i], Warn)|
      invariant crit == |Select(fs[..i], Critical)| && unknown == |Select(fs[..i], Unknown)|
      invariant ok + warn + crit + unknown == i
    {
      assert fs[..i + 1][..i] == fs[..i];
      match fs[i].level {
        case OK => ok := ok + 1;
        case Warn => warn := warn + 1;
        case Critical => crit := crit + 1;
        case Unknown => unknown := unknown + 1;
      }
    }
    assert fs[..|fs|] == fs;
    SelectCount(fs, OK);
    SelectCount(fs, Warn);
    SelectCount(fs, Critical);
    SelectCount(fs, Unknown);
  }

  method Abnormal(fs: seq<Finding>) returns (out: seq<Finding>)
    ensures out == AbnormalOf(fs) && MostUrgentFirst(fs, out)
  {
    var crit, warn, unknown: seq<Finding> := [], [], [];
    for i := 0 to |fs|
      invariant crit == Select(fs[..i], Critical) && warn == Select(fs[..i], Warn)
        && unknown == Select(fs[..i], Unknown)
    {
      assert fs[..i + 1][..i] == fs[..i];
      match fs[i].level {
        case Critical => crit := crit + [fs[i]];
        case Warn => warn := warn + [fs[i]];
        case Unknown => unknown := unknown + [fs[i]];
        case OK =>
      }
    }
    assert fs[..|fs|] == fs;
    out := crit + warn;
    out := out + unknown;
    AbnormalMeans(fs);
  }

  // ---- groups ----

  datatype Group = Group(node: string, nodeIP: string, findings: seq<Finding>)

  /** The findings of one node, in order. */
  function OfNode(fs: seq<Finding>, node: string): seq<Finding> {
    if fs == [] then []
    else OfNode(fs[..|fs| - 1], node) + if fs[|fs| - 1].node == node then [fs[|fs| - 1]] else []
  }

  /** Cluster scope, the empty node name, comes first; nodes follow by name. */
  predicate NodeBefore(a: string, b: string) {
    if (a == "") != (b == "") then a == "" else Less(a, b)
  }

  /** The second is a node, and the first the cluster scope or a node with a smaller name. */
  predicate ScopeThenName(a: string, b: string) {
    b != "" && (a == "" || Less(a, b))
  }

  predicate StrictlyOrdered(gs: seq<Group>) {
    forall i, j :: 0 <= i < j < |gs| ==> NodeBefore(gs[i].node, gs[j].node)
  }

  predicate DistinctNodes(gs: seq<Group>) {
    forall i, j :: 0 <= i < j < |gs| ==> gs[i].node != gs[j].node
  }

  /** Each group is exactly its node's findings, in order, under the first one's address. */
  predicate GroupOk(g: Group, fs: seq<Finding>) {
    g.findings == OfNode(fs, g.node) && g.findings != [] && g.nodeIP == g.findings[0].nodeIP
  }

  predicate Covered(gs: seq<Group>, fs: seq<Finding>) {
    forall f <- fs :: exists i :: 0 <= i < |gs| && gs[i].node == f.node
  }

  predicate Groups(gs: seq<Group>, fs: seq<Finding>) {
    (forall i :: 0 <= i < |gs| ==> GroupOk(gs[i], fs)) && Covered(gs, fs)
  }

  lemma NodeBeforeIsStrictOrder(a: string, b: string, c: string)
    ensures !NodeBefore(a, a)
    ensures NodeBefore(a, b) && NodeBefore(b, c) ==> NodeBefore(a, c)
    ensures NodeBefore(a, b) || a == b || NodeBefore(b, a)
  {
    LessIrreflexive(a);
    LessTotal(a, b);
    if Less(a, b) && Less(b, c) { LessTransitive(a, b, c); }
  }

  /** `AbnormalByNode`. */
  method AbnormalByNode(fs: seq<Finding>) returns (groups: seq<Group>)
    ensures Groups(groups, AbnormalOf(fs)) && StrictlyOrdered(groups)
    ensures forall i, j :: 0 <= i < j < |groups| ==> ScopeThenName(groups[i].node, groups[j].node)
  {
    hide AbnormalOf, Less, Groups, OfNode, NodeBefore, MostUrgentFirst;
    var ab := Abnormal(fs);
    assert ab[..0] == [];
    NoGroups();
    var idx: map<string, nat> := map[];
    groups := [];
    for k := 0 to |ab|
      invariant DistinctNodes(groups) && Groups(groups, ab[..k])
      invariant forall i :: 0 <= i < |groups| ==> groups[i].node in idx
      invariant forall n <- idx :: idx[n] < |groups| && groups[idx[n]].node == n
    {
      var f := ab[k];
      ghost var before := groups;
      var i;
      if f.node in idx {
        i := idx[f.node];
      } else {
        i := |groups|;
        idx := idx[f.node := i];
        groups := groups + [Group(f.node, f.nodeIP, [])];
        NotCoveredIsEmpty(before, ab[..k], f.node);
      }
      groups := groups[i := groups[i].(findings := groups[i].findings + [f])];
      assert i >= |before| ==> groups[i].findings == [f];
      assert i >= |before| ==> groups == before + [Group(f.node, f.nodeIP, [f])];
      AddToGroup(before, groups, i, ab[..k], f);
      assert ab[..k + 1] == ab[..k] + [f];
    }
    assert ab[..|ab|] == ab;
    groups := SortGroups(groups, ab);
    forall i, j | 0 <= i < j < |groups| ensures ScopeThenName(groups[i].node, groups[j].node) {
      ClusterScopeFirst(groups[i].node, groups[j].node);
      assert NodeBefore(groups[i].node, groups[j].node);
    }
  }

  lemma ClusterScopeFirst(a: string, b: string)
    ensures NodeBefore(a, b) <==> ScopeThenName(a, b)
  {
  }

  lemma {:induction false} OfNodeHas(fs: seq<Finding>, node: string, k: nat)
    requires k < |fs| && fs[k].node == node
    ensures OfNode(fs, node) != []
  {
    var n := |fs| - 1;
    if k < n { OfNodeHas(fs[..n], node, k); }
  }

  lemma {:induction false} OfNodeFrom(fs: seq<Finding>, node: string) returns (k: nat)
    requires OfNode(fs, node) != []
    ensures k < |fs| && fs[k].node == node
  {
    var n := |fs| - 1;
    if fs[n].node == node { k := n; } else { k := OfNodeFrom(fs[..n], node); }
  }

  lemma OfNodeEmpty(fs: seq<Finding>, node: string)
    ensures OfNode(fs, node) == [] <==> forall k :: 0 <= k < |fs| ==> fs[k].node != node
  {
    hide OfNode;
    if OfNode(fs, node) != [] { var k := OfNodeFrom(fs, node); }
    forall k | 0 <= k < |fs| && fs[k].node == node ensures OfNode(fs, node) != [] { OfNodeHas(fs, node, k); }
  }

  lemma NoGroups()
    ensures Groups([], [])
  {
  }

  lemma NotCoveredIsEmpty(gs: seq<Group>, fs: seq<Finding>, node: string)
    requires Groups(gs, fs) && forall i :: 0 <= i < |gs| ==> gs[i].node != node
    ensures OfNode(fs, node) == []
  {
    forall k | 0 <= k < |fs| ensures fs[k].node != node { assert fs[k] in fs; }
    OfNodeEmpty(fs, node);
  }

  lemma AddToGroup(before: seq<Group>, after: seq<Group>, i: nat, fs: seq<Finding>, f: Finding)
    requires DistinctNodes(after) && Groups(before, fs) && i < |after|
    requires i < |before| ==>
               && before[i].node == f.node
               && after == before[i := before[i].(findings := before[i].findings + [f])]
    requires i >= |before| ==>
               && i == |before| && OfNode(fs, f.node) == []
               && after == before + [Group(f.node, f.nodeIP, [f])]
    ensures Groups(after, fs + [f])
  {
    hide GroupOk, Covered, OfNode;
    assert after[i].node == f.node;
    assert forall k :: 0 <= k < |after| && k != i ==> after[k].node != after[i].node;
    forall k | 0 <= k < |after| ensures GroupOk(after[k], fs + [f]) {
      if k < |before| { GroupGrows(before[k], after[k], fs, f); } else { GroupStarts(after[k], fs, f); }
    }
    CoverGrows(before, after, i, fs, f);
  }

  lemma GroupGrows(g: Group, h: Group, fs: seq<Finding>, f: Finding)
    requires GroupOk(g, fs)
    requires h == if g.node == f.node then g.(findings := g.findings + [f]) else g
    ensures GroupOk(h, fs + [f])
  {
  }

  lemma GroupStarts(h: Group, fs: seq<Finding>, f: Finding)
    requires h == Group(f.node, f.nodeIP, [f]) && OfNode(fs, f.node) == []
    ensures GroupOk(h, fs + [f])
  {
  }

  lemma CoverGrows(before: seq<Group>, after: seq<Group>, i: nat, fs: seq<Finding>, f: Finding)
    requires Covered(before, fs) && |before| <= |after| && i < |after| && after[i].node == f.node
    requires forall k :: 0 <= k < |before| ==> after[k].node == before[k].node
    ensures Covered(after, fs + [f])
  {
    forall x | x in fs + [f] ensures exists k :: 0 <= k < |after| && after[k].node == x.node {
      if x in fs {
        var k :| 0 <= k < |before| && before[k].node == x.node;
        assert after[k].node == x.node;
      } else {
        assert after[i].node == x.node;
      }
    }
  }

  /** The final sort; node names are distinct, so its stability leaves nothing open. */
  method SortGroups(gs: seq<Group>, ghost fs: seq<Finding>) returns (r: seq<Group>)
    requires DistinctNodes(gs) && Groups(gs, fs)
    ensures StrictlyOrdered(r) && Groups(r, fs)
  {
    hide NodeBefore, GroupOk;
    r := [];
    for i := 0 to |gs|
      invariant StrictlyOrdered(r)
      invariant forall k :: 0 <= k < |r| ==> r[k] in gs[..i]
      invariant forall k :: 0 <= k < i ==> gs[k] in r
    {
      var p := 0;
      while p < |r| && NodeBefore(r[p].node, gs[i].node)
        invariant 0 <= p <= |r|
        invariant forall k :: 0 <= k < p ==> NodeBefore(r[k].node, gs[i].node)
      {
        p := p + 1;
      }
      Insertable(r, p, gs, i);
      r := r[..p] + [gs[i]] + r[p..];
    }
    forall k | 0 <= k < |r| ensures GroupOk(r[k], fs) {
      assert r[k] in gs;
    }
    forall x | x in fs ensures exists k :: 0 <= k < |r| && r[k].node == x.node {
      var k :| 0 <= k < |gs| && gs[k].node == x.node;
      assert gs[k] in r;
    }
  }

  lemma Insertable(r: seq<Group>, p: nat, gs: seq<Group>, i: nat)
    requires i < |gs| && p <= |r| && DistinctNodes(gs) && StrictlyOrdered(r)
    requires forall k :: 0 <= k < |r| ==> r[k] in gs[..i]
    requires forall k :: 0 <= k < p ==> NodeBefore(r[k].node, gs[i].node)
    requires p < |r| ==> !NodeBefore(r[p].node, gs[i].node)
    ensures var r' := r[..p] + [gs[i]] + r[p..];
      && StrictlyOrdered(r')
      && (forall k :: 0 <= k < |r'| ==> r'[k] in gs[..i + 1])
      && forall g :: g in r || g == gs[i] ==> g in r'
  {
    hide NodeBefore, StrictlyOrdered;
    var g := gs[i];
    if p < |r| {
      assert r[p] in gs[..i];
      NodeBeforeIsStrictOrder(r[p].node, g.node, g.node);
    }
    InsertOrdered(r, p, g);
    var r' := r[..p] + [g] + r[p..];
    assert forall x :: x in r' ==> x == g || x in r;
    assert gs[..i + 1] == gs[..i] + [g];
    assert forall x :: x in r ==> x in r[..p] || x in r[p..];
  }

  lemma InsertOrdered(r: seq<Group>, p: nat, g: Group)
    requires p <= |r| && StrictlyOrdered(r)
    requires forall k :: 0 <= k < p ==> NodeBefore(r[k].node, g.node)
    requires p < |r| ==> NodeBefore(g.node, r[p].node)
    ensures StrictlyOrdered(r[..p] + [g] + r[p..])
  {
    hide NodeBefore;
    var a, b := r[..p], r[p..];
    var r' := a + [g] + b;
    forall k | p <= k < |r| ensures NodeBefore(g.node, r[k].node) {
      NodeBeforeIsStrictOrder(g.node, r[p].node, r[k].node);
    }
    forall i, j | 0 <= i < j < |r'| ensures NodeBefore(r'[i].node, r'[j].node) {
      var x := if i < p then r[i] else if i == p then g else r[i - 1];
      var y := if j < p then r[j] else if j == p then g else r[j - 1];
      assert r'[i] == x && r'[j] == y;
    }
  }

  // ---- the grouping loses and invents nothing ----

  function Concat(gs: seq<Group>): seq<Finding> {
    if gs == [] then [] else Concat(gs[..|gs| - 1]) + gs[|gs| - 1].findings
  }

  lemma {:induction false} OfNodeCount(fs: seq<Finding>, node: string, f: Finding)
    ensures multiset(OfNode(fs, node))[f] == if f.node == node then multiset(fs)[f] else 0
  {
    if fs != [] {
      var n := |fs| - 1;
      assert fs == fs[..n] + [fs[n]];
      OfNodeCount(fs[..n], node, f);
    }
  }

  lemma {:induction false} ConcatCount(gs: seq<Group>, fs: seq<Finding>, f: Finding)
    requires DistinctNodes(gs) && forall i :: 0 <= i < |gs| ==> gs[i].findings == OfNode(fs, gs[i].node)
    ensures multiset(Concat(gs))[f] == if HasKey(gs, f.node) then multiset(fs)[f] else 0
  {
    hide OfNode;
    if gs != [] {
      var n := |gs| - 1;
      ConcatCount(gs[..n], fs, f);
      OfNodeCount(fs, gs[n].node, f);
      assert multiset(Concat(gs))[f] == multiset(Concat(gs[..n]))[f] + multiset(gs[n].findings)[f];
      KeysSnoc(gs, f.node);
    }
  }

  predicate HasKey(gs: seq<Group>, node: string) {
    exists i :: 0 <= i < |gs| && gs[i].node == node
  }

  lemma KeysSnoc(gs: seq<Group>, node: string)
    requires gs != [] && DistinctNodes(gs)
    ensures var n := |gs| - 1;
      && (HasKey(gs, node) <==> HasKey(gs[..n], node) || gs[n].node == node)
      && (gs[n].node == node ==> !HasKey(gs[..n], node))
  {
    var n := |gs| - 1;
    assert forall i :: 0 <= i < n ==> gs[..n][i] == gs[i];
    if i :| 0 <= i < |gs| && gs[i].node == node {
      if i < n { assert gs[..n][i].node == node; }
    }
  }

  lemma OrderedIsDistinct(gs: seq<Group>)
    requires StrictlyOrdered(gs)
    ensures DistinctNodes(gs)
  {
    forall i, j | 0 <= i < j < |gs| ensures gs[i].node != gs[j].node {
      NodeBeforeIsStrictOrder(gs[i].node, gs[j].node, gs[i].node);
    }
  }

  /** All groups together are a permutation of the abnormal findings. */
  lemma GroupsArePermutation(gs: seq<Group>, fs: seq<Finding>)
    requires Groups(gs, fs) && StrictlyOrdered(gs)
    ensures multiset(Concat(gs)) == multiset(fs)
  {
    hide NodeBefore;
    OrderedIsDistinct(gs);
    forall f ensures multiset(Concat(gs))[f] == multiset(fs)[f] {
      ConcatCount(gs, fs, f);
      if f in fs {
        assert HasKey(gs, f.node);
      }
    }
  }

  lemma KeyPresent(gs: seq<Group>, fs: seq<Finding>, node: string)
    requires Groups(gs, fs)
    ensures (exists i :: 0 <= i < |gs| && gs[i].node == node) <==> OfNode(fs, node) != []
  {
    OfNodeEmpty(fs, node);
    if i :| 0 <= i < |gs| && gs[i].node == node { assert GroupOk(gs[i], fs); }
    if k :| 0 <= k < |fs| && fs[k].node == node { assert fs[k] in fs; }
  }

  /** Main result: the grouping is fully determined; any two that are ordered and cover the
      same findings are equal. */
  lemma {:induction false} GroupingIsUnique(a: seq<Group>, b: seq<Group>, fs: seq<Finding>)
    requires Groups(a, fs) && StrictlyOrdered(a) && Groups(b, fs) && StrictlyOrdered(b)
    ensures a == b
  {
    hide NodeBefore, GroupOk;
    SameKeysPrefix(a, b, fs, if |a| <= |b| then |a| else |b|);
    SameKeysPrefix(b, a, fs, if |a| <= |b| then |a| else |b|);
    if |a| <= |b| { NoExtraKey(a, b, fs); } else { NoExtraKey(b, a, fs); }
    forall i | 0 <= i < |a| ensures a[i] == b[i] {
      SameGroup(a[i], b[i], fs);
    }
  }

  lemma SameGroup(g: Group, h: Group, fs: seq<Finding>)
    requires GroupOk(g, fs) && GroupOk(h, fs) && g.node == h.node
    ensures g == h
  {
  }

  lemma NoExtraKey(a: seq<Group>, b: seq<Group>, fs: seq<Finding>)
    requires Groups(a, fs) && Groups(b, fs) && StrictlyOrdered(b) && |a| <= |b|
    requires forall i :: 0 <= i < |a| ==> a[i].node == b[i].node
    ensures |a| == |b|
  {
    hide NodeBefore, GroupOk;
    if |a| < |b| {
      var node := b[|a|].node;
      KeyPresent(b, fs, node);
      KeyPresent(a, fs, node);
      var i :| 0 <= i < |a| && a[i].node == node;
      NodeBeforeIsStrictOrder(node, node, node);
    }
  }

  lemma {:induction false} SameKeysPrefix(a: seq<Group>, b: seq<Group>, fs: seq<Finding>, n: nat)
    requires Groups(a, fs) && StrictlyOrdered(a) && Groups(b, fs) && StrictlyOrdered(b)
    requires n <= |a| && n <= |b|
    ensures forall i :: 0 <= i < n ==> a[i].node == b[i].node
  {
    hide NodeBefore, GroupOk;
    if n > 0 {
      SameKeysPrefix(a, b, fs, n - 1);
      var x, y := a[n - 1].node, b[n - 1].node;
      KeyPresent(a, fs, x);
      KeyPresent(b, fs, x);
      KeyPresent(a, fs, y);
      KeyPresent(b, fs, y);
      var i :| 0 <= i < |b| && b[i].node == x;
      var j :| 0 <= j < |a| && a[j].node == y;
      NodeBeforeIsStrictOrder(x, x, x);
      NodeBeforeIsStrictOrder(y, y, y);
      NodeBeforeIsStrictOrder(x, y, x);
    }
  }
}
