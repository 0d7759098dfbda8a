/** The readings a run leaves for the next runs, and when they do not depend on how its
    goroutines were interleaved. */
module Readings {
  import opened Text
  import opened Inspect
  import opened BondDelta
  import FanOut

  /** The readings node `i` contributes. */
  function BlockReadings(job: FanOut.Job, i: nat): map<string, int>
    requires i < |job.nodes|
  {
    Baseline(FanOut.Block(job, i))
  }

  /** Blocks that read the same node end with the same count for it. */
  ghost predicate Compatible(job: FanOut.Job) {
    forall i, j, node ::
      (&& 0 <= i < |job.nodes| && node in BlockReadings(job, i)
       && 0 <= j < |job.nodes| && node in BlockReadings(job, j))
      ==> BlockReadings(job, i)[node] == BlockReadings(job, j)[node]
  }

  lemma {:induction false} BaselineConcat(a: seq<Finding>, b: seq<Finding>)
    ensures Baseline(a + b) == Baseline(a) + Baseline(b)
    decreases |b|
  {
    hide BondTotal;
    if b == [] {
      assert a + b == a;
    } else {
      var n := |b| - 1;
      assert (a + b)[..|a + b| - 1] == a + b[..n];
      BaselineConcat(a, b[..n]);
    }
  }

  lemma BaselineOfLastBlock(job: FanOut.Job, order: seq<nat>)
    requires order != [] && FanOut.Indices(order, |job.nodes|)
    ensures var n := |order| - 1;
      Baseline(FanOut.Blocks(job, order)) == Baseline(FanOut.Blocks(job, order[..n])) + BlockReadings(job, order[n])
  {
    hide Baseline, FanOut.Block;
    var n := |order| - 1;
    BaselineConcat(FanOut.Blocks(job, order[..n]), FanOut.Block(job, order[n]));
  }

  predicate SomeBlockReads(job: FanOut.Job, order: seq<nat>, node: string)
    requires FanOut.Indices(order, |job.nodes|)
  {
    exists k :: 0 <= k < |order| && node in BlockReadings(job, order[k])
  }

  /** The readings say what every block that reads the node says. */
  predicate Agrees(job: FanOut.Job, order: seq<nat>, node: string, m: map<string, int>)
    requires FanOut.Indices(order, |job.nodes|)
  {
    forall k :: 0 <= k < |order| && node in BlockReadings(job, order[k]) ==>
      node in m && m[node] == BlockReadings(job, order[k])[node]
  }

  lemma {:induction false} BaselineOfBlocks(job: FanOut.Job, order: seq<nat>, node: string)
    requires FanOut.Indices(order, |job.nodes|)
    ensures node in Baseline(FanOut.Blocks(job, order)) <==> SomeBlockReads(job, order, node)
    ensures Compatible(job) ==> Agrees(job, order, node, Baseline(FanOut.Blocks(job, order)))
    decreases |order|
  {
    hide Baseline, BlockReadings, FanOut.Blocks;
    if order == [] {
      NoBlocks(job);
    } else {
      var n := |order| - 1;
      assert forall k :: 0 <= k < n ==> order[..n][k] == order[k];
      BaselineOfBlocks(job, order[..n], node);
      BaselineOfLastBlock(job, order);
      if Compatible(job) { AgreesOneMore(job, order, node, Baseline(FanOut.Blocks(job, order[..n]))); }
    }
  }

  lemma AgreesOneMore(job: FanOut.Job, order: seq<nat>, node: string, m: map<string, int>)
    requires order != [] && FanOut.Indices(order, |job.nodes|) && Compatible(job)
    requires Agrees(job, order[..|order| - 1], node, m)
    ensures Agrees(job, order, node, m + BlockReadings(job, order[|order| - 1]))
  {
    hide BlockReadings;
    var n := |order| - 1;
    forall k | 0 <= k < n && node in BlockReadings(job, order[k])
      ensures node in m && m[node] == BlockReadings(job, order[k])[node]
    {
      assert order[..n][k] == order[k];
    }
  }

  lemma NoBlocks(job: FanOut.Job)
    ensures Baseline(FanOut.Blocks(job, [])) == map[]
  {
  }

  lemma CollectedBaseline(job: FanOut.Job, schedule: seq<FanOut.Actor>) returns (order: seq<nat>)
    requires FanOut.Completes(job, schedule)
    ensures FanOut.NodeOrder(job, order)
    ensures Baseline(FanOut.Collected(job, schedule))
         == Baseline(FanOut.ClusterPart(job.cluster)) + Baseline(FanOut.Blocks(job, order))
  {
    hide *;
    order := FanOut.ReturnedFindings(job, schedule);
    BaselineConcat(FanOut.ClusterPart(job.cluster), FanOut.Blocks(job, order));
  }

  lemma SameBlocksRead(job: FanOut.Job, a: seq<nat>, b: seq<nat>)
    requires Compatible(job) && FanOut.NodeOrder(job, a) && FanOut.NodeOrder(job, b)
    ensures Baseline(FanOut.Blocks(job, a)) == Baseline(FanOut.Blocks(job, b))
  {
    hide Baseline, BlockReadings, FanOut.Blocks, Compatible, FanOut.Distinct;
    var x, y := Baseline(FanOut.Blocks(job, a)), Baseline(FanOut.Blocks(job, b));
    forall node: string ensures Lookup(x, node) == Lookup(y, node) {
      BaselineOfBlocks(job, a, node);
      BaselineOfBlocks(job, b, node);
      if k :| 0 <= k < |a| && node in BlockReadings(job, a[k]) {
        assert a[k] in b;
      }
      if k :| 0 <= k < |b| && node in BlockReadings(job, b[k]) {
        assert b[k] in a;
      }
    }
    SameLookups(x, y);
  }

  lemma SameLookups(x: map<string, int>, y: map<string, int>)
    requires forall node :: Lookup(x, node) == Lookup(y, node)
    ensures x == y
  {
    forall node ensures node in x <==> node in y { assert Lookup(x, node) == Lookup(y, node); }
    forall node | node in x ensures x[node] == y[node] { assert Lookup(x, node) == Lookup(y, node); }
  }

  /** A node order that ends with the given node. */
  lemma EndingWith(job: FanOut.Job, i: nat) returns (order: seq<nat>)
    requires i < |job.nodes|
    ensures FanOut.NodeOrder(job, order) && order != [] && order[|order| - 1] == i
  {
    var n := |job.nodes|;
    var all := FanOut.UpTo(n);
    FanOut.UpToMembers(n);
    order := all[..i] + all[i + 1..] + [i];
    forall k | 0 <= k < n ensures k in order {
      if k < i { assert order[k] == k; } else if k > i { assert order[k - 1] == k; }
    }
  }

  lemma LastBlockWins(job: FanOut.Job, i: nat, node: string) returns (schedule: seq<FanOut.Actor>)
    requires i < |job.nodes| && node in BlockReadings(job, i)
    ensures FanOut.Completes(job, schedule)
    ensures Lookup(Baseline(FanOut.Collected(job, schedule)), node) == Some(BlockReadings(job, i)[node])
  {
    hide Baseline, BlockReadings, FanOut.Completes, FanOut.Collected, FanOut.Blocks,
      FanOut.ClusterPart, FanOut.Distinct;
    var order := EndingWith(job, i);
    schedule := FanOut.EveryOrderHappens(job, order);
    BaselineOfLastBlock(job, order);
    BaselineConcat(FanOut.ClusterPart(job.cluster), FanOut.Blocks(job, order));
  }

  /** Main result: every schedule of a run leaves the same readings for the next runs if and
      only if blocks that read the same node end with the same count for it. */
  lemma ReadingsAreScheduleFreeIff(job: FanOut.Job)
    ensures Compatible(job) <==>
      forall sa, sb :: FanOut.Completes(job, sa) && FanOut.Completes(job, sb) ==>
        Baseline(FanOut.Collected(job, sa)) == Baseline(FanOut.Collected(job, sb))
  {
    hide Baseline, BlockReadings, FanOut.Completes, FanOut.Collected;
    if Compatible(job) {
      forall sa, sb | FanOut.Completes(job, sa) && FanOut.Completes(job, sb)
        ensures Baseline(FanOut.Collected(job, sa)) == Baseline(FanOut.Collected(job, sb))
      {
        SameReadings(job, sa, sb);
      }
    } else {
      var i, j, node :|
        && 0 <= i < |job.nodes| && node in BlockReadings(job, i)
        && 0 <= j < |job.nodes| && node in BlockReadings(job, j)
        && BlockReadings(job, i)[node] != BlockReadings(job, j)[node];
      var sa := LastBlockWins(job, i, node);
      var sb := LastBlockWins(job, j, node);
    }
  }

  lemma SameReadings(job: FanOut.Job, sa: seq<FanOut.Actor>, sb: seq<FanOut.Actor>)
    requires Compatible(job) && FanOut.Completes(job, sa) && FanOut.Completes(job, sb)
    ensures Baseline(FanOut.Collected(job, sa)) == Baseline(FanOut.Collected(job, sb))
  {
    hide *;
    var a := CollectedBaseline(job, sa);
    var b := CollectedBaseline(job, sb);
    SameBlocksRead(job, a, b);
  }

  /** Different readings show: some finding of the next run ends with different levels. */
  lemma DifferentReadingsShow(b: map<string, int>, c: map<string, int>, node: string)
    requires node in b && node in c && b[node] != c[node]
    ensures exists f :: Adjusted(f, b, map[]).level != Adjusted(f, c, map[]).level
  {
    hide Itoa, Atoi;
    var top := if b[node] > c[node] then b[node] else c[node];
    AtoiOfItoa(top);
    var f := Finding("hw_bond", node, "", Warn, "", map[BondDelta.TOTAL := Itoa(top)], "", "");
    assert BondTotal(f) == Some(top);
    assert Adjusted(f, b, map[]).level != Adjusted(f, c, map[]).level;
  }

  /** Nodes with different names, and inspectors that speak of their own node only: they name it
      or leave the name to be filled in. */
  ghost predicate OwnNodesOnly(job: FanOut.Job) {
    && (forall i, j :: 0 <= i < j < |job.nodes| ==> job.nodes[i].name != job.nodes[j].name)
    && (forall i, j :: 0 <= i < |job.nodes| && 0 <= j < job.inspectors ==>
          OwnNode(job.inspect(j, i), job.nodes[i].name))
  }

  predicate OwnNode(fs: Option<seq<Finding>>, name: string) {
    fs.Some? ==> forall f <- fs.value :: f.node == "" || f.node == name
  }

  /** Then no run's readings depend on its schedule. */
  lemma OwnNodesAreCompatible(job: FanOut.Job)
    requires OwnNodesOnly(job)
    ensures Compatible(job)
  {
    hide Baseline, FanOut.Local;
    forall i: nat, node | i < |job.nodes| && node in BlockReadings(job, i) ensures node == job.nodes[i].name {
      LocalNodes(job, i, job.inspectors);
      ReadingHasFinding(FanOut.Block(job, i), node);
    }
  }

  lemma {:induction false} LocalNodes(job: FanOut.Job, i: nat, j: nat)
    requires OwnNodesOnly(job) && i < |job.nodes| && j <= job.inspectors
    ensures forall f <- FanOut.Local(job, i, j) :: f.node == job.nodes[i].name
  {
    if j > 0 { LocalNodes(job, i, j - 1); }
  }

  lemma {:induction false} ReadingHasFinding(fs: seq<Finding>, node: string)
    requires node in Baseline(fs)
    ensures exists f <- fs :: f.node == node
  {
    hide BondTotal;
    var n := |fs| - 1;
    if fs[n].node != node { ReadingHasFinding(fs[..n], node); }
  }
}
