/** When the runner loops of the dominance frontiers end. A runner goes from a
    predecessor up the chain of immediate dominators, of which a block that is
    not reached has none, and null has none either. */
module Runners {
  import opened Graphs
  import opened DomTrees
  import opened IdomSweeps

  function IdomOf(up: map<Block, Block>, b: Block): Option<Block> {
    if b in up then Some(up[b]) else None
  }

  /** Where a runner from `p` is after `k` steps. */
  function RunnerAfter(up: map<Block, Block>, p: Block, k: nat): Option<Block> {
    if k == 0 then Some(p)
    else
      match RunnerAfter(up, p, k - 1)
      case None => None
      case Some(b) => IdomOf(up, b)
  }

  /** The runner from `p` comes to the immediate dominator of `b`. */
  ghost predicate RunnerEnds(up: map<Block, Block>, p: Block, b: Block) {
    exists k: nat {:trigger RunnerAfter(up, p, k)} :: RunnerAfter(up, p, k) == IdomOf(up, b)
  }

  ghost predicate JoinEnds(g: Cfg, up: map<Block, Block>, p: Block, b: Block) {
    b in g.blocks && b in g.preds && |g.preds[b]| >= 2 && p in g.preds[b] ==> RunnerEnds(up, p, b)
  }

  ghost predicate RunnersEnd(g: Cfg, up: map<Block, Block>) {
    forall p, b {:trigger JoinEnds(g, up, p, b)} :: JoinEnds(g, up, p, b)
  }

  ghost predicate JoinReached(g: Cfg, p: Block, b: Block) {
    b in g.blocks && b in g.preds && |g.preds[b]| >= 2 && p in g.preds[b] && g.Reachable(b) ==> g.Reachable(p)
  }

  /** A reached block with several predecessors has no other than reached ones. */
  ghost predicate JoinsReached(g: Cfg) {
    forall p, b {:trigger JoinReached(g, p, b)} :: JoinReached(g, p, b)
  }

  lemma {:induction false} ChainRuns(t: Tree, p: Block, a: Block)
    requires t.Ok() && p in t.up && t.Above(p, a)
    ensures exists k: nat {:trigger RunnerAfter(t.up, p, k)} :: RunnerAfter(t.up, p, k) == Some(a)
    decreases t.id[t.root] - t.id[p]
  {
    var zero: nat := 0;
    assert RunnerAfter(t.up, p, zero) == Some(p);
    if p != a {
      assert t.LinkAt(p);
      ChainRuns(t, t.up[p], a);
      var k: nat :| RunnerAfter(t.up, t.up[p], k) == Some(a);
      OneStepLater(t.up, p, k);
    }
  }

  lemma {:induction false} OneStepLater(up: map<Block, Block>, p: Block, k: nat)
    requires p in up
    ensures RunnerAfter(up, p, k + 1) == RunnerAfter(up, up[p], k)
  {
    if k > 0 {
      OneStepLater(up, p, k - 1);
    }
  }

  /** A runner from a block that is not reached is at null from its first step on. */
  lemma {:induction false} LostRunner(up: map<Block, Block>, p: Block, k: nat)
    requires p !in up && k > 0
    ensures RunnerAfter(up, p, k) == None
  {
    if k > 1 {
      LostRunner(up, p, k - 1);
    }
  }

  lemma ReachedNext(g: Cfg, p: Block, b: Block)
    requires g.Reachable(p) && g.Edge(p, b)
    ensures g.Reachable(b)
  {
    var w :| g.WalkFromTo(w, g.entry, p);
    g.ExtendWalk(w, g.entry, p, b);
  }

  /** Where both ends of an edge are reached, or neither, its runner ends. */
  lemma RunnerArrives(g: Cfg, t: Tree, p: Block, b: Block)
    requires IsDomTree(g, t) && g.Edge(p, b) && (g.Reachable(p) <==> g.Reachable(b))
    ensures RunnerEnds(t.up, p, b)
  {
    if g.Reachable(b) {
      assert g.Reachable(p);
      if b == t.root {
        t.RootAbove(p);
      } else {
        ParentAbovePred(g, t, p, b);
      }
      ChainRuns(t, p, t.up[b]);
    } else {
      LostRunner(t.up, p, 1);
    }
  }

  /** The runner from an unreached block never comes to the immediate dominator of
      a reached one. */
  lemma RunnerGetsLost(g: Cfg, t: Tree, p: Block, b: Block)
    requires IsDomTree(g, t) && g.Reachable(b) && !g.Reachable(p)
    ensures !RunnerEnds(t.up, p, b)
  {
    assert t.LinkAt(b);
    forall k: nat ensures RunnerAfter(t.up, p, k) != IdomOf(t.up, b) {
      if k > 0 { LostRunner(t.up, p, k); }
    }
  }

  /** All runners end exactly if no reached block with several predecessors has
      one that is not reached. */
  lemma RunnersEndIff(g: Cfg, t: Tree)
    requires IsDomTree(g, t)
    ensures RunnersEnd(g, t.up) <==> JoinsReached(g)
  {
    if JoinsReached(g) {
      forall p, b ensures JoinEnds(g, t.up, p, b) {
        if b in g.blocks && |g.preds[b]| >= 2 && p in g.preds[b] {
          g.EdgesMirror(p, b);
          assert JoinReached(g, p, b);
          if g.Reachable(p) { ReachedNext(g, p, b); }
          RunnerArrives(g, t, p, b);
        }
      }
    } else {
      var p, b :| !JoinReached(g, p, b);
      RunnerGetsLost(g, t, p, b);
      assert !JoinEnds(g, t.up, p, b);
    }
  }

  /** Nothing to ask where every block is reached. */
  lemma AllJoinsReached(g: Cfg)
    requires g.Wf() && g.AllReachable()
    ensures JoinsReached(g)
  {
    forall p, b ensures JoinReached(g, p, b) {
      if b in g.blocks && p in g.preds[b] { assert p in g.blocks && g.Reachable(p); }
    }
  }

  /** The entry and an unreached block both lead to block 1. */
  function LostGraph(): Cfg {
    Cfg(0, [0, 1, 2], map[0 := [1], 1 := [], 2 := [1]], map[0 := [], 1 := [0, 2], 2 := []])
  }

  lemma LostGraphRunsOn(t: Tree)
    requires IsDomTree(LostGraph(), t)
    ensures LostGraph().Wf() && !RunnerEnds(t.up, 2, 1) && !JoinsReached(LostGraph())
  {
    var g := LostGraph();
    g.SingleWalk(0);
    g.ExtendWalk([0], 0, 0, 1);
    assert g.Reachable(1);
    if g.Reachable(2) {
      var w :| g.WalkFromTo(w, 0, 2);
      g.WalkStaysInside(w, 0, 2, {0, 1});
    }
    RunnerGetsLost(g, t, 2, 1);
    assert 2 in g.preds[1] && !JoinReached(g, 2, 1);
  }

  // ----- the frontiers that are found -----

  /** For a reached block, its dominance frontiers; for an unreached join, its
      predecessors. */
  ghost predicate IsFound(g: Cfg, x: Block, y: Block)
    requires y in g.preds
  {
    if g.Reachable(y) then InFrontier(g, x, y) else |g.preds[y]| >= 2 && x in g.preds[y]
  }

  /** What a runner from `p` passes. */
  ghost predicate RunnerPasses(t: Tree, p: Block, x: Block, b: Block)
    requires t.Ok() && (p in t.up <==> b in t.up)
  {
    if b in t.up then Passed(t, p, x, b) else x == p
  }

  lemma FoundByRunners(g: Cfg, t: Tree, x: Block, y: Block)
    requires IsDomTree(g, t) && y in g.blocks && g.preds[g.entry] == [] && JoinsReached(g)
    requires |g.preds[y]| >= 2 ==> forall p :: p in g.preds[y] ==> (p in t.up <==> y in t.up)
    ensures IsFound(g, x, y) <==> |g.preds[y]| >= 2 && exists p :: p in g.preds[y] && RunnerPasses(t, p, x, y)
  {
    if g.Reachable(y) {
      if |g.preds[y]| <= 1 { PredReached(g, y); }
      FrontierByRunners(g, t, x, y);
    }
  }

  /** The only predecessor of a reached block is reached. */
  lemma PredReached(g: Cfg, y: Block)
    requires g.Wf() && y in g.blocks && g.Reachable(y) && |g.preds[y]| <= 1
    ensures y != g.entry ==> forall p :: p in g.preds[y] ==> g.Reachable(p)
  {
    if y != g.entry {
      var w :| g.WalkFromTo(w, g.entry, y);
      var p := WalkEnters(g, w, y);
      g.EdgesMirror(p, y);
      var i :| 0 <= i < |w| && w[i] == p;
      g.PrefixWalk(w, g.entry, y, i);
    }
  }

  /** Where both ends of each edge are reached, or neither. */
  lemma SameSide(g: Cfg, t: Tree, p: Block, y: Block)
    requires IsDomTree(g, t) && JoinsReached(g) && y in g.blocks && |g.preds[y]| >= 2 && p in g.preds[y]
    ensures g.Edge(p, y) && (p in t.up <==> y in t.up)
  {
    g.EdgesMirror(p, y);
    assert JoinReached(g, p, y);
    if g.Reachable(p) { ReachedNext(g, p, y); }
    assert g.Reachable(p) <==> p in t.up;
    assert g.Reachable(y) <==> y in t.up;
  }
}
