/** Why the sweeps of `create_idom` are correct and come to an end. */
module IdomSweeps {
  import opened Graphs
  import opened DomTrees

  /** What the depth-first numbering promises of a block: it is numbered if and
      only if it is reachable, below the entry, and it was first seen from a
      block that is numbered higher. */
  ghost predicate NumberedAt(g: Cfg, id: map<Block, nat>, first: map<Block, Block>, b: Block) {
    && (b in id <==> g.Reachable(b))
    && (b in id && b != g.entry ==>
          && b in g.blocks
          && b in first && first[b] in id && g.Edge(first[b], b)
          && g.entry in id && id[b] < id[first[b]] <= id[g.entry])
  }

  ghost predicate Numbered(g: Cfg, id: map<Block, nat>, first: map<Block, Block>) {
    g.entry in id && forall b {:trigger NumberedAt(g, id, first, b)} :: NumberedAt(g, id, first, b)
  }

  /** A walk from `a` to `b` whose later blocks are all numbered below `a`. */
  ghost predicate LowWalk(g: Cfg, id: map<Block, nat>, w: seq<Block>, a: Block, b: Block)
    requires a in id
  {
    g.WalkFromTo(w, a, b) && forall i :: 0 < i < |w| ==> w[i] in id && id[w[i]] < id[a]
  }

  ghost predicate LowReaches(g: Cfg, id: map<Block, nat>, a: Block, b: Block)
    requires a in id
  {
    exists w :: LowWalk(g, id, w, a, b)
  }

  ghost predicate Base(g: Cfg, first: map<Block, Block>, t: Tree) {
    g.Wf() && t.Ok() && t.root == g.entry && Numbered(g, t.id, first)
  }

  /** Blocks numbered `lo` or more have been processed in this sweep, those
      numbered `seen` or more in this sweep or in an earlier one. */
  ghost predicate Processed(t: Tree, seen: int) {
    forall b {:trigger ProcessedAt(t, seen, b)} :: ProcessedAt(t, seen, b)
  }

  ghost predicate ProcessedAt(t: Tree, seen: int, b: Block) {
    b in t.id ==> (b in t.up <==> seen <= t.id[b])
  }

  /** Every dominator is an ancestor. */
  ghost predicate DomsAbove(g: Cfg, t: Tree)
    requires t.Ok()
  {
    forall b, d {:trigger g.Dom(d, b)} :: b in t.up && g.Dom(d, b) ==> t.Above(b, d)
  }

  /** Each block is reached from its candidate through lower-numbered blocks. */
  ghost predicate LowLinks(g: Cfg, t: Tree)
    requires t.Ok()
  {
    forall b {:trigger LowLinkAt(g, t, b)} :: LowLinkAt(g, t, b)
  }

  ghost predicate LowLinkAt(g: Cfg, t: Tree, b: Block)
    requires t.Ok()
  {
    b in t.up && b != t.root ==> assert t.LinkAt(b); LowReaches(g, t.id, t.up[b], b)
  }

  /** No common ancestor of a block's predecessors lies below its candidate. */
  ghost predicate MeetsHigh(g: Cfg, t: Tree)
    requires g.Wf() && t.Ok()
  {
    forall b, d {:trigger MeetHighAt(g, t, b, d)} :: MeetHighAt(g, t, b, d)
  }

  ghost predicate MeetHighAt(g: Cfg, t: Tree, b: Block, d: Block)
    requires g.Wf() && t.Ok()
  {
    b in t.up && b != t.root && b in g.blocks && d in t.up && t.CommonAbove(g.preds[b], d) ==>
      assert t.LinkAt(b); t.id[t.up[b]] <= t.id[d]
  }

  /** Above the candidate of a block, the chain of the block it was first seen
      from and the chain of its candidate are one. */
  ghost predicate ChainsJoin(first: map<Block, Block>, t: Tree)
    requires t.Ok()
  {
    forall b, d {:trigger ChainJoinsAt(first, t, b, d)} :: ChainJoinsAt(first, t, b, d)
  }

  ghost predicate ChainJoinsAt(first: map<Block, Block>, t: Tree, b: Block, d: Block)
    requires t.Ok()
  {
    b in t.up && b != t.root && b in first && first[b] in t.up && t.Above(first[b], d) && d in t.up ==>
      assert t.LinkAt(b);
      t.id[t.up[b]] <= t.id[d] ==> t.Above(t.up[b], d)
  }

  /** A candidate given in this sweep, or one that this sweep has not come to
      yet, is an ancestor of the block its owner was first seen from. */
  ghost predicate FreshOnChain(first: map<Block, Block>, t: Tree, lo: int)
    requires t.Ok()
  {
    forall b {:trigger FreshAt(first, t, lo, b)} :: FreshAt(first, t, lo, b)
  }

  ghost predicate FreshAt(first: map<Block, Block>, t: Tree, lo: int, b: Block)
    requires t.Ok()
  {
    b in t.up && b != t.root && b in first && first[b] in t.up ==>
      assert t.LinkAt(b);
      lo <= t.id[b] || t.id[t.up[b]] < lo ==> t.Above(first[b], t.up[b])
  }

  ghost predicate Sweep(g: Cfg, first: map<Block, Block>, t: Tree, lo: int, seen: int) {
    && Base(g, first, t)
    && seen <= lo
    && Processed(t, seen)
    && DomsAbove(g, t)
    && LowLinks(g, t)
    && MeetsHigh(g, t)
    && ChainsJoin(first, t)
    && FreshOnChain(first, t, lo)
  }

  // ----- walks below an ancestor -----

  lemma {:induction false} LowDescent(g: Cfg, t: Tree, b: Block, d: Block)
    requires t.Ok() && LowLinks(g, t) && b in t.up && t.Above(b, d) && d in t.up
    ensures b != d ==> LowReaches(g, t.id, d, b)
    decreases t.id[t.root] - t.id[b]
  {
    assert t.LinkAt(b);
    if b != d {
      var u := t.up[b];
      assert LowLinkAt(g, t, b);
      var v :| LowWalk(g, t.id, v, u, b);
      if u != d {
        LowDescent(g, t, u, d);
        t.AboveId(u, d);
        var w :| LowWalk(g, t.id, w, d, u);
        g.JoinWalks(w, v, d, u, b);
        assert LowWalk(g, t.id, w + v[1..], d, b);
      }
    }
  }

  /** An ancestor of `b` above `x`, itself an ancestor of `b`, dominates `x` if
      it dominates `b`: the way down from `x` avoids it. */
  lemma DominatesOnTheWay(g: Cfg, t: Tree, x: Block, b: Block, d: Block)
    requires t.Ok() && t.root == g.entry && LowLinks(g, t)
    requires b in t.up && x in t.up && t.Above(b, x)
    requires g.Dom(d, b) && d in t.id && t.id[x] < t.id[d]
    ensures g.Dom(d, x)
  {
    if b != x {
      LowDescent(g, t, b, x);
      var v :| LowWalk(g, t.id, v, x, b);
      forall w | g.WalkFromTo(w, g.entry, x) ensures d in w {
        g.JoinWalks(w, v, g.entry, x, b);
        assert d in w + v[1..];
        assert d !in v[1..] by {
          assert forall i :: 0 < i < |v| ==> v[i] != d;
        }
      }
    }
  }

  // ----- one step of a sweep: x gets the meet n of its processed predecessors -----

  ghost predicate Step(g: Cfg, first: map<Block, Block>, t: Tree, lo: int, seen: int, x: Block, n: Block) {
    && Sweep(g, first, t, lo, seen)
    && x in t.id && x in g.preds && x != t.root
    && (forall b :: b in t.id ==> (t.id[b] == lo - 1 <==> b == x))
    && t.IsMeet(g.preds[x], n)
  }

  lemma FirstIsPred(g: Cfg, first: map<Block, Block>, t: Tree, seen: int, b: Block)
    requires Base(g, first, t) && Processed(t, seen) && b in t.id && b != t.root
    ensures b in g.preds && b in first && first[b] in t.id && first[b] in g.preds[b] && t.id[b] < t.id[first[b]]
    ensures seen <= t.id[b] + 1 ==> first[b] in t.up
    ensures b in t.up ==> first[b] in t.up
  {
    assert NumberedAt(g, t.id, first, b);
    g.EdgesMirror(first[b], b);
    assert ProcessedAt(t, seen, b) && ProcessedAt(t, seen, first[b]);
  }

  lemma StepCanRaise(g: Cfg, first: map<Block, Block>, t: Tree, lo: int, seen: int, x: Block, n: Block)
    requires Step(g, first, t, lo, seen, x, n)
    ensures x in g.preds && x in first && first[x] in t.up && t.Above(first[x], n)
    ensures t.id[x] < t.id[first[x]] && g.Edge(first[x], x)
    ensures t.CanRaise(x, n) && t.Set(x, n).Ok()
  {
    FirstIsPred(g, first, t, seen, x);
    g.EdgesMirror(first[x], x);
    assert t.MeetsAt(g.preds[x], n, n);
    t.AboveId(first[x], n);
    assert MeetHighAt(g, t, x, n);
    assert ChainJoinsAt(first, t, x, n);
    SetOk(t, x, n);
  }

  /** A strict dominator of `x` is above the meet of its predecessors. */
  lemma DomIsAboveMeet(g: Cfg, t: Tree, x: Block, n: Block, d: Block)
    requires g.Wf() && t.Ok() && DomsAbove(g, t) && x in g.blocks && t.IsMeet(g.preds[x], n)
    requires g.StrictlyDom(d, x)
    ensures t.Above(n, d)
  {
    forall p | p in g.preds[x] && p in t.up ensures t.Above(p, d) {
      g.EdgesMirror(p, x);
      g.DomOfPred(d, p, x);
    }
    assert t.MeetsAt(g.preds[x], n, d);
  }

  lemma StepDomAbove(g: Cfg, t: Tree, x: Block, n: Block, b: Block, d: Block)
    requires g.Wf() && t.Ok() && t.root == g.entry && DomsAbove(g, t) && LowLinks(g, t)
    requires x in g.blocks && t.IsMeet(g.preds[x], n) && t.CanRaise(x, n)
    requires (b == x || b in t.up) && g.Dom(d, b)
    ensures t.Set(x, n).Ok() && t.Set(x, n).Above(b, d)
  {
    SetAbove(t, x, n);
    if b == x {
      if d != x { DomIsAboveMeet(g, t, x, n, d); }
    } else if t.Above(b, x) && d in t.id && t.id[d] > t.id[x] {
      t.AboveId(b, x);
      DominatesOnTheWay(g, t, x, b, d);
      DomIsAboveMeet(g, t, x, n, d);
    }
  }

  lemma NewLowLink(g: Cfg, t: Tree, x: Block, n: Block, q: Block)
    requires t.Ok() && LowLinks(g, t) && q in t.up && t.Above(q, n) && n in t.up
    requires g.Edge(q, x) && x in t.id && t.id[x] < t.id[q]
    ensures LowReaches(g, t.id, n, x)
  {
    t.AboveId(q, n);
    if q == n {
      assert g.EdgeAt([n, x], 1);
      assert LowWalk(g, t.id, [n, x], n, x);
    } else {
      LowDescent(g, t, q, n);
      var w :| LowWalk(g, t.id, w, n, q);
      g.ExtendWalk(w, n, q, x);
      assert LowWalk(g, t.id, w + [x], n, x);
    }
  }

  lemma StepLowLinks(g: Cfg, first: map<Block, Block>, t: Tree, lo: int, seen: int, x: Block, n: Block)
    requires Step(g, first, t, lo, seen, x, n)
    ensures t.Set(x, n).Ok() && LowLinks(g, t.Set(x, n))
  {
    StepCanRaise(g, first, t, lo, seen, x, n);
    NewLowLink(g, t, x, n, first[x]);
    forall b ensures LowLinkAt(g, t.Set(x, n), b) {
      assert LowLinkAt(g, t, b);
    }
  }

  lemma StepMeetHigh(g: Cfg, first: map<Block, Block>, t: Tree, lo: int, seen: int, x: Block, n: Block, b: Block, d: Block)
    requires Step(g, first, t, lo, seen, x, n) && t.CanRaise(x, n)
    ensures t.Set(x, n).Ok() && MeetHighAt(g, t.Set(x, n), b, d)
  {
    SetAbove(t, x, n);
    var s := t.Set(x, n);
    if b in s.up && b != s.root && b in g.blocks && d in s.up && s.CommonAbove(g.preds[b], d) {
      FirstIsPred(g, first, t, seen, b);
      assert t.CommonAbove(g.preds[b], d);
      t.AboveId(first[b], d);
      assert MeetHighAt(g, t, b, d);
      if b == x {
        assert t.MeetsAt(g.preds[x], n, d);
        t.AboveId(n, d);
      }
    }
  }

  lemma StepChainJoins(g: Cfg, first: map<Block, Block>, t: Tree, lo: int, seen: int, x: Block, n: Block, b: Block, d: Block)
    requires Step(g, first, t, lo, seen, x, n) && t.CanRaise(x, n)
    ensures t.Set(x, n).Ok() && ChainJoinsAt(first, t.Set(x, n), b, d)
  {
    SetAbove(t, x, n);
    StepCanRaise(g, first, t, lo, seen, x, n);
    var s := t.Set(x, n);
    assert t.LinkAt(b) && s.LinkAt(b);
    if b in s.up && b != s.root && b in first && first[b] in s.up &&
       s.Above(first[b], d) && d in s.up && s.id[s.up[b]] <= s.id[d]
    {
      FirstIsPred(g, first, t, seen, b);
      t.AboveId(first[b], d);
      if b == x {
        t.AboveLinear(first[x], n, d);
      } else {
        assert ChainJoinsAt(first, t, b, d) && FreshAt(first, t, lo, b);
        if t.Above(t.up[b], x) && t.id[d] > t.id[x] {
          t.AboveId(t.up[b], x);
          t.AboveTrans(first[b], t.up[b], x);
        }
      }
    }
  }

  lemma StepFresh(g: Cfg, first: map<Block, Block>, t: Tree, lo: int, seen: int, x: Block, n: Block, b: Block)
    requires Step(g, first, t, lo, seen, x, n) && t.CanRaise(x, n)
    ensures t.Set(x, n).Ok() && FreshAt(first, t.Set(x, n), lo - 1, b)
  {
    SetAbove(t, x, n);
    StepCanRaise(g, first, t, lo, seen, x, n);
    var s := t.Set(x, n);
    assert t.LinkAt(b) && s.LinkAt(b);
    if b in s.up && b != s.root && b in first && first[b] in s.up && (lo - 1 <= s.id[b] || s.id[s.up[b]] < lo - 1) {
      FirstIsPred(g, first, t, seen, b);
      assert FreshAt(first, t, lo, b);
      if t.Above(first[b], x) { t.AboveId(first[b], x); }
    }
  }

  function SeenAfter(lo: int, seen: int): int {
    if lo <= seen then lo - 1 else seen
  }

  lemma StepProcessed(g: Cfg, first: map<Block, Block>, t: Tree, lo: int, seen: int, x: Block, n: Block)
    requires Step(g, first, t, lo, seen, x, n)
    ensures Processed(t.Set(x, n), SeenAfter(lo, seen))
  {
    forall b ensures ProcessedAt(t.Set(x, n), SeenAfter(lo, seen), b) {
      assert ProcessedAt(t, seen, b);
    }
  }

  /** The sweep invariant survives a step. */
  lemma StepKeepsSweep(g: Cfg, first: map<Block, Block>, t: Tree, lo: int, seen: int, x: Block, n: Block)
    requires Step(g, first, t, lo, seen, x, n)
    ensures t.CanRaise(x, n)
    ensures Sweep(g, first, t.Set(x, n), lo - 1, SeenAfter(lo, seen))
  {
    StepCanRaise(g, first, t, lo, seen, x, n);
    StepProcessed(g, first, t, lo, seen, x, n);
    StepLowLinks(g, first, t, lo, seen, x, n);
    var s := t.Set(x, n);
    forall b, d | b in s.up && g.Dom(d, b) ensures s.Above(b, d) {
      StepDomAbove(g, t, x, n, b, d);
    }
    forall b, d ensures MeetHighAt(g, s, b, d) {
      StepMeetHigh(g, first, t, lo, seen, x, n, b, d);
    }
    forall b, d ensures ChainJoinsAt(first, s, b, d) {
      StepChainJoins(g, first, t, lo, seen, x, n, b, d);
    }
    var next := lo - 1;
    forall b ensures FreshAt(first, s, next, b) {
      StepFresh(g, first, t, lo, seen, x, n, b);
    }
  }

  // ----- the sweeps come to an end -----

  /** How far the candidates of these blocks can still rise. */
  ghost function Slack(t: Tree, order: seq<Block>): nat
    requires t.Ok()
  {
    if order == [] then 0
    else
      var b := order[0];
      assert t.LinkAt(b);
      (if b in t.up then t.id[t.root] - t.id[t.up[b]] else t.id[t.root] + 1) + Slack(t, order[1..])
  }

  /** Every change uses some of that room up, for good. */
  lemma {:induction false} ChangeUsesSlack(t: Tree, order: seq<Block>, x: Block, n: Block)
    requires t.Ok() && t.CanRaise(x, n) && (x !in t.up || t.up[x] != n)
    ensures t.Set(x, n).Ok() && Slack(t.Set(x, n), order) <= Slack(t, order)
    ensures x in order ==> Slack(t.Set(x, n), order) < Slack(t, order)
  {
    SetOk(t, x, n);
    assert t.LinkAt(x);
    if x in t.up { t.AboveId(t.up[x], n); }
    if order != [] {
      ChangeUsesSlack(t, order[1..], x, n);
    }
  }

  // ----- where a sweep starts -----

  /** Before the first sweep only the entry has a candidate: itself. */
  lemma FirstSweepStarts(g: Cfg, first: map<Block, Block>, id: map<Block, nat>)
    requires g.Wf() && Numbered(g, id, first)
    ensures Sweep(g, first, Tree(g.entry, id, map[g.entry := g.entry]), id[g.entry] + 1, id[g.entry])
  {
    var t := Tree(g.entry, id, map[g.entry := g.entry]);
    forall b ensures b in t.id ==> t.id[b] <= t.id[t.root] && ProcessedAt(t, id[g.entry], b) {
      assert NumberedAt(g, id, first, b);
    }
    g.SingleWalk(g.entry);
    forall b, d | b in t.up && g.Dom(d, b) ensures t.Above(b, d) {
      assert d in [g.entry];
    }
  }

  /** The entry is passed over. */
  lemma EntryIsSkipped(g: Cfg, first: map<Block, Block>, t: Tree, seen: int)
    requires t.root in t.id && Sweep(g, first, t, t.id[t.root] + 1, seen)
    ensures Sweep(g, first, t, t.id[t.root], seen)
  {
    assert ProcessedAt(t, seen, t.root);
    forall b ensures FreshAt(first, t, t.id[t.root], b) {
      assert FreshAt(first, t, t.id[t.root] + 1, b);
      if b in t.id { assert NumberedAt(g, t.id, first, b); }
    }
  }

  /** A finished sweep is a fresh start for the next. */
  lemma NextSweepStarts(g: Cfg, first: map<Block, Block>, t: Tree, lo: int, seen: int)
    requires Sweep(g, first, t, 0, seen) && 0 <= lo
    ensures Sweep(g, first, t, lo, seen)
  {
    forall b ensures FreshAt(first, t, lo, b) {
      assert FreshAt(first, t, 0, b);
    }
  }

  // ----- the fixpoint -----

  ghost predicate StableAt(g: Cfg, t: Tree, lo: int, b: Block)
    requires g.Wf() && t.Ok()
  {
    b in t.up && b in g.blocks && b != t.root && lo <= t.id[b] ==> t.IsMeet(g.preds[b], t.up[b])
  }

  /** The blocks that this sweep came to have kept their candidates. */
  ghost predicate Stable(g: Cfg, t: Tree, lo: int)
    requires g.Wf() && t.Ok()
  {
    forall b {:trigger StableAt(g, t, lo, b)} :: StableAt(g, t, lo, b)
  }

  lemma StableStep(g: Cfg, t: Tree, lo: int, x: Block)
    requires g.Wf() && t.Ok() && Stable(g, t, lo)
    requires x in g.preds && x in t.up && (x == t.root || t.IsMeet(g.preds[x], t.up[x]))
    requires forall b :: b in t.id ==> (t.id[b] == lo - 1 <==> b == x)
    ensures Stable(g, t, lo - 1)
  {
    var next := lo - 1;
    forall b ensures StableAt(g, t, next, b) {
      assert StableAt(g, t, lo, b);
    }
  }

  lemma StableStarts(g: Cfg, t: Tree)
    requires g.Wf() && t.Ok()
    ensures Stable(g, t, t.id[t.root] + 1)
  {
  }

  lemma {:induction false} StableAboveDominates(g: Cfg, first: map<Block, Block>, t: Tree, seen: int, w: seq<Block>, b: Block, d: Block)
    requires Base(g, first, t) && Processed(t, seen) && seen <= 0 && Stable(g, t, 0)
    requires b in t.up && t.Above(b, d) && g.WalkFromTo(w, g.entry, b)
    ensures d in w
    decreases |w|
  {
    if d != b {
      if |w| == 1 {
        assert false;
      }
      var i := |w| - 2;
      g.PrefixWalk(w, g.entry, b, i);
      assert g.EdgeAt(w, i + 1);
      assert NumberedAt(g, t.id, first, w[i]) && NumberedAt(g, t.id, first, b) && ProcessedAt(t, seen, w[i]);
      g.EdgesMirror(w[i], b);
      assert StableAt(g, t, 0, b) && t.MeetsAt(g.preds[b], t.up[b], d);
      StableAboveDominates(g, first, t, seen, w[..i + 1], w[i], d);
    }
  }

  /** Once a sweep changes nothing, the ancestors are exactly the dominators. */
  ghost predicate IsDomTree(g: Cfg, t: Tree) {
    && g.Wf() && t.Ok() && t.root == g.entry
    && (forall b {:trigger g.Reachable(b)} :: b in t.id <==> g.Reachable(b))
    && (forall b {:trigger g.Reachable(b)} :: b in t.up <==> g.Reachable(b))
    && (forall b, d {:trigger ExactAt(g, t, b, d)} :: ExactAt(g, t, b, d))
  }

  ghost predicate ExactAt(g: Cfg, t: Tree, b: Block, d: Block)
    requires t.Ok()
  {
    b in t.up ==> (t.Above(b, d) <==> g.Dom(d, b))
  }

  lemma StableIsDomTree(g: Cfg, first: map<Block, Block>, t: Tree, seen: int)
    requires Sweep(g, first, t, 0, seen) && Stable(g, t, 0)
    ensures IsDomTree(g, t)
  {
    forall b, d ensures ExactAt(g, t, b, d) {
      if b in t.up && t.Above(b, d) {
        forall w | g.WalkFromTo(w, g.entry, b) ensures d in w {
          StableAboveDominates(g, first, t, seen, w, b, d);
        }
      }
    }
    forall b ensures (b in t.id <==> g.Reachable(b)) && (b in t.up <==> g.Reachable(b)) {
      assert NumberedAt(g, t.id, first, b) && ProcessedAt(t, seen, b);
    }
  }

  /** In a dominator tree the parent is the immediate dominator. */
  lemma ParentIsImmediateDom(g: Cfg, t: Tree, b: Block)
    requires IsDomTree(g, t) && b in t.up && b != t.root
    ensures g.IsImmediateDom(t.up[b], b)
  {
    assert t.LinkAt(b) && t.Above(t.up[b], t.up[b]) && ExactAt(g, t, b, t.up[b]);
    forall e | g.StrictlyDom(e, b) ensures g.Dom(e, t.up[b]) {
      assert ExactAt(g, t, b, e) && ExactAt(g, t, t.up[b], e);
    }
  }

  lemma ParentIffImmediateDom(g: Cfg, t: Tree, d: Block, b: Block)
    requires IsDomTree(g, t) && b in t.up
    ensures b != t.root && t.up[b] == d <==> g.IsImmediateDom(d, b)
  {
    if b == t.root {
      g.SingleWalk(g.entry);
      assert g.WalkFromTo([g.entry], g.entry, g.entry);
      assert g.Dom(d, b) ==> d in [g.entry];
    } else {
      ParentIsImmediateDom(g, t, b);
      if g.IsImmediateDom(d, b) {
        var u := t.up[b];
        assert t.LinkAt(b) && ExactAt(g, t, u, d) && ExactAt(g, t, b, d) && ExactAt(g, t, d, u);
        t.AboveId(u, d);
        t.AboveId(d, u);
      }
    }
  }

  /** When all blocks are reachable, the tree holds exactly the blocks. */
  lemma BlocksInTree(g: Cfg, t: Tree)
    requires IsDomTree(g, t)
    requires g.AllReachable()
    ensures forall b :: b in t.up <==> b in g.blocks
  {
    forall b | b in g.blocks ensures b in t.up {
      assert g.Reachable(b);
    }
    forall b | b in t.up ensures b in g.blocks {
      assert g.Reachable(b);
      var w :| g.WalkFromTo(w, g.entry, b);
      g.WalkStaysInside(w, g.entry, b, set x | x in g.blocks);
    }
  }

  // ----- dominance frontiers -----

  /** `x` dominates a predecessor of `y` but not strictly `y` itself. */
  ghost predicate InFrontier(g: Cfg, x: Block, y: Block)
    requires y in g.preds
  {
    (exists p :: p in g.preds[y] && g.Dom(x, p)) && !g.StrictlyDom(x, y)
  }

  /** `x` is passed on the way up from `p` to the immediate dominator of `y`. */
  ghost predicate Passed(t: Tree, p: Block, x: Block, y: Block)
    requires t.Ok() && p in t.up && y in t.up
  {
    assert t.LinkAt(y);
    t.Above(p, x) && x in t.id && t.id[x] < t.id[t.up[y]]
  }

  /** The immediate dominator of a block is above each of its predecessors. */
  lemma ParentAbovePred(g: Cfg, t: Tree, p: Block, y: Block)
    requires IsDomTree(g, t) && y in t.up && y != t.root && g.Edge(p, y) && p in t.up
    ensures t.Above(p, t.up[y])
  {
    assert t.LinkAt(y) && t.Above(t.up[y], t.up[y]) && ExactAt(g, t, y, t.up[y]) && ExactAt(g, t, p, t.up[y]);
    g.DomOfPred(t.up[y], p, y);
  }

  lemma PassedIsFrontier(g: Cfg, t: Tree, p: Block, x: Block, y: Block)
    requires IsDomTree(g, t) && y in t.up && y != t.root && g.Edge(p, y) && p in t.up
    ensures Passed(t, p, x, y) <==> g.Dom(x, p) && !g.StrictlyDom(x, y)
  {
    ParentAbovePred(g, t, p, y);
    assert t.LinkAt(y) && ExactAt(g, t, p, x) && ExactAt(g, t, y, x);
    if t.Above(p, x) {
      t.AboveId(p, x);
      if g.StrictlyDom(x, y) {
        t.AboveId(t.up[y], x);
      } else if t.id[x] >= t.id[t.up[y]] {
        t.AboveLinear(p, t.up[y], x);
      }
    }
  }

  /** A walk enters its last block from one of that block's predecessors. */
  lemma {:induction false} WalkEnters(g: Cfg, w: seq<Block>, b: Block) returns (p: Block)
    requires g.WalkFromTo(w, g.entry, b) && b != g.entry
    ensures p in w && p != b && g.Edge(p, b)
    decreases |w|
  {
    var n := |w| - 2;
    assert g.EdgeAt(w, n + 1);
    if w[n] == b {
      g.PrefixWalk(w, g.entry, b, n);
      p := WalkEnters(g, w[..n + 1], b);
    } else {
      p := w[n];
    }
  }

  /** An only predecessor is the immediate dominator. */
  lemma OnlyPredIsParent(g: Cfg, t: Tree, y: Block)
    requires IsDomTree(g, t) && y in t.up && y != t.root && y in g.blocks && |g.preds[y]| <= 1
    ensures |g.preds[y]| == 1 && g.preds[y][0] == t.up[y]
  {
    assert g.Reachable(y);
    var v :| g.WalkFromTo(v, g.entry, y);
    var p := WalkEnters(g, v, y);
    g.EdgesMirror(p, y);
    forall w | g.WalkFromTo(w, g.entry, y) ensures p in w {
      var q := WalkEnters(g, w, y);
      g.EdgesMirror(q, y);
    }
    assert t.LinkAt(y) && g.StrictlyDom(p, y) && ExactAt(g, t, y, p);
    t.AboveId(t.up[y], p);
    assert g.Reachable(p);
    ParentAbovePred(g, t, p, y);
    t.AboveId(p, t.up[y]);
  }

  /** What the runner loops collect for `y` is its place in the frontiers. */
  lemma FrontierByRunners(g: Cfg, t: Tree, x: Block, y: Block)
    requires IsDomTree(g, t) && y in t.up && y in g.blocks && g.preds[g.entry] == []
    requires forall p :: p in g.preds[y] ==> p in t.up
    ensures InFrontier(g, x, y) <==>
            |g.preds[y]| >= 2 && y != t.root && exists p :: p in g.preds[y] && Passed(t, p, x, y)
  {
    if y != t.root {
      forall p | p in g.preds[y] ensures Passed(t, p, x, y) <==> g.Dom(x, p) && !g.StrictlyDom(x, y) {
        g.EdgesMirror(p, y);
        PassedIsFrontier(g, t, p, x, y);
      }
      if |g.preds[y]| <= 1 {
        OnlyPredIsParent(g, t, y);
        var p := t.up[y];
        assert g.preds[y] == [p];
        if Passed(t, p, x, y) { t.AboveId(p, x); }
      }
    }
  }
}
