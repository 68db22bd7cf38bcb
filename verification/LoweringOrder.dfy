/** The blocks of a lowered function lie in an order in which only loops go back,
    and a loop is entered only at its condition: the graph is reducible. The
    blocks that stay empty after an `if` with `else` come last. */
module LoweringOrder {
  import opened Graphs
  import opened Knots
  import opened IR
  import opened Sources
  import opened Lowerings
  import opened LoweringGrowth

  /** Ranks are numbers, so that there is room between any two blocks. */
  type Ranks = map<Block, real>

  function Rank(rank: Ranks, b: Block): real {
    if b in rank then rank[b] else 0.0
  }

  ghost predicate Different(rank: Ranks, n: nat, b: Block, c: Block) {
    b < n && c < n && b != c ==> Rank(rank, b) != Rank(rank, c)
  }

  ghost predicate Bounded(rank: Ranks, n: nat, b: Block) {
    b < n ==> 0.0 <= Rank(rank, b) <= 1.0 + b as real
  }

  /** Blocks with ranks from 1 on have no successors. */
  ghost predicate Sends(g: Cfg, rank: Ranks, x: Block, y: Block) {
    g.Edge(x, y) ==> Rank(rank, x) < 1.0
  }

  ghost predicate EdgeInside(g: Cfg, n: nat, x: Block, y: Block) {
    g.Edge(x, y) ==> x < n && y < n && x != y
  }

  /** An edge back from `p` to `h` makes a loop of the blocks between them: an
      edge to one of these other than `h` comes from one of them. */
  ghost predicate LoopClosed(g: Cfg, rank: Ranks, p: Block, h: Block, x: Block, y: Block) {
    g.Edge(p, h) && g.Edge(x, y) && Rank(rank, h) < Rank(rank, y) <= Rank(rank, p) ==>
      Rank(rank, h) <= Rank(rank, x) <= Rank(rank, p)
  }

  ghost predicate Layout(g: Cfg, n: nat, rank: Ranks) {
    && n > 0 && Rank(rank, 0) == 0.0
    && (forall b {:trigger Bounded(rank, n, b)} :: Bounded(rank, n, b))
    && (forall b, c {:trigger Different(rank, n, b, c)} :: Different(rank, n, b, c))
    && (forall x, y {:trigger EdgeInside(g, n, x, y)} :: EdgeInside(g, n, x, y))
    && (forall x, y {:trigger Sends(g, rank, x, y)} :: Sends(g, rank, x, y))
    && (forall p, h, x, y {:trigger LoopClosed(g, rank, p, h, x, y)} :: LoopClosed(g, rank, p, h, x, y))
  }

  // ----- one step -----

  ghost predicate EdgeSame(g: Cfg, g': Cfg, x: Block, y: Block) {
    g'.Edge(x, y) <==> g.Edge(x, y)
  }

  ghost predicate SameEdges(g: Cfg, g': Cfg) {
    forall x, y {:trigger EdgeSame(g, g', x, y)} :: EdgeSame(g, g', x, y)
  }

  ghost predicate EdgeAdded(g: Cfg, g': Cfg, p: Block, b: Block, x: Block, y: Block) {
    g'.Edge(x, y) <==> g.Edge(x, y) || (x == p && y == b)
  }

  ghost predicate OneMoreEdge(g: Cfg, g': Cfg, p: Block, b: Block) {
    forall x, y {:trigger EdgeAdded(g, g', p, b, x, y)} :: EdgeAdded(g, g', p, b, x, y)
  }

  ghost predicate RankFree(rank: Ranks, n: nat, q: real, b: Block) {
    b < n ==> Rank(rank, b) != q
  }

  lemma RankBlock(g: Cfg, g': Cfg, n: nat, rank: Ranks, q: real)
    requires Layout(g, n, rank) && SameEdges(g, g') && 0.0 < q <= 1.0 + n as real
    requires forall b {:trigger RankFree(rank, n, q, b)} :: RankFree(rank, n, q, b)
    ensures Layout(g', n + 1, rank[n := q])
  {
    var rank', n' := rank[n := q], n + 1;
    forall b ensures Bounded(rank', n', b) { assert Bounded(rank, n, b); }
    forall b, c ensures Different(rank', n', b, c) {
      assert Different(rank, n, b, c) && RankFree(rank, n, q, b) && RankFree(rank, n, q, c);
    }
    forall x, y ensures EdgeInside(g', n', x, y) && Sends(g', rank', x, y) {
      assert EdgeInside(g, n, x, y) && Sends(g, rank, x, y) && EdgeSame(g, g', x, y);
    }
    forall p, h, x, y ensures LoopClosed(g', rank', p, h, x, y) {
      assert LoopClosed(g, rank, p, h, x, y) && EdgeSame(g, g', x, y) && EdgeSame(g, g', p, h);
      assert EdgeInside(g, n, x, y) && EdgeInside(g, n, p, h);
    }
  }

  /** The new edge enters no loop but at its start ... */
  ghost predicate EntersWell(g: Cfg, rank: Ranks, p: Block, b: Block, p': Block, h: Block) {
    g.Edge(p', h) && Rank(rank, h) < Rank(rank, b) <= Rank(rank, p') ==> Rank(rank, h) <= Rank(rank, p) <= Rank(rank, p')
  }

  /** ... and if it makes a loop, no edge enters that but at its start. */
  ghost predicate EnteredWell(g: Cfg, rank: Ranks, p: Block, b: Block, x: Block, y: Block) {
    g.Edge(x, y) && Rank(rank, b) < Rank(rank, y) <= Rank(rank, p) ==> Rank(rank, b) <= Rank(rank, x) <= Rank(rank, p)
  }

  lemma AddEdgeLaid(g: Cfg, g': Cfg, n: nat, rank: Ranks, p: Block, b: Block)
    requires Layout(g, n, rank) && OneMoreEdge(g, g', p, b) && p < n && b < n && p != b && Rank(rank, p) < 1.0
    requires forall p', h {:trigger EntersWell(g, rank, p, b, p', h)} :: EntersWell(g, rank, p, b, p', h)
    requires forall x, y {:trigger EnteredWell(g, rank, p, b, x, y)} :: EnteredWell(g, rank, p, b, x, y)
    ensures Layout(g', n, rank)
  {
    forall x, y ensures EdgeInside(g', n, x, y) && Sends(g', rank, x, y) {
      assert EdgeInside(g, n, x, y) && Sends(g, rank, x, y) && EdgeAdded(g, g', p, b, x, y);
    }
    forall p', h, x, y ensures LoopClosed(g', rank, p', h, x, y) {
      assert LoopClosed(g, rank, p', h, x, y) && EdgeAdded(g, g', p, b, x, y) && EdgeAdded(g, g', p, b, p', h);
      assert EntersWell(g, rank, p, b, p', h) && EnteredWell(g, rank, p, b, x, y);
    }
  }

  /** Blocks up to `b`, and from `hi` on, but none between. */
  ghost predicate GapAt(rank: Ranks, n: nat, lo: real, hi: real, b: Block) {
    b < n ==> Rank(rank, b) <= lo || Rank(rank, b) >= hi
  }

  ghost predicate Gap(rank: Ranks, n: nat, lo: real, hi: real) {
    lo < hi && forall b {:trigger GapAt(rank, n, lo, hi, b)} :: GapAt(rank, n, lo, hi, b)
  }

  /** An edge forward over a gap. */
  lemma ForwardLaid(g: Cfg, g': Cfg, n: nat, rank: Ranks, p: Block, b: Block)
    requires Layout(g, n, rank) && OneMoreEdge(g, g', p, b) && p < n && b < n
    requires Rank(rank, p) < Rank(rank, b) && Rank(rank, p) < 1.0
    requires forall p', h {:trigger g.Edge(p', h)} :: g.Edge(p', h) && Rank(rank, h) < Rank(rank, b) ==> Rank(rank, h) <= Rank(rank, p)
    ensures Layout(g', n, rank)
  {
    forall p', h ensures EntersWell(g, rank, p, b, p', h) { }
    forall x, y ensures EnteredWell(g, rank, p, b, x, y) { }
    AddEdgeLaid(g, g', n, rank, p, b);
  }

  // ----- states -----

  ghost predicate Laid(st: Build, rank: Ranks, hi: real) {
    Layout(st.g, |st.g.blocks|, rank) && Gap(rank, |st.g.blocks|, Rank(rank, st.cur), hi) && hi <= 1.0
  }

  /** A new block between the current one and `hi`; it gets the rank `q`. */
  lemma NewBlockLaid(st: Build, st': Build, rank: Ranks, hi: real, q: real, lo: real)
    requires Sound(st) && st'.g == st.NewBlock().g && Layout(st.g, |st.g.blocks|, rank) && Gap(rank, |st.g.blocks|, lo, hi)
    requires 0.0 <= lo < q < hi <= 1.0
    ensures Layout(st'.g, |st'.g.blocks|, rank[|st.g.blocks| := q]) && |st'.g.blocks| == |st.g.blocks| + 1
    ensures Gap(rank[|st.g.blocks| := q], |st'.g.blocks|, q, hi) && SameEdges(st.g, st'.g)
  {
    var n := |st.g.blocks|;
    forall x, y ensures EdgeSame(st.g, st'.g, x, y) {
      assert ThereAt(st, x);
      assert EdgeInside(st.g, n, x, y);
    }
    forall b ensures RankFree(rank, n, q, b) { assert GapAt(rank, n, lo, hi, b); }
    RankBlock(st.g, st'.g, n, rank, q);
    var rank', n' := rank[n := q], n + 1;
    forall b ensures GapAt(rank', n', q, hi, b) { assert GapAt(rank, n, lo, hi, b); }
  }

  lemma AddEdgeAdds(st: Build, b: Block)
    requires Sound(st) && b < |st.g.blocks|
    ensures OneMoreEdge(st.g, st.AddEdge(b).g, st.cur, b)
  {
    var g' := st.AddEdge(b).g;
    forall x, y ensures EdgeAdded(st.g, g', st.cur, b, x, y) { }
  }

  /** What lowering a statement does to the order: the new blocks come between
      the one it begins in and `hi`, with the one it ends in as the last, or
      after all others. */
  ghost predicate KeepsRank(st: Build, r: Build, rank: Ranks, rank': Ranks, hi: real, b: Block) {
    && (b < |st.g.blocks| ==> Rank(rank', b) == Rank(rank, b))
    && (|st.g.blocks| <= b < |r.g.blocks| ==> Rank(rank, st.cur) < Rank(rank', b) < hi || Rank(rank', b) >= 1.0)
  }

  ghost predicate NewEdge(st: Build, r: Build, x: Block, y: Block) {
    r.g.Edge(x, y) && !st.g.Edge(x, y) ==> (x == st.cur || x >= |st.g.blocks|) && y >= |st.g.blocks|
  }

  ghost predicate StmtLaid(st: Build, r: Build, rank: Ranks, rank': Ranks, hi: real) {
    && Laid(r, rank', hi) && |st.g.blocks| <= |r.g.blocks|
    && (forall b {:trigger KeepsRank(st, r, rank, rank', hi, b)} :: KeepsRank(st, r, rank, rank', hi, b))
    && (forall x, y {:trigger NewEdge(st, r, x, y)} :: NewEdge(st, r, x, y))
    && (r.cur == st.cur || r.cur >= |st.g.blocks|)
  }

  lemma NothingNew(st: Build, r: Build, rank: Ranks, hi: real)
    requires Laid(st, rank, hi) && r.g == st.g && r.cur == st.cur
    ensures StmtLaid(st, r, rank, rank, hi)
  {
    forall b ensures KeepsRank(st, r, rank, rank, hi, b) { }
    forall x, y ensures NewEdge(st, r, x, y) { }
  }

  lemma LaidTrans(a: Build, b: Build, c: Build, r0: Ranks, r1: Ranks, r2: Ranks, hi: real)
    requires a.cur < |a.g.blocks| && b.cur < |b.g.blocks| && StmtLaid(a, b, r0, r1, hi) && StmtLaid(b, c, r1, r2, hi)
    ensures StmtLaid(a, c, r0, r2, hi)
  {
    forall x ensures KeepsRank(a, c, r0, r2, hi, x) {
      assert KeepsRank(a, b, r0, r1, hi, x) && KeepsRank(b, c, r1, r2, hi, x);
      assert KeepsRank(a, b, r0, r1, hi, b.cur) && KeepsRank(b, c, r1, r2, hi, b.cur);
    }
    forall x, y ensures NewEdge(a, c, x, y) {
      assert NewEdge(a, b, x, y) && NewEdge(b, c, x, y);
    }
  }

  // ----- new blocks -----

  /** The ranks of the blocks that there were are kept. */
  ghost predicate SameRanks(n: nat, rank: Ranks, rank': Ranks) {
    forall b: Block {:trigger Rank(rank', b)} :: b < n ==> Rank(rank', b) == Rank(rank, b)
  }

  lemma SameEdgesTrans(a: Cfg, b: Cfg, c: Cfg)
    requires SameEdges(a, b) && SameEdges(b, c)
    ensures SameEdges(a, c)
  {
    forall x, y ensures EdgeSame(a, c, x, y) {
      assert EdgeSame(a, b, x, y) && EdgeSame(b, c, x, y);
    }
  }

  lemma SameRanksTrans(n: nat, m: nat, rank: Ranks, rank1: Ranks, rank2: Ranks)
    requires n <= m && SameRanks(n, rank, rank1) && SameRanks(m, rank1, rank2)
    ensures SameRanks(n, rank, rank2)
  {
    forall b: Block | b < n ensures Rank(rank2, b) == Rank(rank, b) { assert Rank(rank1, b) == Rank(rank, b); }
  }

  /** A block `f`, half way between `t` and `hi`. */
  lemma NextRanked(st: Build, st': Build, rank: Ranks, hi: real, t: Block, f: Block) returns (rank': Ranks)
    requires Sound(st) && st'.g == st.NewBlock().g && f == |st.g.blocks| && t < f
    requires Layout(st.g, f, rank) && Gap(rank, f, Rank(rank, t), hi) && hi <= 1.0
    ensures |st'.g.blocks| == f + 1 && Layout(st'.g, |st'.g.blocks|, rank') && SameEdges(st.g, st'.g) && SameRanks(f, rank, rank')
    ensures Rank(rank', t) == Rank(rank, t) < Rank(rank', f) < hi && Gap(rank', |st'.g.blocks|, Rank(rank', f), hi)
  {
    var lo := Rank(rank, t);
    var q := (lo + hi) / 2.0;
    assert Bounded(rank, f, t);
    NewBlockLaid(st, st', rank, hi, q, lo);
    rank' := rank[f := q];
  }

  /** Two blocks, `t` and then `f`. */
  lemma TwoRanked(st: Build, st1: Build, rank: Ranks, hi: real, t: Block, f: Block) returns (rank': Ranks)
    requires Sound(st) && st1.g == NewBlocks(st, 2).g && Laid(st, rank, hi) && t == |st.g.blocks| && f == t + 1
    ensures |st1.g.blocks| == f + 1 && Layout(st1.g, |st1.g.blocks|, rank') && SameEdges(st.g, st1.g) && SameRanks(t, rank, rank')
    ensures Rank(rank, st.cur) < Rank(rank', t) < Rank(rank', f) < hi && Gap(rank', |st1.g.blocks|, Rank(rank', f), hi)
  {
    var st0 := st.NewBlock();
    assert NewBlocks(st, 0) == st && NewBlocks(st, 1) == st0 && st1.g == st0.NewBlock().g;
    NewBlocksSound(st, 1);
    var rank0 := NextRanked(st, st0, rank, hi, st.cur, t);
    rank' := NextRanked(st0, st1, rank0, hi, t, f);
    SameEdgesTrans(st.g, st0.g, st1.g);
    SameRanksTrans(t, f, rank, rank0, rank');
  }

  /** Three blocks, `n`, `t` and then `f`. */
  lemma ThreeRanked(st: Build, st1: Build, rank: Ranks, hi: real, n: Block, t: Block, f: Block) returns (rank': Ranks)
    requires Sound(st) && st1.g == NewBlocks(st, 3).g && Laid(st, rank, hi) && n == |st.g.blocks| && t == n + 1 && f == n + 2
    ensures |st1.g.blocks| == f + 1 && Layout(st1.g, |st1.g.blocks|, rank') && SameEdges(st.g, st1.g) && SameRanks(n, rank, rank')
    ensures Rank(rank, st.cur) < Rank(rank', n) < Rank(rank', t) < Rank(rank', f) < hi && Gap(rank', |st1.g.blocks|, Rank(rank', f), hi)
  {
    var st0 := NewBlocks(st, 2);
    NewBlocksSound(st, 2);
    var rank0 := TwoRanked(st, st0, rank, hi, n, t);
    rank' := NextRanked(st0, st1, rank0, hi, t, f);
    assert Rank(rank', n) == Rank(rank0, n);
    SameEdgesTrans(st.g, st0.g, st1.g);
    SameRanksTrans(n, f, rank, rank0, rank');
  }

  // ----- branches -----

  /** Two edges from `p`, to `f` and to `t`, neither of which has a predecessor
      yet. */
  lemma BranchLaid(st: Build, r: Build, rank: Ranks, v: Value, t: Block, f: Block)
    requires Sound(st) && r == Test(st, v, t, f) && t < |st.g.blocks| && f < |st.g.blocks| && Layout(st.g, |st.g.blocks|, rank)
    requires Rank(rank, st.cur) < Rank(rank, t) < Rank(rank, f) <= 1.0
    requires forall x, y {:trigger st.g.Edge(x, y)} :: st.g.Edge(x, y) ==> !(Rank(rank, st.cur) < Rank(rank, y) < Rank(rank, f))
    ensures Layout(r.g, |r.g.blocks|, rank) && r.g.blocks == st.g.blocks
    ensures forall x, y {:trigger r.g.Edge(x, y)} :: r.g.Edge(x, y) <==> st.g.Edge(x, y) || (x == st.cur && (y == t || y == f))
  {
    var st1 := st.AddEdge(f);
    AddEdgeAdds(st, f);
    EdgeSound(st, f);
    AddEdgeAdds(st1, t);
    ForwardLaid(st.g, st1.g, |st.g.blocks|, rank, st.cur, f);
    forall x, y | st1.g.Edge(x, y) && Rank(rank, y) < Rank(rank, t) ensures Rank(rank, y) <= Rank(rank, st.cur) {
      assert EdgeAdded(st.g, st1.g, st.cur, f, x, y);
    }
    ForwardLaid(st1.g, r.g, |st.g.blocks|, rank, st.cur, t);
    forall x, y ensures r.g.Edge(x, y) <==> st.g.Edge(x, y) || (x == st.cur && (y == t || y == f)) {
      assert EdgeAdded(st.g, st1.g, st.cur, f, x, y) && EdgeAdded(st1.g, r.g, st.cur, t, x, y);
    }
  }

  /** The branch of an `if`. Up to the next block, there is room for the arm. */
  lemma ForkLaid(st: Build, c: Expr, cond: Lowered, st0: Build, st1: Build, t: Block, f: Block, rank: Ranks, hi: real)
    returns (rank': Ranks)
    requires Sound(st) && Laid(st, rank, hi) && ForkOf(st, c, cond, st0, st1, t, f)
    ensures StmtLaid(st, st1.At(f), rank, rank', hi) && Laid(st1, rank', Rank(rank', f)) && st1.cur == t && AllForward(st, st1, rank')
  {
    ForkGrows(st, c, cond, st0, st1, t, f);
    rank' := ForkRanked(st, c, cond, st0, st1, t, f, rank, hi);
    EdgesAvoid(st, st0, rank, rank', hi);
    ForkBranches(st, c, cond, st0, st1, t, f, rank');
    ForkRanks(st, st0, st1, rank, rank', hi, t, f);
  }

  lemma ForkRanked(st: Build, c: Expr, cond: Lowered, st0: Build, st1: Build, t: Block, f: Block, rank: Ranks, hi: real)
    returns (rank': Ranks)
    requires Laid(st, rank, hi) && ExprGrown(st, cond.st) && ForkOf(st, c, cond, st0, st1, t, f)
    ensures |st0.g.blocks| == f + 1 && Layout(st0.g, |st0.g.blocks|, rank') && SameEdges(st.g, st0.g) && SameRanks(t, rank, rank')
    ensures Rank(rank, st.cur) < Rank(rank', t) < Rank(rank', f) < hi && Gap(rank', |st0.g.blocks|, Rank(rank', f), hi)
  {
    assert OneLevel(0);
    rank' := TwoRanked(cond.st, st0, rank, hi, t, f);
  }

  lemma ForkBranches(st: Build, c: Expr, cond: Lowered, st0: Build, st1: Build, t: Block, f: Block, rank: Ranks)
    requires Sound(st0) && st0.cur == st.cur && |st0.g.blocks| == f + 1 && ForkOf(st, c, cond, st0, st1, t, f)
    requires Layout(st0.g, |st0.g.blocks|, rank) && Rank(rank, st.cur) < Rank(rank, t) < Rank(rank, f) <= 1.0
    requires forall x, y {:trigger st0.g.Edge(x, y)} :: st0.g.Edge(x, y) ==> !(Rank(rank, st.cur) < Rank(rank, y) < Rank(rank, f))
    ensures Layout(st1.g, |st1.g.blocks|, rank) && st1.g.blocks == st0.g.blocks
    ensures forall x, y {:trigger st1.g.Edge(x, y)} :: st1.g.Edge(x, y) <==> st0.g.Edge(x, y) || (x == st.cur && (y == t || y == f))
  {
    assert OneLevel(0);
    BranchLaid(st0, st1, rank, cond.v, t, f);
  }

  /** No edge leads to the room that there was. */
  lemma EdgesAvoid(st: Build, st0: Build, rank: Ranks, rank': Ranks, hi: real)
    requires Sound(st) && Laid(st, rank, hi) && SameEdges(st.g, st0.g) && SameRanks(|st.g.blocks|, rank, rank')
    ensures forall x, y {:trigger st0.g.Edge(x, y)} :: st0.g.Edge(x, y) ==> Rank(rank', y) <= Rank(rank, st.cur) || Rank(rank', y) >= hi
  {
    forall x, y | st0.g.Edge(x, y) ensures Rank(rank', y) <= Rank(rank, st.cur) || Rank(rank', y) >= hi {
      assert EdgeSame(st.g, st0.g, x, y) && EdgeInside(st.g, |st.g.blocks|, x, y);
      assert GapAt(rank, |st.g.blocks|, Rank(rank, st.cur), hi, y);
    }
  }

  /** An edge that is new leads forward. */
  ghost predicate ForwardEdge(st: Build, r: Build, rank: Ranks, x: Block, y: Block) {
    r.g.Edge(x, y) && !st.g.Edge(x, y) ==> Rank(rank, x) < Rank(rank, y)
  }

  ghost predicate AllForward(st: Build, r: Build, rank: Ranks) {
    forall x, y {:trigger ForwardEdge(st, r, rank, x, y)} :: ForwardEdge(st, r, rank, x, y)
  }

  lemma ForkRanks(st: Build, st0: Build, st1: Build, rank: Ranks, rank': Ranks, hi: real, t: Block, f: Block)
    requires Sound(st) && Laid(st, rank, hi) && SameEdges(st.g, st0.g) && SameRanks(t, rank, rank') && t == |st.g.blocks| && f == t + 1
    requires Layout(st1.g, |st1.g.blocks|, rank') && |st1.g.blocks| == f + 1 && st1.cur == t
    requires forall x, y {:trigger st1.g.Edge(x, y)} :: st1.g.Edge(x, y) <==> st0.g.Edge(x, y) || (x == st.cur && (y == t || y == f))
    requires Rank(rank, st.cur) < Rank(rank', t) < Rank(rank', f) < hi && Gap(rank', f + 1, Rank(rank', f), hi)
    ensures StmtLaid(st, st1.At(f), rank, rank', hi) && Laid(st1, rank', Rank(rank', f)) && AllForward(st, st1, rank')
  {
    var r, m, lo, mid := st1.At(f), f + 1, Rank(rank', t), Rank(rank', f);
    assert ThereAt(st, st.cur);
    forall b ensures KeepsRank(st, r, rank, rank', hi, b) { }
    forall x, y ensures NewEdge(st, r, x, y) && ForwardEdge(st, st1, rank', x, y) { assert EdgeSame(st.g, st0.g, x, y); }
    forall b ensures GapAt(rank', m, lo, mid, b) {
      assert GapAt(rank, t, Rank(rank, st.cur), hi, b);
    }
  }

  /** The arm: it is laid out in the room before `f`. */
  lemma ArmLaid(st: Build, st1: Build, st2: Build, t: Block, f: Block, rank: Ranks, rank1: Ranks, rank2: Ranks, hi: real)
    requires StmtLaid(st, st1.At(f), rank, rank1, hi) && st1.cur == t && |st.g.blocks| <= t < |st1.g.blocks| && |st.g.blocks| <= f < |st1.g.blocks|
    requires Laid(st1, rank1, Rank(rank1, f)) && StmtLaid(st1, st2, rank1, rank2, Rank(rank1, f))
    ensures StmtLaid(st, st2.At(f), rank, rank2, hi)
  {
    var r1, r := st1.At(f), st2.At(f);
    var mid := Rank(rank1, f);
    assert KeepsRank(st, r1, rank, rank1, hi, t) && KeepsRank(st, r1, rank, rank1, hi, f) && KeepsRank(st1, st2, rank1, rank2, mid, f);
    forall b ensures KeepsRank(st, r, rank, rank2, hi, b) {
      assert KeepsRank(st, r1, rank, rank1, hi, b) && KeepsRank(st1, st2, rank1, rank2, mid, b);
    }
    forall x, y ensures NewEdge(st, r, x, y) {
      assert NewEdge(st, r1, x, y) && NewEdge(st1, st2, x, y);
    }
    forall b ensures GapAt(rank2, |r.g.blocks|, mid, hi, b) {
      assert GapAt(rank1, |st1.g.blocks|, mid, hi, b) && KeepsRank(st1, st2, rank1, rank2, mid, b);
    }
  }

  lemma JumpAdds(st: Build, b: Block, next: Block, r: Build)
    requires Sound(st) && b < |st.g.blocks| && r == Jump(st, b, next) && !Ended(st)
    ensures OneMoreEdge(st.g, r.g, st.cur, b) && r.g.blocks == st.g.blocks && r.cur == next
  {
    AddEdgeAdds(st, b);
  }

  /** The jump from the end of the arm to what follows. */
  lemma ArmJumps(st: Build, st2: Build, r: Build, f: Block, rank: Ranks, rank2: Ranks, hi: real)
    requires Sound(st2) && StmtLaid(st, st2.At(f), rank, rank2, hi) && Laid(st2, rank2, Rank(rank2, f)) && st2.cur >= |st.g.blocks|
    requires |st.g.blocks| <= f < |st2.g.blocks| && r == Jump(st2, f, f)
    ensures StmtLaid(st, r, rank, rank2, hi)
  {
    if Ended(st2) {
      SameLaid(st, st, st2.At(f), r, rank, rank2, hi);
    } else {
      ArmEnters(st, st2, r, f, rank, rank2, hi);
    }
  }

  lemma ArmEnters(st: Build, st2: Build, r: Build, f: Block, rank: Ranks, rank2: Ranks, hi: real)
    requires Sound(st2) && StmtLaid(st, st2.At(f), rank, rank2, hi) && Laid(st2, rank2, Rank(rank2, f)) && st2.cur >= |st.g.blocks|
    requires |st.g.blocks| <= f < |st2.g.blocks| && r == Jump(st2, f, f) && !Ended(st2)
    ensures StmtLaid(st, r, rank, rank2, hi)
  {
    var n, p := |st2.g.blocks|, st2.cur;
    JumpAdds(st2, f, f, r);
    forall x, y | st2.g.Edge(x, y) && Rank(rank2, y) < Rank(rank2, f) ensures Rank(rank2, y) <= Rank(rank2, p) {
      assert EdgeInside(st2.g, n, x, y) && GapAt(rank2, n, Rank(rank2, p), Rank(rank2, f), y);
    }
    ForwardLaid(st2.g, r.g, n, rank2, p, f);
    EdgeLaid(st, st2, r, p, f, rank, rank2, hi, f);
  }

  /** One more edge between new blocks. */
  lemma EdgeLaid(st: Build, st2: Build, r: Build, p: Block, b: Block, rank: Ranks, rank2: Ranks, hi: real, f: Block)
    requires StmtLaid(st, st2.At(f), rank, rank2, hi) && OneMoreEdge(st2.g, r.g, p, b) && r.g.blocks == st2.g.blocks && r.cur == f
    requires p >= |st.g.blocks| && b >= |st.g.blocks| && Layout(r.g, |r.g.blocks|, rank2)
    ensures StmtLaid(st, r, rank, rank2, hi)
  {
    var r2 := st2.At(f);
    forall x ensures KeepsRank(st, r, rank, rank2, hi, x) { assert KeepsRank(st, r2, rank, rank2, hi, x); }
    forall x, y ensures NewEdge(st, r, x, y) {
      assert NewEdge(st, r2, x, y) && EdgeAdded(st2.g, r.g, p, b, x, y);
    }
  }

  // ----- loops -----

  /** The edges at the start of a loop: into the body only from the condition,
      and none out of it yet. */
  ghost predicate LoopEdge(g: Cfg, n: Block, t: Block, f: Block, x: Block, y: Block) {
    g.Edge(x, y) ==> (y == t ==> x == n) && (x == n ==> y == t || y == f) && x != t
  }

  ghost predicate LoopEdges(g: Cfg, n: Block, t: Block, f: Block) {
    forall x, y {:trigger LoopEdge(g, n, t, f, x, y)} :: LoopEdge(g, n, t, f, x, y)
  }

  /** The blocks of a loop, and the edges up to its body. */
  lemma LoopLaid(st: Build, c: Expr, st0: Build, st1: Build, cond: Lowered, st2: Build, n: Block, t: Block, f: Block, rank: Ranks, hi: real)
    returns (rank': Ranks)
    requires Sound(st) && Laid(st, rank, hi) && LoopOf(st, c, st0, st1, cond, st2, n, t, f)
    ensures StmtLaid(st, st2.At(f), rank, rank', hi) && Laid(st2, rank', Rank(rank', f)) && st2.cur == t
    ensures LoopEdges(st2.g, n, t, f) && Rank(rank', n) < Rank(rank', t) && AllForward(st, st2, rank')
  {
    LoopEntered(st, c, st0, st1, cond, st2, n, t, f);
    LoopTested(st, c, st0, st1, cond, st2, n, t, f);
    rank' := LoopRanked(st, c, st0, st1, cond, st2, n, t, f, rank, hi);
    LoopEnteredLaid(st, c, st0, st1, cond, st2, n, t, f, rank, rank', hi);
    LoopTestedLaid(st, c, st0, st1, cond, st2, n, t, f, rank');
    LoopRanks(st, st0, st1, st2, rank, rank', hi, n, t, f);
  }

  lemma LoopRanked(st: Build, c: Expr, st0: Build, st1: Build, cond: Lowered, st2: Build, n: Block, t: Block, f: Block, rank: Ranks, hi: real)
    returns (rank': Ranks)
    requires Sound(st) && Laid(st, rank, hi) && LoopOf(st, c, st0, st1, cond, st2, n, t, f)
    ensures |st0.g.blocks| == f + 1 && Layout(st0.g, |st0.g.blocks|, rank') && SameEdges(st.g, st0.g) && SameRanks(n, rank, rank')
    ensures Rank(rank, st.cur) < Rank(rank', n) < Rank(rank', t) < Rank(rank', f) < hi && Gap(rank', |st0.g.blocks|, Rank(rank', f), hi)
  {
    assert OneLevel(0);
    rank' := ThreeRanked(st, st0, rank, hi, n, t, f);
  }

  lemma LoopEnteredLaid(st: Build, c: Expr, st0: Build, st1: Build, cond: Lowered, st2: Build, n: Block, t: Block, f: Block,
                        rank: Ranks, rank': Ranks, hi: real)
    requires Sound(st) && Laid(st, rank, hi) && Sound(st0) && st0.cur == st.cur && LoopOf(st, c, st0, st1, cond, st2, n, t, f)
    requires SameEdges(st.g, st0.g) && SameRanks(n, rank, rank') && |st0.g.blocks| == f + 1
    requires Layout(st0.g, |st0.g.blocks|, rank') && Rank(rank, st.cur) < Rank(rank', n) < Rank(rank', f) < hi && st.cur < n
    ensures Layout(st1.g, |st1.g.blocks|, rank') && |st1.g.blocks| == f + 1 && OneMoreEdge(st0.g, st1.g, st.cur, n)
    ensures forall x, y {:trigger st1.g.Edge(x, y)} :: st1.g.Edge(x, y) ==> !(Rank(rank', n) < Rank(rank', y) < Rank(rank', f))
  {
    assert OneLevel(0) && st1 == st0.Br(n).At(n);
    EntryLaidOut(st, st0, st1, n, t, f, rank, rank', hi);
  }

  lemma LoopTestedLaid(st: Build, c: Expr, st0: Build, st1: Build, cond: Lowered, st2: Build, n: Block, t: Block, f: Block, rank: Ranks)
    requires LoopOf(st, c, st0, st1, cond, st2, n, t, f) && ExprGrown(st1, cond.st) && st1.cur == n && |st1.g.blocks| == f + 1
    requires Layout(st1.g, |st1.g.blocks|, rank) && Rank(rank, n) < Rank(rank, t) < Rank(rank, f) <= 1.0
    requires forall x, y {:trigger st1.g.Edge(x, y)} :: st1.g.Edge(x, y) ==> !(Rank(rank, n) < Rank(rank, y) < Rank(rank, f))
    ensures Layout(st2.g, |st2.g.blocks|, rank)
    ensures forall x, y {:trigger st2.g.Edge(x, y)} :: st2.g.Edge(x, y) <==> st1.g.Edge(x, y) || (x == n && (y == t || y == f))
  {
    assert OneLevel(0) && st2 == Test(cond.st, cond.v, t, f);
    BranchLaid(cond.st, st2, rank, cond.v, t, f);
  }

  /** The jump to the condition. */
  lemma EntryLaidOut(st: Build, st0: Build, st1: Build, n: Block, t: Block, f: Block, rank: Ranks, rank': Ranks, hi: real)
    requires Sound(st) && Laid(st, rank, hi) && Sound(st0) && st0.cur == st.cur && st1 == st0.Br(n).At(n)
    requires SameEdges(st.g, st0.g) && SameRanks(n, rank, rank') && n == |st.g.blocks| && t == n + 1 && f == n + 2 && |st0.g.blocks| == f + 1
    requires Layout(st0.g, |st0.g.blocks|, rank') && Rank(rank, st.cur) < Rank(rank', n) < Rank(rank', f) < hi && st.cur < n
    ensures Layout(st1.g, |st1.g.blocks|, rank') && |st1.g.blocks| == f + 1 && OneMoreEdge(st0.g, st1.g, st.cur, n)
    ensures forall x, y {:trigger st1.g.Edge(x, y)} :: st1.g.Edge(x, y) ==> !(Rank(rank', n) < Rank(rank', y) < Rank(rank', f))
  {
    EdgesAvoid(st, st0, rank, rank', hi);
    AddEdgeAdds(st0, n);
    assert Rank(rank', st.cur) == Rank(rank, st.cur);
    ForwardLaid(st0.g, st1.g, |st0.g.blocks|, rank', st.cur, n);
    forall x, y | st1.g.Edge(x, y) ensures !(Rank(rank', n) < Rank(rank', y) < Rank(rank', f)) {
      assert EdgeAdded(st0.g, st1.g, st.cur, n, x, y);
    }
  }

  lemma LoopRanks(st: Build, st0: Build, st1: Build, st2: Build, rank: Ranks, rank': Ranks, hi: real, n: Block, t: Block, f: Block)
    requires Sound(st) && Laid(st, rank, hi) && SameEdges(st.g, st0.g) && SameRanks(n, rank, rank')
    requires n == |st.g.blocks| && t == n + 1 && f == n + 2
    requires Layout(st2.g, |st2.g.blocks|, rank') && |st2.g.blocks| == f + 1 && st2.cur == t && OneMoreEdge(st0.g, st1.g, st.cur, n)
    requires forall x, y {:trigger st2.g.Edge(x, y)} :: st2.g.Edge(x, y) <==> st1.g.Edge(x, y) || (x == n && (y == t || y == f))
    requires Rank(rank, st.cur) < Rank(rank', n) < Rank(rank', t) < Rank(rank', f) < hi && Gap(rank', f + 1, Rank(rank', f), hi)
    ensures StmtLaid(st, st2.At(f), rank, rank', hi) && Laid(st2, rank', Rank(rank', f)) && LoopEdges(st2.g, n, t, f)
    ensures AllForward(st, st2, rank')
  {
    var r, m, lo, mid := st2.At(f), f + 1, Rank(rank', t), Rank(rank', f);
    forall b ensures KeepsRank(st, r, rank, rank', hi, b) { }
    forall x, y ensures NewEdge(st, r, x, y) && LoopEdge(st2.g, n, t, f, x, y) && ForwardEdge(st, st2, rank', x, y) {
      assert EdgeSame(st.g, st0.g, x, y) && EdgeAdded(st0.g, st1.g, st.cur, n, x, y) && EdgeInside(st.g, n, x, y);
      assert ThereAt(st, st.cur);
    }
    forall b ensures GapAt(rank', m, lo, mid, b) {
      assert GapAt(rank, n, Rank(rank, st.cur), hi, b);
    }
  }

  /** The jump from the end of the body back to the condition. */
  lemma BodyJumps(st: Build, st2: Build, st3: Build, r: Build, n: Block, t: Block, f: Block, rank: Ranks, rank2: Ranks, rank3: Ranks, hi: real)
    requires Sound(st3) && n == |st.g.blocks| && t == n + 1 && f == n + 2 && |st2.g.blocks| == f + 1 && st2.cur == t
    requires StmtLaid(st, st2.At(f), rank, rank2, hi) && Laid(st2, rank2, Rank(rank2, f)) && LoopEdges(st2.g, n, t, f)
    requires Rank(rank2, n) < Rank(rank2, t) && Gap(rank, n, Rank(rank, st.cur), hi)
    requires StmtLaid(st2, st3, rank2, rank3, Rank(rank2, f)) && StmtLaid(st, st3.At(f), rank, rank3, hi) && r == Jump(st3, n, f)
    ensures StmtLaid(st, r, rank, rank3, hi)
  {
    if Ended(st3) {
      SameLaid(st, st, st3.At(f), r, rank, rank3, hi);
    } else {
      BodyReturns(st, st2, st3, r, n, t, f, rank, rank2, rank3, hi);
    }
  }

  lemma BodyReturns(st: Build, st2: Build, st3: Build, r: Build, n: Block, t: Block, f: Block, rank: Ranks, rank2: Ranks, rank3: Ranks, hi: real)
    requires Sound(st3) && !Ended(st3) && n == |st.g.blocks| && t == n + 1 && f == n + 2 && |st2.g.blocks| == f + 1 && st2.cur == t
    requires StmtLaid(st, st2.At(f), rank, rank2, hi) && Laid(st2, rank2, Rank(rank2, f)) && LoopEdges(st2.g, n, t, f)
    requires Rank(rank2, n) < Rank(rank2, t) && Gap(rank, n, Rank(rank, st.cur), hi)
    requires StmtLaid(st2, st3, rank2, rank3, Rank(rank2, f)) && StmtLaid(st, st3.At(f), rank, rank3, hi) && r == Jump(st3, n, f)
    ensures StmtLaid(st, r, rank, rank3, hi)
  {
    var p, m, mid := st3.cur, |st3.g.blocks|, Rank(rank2, f);
    JumpAdds(st3, n, f, r);
    assert KeepsRank(st2, st3, rank2, rank3, mid, n) && KeepsRank(st2, st3, rank2, rank3, mid, t) && KeepsRank(st2, st3, rank2, rank3, mid, p);
    forall x, y ensures EntersWell(st3.g, rank3, p, n, x, y) {
      BackEntersWell(st, st2, st3, n, t, f, rank, rank2, rank3, hi, x, y);
    }
    forall x, y ensures EnteredWell(st3.g, rank3, p, n, x, y) {
      BackEnteredWell(st, st2, st3, n, t, f, rank, rank2, rank3, hi, x, y);
    }
    AddEdgeLaid(st3.g, r.g, m, rank3, p, n);
    EdgeLaid(st, st3, r, p, n, rank, rank3, hi, f);
  }

  /** Where a block of the loop lies: its condition, its body, or outside. */
  lemma InLoop(st: Build, st2: Build, st3: Build, n: Block, t: Block, f: Block, rank: Ranks, rank2: Ranks, rank3: Ranks, hi: real, x: Block)
    requires n == |st.g.blocks| && t == n + 1 && f == n + 2 && |st2.g.blocks| == f + 1 && st2.cur == t
    requires StmtLaid(st, st2.At(f), rank, rank2, hi) && Gap(rank, n, Rank(rank, st.cur), hi) && Laid(st2, rank2, Rank(rank2, f))
    requires Rank(rank2, n) < Rank(rank2, t) && StmtLaid(st2, st3, rank2, rank3, Rank(rank2, f))
    requires x < |st3.g.blocks| && st3.cur < |st3.g.blocks|
    ensures x == n || x == t || x >= |st2.g.blocks| || Rank(rank3, x) < Rank(rank3, n) || Rank(rank3, x) >= Rank(rank2, f)
    ensures x >= |st2.g.blocks| ==> Rank(rank3, t) < Rank(rank3, x) <= Rank(rank3, st3.cur) || Rank(rank3, x) >= 1.0
    ensures Rank(rank3, n) < Rank(rank3, t) <= Rank(rank3, st3.cur) < Rank(rank2, f)
  {
    var mid, s := Rank(rank2, f), st2.At(f);
    assert KeepsRank(st2, st3, rank2, rank3, mid, x) && KeepsRank(st2, st3, rank2, rank3, mid, n) && KeepsRank(st2, st3, rank2, rank3, mid, t);
    assert KeepsRank(st, s, rank, rank2, hi, x) && KeepsRank(st, s, rank, rank2, hi, n) && KeepsRank(st, s, rank, rank2, hi, f);
    assert GapAt(rank, n, Rank(rank, st.cur), hi, x) && GapAt(rank3, |st3.g.blocks|, Rank(rank3, st3.cur), mid, x);
    assert KeepsRank(st2, st3, rank2, rank3, mid, st3.cur);
  }

  lemma BackEntersWell(st: Build, st2: Build, st3: Build, n: Block, t: Block, f: Block, rank: Ranks, rank2: Ranks, rank3: Ranks, hi: real,
                       p: Block, h: Block)
    requires n == |st.g.blocks| && t == n + 1 && f == n + 2 && |st2.g.blocks| == f + 1 && st2.cur == t
    requires StmtLaid(st, st2.At(f), rank, rank2, hi) && Gap(rank, n, Rank(rank, st.cur), hi) && Laid(st2, rank2, Rank(rank2, f))
    requires LoopEdges(st2.g, n, t, f) && st3.cur < |st3.g.blocks|
    requires Rank(rank2, n) < Rank(rank2, t) && StmtLaid(st2, st3, rank2, rank3, Rank(rank2, f))
    ensures EntersWell(st3.g, rank3, st3.cur, n, p, h)
  {
    if st3.g.Edge(p, h) {
      assert EdgeInside(st3.g, |st3.g.blocks|, p, h) && EdgeInside(st2.g, |st2.g.blocks|, p, h);
      InLoop(st, st2, st3, n, t, f, rank, rank2, rank3, hi, p);
      InLoop(st, st2, st3, n, t, f, rank, rank2, rank3, hi, h);
      assert Sends(st3.g, rank3, p, h);
      assert NewEdge(st2, st3, p, h) && LoopEdge(st2.g, n, t, f, p, h);
      assert KeepsRank(st2, st3, rank2, rank3, Rank(rank2, f), f);
    }
  }

  lemma BackEnteredWell(st: Build, st2: Build, st3: Build, n: Block, t: Block, f: Block, rank: Ranks, rank2: Ranks, rank3: Ranks, hi: real,
                        x: Block, y: Block)
    requires n == |st.g.blocks| && t == n + 1 && f == n + 2 && |st2.g.blocks| == f + 1 && st2.cur == t
    requires StmtLaid(st, st2.At(f), rank, rank2, hi) && Gap(rank, n, Rank(rank, st.cur), hi) && Laid(st2, rank2, Rank(rank2, f))
    requires LoopEdges(st2.g, n, t, f) && st3.cur < |st3.g.blocks|
    requires Rank(rank2, n) < Rank(rank2, t) && StmtLaid(st2, st3, rank2, rank3, Rank(rank2, f))
    ensures EnteredWell(st3.g, rank3, st3.cur, n, x, y)
  {
    if st3.g.Edge(x, y) {
      assert EdgeInside(st3.g, |st3.g.blocks|, x, y) && EdgeInside(st2.g, |st2.g.blocks|, x, y);
      InLoop(st, st2, st3, n, t, f, rank, rank2, rank3, hi, x);
      InLoop(st, st2, st3, n, t, f, rank, rank2, rank3, hi, y);
      assert Sends(st3.g, rank3, x, y);
      assert NewEdge(st2, st3, x, y) && LoopEdge(st2.g, n, t, f, x, y);
    }
  }

  // ----- if with else -----

  lemma SameLaid(st: Build, st1: Build, st2: Build, r: Build, rank: Ranks, rank': Ranks, hi: real)
    requires st1.g == st.g && st1.cur == st.cur && r.g == st2.g && r.cur == st2.cur && StmtLaid(st1, st2, rank, rank', hi)
    ensures StmtLaid(st, r, rank, rank', hi)
  {
    forall b ensures KeepsRank(st, r, rank, rank', hi, b) { assert KeepsRank(st1, st2, rank, rank', hi, b); }
    forall x, y ensures NewEdge(st, r, x, y) { assert NewEdge(st1, st2, x, y); }
  }

  /** The block that stays empty comes after all others. */
  lemma EndArmsLaid(st: Build, x: Block, st3: Build, r: Build, rank: Ranks, rank3: Ranks, hi: real) returns (rank': Ranks)
    requires Sound(st3) && StmtLaid(st, st3, rank, rank3, hi) && r == EndArms(st3, x) && x != st3.cur
    requires |st.g.blocks| <= x < |st3.g.blocks| && |st.g.blocks| <= st3.cur && Rank(rank3, x) < 1.0
    ensures StmtLaid(st, r, rank, rank', hi) && SameRanks(|st3.g.blocks|, rank3, rank') && AllForward(st3, r, rank')
  {
    rank' := rank3;
    forall a, b ensures Ended(st3) ==> ForwardEdge(st3, r, rank', a, b) { }
    if !Ended(st3) {
      var n, y, st4 := |st3.g.blocks|, st3.cur, st3.NewBlock();
      var st5 := st4.At(x);
      var st6 := st5.Br(n).At(y);
      rank' := LastRanked(st, st3, st4, rank, rank3, hi);
      JoinLaid(st4, x, st5, st6, n, y, r, rank');
      JoinedLaid(st, st4, r, x, y, n, rank, rank', hi);
      forall a, b ensures ForwardEdge(st3, r, rank', a, b) { assert EdgeSame(st3.g, st4.g, a, b); }
    }
  }

  lemma LastRanked(st: Build, st3: Build, st4: Build, rank: Ranks, rank3: Ranks, hi: real) returns (rank': Ranks)
    requires Sound(st3) && StmtLaid(st, st3, rank, rank3, hi) && st4 == st3.NewBlock()
    ensures Sound(st4) && StmtLaid(st, st4, rank, rank', hi) && |st4.g.blocks| == |st3.g.blocks| + 1
    ensures Rank(rank', |st3.g.blocks|) >= 1.0 && SameRanks(|st3.g.blocks|, rank3, rank') && SameEdges(st3.g, st4.g)
  {
    var n := |st3.g.blocks|;
    var m, q := n + 1, 1.0 + n as real;
    assert NewBlocks(st3, 0) == st3 && NewBlocks(st3, 1) == st4;
    NewBlocksSound(st3, 1);
    rank' := rank3[n := q];
    forall x, y ensures EdgeSame(st3.g, st4.g, x, y) {
      assert ThereAt(st3, x) && EdgeInside(st3.g, n, x, y);
    }
    forall b ensures RankFree(rank3, n, q, b) { assert Bounded(rank3, n, b); }
    RankBlock(st3.g, st4.g, n, rank3, q);
    var lo := Rank(rank3, st3.cur);
    forall b ensures GapAt(rank', m, lo, hi, b) { assert GapAt(rank3, n, lo, hi, b); }
    forall b ensures KeepsRank(st, st4, rank, rank', hi, b) { assert KeepsRank(st, st3, rank, rank3, hi, b); }
    forall x, y ensures NewEdge(st, st4, x, y) { assert NewEdge(st, st3, x, y) && EdgeSame(st3.g, st4.g, x, y); }
  }

  /** The two edges to it. */
  lemma JoinLaid(st4: Build, x: Block, st5: Build, st6: Build, n: Block, y: Block, r: Build, rank: Ranks)
    requires Sound(st4) && st5 == st4.At(x) && st6 == st5.Br(n).At(y) && r == st6.Br(n)
    requires x < n && y < n && |st4.g.blocks| == n + 1 && Layout(st4.g, n + 1, rank)
    requires Rank(rank, x) < 1.0 && Rank(rank, y) < 1.0 && Rank(rank, n) >= 1.0
    ensures |r.g.blocks| == n + 1 && Layout(r.g, n + 1, rank)
    ensures forall a, b {:trigger r.g.Edge(a, b)} :: r.g.Edge(a, b) <==> st4.g.Edge(a, b) || ((a == x || a == y) && b == n)
  {
    SameSound(st4, st5);
    AddEdgeAdds(st5, n);
    ToLastLaid(st5.g, st6.g, n + 1, rank, x, n);
    BrSound(st5, n, y, st6);
    AddEdgeAdds(st6, n);
    ToLastLaid(st6.g, r.g, n + 1, rank, y, n);
    forall a, b ensures r.g.Edge(a, b) <==> st4.g.Edge(a, b) || ((a == x || a == y) && b == n) {
      assert EdgeAdded(st5.g, st6.g, x, n, a, b) && EdgeAdded(st6.g, r.g, y, n, a, b);
    }
  }

  lemma ToLastLaid(g: Cfg, g': Cfg, n: nat, rank: Ranks, p: Block, b: Block)
    requires Layout(g, n, rank) && OneMoreEdge(g, g', p, b) && p < n && b < n && p != b && Rank(rank, p) < 1.0 <= Rank(rank, b)
    ensures Layout(g', n, rank)
  {
    forall p', h ensures EntersWell(g, rank, p, b, p', h) { assert Sends(g, rank, p', h); }
    forall x, y ensures EnteredWell(g, rank, p, b, x, y) { }
    AddEdgeLaid(g, g', n, rank, p, b);
  }

  lemma JoinedLaid(st: Build, st4: Build, r: Build, x: Block, y: Block, n: Block, rank: Ranks, rank': Ranks, hi: real)
    requires StmtLaid(st, st4, rank, rank', hi) && r.cur == st4.cur && |r.g.blocks| == |st4.g.blocks| && Layout(r.g, |r.g.blocks|, rank')
    requires x >= |st.g.blocks| && y >= |st.g.blocks| && n >= |st.g.blocks|
    requires forall a, b {:trigger r.g.Edge(a, b)} :: r.g.Edge(a, b) <==> st4.g.Edge(a, b) || ((a == x || a == y) && b == n)
    ensures StmtLaid(st, r, rank, rank', hi)
  {
    forall b ensures KeepsRank(st, r, rank, rank', hi, b) { assert KeepsRank(st, st4, rank, rank', hi, b); }
    forall a, b ensures NewEdge(st, r, a, b) { assert NewEdge(st, st4, a, b); }
  }

  // ----- dominance -----

  /** Every way into the blocks between `h` and `p` leads through `h`. */
  lemma {:induction false} BackDominates(g: Cfg, n: nat, rank: Ranks, p: Block, h: Block, w: seq<Block>, b: Block)
    requires Layout(g, n, rank) && g.entry == 0 && g.Edge(p, h) && g.WalkFromTo(w, 0, b) && b < n
    requires Rank(rank, h) <= Rank(rank, b) <= Rank(rank, p)
    ensures h in w
    decreases |w|
  {
    assert EdgeInside(g, n, p, h) && Different(rank, n, h, b) && Bounded(rank, n, h) && Different(rank, n, h, 0);
    if b != h {
      if |w| > 1 {
        var i := |w| - 2;
        var x := w[i];
        assert g.EdgeAt(w, i + 1) && g.Edge(x, b);
        assert LoopClosed(g, rank, p, h, x, b) && EdgeInside(g, n, x, b);
        g.PrefixWalk(w, 0, b, i);
        BackDominates(g, n, rank, p, h, w[..i + 1], x);
      }
    }
  }

  /** The block of a knot that comes first in the order dominates the others. */
  lemma LowestHeads(g: Cfg, n: nat, rank: Ranks, c: set<Block>, h: Block)
    requires Layout(g, n, rank) && g.entry == 0 && IsKnot(g, c) && h in c
    requires forall b {:trigger Rank(rank, b)} :: b in c ==> Rank(rank, h) <= Rank(rank, b)
    ensures Heads(g, h, c)
  {
    var under := set x | x in c && g.Dom(h, x);
    var others := c - under;
    g.SingleWalk(h);
    assert h in under by {
      forall w | g.WalkFromTo(w, g.entry, h) ensures h in w { }
    }
    forall a, b | a in others && a in c && b in c && g.Edge(a, b) ensures b in others {
      if b in under {
        if b == h {
          assert EdgeInside(g, n, a, h);
          forall w | g.WalkFromTo(w, g.entry, a) ensures h in w { BackDominates(g, n, rank, a, h, w, a); }
        } else {
          g.DomOfPred(h, a, b);
        }
      }
    }
    assert ClosedIn(g, c, others);
    assert h !in others;
    forall b | b in c ensures g.Dom(h, b) { assert b in others ==> c <= others; }
  }

  lemma {:induction false} HasLowest(rank: Ranks, c: set<Block>) returns (h: Block)
    requires c != {}
    ensures h in c && forall b {:trigger Rank(rank, b)} :: b in c ==> Rank(rank, h) <= Rank(rank, b)
    decreases |c|
  {
    h :| h in c;
    if c != {h} {
      var h' := HasLowest(rank, c - {h});
      forall b | b in c && b != h ensures Rank(rank, h') <= Rank(rank, b) { assert b in c - {h}; }
      if Rank(rank, h') < Rank(rank, h) { h := h'; }
    }
  }

  lemma LayoutIsReducible(g: Cfg, n: nat, rank: Ranks)
    requires Layout(g, n, rank) && g.entry == 0
    ensures Reducible(g)
  {
    forall c | IsKnot(g, c) ensures exists h {:trigger Heads(g, h, c)} :: Heads(g, h, c) {
      var h := HasLowest(rank, c);
      LowestHeads(g, n, rank, c, h);
    }
  }

  lemma EntryLaid(st: Build, rank: Ranks)
    requires st.g == Empty().g && st.cur == 0 && rank == map[0 := 0.0]
    ensures Laid(st, rank, 1.0)
  {
    forall b ensures Bounded(rank, 1, b) { }
    forall b, c ensures Different(rank, 1, b, c) { }
    forall x, y ensures EdgeInside(st.g, 1, x, y) { }
    forall p, h, x, y ensures LoopClosed(st.g, rank, p, h, x, y) { }
    forall b ensures GapAt(rank, 1, 0.0, 1.0, b) { }
  }
}
