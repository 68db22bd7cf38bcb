/** Renaming does meet empty stacks. Variables declared inside the two arms of an
    `if` are enough, whichever arm is visited first; and without `else`, one
    variable inside a nested `if`, if the outer join is visited first. */
module RenameExample {
  import opened Graphs
  import opened IdomSweeps
  import opened SsaForm
  import opened RenameStacks
  import opened RenameOrder
  import opened RenameResult
  import opened PhiPlacement
  import opened RenameSetup
  import opened RenameSafety
  import opened IR

  /** Two blocks that each read a slot which only the other has defined. */
  lemma CrossedReadsFail(s: Ssa, kids: Listing, p: Block, q: Block, x: Slot, y: Slot)
    requires Fit(s) && KidsOk(s, kids) && p != q && p in s.code.body && q in s.code.body
    requires Exposed(s, p, y) && Defines(s, q, y)
    requires Exposed(s, q, x) && Defines(s, p, x)
    ensures s.g.entry in s.code.body && !SafeRun(s, [], Preorder(s, kids, s.g.entry))
  {
    var order := Preorder(s, kids, s.g.entry);
    EachBlockOnce(s, kids);
    assert p in order && q in order;
    var i :| 0 <= i < |order| && order[i] == p;
    var j :| 0 <= j < |order| && order[j] == q;
    if i < j {
      assert Precedes(order, p, q);
      PrecedesDefines(s, order, p, q, x);
    } else {
      assert Precedes(order, q, p);
      PrecedesDefines(s, order, q, p, y);
    }
  }

  ghost predicate OnlyEdges(g: Cfg, edges: set<(Block, Block)>) {
    forall a: Block, b: Block {:trigger g.Edge(a, b)} :: g.Edge(a, b) <==> (a, b) in edges
  }

  lemma EdgeBlocks(g: Cfg, p: Block, b: Block)
    requires g.Wf() && g.Edge(p, b)
    ensures p in g.blocks && b in g.blocks && b in g.preds && p in g.preds[b]
  {
    assert b in g.succs[p];
    g.EdgesMirror(p, b);
  }

  /** A block that only the entry leads to is in no frontier, and gets no phi. */
  lemma NoPhiAfterEntry(s: Ssa, y: Block, x: Slot)
    requires Fit(s) && AllPlaced(s.g, s.code, s.phis) && y in s.g.blocks && y != s.g.entry
    requires forall p {:trigger s.g.Edge(p, y)} :: s.g.Edge(p, y) ==> p == s.g.entry
    ensures !s.HasPhi(y, x)
  {
    var e, all := s.g.entry, PhiBlocks(s.phis, x);
    assert IteratedFrontier(s.g, s.code, x, all);
    var q := all - {y};
    forall b ensures !InFrontier(s.g, b, y) {
      if p :| p in s.g.preds[y] && s.g.Dom(b, p) {
        s.g.EdgesMirror(p, y);
        assert p == e && s.g.WalkFromTo([e], e, e) && b in [e];
        assert s.g.StrictlyDom(e, y) by {
          forall w | s.g.WalkFromTo(w, e, y) ensures e in w { }
        }
      }
    }
    forall b, z | InGraphFrontier(s.g, b, z) && (Stores(s.code, b, x) || b in q) ensures z in q {
      assert z in all;
    }
    assert ClosedInGraph(s.g, s.code, x, q) && all <= q;
    assert y !in q;
  }

  /** Straight behind the entry, a slot that neither defines is undefined. */
  lemma UndefinedAt(s: Ssa, b: Block, x: Slot)
    requires Fit(s) && s.g.Edge(s.g.entry, b) && !Defines(s, b, x) && !Stores(s.code, s.g.entry, x)
    ensures b in s.code.body && AtEnd(s, b, x) == []
  {
    var e := s.g.entry;
    EdgeBlocks(s.g, e, b);
    EmptyIffUndefined(s, b, |s.code.body[b]|, x);
    forall d | s.t.Above(b, d) && d != b ensures !Defines(s, d, x) {
      assert ExactAt(s.g, s.t, b, d) && s.g.Dom(d, b);
      s.g.SingleWalk(e);
      s.g.ExtendWalk([e], e, e, b);
      assert d in [e] + [b];
    }
  }

  /** A definition gives a block of its frontier a phi. */
  lemma PhiBehind(s: Ssa, d: Block, p: Block, y: Block, x: Slot, w: seq<Block>)
    requires Fit(s) && Defines(s, d, x) && s.g.Edge(p, y) && s.g.Dom(d, p)
    requires s.g.WalkFromTo(w, s.g.entry, y) && d !in w
    ensures s.HasPhi(y, x)
  {
    EdgeBlocks(s.g, p, y);
    assert InFrontier(s.g, d, y);
    assert ClosedAt(s, d, x, y);
  }

  lemma DomSelf(g: Cfg, d: Block)
    ensures g.Dom(d, d)
  {
  }

  /** Each arm stores to a slot of its own. */
  lemma ArmsPattern(s: Ssa, kids: Listing, x: Slot, y: Slot)
    requires Fit(s) && AllPlaced(s.g, s.code, s.phis) && KidsOk(s, kids) && s.g.entry == 0
    requires OnlyEdges(s.g, {(0, 1), (0, 2), (1, 3), (2, 3)})
    requires Stores(s.code, 1, x) && Stores(s.code, 2, y)
    requires !Stores(s.code, 0, x) && !Stores(s.code, 0, y) && !Stores(s.code, 1, y) && !Stores(s.code, 2, x)
    ensures 0 in s.code.body && !SafeRun(s, [], Preorder(s, kids, 0))
  {
    var g := s.g;
    assert g.Edge(0, 1) && g.Edge(0, 2) && g.Edge(1, 3) && g.Edge(2, 3);
    EdgeBlocks(g, 1, 3);
    EdgeBlocks(g, 2, 3);
    ArmWalk(g, 1);
    ArmWalk(g, 2);
    DomSelf(g, 1);
    DomSelf(g, 2);
    PhiBehind(s, 1, 1, 3, x, [0, 2, 3]);
    PhiBehind(s, 2, 2, 3, y, [0, 1, 3]);
    NoPhiAfterEntry(s, 1, y);
    NoPhiAfterEntry(s, 2, x);
    UndefinedAt(s, 1, y);
    UndefinedAt(s, 2, x);
    assert Exposed(s, 1, y) && Exposed(s, 2, x);
    CrossedReadsFail(s, kids, 1, 2, x, y);
  }

  lemma ArmWalk(g: Cfg, p: Block)
    requires g.entry == 0 && g.Edge(0, p) && g.Edge(p, 3)
    ensures g.WalkFromTo([0, p, 3], 0, 3)
  {
    g.SingleWalk(0);
    g.ExtendWalk([0], 0, 0, p);
    g.ExtendWalk([0] + [p], 0, p, 3);
    assert [0] + [p] + [3] == [0, p, 3];
  }

  /** One slot, stored to in the inner arm: its definition comes to the outer
      join, which the block of the inner test does not dominate. */
  lemma NestedPattern(s: Ssa, x: Slot)
    requires Fit(s) && AllPlaced(s.g, s.code, s.phis) && s.g.entry == 0
    requires OnlyEdges(s.g, {(0, 1), (0, 2), (1, 3), (1, 4), (3, 4), (4, 2)})
    requires Stores(s.code, 3, x) && !Stores(s.code, 0, x) && !Stores(s.code, 1, x)
    ensures !OrderSafe(s)
  {
    var g := s.g;
    assert g.Edge(0, 1) && g.Edge(0, 2) && g.Edge(1, 4) && g.Edge(3, 4) && g.Edge(4, 2);
    EdgeBlocks(g, 1, 4);
    NestedWalks(g);
    DomSelf(g, 3);
    DomSelf(g, 4);
    PhiBehind(s, 3, 3, 4, x, [0, 1, 4]);
    PhiBehind(s, 4, 4, 2, x, [0, 2]);
    NoPhiAfterEntry(s, 1, x);
    UndefinedAt(s, 1, x);
    assert Exposed(s, 1, x) && Defines(s, 2, x);
    assert !g.Dom(1, 2) by { assert 1 !in [0, 2]; }
  }

  lemma NestedWalks(g: Cfg)
    requires g.entry == 0 && g.Edge(0, 1) && g.Edge(0, 2) && g.Edge(1, 4)
    ensures g.WalkFromTo([0, 1, 4], 0, 4) && g.WalkFromTo([0, 2], 0, 2)
  {
    g.SingleWalk(0);
    g.ExtendWalk([0], 0, 0, 1);
    g.ExtendWalk([0] + [1], 0, 1, 4);
    g.ExtendWalk([0], 0, 0, 2);
    assert [0] + [1] + [4] == [0, 1, 4] && [0] + [2] == [0, 2];
  }

  /** One slot, stored to in the only arm: the edge past the arm comes to its phi
      from where there is no definition. */
  lemma ShortPattern(s: Ssa, x: Slot)
    requires Fit(s) && AllPlaced(s.g, s.code, s.phis) && s.g.entry == 0
    requires OnlyEdges(s.g, {(0, 1), (0, 2), (1, 2)}) && Stores(s.code, 1, x) && !Stores(s.code, 0, x)
    ensures 2 in s.g.blocks && 0 in s.code.body && s.HasPhi(2, x) && s.g.Edge(0, 2) && AtEnd(s, 0, x) == []
  {
    var g := s.g;
    assert g.Edge(0, 1) && g.Edge(0, 2) && g.Edge(1, 2);
    EdgeBlocks(g, 0, 2);
    g.SingleWalk(0);
    g.ExtendWalk([0], 0, 0, 2);
    assert [0] + [2] == [0, 2];
    DomSelf(g, 1);
    PhiBehind(s, 1, 1, 2, x, [0, 2]);
    EmptyIffUndefined(s, 0, |s.code.body[0]|, x);
    assert s.t.root == 0 && forall d :: s.t.Above(0, d) ==> d == 0;
  }
}
