/** Functions in memory form, as the pass finds them, and the state in which
    renaming starts. */
module RenameSetup {
  import opened Graphs
  import opened IdomSweeps
  import opened IR
  import opened SsaForm
  import opened RenameSteps
  import opened RenameStacks
  import opened RenameOrder
  import opened DominatorPass
  import opened PhiPlacement

  /** An operand that is an instruction: its definition comes earlier in the
      block, or its block strictly dominates. */
  ghost predicate UseOk(g: Cfg, code: Code, pos: map<Id, Place>, id: Id, v: Value)
    requires id in pos
  {
    v.Ref? ==>
      && v.id in pos && code.IsValue(v.id)
      && if pos[v.id].bb == pos[id].bb then pos[v.id].k < pos[id].k else g.Dom(pos[v.id].bb, pos[id].bb)
  }

  ghost predicate FormOk(g: Cfg, code: Code, pos: map<Id, Place>, id: Id) {
    id in pos ==>
      && code.ShapeOk(g, pos, id)
      && forall i {:trigger code.ops[id][i]} :: 0 <= i < |code.ops[id]| ==> UseOk(g, code, pos, id, code.ops[id][i])
  }

  /** A function as lowering leaves it: `pos` gives the place of each instruction. */
  ghost predicate IsMemoryForm(g: Cfg, code: Code, pos: map<Id, Place>) {
    && (forall b :: b in code.body <==> b in g.blocks)
    && code.kind.Keys == pos.Keys && code.ops.Keys == pos.Keys
    && (forall b, k: nat {:trigger code.PlaceOk(pos, b, k)} :: code.PlaceOk(pos, b, k))
    && (forall id {:trigger FormOk(g, code, pos, id)} :: FormOk(g, code, pos, id))
  }

  /** What the pass asks of a graph. */
  ghost predicate GraphOk(g: Cfg) {
    g.Wf() && g.AllReachable() && g.preds[g.entry] == []
  }

  lemma FormIsReady(s: Ssa)
    requires IsMemoryForm(s.g, s.code, s.pos) && IsDomTree(s.g, s.t) && GraphOk(s.g)
    ensures s.Ready()
  {
    BlocksInTree(s.g, s.t);
    forall b ensures s.BlockOk(b) {
      assert b in s.t.up ==> s.t.LinkAt(b);
    }
    forall b, k ensures s.PlaceOk(b, k) {
      assert s.code.PlaceOk(s.pos, b, k);
    }
    forall id ensures s.InstrOk(id) {
      assert FormOk(s.g, s.code, s.pos, id);
      if id in s.pos {
        forall i | 0 <= i < |s.code.ops[id]| ensures s.OperandOk(s.pos[id], s.code.ops[id][i]) {
          assert UseOk(s.g, s.code, s.pos, id, s.code.ops[id][i]);
          UsedBefore(s, id, s.code.ops[id][i]);
        }
      }
    }
  }

  lemma UsedBefore(s: Ssa, id: Id, v: Value)
    requires IsMemoryForm(s.g, s.code, s.pos) && IsDomTree(s.g, s.t)
    requires forall b :: b in s.t.up <==> b in s.g.blocks
    requires id in s.pos && UseOk(s.g, s.code, s.pos, id, v)
    ensures s.OperandOk(s.pos[id], v)
  {
    assert FormOk(s.g, s.code, s.pos, id);
    if v.Ref? {
      assert ExactAt(s.g, s.t, s.pos[id].bb, s.pos[v.id].bb);
    }
  }

  lemma FormHasStoresOk(g: Cfg, code: Code, pos: map<Id, Place>)
    requires IsMemoryForm(g, code, pos)
    ensures NoPhisYet(code)
    ensures forall b, k: nat {:trigger StoreOk(code.ops, code.kind, code.body, b, k)} :: StoreOk(code.ops, code.kind, code.body, b, k)
  {
    forall id | id in pos ensures id.Instr? {
      assert FormOk(g, code, pos, id);
    }
    forall b, k: nat ensures StoreOk(code.ops, code.kind, code.body, b, k) {
      assert code.PlaceOk(pos, b, k);
      if b in code.body && k < |code.body[b]| {
        assert FormOk(g, code, pos, code.body[b][k]);
      }
    }
  }

  // ----- phi placement in terms of the graph alone -----

  ghost predicate ClosedInGraph(g: Cfg, code: Code, x: Slot, q: set<Block>) {
    forall b, y {:trigger InGraphFrontier(g, b, y)} ::
      InGraphFrontier(g, b, y) && (Stores(code, b, x) || b in q) ==> y in q
  }

  ghost predicate InGraphFrontier(g: Cfg, b: Block, y: Block) {
    y in g.blocks && y in g.preds && InFrontier(g, b, y)
  }

  /** `p` is the iterated dominance frontier of the blocks that store to `x`. */
  ghost predicate IteratedFrontier(g: Cfg, code: Code, x: Slot, p: set<Block>) {
    && ClosedInGraph(g, code, x, p)
    && forall q {:trigger ClosedInGraph(g, code, x, q)} :: ClosedInGraph(g, code, x, q) ==> p <= q
  }

  lemma ClosedEitherWay(g: Cfg, code: Code, frontier: map<Block, set<Block>>, x: Slot, q: set<Block>)
    requires g.Wf() && FrontiersExact(g, frontier)
    ensures ClosedInGraph(g, code, x, q) <==> ClosedUnder(code, frontier, x, q)
  {
    forall b, y ensures Has(frontier, b, y) <==> InGraphFrontier(g, b, y) {
    }
    if ClosedInGraph(g, code, x, q) {
      forall b, y | Has(frontier, b, y) && (Stores(code, b, x) || b in q) ensures y in q {
        assert InGraphFrontier(g, b, y);
      }
    }
    if ClosedUnder(code, frontier, x, q) {
      forall b, y | InGraphFrontier(g, b, y) && (Stores(code, b, x) || b in q) ensures y in q {
        assert Has(frontier, b, y);
      }
    }
  }

  lemma IteratedEitherWay(g: Cfg, code: Code, frontier: map<Block, set<Block>>, x: Slot, p: set<Block>)
    requires g.Wf() && FrontiersExact(g, frontier) && IsIterated(code, frontier, x, p)
    ensures IteratedFrontier(g, code, x, p)
  {
    ClosedEitherWay(g, code, frontier, x, p);
    forall q | ClosedInGraph(g, code, x, q) ensures p <= q {
      ClosedEitherWay(g, code, frontier, x, q);
    }
  }

  lemma FrontierInside(g: Cfg, code: Code, pos: map<Id, Place>, frontier: map<Block, set<Block>>)
    requires g.Wf() && FrontiersExact(g, frontier) && IsMemoryForm(g, code, pos)
    ensures FrontierWithin(frontier, code.body.Keys)
  {
  }

  /** Each slot has its phis on its iterated frontier. */
  ghost predicate AllPlaced(g: Cfg, code: Code, phis: Phis) {
    forall x {:trigger PhiBlocks(phis, x)} :: IteratedFrontier(g, code, x, PhiBlocks(phis, x))
  }

  lemma AllSlotsPlaced(g: Cfg, code: Code, frontier: map<Block, set<Block>>, phis: Phis, live: set<Slot>)
    requires g.Wf() && FrontiersExact(g, frontier)
    requires SlotsPlaced(code, frontier, phis, live)
    requires forall x :: x in live <==> exists b :: Stores(code, b, x)
    ensures AllPlaced(g, code, phis)
  {
    forall x ensures IteratedFrontier(g, code, x, PhiBlocks(phis, x)) {
      assert SlotPlaced(code, frontier, phis, live, x);
      if x !in live { NeverStored(code, frontier, x); }
      IteratedEitherWay(g, code, frontier, x, PhiBlocks(phis, x));
    }
  }

  /** The entry, having no predecessors, gets no phi. */
  lemma EntryHasNoPhi(g: Cfg, code: Code, x: Slot, p: set<Block>)
    requires GraphOk(g) && IteratedFrontier(g, code, x, p)
    ensures g.entry !in p
  {
    var q := set y | y in g.blocks && y in g.preds && g.preds[y] != [];
    assert ClosedInGraph(g, code, x, q);
  }

  /** With phis on the iterated frontiers, the function is fit for renaming. */
  lemma PlacementFits(s: Ssa)
    requires IsMemoryForm(s.g, s.code, s.pos) && IsDomTree(s.g, s.t) && GraphOk(s.g)
    requires AllPlaced(s.g, s.code, s.phis)
    requires forall b {:trigger PhiListOk(s, b)} :: PhiListOk(s, b)
    ensures Renamable(s)
  {
    FormIsReady(s);
    FormHasStoresOk(s.g, s.code, s.pos);
    forall x ensures !s.HasPhi(s.g.entry, x) {
      assert IteratedFrontier(s.g, s.code, x, PhiBlocks(s.phis, x));
      EntryHasNoPhi(s.g, s.code, x, PhiBlocks(s.phis, x));
    }
    forall b, x, y ensures ClosedAt(s, b, x, y) {
      assert IteratedFrontier(s.g, s.code, x, PhiBlocks(s.phis, x));
      if y in s.g.preds && InFrontier(s.g, b, y) && (s.HasPhi(b, x) || Stores(s.code, b, x)) {
        assert InGraphFrontier(s.g, b, y);
        assert s.HasPhi(b, x) <==> b in PhiBlocks(s.phis, x);
        assert y in PhiBlocks(s.phis, x);
      }
    }
  }

  // ----- the start of renaming -----

  ghost predicate LoadUsesExact(code: Code, uses: UseLists, l: Id) {
    code.SlotLoad(l) ==> ExactUses(code.ops, uses, Ref(l))
  }

  ghost predicate LoadUsesAllExact(code: Code, uses: UseLists) {
    forall l {:trigger LoadUsesExact(code, uses, l)} :: LoadUsesExact(code, uses, l)
  }

  lemma PlacedListsOk(s: Ssa, h: Heap)
    requires Placed(s.code, h, s.phis)
    ensures forall b {:trigger PhiListOk(s, b)} :: PhiListOk(s, b)
  {
    forall b ensures PhiListOk(s, b) {
      assert PlacedBody(s.code, h.body, s.phis, b);
    }
  }

  /** The dominator-tree successors of `b` are its children in the tree. */
  lemma KidsFound(s: Ssa, kids: Listing, succ: map<Block, set<Block>>, b: Block, cs: seq<Block>, done: seq<Block>)
    requires Renamable(s) && TreeSuccsExact(s.g, succ) && b in s.g.blocks
    requires Distinct(cs) && forall c :: c in cs <==> Has(succ, b, c)
    requires forall d {:trigger KidsAt(s, kids, d)} :: d in done ==> KidsAt(s, kids, d)
    ensures forall d {:trigger KidsAt(s, kids[b := cs], d)} :: d in done + [b] ==> KidsAt(s, kids[b := cs], d)
  {
    var kids1 := kids[b := cs];
    BlocksInTree(s.g, s.t);
    forall c ensures c in cs <==> c in s.code.body && c != s.t.root && c in s.t.up && s.t.up[c] == b {
      if c in s.g.blocks { ParentIffImmediateDom(s.g, s.t, b, c); }
    }
    forall d | d in done + [b] ensures KidsAt(s, kids1, d) {
      if d != b { assert KidsAt(s, kids, d); }
    }
  }

  lemma StartOps(s: Ssa, h: Heap, id: Id)
    requires s.Ready() && PlacedId(s.code, h, s.phis, id) && NoPhisYet(s.code)
    ensures OpsAt(s, h.ops, Stage([], s.g.entry, 0), id)
  {
    assert s.InstrOk(id);
  }

  lemma StartUses(s: Ssa, h: Heap, l: Id)
    requires s.Ready() && NoPhisYet(s.code)
    requires forall id {:trigger PlacedId(s.code, h, s.phis, id)} :: PlacedId(s.code, h, s.phis, id)
    requires LoadUsesExact(s.code, h.uses, l)
    ensures UsesAt(s, h, Stage([], s.g.entry, 0), l)
  {
    if s.Replaced(l) {
      forall u: Use ensures HasOperand(h.ops, u, Ref(l)) <==> HasOperand(s.code.ops, u, Ref(l)) {
        assert PlacedId(s.code, h, s.phis, u.user);
      }
    }
  }

  lemma StartList(s: Ssa, h: Heap, v: Value)
    requires s.Ready() && NoPhisYet(s.code) && h.uses == s.uses
    requires forall id {:trigger PlacedId(s.code, h, s.phis, id)} :: PlacedId(s.code, h, s.phis, id)
    requires v.Ref? ==> LoadUsesExact(s.code, s.uses, v.id)
    ensures ListAt(s, h, Stage([], s.g.entry, 0), {}, [], v)
  {
    if Tracked(s, Stage([], s.g.entry, 0), v) {
      var none: set<Block> := {};
      forall u: Use ensures u in UsesOf(h.uses, v) <==> HasOperand(h.ops, u, v) && !Gone(s, none, [], u.user) {
        assert PlacedId(s.code, h, s.phis, u.user);
        assert u in UsesOf(s.uses, v) <==> HasOperand(s.code.ops, u, v);
      }
    }
  }

  lemma RenamingStarts(s: Ssa, h: Heap)
    requires Renamable(s) && IsMemoryForm(s.g, s.code, s.pos) && Placed(s.code, h, s.phis)
    requires h.uses == s.uses && LoadUsesAllExact(s.code, s.uses)
    ensures s.g.entry in s.code.body && VisitReady(s, h, map[], [], {}, s.g.entry)
  {
    FormHasStoresOk(s.g, s.code, s.pos);
    var g := Stage([], s.g.entry, 0);
    forall id ensures OpsAt(s, h.ops, g, id) && Known(s, h, id) {
      assert PlacedId(s.code, h, s.phis, id);
      StartOps(s, h, id);
    }
    forall l ensures UsesAt(s, h, g, l) {
      assert LoadUsesExact(s.code, h.uses, l);
      StartUses(s, h, l);
    }
    forall c, x ensures PhiAt(s, h.ops, g.filled, IDLE, c, x) {
      assert PlacedId(s.code, h, s.phis, PhiOf(c, x));
    }
    var cleaned: set<Block> := {};
    forall c ensures BodyAt(s, h.body, cleaned, c) {
      assert PlacedBody(s.code, h.body, s.phis, c);
    }
    forall v ensures ListAt(s, h, g, cleaned, [], v) {
      if v.Ref? { assert LoadUsesExact(s.code, s.uses, v.id); }
      StartList(s, h, v);
    }
    var vs: Stacks := map[];
    var filled: seq<Block> := [];
    forall x ensures StackOnEntry(s, vs, filled, s.g.entry, x) {
    }
    assert s.BlockOk(s.g.entry);
    forall d | s.t.Above(s.g.entry, d) ensures d == s.g.entry {
    }
  }
}
