/** The rounds of loop search: what is left of the graph while bases are taken
    out of it, and what holds of the loops reported so far. */
module LoopRounds {
  import opened Graphs
  import opened LoopGraphs
  import opened Knots

  /** A reported loop. */
  datatype Loop = Loop(blocks: set<Block>, base: Block)

  /** What the pass asks of a graph. */
  ghost predicate Searchable(g: Cfg) {
    g.Wf() && g.AllReachable() && g.preds[g.entry] == []
  }

  // ----- what is left of the graph -----

  ghost predicate LiveLink(g: Cfg, nodes: set<Block>, succs: Links, a: Block, b: Block) {
    (a in nodes ==> (Linked(succs, a, b) <==> b in nodes && g.Edge(a, b))) &&
    (a in succs && a !in nodes ==> (b in nodes && g.Edge(a, b) ==> Linked(succs, a, b)) && (Linked(succs, a, b) ==> g.Edge(a, b)))
  }

  ghost predicate LivePrev(g: Cfg, nodes: set<Block>, prevs: Links, a: Block, b: Block) {
    b in nodes ==> (Linked(prevs, b, a) <==> a in nodes && g.Edge(a, b))
  }

  /** Between nodes that are left, all edges are left, in both directions; the
      nodes taken out keep the links that they had then. */
  ghost predicate Live(g: Cfg, nodes: set<Block>, succs: Links, prevs: Links) {
    && (forall b :: b in succs <==> b in g.blocks) && (forall b :: b in prevs <==> b in g.blocks)
    && (forall b :: b in nodes ==> b in g.blocks)
    && (forall a, b {:trigger LiveLink(g, nodes, succs, a, b)} :: LiveLink(g, nodes, succs, a, b))
    && (forall a, b {:trigger LivePrev(g, nodes, prevs, a, b)} :: LivePrev(g, nodes, prevs, a, b))
  }

  /** `m'` is `m` without `b` in the sets of the nodes in `at`. */
  ghost predicate ErasedAt(m: Links, m': Links, at: set<Block>, b: Block, a: Block) {
    (a in m' <==> a in m) && (a in m ==> m'[a] == if a in at then m[a] - {b} else m[a])
  }

  ghost predicate Erased(m: Links, m': Links, at: set<Block>, b: Block) {
    forall a {:trigger ErasedAt(m, m', at, b, a)} :: ErasedAt(m, m', at, b, a)
  }

  function ToSet(bs: seq<Block>): (r: set<Block>)
    ensures forall b :: b in r <==> b in bs
  {
    set b | b in bs
  }

  /** The node of `b`, once it has been made, has the block's neighbours. */
  ghost predicate BuiltAt(g: Cfg, made: seq<Block>, succs: Links, prevs: Links, b: Block)
    requires g.Wf()
  {
    && (b in succs <==> b in made) && (b in prevs <==> b in made)
    && (b in made && b in g.blocks ==> succs[b] == ToSet(g.succs[b]) && prevs[b] == ToSet(g.preds[b]))
  }

  ghost predicate Built(g: Cfg, made: seq<Block>, succs: Links, prevs: Links)
    requires g.Wf()
  {
    forall b {:trigger BuiltAt(g, made, succs, prevs, b)} :: BuiltAt(g, made, succs, prevs, b)
  }

  lemma BuildOne(g: Cfg, made: seq<Block>, succs: Links, prevs: Links, b: Block)
    requires g.Wf() && Built(g, made, succs, prevs) && b in g.blocks
    ensures Built(g, made + [b], succs[b := ToSet(g.succs[b])], prevs[b := ToSet(g.preds[b])])
  {
    var made1, succs1, prevs1 := made + [b], succs[b := ToSet(g.succs[b])], prevs[b := ToSet(g.preds[b])];
    forall c ensures BuiltAt(g, made1, succs1, prevs1, c) {
      assert BuiltAt(g, made, succs, prevs, c);
    }
  }

  lemma BuiltIsLive(g: Cfg, succs: Links, prevs: Links)
    requires g.Wf() && Built(g, g.blocks, succs, prevs)
    ensures Live(g, ToSet(g.blocks), succs, prevs)
  {
    var nodes := ToSet(g.blocks);
    forall b ensures (b in succs <==> b in g.blocks) && (b in prevs <==> b in g.blocks) {
      assert BuiltAt(g, g.blocks, succs, prevs, b);
    }
    forall a, b ensures LiveLink(g, nodes, succs, a, b) && LivePrev(g, nodes, prevs, a, b) {
      assert BuiltAt(g, g.blocks, succs, prevs, a) && BuiltAt(g, g.blocks, succs, prevs, b);
      if b in nodes { g.EdgesMirror(a, b); }
    }
  }

  lemma EraseOne(m: Links, m1: Links, done: set<Block>, b: Block, a: Block)
    requires Erased(m, m1, done, b) && a in m
    ensures a in m1 && Erased(m, m1[a := m1[a] - {b}], done + {a}, b)
  {
    assert ErasedAt(m, m1, done, b, a);
    var m2, done2 := m1[a := m1[a] - {b}], done + {a};
    forall c ensures ErasedAt(m, m2, done2, b, c) {
      assert ErasedAt(m, m1, done, b, c);
    }
  }

  /** Taking out a base and its links keeps the rest as it is. */
  lemma TakeOut(g: Cfg, nodes: set<Block>, succs: Links, prevs: Links, base: Block, prevs': Links, succs': Links)
    requires Live(g, nodes, succs, prevs) && base in nodes && base in succs && base in prevs'
    requires Erased(prevs, prevs', succs[base], base)
    requires Erased(succs, succs', prevs'[base], base)
    ensures Live(g, nodes - {base}, succs', prevs') && Within(succs', succs)
  {
    var nodes1 := nodes - {base};
    forall b ensures (b in succs' <==> b in g.blocks) && (b in prevs' <==> b in g.blocks) {
      assert ErasedAt(prevs, prevs', succs[base], base, b) && ErasedAt(succs, succs', prevs'[base], base, b);
    }
    forall a, b ensures LivePrev(g, nodes1, prevs', a, b) {
      assert ErasedAt(prevs, prevs', succs[base], base, b) && LivePrev(g, nodes, prevs, a, b);
      assert LiveLink(g, nodes, succs, base, b);
    }
    forall a, b ensures LiveLink(g, nodes1, succs', a, b) {
      assert ErasedAt(succs, succs', prevs'[base], base, a) && LiveLink(g, nodes, succs, a, b);
      assert ErasedAt(prevs, prevs', succs[base], base, base) && LivePrev(g, nodes, prevs, a, base);
      assert LiveLink(g, nodes, succs, a, base);
    }
    forall a, b | Linked(succs', a, b) ensures Linked(succs, a, b) {
      assert ErasedAt(succs, succs', prevs'[base], base, a);
    }
  }

  // ----- where a base comes from -----

  /** Some edge of the graph enters a set of blocks that does not hold the entry. */
  lemma SomethingEnters(g: Cfg, k: set<Block>, n: Block) returns (p: Block, b: Block)
    requires g.Wf() && g.AllReachable() && g.entry !in k && n in k && n in g.blocks
    ensures p in g.blocks && p !in k && b in k && g.Edge(p, b)
  {
    var outside := set x | x in g.blocks && x !in k;
    if forall p, q :: p in outside && g.Edge(p, q) ==> q in outside {
      assert g.Reachable(n);
      var w :| g.WalkFromTo(w, g.entry, n);
      g.WalkStaysInside(w, g.entry, n, outside);
    }
    p, b :| p in outside && g.Edge(p, b) && b !in outside;
  }

  lemma Another(k: set<Block>, a: Block) returns (b: Block)
    requires |k| >= 2 && a in k
    ensures b in k && b != a
  {
    assert |k - {a}| == |k| - 1;
    b :| b in k - {a};
  }

  /** The entry, having no predecessors, is in no component of two nodes. */
  lemma EntryInNoScc(g: Cfg, nodes: set<Block>, succs: Links, prevs: Links, k: set<Block>)
    requires g.Wf() && g.preds[g.entry] == [] && Live(g, nodes, succs, prevs)
    requires IsScc(succs, k) && |k| >= 2 && k <= nodes
    ensures g.entry !in k
  {
    if g.entry in k {
      var c := Another(k, g.entry);
      var q := nodes - {g.entry};
      forall a, b | a in q && Linked(succs, a, b) ensures b in q {
        assert LiveLink(g, nodes, succs, a, b);
        g.EdgesMirror(a, g.entry);
      }
      assert Closed(succs, q) && Mutual(succs, g.entry, c);
    }
  }

  /** The two places where `find_loop_base` looks. */
  predicate EntersLive(prevs: Links, k: set<Block>, p: Block, b: Block) {
    b in k && Linked(prevs, b, p) && p !in k
  }

  predicate EntersFromReserved(succs: Links, reserved: set<Block>, k: set<Block>, p: Block, b: Block) {
    p in reserved && Linked(succs, p, b) && b in k
  }

  ghost predicate IsBase(succs: Links, prevs: Links, reserved: set<Block>, k: set<Block>, b: Block) {
    (exists p :: EntersLive(prevs, k, p, b)) || (exists p :: EntersFromReserved(succs, reserved, k, p, b))
  }

  /** There is a base, and an edge of the graph enters the loop at it. */
  lemma BaseExists(g: Cfg, nodes: set<Block>, succs: Links, prevs: Links, reserved: set<Block>, k: set<Block>)
    requires g.Wf() && g.AllReachable() && Live(g, nodes, succs, prevs)
    requires k <= nodes && k != {} && g.entry !in k
    requires forall b :: b in reserved <==> b in g.blocks && b !in nodes
    ensures exists b :: IsBase(succs, prevs, reserved, k, b)
  {
    var n :| n in k;
    var p, b := SomethingEnters(g, k, n);
    assert LiveLink(g, nodes, succs, p, b) && LivePrev(g, nodes, prevs, p, b);
    if p in nodes {
      assert EntersLive(prevs, k, p, b);
    } else {
      assert EntersFromReserved(succs, reserved, k, p, b);
    }
    assert IsBase(succs, prevs, reserved, k, b);
  }

  ghost predicate Entered(g: Cfg, l: Loop) {
    exists p :: p in g.blocks && p !in l.blocks && g.Edge(p, l.base)
  }

  lemma BaseIsEntered(g: Cfg, nodes: set<Block>, succs: Links, prevs: Links, reserved: set<Block>, k: set<Block>, b: Block)
    requires Live(g, nodes, succs, prevs) && k <= nodes && IsBase(succs, prevs, reserved, k, b)
    requires forall b :: b in reserved <==> b in g.blocks && b !in nodes
    ensures b in k && Entered(g, Loop(k, b))
  {
    if p :| EntersLive(prevs, k, p, b) {
      assert LivePrev(g, nodes, prevs, p, b);
      assert p in g.blocks && p !in k && g.Edge(p, b);
    } else {
      var p :| EntersFromReserved(succs, reserved, k, p, b);
      assert LiveLink(g, nodes, succs, p, b);
      assert p in g.blocks && p !in k && g.Edge(p, b);
    }
  }

  // ----- what is reported -----

  /** A reported loop holds the whole of `c` and has its base in it. */
  ghost predicate Covers(l: Loop, c: set<Block>) {
    l.base in c && c <= l.blocks
  }

  ghost predicate Covered(loops: seq<Loop>, c: set<Block>) {
    exists i {:trigger Covers(loops[i], c)} :: 0 <= i < |loops| && Covers(loops[i], c)
  }

  /** Nodes that are left and that lead to each other stay on one side of the loop. */
  ghost predicate SealedAt(nodes: set<Block>, succs: Links, l: Loop, a: Block, b: Block) {
    a in nodes && a in l.blocks && Mutual(succs, a, b) ==> b in l.blocks
  }

  ghost predicate Sealed(nodes: set<Block>, succs: Links, l: Loop) {
    forall a, b {:trigger SealedAt(nodes, succs, l, a, b)} :: SealedAt(nodes, succs, l, a, b)
  }

  /** Disjoint, or strictly inside and without the base of the outer one. */
  ghost predicate Nested(outer: Loop, inner: Loop) {
    outer.blocks !! inner.blocks || (inner.blocks < outer.blocks && outer.base !in inner.blocks)
  }

  ghost predicate NestedAt(loops: seq<Loop>, i: int, j: int) {
    0 <= i < j < |loops| ==> Nested(loops[i], loops[j]) && loops[i].base != loops[j].base
  }

  /** The base dominates the loop, and the loop is all that leads back to it
      from below it. */
  ghost predicate IsNatural(g: Cfg, l: Loop) {
    Heads(g, l.base, l.blocks) && l.blocks == NaturalLoop(g, l.base)
  }

  /** A loop is strongly connected and entered at its base; in a reducible graph
      it is the natural loop of its base. */
  ghost predicate LoopAt(g: Cfg, l: Loop) {
    && l.base in l.blocks && IsKnot(g, l.blocks) && Entered(g, l)
    && (Reducible(g) ==> IsNatural(g, l))
  }

  /** What holds of the loops reported so far. */
  ghost predicate Reported(g: Cfg, nodes: set<Block>, loops: seq<Loop>) {
    && (forall i {:trigger LoopAt(g, loops[i])} :: 0 <= i < |loops| ==> LoopAt(g, loops[i]) && loops[i].base !in nodes)
    && (forall i, j {:trigger NestedAt(loops, i, j)} :: NestedAt(loops, i, j))
  }

  ghost predicate AllSealed(nodes: set<Block>, succs: Links, loops: seq<Loop>) {
    forall i {:trigger Sealed(nodes, succs, loops[i])} :: 0 <= i < |loops| ==> Sealed(nodes, succs, loops[i])
  }

  /** A knot is covered, or none of it has been taken out. */
  ghost predicate KnotAt(g: Cfg, nodes: set<Block>, loops: seq<Loop>, c: set<Block>) {
    IsKnot(g, c) ==> Covered(loops, c) || c <= nodes
  }

  ghost predicate KnotsHeld(g: Cfg, nodes: set<Block>, loops: seq<Loop>) {
    forall c {:trigger KnotAt(g, nodes, loops, c)} :: KnotAt(g, nodes, loops, c)
  }

  lemma LiveInduced(g: Cfg, nodes: set<Block>, succs: Links, prevs: Links)
    requires Live(g, nodes, succs, prevs)
    ensures Induced(g, nodes, succs)
  {
    forall a, b ensures InducedAt(g, nodes, succs, a, b) {
      assert LiveLink(g, nodes, succs, a, b);
    }
  }

  /** The component of a node. */
  ghost function SccOf(nodes: set<Block>, succs: Links, a: Block): set<Block> {
    set b | b in nodes && Mutual(succs, a, b)
  }

  lemma SccOfIsScc(nodes: set<Block>, succs: Links, a: Block)
    requires a in nodes && LinksInside(succs, nodes)
    ensures IsScc(succs, SccOf(nodes, succs, a)) && a in SccOf(nodes, succs, a)
  {
    var k := SccOf(nodes, succs, a);
    assert Closed(succs, nodes) && Mutual(succs, a, a) && a in k;
    forall b, c ensures b in k ==> (c in k <==> Mutual(succs, b, c)) {
      if b in k && (Mutual(succs, b, c) || Mutual(succs, a, c)) {
        assert c in nodes;
      }
    }
  }

  // ----- one round -----

  /** What is left of the graph, at the start of a round and now. */
  datatype Rest = Rest(nodes: set<Block>, succs: Links, prevs: Links)

  ghost predicate IsLive(g: Cfg, r: Rest) {
    Live(g, r.nodes, r.succs, r.prevs)
  }

  lemma LiveInside(g: Cfg, r: Rest)
    requires IsLive(g, r)
    ensures Linkable(r.succs, r.nodes)
  {
    forall a, b | Linked(r.succs, a, b) && a in r.nodes ensures b in r.nodes {
      assert LiveLink(g, r.nodes, r.succs, a, b);
    }
  }

  /** A component of the round that is still to be reported. */
  ghost predicate Waiting(r0: Rest, r: Rest, k: set<Block>) {
    IsScc(r0.succs, k) && |k| >= 2 && k <= r.nodes
  }

  /** The round that began with `r0` has come to `r`, with `todo` to go. */
  ghost predicate Round(g: Cfg, r0: Rest, r: Rest, loops: seq<Loop>, todo: set<set<Block>>) {
    && IsLive(g, r0) && IsLive(g, r) && r.nodes <= r0.nodes && Within(r.succs, r0.succs)
    && Reported(g, r.nodes, loops) && AllSealed(r0.nodes, r0.succs, loops) && KnotsHeld(g, r.nodes, loops)
    && (forall k {:trigger Waiting(r0, r, k)} :: k in todo ==> Waiting(r0, r, k))
  }

  /** A new loop lies inside or outside each of the loops before it. */
  lemma NewIsNested(r0: Rest, r: Rest, l: Loop, k: set<Block>, base: Block)
    requires Sealed(r0.nodes, r0.succs, l) && Waiting(r0, r, k) && r.nodes <= r0.nodes
    requires l.base in l.blocks && l.base !in r.nodes && base in k
    ensures Nested(l, Loop(k, base)) && l.base != base
  {
    if !(l.blocks !! k) {
      var a :| a in l.blocks && a in k;
      forall b | b in k ensures b in l.blocks {
        assert SealedAt(r0.nodes, r0.succs, l, a, b) && Mutual(r0.succs, a, b);
      }
    }
  }

  /** A knot none of which has been taken out lies inside the component that it
      meets. */
  lemma KnotInside(g: Cfg, r0: Rest, r: Rest, k: set<Block>, c: set<Block>, a: Block)
    requires IsLive(g, r0) && Waiting(r0, r, k) && r.nodes <= r0.nodes && IsKnot(g, c) && c <= r.nodes && a in c && a in k
    ensures c <= k
  {
    LiveInduced(g, r0.nodes, r0.succs, r0.prevs);
    forall x | x in c ensures x in k {
      KnotMutual(g, r0.nodes, r0.succs, c, a, x);
      KnotMutual(g, r0.nodes, r0.succs, c, x, a);
      assert Mutual(r0.succs, a, x);
    }
  }

  /** In a reducible graph, a natural loop around a block that is left has lost
      nothing, unless its head has been taken out. */
  lemma NaturalLeft(g: Cfg, nodes: set<Block>, loops: seq<Loop>, h: Block)
    requires Searchable(g) && Reducible(g) && Reported(g, nodes, loops) && KnotsHeld(g, nodes, loops)
    requires h in nodes && h in g.blocks && |NaturalLoop(g, h)| >= 2
    ensures NaturalLoop(g, h) <= nodes
  {
    var t := NaturalLoop(g, h);
    NaturalIsKnot(g, h);
    assert KnotAt(g, nodes, loops, t);
    if i :| 0 <= i < |loops| && Covers(loops[i], t) {
      assert LoopAt(g, loops[i]);
      assert g.Dom(loops[i].base, h) && g.Dom(h, loops[i].base);
      assert g.Reachable(h);
      var w :| g.WalkFromTo(w, g.entry, h);
      DomAntisymmetric(g, w, loops[i].base, h);
    }
  }

  /** In a reducible graph the component is the natural loop of its base. */
  lemma NewIsNatural(g: Cfg, r0: Rest, r: Rest, loops: seq<Loop>, k: set<Block>, base: Block)
    requires Searchable(g) && Reducible(g) && IsLive(g, r0) && IsLive(g, r) && Waiting(r0, r, k) && r.nodes <= r0.nodes
    requires Reported(g, r.nodes, loops) && KnotsHeld(g, r.nodes, loops)
    requires base in k && Entered(g, Loop(k, base)) && IsKnot(g, k)
    ensures IsNatural(g, Loop(k, base))
  {
    var h :| Heads(g, h, k);
    KnotInNatural(g, h, k);
    var t := NaturalLoop(g, h);
    if |t| < 2 {
      assert k <= t;
      Cardinality(k, t);
    }
    NaturalIsKnot(g, h);
    NaturalLeft(g, r.nodes, loops, h);
    KnotInside(g, r0, r, k, t, h);
    if h != base {
      var p :| p in g.blocks && p !in k && g.Edge(p, base);
      g.DomOfPred(h, p, base);
      NaturalHasPred(g, h, p, base);
    }
  }

  lemma {:induction false} Cardinality(a: set<Block>, b: set<Block>)
    requires a <= b
    ensures |a| <= |b|
  {
    if a != {} {
      var x :| x in a;
      Cardinality(a - {x}, b - {x});
    }
  }

  lemma NewIsLoop(g: Cfg, r0: Rest, r: Rest, loops: seq<Loop>, k: set<Block>, base: Block)
    requires Searchable(g) && IsLive(g, r0) && IsLive(g, r) && Waiting(r0, r, k) && r.nodes <= r0.nodes
    requires Reported(g, r.nodes, loops) && KnotsHeld(g, r.nodes, loops)
    requires base in k && Entered(g, Loop(k, base))
    ensures LoopAt(g, Loop(k, base)) && Sealed(r0.nodes, r0.succs, Loop(k, base))
  {
    LiveInduced(g, r0.nodes, r0.succs, r0.prevs);
    SccIsKnot(g, r0.nodes, r0.succs, k);
    if Reducible(g) { NewIsNatural(g, r0, r, loops, k, base); }
    forall a, b ensures SealedAt(r0.nodes, r0.succs, Loop(k, base), a, b) {
      assert a in k ==> (b in k <==> Mutual(r0.succs, a, b));
    }
  }

  /** A knot loses a block only to a loop that covers it. */
  lemma KnotKept(g: Cfg, r0: Rest, r: Rest, loops: seq<Loop>, k: set<Block>, base: Block, c: set<Block>)
    requires IsLive(g, r0) && Waiting(r0, r, k) && base in k && r.nodes <= r0.nodes
    requires KnotAt(g, r.nodes, loops, c)
    ensures KnotAt(g, r.nodes - {base}, loops + [Loop(k, base)], c)
  {
    var loops1 := loops + [Loop(k, base)];
    if IsKnot(g, c) {
      if Covered(loops, c) {
        var i :| 0 <= i < |loops| && Covers(loops[i], c);
        assert loops1[i] == loops[i];
      } else if base in c {
        KnotInside(g, r0, r, k, c, base);
        assert Covers(loops1[|loops|], c);
      }
    }
  }

  lemma ReportOne(g: Cfg, r0: Rest, r: Rest, loops: seq<Loop>, todo: set<set<Block>>, k: set<Block>, base: Block, r1: Rest)
    requires Searchable(g) && Round(g, r0, r, loops, todo) && k in todo && base in k && Entered(g, Loop(k, base))
    requires r1.nodes == r.nodes - {base} && IsLive(g, r1) && Within(r1.succs, r.succs)
    ensures Round(g, r0, r1, loops + [Loop(k, base)], todo - {k})
  {
    var l, loops1 := Loop(k, base), loops + [Loop(k, base)];
    assert Waiting(r0, r, k);
    NewIsLoop(g, r0, r, loops, k, base);
    forall i | 0 <= i < |loops1| ensures LoopAt(g, loops1[i]) && loops1[i].base !in r1.nodes && Sealed(r0.nodes, r0.succs, loops1[i]) {
      if i < |loops| { assert loops1[i] == loops[i] && LoopAt(g, loops[i]) && Sealed(r0.nodes, r0.succs, loops[i]); }
    }
    forall i, j ensures NestedAt(loops1, i, j) {
      assert NestedAt(loops, i, j);
      if 0 <= i < |loops| && j == |loops| {
        assert LoopAt(g, loops[i]) && Sealed(r0.nodes, r0.succs, loops[i]);
        NewIsNested(r0, r, loops[i], k, base);
      }
    }
    forall c ensures KnotAt(g, r1.nodes, loops1, c) {
      assert KnotAt(g, r.nodes, loops, c);
      KnotKept(g, r0, r, loops, k, base, c);
    }
    forall h | h in todo - {k} ensures Waiting(r0, r1, h) {
      assert Waiting(r0, r, h);
      if base in h { SccIsOne(r0.succs, h, k, base); }
    }
    forall a, b | Linked(r1.succs, a, b) ensures Linked(r0.succs, a, b) {
      assert Linked(r.succs, a, b);
    }
  }

  lemma RoundEnds(g: Cfg, r0: Rest, r: Rest, loops: seq<Loop>)
    requires Round(g, r0, r, loops, {})
    ensures Progress(g, r, loops)
  {
    forall i | 0 <= i < |loops| ensures Sealed(r.nodes, r.succs, loops[i]) {
      assert Sealed(r0.nodes, r0.succs, loops[i]);
      forall a, b ensures SealedAt(r.nodes, r.succs, loops[i], a, b) {
        assert SealedAt(r0.nodes, r0.succs, loops[i], a, b);
        if Mutual(r.succs, a, b) {
          LeadsWithin(r.succs, r0.succs, a, b);
          LeadsWithin(r.succs, r0.succs, b, a);
        }
      }
    }
  }

  /** When no component of two nodes is left, every knot has been covered. */
  lemma NoKnotLeft(g: Cfg, r: Rest, loops: seq<Loop>, c: set<Block>)
    requires IsLive(g, r) && KnotsHeld(g, r.nodes, loops) && IsKnot(g, c)
    requires AreSccs(r.succs, r.nodes, {})
    ensures Covered(loops, c)
  {
    assert KnotAt(g, r.nodes, loops, c);
    if c <= r.nodes {
      var a :| a in c;
      var k := SccOf(r.nodes, r.succs, a);
      LiveInside(g, r);
      LiveInduced(g, r.nodes, r.succs, r.prevs);
      SccOfIsScc(r.nodes, r.succs, a);
      forall x | x in c ensures x in k {
        KnotMutual(g, r.nodes, r.succs, c, a, x);
        KnotMutual(g, r.nodes, r.succs, c, x, a);
      }
      Cardinality(c, k);
    }
  }

  // ----- the maps from blocks to loops -----

  /** The smallest reported loop around `bb`. */
  ghost predicate IsInnermost(loops: seq<Loop>, i: int, bb: Block) {
    && 0 <= i < |loops| && bb in loops[i].blocks
    && forall j {:trigger loops[j]} :: 0 <= j < |loops| && bb in loops[j].blocks ==> loops[i].blocks <= loops[j].blocks
  }

  ghost predicate InnerAt(loops: seq<Loop>, bb2base: map<Block, Block>, bb: Block) {
    if bb in bb2base then exists i {:trigger IsInnermost(loops, i, bb)} :: IsInnermost(loops, i, bb) && bb2base[bb] == loops[i].base
    else forall j {:trigger loops[j]} :: 0 <= j < |loops| ==> bb !in loops[j].blocks
  }

  ghost predicate HasBlocks(loops: seq<Loop>, k: set<Block>) {
    exists i {:trigger loops[i]} :: 0 <= i < |loops| && loops[i].blocks == k
  }

  ghost predicate HasBase(loops: seq<Loop>, b: Block) {
    exists i {:trigger loops[i]} :: 0 <= i < |loops| && loops[i].base == b
  }

  ghost predicate Recorded(l: Loop, base2loop: map<Block, set<Block>>, loop2base: map<set<Block>, Block>) {
    && l.base in base2loop && base2loop[l.base] == l.blocks
    && l.blocks in loop2base && loop2base[l.blocks] == l.base
  }

  ghost predicate Maps(loops: seq<Loop>, loopSet: set<set<Block>>, base2loop: map<Block, set<Block>>,
                       loop2base: map<set<Block>, Block>, bb2base: map<Block, Block>) {
    && (forall k {:trigger HasBlocks(loops, k)} :: k in loopSet <==> HasBlocks(loops, k))
    && (forall i {:trigger loops[i]} :: 0 <= i < |loops| ==> Recorded(loops[i], base2loop, loop2base))
    && (forall b {:trigger HasBase(loops, b)} :: b in base2loop <==> HasBase(loops, b))
    && (forall k {:trigger HasBlocks(loops, k)} :: k in loop2base <==> HasBlocks(loops, k))
    && (forall bb {:trigger InnerAt(loops, bb2base, bb)} :: InnerAt(loops, bb2base, bb))
  }

  ghost predicate BaseSetAt(bb2base: map<Block, Block>, bb2base': map<Block, Block>, k: set<Block>, base: Block, bb: Block) {
    if bb in k then bb in bb2base' && bb2base'[bb] == base
    else (bb in bb2base' <==> bb in bb2base) && (bb in bb2base ==> bb2base'[bb] == bb2base[bb])
  }

  ghost predicate BasesSet(bb2base: map<Block, Block>, bb2base': map<Block, Block>, k: set<Block>, base: Block) {
    forall bb {:trigger BaseSetAt(bb2base, bb2base', k, base, bb)} :: BaseSetAt(bb2base, bb2base', k, base, bb)
  }

  lemma HasNext(loops: seq<Loop>, l: Loop)
    ensures forall k {:trigger HasBlocks(loops + [l], k)} :: HasBlocks(loops + [l], k) <==> HasBlocks(loops, k) || k == l.blocks
    ensures forall b {:trigger HasBase(loops + [l], b)} :: HasBase(loops + [l], b) <==> HasBase(loops, b) || b == l.base
  {
    var loops1 := loops + [l];
    assert loops1[|loops|] == l && forall i :: 0 <= i < |loops| ==> loops1[i] == loops[i];
    forall k ensures HasBlocks(loops1, k) <==> HasBlocks(loops, k) || k == l.blocks {
      if HasBlocks(loops, k) {
        var i :| 0 <= i < |loops| && loops[i].blocks == k;
        assert loops1[i].blocks == k;
      }
    }
    forall b ensures HasBase(loops1, b) <==> HasBase(loops, b) || b == l.base {
      if HasBase(loops, b) {
        var i :| 0 <= i < |loops| && loops[i].base == b;
        assert loops1[i].base == b;
      }
    }
  }

  lemma InnerNext(loops: seq<Loop>, l: Loop, bb2base: map<Block, Block>, bb2base': map<Block, Block>, bb: Block)
    requires InnerAt(loops, bb2base, bb) && BaseSetAt(bb2base, bb2base', l.blocks, l.base, bb)
    requires forall i {:trigger loops[i]} :: 0 <= i < |loops| ==> Nested(loops[i], l)
    ensures InnerAt(loops + [l], bb2base', bb)
  {
    var loops1 := loops + [l];
    if bb in l.blocks {
      forall j | 0 <= j < |loops1| && bb in loops1[j].blocks ensures l.blocks <= loops1[j].blocks {
        if j < |loops| { assert loops1[j] == loops[j]; }
      }
      assert IsInnermost(loops1, |loops|, bb);
    } else if bb in bb2base {
      var i :| IsInnermost(loops, i, bb) && bb2base[bb] == loops[i].base;
      assert loops1[i] == loops[i];
      assert IsInnermost(loops1, i, bb);
    }
  }

  /** Reporting one more loop: its base and its blocks are new, and it is the
      innermost loop of each of its blocks. */
  lemma MapsNext(loops: seq<Loop>, loopSet: set<set<Block>>, base2loop: map<Block, set<Block>>,
                 loop2base: map<set<Block>, Block>, bb2base: map<Block, Block>, l: Loop, bb2base': map<Block, Block>)
    requires Maps(loops, loopSet, base2loop, loop2base, bb2base)
    requires forall i {:trigger loops[i]} :: 0 <= i < |loops| ==>
               Nested(loops[i], l) && loops[i].base != l.base && loops[i].base in loops[i].blocks
    requires BasesSet(bb2base, bb2base', l.blocks, l.base)
    ensures l.base !in base2loop && l.blocks !in loop2base
    ensures Maps(loops + [l], loopSet + {l.blocks}, base2loop[l.base := l.blocks], loop2base[l.blocks := l.base], bb2base')
  {
    var loops1 := loops + [l];
    HasNext(loops, l);
    assert !HasBase(loops, l.base) && !HasBlocks(loops, l.blocks);
    forall bb ensures InnerAt(loops1, bb2base', bb) {
      assert InnerAt(loops, bb2base, bb) && BaseSetAt(bb2base, bb2base', l.blocks, l.base, bb);
      InnerNext(loops, l, bb2base, bb2base', bb);
    }
    forall i | 0 <= i < |loops1|
      ensures Recorded(loops1[i], base2loop[l.base := l.blocks], loop2base[l.blocks := l.base])
    {
      if i < |loops| { assert loops1[i] == loops[i] && Recorded(loops[i], base2loop, loop2base); }
    }
  }

  // ----- the whole search -----

  /** What the pass answers: strongly connected sets of two or more blocks, each
      entered at its base from outside; any two are disjoint or one is strictly
      inside the other and without its base; no two have the same base; and
      every strongly connected set of two or more blocks lies inside a loop whose
      base it holds. */
  ghost predicate LoopsOf(g: Cfg, loops: seq<Loop>) {
    && (forall i {:trigger LoopAt(g, loops[i])} :: 0 <= i < |loops| ==> LoopAt(g, loops[i]))
    && (forall i, j {:trigger NestedAt(loops, i, j)} :: NestedAt(loops, i, j))
    && (forall c {:trigger Covered(loops, c)} :: IsKnot(g, c) ==> Covered(loops, c))
  }

  /** What holds between rounds. */
  ghost predicate Progress(g: Cfg, r: Rest, loops: seq<Loop>) {
    IsLive(g, r) && Reported(g, r.nodes, loops) && AllSealed(r.nodes, r.succs, loops) && KnotsHeld(g, r.nodes, loops)
  }

  lemma FirstRound(g: Cfg, r: Rest)
    requires IsLive(g, r) && r.nodes == ToSet(g.blocks)
    ensures Progress(g, r, [])
  {
    var none: seq<Loop> := [];
    forall c ensures KnotAt(g, r.nodes, none, c) {
    }
  }

  lemma RoundStarts(g: Cfg, r: Rest, loops: seq<Loop>, todo: set<set<Block>>)
    requires Progress(g, r, loops)
    requires AreSccs(r.succs, r.nodes, todo)
    ensures Round(g, r, r, loops, todo)
  {
    assert Within(r.succs, r.succs);
    forall k | k in todo ensures Waiting(r, r, k) {
      assert IsScc(r.succs, k);
    }
  }

  lemma SearchDone(g: Cfg, r: Rest, loops: seq<Loop>)
    requires Progress(g, r, loops)
    requires AreSccs(r.succs, r.nodes, {})
    ensures LoopsOf(g, loops)
  {
    forall c | IsKnot(g, c) ensures Covered(loops, c) {
      NoKnotLeft(g, r, loops, c);
    }
  }

  /** Every cycle lies inside a reported loop that has its base on the cycle. */
  lemma CyclesCovered(g: Cfg, loops: seq<Loop>, c: seq<Block>) returns (l: Loop)
    requires LoopsOf(g, loops) && IsCycle(g, c)
    ensures l in loops && l.base in c && forall b :: b in c ==> b in l.blocks
  {
    CycleIsKnot(g, c);
    assert Covered(loops, Members(c));
    var i :| 0 <= i < |loops| && Covers(loops[i], Members(c));
    l := loops[i];
  }

  /** The reserved nodes are those taken out. */
  ghost predicate Apart(g: Cfg, nodes: set<Block>, reserved: set<Block>) {
    forall b :: b in reserved <==> b in g.blocks && b !in nodes
  }

  lemma NothingMapped()
    ensures Maps([], {}, map[], map[], map[])
  {
    var none: seq<Loop>, empty: map<Block, Block> := [], map[];
    forall bb ensures InnerAt(none, empty, bb) {
    }
  }

  /** A component of the round has a base, and is a new loop with it. */
  lemma BaseOfWaiting(g: Cfg, r0: Rest, r: Rest, loops: seq<Loop>, todo: set<set<Block>>, reserved: set<Block>, k: set<Block>)
    requires Searchable(g) && Round(g, r0, r, loops, todo) && k in todo
    requires Apart(g, r.nodes, reserved)
    ensures forall b :: b in k ==> b in r.prevs
    ensures forall b :: b in reserved ==> b in r.succs
    ensures exists b :: IsBase(r.succs, r.prevs, reserved, k, b)
    ensures forall b {:trigger IsBase(r.succs, r.prevs, reserved, k, b)} ::
              IsBase(r.succs, r.prevs, reserved, k, b) ==> b in k && Entered(g, Loop(k, b))
  {
    assert Waiting(r0, r, k);
    EntryInNoScc(g, r0.nodes, r0.succs, r0.prevs, k);
    BaseExists(g, r.nodes, r.succs, r.prevs, reserved, k);
    forall b | IsBase(r.succs, r.prevs, reserved, k, b) ensures b in k && Entered(g, Loop(k, b)) {
      BaseIsEntered(g, r.nodes, r.succs, r.prevs, reserved, k, b);
    }
  }

  /** The last loop of a list against those before it. */
  lemma LastIsNested(g: Cfg, nodes: set<Block>, loops: seq<Loop>, l: Loop)
    requires Reported(g, nodes, loops + [l])
    ensures forall i {:trigger loops[i]} :: 0 <= i < |loops| ==>
              Nested(loops[i], l) && loops[i].base != l.base && loops[i].base in loops[i].blocks
  {
    var loops1 := loops + [l];
    forall i | 0 <= i < |loops| ensures Nested(loops[i], l) && loops[i].base != l.base && loops[i].base in loops[i].blocks {
      assert loops1[i] == loops[i] && loops1[|loops|] == l;
      assert NestedAt(loops1, i, |loops|) && LoopAt(g, loops1[i]);
    }
  }

  // ----- the loop around a loop -----

  lemma InnermostIsOne(loops: seq<Loop>, bb: Block)
    ensures forall i, j {:trigger IsInnermost(loops, i, bb), IsInnermost(loops, j, bb)} ::
              IsInnermost(loops, i, bb) && IsInnermost(loops, j, bb) ==> loops[i].blocks == loops[j].blocks
  {
  }

  /** In a reducible graph every natural loop of two or more blocks is found. */
  lemma NaturalIsReported(g: Cfg, loops: seq<Loop>, h: Block) returns (i: nat)
    requires Searchable(g) && Reducible(g) && LoopsOf(g, loops) && h in g.blocks && |NaturalLoop(g, h)| >= 2
    ensures i < |loops| && loops[i] == Loop(NaturalLoop(g, h), h)
  {
    var c := NaturalLoop(g, h);
    NaturalIsKnot(g, h);
    assert Covered(loops, c);
    i :| i < |loops| && loops[i].base in c && c <= loops[i].blocks;
    var m := loops[i].base;
    assert LoopAt(g, loops[i]) && h in c;
    assert g.Dom(h, m) && g.Dom(m, h) && g.Reachable(h);
    var w :| g.WalkFromTo(w, g.entry, h);
    DomAntisymmetric(g, w, m, h);
  }

  ghost predicate Encloses(outer: Loop, inner: Loop) {
    inner.blocks < outer.blocks
  }

  /** In a reducible graph a loop holds all that jumps to the base of a loop
      inside it. */
  lemma EnclosingHoldsPred(g: Cfg, loops: seq<Loop>, i: int, j: int, p: Block)
    requires Searchable(g) && Reducible(g) && LoopsOf(g, loops)
    requires 0 <= i < |loops| && 0 <= j < |loops| && Encloses(loops[i], loops[j])
    requires p in g.blocks && g.Edge(p, loops[j].base)
    ensures p in loops[i].blocks
  {
    var m, n := loops[i].base, loops[j].base;
    assert LoopAt(g, loops[i]) && LoopAt(g, loops[j]);
    assert g.StrictlyDom(m, n);
    g.DomOfPred(m, p, n);
    NaturalHasPred(g, m, p, n);
  }

  /** The innermost loop around a block `p` outside loop `j` that jumps to its
      base, if it holds the base: it encloses loop `j`, and in a reducible graph
      nothing smaller does. */
  lemma ParentIsSmallest(g: Cfg, loops: seq<Loop>, i: int, j: int, p: Block)
    requires Searchable(g) && LoopsOf(g, loops) && IsInnermost(loops, i, p) && 0 <= j < |loops|
    requires p in g.blocks && p !in loops[j].blocks && g.Edge(p, loops[j].base) && loops[j].base in loops[i].blocks
    ensures Encloses(loops[i], loops[j])
    ensures Reducible(g) ==> forall n {:trigger loops[n]} ::
              0 <= n < |loops| && Encloses(loops[n], loops[j]) ==> loops[i].blocks <= loops[n].blocks
  {
    assert LoopAt(g, loops[j]) && NestedAt(loops, i, j) && NestedAt(loops, j, i);
    if Reducible(g) {
      forall n | 0 <= n < |loops| && Encloses(loops[n], loops[j]) ensures loops[i].blocks <= loops[n].blocks {
        EnclosingHoldsPred(g, loops, n, j, p);
      }
    }
  }
}
