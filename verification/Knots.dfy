/** Strongly connected sets of blocks, cycles, and the natural loops of
    reducible graphs. */
module Knots {
  import opened Graphs
  import opened LoopGraphs

  /** `q` is closed under the edges inside `c`. */
  ghost predicate ClosedIn(g: Cfg, c: set<Block>, q: set<Block>) {
    forall a, b {:trigger g.Edge(a, b)} :: a in q && a in c && b in c && g.Edge(a, b) ==> b in q
  }

  /** Two or more blocks that are strongly connected by the edges among them. */
  ghost predicate IsKnot(g: Cfg, c: set<Block>) {
    && |c| >= 2 && (forall b :: b in c ==> b in g.blocks)
    && forall q, a {:trigger ClosedIn(g, c, q), a in q} :: ClosedIn(g, c, q) && a in q && a in c ==> c <= q
  }

  /** `c` is a cycle through two or more different blocks. */
  ghost predicate IsCycle(g: Cfg, c: seq<Block>) {
    && |c| >= 2
    && (forall i, j :: 0 <= i < j < |c| ==> c[i] != c[j])
    && (forall i {:trigger CycleEdge(g, c, i)} :: 0 <= i < |c| ==> CycleEdge(g, c, i))
  }

  predicate CycleEdge(g: Cfg, c: seq<Block>, i: int)
    requires 0 <= i < |c|
  {
    c[i] in g.blocks && g.Edge(c[i], c[if i + 1 < |c| then i + 1 else 0])
  }

  ghost function Members(c: seq<Block>): set<Block> {
    set b | b in c
  }

  lemma {:induction false} CycleStays(g: Cfg, c: seq<Block>, q: set<Block>, i: int, j: int)
    requires IsCycle(g, c) && ClosedIn(g, Members(c), q) && 0 <= i <= j < |c| && c[i] in q
    ensures c[j] in q
    decreases j - i
  {
    if i < j {
      CycleStays(g, c, q, i, j - 1);
      assert CycleEdge(g, c, j - 1) && c[j - 1] in Members(c) && c[j] in Members(c);
    }
  }

  lemma CycleIsKnot(g: Cfg, c: seq<Block>)
    requires IsCycle(g, c)
    ensures IsKnot(g, Members(c))
  {
    forall b | b in Members(c) ensures b in g.blocks {
      var i :| 0 <= i < |c| && c[i] == b;
      assert CycleEdge(g, c, i);
    }
    forall q, a | ClosedIn(g, Members(c), q) && a in q && a in Members(c) ensures Members(c) <= q {
      var i :| 0 <= i < |c| && c[i] == a;
      CycleStays(g, c, q, i, |c| - 1);
      assert CycleEdge(g, c, |c| - 1) && c[|c| - 1] in Members(c) && c[0] in Members(c);
      forall b | b in Members(c) ensures b in q {
        var j :| 0 <= j < |c| && c[j] == b;
        CycleStays(g, c, q, 0, j);
      }
    }
    assert c[0] in Members(c) && c[1] in Members(c);
    AtLeastTwo(Members(c), c[0], c[1]);
  }

  lemma AtLeastTwo(k: set<Block>, a: Block, b: Block)
    requires a in k && b in k && a != b
    ensures |k| >= 2
  {
    assert |k - {a} - {b}| == |k| - 2;
  }

  // ----- knots and components -----

  /** Among `nodes`, the links are the edges. */
  ghost predicate InducedAt(g: Cfg, nodes: set<Block>, links: Links, a: Block, b: Block) {
    a in nodes ==> (Linked(links, a, b) <==> b in nodes && g.Edge(a, b))
  }

  ghost predicate Induced(g: Cfg, nodes: set<Block>, links: Links) {
    && (forall b :: b in nodes ==> b in g.blocks)
    && forall a, b {:trigger InducedAt(g, nodes, links, a, b)} :: InducedAt(g, nodes, links, a, b)
  }

  /** The blocks of a knot lead to each other. */
  lemma KnotMutual(g: Cfg, nodes: set<Block>, links: Links, c: set<Block>, a: Block, b: Block)
    requires Induced(g, nodes, links) && IsKnot(g, c) && c <= nodes && a in c && b in c
    ensures Leads(links, a, b)
  {
    forall q | Closed(links, q) && a in q ensures b in q {
      forall x, y | x in q && x in c && y in c && g.Edge(x, y) ensures y in q {
        assert InducedAt(g, nodes, links, x, y);
      }
      assert ClosedIn(g, c, q);
    }
  }

  /** A component of two or more nodes is a knot. */
  lemma SccIsKnot(g: Cfg, nodes: set<Block>, links: Links, k: set<Block>)
    requires Induced(g, nodes, links) && IsScc(links, k) && k <= nodes && |k| >= 2
    ensures IsKnot(g, k)
  {
    forall q, a | ClosedIn(g, k, q) && a in q && a in k ensures k <= q {
      var out := set x | x in nodes && x !in k && Leads(links, a, x);
      var all := (q * k) + out;
      forall x, y | x in all && Linked(links, x, y) ensures y in all {
        assert InducedAt(g, nodes, links, x, y);
        assert x in k ==> Mutual(links, a, x);
        LinkLeads(links, x, y);
        LeadsTrans(links, a, x, y);
        if x !in k && y in k {
          assert Mutual(links, a, y);
          LeadsTrans(links, x, y, a);
          assert Mutual(links, a, x);
        }
      }
      forall b | b in k ensures b in q {
        assert Mutual(links, a, b) && Closed(links, all) && a in all;
      }
    }
  }

  // ----- reducible graphs -----

  ghost predicate Heads(g: Cfg, h: Block, c: set<Block>) {
    h in c && forall b {:trigger g.Dom(h, b)} :: b in c ==> g.Dom(h, b)
  }

  /** Every knot has a block that dominates all of it. */
  ghost predicate Reducible(g: Cfg) {
    forall c {:trigger IsKnot(g, c)} :: IsKnot(g, c) ==> exists h {:trigger Heads(g, h, c)} :: Heads(g, h, c)
  }

  ghost function Below(g: Cfg, h: Block): set<Block> {
    set x | x in g.blocks && g.Dom(h, x)
  }

  /** The edges among the blocks that `h` dominates. */
  ghost function EdgesBelow(g: Cfg, h: Block): Links {
    map a | a in Below(g, h) :: set b | b in Below(g, h) && g.Edge(a, b)
  }

  /** The blocks that `h` dominates and that lead back to it without leaving
      what it dominates. */
  ghost function NaturalLoop(g: Cfg, h: Block): set<Block> {
    set x | x in Below(g, h) && Leads(EdgesBelow(g, h), x, h)
  }

  lemma BelowInduced(g: Cfg, h: Block)
    ensures Induced(g, Below(g, h), EdgesBelow(g, h))
  {
    forall a, b ensures InducedAt(g, Below(g, h), EdgesBelow(g, h), a, b) {
    }
  }

  /** From `h` every block that it dominates can be reached without leaving
      what it dominates. */
  lemma HeadLeads(g: Cfg, h: Block, p: Block)
    requires g.Wf() && g.AllReachable() && p in Below(g, h)
    ensures Leads(EdgesBelow(g, h), h, p)
  {
    var below, links := Below(g, h), EdgesBelow(g, h);
    forall q | Closed(links, q) && h in q ensures p in q {
      var inside := set x | x in g.blocks && (x !in below || x in q);
      forall x, y | x in inside && g.Edge(x, y) ensures y in inside {
        if y in below && y != h {
          g.DomOfPred(h, x, y);
          assert Linked(links, x, y);
        }
      }
      g.SingleWalk(g.entry);
      assert g.entry in below ==> g.Dom(h, g.entry) && h in [g.entry] by {
        assert g.WalkFromTo([g.entry], g.entry, g.entry);
      }
      assert g.Reachable(p);
      var w :| g.WalkFromTo(w, g.entry, p);
      g.WalkStaysInside(w, g.entry, p, inside);
    }
  }

  /** A knot is inside the natural loop of a block that dominates it. */
  lemma KnotInNatural(g: Cfg, h: Block, c: set<Block>)
    requires IsKnot(g, c) && Heads(g, h, c)
    ensures c <= NaturalLoop(g, h)
  {
    BelowInduced(g, h);
    forall x | x in c ensures x in NaturalLoop(g, h) {
      assert g.Dom(h, x) && forall b :: b in c ==> g.Dom(h, b);
      assert c <= Below(g, h);
      KnotMutual(g, Below(g, h), EdgesBelow(g, h), c, x, h);
    }
  }

  /** A natural loop of two or more blocks is a knot. */
  lemma NaturalIsKnot(g: Cfg, h: Block)
    requires g.Wf() && g.AllReachable() && h in g.blocks && |NaturalLoop(g, h)| >= 2
    ensures IsKnot(g, NaturalLoop(g, h)) && Heads(g, h, NaturalLoop(g, h))
  {
    var links, k := EdgesBelow(g, h), NaturalLoop(g, h);
    BelowInduced(g, h);
    assert h in k;
    forall a, b ensures a in k ==> (b in k <==> Mutual(links, a, b)) {
      if a in k {
        HeadLeads(g, h, a);
        if b in Below(g, h) { HeadLeads(g, h, b); }
        assert Closed(links, Below(g, h));
      }
    }
    SccIsKnot(g, Below(g, h), links, k);
  }

  /** A predecessor that `h` dominates belongs to the loop as well. */
  lemma NaturalHasPred(g: Cfg, h: Block, p: Block, n: Block)
    requires n in NaturalLoop(g, h) && p in g.blocks && g.Dom(h, p) && g.Edge(p, n)
    ensures p in NaturalLoop(g, h)
  {
    assert Linked(EdgesBelow(g, h), p, n);
    LinkLeads(EdgesBelow(g, h), p, n);
    LeadsTrans(EdgesBelow(g, h), p, n, h);
  }

  /** Two blocks that dominate each other are the same. */
  lemma {:induction false} DomAntisymmetric(g: Cfg, w: seq<Block>, a: Block, b: Block)
    requires g.WalkFromTo(w, g.entry, b) && g.Dom(a, b) && g.Dom(b, a)
    ensures a == b
    decreases |w|
  {
    if a != b {
      assert a in w;
      var i :| 0 <= i < |w| && w[i] == a;
      g.PrefixWalk(w, g.entry, b, i);
      DomAntisymmetric(g, w[..i + 1], b, a);
    }
  }
}
