/** The graph that loop search works on: nodes with sets of successors, from
    which nodes and edges are taken away as loops are found. */
module LoopGraphs {
  import opened Graphs

  type Links = map<Block, set<Block>>

  predicate Linked(g: Links, a: Block, b: Block) {
    a in g && b in g[a]
  }

  /** `q` is closed under successors. */
  ghost predicate Closed(g: Links, q: set<Block>) {
    forall a, b {:trigger Linked(g, a, b)} :: a in q && Linked(g, a, b) ==> b in q
  }

  /** `b` is in every closed set that holds `a`. */
  ghost predicate Leads(g: Links, a: Block, b: Block) {
    forall q {:trigger Closed(g, q)} :: Closed(g, q) && a in q ==> b in q
  }

  ghost predicate Mutual(g: Links, a: Block, b: Block) {
    Leads(g, a, b) && Leads(g, b, a)
  }

  ghost predicate LinksInside(g: Links, nodes: set<Block>) {
    forall a, b {:trigger Linked(g, a, b)} :: Linked(g, a, b) && a in nodes ==> b in nodes
  }

  /** `c` is a strongly connected component. */
  ghost predicate IsScc(g: Links, c: set<Block>) {
    && c != {}
    && forall a, b {:trigger Mutual(g, a, b)} :: a in c ==> (b in c <==> Mutual(g, a, b))
  }

  /** The search stays among the nodes. */
  ghost predicate Linkable(g: Links, nodes: set<Block>) {
    (forall b :: b in nodes ==> b in g) && LinksInside(g, nodes)
  }

  /** `result` holds the components of two or more nodes. */
  ghost predicate AreSccs(g: Links, nodes: set<Block>, result: set<set<Block>>) {
    forall c {:trigger IsScc(g, c)} :: c in result <==> IsScc(g, c) && |c| >= 2 && c <= nodes
  }

  lemma LeadsTrans(g: Links, a: Block, b: Block, c: Block)
    requires Leads(g, a, b) && Leads(g, b, c)
    ensures Leads(g, a, c)
  {
  }

  lemma LinkLeads(g: Links, a: Block, b: Block)
    requires Linked(g, a, b)
    ensures Leads(g, a, b)
  {
  }

  /** The links of `h` are among those of `g`. */
  ghost predicate Within(h: Links, g: Links) {
    forall a, b {:trigger Linked(h, a, b)} :: Linked(h, a, b) ==> Linked(g, a, b)
  }

  lemma LeadsWithin(h: Links, g: Links, a: Block, b: Block)
    requires Within(h, g) && Leads(h, a, b)
    ensures Leads(g, a, b)
  {
    forall q | Closed(g, q) && a in q ensures b in q {
      assert Closed(h, q);
    }
  }

  lemma SccIsOne(g: Links, c: set<Block>, d: set<Block>, a: Block)
    requires IsScc(g, c) && IsScc(g, d) && a in c && a in d
    ensures c == d
  {
    forall b ensures b in c <==> b in d {
      assert b in c <==> Mutual(g, a, b);
    }
  }
}
