/** Tarjan's algorithm: the state of a search under way, and what keeps it in
    order. */
module Tarjans {
  import opened Graphs
  import opened LoopGraphs

  /** Every node of `open` leads to `n`. */
  ghost predicate AllLeadTo(g: Links, open: set<Block>, n: Block) {
    forall x {:trigger Leads(g, x, n)} :: x in open ==> Leads(g, x, n)
  }

  /** The lowlinks of the nodes visited in `t` have not changed. */
  ghost predicate LowKept(t: Tarjan, low: map<Block, int>, low': map<Block, int>) {
    forall b {:trigger t.Visited(b)} :: t.Visited(b) && b in low ==> b in low' && low'[b] == low[b]
  }

  lemma LowKeptTrans(t: Tarjan, low: map<Block, int>, low': map<Block, int>, low'': map<Block, int>)
    requires LowKept(t, low, low') && LowKept(t, low', low'')
    ensures LowKept(t, low, low'')
  {
  }

  /** `open` are the nodes whose visits have begun and not ended; `closed` are
      the nodes that have left the stack, and `found` the components of two or
      more nodes among them. */
  datatype Tarjan = Tarjan(index: map<Block, int>, stack: seq<Block>, open: set<Block>, closed: set<Block>,
                           found: set<set<Block>>, count: int)
  {
    predicate Visited(b: Block) {
      b in index && index[b] != -1
    }

    ghost predicate NodeAt(nodes: set<Block>, b: Block) {
      && (b in nodes ==> b in index && (Visited(b) <==> b in closed || b in stack))
      && (b in closed ==> b in nodes && b !in stack)
      && (b in stack ==> b in nodes)
      && (b in open ==> b in stack)
    }

    /** Later on the stack means a higher index, and reached from below. */
    ghost predicate StackAt(g: Links, nodes: set<Block>, i: int, j: int)
    {
      0 <= i <= j < |stack| ==>
        && stack[i] in nodes && stack[i] in index && 0 <= index[stack[i]] < count
        && stack[j] in index && (i < j ==> index[stack[i]] < index[stack[j]])
        && Leads(g, stack[i], stack[j])
    }

    /** From a node on the stack the search can come back to an open node that
        is not higher. */
    ghost predicate BackTo(g: Links, y: Block, x: Block) {
      x in open && x in index && y in index && index[x] <= index[y] && Leads(g, y, x)
    }

    ghost predicate BackAt(g: Links, y: Block) {
      y in stack ==> exists x {:trigger BackTo(g, y, x)} :: BackTo(g, y, x)
    }

    ghost predicate LinkAt(g: Links, a: Block, b: Block) {
      Linked(g, a, b) ==>
        && (a in closed ==> b in closed)
        && (a in stack && a !in open ==> Visited(b))
    }

    ghost predicate FoundAt(g: Links, c: set<Block>) {
      c in found <==> IsScc(g, c) && |c| >= 2 && c <= closed
    }

    ghost predicate Inv(g: Links, nodes: set<Block>) {
      && (forall b {:trigger NodeAt(nodes, b)} :: NodeAt(nodes, b))
      && (forall i, j {:trigger StackAt(g, nodes, i, j)} :: StackAt(g, nodes, i, j))
      && (forall y {:trigger BackAt(g, y)} :: BackAt(g, y))
      && (forall a, b {:trigger LinkAt(g, a, b)} :: LinkAt(g, a, b))
      && (forall c {:trigger FoundAt(g, c)} :: FoundAt(g, c))
      && 0 <= count
    }

    /** `later` continues this search, and ended every visit it began. */
    ghost predicate Grows(later: Tarjan) {
      && stack <= later.stack && open == later.open && closed <= later.closed && count <= later.count
      && forall b {:trigger KeepsIndex(later, b)} :: KeepsIndex(later, b)
    }

    ghost predicate KeepsIndex(later: Tarjan, b: Block) {
      Visited(b) ==> b in later.index && later.index[b] == index[b]
    }

    ghost function Unvisited(nodes: set<Block>): set<Block> {
      set b | b in nodes && !Visited(b)
    }

    lemma UnvisitedShrinks(later: Tarjan, nodes: set<Block>, n: Block)
      requires n in nodes && !Visited(n) && 0 <= count && Push(n).Grows(later)
      ensures later.Unvisited(nodes) < Unvisited(nodes)
    {
      assert Push(n).KeepsIndex(later, n);
      forall b | b in later.Unvisited(nodes) ensures b in Unvisited(nodes) {
        assert Push(n).KeepsIndex(later, b);
      }
      assert n in Unvisited(nodes);
    }

    /** Pushing an unvisited node. */
    function Push(n: Block): Tarjan {
      this.(index := index[n := count], stack := stack + [n], open := open + {n}, count := count + 1)
    }

    lemma PushKeepsInv(g: Links, nodes: set<Block>, n: Block)
      requires Inv(g, nodes) && n in nodes && !Visited(n)
      requires AllLeadTo(g, open, n)
      ensures Push(n).Inv(g, nodes)
    {
      var t := Push(n);
      assert NodeAt(nodes, n);
      forall b ensures t.NodeAt(nodes, b) {
        assert NodeAt(nodes, b);
      }
      forall i, j ensures t.StackAt(g, nodes, i, j) {
        assert StackAt(g, nodes, i, j) && StackAt(g, nodes, i, i) && StackAt(g, nodes, j, j);
        if 0 <= i < |stack| && j == |stack| {
          AllLead(g, nodes, n, stack[i]);
        }
      }
      forall y ensures t.BackAt(g, y) {
        if y in stack {
          assert BackAt(g, y) && NodeAt(nodes, y);
          var x :| BackTo(g, y, x);
          assert NodeAt(nodes, x);
          assert t.BackTo(g, y, x);
        } else {
          assert t.BackTo(g, n, n);
        }
      }
      forall a, b ensures t.LinkAt(g, a, b) {
        assert LinkAt(g, a, b);
      }
      forall c ensures t.FoundAt(g, c) {
        assert FoundAt(g, c);
      }
    }

    /** Every node on the stack leads to the node that is visited next. */
    lemma AllLead(g: Links, nodes: set<Block>, n: Block, y: Block)
      requires Inv(g, nodes) && y in stack
      requires AllLeadTo(g, open, n)
      ensures Leads(g, y, n)
    {
      assert BackAt(g, y);
      var x :| BackTo(g, y, x);
      LeadsTrans(g, y, x, n);
    }

    /** The open nodes lead to the child of the latest one. */
    lemma OpenLeads(g: Links, nodes: set<Block>, t0: Tarjan, n: Block, c: Block)
      requires t0.Push(n).Grows(this) && Linked(g, n, c)
      requires AllLeadTo(g, t0.open, n)
      ensures AllLeadTo(g, open, c)
    {
      LinkLeads(g, n, c);
      forall x | x in open ensures Leads(g, x, c) {
        if x != n {
          assert x in t0.open;
          LeadsTrans(g, x, n, c);
        }
      }
    }

    lemma GrowsTrans(t: Tarjan, u: Tarjan, n: Block)
      requires Push(n).Grows(t) && t.Grows(u)
      ensures Push(n).Grows(u)
    {
      forall b ensures Push(n).KeepsIndex(u, b) {
        assert Push(n).KeepsIndex(t, b) && t.KeepsIndex(u, b);
      }
    }

    /** What was visited before `n` was visited before its child. */
    lemma LowKeptSince(t: Tarjan, n: Block, low: map<Block, int>, low': map<Block, int>)
      requires !Visited(n) && 0 <= count && Push(n).Grows(t) && LowKept(t, low, low')
      ensures LowKept(this, low, low')
      ensures n in low ==> n in low' && low'[n] == low[n]
    {
      assert Push(n).KeepsIndex(t, n) && Push(n).Visited(n) && t.Visited(n);
      forall b | Visited(b) ensures t.Visited(b) {
        assert Push(n).KeepsIndex(t, b);
      }
    }

    // ----- the lowlink of an open node -----

    ghost predicate Witness(g: Links, n: Block, lo: int, z: Block) {
      z in stack && z in index && index[z] == lo && Leads(g, n, z)
    }

    /** A link from the stack at or above `p` to the stack below `p`; of the
        links of `n` itself only those to `seen`. */
    ghost predicate CoverAt(g: Links, p: nat, n: Block, lo: int, seen: set<Block>, a: Block, y: Block)
      requires p <= |stack|
    {
      Linked(g, a, y) && a in stack[p..] && y in stack[..p] && (a == n ==> y in seen) ==> y in index && lo <= index[y]
    }

    /** `lo` is the lowlink of the open node `n` at place `p` of the stack, as
        far as the successors in `seen` tell. */
    ghost predicate Low(g: Links, p: nat, n: Block, lo: int, seen: set<Block>) {
      && p < |stack| && stack[p] == n && n in open && n in index && lo <= index[n]
      && (exists z {:trigger Witness(g, n, lo, z)} :: Witness(g, n, lo, z))
      && (forall a, y {:trigger CoverAt(g, p, n, lo, seen, a, y)} :: CoverAt(g, p, n, lo, seen, a, y))
      && (forall y :: y in seen ==> Visited(y))
    }

    ghost predicate OldCoverAt(g: Links, p: nat, lo: int, a: Block, y: Block)
      requires p <= |stack|
    {
      Linked(g, a, y) && a in stack[p..] && y in stack[..p] ==> y in index && lo <= index[y]
    }

    /** The visit of `n` has ended with lowlink `lo`: either it has left the
        stack, or `lo` is the index of a node that it leads to. */
    ghost predicate Ended(g: Links, t0: Tarjan, n: Block, lo: int) {
      && t0.Grows(this) && Visited(n)
      && ((stack == t0.stack && lo >= t0.count) || exists z {:trigger Witness(g, n, lo, z)} :: Witness(g, n, lo, z))
      && (forall a, y {:trigger OldCoverAt(g, |t0.stack|, lo, a, y)} :: OldCoverAt(g, |t0.stack|, lo, a, y))
    }

    lemma LowStarts(g: Links, nodes: set<Block>, n: Block)
      requires Inv(g, nodes) && n in nodes && !Visited(n)
      ensures Push(n).Low(g, |stack|, n, count, {})
    {
      var t := Push(n);
      assert t.Witness(g, n, count, n);
      forall a, y ensures t.CoverAt(g, |stack|, n, count, {}, a, y) {
      }
    }

    lemma LowAfterChild(g: Links, nodes: set<Block>, t: Tarjan, p: nat, n: Block, lo: int, seen: set<Block>, c: Block, lo': int)
      requires Inv(g, nodes) && t.Inv(g, nodes) && Low(g, p, n, lo, seen)
      requires Linked(g, n, c) && !Visited(c) && t.Ended(g, this, c, lo')
      ensures t.Low(g, p, n, if lo' < lo then lo' else lo, seen + {c})
    {
      var m, seen1 := if lo' < lo then lo' else lo, seen + {c};
      assert StackAt(g, nodes, p, p) && KeepsIndex(t, n) && NodeAt(nodes, n) && NodeAt(nodes, c);
      if lo' < lo {
        var z :| t.Witness(g, c, lo', z);
        LinkLeads(g, n, c);
        LeadsTrans(g, n, c, z);
        assert t.Witness(g, n, m, z);
      } else {
        var z :| Witness(g, n, lo, z);
        assert NodeAt(nodes, z) && KeepsIndex(t, z);
        assert t.Witness(g, n, m, z);
      }
      assert t.stack[..p] == stack[..p];
      forall a, y ensures t.CoverAt(g, p, n, m, seen1, a, y) {
        assert CoverAt(g, p, n, lo, seen, a, y) && t.OldCoverAt(g, |stack|, lo', a, y);
        assert NodeAt(nodes, y) && KeepsIndex(t, y);
        assert a in t.stack[p..] ==> a in stack[p..] || a in t.stack[|stack|..];
      }
      forall y | y in seen1 ensures t.Visited(y) {
        assert KeepsIndex(t, y);
      }
    }

    lemma LowAfterVisited(g: Links, nodes: set<Block>, p: nat, n: Block, lo: int, seen: set<Block>, c: Block)
      requires Inv(g, nodes) && Low(g, p, n, lo, seen) && Linked(g, n, c) && Visited(c)
      ensures c in index
      ensures Low(g, p, n, if c in stack && index[c] < lo then index[c] else lo, seen + {c})
    {
      var m, seen1 := if c in stack && index[c] < lo then index[c] else lo, seen + {c};
      if c in stack && index[c] < lo {
        LinkLeads(g, n, c);
        assert Witness(g, n, m, c);
      } else {
        var z :| Witness(g, n, lo, z);
        assert Witness(g, n, m, z);
      }
      forall a, y ensures CoverAt(g, p, n, m, seen1, a, y) {
        assert CoverAt(g, p, n, lo, seen, a, y);
      }
    }

    // ----- the end of a visit -----

    /** All links of the open node `n` at place `p` have been followed. */
    ghost predicate AtEnd(g: Links, nodes: set<Block>, t0: Tarjan, n: Block, lo: int) {
      && t0.Inv(g, nodes) && Inv(g, nodes) && !t0.Visited(n) && n in nodes
      && t0.Push(n).Grows(this) && n in g
      && Low(g, |t0.stack|, n, lo, g[n])
    }

    lemma EndIndexes(g: Links, nodes: set<Block>, t0: Tarjan, n: Block, lo: int)
      requires AtEnd(g, nodes, t0, n, lo)
      ensures |t0.stack| < |stack| && stack[|t0.stack|] == n && index[n] == t0.count
      ensures stack[..|t0.stack|] == t0.stack
      ensures forall b {:trigger t0.KeepsIndex(this, b)} :: t0.KeepsIndex(this, b)
      ensures open == t0.open + {n} && n !in t0.open
      ensures forall b :: b in t0.open ==> b in t0.stack
    {
      assert t0.Push(n).KeepsIndex(this, n) && t0.NodeAt(nodes, n);
      forall b ensures t0.KeepsIndex(this, b) {
        assert t0.Push(n).KeepsIndex(this, b);
      }
      forall b | b in t0.open ensures b in t0.stack {
        assert t0.NodeAt(nodes, b);
      }
    }

    lemma StackDistinct(g: Links, nodes: set<Block>)
      requires Inv(g, nodes)
      ensures forall i, j :: 0 <= i < j < |stack| ==> stack[i] != stack[j]
    {
      forall i, j | 0 <= i < j < |stack| ensures stack[i] != stack[j] {
        assert StackAt(g, nodes, i, j);
      }
    }

    /** Of the nodes from `n` upwards only `n` is open. */
    lemma OnlyOpen(g: Links, nodes: set<Block>, t0: Tarjan, n: Block, lo: int, a: Block)
      requires AtEnd(g, nodes, t0, n, lo) && |t0.stack| <= |stack| && a in stack[|t0.stack|..] && a in open
      ensures a == n
    {
      EndIndexes(g, nodes, t0, n, lo);
      StackDistinct(g, nodes);
      assert stack == t0.stack + stack[|t0.stack|..];
      assert a != n ==> a in t0.stack;
    }

    /** The links from `n` upwards go to visited nodes, and not below `lo`. */
    lemma EndLinks(g: Links, nodes: set<Block>, t0: Tarjan, n: Block, lo: int, a: Block, b: Block)
      requires AtEnd(g, nodes, t0, n, lo) && |t0.stack| <= |stack| && a in stack[|t0.stack|..] && Linked(g, a, b)
      requires LinksInside(g, nodes)
      ensures b in closed || b in stack
      ensures b in stack[..|t0.stack|] ==> b in index && lo <= index[b]
    {
      var p := |t0.stack|;
      assert a in stack && NodeAt(nodes, a) && NodeAt(nodes, b);
      assert LinkAt(g, a, b) && CoverAt(g, p, n, lo, g[n], a, b);
      if a != n && a in open { OnlyOpen(g, nodes, t0, n, lo, a); }
    }

    ghost function Component(p: nat): set<Block>
      requires p <= |stack|
    {
      set x | x in stack[p..]
    }

    lemma ComponentClosed(g: Links, nodes: set<Block>, t0: Tarjan, n: Block, lo: int)
      requires AtEnd(g, nodes, t0, n, lo) && |t0.stack| <= |stack| && n in index && lo == index[n]
      requires LinksInside(g, nodes)
      ensures Closed(g, Component(|t0.stack|) + closed)
      ensures Closed(g, closed)
    {
      var p := |t0.stack|;
      EndIndexes(g, nodes, t0, n, lo);
      forall a, b | a in closed && Linked(g, a, b) ensures b in closed {
        assert LinkAt(g, a, b);
      }
      forall a, b | a in Component(p) && Linked(g, a, b) ensures b in Component(p) + closed {
        EndLinks(g, nodes, t0, n, lo, a, b);
        if b in stack[..p] {
          var i :| 0 <= i < p && stack[i] == b;
          assert StackAt(g, nodes, i, p);
        }
        assert stack == stack[..p] + stack[p..];
      }
    }

    lemma ComponentMeets(g: Links, nodes: set<Block>, t0: Tarjan, n: Block, lo: int, y: Block)
      requires AtEnd(g, nodes, t0, n, lo) && |t0.stack| <= |stack| && n in index && lo == index[n]
      requires LinksInside(g, nodes)
      requires y in Component(|t0.stack|)
      ensures Mutual(g, n, y)
    {
      var p := |t0.stack|;
      EndIndexes(g, nodes, t0, n, lo);
      ComponentClosed(g, nodes, t0, n, lo);
      var j :| p <= j < |stack| && stack[j] == y;
      assert StackAt(g, nodes, p, j);
      assert BackAt(g, y);
      var x :| BackTo(g, y, x);
      assert x in Component(p) + closed;
      assert NodeAt(nodes, x);
      OnlyOpen(g, nodes, t0, n, lo, x);
    }

    lemma ComponentIsScc(g: Links, nodes: set<Block>, t0: Tarjan, n: Block, lo: int)
      requires AtEnd(g, nodes, t0, n, lo) && |t0.stack| <= |stack| && n in index && lo == index[n]
      requires LinksInside(g, nodes)
      ensures IsScc(g, Component(|t0.stack|)) && n in Component(|t0.stack|)
    {
      var p := |t0.stack|;
      var k := Component(p);
      EndIndexes(g, nodes, t0, n, lo);
      ComponentClosed(g, nodes, t0, n, lo);
      assert n in k;
      forall a, b | a in k ensures b in k <==> Mutual(g, a, b) {
        ComponentMeets(g, nodes, t0, n, lo, a);
        if b in k {
          ComponentMeets(g, nodes, t0, n, lo, b);
          LeadsTrans(g, a, n, b);
          LeadsTrans(g, b, n, a);
        } else {
          assert NodeAt(nodes, a);
          assert Mutual(g, a, b) ==> b in k + closed && a in closed;
        }
      }
    }

    /** The stack from place `p` on has been popped, with `n` at its bottom. */
    ghost function Popped(p: nat, n: Block): Tarjan
      requires p <= |stack|
    {
      var k := Component(p);
      this.(stack := stack[..p], open := open - {n}, closed := closed + k,
            found := if |k| >= 2 then found + {k} else found)
    }

    lemma PoppedNode(g: Links, nodes: set<Block>, t0: Tarjan, n: Block, lo: int, b: Block)
      requires AtEnd(g, nodes, t0, n, lo) && |t0.stack| <= |stack| && n in index && lo == index[n]
      ensures Popped(|t0.stack|, n).NodeAt(nodes, b) && Popped(|t0.stack|, n).BackAt(g, b)
    {
      var p := |t0.stack|;
      var t := Popped(p, n);
      EndIndexes(g, nodes, t0, n, lo);
      StackDistinct(g, nodes);
      assert NodeAt(nodes, b);
      assert stack == stack[..p] + stack[p..];
      assert b in stack <==> b in stack[..p] || b in stack[p..];
      if b in stack[..p] {
        assert t0.BackAt(g, b);
        var x :| t0.BackTo(g, b, x);
        assert t0.NodeAt(nodes, b) && t0.NodeAt(nodes, x) && t0.KeepsIndex(this, x) && t0.KeepsIndex(this, b);
        assert t.BackTo(g, b, x);
      }
    }

    lemma PoppedLink(g: Links, nodes: set<Block>, t0: Tarjan, n: Block, lo: int, a: Block, b: Block)
      requires AtEnd(g, nodes, t0, n, lo) && |t0.stack| <= |stack| && n in index && lo == index[n]
      requires LinksInside(g, nodes)
      ensures Popped(|t0.stack|, n).LinkAt(g, a, b)
    {
      var p := |t0.stack|;
      EndIndexes(g, nodes, t0, n, lo);
      ComponentClosed(g, nodes, t0, n, lo);
      assert LinkAt(g, a, b) && NodeAt(nodes, b) && NodeAt(nodes, n);
      assert a in stack[..p] ==> a in stack && a in t0.stack;
      assert t0.NodeAt(nodes, n);
    }

    lemma PoppedFound(g: Links, nodes: set<Block>, t0: Tarjan, n: Block, lo: int, c: set<Block>)
      requires AtEnd(g, nodes, t0, n, lo) && |t0.stack| <= |stack| && n in index && lo == index[n]
      requires LinksInside(g, nodes)
      ensures Popped(|t0.stack|, n).FoundAt(g, c)
    {
      var k := Component(|t0.stack|);
      ComponentIsScc(g, nodes, t0, n, lo);
      assert FoundAt(g, c);
      if IsScc(g, c) && c <= closed + k && !(c <= closed) {
        var a :| a in c && a !in closed;
        SccIsOne(g, c, k, a);
      }
    }

    /** A node whose lowlink is its own index closes its component. */
    lemma PoppedInv(g: Links, nodes: set<Block>, t0: Tarjan, n: Block, lo: int)
      requires AtEnd(g, nodes, t0, n, lo) && |t0.stack| <= |stack| && n in index && lo == index[n]
      requires LinksInside(g, nodes)
      ensures Popped(|t0.stack|, n).Inv(g, nodes) && Popped(|t0.stack|, n).Ended(g, t0, n, lo)
    {
      var p := |t0.stack|;
      var t := Popped(p, n);
      EndIndexes(g, nodes, t0, n, lo);
      forall b ensures t.NodeAt(nodes, b) && t.BackAt(g, b) {
        PoppedNode(g, nodes, t0, n, lo, b);
      }
      forall i, j ensures t.StackAt(g, nodes, i, j) {
        assert StackAt(g, nodes, i, j);
      }
      forall a, b ensures t.LinkAt(g, a, b) {
        PoppedLink(g, nodes, t0, n, lo, a, b);
      }
      forall c ensures t.FoundAt(g, c) {
        PoppedFound(g, nodes, t0, n, lo, c);
      }
      forall b ensures t0.KeepsIndex(t, b) {
        assert t0.KeepsIndex(this, b);
      }
      forall a, y ensures t.OldCoverAt(g, p, lo, a, y) {
      }
      assert t.open == t0.open;
    }

    /** A node that leads below itself stays on the stack. */
    function Left(n: Block): Tarjan {
      this.(open := open - {n})
    }

    lemma LeftInv(g: Links, nodes: set<Block>, t0: Tarjan, n: Block, lo: int)
      requires AtEnd(g, nodes, t0, n, lo) && n in index && lo < index[n]
      requires LinksInside(g, nodes)
      ensures Left(n).Inv(g, nodes) && Left(n).Ended(g, t0, n, lo)
    {
      var p := |t0.stack|;
      var t := Left(n);
      EndIndexes(g, nodes, t0, n, lo);
      forall b ensures t.NodeAt(nodes, b) && t.BackAt(g, b) {
        assert NodeAt(nodes, b);
        LeftBack(g, nodes, t0, n, lo, b);
      }
      forall i, j ensures t.StackAt(g, nodes, i, j) {
        assert StackAt(g, nodes, i, j);
      }
      forall a, b ensures t.LinkAt(g, a, b) {
        assert LinkAt(g, a, b) && NodeAt(nodes, b);
        if a == n && Linked(g, n, b) { EndLinks(g, nodes, t0, n, lo, n, b); }
      }
      forall c ensures t.FoundAt(g, c) {
        assert FoundAt(g, c);
      }
      forall b ensures t0.KeepsIndex(t, b) {
        assert t0.KeepsIndex(this, b);
      }
      forall a, y ensures t.OldCoverAt(g, p, lo, a, y) {
        assert CoverAt(g, p, n, lo, g[n], a, y);
      }
      var z :| Witness(g, n, lo, z);
      assert t.Witness(g, n, lo, z) && NodeAt(nodes, n);
      assert t.open == t0.open;
    }

    lemma LeftBack(g: Links, nodes: set<Block>, t0: Tarjan, n: Block, lo: int, y: Block)
      requires AtEnd(g, nodes, t0, n, lo) && n in index && lo < index[n]
      ensures Left(n).BackAt(g, y)
    {
      var t := Left(n);
      if y in stack {
        assert BackAt(g, y);
        var x :| BackTo(g, y, x);
        if x == n {
          var z :| Witness(g, n, lo, z);
          assert BackAt(g, z);
          var w :| BackTo(g, z, w);
          LeadsTrans(g, y, n, z);
          LeadsTrans(g, y, z, w);
          assert t.BackTo(g, y, w);
        } else {
          assert t.BackTo(g, y, x);
        }
      }
    }

    // ----- a whole search -----

    lemma SearchStarts(g: Links, nodes: set<Block>)
      requires forall b :: b in nodes ==> b in index && index[b] == -1
      requires stack == [] && open == {} && closed == {} && found == {} && count == 0
      ensures Inv(g, nodes)
    {
    }

    lemma VisitedStays(later: Tarjan, nodes: set<Block>)
      requires Grows(later)
      ensures forall b {:trigger later.Visited(b)} :: Visited(b) ==> later.Visited(b)
    {
      forall b | Visited(b) ensures later.Visited(b) {
        assert KeepsIndex(later, b);
      }
    }

    /** With no open node the stack is empty, and all components are found. */
    lemma SearchEnds(g: Links, nodes: set<Block>)
      requires Inv(g, nodes) && open == {} && forall b {:trigger Visited(b)} :: b in nodes ==> Visited(b)
      ensures stack == [] && closed == nodes && AreSccs(g, nodes, found)
    {
      assert stack != [] ==> stack[0] in stack;
      forall y ensures y !in stack {
        assert BackAt(g, y);
      }
      forall b ensures b in closed <==> b in nodes {
        assert NodeAt(nodes, b);
        assert b in nodes ==> Visited(b);
      }
      assert closed == nodes;
      forall c ensures c in found <==> IsScc(g, c) && |c| >= 2 && c <= nodes {
        assert FoundAt(g, c);
      }
    }
  }
}
