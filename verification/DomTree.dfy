/** The partial tree that `idom_` describes while `create_idom` runs: every
    block that already has an immediate-dominator candidate points to it, and
    candidates always have the larger post-order number. */
module DomTrees {
  import opened Graphs

  datatype Tree = Tree(root: Block, id: map<Block, nat>, up: map<Block, Block>)
  {
    ghost predicate Ok() {
      && root in up && root in id && up[root] == root
      && (forall b :: b in up ==> b in id)
      && (forall b :: b in id ==> id[b] <= id[root])
      && (forall b {:trigger LinkAt(b)} :: LinkAt(b))
    }

    ghost predicate LinkAt(b: Block) {
      b in up && b != root ==> up[b] in up && b in id && up[b] in id && id[b] < id[up[b]]
    }

    /** `d` is `b` or an ancestor of `b`. */
    ghost predicate Above(b: Block, d: Block)
      requires Ok() && b in up
      decreases id[root] - id[b]
    {
      d == b || (b != root && assert LinkAt(b); Above(up[b], d))
    }

    lemma {:induction false} AboveId(b: Block, d: Block)
      requires Ok() && b in up && Above(b, d)
      ensures d in up && id[b] <= id[d]
      ensures b != d ==> id[b] < id[d]
      decreases id[root] - id[b]
    {
      assert LinkAt(b);
      if d != b {
        AboveId(up[b], d);
      }
    }

    lemma {:induction false} RootAbove(b: Block)
      requires Ok() && b in up
      ensures Above(b, root)
      decreases id[root] - id[b]
    {
      assert LinkAt(b);
      if b != root {
        RootAbove(up[b]);
      }
    }

    lemma {:induction false} AboveTrans(b: Block, c: Block, d: Block)
      requires Ok() && b in up && Above(b, c) && c in up && Above(c, d)
      ensures Above(b, d)
      decreases id[root] - id[b]
    {
      assert LinkAt(b);
      if b != c {
        AboveTrans(up[b], c, d);
      }
    }

    /** Two ancestors of one block are ancestors of each other, by number. */
    lemma {:induction false} AboveLinear(b: Block, c: Block, d: Block)
      requires Ok() && b in up && Above(b, c) && Above(b, d) && c in up && d in up && id[c] <= id[d]
      ensures Above(c, d)
      decreases id[root] - id[b]
    {
      assert LinkAt(b);
      if b != c {
        if b == d {
          AboveId(b, c);
        } else {
          AboveLinear(up[b], c, d);
        }
      }
    }

    ghost predicate CommonAbove(ps: seq<Block>, d: Block)
      requires Ok()
    {
      forall p :: p in ps && p in up ==> Above(p, d)
    }

    ghost predicate MeetsAt(ps: seq<Block>, n: Block, d: Block)
      requires Ok() && n in up
    {
      Above(n, d) <==> CommonAbove(ps, d)
    }

    /** `n` is the nearest common ancestor of those blocks of `ps` that have a
        candidate: its ancestors are exactly their common ones. */
    ghost predicate IsMeet(ps: seq<Block>, n: Block)
      requires Ok()
    {
      n in up && forall d {:trigger MeetsAt(ps, n, d)} :: MeetsAt(ps, n, d)
    }

    lemma MeetOfOne(b: Block)
      requires Ok() && b in up
      ensures IsMeet([b], b)
    {
    }

    /** Only members that have a candidate matter. */
    lemma MeetOfSameMembers(ps: seq<Block>, qs: seq<Block>, n: Block)
      requires Ok() && IsMeet(ps, n)
      requires forall p :: p in up ==> (p in ps <==> p in qs)
      ensures IsMeet(qs, n)
    {
      forall d ensures MeetsAt(qs, n, d) {
        assert MeetsAt(ps, n, d);
      }
    }

    lemma MeetOneMore(ps: seq<Block>, m: Block, p: Block, n: Block)
      requires Ok() && IsMeet(ps, m) && p in up && IsMeet([p, m], n)
      ensures IsMeet(ps + [p], n)
    {
      forall d ensures MeetsAt(ps + [p], n, d) {
        assert MeetsAt(ps, m, d) && MeetsAt([p, m], n, d);
        assert CommonAbove([p, m], d) <==> Above(p, d) && Above(m, d) by {
          assert p in [p, m] && m in [p, m];
        }
        assert CommonAbove(ps + [p], d) <==> CommonAbove(ps, d) && Above(p, d) by {
          assert p in ps + [p];
          assert forall q :: q in ps ==> q in ps + [p];
        }
      }
    }

    function Set(x: Block, n: Block): Tree {
      this.(up := up[x := n])
    }

    /** `x` may take `n` as its candidate: it has none yet and nothing hangs
        below it, or `n` is above its present candidate. */
    ghost predicate CanRaise(x: Block, n: Block)
      requires Ok()
    {
      && x in id && x != root && n in up && id[x] < id[n] <= id[root]
      && (x in up ==> assert LinkAt(x); Above(up[x], n))
    }
  }

  lemma {:induction false} SetAboveHigher(t: Tree, x: Block, n: Block, b: Block, d: Block)
    requires t.Ok() && t.CanRaise(x, n) && t.Set(x, n).Ok()
    requires b in t.up && t.id[b] > t.id[x]
    ensures t.Set(x, n).Above(b, d) <==> t.Above(b, d)
    decreases t.id[t.root] - t.id[b]
  {
    assert t.LinkAt(b) && t.Set(x, n).LinkAt(b);
    if b != t.root {
      SetAboveHigher(t, x, n, t.up[b], d);
    }
  }

  lemma {:induction false} SetAboveAt(t: Tree, x: Block, n: Block, b: Block, d: Block)
    requires t.Ok() && t.CanRaise(x, n) && t.Set(x, n).Ok() && b in t.up
    ensures t.Set(x, n).Above(b, d) <==>
            t.Above(b, d) && (t.Above(b, x) && d in t.id && t.id[d] > t.id[x] ==> t.Above(n, d))
    decreases t.id[t.root] - t.id[b]
  {
    assert t.LinkAt(b) && t.Set(x, n).LinkAt(b);
    if t.Above(b, d) { t.AboveId(b, d); }
    if t.Above(b, x) { t.AboveId(b, x); }
    if t.Above(n, d) { t.AboveId(n, d); }
    if b == x {
      SetAboveHigher(t, x, n, n, d);
      if t.Above(n, d) { t.AboveTrans(t.up[x], n, d); }
    } else if b != t.root {
      SetAboveAt(t, x, n, t.up[b], d);
      if t.Above(t.up[b], x) && d == b { t.AboveId(t.up[b], x); }
    }
  }

  lemma SetOk(t: Tree, x: Block, n: Block)
    requires t.Ok() && t.CanRaise(x, n)
    ensures t.Set(x, n).Ok()
  {
    forall b ensures t.Set(x, n).LinkAt(b) {
      assert t.LinkAt(b);
    }
  }

  /** Giving `x` a candidate further up only removes ancestors: exactly those
      above `x` that are not above its new candidate. */
  lemma SetAbove(t: Tree, x: Block, n: Block)
    requires t.Ok() && t.CanRaise(x, n)
    ensures t.Set(x, n).Ok()
    ensures forall b, d :: b in t.up ==>
              (t.Set(x, n).Above(b, d) <==>
               t.Above(b, d) && (t.Above(b, x) && d in t.id && t.id[d] > t.id[x] ==> t.Above(n, d)))
    ensures forall d :: t.Set(x, n).Above(x, d) <==> d == x || t.Above(n, d)
  {
    SetOk(t, x, n);
    var s := t.Set(x, n);
    forall b, d | b in t.up
      ensures s.Above(b, d) <==>
              t.Above(b, d) && (t.Above(b, x) && d in t.id && t.id[d] > t.id[x] ==> t.Above(n, d))
    {
      SetAboveAt(t, x, n, b, d);
    }
    forall d ensures s.Above(x, d) <==> d == x || t.Above(n, d) {
      SetAboveHigher(t, x, n, n, d);
    }
  }
}
