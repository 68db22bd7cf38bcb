/** Control-flow graphs: the predecessor and successor lists that every basic
    block keeps, walks over them, and dominance defined by walks from the entry. */
module Graphs {

  datatype Option<T> = None | Some(value: T)

  /** A basic block is known by its address. */
  type Block = nat

  datatype Cfg = Cfg(
    entry: Block,
    blocks: seq<Block>,
    succs: map<Block, seq<Block>>,
    preds: map<Block, seq<Block>>)
  {
    predicate Edge(p: Block, b: Block) {
      p in succs && b in succs[p]
    }

    /** The lists name only blocks of the function, and they mirror each other:
        every branch puts one entry into either list. */
    ghost predicate Wf() {
      && entry in blocks
      && (forall b :: b in succs <==> b in blocks)
      && (forall b :: b in preds <==> b in blocks)
      && (forall p, b {:trigger b in succs[p]} :: p in blocks && b in succs[p] ==> b in blocks)
      && (forall p, b {:trigger p in preds[b]} :: b in blocks && p in preds[b] ==> p in blocks)
      && (forall p, b {:trigger multiset(succs[p])[b]} :: p in blocks && b in blocks ==>
            multiset(succs[p])[b] == multiset(preds[b])[p])
    }

    /** `w` follows edges of the graph. */
    ghost predicate Walk(w: seq<Block>) {
      && w != []
      && forall i :: 0 < i < |w| ==> EdgeAt(w, i)
    }

    predicate EdgeAt(w: seq<Block>, i: int)
      requires 0 < i < |w|
    {
      Edge(w[i - 1], w[i])
    }

    ghost predicate WalkFromTo(w: seq<Block>, a: Block, b: Block) {
      Walk(w) && w[0] == a && w[|w| - 1] == b
    }

    ghost predicate Reaches(a: Block, b: Block) {
      exists w :: WalkFromTo(w, a, b)
    }

    ghost predicate Reachable(b: Block) {
      Reaches(entry, b)
    }

    ghost predicate AllReachable() {
      forall b {:trigger Reachable(b)} :: b in blocks ==> Reachable(b)
    }

    /** `d` lies on every walk from the entry to `b`. */
    ghost predicate Dom(d: Block, b: Block) {
      forall w :: WalkFromTo(w, entry, b) ==> d in w
    }

    ghost predicate StrictlyDom(d: Block, b: Block) {
      d != b && Dom(d, b)
    }

    /** The strict dominator that every other strict dominator dominates. */
    ghost predicate IsImmediateDom(d: Block, b: Block) {
      && StrictlyDom(d, b)
      && forall e :: StrictlyDom(e, b) ==> Dom(e, d)
    }

    lemma EdgesMirror(p: Block, b: Block)
      requires Wf()
      requires b in blocks
      ensures Edge(p, b) <==> p in preds[b]
    {
      if p in blocks {
        assert multiset(succs[p])[b] == multiset(preds[b])[p];
        assert b in succs[p] <==> b in multiset(succs[p]);
        assert p in preds[b] <==> p in multiset(preds[b]);
      }
    }

    lemma SingleWalk(a: Block)
      ensures WalkFromTo([a], a, a) && Reaches(a, a)
    {
      assert WalkFromTo([a], a, a);
    }

    lemma ExtendWalk(w: seq<Block>, a: Block, p: Block, b: Block)
      requires WalkFromTo(w, a, p) && Edge(p, b)
      ensures WalkFromTo(w + [b], a, b) && Reaches(a, b)
    {
      var v := w + [b];
      forall i | 0 < i < |v| ensures EdgeAt(v, i) {
        if i < |w| { assert EdgeAt(w, i); }
      }
    }

    lemma JoinWalks(u: seq<Block>, v: seq<Block>, a: Block, b: Block, c: Block)
      requires WalkFromTo(u, a, b) && WalkFromTo(v, b, c)
      ensures WalkFromTo(u + v[1..], a, c) && Reaches(a, c)
    {
      var w := u + v[1..];
      forall i | 0 < i < |w| ensures EdgeAt(w, i) {
        if i < |u| {
          assert EdgeAt(u, i);
        } else {
          assert EdgeAt(v, i - |u| + 1);
        }
      }
      assert WalkFromTo(w, a, c);
    }

    lemma PrefixWalk(w: seq<Block>, a: Block, b: Block, i: nat)
      requires WalkFromTo(w, a, b) && i < |w|
      ensures WalkFromTo(w[..i + 1], a, w[i]) && Reaches(a, w[i])
    {
      var v := w[..i + 1];
      forall j | 0 < j < |v| ensures EdgeAt(v, j) {
        assert EdgeAt(w, j);
      }
      assert WalkFromTo(v, a, w[i]);
    }

    /** A set that holds the start of a walk and is closed under edges holds
        the end of the walk. */
    lemma {:induction false} WalkStaysInside(w: seq<Block>, a: Block, b: Block, inside: set<Block>)
      requires WalkFromTo(w, a, b) && a in inside
      requires forall p, q :: p in inside && Edge(p, q) ==> q in inside
      ensures b in inside
      decreases |w|
    {
      if |w| > 1 {
        var n := |w| - 2;
        PrefixWalk(w, a, b, n);
        WalkStaysInside(w[..n + 1], a, w[n], inside);
        assert EdgeAt(w, n + 1);
      }
    }

    /** A strict dominator of a block dominates each of its predecessors. */
    lemma DomOfPred(d: Block, p: Block, b: Block)
      requires StrictlyDom(d, b) && Edge(p, b)
      ensures Dom(d, p)
    {
      forall w | WalkFromTo(w, entry, p) ensures d in w {
        ExtendWalk(w, entry, p, b);
        assert d in w + [b];
      }
    }
  }
}
