/** The dominator pass: post-order numbering, iterated immediate dominators,
    dominance frontiers and the dominator tree of one function. */
module DominatorPass {
  import opened Graphs
  import opened DomTrees
  import opened IdomSweeps
  import opened Runners

  /** A depth-first search that is under way: `order` lists the finished blocks,
      `id` gives their places in it, and `first[b]` is the block that `b` was
      first seen from. */
  datatype Dfs = Dfs(order: seq<Block>, id: map<Block, nat>, first: map<Block, Block>, visited: set<Block>)
  {
    ghost predicate Placed(i: nat) {
      i < |order| ==> order[i] in id && id[order[i]] == i
    }

    /** What holds of each visited block. */
    ghost predicate Seen(g: Cfg, b: Block) {
      && b in g.blocks && g.Reachable(b)
      && (b in id ==> id[b] < |order| && order[id[b]] == b && forall c :: g.Edge(b, c) ==> c in visited)
      && (b != g.entry ==>
            && b in first && first[b] in visited && g.Edge(first[b], b)
            && (first[b] in id ==> b in id && id[b] < id[first[b]]))
    }

    /** A way down the search tree, from `w[0]` to the last block of `w`. */
    ghost predicate Line(g: Cfg, w: seq<Block>, a: Block, b: Block) {
      && g.WalkFromTo(w, a, b) && (forall x :: x in w ==> x in visited)
      && forall i {:trigger TreeLink(first, w, i)} :: 0 < i < |w| ==> TreeLink(first, w, i)
    }

    ghost predicate Below(g: Cfg, b: Block, a: Block) {
      exists w :: Line(g, w, a, b)
    }

    /** An edge out of a finished block leads to a lower number, or to a block
        above it in the search tree. */
    ghost predicate Leads(g: Cfg, b: Block, c: Block) {
      b in id && g.Edge(b, c) ==> (c in id && id[c] < id[b]) || Below(g, b, c)
    }

    /** `bb` is the entry, or it has been entered from a block below all open ones. */
    ghost predicate Entered(g: Cfg, bb: Block) {
      || (bb == g.entry && Open() == {})
      || (bb in first && first[bb] in Open() && g.Edge(first[bb], bb)
          && forall o {:trigger Below(g, first[bb], o)} :: o in Open() ==> Below(g, first[bb], o))
    }

    ghost predicate Search(g: Cfg) {
      && id.Keys <= visited
      && (forall b, c {:trigger Leads(g, b, c)} :: Leads(g, b, c))
      && (forall b {:trigger Seen(g, b)} :: b in visited ==> Seen(g, b))
      && (forall i: nat {:trigger Placed(i)} :: Placed(i))
    }

    /** The blocks whose visits have begun and not ended. */
    ghost function Open(): set<Block> {
      visited - id.Keys
    }

    /** `later` continues this search, and ended every visit it began. */
    ghost predicate Grows(later: Dfs) {
      && visited <= later.visited
      && order <= later.order
      && id.Keys <= later.id.Keys
      && (forall b :: b in visited && b in first ==> b in later.first && later.first[b] == first[b])
      && later.Open() == Open()
    }

    lemma GrowsTrans(s: Dfs, u: Dfs)
      requires Grows(s) && s.Grows(u)
      ensures Grows(u)
    {
    }

    lemma StaysBelow(g: Cfg, later: Dfs, b: Block, a: Block)
      requires visited <= later.visited && Below(g, b, a)
      requires forall x :: x in visited && x in first ==> x in later.first && later.first[x] == first[x]
      ensures later.Below(g, b, a)
    {
      var w :| Line(g, w, a, b);
      forall i | 0 < i < |w| ensures TreeLink(later.first, w, i) { assert TreeLink(first, w, i); }
      assert later.Line(g, w, a, b);
    }

    /** No edge loses its way when the search goes on without numbering. */
    lemma StillLeads(g: Cfg, later: Dfs)
      requires Search(g) && visited <= later.visited && id == later.id
      requires forall x :: x in visited && x in first ==> x in later.first && later.first[x] == first[x]
      ensures forall b, c {:trigger later.Leads(g, b, c)} :: later.Leads(g, b, c)
    {
      forall b, c ensures later.Leads(g, b, c) {
        assert Leads(g, b, c);
        if Below(g, b, c) { StaysBelow(g, later, b, c); }
      }
    }

    /** The block just marked is below all open ones. */
    lemma MarkedBelow(g: Cfg, bb: Block, o: Block)
      requires bb !in visited && Entered(g, bb) && (o in Open() || o == bb)
      ensures this.(visited := visited + {bb}).Below(g, bb, o)
    {
      var s := this.(visited := visited + {bb});
      if o == bb {
        g.SingleWalk(bb);
        assert s.Line(g, [bb], bb, bb);
      } else {
        assert Below(g, first[bb], o);
        var w :| Line(g, w, o, first[bb]);
        g.ExtendWalk(w, o, first[bb], bb);
        var w' := w + [bb];
        forall i | 0 < i < |w'| ensures TreeLink(s.first, w', i) {
          if i < |w| { assert TreeLink(first, w, i); }
        }
        assert s.Line(g, w', o, bb);
      }
    }

    /** Marking a block visited. */
    lemma Mark(g: Cfg, bb: Block)
      requires Search(g)
      requires bb in g.blocks && bb !in visited && g.Reachable(bb) && Entered(g, bb)
      ensures var s := this.(visited := visited + {bb});
              s.Search(g) && forall o {:trigger s.Below(g, bb, o)} :: o in s.Open() ==> s.Below(g, bb, o)
    {
      var s := this.(visited := visited + {bb});
      StillLeads(g, s);
      forall o | o in s.Open() ensures s.Below(g, bb, o) { MarkedBelow(g, bb, o); }
      forall b | b in s.visited ensures s.Seen(g, b) {
        if b != bb { assert Seen(g, b); }
      }
      forall i: nat ensures s.Placed(i) { assert Placed(i); }
    }

    /** Recording from where an unvisited block is entered. */
    lemma Enter(g: Cfg, b: Block, bb: Block)
      requires Search(g) && b !in visited
      ensures this.(first := first[b := bb]).Search(g) && Grows(this.(first := first[b := bb]))
    {
      var s := this.(first := first[b := bb]);
      StillLeads(g, s);
      forall c | c in s.visited ensures s.Seen(g, c) {
        assert Seen(g, c);
      }
      forall i: nat ensures s.Placed(i) { assert Placed(i); }
    }

    /** An unvisited successor is entered below all open blocks. */
    lemma EntersBelow(g: Cfg, begun: Dfs, bb: Block, b: Block)
      requires begun.Grows(this) && b !in visited && g.Edge(bb, b) && bb in begun.Open()
      requires forall o {:trigger begun.Below(g, bb, o)} :: o in begun.Open() ==> begun.Below(g, bb, o)
      ensures this.(first := first[b := bb]).Entered(g, b)
    {
      var s := this.(first := first[b := bb]);
      assert s.Open() == begun.Open();
      forall o | o in s.Open() ensures s.Below(g, bb, o) {
        assert begun.Below(g, bb, o);
        begun.StaysBelow(g, s, bb, o);
      }
    }

    function End(bb: Block): Dfs {
      this.(order := order + [bb], id := id[bb := |order|])
    }

    /** Numbering a block all of whose successors have been visited. */
    lemma Finish(g: Cfg, bb: Block)
      requires Search(g) && bb in Open()
      requires forall b :: b in Open() && b != g.entry && b in first ==> first[b] != bb
      requires forall c :: g.Edge(bb, c) ==> c in visited
      requires forall o {:trigger Below(g, bb, o)} :: o in Open() ==> Below(g, bb, o)
      ensures End(bb).Search(g)
    {
      var s := End(bb);
      forall b, c ensures s.Leads(g, b, c) {
        assert Leads(g, b, c);
        if b == bb && g.Edge(b, c) {
          if c in id { assert Seen(g, c); } else { assert c in Open(); }
        }
        if Below(g, b, c) { StaysBelow(g, s, b, c); }
      }
      forall b | b in s.visited ensures s.Seen(g, b) {
        assert Seen(g, b);
      }
      forall i: nat ensures s.Placed(i) {
        assert Placed(i);
        if i < |order| { assert Seen(g, order[i]); }
      }
    }

    /** The visit of `bb`, begun in this search, has ended in `later`. */
    ghost predicate Visited(bb: Block, later: Dfs) {
      && this.Grows(later)
      && bb in later.id && later.order != [] && later.order[|later.order| - 1] == bb
    }

    lemma EndVisit(g: Cfg, bb: Block, later: Dfs)
      requires Search(g) && bb !in visited && Entered(g, bb)
      requires this.(visited := visited + {bb}).Grows(later) && later.Search(g)
      requires forall c :: g.Edge(bb, c) ==> c in later.visited
      ensures later.End(bb).Search(g) && Visited(bb, later.End(bb))
    {
      var begun := this.(visited := visited + {bb});
      assert bb in begun.Open();
      forall b | b in later.Open() && b != g.entry && b in later.first ensures later.first[b] != bb {
        assert b in begun.Open();
        if b != bb { assert Seen(g, b); }
      }
      forall o | o in later.Open() ensures later.Below(g, bb, o) {
        MarkedBelow(g, bb, o);
        begun.StaysBelow(g, later, bb, o);
      }
      later.Finish(g, bb);
      assert begun.Open() == Open() + {bb};
      assert later.End(bb).id.Keys == later.id.Keys + {bb};
      assert later.End(bb).Open() == Open();
    }
  }

  ghost predicate TreeLink(first: map<Block, Block>, w: seq<Block>, i: int) {
    0 < i < |w| ==> w[i] in first && first[w[i]] == w[i - 1]
  }

  /** `w` leads from `a` down the search tree to `b`. */
  ghost predicate OnTree(g: Cfg, first: map<Block, Block>, w: seq<Block>, a: Block, b: Block) {
    g.WalkFromTo(w, a, b) && forall i {:trigger TreeLink(first, w, i)} :: TreeLink(first, w, i)
  }

  ghost predicate LeadsDown(g: Cfg, id: map<Block, nat>, first: map<Block, Block>, a: Block, b: Block) {
    a in id && g.Edge(a, b) ==> b in id && (id[b] < id[a] || exists w :: OnTree(g, first, w, b, a))
  }

  /** The numbers are those of a depth-first search in post-order: an edge leads
      to a lower number, or back to a block above in the search tree. */
  ghost predicate PostOrder(g: Cfg, id: map<Block, nat>, first: map<Block, Block>) {
    forall a, b {:trigger LeadsDown(g, id, first, a, b)} :: LeadsDown(g, id, first, a, b)
  }

  /** In reverse post-order a block comes before all that it leads to, but for
      those that lead back to it; without cycles the list is a topological order. */
  lemma ReverseIsTopological(g: Cfg, rpo: seq<Block>, id: map<Block, nat>, first: map<Block, Block>, i: nat, j: nat)
    requires PostOrder(g, id, first) && Listed(rpo, id)
    requires i <= j < |rpo| && g.Edge(rpo[j], rpo[i])
    ensures g.Reaches(rpo[i], rpo[j])
  {
    assert LeadsDown(g, id, first, rpo[j], rpo[i]);
  }

  /** The list position of each numbered block: highest number first. */
  ghost predicate Listed(rpo: seq<Block>, id: map<Block, nat>) {
    && (forall b :: b in id ==> id[b] < |rpo| && rpo[|rpo| - 1 - id[b]] == b)
    && (forall i :: 0 <= i < |rpo| ==> rpo[i] in id && id[rpo[i]] == |rpo| - 1 - i)
  }

  function Reverse(s: seq<Block>): (r: seq<Block>)
    ensures |r| == |s| && forall i :: 0 <= i < |s| ==> r[i] == s[|s| - 1 - i]
  {
    seq(|s|, i requires 0 <= i < |s| => s[|s| - 1 - i])
  }

  lemma CompleteSearchIsNumbered(g: Cfg, s: Dfs)
    requires g.Wf() && s.Search(g) && s.Open() == {}
    requires s.order != [] && s.order[|s.order| - 1] == g.entry
    ensures Numbered(g, s.id, s.first) && PostOrder(g, s.id, s.first)
  {
    forall a, b | a in s.id && g.Edge(a, b) ensures LeadsDown(g, s.id, s.first, a, b) {
      assert s.Seen(g, a) && s.Leads(g, a, b);
      assert b in s.visited && b !in s.Open();
      assert b in s.id;
      if s.Below(g, a, b) {
        var w :| s.Line(g, w, b, a);
        assert OnTree(g, s.first, w, b, a);
      }
    }
    assert s.Placed(|s.order| - 1);
    forall b | b in s.visited ensures b in s.id && s.Seen(g, b) {
      assert b !in s.Open();
      assert s.Seen(g, b);
    }
    forall b | g.Reachable(b) ensures b in s.id {
      var w :| g.WalkFromTo(w, g.entry, b);
      g.WalkStaysInside(w, g.entry, b, s.visited);
    }
  }

  lemma SearchIsListed(g: Cfg, s: Dfs)
    requires s.Search(g)
    ensures Listed(Reverse(s.order), s.id)
  {
    forall b | b in s.id ensures s.id[b] < |s.order| && s.order[s.id[b]] == b {
      assert s.Seen(g, b);
    }
    forall i | 0 <= i < |s.order| ensures s.order[i] in s.id && s.id[s.order[i]] == i {
      assert s.Placed(i);
    }
  }

  ghost predicate Has(m: map<Block, set<Block>>, x: Block, y: Block) {
    x in m && y in m[x]
  }

  ghost predicate FrontiersExact(g: Cfg, frontier: map<Block, set<Block>>)
    requires g.Wf()
  {
    forall x, y {:trigger Has(frontier, x, y)} :: Has(frontier, x, y) <==> y in g.blocks && InFrontier(g, x, y)
  }

  /** The frontiers of reached blocks, and what the loops leave at others. */
  ghost predicate FrontiersFound(g: Cfg, frontier: map<Block, set<Block>>)
    requires g.Wf()
  {
    forall x, y {:trigger Has(frontier, x, y)} :: Has(frontier, x, y) <==> y in g.blocks && IsFound(g, x, y)
  }

  lemma FoundIsExact(g: Cfg, frontier: map<Block, set<Block>>)
    requires g.Wf() && g.AllReachable() && FrontiersFound(g, frontier)
    ensures FrontiersExact(g, frontier)
  {
    forall x, y ensures Has(frontier, x, y) <==> y in g.blocks && InFrontier(g, x, y) {
      if y in g.blocks { assert g.Reachable(y); }
    }
  }

  /** A block that is not reached has no immediate dominator. */
  ghost predicate TreeSuccsExact(g: Cfg, succ: map<Block, set<Block>>) {
    forall b, c {:trigger Has(succ, b, c)} :: Has(succ, b, c) <==> c in g.blocks && g.Reachable(c) && g.IsImmediateDom(b, c)
  }

  ghost predicate Children(blocks: seq<Block>, idom: map<Block, Block>, succ: map<Block, set<Block>>) {
    forall b, c {:trigger Has(succ, b, c)} :: Has(succ, b, c) <==> c in blocks && c != b && c in idom && idom[c] == b
  }

  class Dominators {
    var reversePostOrder: seq<Block>
    var postOrderId: map<Block, nat>
    /** A block without an entry has the null pointer. */
    var idom: map<Block, Block>
    var domFrontier: map<Block, set<Block>>
    var domTreeSucc: map<Block, set<Block>>
    /** The blocks that are recorded as children of the null pointer. */
    var nullSucc: set<Block>
    ghost var first: map<Block, Block>

    constructor ()
      ensures idom == map[] && domFrontier == map[] && domTreeSucc == map[] && nullSucc == {}
    {
      reversePostOrder, postOrderId, first := [], map[], map[];
      idom, domFrontier, domTreeSucc, nullSucc := map[], map[], map[], {};
    }

    ghost function TreeOf(g: Cfg): Tree
      reads this`postOrderId, this`idom
    {
      Tree(g.entry, postOrderId, idom)
    }

    ghost function Progress(visited: set<Block>): Dfs
      reads this`reversePostOrder, this`postOrderId, this`first
    {
      Dfs(reversePostOrder, postOrderId, first, visited)
    }

    method CreateReversePostOrder(g: Cfg)
      requires g.Wf()
      modifies this`reversePostOrder, this`postOrderId, this`first
      ensures Numbered(g, postOrderId, first) && Listed(reversePostOrder, postOrderId)
      ensures PostOrder(g, postOrderId, first)
    {
      reversePostOrder, postOrderId, first := [], map[], map[];
      g.SingleWalk(g.entry);
      var visited := PostOrderVisit(g, g.entry, {});
      CompleteSearchIsNumbered(g, Progress(visited));
      SearchIsListed(g, Progress(visited));
      reversePostOrder := Reverse(reversePostOrder);
    }

    method PostOrderVisit(g: Cfg, bb: Block, visited: set<Block>) returns (visited': set<Block>)
      requires g.Wf() && Progress(visited).Search(g)
      requires bb in g.blocks && bb !in visited && g.Reachable(bb) && Progress(visited).Entered(g, bb)
      modifies this`reversePostOrder, this`postOrderId, this`first
      ensures Progress(visited').Search(g)
      ensures old(Progress(visited)).Visited(bb, Progress(visited'))
      decreases (set b | b in g.blocks) - visited
    {
      ghost var start := Progress(visited);
      start.Mark(g, bb);
      visited' := visited + {bb};
      ghost var begun := Progress(visited');
      var succs := g.succs[bb];
      var i := 0;
      while i < |succs|
        invariant 0 <= i <= |succs|
        invariant Progress(visited').Search(g)
        invariant begun.Grows(Progress(visited'))
        invariant forall j :: 0 <= j < i ==> succs[j] in visited'
      {
        var b := succs[i];
        if b !in visited' {
          ghost var before := Progress(visited');
          before.Enter(g, b, bb);
          first := first[b := bb];
          ghost var entered := Progress(visited');
          assert g.Edge(bb, b);
          ghost var w :| g.WalkFromTo(w, g.entry, bb);
          g.ExtendWalk(w, g.entry, bb, b);
          before.EntersBelow(g, begun, bb, b);
          visited' := PostOrderVisit(g, b, visited');
          before.GrowsTrans(entered, Progress(visited'));
          begun.GrowsTrans(before, Progress(visited'));
        }
        i := i + 1;
      }
      start.EndVisit(g, bb, Progress(visited'));
      postOrderId := postOrderId[bb := |reversePostOrder|];
      reversePostOrder := reversePostOrder + [bb];
    }

    /** The nearest common ancestor of two blocks of the present tree. */
    method Intersect(g: Cfg, c1: Block, c2: Block) returns (r: Block)
      requires TreeOf(g).Ok() && Listed(reversePostOrder, postOrderId)
      requires c1 in idom && c2 in idom
      ensures TreeOf(g).IsMeet([c1, c2], r)
    {
      ghost var t := TreeOf(g);
      var b1, b2 := c1, c2;
      while b1 != b2
        invariant b1 in idom && b2 in idom
        invariant SameCommon(t, b1, b2, c1, c2)
        decreases 2 * t.id[t.root] - t.id[b1] - t.id[b2]
      {
        DifferentIds(reversePostOrder, postOrderId, b1, b2);
        ghost var m1, m2 := b1, b2;
        while postOrderId[b1] < postOrderId[b2]
          invariant b1 in idom && t.id[m1] <= t.id[b1]
          invariant SameCommon(t, b1, b2, c1, c2)
          decreases t.id[t.root] - t.id[b1]
        {
          LowerMovesUp(t, b1, b2, c1, c2);
          b1 := idom[b1];
        }
        while postOrderId[b2] < postOrderId[b1]
          invariant b2 in idom && t.id[m2] <= t.id[b2]
          invariant t.id[m1] < t.id[m2] || t.id[m2] < t.id[b2] || t.id[b2] < t.id[b1]
          invariant SameCommon(t, b1, b2, c1, c2)
          decreases t.id[t.root] - t.id[b2]
        {
          SwapCommon(t, b1, b2, c1, c2);
          LowerMovesUp(t, b2, b1, c1, c2);
          b2 := idom[b2];
          SwapCommon(t, b2, b1, c1, c2);
        }
      }
      r := b1;
      SameIsMeet(t, r, c1, c2);
    }

    /** The candidate that a sweep computes for `bb`. */
    method NewIdom(g: Cfg, bb: Block) returns (newIdom: Block)
      requires bb in g.preds && TreeOf(g).Ok() && Listed(reversePostOrder, postOrderId)
      requires exists p :: p in g.preds[bb] && p in idom
      ensures TreeOf(g).IsMeet(g.preds[bb], newIdom)
    {
      ghost var t := TreeOf(g);
      var preds := g.preds[bb];
      var k := 0;
      while preds[k] !in idom
        invariant 0 <= k < |preds|
        invariant exists i :: k <= i < |preds| && preds[i] in idom
        decreases |preds| - k
      {
        k := k + 1;
      }
      var pred := preds[k];

      newIdom := pred;
      t.MeetOfOne(pred);
      assert [pred] + preds[..0] == [pred];
      var i := 0;
      while i < |preds|
        invariant 0 <= i <= |preds|
        invariant t.IsMeet([pred] + preds[..i], newIdom)
      {
        var p := preds[i];
        ghost var ps := [pred] + preds[..i];
        assert [pred] + preds[..i + 1] == ps + [p];
        if p != pred && p in idom {
          ghost var m := newIdom;
          newIdom := Intersect(g, p, newIdom);
          t.MeetOneMore(ps, m, p, newIdom);
        } else {
          t.MeetOfSameMembers(ps, ps + [p], newIdom);
        }
        i := i + 1;
      }
      assert preds[..i] == preds;
      t.MeetOfSameMembers([pred] + preds, preds, newIdom);
    }

    /** One block of a sweep: the loop body of `create_idom`. */
    method UpdateIdom(g: Cfg, bb: Block, ghost lo: int, ghost seen: int) returns (changed: bool)
      requires Sweep(g, first, TreeOf(g), lo, seen) && Listed(reversePostOrder, postOrderId)
      requires 0 < lo <= |reversePostOrder| && bb == reversePostOrder[|reversePostOrder| - lo] && bb != g.entry
      modifies this`idom
      ensures Sweep(g, first, TreeOf(g), lo - 1, SeenAfter(lo, seen))
      ensures changed ==> Slack(TreeOf(g), reversePostOrder) < old(Slack(TreeOf(g), reversePostOrder))
      ensures !changed ==> idom == old(idom) && bb in idom && bb in g.preds && TreeOf(g).IsMeet(g.preds[bb], idom[bb])
    {
      ghost var t := TreeOf(g);
      FirstIsPred(g, first, t, seen, bb);
      var newIdom := NewIdom(g, bb);
      StepKeepsSweep(g, first, t, lo, seen, bb, newIdom);
      if bb !in idom || idom[bb] != newIdom {
        ChangeUsesSlack(t, reversePostOrder, bb, newIdom);
        idom := idom[bb := newIdom];
        changed := true;
      } else {
        assert t.Set(bb, newIdom) == t;
        changed := false;
      }
    }

    method SweepBlock(g: Cfg, bb: Block, ghost lo: int, ghost seen: int) returns (changed: bool, ghost seen': int)
      requires Sweep(g, first, TreeOf(g), lo, seen) && Listed(reversePostOrder, postOrderId)
      requires 0 < lo <= |reversePostOrder| && bb == reversePostOrder[|reversePostOrder| - lo]
      requires postOrderId[g.entry] == |reversePostOrder| - 1
      modifies this`idom
      ensures Sweep(g, first, TreeOf(g), lo - 1, seen')
      ensures changed ==> Slack(TreeOf(g), reversePostOrder) < old(Slack(TreeOf(g), reversePostOrder))
      ensures !changed ==> idom == old(idom)
      ensures !changed && Stable(g, TreeOf(g), lo) ==> Stable(g, TreeOf(g), lo - 1)
    {
      changed, seen' := false, seen;
      if bb == g.entry {
        EntryIsSkipped(g, first, TreeOf(g), seen);
      } else {
        changed := UpdateIdom(g, bb, lo, seen);
        seen' := SeenAfter(lo, seen);
      }
      if !changed && Stable(g, TreeOf(g), lo) {
        NumberedBelow(g, reversePostOrder, postOrderId, first, lo, bb);
        StableStep(g, TreeOf(g), lo, bb);
      }
    }

    /** One sweep over all blocks in reverse post-order. */
    method SweepBlocks(g: Cfg, ghost start: int) returns (changed: bool, ghost seen: int)
      requires Sweep(g, first, TreeOf(g), |reversePostOrder|, start) && Listed(reversePostOrder, postOrderId)
      requires postOrderId[g.entry] == |reversePostOrder| - 1
      modifies this`idom
      ensures Sweep(g, first, TreeOf(g), 0, seen)
      ensures changed ==> Slack(TreeOf(g), reversePostOrder) < old(Slack(TreeOf(g), reversePostOrder))
      ensures !changed ==> Slack(TreeOf(g), reversePostOrder) == old(Slack(TreeOf(g), reversePostOrder))
      ensures !changed ==> Stable(g, TreeOf(g), 0)
    {
      changed, seen := false, start;
      ghost var lo := |reversePostOrder|;
      StableStarts(g, TreeOf(g));
      var i := 0;
      while i < |reversePostOrder|
        invariant 0 <= i <= |reversePostOrder| && lo == |reversePostOrder| - i
        invariant Sweep(g, first, TreeOf(g), lo, seen)
        invariant changed ==> Slack(TreeOf(g), reversePostOrder) < old(Slack(TreeOf(g), reversePostOrder))
        invariant !changed ==> idom == old(idom) && Stable(g, TreeOf(g), lo)
      {
        var c;
        c, seen := SweepBlock(g, reversePostOrder[i], lo, seen);
        changed := changed || c;
        lo := lo - 1;
        i := i + 1;
      }
    }

    /** Whatever idoms the blocks had before are forgotten first. */
    method CreateIdom(g: Cfg)
      requires g.Wf() && Numbered(g, postOrderId, first) && Listed(reversePostOrder, postOrderId)
      requires forall b :: b in idom ==> b in g.blocks
      modifies this`idom
      ensures IsDomTree(g, TreeOf(g))
    {
      for i := 0 to |g.blocks|
        invariant forall b :: b in idom ==> b in g.blocks[i..]
      {
        idom := idom - {g.blocks[i]};
      }
      assert idom == map[];
      var root := g.entry;
      idom := idom[root := root];
      EntryIsFirst(g, reversePostOrder, postOrderId, first);
      FirstSweepStarts(g, first, postOrderId);

      ghost var seen := |reversePostOrder| - 1;
      var changed := true;
      while changed
        invariant Sweep(g, first, TreeOf(g), if changed then |reversePostOrder| else 0, seen)
        invariant !changed ==> Stable(g, TreeOf(g), 0)
        decreases Slack(TreeOf(g), reversePostOrder), changed
      {
        changed, seen := SweepBlocks(g, seen);
        NextSweepStarts(g, first, TreeOf(g), |reversePostOrder|, seen);
      }
      StableIsDomTree(g, first, TreeOf(g), seen);
    }

    /** The runner loop for one predecessor. */
    method RunUp(g: Cfg, p: Block, bb: Block)
      requires IsDomTree(g, TreeOf(g)) && (p in idom <==> bb in idom) && bb != g.entry && g.Edge(p, bb)
      requires p in domFrontier && forall b :: b in idom ==> b in domFrontier
      modifies this`domFrontier
      ensures domFrontier.Keys == old(domFrontier.Keys)
      ensures forall x, y :: Has(domFrontier, x, y) <==> Has(old(domFrontier), x, y) || (y == bb && RunnerPasses(TreeOf(g), p, x, bb))
    {
      ghost var t := TreeOf(g);
      if bb in idom { ParentAbovePred(g, t, p, bb); }
      var runner := Some(p);
      while runner != IdomOf(idom, bb)
        invariant domFrontier.Keys == old(domFrontier.Keys)
        invariant bb in idom ==> UnderWay(t, runner, p, bb)
        invariant bb !in idom ==> runner == Some(p) || runner == None
        invariant forall x, y :: Has(domFrontier, x, y) <==>
          Has(old(domFrontier), x, y) || (y == bb && RunnerPasses(t, p, x, bb) && !Ahead(t, runner, x, bb))
        decreases if bb in idom then t.id[t.root] - t.id[runner.value] else if runner.Some? then 1 else 0
      {
        if bb in idom { OneRunnerStep(t, p, runner.value, bb); }
        domFrontier := domFrontier[runner.value := domFrontier[runner.value] + {bb}];
        runner := IdomOf(idom, runner.value);
      }
      forall x | Ahead(t, runner, x, bb) ensures !RunnerPasses(t, p, x, bb) {
        if bb in idom { t.AboveId(runner.value, x); }
      }
    }

    /** The frontiers that `bb` belongs to: the loop body of
        `create_dominance_frontier`. */
    method JoinFrontiers(g: Cfg, bb: Block)
      requires IsDomTree(g, TreeOf(g)) && bb in g.blocks && g.preds[g.entry] == [] && JoinsReached(g)
      requires forall b :: b in g.blocks || b in idom ==> b in domFrontier
      modifies this`domFrontier
      ensures domFrontier.Keys == old(domFrontier.Keys)
      ensures forall x, y :: Has(domFrontier, x, y) <==> Has(old(domFrontier), x, y) || (y == bb && IsFound(g, x, bb))
    {
      ghost var t := TreeOf(g);
      var preds := g.preds[bb];
      if |preds| >= 2 {
        forall p | p in preds ensures g.Edge(p, bb) && (p in t.up <==> bb in t.up) { SameSide(g, t, p, bb); }
        var i := 0;
        while i < |preds|
          invariant 0 <= i <= |preds|
          invariant domFrontier.Keys == old(domFrontier.Keys)
          invariant forall x, y :: Has(domFrontier, x, y) <==>
            Has(old(domFrontier), x, y) || (y == bb && exists k :: 0 <= k < i && RunnerPasses(t, preds[k], x, bb))
        {
          assert preds[i] in preds;
          RunUp(g, preds[i], bb);
          i := i + 1;
        }
      }
      forall x ensures IsFound(g, x, bb) <==>
                       |preds| >= 2 && exists k :: 0 <= k < |preds| && RunnerPasses(t, preds[k], x, bb)
      {
        FoundByRunners(g, t, x, bb);
      }
    }

    /** The loops end where no reached join has an unreached predecessor: there
        all runners come to their ends. */
    method CreateDominanceFrontier(g: Cfg)
      requires IsDomTree(g, TreeOf(g)) && g.preds[g.entry] == [] && RunnersEnd(g, idom)
      requires forall b :: b in g.blocks || b in idom ==> b in domFrontier
      requires forall x, y :: !Has(domFrontier, x, y)
      modifies this`domFrontier
      ensures domFrontier.Keys == old(domFrontier.Keys)
      ensures FrontiersFound(g, domFrontier)
    {
      RunnersEndIff(g, TreeOf(g));
      var i := 0;
      while i < |g.blocks|
        invariant 0 <= i <= |g.blocks|
        invariant domFrontier.Keys == old(domFrontier.Keys)
        invariant forall x, y :: Has(domFrontier, x, y) <==> y in g.blocks[..i] && IsFound(g, x, y)
      {
        JoinFrontiers(g, g.blocks[i]);
        assert g.blocks[..i + 1] == g.blocks[..i] + [g.blocks[i]];
        i := i + 1;
      }
      assert g.blocks[..i] == g.blocks;
    }

    /** A block without an immediate dominator goes to the children of null. */
    method CreateDomTreeSucc(g: Cfg)
      requires TreeOf(g).Ok() && forall b :: b in idom ==> b in domTreeSucc
      requires nullSucc == {} && forall b, c :: !Has(domTreeSucc, b, c)
      modifies this`domTreeSucc, this`nullSucc
      ensures domTreeSucc.Keys == old(domTreeSucc.Keys)
      ensures Children(g.blocks, idom, domTreeSucc)
      ensures forall b :: b in nullSucc <==> b in g.blocks && b !in idom
    {
      var i := 0;
      while i < |g.blocks|
        invariant 0 <= i <= |g.blocks|
        invariant domTreeSucc.Keys == old(domTreeSucc.Keys)
        invariant Children(g.blocks[..i], idom, domTreeSucc)
        invariant forall b :: b in nullSucc <==> b in g.blocks[..i] && b !in idom
      {
        var bb := g.blocks[i];
        assert g.blocks[..i + 1] == g.blocks[..i] + [bb];
        assert TreeOf(g).LinkAt(bb);
        ghost var before := domTreeSucc;
        match IdomOf(idom, bb) {
          case None =>
            nullSucc := nullSucc + {bb};
          case Some(parent) =>
            if parent != bb {
              domTreeSucc := domTreeSucc[parent := domTreeSucc[parent] + {bb}];
            }
            forall b, c ensures Has(domTreeSucc, b, c) <==> Has(before, b, c) || (c == bb && parent != bb && b == parent) {
            }
        }
        i := i + 1;
      }
      assert g.blocks[..i] == g.blocks;
    }

    /** Empty entries for the blocks of a function. */
    method InitMaps(g: Cfg)
      requires domFrontier == map[] && domTreeSucc == map[]
      modifies this`domFrontier, this`domTreeSucc
      ensures forall b :: b in g.blocks ==> b in domFrontier && b in domTreeSucc
      ensures forall b {:trigger domFrontier[b]} :: b in domFrontier ==> domFrontier[b] == {}
      ensures forall b {:trigger domTreeSucc[b]} :: b in domTreeSucc ==> domTreeSucc[b] == {}
    {
      for i := 0 to |g.blocks|
        invariant forall b {:trigger domFrontier[b]} :: b in domFrontier ==> domFrontier[b] == {}
        invariant forall b {:trigger domTreeSucc[b]} :: b in domTreeSucc ==> domTreeSucc[b] == {}
        invariant forall k :: 0 <= k < i ==> g.blocks[k] in domFrontier && g.blocks[k] in domTreeSucc
      {
        domFrontier := domFrontier[g.blocks[i] := {}];
        domTreeSucc := domTreeSucc[g.blocks[i] := {}];
      }
    }

    /** The whole pass over one function. */
    method Run(g: Cfg)
      requires g.Wf() && g.preds[g.entry] == [] && JoinsReached(g)
      requires (forall b :: b in idom ==> b in g.blocks) && domFrontier == map[] && domTreeSucc == map[] && nullSucc == {}
      modifies this
      ensures IsDomTree(g, TreeOf(g)) && Listed(reversePostOrder, postOrderId)
      ensures FrontiersFound(g, domFrontier)
      ensures TreeSuccsExact(g, domTreeSucc) && forall b :: b in nullSucc <==> b in g.blocks && !g.Reachable(b)
    {
      InitMaps(g);
      CreateReversePostOrder(g);
      CreateIdom(g);
      TreeInBlocks(g, TreeOf(g));
      RunnersEndIff(g, TreeOf(g));
      CreateDominanceFrontier(g);
      CreateDomTreeSucc(g);
      SuccsAreImmediate(g, TreeOf(g), domTreeSucc);
      forall b ensures b in nullSucc <==> b in g.blocks && !g.Reachable(b) {
        assert g.Reachable(b) <==> b in idom;
      }
    }
  }

  /** Where a runner is that has not yet come to the immediate dominator. */
  ghost predicate UnderWay(t: Tree, runner: Option<Block>, p: Block, b: Block)
    requires t.Ok() && p in t.up && b in t.up
  {
    && runner.Some? && runner.value in t.up && t.LinkAt(b) && t.Above(runner.value, t.up[b])
    && forall x :: t.Above(runner.value, x) ==> t.Above(p, x)
  }

  /** What it has still to pass. */
  ghost predicate Ahead(t: Tree, runner: Option<Block>, x: Block, b: Block)
    requires t.Ok()
  {
    runner.Some? && if runner.value in t.up then t.Above(runner.value, x) else x == runner.value
  }

  lemma TreeInBlocks(g: Cfg, t: Tree)
    requires IsDomTree(g, t)
    ensures forall b :: b in t.up ==> b in g.blocks
  {
    forall b | b in t.up ensures b in g.blocks {
      assert g.Reachable(b);
      var w :| g.WalkFromTo(w, g.entry, b);
      g.WalkStaysInside(w, g.entry, b, set x | x in g.blocks);
    }
  }

  lemma SuccsAreImmediate(g: Cfg, t: Tree, succ: map<Block, set<Block>>)
    requires IsDomTree(g, t) && Children(g.blocks, t.up, succ)
    ensures TreeSuccsExact(g, succ)
  {
    forall b, c ensures Has(succ, b, c) <==> c in g.blocks && g.Reachable(c) && g.IsImmediateDom(b, c) {
      assert g.Reachable(c) <==> c in t.up;
      if c in t.up {
        assert t.LinkAt(c);
        ParentIffImmediateDom(g, t, b, c);
      }
    }
  }

  lemma NumberedBelow(g: Cfg, rpo: seq<Block>, id: map<Block, nat>, first: map<Block, Block>, lo: int, bb: Block)
    requires g.Wf() && Numbered(g, id, first) && Listed(rpo, id)
    requires 0 < lo <= |rpo| && bb == rpo[|rpo| - lo]
    ensures bb in id && bb in g.preds && id[bb] == lo - 1
    ensures forall b :: b in id ==> (id[b] == lo - 1 <==> b == bb)
  {
    assert NumberedAt(g, id, first, bb);
  }

  ghost predicate CommonAt(t: Tree, b1: Block, b2: Block, c1: Block, c2: Block, d: Block)
    requires t.Ok() && b1 in t.up && b2 in t.up && c1 in t.up && c2 in t.up
  {
    t.Above(b1, d) && t.Above(b2, d) <==> t.Above(c1, d) && t.Above(c2, d)
  }

  /** The two pairs have the same common ancestors. */
  ghost predicate SameCommon(t: Tree, b1: Block, b2: Block, c1: Block, c2: Block)
    requires t.Ok() && b1 in t.up && b2 in t.up && c1 in t.up && c2 in t.up
  {
    forall d {:trigger CommonAt(t, b1, b2, c1, c2, d)} :: CommonAt(t, b1, b2, c1, c2, d)
  }

  lemma SwapCommon(t: Tree, b1: Block, b2: Block, c1: Block, c2: Block)
    requires t.Ok() && b1 in t.up && b2 in t.up && c1 in t.up && c2 in t.up
    requires SameCommon(t, b1, b2, c1, c2)
    ensures SameCommon(t, b2, b1, c1, c2)
  {
    forall d ensures CommonAt(t, b2, b1, c1, c2, d) {
      assert CommonAt(t, b1, b2, c1, c2, d);
    }
  }

  /** The block with the lower number is no ancestor of the other. */
  lemma LowerMovesUp(t: Tree, low: Block, high: Block, c1: Block, c2: Block)
    requires t.Ok() && low in t.up && high in t.up && t.id[low] < t.id[high] && c1 in t.up && c2 in t.up
    requires SameCommon(t, low, high, c1, c2)
    ensures low != t.root && t.up[low] in t.up && t.id[low] < t.id[t.up[low]]
    ensures SameCommon(t, t.up[low], high, c1, c2)
  {
    assert t.LinkAt(low);
    if t.Above(high, low) { t.AboveId(high, low); }
    forall d ensures CommonAt(t, t.up[low], high, c1, c2, d) {
      assert CommonAt(t, low, high, c1, c2, d);
    }
  }

  lemma SameIsMeet(t: Tree, r: Block, c1: Block, c2: Block)
    requires t.Ok() && r in t.up && c1 in t.up && c2 in t.up
    requires SameCommon(t, r, r, c1, c2)
    ensures t.IsMeet([c1, c2], r)
  {
    forall d ensures t.MeetsAt([c1, c2], r, d) {
      assert CommonAt(t, r, r, c1, c2, d);
      assert c1 in [c1, c2] && c2 in [c1, c2];
    }
  }

  lemma DifferentIds(rpo: seq<Block>, id: map<Block, nat>, a: Block, b: Block)
    requires Listed(rpo, id) && a in id && b in id && a != b
    ensures id[a] != id[b]
  {
  }

  lemma EntryIsFirst(g: Cfg, rpo: seq<Block>, id: map<Block, nat>, first: map<Block, Block>)
    requires g.Wf() && Numbered(g, id, first) && Listed(rpo, id)
    ensures |rpo| > 0 && rpo[0] == g.entry && id[g.entry] == |rpo| - 1
    ensures forall b :: b in id && b != g.entry ==> id[b] < id[g.entry]
  {
    assert NumberedAt(g, id, first, rpo[0]);
    forall b | b in id && b != g.entry ensures id[b] < id[g.entry] {
      assert NumberedAt(g, id, first, b);
    }
  }

  /** Passing `runner` on the way up: it is below the immediate dominator of
      `bb`, and nothing else leaves the part still ahead. */
  lemma OneRunnerStep(t: Tree, p: Block, runner: Block, bb: Block)
    requires t.Ok() && p in t.up && runner in t.up && bb in t.up && t.Above(p, runner)
    requires t.Above(runner, t.up[bb]) && runner != t.up[bb]
    ensures runner != t.root && t.up[runner] in t.up && t.id[runner] < t.id[t.up[runner]]
    ensures t.Above(t.up[runner], t.up[bb])
    ensures Passed(t, p, runner, bb)
    ensures forall x :: t.Above(runner, x) <==> x == runner || t.Above(t.up[runner], x)
    ensures !t.Above(t.up[runner], runner)
  {
    assert t.LinkAt(runner) && t.LinkAt(bb);
    t.AboveId(runner, t.up[bb]);
    t.RootAbove(runner);
    t.RootAbove(t.up[bb]);
    if t.Above(t.up[runner], runner) { t.AboveId(t.up[runner], runner); }
  }
}
