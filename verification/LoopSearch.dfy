/** Loop search: strongly connected components of the control-flow graph, one
    base taken out of each, and the search repeated for the inner loops. */
module LoopSearchPass {
  import opened Graphs
  import opened LoopGraphs
  import opened Tarjans
  import opened Knots
  import opened LoopRounds

  class LoopSearch {
    var succs: Links
    var prevs: Links
    var index: map<Block, int>
    var lowlink: map<Block, int>
    var onStack: set<Block>
    var indexCount: int
    var stack: seq<Block>
    ghost var open: set<Block>
    ghost var closed: set<Block>
    var loopSet: set<set<Block>>
    var base2loop: map<Block, set<Block>>
    var loop2base: map<set<Block>, Block>
    var bb2base: map<Block, Block>
    /** The reported loops, in order. */
    ghost var loops: seq<Loop>

    constructor ()
      ensures loopSet == {} && base2loop == map[] && loop2base == map[] && bb2base == map[] && loops == []
    {
      succs, prevs, index, lowlink := map[], map[], map[], map[];
      onStack, indexCount, stack, open, closed := {}, 0, [], {}, {};
      loopSet, base2loop, loop2base, bb2base, loops := {}, map[], map[], map[], [];
    }

    ghost function View(found: set<set<Block>>): Tarjan
      reads this`index, this`stack, this`open, this`closed, this`indexCount
    {
      Tarjan(index, stack, open, closed, found, indexCount)
    }

    /** The search agrees with the marks on the nodes, and its links stay among
        the nodes. */
    ghost predicate Marked(nodes: set<Block>)
      reads this`onStack, this`stack, this`succs, this`lowlink, this`index
    {
      && (forall b :: b in onStack <==> b in stack)
      && (forall b :: b in nodes ==> b in succs && b in index && b in lowlink)
      && LinksInside(succs, nodes)
    }

    /** Finds the components of two or more nodes, from nodes that carry no
        marks, in whatever order the nodes are taken. */
    method StronglyConnectedComponents(nodes: set<Block>) returns (result: set<set<Block>>)
      requires Unmarked(nodes) && Linkable(succs, nodes)
      modifies this`index, this`lowlink, this`onStack, this`indexCount, this`stack, this`open, this`closed
      ensures AreSccs(succs, nodes, result) && stack == [] && onStack == {}
    {
      indexCount, stack, result := 0, [], {};
      open, closed := {}, {};
      View(result).SearchStarts(succs, nodes);
      var rest := nodes;
      while rest != {}
        invariant rest <= nodes && open == {}
        invariant Marked(nodes) && View(result).Inv(succs, nodes)
        invariant forall b {:trigger View(result).Visited(b)} :: b in nodes - rest ==> View(result).Visited(b)
        decreases rest
      {
        var n :| n in rest;
        ghost var t := View(result);
        assert t.NodeAt(nodes, n);
        if index[n] == -1 {
          result := Traverse(n, result, nodes);
          t.VisitedStays(View(result), nodes);
        }
        rest := rest - {n};
      }
      View(result).SearchEnds(succs, nodes);
    }

    /** The visit of `n`, begun in `t0`, has followed the links to `seen`. */
    ghost predicate Going(t0: Tarjan, found: set<set<Block>>, nodes: set<Block>, n: Block, seen: set<Block>)
      reads this
    {
      && Marked(nodes) && View(found).Inv(succs, nodes) && n in nodes && !t0.Visited(n) && 0 <= t0.count
      && t0.Push(n).Grows(View(found))
      && View(found).Low(succs, |t0.stack|, n, lowlink[n], seen)
    }

    /** Visits `n` and everything that has not been visited before and that `n`
        leads to. */
    method Traverse(n: Block, found0: set<set<Block>>, ghost nodes: set<Block>) returns (found: set<set<Block>>)
      requires Marked(nodes) && View(found0).Inv(succs, nodes)
      requires n in nodes && !View(found0).Visited(n)
      requires AllLeadTo(succs, open, n)
      modifies this`index, this`lowlink, this`onStack, this`indexCount, this`stack, this`open, this`closed
      ensures Marked(nodes) && View(found).Inv(succs, nodes)
      ensures n in lowlink && View(found).Ended(succs, old(View(found0)), n, lowlink[n])
      ensures LowKept(old(View(found0)), old(lowlink), lowlink)
      decreases View(found0).Unvisited(nodes), 2
    {
      ghost var t0 := View(found0);
      BeginVisit(n, found0, nodes);
      found := FollowAll(n, found0, nodes, t0);
      found := EndVisit(n, found, nodes, t0);
    }

    method BeginVisit(n: Block, ghost found: set<set<Block>>, ghost nodes: set<Block>)
      requires Marked(nodes) && View(found).Inv(succs, nodes)
      requires n in nodes && !View(found).Visited(n)
      requires AllLeadTo(succs, open, n)
      modifies this`index, this`lowlink, this`onStack, this`indexCount, this`stack, this`open
      ensures Going(old(View(found)), found, nodes, n, {})
      ensures LowKept(old(View(found)), old(lowlink), lowlink)
    {
      ghost var t0 := View(found);
      t0.PushKeepsInv(succs, nodes, n);
      t0.LowStarts(succs, nodes, n);
      index := index[n := indexCount];
      indexCount := indexCount + 1;
      lowlink := lowlink[n := index[n]];
      stack := stack + [n];
      onStack := onStack + {n};
      open := open + {n};
    }

    /** Follows the links of `n`. */
    method FollowAll(n: Block, found0: set<set<Block>>, ghost nodes: set<Block>, ghost t0: Tarjan) returns (found: set<set<Block>>)
      requires Going(t0, found0, nodes, n, {}) && AllLeadTo(succs, t0.open, n)
      modifies this`index, this`lowlink, this`onStack, this`indexCount, this`stack, this`open, this`closed
      ensures Going(t0, found, nodes, n, succs[n])
      ensures LowKept(t0, old(lowlink), lowlink)
      decreases t0.Unvisited(nodes), 1
    {
      found := found0;
      var rest := succs[n];
      ghost var seen := {};
      while rest != {}
        invariant rest !! seen && rest + seen == succs[n]
        invariant Going(t0, found, nodes, n, seen)
        invariant LowKept(t0, old(lowlink), lowlink)
        decreases rest
      {
        var su :| su in rest;
        assert Linked(succs, n, su);
        ghost var low := lowlink;
        found := Follow(n, su, found, nodes, t0, seen);
        LowKeptTrans(t0, old(lowlink), low, lowlink);
        rest, seen := rest - {su}, seen + {su};
      }
    }

    /** Follows one link. */
    method Follow(n: Block, su: Block, found0: set<set<Block>>, ghost nodes: set<Block>, ghost t0: Tarjan, ghost seen: set<Block>)
      returns (found: set<set<Block>>)
      requires Going(t0, found0, nodes, n, seen) && AllLeadTo(succs, t0.open, n) && Linked(succs, n, su)
      modifies this`index, this`lowlink, this`onStack, this`indexCount, this`stack, this`open, this`closed
      ensures Going(t0, found, nodes, n, seen + {su})
      ensures LowKept(t0, old(lowlink), lowlink)
      decreases t0.Unvisited(nodes), 0
    {
      found := found0;
      ghost var t := View(found);
      ghost var lo := lowlink[n];
      if index[su] == -1 {
        t0.UnvisitedShrinks(t, nodes, n);
        t.OpenLeads(succs, nodes, t0, n, su);
        found := Traverse(su, found, nodes);
        t.LowAfterChild(succs, nodes, View(found), |t0.stack|, n, lo, seen, su, lowlink[su]);
        t0.GrowsTrans(t, View(found), n);
        t0.LowKeptSince(t, n, old(lowlink), lowlink);
        lowlink := lowlink[n := if lowlink[su] < lowlink[n] then lowlink[su] else lowlink[n]];
      } else {
        t.LowAfterVisited(succs, nodes, |t0.stack|, n, lo, seen, su);
        if su in onStack {
          lowlink := lowlink[n := if index[su] < lowlink[n] then index[su] else lowlink[n]];
        }
      }
    }

    /** The component of `n` leaves the stack if `n` is its lowest node. */
    method EndVisit(n: Block, found0: set<set<Block>>, ghost nodes: set<Block>, ghost t0: Tarjan) returns (found: set<set<Block>>)
      requires t0.Inv(succs, nodes) && n in nodes && n in succs && Going(t0, found0, nodes, n, succs[n])
      modifies this`onStack, this`stack, this`open, this`closed
      ensures Marked(nodes) && View(found).Inv(succs, nodes)
      ensures n in lowlink && View(found).Ended(succs, t0, n, lowlink[n])
    {
      ghost var t := View(found0);
      t.EndIndexes(succs, nodes, t0, n, lowlink[n]);
      if index[n] == lowlink[n] {
        t.PoppedInv(succs, nodes, t0, n, lowlink[n]);
        t.StackDistinct(succs, nodes);
        found := CloseComponent(n, found0, |t0.stack|);
      } else {
        t.LeftInv(succs, nodes, t0, n, lowlink[n]);
        open := open - {n};
        found := found0;
      }
    }

    method CloseComponent(n: Block, found0: set<set<Block>>, ghost p: nat) returns (found: set<set<Block>>)
      requires p < |stack| && stack[p] == n
      requires forall i, j :: 0 <= i < j < |stack| ==> stack[i] != stack[j]
      requires forall b :: b in onStack <==> b in stack
      modifies this`onStack, this`stack, this`open, this`closed
      ensures forall b :: b in onStack <==> b in stack
      ensures View(found) == old(View(found0)).Popped(p, n)
    {
      ghost var t := View(found0);
      found := found0;
      var component := PopComponent(n, p);
      open, closed := open - {n}, closed + component;
      assert n in component by { assert n in t.stack[p..]; }
      if |component| != 1 {
        found := found + {component};
      }
    }

    /** Pops the stack down to `n`. */
    method PopComponent(n: Block, ghost p: nat) returns (popped: set<Block>)
      requires p < |stack| && stack[p] == n
      requires forall i, j :: 0 <= i < j < |stack| ==> stack[i] != stack[j]
      requires forall b :: b in onStack <==> b in stack
      modifies this`stack, this`onStack
      ensures stack == old(stack)[..p]
      ensures popped == old(View({})).Component(p)
      ensures forall b :: b in onStack <==> b in stack
    {
      popped := {};
      ghost var full := stack;
      var tmp := stack[|stack| - 1];
      var going := true;
      while going
        invariant p <= |stack| <= |full| && stack == full[..|stack|]
        invariant going <==> |stack| > p
        invariant popped == set x | x in full[|stack|..]
        invariant forall b :: b in onStack <==> b in stack
        decreases |stack|
      {
        tmp := stack[|stack| - 1];
        assert tmp == full[|stack| - 1];
        assert full[|stack| - 1..] == [tmp] + full[|stack|..];
        onStack := onStack - {tmp};
        popped := popped + {tmp};
        stack := stack[..|stack| - 1];
        going := tmp != n;
      }
    }

    // ----- the rounds -----

    /** The graph that is searched: each node has the sets of its successors
        and predecessors, and no marks. */
    method BuildCfg(g: Cfg) returns (nodes: set<Block>)
      requires g.Wf()
      modifies this`succs, this`prevs, this`index, this`lowlink, this`onStack
      ensures nodes == ToSet(g.blocks) && Live(g, nodes, succs, prevs)
      ensures Unmarked(nodes)
    {
      succs, prevs, index, lowlink, onStack := map[], map[], map[], map[], {};
      var i := 0;
      while i < |g.blocks|
        invariant 0 <= i <= |g.blocks| && onStack == {}
        invariant Built(g, g.blocks[..i], succs, prevs)
        invariant forall b :: b in g.blocks[..i] ==> b in index && index[b] == -1 && b in lowlink
      {
        var bb := g.blocks[i];
        BuildOne(g, g.blocks[..i], succs, prevs, bb);
        index, lowlink := index[bb := -1], lowlink[bb := -1];
        succs, prevs := succs[bb := ToSet(g.succs[bb])], prevs[bb := ToSet(g.preds[bb])];
        assert g.blocks[..i + 1] == g.blocks[..i] + [bb];
        i := i + 1;
      }
      assert g.blocks[..i] == g.blocks;
      nodes := ToSet(g.blocks);
      BuiltIsLive(g, succs, prevs);
    }

    ghost predicate Unmarked(nodes: set<Block>)
      reads this`index, this`lowlink, this`onStack
    {
      onStack == {} && forall b :: b in nodes ==> b in index && index[b] == -1 && b in lowlink
    }

    /** A node of the component with a predecessor outside it that is left; if
        there is none, a successor of a node that has been taken out. */
    method FindLoopBase(k: set<Block>, reserved: set<Block>) returns (base: Option<Block>)
      requires forall b :: b in k ==> b in prevs
      requires forall b :: b in reserved ==> b in succs
      ensures base.Some? ==> IsBase(succs, prevs, reserved, k, base.value)
      ensures base.None? ==> forall b {:trigger IsBase(succs, prevs, reserved, k, b)} :: !IsBase(succs, prevs, reserved, k, b)
      ensures forall p, b {:trigger EntersLive(prevs, k, p, b)} :: EntersLive(prevs, k, p, b) ==>
                base.Some? && exists q :: EntersLive(prevs, k, q, base.value)
    {
      base := LiveBase(k);
      if base.None? {
        base := ReservedBase(k, reserved);
      }
    }

    method LiveBase(k: set<Block>) returns (base: Option<Block>)
      requires forall b :: b in k ==> b in prevs
      ensures base.Some? ==> exists p :: EntersLive(prevs, k, p, base.value)
      ensures base.None? ==> forall p, b {:trigger EntersLive(prevs, k, p, b)} :: !EntersLive(prevs, k, p, b)
    {
      base := None;
      var rest := k;
      while rest != {}
        invariant rest <= k
        invariant base.Some? ==> exists p :: EntersLive(prevs, k, p, base.value)
        invariant base.None? ==> forall p, b {:trigger EntersLive(prevs, k, p, b)} :: b in k - rest ==> !EntersLive(prevs, k, p, b)
        decreases rest
      {
        var n :| n in rest;
        var ps := prevs[n];
        while ps != {}
          invariant ps <= prevs[n]
          invariant base.Some? ==> exists p :: EntersLive(prevs, k, p, base.value)
          invariant base.None? ==> forall p {:trigger EntersLive(prevs, k, p, n)} :: p in prevs[n] - ps ==> !EntersLive(prevs, k, p, n)
          invariant base.None? ==> forall p, b {:trigger EntersLive(prevs, k, p, b)} :: b in k - rest ==> !EntersLive(prevs, k, p, b)
          decreases ps
        {
          var prev :| prev in ps;
          if prev !in k {
            assert EntersLive(prevs, k, prev, n);
            base := Some(n);
          }
          ps := ps - {prev};
        }
        rest := rest - {n};
      }
    }

    method ReservedBase(k: set<Block>, reserved: set<Block>) returns (base: Option<Block>)
      requires forall b :: b in reserved ==> b in succs
      ensures base.Some? ==> exists p :: EntersFromReserved(succs, reserved, k, p, base.value)
      ensures base.None? ==> forall p, b {:trigger EntersFromReserved(succs, reserved, k, p, b)} :: !EntersFromReserved(succs, reserved, k, p, b)
    {
      base := None;
      var rest := reserved;
      while rest != {}
        invariant rest <= reserved
        invariant base.Some? ==> exists p :: EntersFromReserved(succs, reserved, k, p, base.value)
        invariant base.None? ==> forall p, b {:trigger EntersFromReserved(succs, reserved, k, p, b)} :: p in reserved - rest ==> !EntersFromReserved(succs, reserved, k, p, b)
        decreases rest
      {
        var res :| res in rest;
        var ss := succs[res];
        while ss != {}
          invariant ss <= succs[res]
          invariant base.Some? ==> exists p :: EntersFromReserved(succs, reserved, k, p, base.value)
          invariant base.None? ==> forall b {:trigger EntersFromReserved(succs, reserved, k, res, b)} :: b in succs[res] - ss ==> !EntersFromReserved(succs, reserved, k, res, b)
          invariant base.None? ==> forall p, b {:trigger EntersFromReserved(succs, reserved, k, p, b)} :: p in reserved - rest ==> !EntersFromReserved(succs, reserved, k, p, b)
          decreases ss
        {
          var succ :| succ in ss;
          if succ in k {
            assert EntersFromReserved(succs, reserved, k, res, succ);
            base := Some(succ);
          }
          ss := ss - {succ};
        }
        rest := rest - {res};
      }
    }

    /** Takes the links of `base` away from the nodes around it. */
    method Unlink(g: Cfg, base: Block, ghost nodes: set<Block>)
      requires Live(g, nodes, succs, prevs) && base in nodes
      modifies this`succs, this`prevs
      ensures Live(g, nodes - {base}, succs, prevs) && Within(succs, old(succs))
    {
      ghost var succs0, prevs0 := succs, prevs;
      assert forall su :: su in succs[base] ==> LiveLink(g, nodes, succs, base, su) && Linked(succs, base, su);
      var rest := succs[base];
      ghost var done := {};
      while rest != {}
        invariant rest !! done && rest + done == succs0[base]
        invariant succs == succs0 && Erased(prevs0, prevs, done, base)
        decreases rest
      {
        var su :| su in rest;
        EraseOne(prevs0, prevs, done, base, su);
        prevs := prevs[su := prevs[su] - {base}];
        rest, done := rest - {su}, done + {su};
      }
      assert done == succs0[base];
      assert ErasedAt(prevs0, prevs, done, base, base);
      ghost var prevs1 := prevs;
      assert forall p :: p in prevs[base] ==> LivePrev(g, nodes, prevs0, p, base) && Linked(prevs0, base, p);
      rest, done := prevs[base], {};
      while rest != {}
        invariant rest !! done && rest + done == prevs1[base]
        invariant prevs == prevs1 && Erased(succs0, succs, done, base)
        decreases rest
      {
        var prev :| prev in rest;
        EraseOne(succs0, succs, done, base, prev);
        succs := succs[prev := succs[prev] - {base}];
        rest, done := rest - {prev}, done + {prev};
      }
      assert done == prevs1[base];
      TakeOut(g, nodes, succs0, prevs0, base, prevs, succs);
    }

    ghost function Left(nodes: set<Block>): Rest
      reads this`succs, this`prevs
    {
      Rest(nodes, succs, prevs)
    }

    ghost predicate Mapped()
      reads this`loops, this`loopSet, this`base2loop, this`loop2base, this`bb2base
    {
      Maps(loops, loopSet, base2loop, loop2base, bb2base)
    }

    /** Steps 3 to 6 for one component. */
    method Report(g: Cfg, k: set<Block>, nodes0: set<Block>, reserved0: set<Block>, ghost r0: Rest, ghost todo: set<set<Block>>)
      returns (nodes: set<Block>, reserved: set<Block>)
      requires Searchable(g) && Round(g, r0, Left(nodes0), loops, todo) && k in todo && Mapped()
      requires Apart(g, nodes0, reserved0)
      modifies this`succs, this`prevs, this`loopSet, this`base2loop, this`loop2base, this`bb2base, this`loops
      ensures Round(g, r0, Left(nodes), loops, todo - {k}) && Mapped()
      ensures nodes < nodes0 && Apart(g, nodes, reserved)
    {
      ghost var before := loops;
      var base;
      base, nodes, reserved := TakeBase(g, k, nodes0, reserved0, r0, todo);
      loops := loops + [Loop(k, base)];
      LastIsNested(g, nodes, before, Loop(k, base));
      Record(k, base, before);
    }

    /** Finds the base of the component and takes it out of the graph. */
    method TakeBase(g: Cfg, k: set<Block>, nodes0: set<Block>, reserved0: set<Block>, ghost r0: Rest, ghost todo: set<set<Block>>)
      returns (base: Block, nodes: set<Block>, reserved: set<Block>)
      requires Searchable(g) && Round(g, r0, Left(nodes0), loops, todo) && k in todo
      requires Apart(g, nodes0, reserved0)
      modifies this`succs, this`prevs
      ensures Round(g, r0, Left(nodes), loops + [Loop(k, base)], todo - {k})
      ensures nodes < nodes0 && Apart(g, nodes, reserved)
    {
      ghost var r := Left(nodes0);
      BaseOfWaiting(g, r0, r, loops, todo, reserved0, k);
      var found := FindLoopBase(k, reserved0);
      base := found.value;
      assert Waiting(r0, r, k);
      Unlink(g, base, nodes0);
      nodes, reserved := nodes0 - {base}, reserved0 + {base};
      ReportOne(g, r0, r, loops, todo, k, base, Left(nodes));
    }

    /** Step 4 and 5: the new loop enters the maps. */
    method Record(k: set<Block>, base: Block, ghost before: seq<Loop>)
      requires Maps(before, loopSet, base2loop, loop2base, bb2base) && loops == before + [Loop(k, base)]
      requires forall i {:trigger before[i]} :: 0 <= i < |before| ==>
                 Nested(before[i], Loop(k, base)) && before[i].base != base && before[i].base in before[i].blocks
      modifies this`loopSet, this`base2loop, this`loop2base, this`bb2base
      ensures Mapped()
    {
      ghost var bb2base0 := bb2base;
      MapToBase(k, base);
      MapsNext(before, loopSet, base2loop, loop2base, bb2base0, Loop(k, base), bb2base);
      loopSet := loopSet + {k};
      if base !in base2loop {
        base2loop := base2loop[base := k];
      }
      if k !in loop2base {
        loop2base := loop2base[k := base];
      }
    }

    method MapToBase(k: set<Block>, base: Block)
      modifies this`bb2base
      ensures BasesSet(old(bb2base), bb2base, k, base)
    {
      var rest := k;
      ghost var done := {};
      while rest != {}
        invariant rest !! done && rest + done == k
        invariant BasesSet(old(bb2base), bb2base, done, base)
        decreases rest
      {
        var bb :| bb in rest;
        ghost var before, done1 := bb2base, done + {bb};
        bb2base := bb2base[bb := base];
        forall c ensures BaseSetAt(old(bb2base), bb2base, done1, base, c) {
          assert BaseSetAt(old(bb2base), before, done, base, c);
        }
        rest, done := rest - {bb}, done1;
      }
      assert done == k;
    }

    /** All components of one round, in whatever order they are taken. */
    method ReportAll(g: Cfg, sccs: set<set<Block>>, nodes0: set<Block>, reserved0: set<Block>)
      returns (nodes: set<Block>, reserved: set<Block>)
      requires Searchable(g) && Round(g, Left(nodes0), Left(nodes0), loops, sccs) && Mapped() && sccs != {}
      requires Apart(g, nodes0, reserved0)
      modifies this`succs, this`prevs, this`loopSet, this`base2loop, this`loop2base, this`bb2base, this`loops
      ensures Round(g, old(Left(nodes0)), Left(nodes), loops, {}) && Mapped()
      ensures nodes < nodes0 && Apart(g, nodes, reserved)
    {
      ghost var r0 := Left(nodes0);
      nodes, reserved := nodes0, reserved0;
      var rest := sccs;
      while rest != {}
        invariant rest <= sccs && Round(g, r0, Left(nodes), loops, rest) && Mapped()
        invariant nodes <= nodes0 && (rest < sccs ==> nodes < nodes0)
        invariant Apart(g, nodes, reserved)
        decreases rest
      {
        var k :| k in rest;
        nodes, reserved := Report(g, k, nodes, reserved, r0, rest);
        rest := rest - {k};
      }
    }

    /** Takes the marks of the last search off the nodes that are left. */
    method ClearMarks(nodes: set<Block>)
      requires onStack == {}
      modifies this`index, this`lowlink, this`onStack
      ensures Unmarked(nodes)
    {
      var rest := nodes;
      while rest != {}
        invariant rest <= nodes && onStack == {}
        invariant forall b :: b in nodes - rest ==> b in index && index[b] == -1 && b in lowlink
        decreases rest
      {
        var n :| n in rest;
        index, lowlink, onStack := index[n := -1], lowlink[n := -1], onStack - {n};
        rest := rest - {n};
      }
    }

    ghost predicate Paused(g: Cfg, nodes: set<Block>, reserved: set<Block>)
      reads this
    {
      Progress(g, Left(nodes), loops) && Apart(g, nodes, reserved) && Mapped() && onStack == {}
    }

    /** Reports the components, takes their bases out, and searches what is left. */
    method OneRound(g: Cfg, sccs0: set<set<Block>>, nodes0: set<Block>, reserved0: set<Block>)
      returns (sccs: set<set<Block>>, nodes: set<Block>, reserved: set<Block>)
      requires Searchable(g) && Paused(g, nodes0, reserved0) && AreSccs(succs, nodes0, sccs0) && sccs0 != {}
      modifies this
      ensures Paused(g, nodes, reserved) && AreSccs(succs, nodes, sccs) && nodes < nodes0
    {
      nodes, reserved := EndRound(g, sccs0, nodes0, reserved0);
      sccs := NextSearch(g, nodes, reserved);
    }

    method EndRound(g: Cfg, sccs: set<set<Block>>, nodes0: set<Block>, reserved0: set<Block>)
      returns (nodes: set<Block>, reserved: set<Block>)
      requires Searchable(g) && Paused(g, nodes0, reserved0) && AreSccs(succs, nodes0, sccs) && sccs != {}
      modifies this
      ensures Paused(g, nodes, reserved) && Unmarked(nodes) && nodes < nodes0
    {
      ghost var r0 := Left(nodes0);
      RoundStarts(g, r0, loops, sccs);
      nodes, reserved := ReportAll(g, sccs, nodes0, reserved0);
      RoundEnds(g, r0, Left(nodes), loops);
      ClearMarks(nodes);
    }

    method NextSearch(g: Cfg, nodes: set<Block>, ghost reserved: set<Block>) returns (sccs: set<set<Block>>)
      requires Paused(g, nodes, reserved) && Unmarked(nodes)
      modifies this
      ensures Paused(g, nodes, reserved) && AreSccs(succs, nodes, sccs)
    {
      LiveInside(g, Left(nodes));
      sccs := StronglyConnectedComponents(nodes);
    }

    method FirstSearch(g: Cfg) returns (sccs: set<set<Block>>, nodes: set<Block>)
      requires Searchable(g)
      requires loopSet == {} && base2loop == map[] && loop2base == map[] && bb2base == map[] && loops == []
      modifies this
      ensures Paused(g, nodes, {}) && AreSccs(succs, nodes, sccs)
    {
      nodes := BuildCfg(g);
      FirstRound(g, Left(nodes));
      NothingMapped();
      sccs := NextSearch(g, nodes, {});
    }

    /** The whole search for one function. */
    method Run(g: Cfg)
      requires Searchable(g)
      requires loopSet == {} && base2loop == map[] && loop2base == map[] && bb2base == map[] && loops == []
      modifies this
      ensures LoopsOf(g, loops) && Mapped()
    {
      var sccs, nodes := FirstSearch(g);
      var reserved := {};
      while sccs != {}
        invariant Paused(g, nodes, reserved) && AreSccs(succs, nodes, sccs)
        decreases nodes
      {
        sccs, nodes, reserved := OneRound(g, sccs, nodes, reserved);
      }
      SearchDone(g, Left(nodes), loops);
    }

    /** The innermost loop around a block, if there is one. */
    method GetInnerLoop(bb: Block) returns (l: Option<set<Block>>)
      requires Mapped()
      ensures l.None? <==> forall j {:trigger loops[j]} :: 0 <= j < |loops| ==> bb !in loops[j].blocks
      ensures l.Some? ==> exists i {:trigger IsInnermost(loops, i, bb)} :: IsInnermost(loops, i, bb) && loops[i].blocks == l.value
    {
      assert InnerAt(loops, bb2base, bb);
      if bb !in bb2base {
        return None;
      }
      ghost var i :| IsInnermost(loops, i, bb) && bb2base[bb] == loops[i].base;
      assert Recorded(loops[i], base2loop, loop2base);
      return Some(base2loop[bb2base[bb]]);
    }

    method GetLoopBase(k: set<Block>) returns (base: Block)
      requires Mapped() && k in loopSet
      ensures exists i {:trigger loops[i]} :: 0 <= i < |loops| && loops[i] == Loop(k, base)
    {
      assert HasBlocks(loops, k);
      ghost var i :| 0 <= i < |loops| && loops[i].blocks == k;
      assert Recorded(loops[i], base2loop, loop2base);
      base := loop2base[k];
    }

    /** The loop around loop `k`, as seen from the first predecessor of its base
        that lies outside. An answer encloses `k`, and is the smallest such loop
        if the graph is reducible; no answer means only that the innermost loop
        around that predecessor does not hold the base. */
    method GetParentLoop(g: Cfg, k: set<Block>) returns (l: Option<set<Block>>)
      requires Searchable(g) && LoopsOf(g, loops) && Mapped() && k in loopSet
      ensures l.Some? ==> exists i, j {:trigger loops[i], loops[j]} ::
                && 0 <= i < |loops| && 0 <= j < |loops| && loops[i].blocks == l.value && loops[j].blocks == k
                && Encloses(loops[i], loops[j])
                && (Reducible(g) ==> forall n {:trigger loops[n]} ::
                      0 <= n < |loops| && Encloses(loops[n], loops[j]) ==> loops[i].blocks <= loops[n].blocks)
      ensures l.None? ==> exists p, j {:trigger g.Edge(p, loops[j].base)} ::
                && 0 <= j < |loops| && loops[j].blocks == k && p !in k && g.Edge(p, loops[j].base)
                && forall i {:trigger IsInnermost(loops, i, p)} :: IsInnermost(loops, i, p) ==> loops[j].base !in loops[i].blocks
    {
      var base := GetLoopBase(k);
      ghost var j :| 0 <= j < |loops| && loops[j] == Loop(k, base);
      assert LoopAt(g, loops[j]) && Entered(g, loops[j]);
      ghost var q :| q in g.blocks && q !in k && g.Edge(q, base);
      g.EdgesMirror(q, base);
      var preds := g.preds[base];
      l := None;
      var n := 0;
      while n < |preds|
        invariant 0 <= n <= |preds| && forall m :: 0 <= m < n ==> preds[m] in k
      {
        var prev := preds[n];
        if prev !in k {
          g.EdgesMirror(prev, base);
          var inner := GetInnerLoop(prev);
          if inner.None? || base !in inner.value {
            InnermostIsOne(loops, prev);
            return None;
          }
          ghost var i :| IsInnermost(loops, i, prev) && loops[i].blocks == inner.value;
          ParentIsSmallest(g, loops, i, j, prev);
          return inner;
        }
        n := n + 1;
      }
      assert false;
    }
  }
}
