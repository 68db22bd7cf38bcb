/** SSA construction: placing phis on iterated dominance frontiers, and renaming
    along the dominator tree with one stack of values per slot. */
module Mem2RegPass {
  import opened Graphs
  import opened IdomSweeps
  import opened IR
  import opened SsaForm
  import opened Meanings
  import opened RenameSteps
  import opened RenameStacks
  import opened RenameOrder
  import opened Runners
  import opened DominatorPass
  import opened PhiPlacement
  import opened RenameSetup
  import opened RenameResult
  import opened RenameUses
  import opened RenameSafety
  import opened SsaValid
  import opened SsaClean

  class Mem2Reg {
    const f: Func
    var varValStack: Stacks

    constructor (f: Func)
      ensures this.f == f && varValStack == map[]
    {
      this.f := f;
      varValStack := map[];
    }

    ghost function View(): Heap
      reads f
    {
      Heap(f.body, f.kind, f.ops, f.uses)
    }

    /** The whole pass over one function in memory form. It answers false where
        the program would stop at an empty stack; otherwise the function is left
        in SSA form, and it means what it meant before. It goes through whatever
        the order of the children if that cannot matter, and it leaves no load of
        a slot, and no phi without a pair for each edge, exactly where these have
        definitions before them. */
    method Run(g: Cfg, ghost pos: map<Id, Place>) returns (ok: bool, ghost s: Ssa, kids: Listing)
      requires GraphOk(g) && IsMemoryForm(g, Code(f.body, f.kind, f.ops), pos)
      requires LoadUsesAllExact(Code(f.body, f.kind, f.ops), f.uses)
      requires varValStack == map[]
      modifies this, f
      ensures s == Ssa(g, s.t, old(Code(f.body, f.kind, f.ops)), pos, s.phis, old(f.uses))
      ensures IsDomTree(g, s.t) && AllPlaced(g, s.code, s.phis) && Renamable(s) && KidsOk(s, kids)
      ensures g.entry in s.code.body && (ok <==> SafeRun(s, [], Preorder(s, kids, g.entry)))
      ensures ok ==> IsSsaForm(s, Code(f.body, f.kind, f.ops)) && AllPhiPairs(s, f.ops) && ListsKept(s, f.body, f.ops, f.uses)
      ensures ok ==> ValidSsa(g, Code(f.body, f.kind, f.ops))
      ensures ok ==> SameMeaning(g.entry, old(Code(f.body, f.kind, f.ops)), Code(f.body, f.kind, f.ops))
      ensures ok ==> forall x :: Lookup(varValStack, x) == []
      ensures (forall b :: b in s.phis ==> b in g.blocks) && (OrderSafe(s) ==> ok)
      ensures ok ==> (NoSlotLoads(Code(f.body, f.kind, f.ops)) <==> LoadsDefined(s)) && (PhisFull(s, f.ops) <==> EdgesDefined(s))
      ensures SetFirst(s) ==> ok && NoSlotLoads(Code(f.body, f.kind, f.ops)) && PhisFull(s, f.ops)
    {
      s, kids := Prepare(g, pos);
      ok := ReName(g.entry, g, kids, s, [], {});
      if ok {
        Finish(g, s, kids);
        NoLoadsIffDefined(s, Code(f.body, f.kind, f.ops));
        PhisFullIffDefined(s, f.ops);
      }
      AlwaysThrough(s, kids, ok);
    }

    /** What comes before renaming: dominators and phis. */
    method Prepare(g: Cfg, ghost pos: map<Id, Place>) returns (ghost s: Ssa, kids: Listing)
      requires GraphOk(g) && IsMemoryForm(g, Code(f.body, f.kind, f.ops), pos)
      requires LoadUsesAllExact(Code(f.body, f.kind, f.ops), f.uses)
      requires varValStack == map[]
      modifies f
      ensures s == Ssa(g, s.t, old(Code(f.body, f.kind, f.ops)), pos, s.phis, old(f.uses))
      ensures IsDomTree(g, s.t) && AllPlaced(g, s.code, s.phis) && Renamable(s) && KidsOk(s, kids)
      ensures g.entry in s.code.body && forall b :: b in s.phis ==> b in g.blocks
      ensures VisitReady(s, View(), varValStack, [], {}, g.entry)
    {
      var dominators := FindDominators(g);
      ghost var code := Code(f.body, f.kind, f.ops);
      ghost var phis := GeneratePhi(g, dominators.domFrontier, pos);
      s := Ssa(g, dominators.TreeOf(g), code, pos, phis, f.uses);
      PlacedListsOk(s, View());
      PlacementFits(s);
      RenamingStarts(s, View());
      kids := OrderKids(g, dominators.domTreeSucc, s);
    }

    method FindDominators(g: Cfg) returns (dominators: Dominators)
      requires GraphOk(g)
      ensures fresh(dominators) && IsDomTree(g, dominators.TreeOf(g))
      ensures FrontiersExact(g, dominators.domFrontier) && TreeSuccsExact(g, dominators.domTreeSucc)
    {
      dominators := new Dominators();
      AllJoinsReached(g);
      dominators.Run(g);
      FoundIsExact(g, dominators.domFrontier);
    }

    /** What follows a renaming that went through. */
    method Finish(g: Cfg, ghost s: Ssa, ghost kids: Listing)
      requires Renamable(s) && g == s.g && KidsOk(s, kids) && g.entry in s.code.body
      requires forall b :: b in s.phis ==> b in g.blocks
      requires VisitDone(s, View(), varValStack, [], {}, g.entry, Preorder(s, kids, g.entry))
      modifies f`body, f`uses
      ensures IsSsaForm(s, Code(f.body, f.kind, f.ops)) && AllPhiPairs(s, f.ops) && ListsKept(s, f.body, f.ops, f.uses)
      ensures ValidSsa(g, Code(f.body, f.kind, f.ops))
      ensures SameMeaning(g.entry, s.code, Code(f.body, f.kind, f.ops))
      ensures forall x :: Lookup(varValStack, x) == []
    {
      ghost var h := View();
      ghost var order := Preorder(s, kids, g.entry);
      RenamingEnded(s, kids, h, varValStack);
      RemoveAlloca(g);
      AllFinished(s, h, order, View());
    }

    /** The children of each block in some order. */
    method OrderKids(g: Cfg, succ: map<Block, set<Block>>, ghost s: Ssa) returns (kids: Listing)
      requires Renamable(s) && g == s.g && TreeSuccsExact(g, succ)
      ensures KidsOk(s, kids)
    {
      kids := map[];
      var i := 0;
      while i < |g.blocks|
        invariant 0 <= i <= |g.blocks|
        invariant forall b {:trigger KidsAt(s, kids, b)} :: b in g.blocks[..i] ==> KidsAt(s, kids, b)
      {
        var b := g.blocks[i];
        var cs := SetToSeq(if b in succ then succ[b] else {});
        KidsFound(s, kids, succ, b, cs, g.blocks[..i]);
        kids := kids[b := cs];
        assert g.blocks[..i + 1] == g.blocks[..i] + [b];
        i := i + 1;
      }
      assert g.blocks[..i] == g.blocks;
      forall b ensures KidsAt(s, kids, b) {
      }
    }

    /** Steps 4 and 5: replaces loads and pushes stored values. Answers false
        where a load would take the top of an empty stack. */
    method RenameInstrs(bb: Block, ghost s: Ssa, ghost filled: seq<Block>, ghost cleaned: set<Block>)
      returns (ok: bool, waitDelete: seq<Id>)
      requires Renamable(s) && bb in s.code.body && bb !in filled && bb !in cleaned && bb in s.t.up
      requires AncestorsIn(s, filled, bb)
      requires Underway(s, View(), Stage(filled, bb, 0), cleaned)
      requires StacksAt(s, varValStack, filled, bb, 0)
      modifies f`ops, f`uses, this`varValStack
      ensures ok ==> Renaming(s, View(), varValStack, Stage(filled, bb, |s.code.body[bb]|), cleaned, waitDelete)
      ensures !ok ==> !LoadsSafe(s, filled, bb, |s.code.body[bb]|)
    {
      assert BodyAt(s, f.body, cleaned, bb);
      var list := f.body[bb];
      ghost var n := |s.phis[bb]|;
      ok, waitDelete := true, [];
      var i := 0;
      while i < |list|
        invariant 0 <= i <= |list|
        invariant f.body == old(f.body) && f.kind == old(f.kind)
        invariant ok
        invariant Renaming(s, View(), varValStack, Stage(filled, bb, if i < n then 0 else i - n), cleaned, waitDelete)
      {
        var id := list[i];
        AtPlace(s, View(), Stage(filled, bb, if i < n then 0 else i - n), cleaned, bb, i);
        if f.kind[id] != Phi {
          ok, waitDelete := RenameInstr(id, waitDelete, s, Stage(filled, bb, i - n), cleaned);
          if !ok { return; }
        }
        i := i + 1;
      }
    }

    /** A load from a slot: the top of the stack takes its place. A slot that
        has no stack yet leaves the load alone. */
    method RenameLoad(id: Id, x: Slot, ghost s: Ssa, ghost g: Stage, ghost cleaned: set<Block>)
      returns (ok: bool, replaced: bool)
      requires s.Ready() && g.bb in s.code.body && g.bb !in g.filled
      requires g.k < |s.code.body[g.bb]| && id == s.code.body[g.bb][g.k] && s.code.LoadsFrom(id, x)
      requires Underway(s, View(), g, cleaned)
      requires StacksAt(s, varValStack, g.filled, g.bb, g.k)
      modifies f`ops, f`uses
      ensures ok <==> !LoadFails(s, g.filled, g.bb, g.k, x)
      ensures ok ==> Underway(s, View(), Next(g), cleaned) && (replaced <==> Dropped(s, id))
    {
      ghost var h := View();
      LoadCases(s, varValStack, g.filled, g.bb, g.k, x);
      ok, replaced := true, false;
      if x in varValStack {
        var st := varValStack[x];
        if st == [] {
          return false, false;
        }
        PendingUsesExact(s, h, g, cleaned);
        RenamedFinal(s, Ref(id));
        f.ReplaceAllUseWith(Ref(id), st[|st| - 1]);
        ReplaceLoad(s, h, g, cleaned, View(), st[|st| - 1]);
        replaced := true;
      } else {
        PassPlain(s, h, g, cleaned);
      }
    }

    /** One instruction of the block. */
    method RenameInstr(id: Id, wait: seq<Id>, ghost s: Ssa, ghost g: Stage, ghost cleaned: set<Block>)
      returns (ok: bool, waitDelete: seq<Id>)
      requires Renamable(s) && g.bb in s.code.body && g.bb !in g.filled && g.bb in s.t.up
      requires g.k < |s.code.body[g.bb]| && id == s.code.body[g.bb][g.k]
      requires AncestorsIn(s, g.filled, g.bb)
      requires Renaming(s, View(), varValStack, g, cleaned, wait)
      modifies f`ops, f`uses, this`varValStack
      ensures !ok ==> exists x :: LoadFails(s, g.filled, g.bb, g.k, x)
      ensures ok ==> Renaming(s, View(), varValStack, Next(g), cleaned, waitDelete)
    {
      ghost var h := View();
      assert s.PlaceOk(g.bb, g.k) && s.InstrOk(id) && Known(s, h, id) && OpsAt(s, h.ops, g, id);
      ok, waitDelete := true, wait;
      if f.kind[id] == Load {
        PointerKept(s, h, g, cleaned, id, 0);
        if f.Promotable(f.ops[id][0]) {
          var replaced;
          ok, replaced := RenameLoad(id, f.ops[id][0].x, s, g, cleaned);
          if replaced { waitDelete := waitDelete + [id]; }
          if !ok { return; }
        } else {
          PassPlain(s, h, g, cleaned);
        }
        StacksPass(s, varValStack, g.filled, g.bb, g.k);
        RenamingGoesOn(s, View(), varValStack, g, cleaned, waitDelete);
      } else if f.kind[id] == Store && (PointerKept(s, h, g, cleaned, id, 1); f.Promotable(f.ops[id][1])) {
        waitDelete := RenameStore(id, wait, s, g, cleaned);
      } else {
        PassPlain(s, h, g, cleaned);
        StacksPass(s, varValStack, g.filled, g.bb, g.k);
        RenamingGoesOn(s, h, varValStack, g, cleaned, wait);
      }
    }

    /** A store to a slot: the stored value is the latest definition. */
    method RenameStore(id: Id, wait: seq<Id>, ghost s: Ssa, ghost g: Stage, ghost cleaned: set<Block>) returns (waitDelete: seq<Id>)
      requires s.Ready() && g.bb in s.code.body && g.bb in s.t.up && AncestorsIn(s, g.filled, g.bb)
      requires g.k < |s.code.body[g.bb]| && id == s.code.body[g.bb][g.k] && s.code.SlotStore(id)
      requires Renaming(s, View(), varValStack, g, cleaned, wait)
      modifies this`varValStack
      ensures Renaming(s, View(), varValStack, Next(g), cleaned, waitDelete)
    {
      ghost var h := View();
      assert s.PlaceOk(g.bb, g.k) && s.InstrOk(id) && Known(s, h, id) && OpsAt(s, h.ops, g, id);
      StoredIsRenamed(s, f.ops, g, id);
      var lval, rval := f.ops[id][1], f.ops[id][0];
      StacksPush(s, varValStack, g.filled, g.bb, g.k, lval.x, rval);
      varValStack := varValStack[lval.x := Lookup(varValStack, lval.x) + [rval]];
      waitDelete := wait + [id];
      PassPlain(s, h, g, cleaned);
      RenamingGoesOn(s, h, varValStack, g, cleaned, waitDelete);
    }

    /** Step 3: the phis of the block are the latest definitions. */
    method PushPhis(bb: Block, ghost s: Ssa, ghost filled: seq<Block>, ghost cleaned: set<Block>)
      requires Renamable(s) && bb in s.code.body && bb !in cleaned
      requires Underway(s, View(), Stage(filled, bb, 0), cleaned)
      requires StacksOnEntry(s, varValStack, filled, bb)
      modifies this`varValStack
      ensures StacksAt(s, varValStack, filled, bb, 0)
    {
      assert BodyAt(s, f.body, cleaned, bb) && PhiListOk(s, bb);
      var list := f.body[bb];
      ghost var n := |s.phis[bb]|;
      PushStarts(s, varValStack, filled, bb);
      var i := 0;
      while i < |list|
        invariant 0 <= i <= |list|
        invariant Pushed(s, varValStack, filled, bb, s.phis[bb][..if i < n then i else n])
      {
        var id := list[i];
        AtPlace(s, View(), Stage(filled, bb, 0), cleaned, bb, i);
        if f.kind[id] == Phi {
          PushOne(s, varValStack, filled, bb, s.phis[bb][..i], id.lval);
          assert s.phis[bb][..i + 1] == s.phis[bb][..i] + [id.lval];
          varValStack := varValStack[id.lval := Lookup(varValStack, id.lval) + [Ref(id)]];
        }
        i := i + 1;
      }
      assert s.phis[bb][..n] == s.phis[bb];
      PushEnds(s, varValStack, filled, bb);
    }

    /** Step 6 for one phi: one pair, or nothing while the slot has no stack. */
    method FillPhi(phi: Id, bb: Block, ghost s: Ssa, ghost g: Stage, ghost cleaned: set<Block>, ghost fl: Filling)
      returns (ok: bool)
      requires s.Ready() && bb in s.code.body && fl.p == bb
      requires phi.PhiOf? && phi.bb == fl.c && s.HasPhi(fl.c, phi.lval) && s.g.Edge(bb, fl.c) && phi.lval !in fl.done
      requires UnderwayIn(s, View(), g, cleaned, fl)
      requires StacksAt(s, varValStack, g.filled, bb, |s.code.body[bb]|)
      modifies f`ops, f`uses
      ensures ok <==> !FillFails(s, g.filled, bb, fl.c, phi.lval)
      ensures ok ==> UnderwayIn(s, View(), g, cleaned, fl.(done := fl.done + [phi.lval]))
    {
      ghost var h := View();
      var x := phi.lval;
      FillCases(s, varValStack, g.filled, bb, x);
      assert PhiAt(s, h.ops, g.filled, fl, fl.c, x);
      if x in varValStack {
        var st := varValStack[x];
        if st == [] {
          return false;
        }
        f.AddPhiPairOperand(phi, st[|st| - 1], bb);
        assert Pair(s, bb, x) == [st[|st| - 1], Label(bb)];
        PairAppended(h, View(), phi, st[|st| - 1], bb);
      } else {
        assert h.ops[phi] + [] == h.ops[phi];
        assert Appended(h, View(), phi, []);
      }
      FillOne(s, h, View(), g, cleaned, fl, x);
      ok := true;
    }

    /** Step 6 for one successor. */
    method FillPhisOf(c: Block, bb: Block, ghost s: Ssa, ghost g: Stage, ghost cleaned: set<Block>, ghost fl: Filling)
      returns (ok: bool)
      requires Renamable(s) && bb in s.code.body && s.g.Edge(bb, c) && c in s.code.body
      requires fl == Filling(bb, fl.ss, c, [])
      requires UnderwayIn(s, View(), g, cleaned, fl)
      requires StacksAt(s, varValStack, g.filled, bb, |s.code.body[bb]|)
      modifies f`ops, f`uses
      ensures ok <==> forall x {:trigger FillFails(s, g.filled, bb, c, x)} :: !FillFails(s, g.filled, bb, c, x)
      ensures ok ==> UnderwayIn(s, View(), g, cleaned, Filling(bb, fl.ss + [c], 0, []))
    {
      assert BodyAt(s, f.body, cleaned, c) && PhiListOk(s, c);
      var list := f.body[c];
      ghost var xs := s.phis[c];
      ok := true;
      var i := 0;
      while i < |list|
        invariant 0 <= i <= |list|
        invariant f.body == old(f.body) && f.kind == old(f.kind)
        invariant var j := if i < |xs| then i else |xs|;
          && UnderwayIn(s, View(), g, cleaned, fl.(done := xs[..j]))
          && forall k :: 0 <= k < j ==> !FillFails(s, g.filled, bb, c, xs[k])
      {
        var id := list[i];
        AtPhiPlace(s, View(), g, cleaned, fl.(done := xs[..if i < |xs| then i else |xs|]), c, i);
        if f.kind[id] == Phi {
          assert xs[..i + 1] == xs[..i] + [id.lval];
          ok := FillPhi(id, bb, s, g, cleaned, fl.(done := xs[..i]));
          if !ok { return; }
        }
        i := i + 1;
      }
      assert xs[..|xs|] == xs;
      FillNext(s, View(), g, cleaned, fl.(done := xs));
    }

    /** Step 6: one pair for each edge out of the block. */
    method FillSuccs(bb: Block, ghost s: Ssa, ghost filled: seq<Block>, ghost cleaned: set<Block>, g: Cfg)
      returns (ok: bool)
      requires Renamable(s) && bb in s.code.body && g == s.g
      requires Underway(s, View(), Stage(filled, bb, |s.code.body[bb]|), cleaned)
      requires StacksAt(s, varValStack, filled, bb, |s.code.body[bb]|)
      modifies f`ops, f`uses
      ensures ok <==> FillsSafe(s, filled, bb)
      ensures ok ==> Underway(s, View(), Stage(filled + [bb], bb, 0), cleaned)
    {
      ghost var st := Stage(filled, bb, |s.code.body[bb]|);
      var succs := g.succs[bb];
      FillBegin(s, View(), st, cleaned, bb);
      ok := true;
      var j := 0;
      while j < |succs|
        invariant 0 <= j <= |succs|
        invariant UnderwayIn(s, View(), st, cleaned, Filling(bb, succs[..j], 0, []))
        invariant forall c, x {:trigger FillFails(s, filled, bb, c, x)} :: c in succs[..j] ==> !FillFails(s, filled, bb, c, x)
      {
        var c := succs[j];
        assert succs[..j + 1] == succs[..j] + [c];
        FillStart(s, View(), st, cleaned, Filling(bb, succs[..j], 0, []), c);
        ok := FillPhisOf(c, bb, s, st, cleaned, Filling(bb, succs[..j], c, []));
        if !ok { return; }
        j := j + 1;
      }
      assert succs[..j] == succs;
      FillEnd(s, View(), st, cleaned);
    }

    /** Step 7: the definitions of the block leave the stacks. */
    method PopDefs(bb: Block, ghost s: Ssa, ghost filled: seq<Block>, ghost st: Stage, ghost cleaned: set<Block>)
      requires Renamable(s) && bb in s.code.body && bb !in cleaned
      requires Underway(s, View(), st, cleaned)
      requires StacksAtEnd(s, varValStack, filled, bb)
      modifies this`varValStack
      ensures StacksOnEntry(s, varValStack, filled, bb)
    {
      assert BodyAt(s, f.body, cleaned, bb) && PhiListOk(s, bb);
      var list := f.body[bb];
      PopStarts(s, varValStack, filled, bb);
      var i := 0;
      while i < |list|
        invariant 0 <= i <= |list|
        invariant Popped(s, varValStack, filled, bb, i)
      {
        var id := list[i];
        DefsOfInstr(s, View(), st, cleaned, bb, i);
        if f.kind[id] == Store {
          if f.Promotable(f.ops[id][1]) {
            var x := f.ops[id][1].x;
            PopOne(s, varValStack, filled, bb, i, x);
            varValStack := varValStack[x := varValStack[x][..|varValStack[x]| - 1]];
          } else {
            PopNone(s, varValStack, filled, bb, i);
          }
        } else if f.kind[id] == Phi {
          PopOne(s, varValStack, filled, bb, i, id.lval);
          if id.lval in varValStack {
            varValStack := varValStack[id.lval := varValStack[id.lval][..|varValStack[id.lval]| - 1]];
          }
        } else {
          PopNone(s, varValStack, filled, bb, i);
        }
        i := i + 1;
      }
      PopEnds(s, varValStack, filled, bb);
    }

    /** Deletes the replaced loads and the stores of the block. */
    method DeleteAll(bb: Block, waitDelete: seq<Id>, ghost s: Ssa, ghost st: Stage, ghost cleaned: set<Block>)
      requires Renamable(s) && bb in s.code.body && bb !in cleaned && bb in s.t.up
      requires AncestorsIn(s, st.filled, bb) && bb in st.filled
      requires Underway(s, View(), st, cleaned)
      requires waitDelete == DroppedOf(s, s.code.body[bb])
      modifies f`body, f`uses
      ensures Underway(s, View(), st, cleaned + {bb})
    {
      DeletionStarts(s, View(), st, cleaned, bb);
      var i := 0;
      while i < |waitDelete|
        invariant 0 <= i <= |waitDelete|
        invariant Deleting(s, View(), st, cleaned, bb, waitDelete[..i])
      {
        ghost var h := View();
        DeletionNext(s, h, st, cleaned, bb, waitDelete[..i], waitDelete[i]);
        f.DeleteInstr(bb, waitDelete[i]);
        assert waitDelete[..i + 1] == waitDelete[..i] + [waitDelete[i]];
        DeletionGoesOn(s, h, View(), st, cleaned, bb, waitDelete[..i], waitDelete[i]);
        i := i + 1;
      }
      assert waitDelete[..i] == waitDelete;
      DeletionEnds(s, View(), st, cleaned, bb);
    }

    /** Renames `bb` and everything it dominates. Answers false where an empty
        stack is read. */
    method ReName(bb: Block, g: Cfg, kids: Listing, ghost s: Ssa, ghost filled: seq<Block>, ghost cleaned: set<Block>)
      returns (ok: bool)
      requires Renamable(s) && KidsOk(s, kids) && g == s.g && bb in s.code.body
      requires VisitReady(s, View(), varValStack, filled, cleaned, bb)
      modifies f, this`varValStack
      ensures ok <==> SafeRun(s, filled, Preorder(s, kids, bb))
      ensures ok ==> VisitDone(s, View(), varValStack, filled, cleaned, bb, Preorder(s, kids, bb))
      decreases s.t.id[bb], 1
    {
      VisitParts(s, kids, filled, cleaned, bb);
      var waitDelete;
      ok, waitDelete := RenameBlock(bb, g, s, filled, cleaned);
      if !ok { return; }
      ok := ReNameKids(bb, g, kids, s, filled, cleaned);
      if !ok { return; }
      ghost var below := Forest(s, kids, bb, kids[bb]);
      LeaveBlock(bb, waitDelete, s, filled + [bb] + below, cleaned + Set(below));
    }

    /** Steps 3 to 6. */
    method RenameBlock(bb: Block, g: Cfg, ghost s: Ssa, ghost filled: seq<Block>, ghost cleaned: set<Block>)
      returns (ok: bool, waitDelete: seq<Id>)
      requires Renamable(s) && g == s.g && bb in s.code.body
      requires VisitReady(s, View(), varValStack, filled, cleaned, bb)
      modifies f`ops, f`uses, this`varValStack
      ensures ok <==> VisitSafe(s, filled, bb)
      ensures ok ==> Underway(s, View(), Stage(filled + [bb], bb, 0), cleaned)
      ensures ok ==> StacksAtEnd(s, varValStack, filled + [bb], bb)
      ensures ok ==> waitDelete == DroppedOf(s, s.code.body[bb])
    {
      SelfUnvisited(s, filled, cleaned, bb);
      PushPhis(bb, s, filled, cleaned);
      ok, waitDelete := RenameInstrs(bb, s, filled, cleaned);
      assert s.code.body[bb][..|s.code.body[bb]|] == s.code.body[bb];
      if ok {
        BlockFilled(s, varValStack, filled, bb);
        ok := FillSuccs(bb, s, filled, cleaned, g);
      }
    }

    /** Step 7 and the deletions. */
    method LeaveBlock(bb: Block, waitDelete: seq<Id>, ghost s: Ssa, ghost filled: seq<Block>, ghost cleaned: set<Block>)
      requires Renamable(s) && bb in s.code.body && bb !in cleaned && bb in s.t.up
      requires AncestorsIn(s, filled, bb) && bb in filled
      requires Underway(s, View(), Stage(filled, bb, 0), cleaned)
      requires StacksAtEnd(s, varValStack, filled, bb)
      requires waitDelete == DroppedOf(s, s.code.body[bb])
      modifies f`body, f`uses, this`varValStack
      ensures Underway(s, View(), Stage(filled, bb, 0), cleaned + {bb})
      ensures StacksOnEntry(s, varValStack, filled, bb)
    {
      PopDefs(bb, s, filled, Stage(filled, bb, 0), cleaned);
      DeleteAll(bb, waitDelete, s, Stage(filled, bb, 0), cleaned);
    }

    /** The recursive calls of `re_name`. */
    method ReNameKids(bb: Block, g: Cfg, kids: Listing, ghost s: Ssa, ghost filled: seq<Block>, ghost cleaned: set<Block>)
      returns (ok: bool)
      requires Renamable(s) && KidsOk(s, kids) && g == s.g && bb in s.code.body && bb in s.t.up && bb in kids
      requires AncestorsIn(s, filled, bb) && Unvisited(s, filled, cleaned, bb)
      requires Underway(s, View(), Stage(filled + [bb], bb, 0), cleaned)
      requires StacksAtEnd(s, varValStack, filled + [bb], bb)
      modifies f, this`varValStack
      ensures ok <==> SafeRun(s, filled + [bb], Forest(s, kids, bb, kids[bb]))
      ensures ok ==> var below := Forest(s, kids, bb, kids[bb]);
        && Underway(s, View(), Stage(filled + [bb] + below, bb, 0), cleaned + Set(below))
        && StacksAtEnd(s, varValStack, filled + [bb] + below, bb)
      decreases s.t.id[bb], 0
    {
      var cs := kids[bb];
      ok := true;
      var i := 0;
      assert cleaned + Set([]) == cleaned && filled + [bb] + [] == filled + [bb];
      while i < |cs|
        invariant 0 <= i <= |cs|
        invariant KidsDone(s, View(), varValStack, kids, filled, cleaned, bb, i)
      {
        KidReady(s, View(), varValStack, kids, filled, cleaned, bb, i);
        ghost var done := Forest(s, kids, bb, cs[..i]);
        ok := ReName(cs[i], g, kids, s, filled + [bb] + done, cleaned + Set(done));
        if !ok {
          KidFailed(s, kids, filled, bb, i);
          return;
        }
        KidDone(s, View(), varValStack, kids, filled, cleaned, bb, i);
        i := i + 1;
      }
      assert cs[..i] == cs;
    }

    /** Deletes the allocas of scalars, whose loads and stores are gone. */
    method RemoveAlloca(g: Cfg)
      requires AllKept(View()) && forall b :: b in f.body <==> b in g.blocks
      modifies f`body, f`uses
      ensures f.body.Keys == old(f.body.Keys)
      ensures forall c {:trigger Stripped(old(View()), f.body, c)} :: Stripped(old(View()), f.body, c)
      ensures StruckLists(old(View()), f.uses, g.blocks)
    {
      ghost var h := View();
      var i := 0;
      while i < |g.blocks|
        invariant 0 <= i <= |g.blocks|
        invariant f.kind == h.kind && f.ops == h.ops
        invariant Stripping(h, f.body, g.blocks[..i]) && StruckLists(h, f.uses, g.blocks[..i])
      {
        ghost var body, uses := f.body, f.uses;
        StripOne(h, body, g.blocks[..i], g.blocks[i]);
        RemoveAllocaOf(g.blocks[i]);
        StrikeOne(h, body, uses, g.blocks[..i], g.blocks[i], f.uses);
        assert g.blocks[..i + 1] == g.blocks[..i] + [g.blocks[i]];
        i := i + 1;
      }
      assert g.blocks[..i] == g.blocks;
      forall c ensures Stripped(h, f.body, c) {
        assert StrippingAt(h, f.body, g.blocks, c);
      }
    }

    method RemoveAllocaOf(bb: Block)
      requires bb in f.body && forall id :: id in f.body[bb] ==> id in f.kind && id in f.ops
      modifies f`body, f`uses
      ensures f.body == old(f.body)[bb := NoScalars(f.kind, old(f.body[bb]))]
      ensures WithoutScalars(old(View()), old(f.body[bb]), old(f.uses), f.uses)
    {
      var list := f.body[bb];
      var waitDelete := [];
      var i := 0;
      while i < |list|
        invariant 0 <= i <= |list|
        invariant forall id :: id in waitDelete <==> id in list[..i] && ScalarAlloca(f.kind, id)
      {
        if f.kind[list[i]].Alloca? && f.kind[list[i]].scalar {
          waitDelete := waitDelete + [list[i]];
        }
        assert list[..i + 1] == list[..i] + [list[i]];
        i := i + 1;
      }
      assert list[..i] == list;
      RemovedNone(list, []);
      i := 0;
      while i < |waitDelete|
        invariant 0 <= i <= |waitDelete|
        invariant f.body == old(f.body)[bb := Removed(list, waitDelete[..i])]
        invariant forall v, u {:trigger u in UsesOf(f.uses, v)} :: u in UsesOf(f.uses, v) <==>
          u in UsesOf(old(f.uses), v) && !(u.user in waitDelete[..i] && u.user in f.ops && v in f.ops[u.user])
      {
        RemovedOne(list, waitDelete[..i], waitDelete[i]);
        assert waitDelete[..i + 1] == waitDelete[..i] + [waitDelete[i]];
        assert waitDelete[i] in list;
        f.DeleteInstr(bb, waitDelete[i]);
        i := i + 1;
      }
      assert waitDelete[..i] == waitDelete;
      RemovedScalars(f.kind, list, waitDelete);
    }

    /** Step 1 of `generate_phi`: the slots that are stored to, and where. */
    method FindStores(g: Cfg) returns (live: set<Slot>, blocksOf: StoreMap)
      requires g.Wf() && forall b :: b in f.body <==> b in g.blocks
      requires forall b, k {:trigger StoreOk(f.ops, f.kind, f.body, b, k)} :: StoreOk(f.ops, f.kind, f.body, b, k)
      ensures StoresFound(Code(f.body, f.kind, f.ops), live, blocksOf)
    {
      ghost var code := Code(f.body, f.kind, f.ops);
      live, blocksOf := {}, map[];
      var i := 0;
      while i < |g.blocks|
        invariant 0 <= i <= |g.blocks|
        invariant Collected(code, blocksOf, live, g.blocks[..i], 0, 0)
      {
        live, blocksOf := FindStoresIn(g.blocks[i], live, blocksOf, g.blocks[..i]);
        assert g.blocks[..i + 1] == g.blocks[..i] + [g.blocks[i]];
        CollectBlock(code, blocksOf, live, g.blocks[..i], g.blocks[i], 0);
        i := i + 1;
      }
      assert g.blocks[..i] == g.blocks;
      CollectedAll(code, blocksOf, live, g.blocks, 0);
    }

    method FindStoresIn(bb: Block, live0: set<Slot>, blocksOf0: StoreMap, ghost done: seq<Block>)
      returns (live: set<Slot>, blocksOf: StoreMap)
      requires bb in f.body
      requires forall b, k {:trigger StoreOk(f.ops, f.kind, f.body, b, k)} :: StoreOk(f.ops, f.kind, f.body, b, k)
      requires Collected(Code(f.body, f.kind, f.ops), blocksOf0, live0, done, 0, 0)
      ensures Collected(Code(f.body, f.kind, f.ops), blocksOf, live, done, bb, |f.body[bb]|)
    {
      ghost var code := Code(f.body, f.kind, f.ops);
      live, blocksOf := live0, blocksOf0;
      var varIsKilled: set<Value> := {};
      CollectStart(code, blocksOf, live, done, 0, bb);
      var j := 0;
      while j < |f.body[bb]|
        invariant 0 <= j <= |f.body[bb]|
        invariant Collected(code, blocksOf, live, done, bb, j)
        invariant forall v :: v in varIsKilled ==> v.Addr?
      {
        var instr := f.body[bb][j];
        assert StoreOk(f.ops, f.kind, f.body, bb, j);
        if f.kind[instr] == Store && f.Promotable(f.ops[instr][1]) {
          var rVal, lVal := f.ops[instr][0], f.ops[instr][1];
          CollectOne(code, blocksOf, live, done, bb, j, lVal.x);
          if rVal !in varIsKilled {
            live := live + {lVal.x};
          }
          varIsKilled := varIsKilled + {lVal};
          blocksOf := blocksOf[lVal.x := (if lVal.x in blocksOf then blocksOf[lVal.x] else {}) + {bb}];
        } else {
          CollectNone(code, blocksOf, live, done, bb, j);
        }
        j := j + 1;
      }
    }

    /** Puts a phi for each slot into the blocks of its iterated frontier. */
    method GeneratePhi(g: Cfg, frontier: map<Block, set<Block>>, ghost pos: map<Id, Place>) returns (ghost phis: Phis)
      requires g.Wf() && IsMemoryForm(g, Code(f.body, f.kind, f.ops), pos)
      requires FrontiersExact(g, frontier)
      modifies f`body, f`kind, f`ops
      ensures Placed(old(Code(f.body, f.kind, f.ops)), View(), phis)
      ensures AllPlaced(g, old(Code(f.body, f.kind, f.ops)), phis)
    {
      ghost var code := Code(f.body, f.kind, f.ops);
      FormHasStoresOk(g, code, pos);
      var live, blocksOf := FindStores(g);
      FrontierInside(g, code, pos, frontier);
      WorkOf(code, live, blocksOf);
      phis := PlaceAll(live, blocksOf, frontier, code);
      AllSlotsPlaced(g, code, frontier, phis, live);
    }

    /** Step 2 of `generate_phi`. */
    method PlaceAll(live: set<Slot>, blocksOf: StoreMap, frontier: map<Block, set<Block>>, ghost code: Code)
      returns (ghost phis: Phis)
      requires NoPhisYet(code) && code == Code(f.body, f.kind, f.ops)
      requires live == blocksOf.Keys && forall x {:trigger WorkAt(code, blocksOf, x)} :: WorkAt(code, blocksOf, x)
      requires FrontierWithin(frontier, code.body.Keys)
      modifies f`body, f`kind, f`ops
      ensures Placed(code, View(), phis) && SlotsPlaced(code, frontier, phis, live)
    {
      var rest, has := live, {};
      phis := map b | b in code.body :: [];
      ghost var done := {};
      PlacementStarts(code, frontier, View());
      while rest != {}
        invariant rest !! done && rest + done == live
        invariant Placed(code, View(), phis) && AllRecorded(phis, has)
        invariant SlotsPlaced(code, frontier, phis, done)
        decreases rest
      {
        var x :| x in rest;
        assert WorkAt(code, blocksOf, x);
        has, phis := PlacePhis(x, blocksOf[x], frontier, has, code, phis, done);
        rest, done := rest - {x}, done + {x};
      }
    }

    /** Step 2 of `generate_phi` for one slot: a worklist that grows by every
        block that gets a phi. */
    method PlacePhis(x: Slot, work0: set<Block>, frontier: map<Block, set<Block>>, has0: set<(Block, Slot)>,
                     ghost code: Code, ghost phis0: Phis, ghost done: set<Slot>)
      returns (has: set<(Block, Slot)>, ghost phis: Phis)
      requires NoPhisYet(code) && Placed(code, View(), phis0) && FrontierWithin(frontier, code.body.Keys)
      requires forall b :: b in work0 <==> Stores(code, b, x)
      requires x !in done && SlotsPlaced(code, frontier, phis0, done) && AllRecorded(phis0, has0)
      modifies f`body, f`kind, f`ops
      ensures Placed(code, View(), phis)
      ensures SlotsPlaced(code, frontier, phis, done + {x}) && AllRecorded(phis, has)
    {
      SlotStarts(code, frontier, phis0, done, x, has0);
      phis, has := phis0, has0;
      var workList := SetToSeq(work0);
      WorkStarts(code, frontier, phis, x, workList);
      var i := 0;
      while i < |workList|
        invariant 0 <= i <= |workList|
        invariant Placed(code, View(), phis) && OnlyFor(phis0, phis, x, has)
        invariant Working(code, frontier, phis, x, workList, i, FrontierAt(frontier, workList, i))
        decreases code.body.Keys - PhiBlocks(phis, x), |workList| - i
      {
        workList, has, phis := PlaceFrontier(x, workList, i, frontier, has, code, phis0, phis);
        WorkMovesOn(code, frontier, phis, x, workList, i);
        i := i + 1;
      }
      WorkDone(code, frontier, phis, x, workList);
      SlotEnds(code, frontier, phis0, phis, done, x, has);
    }

    /** The frontier of one block of the worklist. */
    method PlaceFrontier(x: Slot, workList0: seq<Block>, i: nat, frontier: map<Block, set<Block>>, has0: set<(Block, Slot)>,
                         ghost code: Code, ghost phis0: Phis, ghost phis1: Phis)
      returns (workList: seq<Block>, has: set<(Block, Slot)>, ghost phis: Phis)
      requires NoPhisYet(code) && Placed(code, View(), phis1) && i < |workList0|
      requires FrontierWithin(frontier, code.body.Keys)
      requires OnlyFor(phis0, phis1, x, has0)
      requires Working(code, frontier, phis1, x, workList0, i, FrontierAt(frontier, workList0, i))
      modifies f`body, f`kind, f`ops
      ensures Placed(code, View(), phis) && OnlyFor(phis0, phis, x, has)
      ensures i < |workList| && Working(code, frontier, phis, x, workList, i, {})
      ensures PhiBlocks(phis1, x) <= PhiBlocks(phis, x) <= code.body.Keys
      ensures PhiBlocks(phis, x) == PhiBlocks(phis1, x) ==> workList == workList0
    {
      workList, has, phis := workList0, has0, phis1;
      var bb := workList[i];
      var rest := FrontierAt(frontier, workList, i);
      while rest != {}
        invariant i < |workList| && workList[i] == bb
        invariant Placed(code, View(), phis) && OnlyFor(phis0, phis, x, has)
        invariant Working(code, frontier, phis, x, workList, i, rest)
        invariant rest <= FrontierAt(frontier, workList, i)
        invariant PhiBlocks(phis1, x) <= PhiBlocks(phis, x)
        invariant PhiBlocks(phis, x) == PhiBlocks(phis1, x) ==> workList == workList0
        decreases rest
      {
        var y :| y in rest;
        assert Has(frontier, bb, y);
        if (y, x) !in has {
          assert y !in PhiBlocks(phis, x);
          workList, has, phis := PlacePhi(y, x, workList, has, frontier, i, rest, code, phis0, phis);
        } else {
          WorkSkips(code, frontier, phis, x, workList, i, rest, y);
        }
        rest := rest - {y};
      }
    }

    /** Gives `y` a phi for `x`, in front of its instructions. */
    method PlacePhi(y: Block, x: Slot, workList0: seq<Block>, has0: set<(Block, Slot)>, ghost frontier: map<Block, set<Block>>,
                    ghost i: nat, ghost rest: set<Block>, ghost code: Code, ghost phis0: Phis, ghost phis1: Phis)
      returns (workList: seq<Block>, has: set<(Block, Slot)>, ghost phis: Phis)
      requires NoPhisYet(code) && Placed(code, View(), phis1) && y in code.body && !PhiIn(phis1, y, x)
      requires OnlyFor(phis0, phis1, x, has0)
      requires i < |workList0| && Working(code, frontier, phis1, x, workList0, i, rest) && Has(frontier, workList0[i], y)
      modifies f`body, f`kind, f`ops
      ensures Placed(code, View(), phis) && OnlyFor(phis0, phis, x, has)
      ensures workList == workList0 + [y] && Working(code, frontier, phis, x, workList, i, rest - {y})
      ensures PhiBlocks(phis, x) == PhiBlocks(phis1, x) + {y}
    {
      ghost var h := View();
      assert PlacedBody(code, f.body, phis1, y);
      f.kind := f.kind[PhiOf(y, x) := Phi];
      f.ops := f.ops[PhiOf(y, x) := []];
      f.AddInstrBegin(y, PhiOf(y, x));
      phis := phis1[y := [x] + phis1[y]];
      PlaceOne(code, h, View(), phis1, y, x);
      WorkPlaces(code, frontier, phis1, x, workList0, i, rest, y);
      OnlyForOne(phis0, phis1, x, has0, y);
      workList, has := workList0 + [y], has0 + {(y, x)};
    }
  }

  lemma RenamingEnded(s: Ssa, kids: Listing, h: Heap, vs: Stacks)
    requires Renamable(s) && KidsOk(s, kids) && s.g.entry in s.code.body
    requires VisitDone(s, h, vs, [], {}, s.g.entry, Preorder(s, kids, s.g.entry))
    ensures var order := Preorder(s, kids, s.g.entry);
      && Distinct(order) && (forall d :: d in order <==> d in s.g.blocks) && (forall d :: d in Set(order) <==> d in s.g.blocks)
      && Underway(s, h, Stage(order, s.g.entry, 0), Set(order)) && AllKept(h) && forall b :: b in h.body <==> b in s.g.blocks
    ensures forall x :: Lookup(vs, x) == []
  {
    var order := Preorder(s, kids, s.g.entry);
    EachBlockOnce(s, kids);
    NothingBefore(order);
    StacksEmpty(s, vs, order);
    CleanedInside(s, h, Stage(order, s.g.entry, 0), Set(order));
  }

  /** What is left when the allocas are gone, too. */
  lemma AllFinished(s: Ssa, h: Heap, order: seq<Block>, h': Heap)
    requires Renamable(s) && Distinct(order) && Complete(s, h, order, Set(order), h'.body)
    requires h'.kind == h.kind && h'.ops == h.ops && StruckLists(h, h'.uses, s.g.blocks)
    ensures var out := Code(h'.body, h'.kind, h'.ops);
      && IsSsaForm(s, out) && AllPhiPairs(s, h'.ops) && ListsKept(s, h'.body, h'.ops, h'.uses)
      && ValidSsa(s.g, out) && SameMeaning(s.g.entry, s.code, out)
  {
    var out := Code(h'.body, h'.kind, h'.ops);
    FinishedIsSsa(s, h, order, Set(order), h'.body);
    FinishedLists(s, h, order, Set(order), h'.body, h'.uses, s.g.blocks);
    SsaIsValid(s, out);
    SsaMeansTheSame(s, out);
  }

  lemma AlwaysThrough(s: Ssa, kids: Listing, ok: bool)
    requires Renamable(s) && KidsOk(s, kids) && AllPlaced(s.g, s.code, s.phis) && (forall b :: b in s.phis ==> b in s.g.blocks)
    requires s.g.entry in s.code.body && (ok <==> SafeRun(s, [], Preorder(s, kids, s.g.entry)))
    ensures OrderSafe(s) ==> ok
    ensures SetFirst(s) ==> ok && LoadsDefined(s) && EdgesDefined(s)
  {
    if SetFirst(s) { SetFirstIsComplete(s); }
    if OrderSafe(s) { SafeInEveryOrder(s, kids); }
  }

  /** A set's elements in some order. */
  method SetToSeq(s: set<Block>) returns (q: seq<Block>)
    ensures Distinct(q) && forall b :: b in q <==> b in s
  {
    q := [];
    var rest := s;
    while rest != {}
      invariant rest <= s && Distinct(q) && forall b :: b in q <==> b in s - rest
      decreases rest
    {
      var b :| b in rest;
      assert b !in q;
      q, rest := q + [b], rest - {b};
    }
  }
}
