/** What may be left behind: loads of a slot that has no definition before, whose
    alloca is deleted all the same, and phis without a pair for some edge. The
    SSA form is free of these exactly if every load has a definition before it,
    and every edge to a phi. */
module SsaClean {
  import opened Graphs
  import opened IR
  import opened SsaForm
  import opened Meanings
  import opened RenameStacks
  import opened RenameResult
  import opened RenameSafety
  import opened RenameSetup
  import opened SsaValid

  // ----- loads -----

  /** A load of a slot comes after some definition of it. */
  ghost predicate LoadDefined(s: Ssa, b: Block, k: nat)
    requires Fit(s)
  {
    b in s.code.body && k < |s.code.body[b]| && s.code.SlotLoad(s.code.body[b][k]) ==>
      b in s.t.up && DefinedAbove(s, b, k, s.code.ops[s.code.body[b][k]][0].x)
  }

  ghost predicate LoadsDefined(s: Ssa)
    requires Fit(s)
  {
    forall b, k: nat {:trigger LoadDefined(s, b, k)} :: LoadDefined(s, b, k)
  }

  ghost predicate NoLoadAt(out: Code, b: Block, i: nat) {
    b in out.body && i < |out.body[b]| ==> !out.SlotLoad(out.body[b][i])
  }

  ghost predicate NoSlotLoads(out: Code) {
    forall b, i: nat {:trigger NoLoadAt(out, b, i)} :: NoLoadAt(out, b, i)
  }

  /** A load is left behind exactly where it has no definition before it. */
  lemma LeftIffUndefined(s: Ssa, out: Code, b: Block, k: nat)
    requires Renamable(s) && IsSsaForm(s, out) && b in s.code.body && k < |s.code.body[b]| && s.code.SlotLoad(s.code.body[b][k])
    ensures b in s.phis && s.code.body[b][k] in s.pos
    ensures Kept(s, s.code.body[b][k]) <==> !LoadDefined(s, b, k)
    ensures Kept(s, s.code.body[b][k]) ==>
              DefinedAt(out, s.code.body[b][k], b, NewIndex(s, b, k)) && out.SlotLoad(s.code.body[b][k])
    ensures s.code.body[b][k] in out.ops && out.ops[s.code.body[b][k]] == s.code.ops[s.code.body[b][k]]
  {
    var id := s.code.body[b][k];
    assert s.PlaceOk(b, k) && s.InstrOk(id) && BodyRenamed(s, out, b) && KindKept(s, out, id) && OpsRenamed(s, out, id);
    EmptyIffUndefined(s, b, k, s.code.ops[id][0].x);
    SlotAccessKept(s, out, id);
    if Kept(s, id) { KeptStands(s, out, id); }
  }

  /** No load of a slot is left exactly if every one has a definition before. */
  lemma NoLoadsIffDefined(s: Ssa, out: Code)
    requires Renamable(s) && IsSsaForm(s, out)
    ensures NoSlotLoads(out) <==> LoadsDefined(s)
  {
    if LoadsDefined(s) {
      forall b, i: nat ensures NoLoadAt(out, b, i) {
        if b in out.body && i < |out.body[b]| && out.SlotLoad(out.body[b][i]) {
          NoSlotAccess(s, out, b, i);
          var p := s.pos[out.body[b][i]];
          assert s.InstrOk(out.body[b][i]) && LoadDefined(s, p.bb, p.k);
          EmptyIffUndefined(s, p.bb, p.k, s.code.ops[out.body[b][i]][0].x);
        }
      }
    } else {
      var b, k: nat :| !LoadDefined(s, b, k);
      LeftIffUndefined(s, out, b, k);
      assert !NoLoadAt(out, b, NewIndex(s, b, k));
    }
  }

  // ----- addresses -----

  ghost predicate AllocaAt(code: Code, b: Block, k: nat, x: Slot, scalar: bool) {
    b in code.body && k < |code.body[b]| && code.Is(code.body[b][k], Alloca(x, scalar))
  }

  ghost predicate HasAlloca(code: Code, x: Slot, scalar: bool) {
    exists b, k: nat {:trigger AllocaAt(code, b, k, x, scalar)} :: AllocaAt(code, b, k, x, scalar)
  }

  ghost predicate UsesAddress(code: Code, b: Block, k: nat, x: Slot) {
    b in code.body && k < |code.body[b]| && !code.body[b][k].PhiOf? && code.body[b][k] in code.ops && Addr(x) in code.ops[code.body[b][k]]
  }

  /** An address that an instruction uses is that of an alloca of the function. */
  ghost predicate AddressHeld(code: Code, b: Block, k: nat, x: Slot) {
    UsesAddress(code, b, k, x) ==> HasAlloca(code, x, true) || HasAlloca(code, x, false)
  }

  ghost predicate AddressesHeld(code: Code) {
    forall b, k: nat, x {:trigger AddressHeld(code, b, k, x)} :: AddressHeld(code, b, k, x)
  }

  /** Scalars are only loaded and stored, and no array has the slot of one. */
  ghost predicate ScalarPlain(code: Code, b: Block, k: nat, x: Slot) {
    HasAlloca(code, x, true) ==>
      !HasAlloca(code, x, false) && (UsesAddress(code, b, k, x) ==> code.LoadsFrom(code.body[b][k], x) || code.StoresTo(code.body[b][k], x))
  }

  ghost predicate ScalarsPlain(code: Code) {
    forall b, k: nat, x {:trigger ScalarPlain(code, b, k, x)} :: ScalarPlain(code, b, k, x)
  }

  /** No stack holds the address of a slot. */
  lemma {:induction false} StackHasNoAddress(s: Ssa, b: Block, k: nat, x: Slot, v: Value)
    requires Fit(s) && b in s.code.body && k <= |s.code.body[b]| && v in s.Stack(b, k, x)
    ensures !v.Addr?
    decreases assert s.BlockOk(b); s.Height(b), k
  {
    assert s.BlockOk(b) && s.t.LinkAt(b);
    if k == 0 {
      if v in s.Inherited(b, x) {
        StackHasNoAddress(s, s.t.up[b], |s.code.body[s.t.up[b]]|, x, v);
      }
    } else {
      OneStepStack(s, b, k - 1, x);
      if v in s.Stack(b, k - 1, x) {
        StackHasNoAddress(s, b, k - 1, x, v);
      } else {
        StoredIsNoAddress(s, Place(b, k - 1));
      }
    }
  }

  lemma {:induction false} StoredIsNoAddress(s: Ssa, p: Place)
    requires Fit(s) && p.bb in s.code.body && p.k < |s.code.body[p.bb]| && s.code.SlotStore(s.code.body[p.bb][p.k])
    ensures !s.RenamedAt(p, s.code.ops[s.code.body[p.bb][p.k]][0]).Addr?
    decreases assert s.BlockOk(p.bb); s.Height(p.bb), p.k, 1
  {
    var id := s.code.body[p.bb][p.k];
    assert s.BlockOk(p.bb) && s.PlaceOk(p.bb, p.k) && s.InstrOk(id);
    var v := s.code.ops[id][0];
    assert v in s.code.ops[id] && s.OperandOk(p, v);
    if v.Ref? {
      assert s.InstrOk(v.id);
      s.BeforeIsHigher(s.pos[v.id], p);
      if s.code.SlotLoad(v.id) {
        var st := s.Stack(s.pos[v.id].bb, s.pos[v.id].k, s.code.ops[v.id][0].x);
        if st != [] { StackHasNoAddress(s, s.pos[v.id].bb, s.pos[v.id].k, s.code.ops[v.id][0].x, st[|st| - 1]); }
      }
    }
  }

  /** An address that the SSA form uses was used there before. */
  lemma AddressWasUsed(s: Ssa, out: Code, b: Block, i: nat, x: Slot) returns (k: nat)
    requires Renamable(s) && IsSsaForm(s, out) && UsesAddress(out, b, i, x)
    ensures UsesAddress(s.code, b, k, x) && s.code.body[b][k] == out.body[b][i] && Kept(s, out.body[b][i])
  {
    k := StandsHere(s, out, b, i);
    var id := out.body[b][i];
    assert s.InstrOk(id) && OpsRenamed(s, out, id);
    var n :| 0 <= n < |out.ops[id]| && out.ops[id][n] == Addr(x);
    var v := s.code.ops[id][n];
    if v.Ref? && s.code.SlotLoad(v.id) && v.id in s.pos {
      assert s.InstrOk(v.id);
      var st := s.Stack(s.pos[v.id].bb, s.pos[v.id].k, s.code.ops[v.id][0].x);
      if st != [] { StackHasNoAddress(s, s.pos[v.id].bb, s.pos[v.id].k, s.code.ops[v.id][0].x, st[|st| - 1]); }
    }
  }

  lemma ArrayAllocaStays(s: Ssa, out: Code, b: Block, k: nat, x: Slot)
    requires Renamable(s) && IsSsaForm(s, out) && AllocaAt(s.code, b, k, x, false)
    ensures HasAlloca(out, x, false)
  {
    var id := s.code.body[b][k];
    assert s.PlaceOk(b, k) && s.InstrOk(id) && KindKept(s, out, id);
    KeptStands(s, out, id);
    assert AllocaAt(out, b, NewIndex(s, b, k), x, false);
  }

  lemma AllocaWasThere(s: Ssa, out: Code, b: Block, i: nat, x: Slot, scalar: bool)
    requires Renamable(s) && IsSsaForm(s, out) && AllocaAt(out, b, i, x, scalar)
    ensures !scalar && HasAlloca(s.code, x, false)
  {
    NoSlotAccess(s, out, b, i);
    var k := StandsHere(s, out, b, i);
    var id := out.body[b][i];
    assert KindKept(s, out, id);
    assert AllocaAt(s.code, b, k, x, false);
  }

  /** A load of a scalar comes after some definition of it. */
  ghost predicate ScalarsDefined(s: Ssa)
    requires Fit(s)
  {
    forall b, k: nat {:trigger LoadDefined(s, b, k)} ::
      b in s.code.body && k < |s.code.body[b]| && s.code.SlotLoad(s.code.body[b][k]) && HasAlloca(s.code, s.code.ops[s.code.body[b][k]][0].x, true) ==>
        LoadDefined(s, b, k)
  }

  /** Every address that is still used has its alloca exactly if every load of a
      scalar has a definition before it. */
  lemma HeldIffDefined(s: Ssa, out: Code)
    requires Renamable(s) && IsSsaForm(s, out) && AddressesHeld(s.code) && ScalarsPlain(s.code)
    ensures AddressesHeld(out) <==> ScalarsDefined(s)
  {
    if ScalarsDefined(s) {
      forall b, i: nat, x ensures AddressHeld(out, b, i, x) {
        if UsesAddress(out, b, i, x) { StillHeld(s, out, b, i, x); }
      }
    } else {
      var b, k: nat :| b in s.code.body && k < |s.code.body[b]| && s.code.SlotLoad(s.code.body[b][k]) &&
        HasAlloca(s.code, s.code.ops[s.code.body[b][k]][0].x, true) && !LoadDefined(s, b, k);
      NoLongerHeld(s, out, b, k);
    }
  }

  lemma StillHeld(s: Ssa, out: Code, b: Block, i: nat, x: Slot)
    requires Renamable(s) && IsSsaForm(s, out) && AddressesHeld(s.code) && ScalarsPlain(s.code) && ScalarsDefined(s)
    requires UsesAddress(out, b, i, x)
    ensures HasAlloca(out, x, false)
  {
    var k := AddressWasUsed(s, out, b, i, x);
    assert AddressHeld(s.code, b, k, x) && ScalarPlain(s.code, b, k, x);
    if HasAlloca(s.code, x, true) {
      var id := s.code.body[b][k];
      assert s.code.LoadsFrom(id, x);
      assert LoadDefined(s, b, k);
      LeftIffUndefined(s, out, b, k);
      assert false;
    } else {
      var c, j: nat :| AllocaAt(s.code, c, j, x, false);
      ArrayAllocaStays(s, out, c, j, x);
    }
  }

  lemma NoLongerHeld(s: Ssa, out: Code, b: Block, k: nat)
    requires Renamable(s) && IsSsaForm(s, out) && ScalarsPlain(s.code)
    requires b in s.code.body && k < |s.code.body[b]| && s.code.SlotLoad(s.code.body[b][k]) && !LoadDefined(s, b, k)
    requires HasAlloca(s.code, s.code.ops[s.code.body[b][k]][0].x, true)
    ensures !AddressesHeld(out)
  {
    var id := s.code.body[b][k];
    var x := s.code.ops[id][0].x;
    LeftIffUndefined(s, out, b, k);
    assert ScalarPlain(s.code, b, k, x) && !HasAlloca(s.code, x, false);
    forall c, j: nat, scalar ensures !AllocaAt(out, c, j, x, scalar) {
      if AllocaAt(out, c, j, x, scalar) { AllocaWasThere(s, out, c, j, x, scalar); }
    }
    assert s.PlaceOk(b, k) && s.InstrOk(id);
    assert Addr(x) in out.ops[id];
    assert UsesAddress(out, b, NewIndex(s, b, k), x) && !AddressHeld(out, b, NewIndex(s, b, k), x);
  }

  /** Valid, with no load of a slot left, and no address without its alloca. */
  ghost predicate CleanSsa(g: Cfg, out: Code) {
    ValidSsa(g, out) && NoSlotLoads(out) && AddressesHeld(out)
  }

  lemma CleanIffDefined(s: Ssa, out: Code)
    requires Renamable(s) && IsSsaForm(s, out) && AddressesHeld(s.code) && ScalarsPlain(s.code)
    ensures CleanSsa(s.g, out) <==> LoadsDefined(s)
  {
    SsaIsValid(s, out);
    NoLoadsIffDefined(s, out);
    HeldIffDefined(s, out);
  }

  /** All slots are of scalars, which are only loaded and stored. */
  ghost predicate AddressPlain(code: Code, b: Block, k: nat, x: Slot) {
    && !AllocaAt(code, b, k, x, false)
    && (UsesAddress(code, b, k, x) ==> code.LoadsFrom(code.body[b][k], x) || code.StoresTo(code.body[b][k], x))
  }

  ghost predicate PlainCode(code: Code) {
    forall b, k: nat, x {:trigger AddressPlain(code, b, k, x)} :: AddressPlain(code, b, k, x)
  }

  /** There, the two go together: an address is used exactly where a load is left. */
  lemma PlainIsCleanIffDefined(s: Ssa, out: Code)
    requires Renamable(s) && IsSsaForm(s, out) && PlainCode(s.code)
    ensures CleanSsa(s.g, out) <==> LoadsDefined(s)
    ensures AddressesHeld(out) <==> NoSlotLoads(out)
  {
    SsaIsValid(s, out);
    NoLoadsIffDefined(s, out);
    if NoSlotLoads(out) {
      forall b, i: nat, x ensures AddressHeld(out, b, i, x) {
        if UsesAddress(out, b, i, x) { NoAddressLeft(s, out, b, i, x); }
      }
    } else {
      var b, i: nat :| !NoLoadAt(out, b, i);
      NoSlotAccess(s, out, b, i);
      var x := out.ops[out.body[b][i]][0].x;
      NoArrayAlloca(s.code, x);
      forall c, j: nat, scalar ensures !AllocaAt(out, c, j, x, scalar) {
        if AllocaAt(out, c, j, x, scalar) { AllocaWasThere(s, out, c, j, x, scalar); }
      }
      assert UsesAddress(out, b, i, x) && !AddressHeld(out, b, i, x) by { StandsAsInstr(s, out, b, i); }
    }
  }

  lemma NoArrayAlloca(code: Code, x: Slot)
    requires PlainCode(code)
    ensures !HasAlloca(code, x, false)
  {
    forall b, k: nat ensures !AllocaAt(code, b, k, x, false) { assert AddressPlain(code, b, k, x); }
  }

  lemma StandsAsInstr(s: Ssa, out: Code, b: Block, i: nat)
    requires Renamable(s) && IsSsaForm(s, out) && !NoLoadAt(out, b, i)
    ensures !out.body[b][i].PhiOf?
  {
    var k := StandsHere(s, out, b, i);
    assert KindKept(s, out, out.body[b][i]);
  }

  lemma NoAddressLeft(s: Ssa, out: Code, b: Block, i: nat, x: Slot)
    requires Renamable(s) && IsSsaForm(s, out) && PlainCode(s.code) && UsesAddress(out, b, i, x)
    ensures !NoLoadAt(out, b, i)
  {
    var k := AddressWasUsed(s, out, b, i, x);
    var id := s.code.body[b][k];
    assert AddressPlain(s.code, b, k, x);
    assert s.PlaceOk(b, k) && s.InstrOk(id) && KindKept(s, out, id) && OpsRenamed(s, out, id);
    SlotAccessKept(s, out, id);
  }

  // ----- phis -----

  /** A phi has one pair for each edge from `p`. */
  ghost predicate PhiFull(s: Ssa, ops: Operands, b: Block, x: Slot, p: Block)
    requires Fit(s)
  {
    s.HasPhi(b, x) && b in s.g.blocks && p in s.g.blocks && s.g.Edge(p, b) ==>
      PhiOf(b, x) in ops && PairsFrom(ops[PhiOf(b, x)], p) == multiset(s.g.preds[b])[p]
  }

  ghost predicate PhisFull(s: Ssa, ops: Operands)
    requires Fit(s)
  {
    forall b, x, p {:trigger PhiFull(s, ops, b, x, p)} :: PhiFull(s, ops, b, x, p)
  }

  /** At the end of `p`, from which an edge leads to a phi, there is a definition. */
  ghost predicate EdgeDefined(s: Ssa, b: Block, x: Slot, p: Block)
    requires Fit(s)
  {
    s.HasPhi(b, x) && b in s.g.blocks && p in s.g.blocks && s.g.Edge(p, b) ==>
      p in s.t.up && DefinedAbove(s, p, |s.code.body[p]|, x)
  }

  ghost predicate EdgesDefined(s: Ssa)
    requires Fit(s)
  {
    forall b, x, p {:trigger EdgeDefined(s, b, x, p)} :: EdgeDefined(s, b, x, p)
  }

  /** Every phi has one pair per incoming edge exactly if at the end of every
      predecessor there is a definition. */
  lemma PhisFullIffDefined(s: Ssa, ops: Operands)
    requires Renamable(s) && AllPhiPairs(s, ops)
    ensures PhisFull(s, ops) <==> EdgesDefined(s)
  {
    forall b, x, p ensures PhiFull(s, ops, b, x, p) <==> EdgeDefined(s, b, x, p) {
      if s.HasPhi(b, x) && b in s.g.blocks && p in s.g.blocks && s.g.Edge(p, b) {
        assert PhiPairs(s, ops, b, x, p);
        s.g.EdgesMirror(p, b);
        EmptyIffUndefined(s, p, |s.code.body[p]|, x);
      }
    }
    if PhisFull(s, ops) { forall b, x, p ensures EdgeDefined(s, b, x, p) { assert PhiFull(s, ops, b, x, p); } }
    if EdgesDefined(s) { forall b, x, p ensures PhiFull(s, ops, b, x, p) { assert EdgeDefined(s, b, x, p); } }
  }

  // ----- all slots set in the entry -----

  ghost predicate SetFirst(s: Ssa) {
    forall x {:trigger Accessed(s, x)} :: Accessed(s, x) ==> StoredFirst(s, x)
  }

  /** Where the entry stores to every slot before it loads it, every order of
      the visits goes through, no load is left, and no phi lacks a pair. */
  lemma SetFirstIsComplete(s: Ssa)
    requires Renamable(s) && AllPlaced(s.g, s.code, s.phis) && SetFirst(s)
    ensures OrderSafe(s) && LoadsDefined(s) && EdgesDefined(s)
  {
    StoredFirstIsSafe(s);
    forall b, k: nat ensures LoadDefined(s, b, k) {
      if b in s.code.body && k < |s.code.body[b]| && s.code.SlotLoad(s.code.body[b][k]) {
        var id := s.code.body[b][k];
        assert s.PlaceOk(b, k) && s.InstrOk(id) && s.Replaced(id);
        EmptyIffUndefined(s, b, k, s.code.ops[id][0].x);
      }
    }
    forall b, x, p ensures EdgeDefined(s, b, x, p) {
      if s.HasPhi(b, x) && b in s.g.blocks && p in s.g.blocks && s.g.Edge(p, b) {
        PhiMeansStore(s, b, x);
        StoredFirstAbove(s, p, |s.code.body[p]|, x);
        EmptyIffUndefined(s, p, |s.code.body[p]|, x);
      }
    }
  }
}
