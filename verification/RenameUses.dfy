/** The use lists when renaming has come to its end and the allocas are gone. */
module RenameUses {
  import opened Graphs
  import opened IR
  import opened SsaForm
  import opened Meanings
  import opened RenameSteps
  import opened RenameStacks
  import opened RenameResult

  // ----- deleting allocas -----

  /** An alloca of one of these blocks that goes. */
  ghost predicate Struck(h: Heap, done: seq<Block>, id: Id) {
    ScalarAlloca(h.kind, id) && exists b :: b in done && Inside(h.body, b, id)
  }

  ghost predicate StruckUse(h: Heap, done: seq<Block>, u: Use, v: Value) {
    Struck(h, done, u.user) && u.user in h.ops && v in h.ops[u.user]
  }

  /** The lists of `uses` without the entries of the allocas that are gone. */
  ghost predicate StruckList(h: Heap, uses: UseLists, done: seq<Block>, v: Value) {
    forall u {:trigger u in UsesOf(uses, v)} :: u in UsesOf(uses, v) <==>
      u in UsesOf(h.uses, v) && !StruckUse(h, done, u, v)
  }

  ghost predicate StruckLists(h: Heap, uses: UseLists, done: seq<Block>) {
    forall v {:trigger StruckList(h, uses, done, v)} :: StruckList(h, uses, done, v)
  }

  /** The lists after the scalar allocas of `list` have been deleted. */
  ghost predicate WithoutScalars(h: Heap, list: seq<Id>, uses: UseLists, uses': UseLists) {
    forall v, u {:trigger u in UsesOf(uses', v)} :: u in UsesOf(uses', v) <==>
      u in UsesOf(uses, v) && !(u.user in list && ScalarAlloca(h.kind, u.user) && u.user in h.ops && v in h.ops[u.user])
  }

  lemma StrikeOne(h: Heap, body: map<Block, seq<Id>>, uses: UseLists, done: seq<Block>, b: Block, uses': UseLists)
    requires Stripping(h, body, done) && b in body && StruckLists(h, uses, done) && WithoutScalars(h, body[b], uses, uses')
    ensures StruckLists(h, uses', done + [b])
  {
    var done1 := done + [b];
    assert StrippingAt(h, body, done, b);
    forall v ensures StruckList(h, uses', done1, v) {
      assert StruckList(h, uses, done, v);
      forall u: Use ensures u in UsesOf(uses', v) <==>
        u in UsesOf(h.uses, v) && !StruckUse(h, done1, u, v)
      {
        StruckMore(h, body, done, b, u.user);
        assert u in UsesOf(uses, v) <==> u in UsesOf(h.uses, v) && !StruckUse(h, done, u, v);
      }
    }
  }

  lemma StruckMore(h: Heap, body: map<Block, seq<Id>>, done: seq<Block>, b: Block, id: Id)
    requires Stripping(h, body, done) && b in body
    ensures Struck(h, done + [b], id) <==> Struck(h, done, id) || (id in body[b] && ScalarAlloca(h.kind, id))
  {
    assert StrippingAt(h, body, done, b);
    if Struck(h, done + [b], id) {
      var c :| c in done + [b] && Inside(h.body, c, id);
      if c in done { assert Struck(h, done, id); }
    }
    if Struck(h, done, id) {
      var c :| c in done && Inside(h.body, c, id);
      assert c in done + [b];
    }
    if id in body[b] && ScalarAlloca(h.kind, id) {
      assert b in done + [b] && Inside(h.body, b, id);
    }
  }

  // ----- the finished function -----

  ghost predicate Stands(body: map<Block, seq<Id>>, id: Id) {
    exists b :: Inside(body, b, id)
  }

  /** The use list of `v` names exactly the operands of standing instructions
      that are `v`. */
  ghost predicate ListExact(body: map<Block, seq<Id>>, ops: Operands, uses: UseLists, v: Value) {
    forall u {:trigger HasOperand(ops, u, v)} {:trigger u in UsesOf(uses, v)} ::
      u in UsesOf(uses, v) <==> HasOperand(ops, u, v) && Stands(body, u.user)
  }

  /** A value whose list was exact has an exact list still, unless it is a load
      that was replaced; that one is no operand any more. */
  ghost predicate ListKept(s: Ssa, body: map<Block, seq<Id>>, ops: Operands, uses: UseLists, v: Value)
    requires s.Ready()
  {
    if v.Ref? && s.Replaced(v.id) then forall u :: !HasOperand(ops, u, v)
    else ExactUses(s.code.ops, s.uses, v) ==> ListExact(body, ops, uses, v)
  }

  ghost predicate ListsKept(s: Ssa, body: map<Block, seq<Id>>, ops: Operands, uses: UseLists)
    requires s.Ready()
  {
    forall v {:trigger ListKept(s, body, ops, uses, v)} :: ListKept(s, body, ops, uses, v)
  }

  /** Every operand that is left is in its use list, and every list but those of
      replaced loads names nothing else. */
  ghost predicate UsesInOrder(s: Ssa, body: map<Block, seq<Id>>, ops: Operands, uses: UseLists)
    requires s.Ready()
  {
    && (forall v: Value {:trigger ListExact(body, ops, uses, v)} :: !(v.Ref? && s.Replaced(v.id)) ==> ListExact(body, ops, uses, v))
    && (forall id {:trigger Covered(ops, uses, id)} :: Stands(body, id) ==> Covered(ops, uses, id))
  }

  /** It is so if all lists were exact at the start. */
  lemma AllInOrder(s: Ssa, body: map<Block, seq<Id>>, ops: Operands, uses: UseLists)
    requires s.Ready() && ListsKept(s, body, ops, uses)
    requires forall v {:trigger ExactUses(s.code.ops, s.uses, v)} :: ExactUses(s.code.ops, s.uses, v)
    ensures UsesInOrder(s, body, ops, uses)
  {
    forall v: Value | !(v.Ref? && s.Replaced(v.id)) ensures ListExact(body, ops, uses, v) {
      assert ListKept(s, body, ops, uses, v) && ExactUses(s.code.ops, s.uses, v);
    }
    forall id | Stands(body, id) ensures Covered(ops, uses, id) {
      forall v ensures Registered(ops, uses, id, v) {
        assert ListKept(s, body, ops, uses, v);
        if !(v.Ref? && s.Replaced(v.id)) { assert ListExact(body, ops, uses, v); }
      }
    }
  }

  /** Everything has been visited, and `body` is what is left without allocas. */
  ghost predicate Complete(s: Ssa, h: Heap, order: seq<Block>, cleaned: set<Block>, body: map<Block, seq<Id>>)
    requires Renamable(s)
  {
    && (forall d :: d in order <==> d in s.g.blocks) && (forall d :: d in cleaned <==> d in s.g.blocks)
    && Underway(s, h, Stage(order, s.g.entry, 0), cleaned) && (forall b :: b in s.phis ==> b in s.g.blocks)
    && body.Keys == h.body.Keys && forall c {:trigger Stripped(h, body, c)} :: Stripped(h, body, c)
  }

  lemma NoReplacedOperand(s: Ssa, h: Heap, order: seq<Block>, cleaned: set<Block>, body: map<Block, seq<Id>>, l: Id, u: Use)
    requires Renamable(s) && Complete(s, h, order, cleaned, body) && s.Replaced(l)
    ensures !HasOperand(h.ops, u, Ref(l))
  {
    var g := Stage(order, s.g.entry, 0);
    if HasOperand(h.ops, u, Ref(l)) {
      assert Known(s, h, u.user) && s.InstrOk(l);
      if u.user in s.pos {
        assert OpsAt(s, h.ops, g, u.user);
        NowFinal(s, g, s.code.ops[u.user][u.argNo], l);
      } else {
        assert PhiAt(s, h.ops, order, IDLE, u.user.bb, u.user.lval);
        PhiHoldsFinal(s, h.ops, order, u.user.bb, u.user.lval, h.ops[u.user][u.argNo]);
      }
    }
  }

  lemma NowFinal(s: Ssa, g: Stage, v: Value, l: Id)
    requires s.Ready() && s.Replaced(l) && LoadDone(s, g, l)
    ensures Now(s, g, v) != Ref(l)
  {
    RenamedFinal(s, v);
  }

  lemma PhiHoldsFinal(s: Ssa, ops: Operands, order: seq<Block>, c: Block, x: Slot, v: Value)
    requires s.Ready() && PhiAt(s, ops, order, IDLE, c, x) && s.HasPhi(c, x) && v in ops[PhiOf(c, x)]
    ensures v.Ref? ==> !s.Replaced(v.id)
  {
    assert Added(s, 0, [], c, x) == [];
    assert ops[PhiOf(c, x)] == PhiOps(s, order, c, x) + [] + [];
    PhiOpsFinal(s, order, c, x, v);
  }

  /** What stands in the end: the phis, and what was neither dropped nor struck. */
  lemma WhoStands(s: Ssa, h: Heap, order: seq<Block>, cleaned: set<Block>, body: map<Block, seq<Id>>, id: Id)
    requires Renamable(s) && Complete(s, h, order, cleaned, body) && id in h.ops
    ensures Stands(body, id) <==> !Gone(s, cleaned, [], id) && !ScalarAlloca(h.kind, id)
  {
    assert Known(s, h, id);
    if id in s.pos {
      InstrStands(s, h, order, cleaned, body, id);
    } else {
      PhiStands(s, h, order, cleaned, body, id.bb, id.lval);
    }
  }

  lemma PhiStands(s: Ssa, h: Heap, order: seq<Block>, cleaned: set<Block>, body: map<Block, seq<Id>>, b: Block, x: Slot)
    requires Renamable(s) && Complete(s, h, order, cleaned, body) && s.HasPhi(b, x)
    ensures Stands(body, PhiOf(b, x)) && !ScalarAlloca(h.kind, PhiOf(b, x))
  {
    assert Known(s, h, PhiOf(b, x)) && BodyAt(s, h.body, cleaned, b) && Stripped(h, body, b);
    var i :| 0 <= i < |s.phis[b]| && s.phis[b][i] == x;
    assert PhiIds(b, s.phis[b])[i] == PhiOf(b, x);
    assert Inside(body, b, PhiOf(b, x));
  }

  lemma InstrStands(s: Ssa, h: Heap, order: seq<Block>, cleaned: set<Block>, body: map<Block, seq<Id>>, id: Id)
    requires Renamable(s) && Complete(s, h, order, cleaned, body) && id in s.pos
    ensures Stands(body, id) <==> !Gone(s, cleaned, [], id) && !ScalarAlloca(h.kind, id)
  {
    assert s.InstrOk(id);
    var b := s.pos[id].bb;
    assert BodyAt(s, h.body, cleaned, b) && Stripped(h, body, b);
    CleanedFrom(s, s.code.body[b], id);
    if Stands(body, id) {
      var c :| Inside(body, c, id);
      assert BodyAt(s, h.body, cleaned, c) && Stripped(h, body, c);
      CleanedFrom(s, s.code.body[c], id);
    } else {
      assert !Inside(body, b, id);
    }
  }

  lemma ScalarIsInstr(s: Ssa, h: Heap, id: Id)
    requires s.Ready() && Known(s, h, id) && id in h.ops && ScalarAlloca(h.kind, id)
    ensures id in s.pos && !Dropped(s, id)
  {
    assert s.InstrOk(id);
  }

  /** All blocks done, every scalar alloca is struck. */
  lemma StruckIsScalar(s: Ssa, h: Heap, order: seq<Block>, cleaned: set<Block>, body: map<Block, seq<Id>>, done: seq<Block>, id: Id)
    requires Renamable(s) && Complete(s, h, order, cleaned, body) && (forall d :: d in done <==> d in s.g.blocks) && id in h.ops
    ensures Struck(h, done, id) <==> ScalarAlloca(h.kind, id)
  {
    if ScalarAlloca(h.kind, id) {
      assert Known(s, h, id);
      ScalarIsInstr(s, h, id);
      StandsInside(s, h, order, cleaned, body, id);
    }
  }

  lemma StandsInside(s: Ssa, h: Heap, order: seq<Block>, cleaned: set<Block>, body: map<Block, seq<Id>>, id: Id)
    requires Renamable(s) && Complete(s, h, order, cleaned, body) && id in s.pos && !Dropped(s, id)
    ensures s.pos[id].bb in s.g.blocks && Inside(h.body, s.pos[id].bb, id)
  {
    assert s.InstrOk(id);
    assert BodyAt(s, h.body, cleaned, s.pos[id].bb);
    CleanedFrom(s, s.code.body[s.pos[id].bb], id);
  }

  lemma UserStands(s: Ssa, h: Heap, order: seq<Block>, cleaned: set<Block>, body: map<Block, seq<Id>>, done: seq<Block>, u: Use, v: Value)
    requires Renamable(s) && Complete(s, h, order, cleaned, body) && (forall d :: d in done <==> d in s.g.blocks)
    requires HasOperand(h.ops, u, v)
    ensures Stands(body, u.user) <==> !Gone(s, cleaned, [], u.user) && !StruckUse(h, done, u, v)
  {
    WhoStands(s, h, order, cleaned, body, u.user);
    StruckIsScalar(s, h, order, cleaned, body, done, u.user);
  }

  /** The lists that were exact, and are not those of replaced loads, are exact. */
  lemma FinishedLists(s: Ssa, h: Heap, order: seq<Block>, cleaned: set<Block>, body: map<Block, seq<Id>>, uses: UseLists, done: seq<Block>)
    requires Renamable(s) && Complete(s, h, order, cleaned, body) && (forall d :: d in done <==> d in s.g.blocks)
    requires StruckLists(h, uses, done)
    ensures ListsKept(s, body, h.ops, uses)
  {
    forall v ensures ListKept(s, body, h.ops, uses, v) {
      if v.Ref? && s.Replaced(v.id) {
        forall u ensures !HasOperand(h.ops, u, v) { NoReplacedOperand(s, h, order, cleaned, body, v.id, u); }
      } else {
        FinishedList(s, h, order, cleaned, body, uses, done, v);
      }
    }
  }

  lemma FinishedList(s: Ssa, h: Heap, order: seq<Block>, cleaned: set<Block>, body: map<Block, seq<Id>>, uses: UseLists, done: seq<Block>, v: Value)
    requires Renamable(s) && Complete(s, h, order, cleaned, body) && (forall d :: d in done <==> d in s.g.blocks)
    requires StruckList(h, uses, done, v) && (v.Ref? ==> !s.Replaced(v.id))
    ensures ListKept(s, body, h.ops, uses, v)
  {
    assert ListAt(s, h, Stage(order, s.g.entry, 0), cleaned, [], v);
    forall u | HasOperand(h.ops, u, v)
      ensures Stands(body, u.user) <==> !Gone(s, cleaned, [], u.user) && !StruckUse(h, done, u, v)
    {
      UserStands(s, h, order, cleaned, body, done, u, v);
    }
    ListLeft(s, h, Stage(order, s.g.entry, 0), cleaned, body, uses, done, v);
  }

  lemma ListLeft(s: Ssa, h: Heap, g: Stage, cleaned: set<Block>, body: map<Block, seq<Id>>, uses: UseLists, done: seq<Block>, v: Value)
    requires s.Ready() && ListAt(s, h, g, cleaned, [], v) && StruckList(h, uses, done, v) && (v.Ref? ==> !s.Replaced(v.id))
    requires forall u {:trigger HasOperand(h.ops, u, v)} :: HasOperand(h.ops, u, v) ==>
               (Stands(body, u.user) <==> !Gone(s, cleaned, [], u.user) && !StruckUse(h, done, u, v))
    ensures ListKept(s, body, h.ops, uses, v)
  {
    if ExactUses(s.code.ops, s.uses, v) {
      forall u: Use ensures u in UsesOf(uses, v) <==> HasOperand(h.ops, u, v) && Stands(body, u.user) {
        assert u in UsesOf(h.uses, v) <==> HasOperand(h.ops, u, v) && !Gone(s, cleaned, [], u.user);
        assert u in UsesOf(uses, v) <==> u in UsesOf(h.uses, v) && !StruckUse(h, done, u, v);
      }
    }
  }
}
