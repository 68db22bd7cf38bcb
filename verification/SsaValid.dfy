/** The SSA form is valid: no slot is stored to, every register has one
    definition, and definitions come before their uses. */
module SsaValid {
  import opened Graphs
  import opened IdomSweeps
  import opened IR
  import opened SsaForm
  import opened Meanings
  import opened RenameStacks

  ghost predicate DefinedAt(out: Code, id: Id, c: Block, j: nat) {
    c in out.body && j < |out.body[c]| && out.body[c][j] == id
  }

  /** `v`, if a register, has been computed when the walk from the entry comes
      to instruction `i` of `b`. */
  ghost predicate Available(g: Cfg, out: Code, v: Value, b: Block, i: nat) {
    v.Ref? ==> exists c, j: nat {:trigger DefinedAt(out, v.id, c, j)} ::
      DefinedAt(out, v.id, c, j) && if c == b then j < i else g.Dom(c, b)
  }

  // ----- where the kept instructions stand -----

  lemma {:induction false} KeptIndex(s: Ssa, ids: seq<Id>, k: nat)
    requires s.Ready() && k < |ids| && Kept(s, ids[k])
    ensures |KeptOf(s, ids[..k])| < |KeptOf(s, ids)|
    ensures KeptOf(s, ids)[|KeptOf(s, ids[..k])|] == ids[k]
  {
    if k == 0 {
      assert ids[..0] == [];
    } else {
      KeptIndex(s, ids[1..], k - 1);
      assert ids[..k][1..] == ids[1..][..k - 1];
    }
  }

  lemma {:induction false} KeptGrows(s: Ssa, ids: seq<Id>, j: nat, k: nat)
    requires s.Ready() && j < k <= |ids| && Kept(s, ids[j])
    ensures |KeptOf(s, ids[..j])| < |KeptOf(s, ids[..k])|
  {
    assert ids[..k][..j] == ids[..j];
    KeptIndex(s, ids[..k], j);
  }

  /** Each place of a kept list comes from one place of the original list. */
  lemma {:induction false} KeptFromIndex(s: Ssa, ids: seq<Id>, i: nat) returns (k: nat)
    requires s.Ready() && i < |KeptOf(s, ids)|
    ensures k < |ids| && Kept(s, ids[k]) && ids[k] == KeptOf(s, ids)[i] && |KeptOf(s, ids[..k])| == i
  {
    if Kept(s, ids[0]) && i == 0 {
      k := 0;
      assert ids[..0] == [];
    } else {
      var k' := KeptFromIndex(s, ids[1..], if Kept(s, ids[0]) then i - 1 else i);
      k := k' + 1;
      assert ids[..k][1..] == ids[1..][..k'];
    }
  }

  /** Instruction `k` of `b` in the new list of `b`. */
  ghost function NewIndex(s: Ssa, b: Block, k: nat): nat
    requires s.Ready() && b in s.code.body && k <= |s.code.body[b]| && b in s.phis
  {
    |s.phis[b]| + |KeptOf(s, s.code.body[b][..k])|
  }

  lemma KeptStands(s: Ssa, out: Code, id: Id)
    requires Fit(s) && IsSsaForm(s, out) && id in s.pos && Kept(s, id)
    ensures var p := s.pos[id];
            p.bb in s.code.body && p.k < |s.code.body[p.bb]| && p.bb in s.phis &&
            DefinedAt(out, id, p.bb, NewIndex(s, p.bb, p.k))
  {
    assert s.InstrOk(id);
    var p := s.pos[id];
    assert BodyRenamed(s, out, p.bb);
    KeptIndex(s, s.code.body[p.bb], p.k);
  }

  lemma PhiStands(s: Ssa, out: Code, b: Block, x: Slot) returns (i: nat)
    requires Fit(s) && IsSsaForm(s, out) && s.HasPhi(b, x) && b in s.code.body
    ensures i < |s.phis[b]| && DefinedAt(out, PhiOf(b, x), b, i)
  {
    assert BodyRenamed(s, out, b);
    i :| 0 <= i < |s.phis[b]| && s.phis[b][i] == x;
  }

  /** What stands in the new list: a phi, or a kept instruction. */
  lemma StandsHere(s: Ssa, out: Code, b: Block, i: nat) returns (k: nat)
    requires Renamable(s) && IsSsaForm(s, out) && b in out.body && i < |out.body[b]|
    ensures b in s.code.body && b in s.phis
    ensures i < |s.phis[b]| ==> out.body[b][i] == PhiOf(b, s.phis[b][i])
    ensures i >= |s.phis[b]| ==>
              && k < |s.code.body[b]| && out.body[b][i] == s.code.body[b][k] && Kept(s, out.body[b][i])
              && out.body[b][i] in s.pos && s.pos[out.body[b][i]] == Place(b, k) && out.body[b][i].Instr?
              && i == NewIndex(s, b, k)
  {
    assert BodyRenamed(s, out, b);
    k := 0;
    if i >= |s.phis[b]| {
      k := KeptFromIndex(s, s.code.body[b], i - |s.phis[b]|);
      assert s.PlaceOk(b, k) && s.InstrOk(s.code.body[b][k]);
    }
  }

  // ----- settled values are available -----

  lemma SettledIsAvailable(s: Ssa, out: Code, p: Place, v: Value)
    requires Renamable(s) && IsSsaForm(s, out) && s.Settled(p, v)
    requires p.bb in s.code.body && p.bb in s.phis && p.k <= |s.code.body[p.bb]|
    requires v.Ref? && v.id.PhiOf? ==> v.id.bb in s.code.body
    requires v.Ref? && v.id.Instr? ==> s.code.IsValue(v.id)
    ensures Available(s.g, out, v, p.bb, NewIndex(s, p.bb, p.k))
  {
    if v.Ref? {
      assert s.BlockOk(p.bb);
      match v.id {
        case PhiOf(d, y) =>
          var i := PhiStands(s, out, d, y);
          assert ExactAt(s.g, s.t, p.bb, d);
        case Instr(_) =>
          assert s.InstrOk(v.id);
          var q := s.pos[v.id];
          KeptStands(s, out, v.id);
          if q.bb == p.bb {
            KeptGrows(s, s.code.body[p.bb], q.k, p.k);
          } else {
            assert ExactAt(s.g, s.t, p.bb, q.bb);
          }
      }
    }
  }

  /** A value on a stack names a phi of a block, or a computed value. */
  ghost predicate Proper(s: Ssa, v: Value) {
    v.Ref? ==> if v.id.PhiOf? then v.id.bb in s.code.body else s.code.IsValue(v.id)
  }

  lemma {:induction false} StackProper(s: Ssa, b: Block, k: nat, x: Slot, v: Value)
    requires Fit(s) && b in s.code.body && k <= |s.code.body[b]| && v in s.Stack(b, k, x)
    ensures Proper(s, v)
    decreases assert s.BlockOk(b); s.Height(b), k
  {
    assert s.BlockOk(b) && s.t.LinkAt(b);
    if k == 0 {
      if v in s.Inherited(b, x) {
        StackProper(s, s.t.up[b], |s.code.body[s.t.up[b]]|, x, v);
      }
    } else {
      OneStepStack(s, b, k - 1, x);
      if v in s.Stack(b, k - 1, x) {
        StackProper(s, b, k - 1, x, v);
      } else {
        RenamedProper(s, Place(b, k - 1), s.code.ops[s.code.body[b][k - 1]][0]);
      }
    }
  }

  lemma {:induction false} RenamedProper(s: Ssa, p: Place, v: Value)
    requires Fit(s) && p.bb in s.code.body && p.k < |s.code.body[p.bb]|
    requires s.code.body[p.bb][p.k] in s.code.ops && v in s.code.ops[s.code.body[p.bb][p.k]]
    ensures Proper(s, s.RenamedAt(p, v))
    decreases assert s.BlockOk(p.bb); s.Height(p.bb), p.k, 1
  {
    assert s.BlockOk(p.bb) && s.PlaceOk(p.bb, p.k) && s.InstrOk(s.code.body[p.bb][p.k]);
    assert s.OperandOk(p, v);
    if v.Ref? {
      assert s.InstrOk(v.id);
      s.BeforeIsHigher(s.pos[v.id], p);
      if s.code.SlotLoad(v.id) {
        var st := s.Stack(s.pos[v.id].bb, s.pos[v.id].k, s.code.ops[v.id][0].x);
        if st != [] { StackProper(s, s.pos[v.id].bb, s.pos[v.id].k, s.code.ops[v.id][0].x, st[|st| - 1]); }
      }
    }
  }

  // ----- the parts of validity -----

  /** No store to a slot is left; a load is left only where no definition of
      its slot comes before. */
  lemma NoSlotAccess(s: Ssa, out: Code, b: Block, i: nat)
    requires Renamable(s) && IsSsaForm(s, out) && b in out.body && i < |out.body[b]|
    ensures var id := out.body[b][i];
      && !out.SlotStore(id)
      && (out.SlotLoad(id) ==>
            && id in s.pos && s.code.SlotLoad(id) && s.pos[id].bb in s.code.body
            && s.pos[id].k <= |s.code.body[s.pos[id].bb]|
            && s.Stack(s.pos[id].bb, s.pos[id].k, s.code.ops[id][0].x) == [])
      && (id in out.kind && out.kind[id].Alloca? ==> !out.kind[id].scalar)
  {
    var k := StandsHere(s, out, b, i);
    var id := out.body[b][i];
    assert KindKept(s, out, id) && OpsRenamed(s, out, id);
    if i >= |s.phis[b]| {
      assert s.InstrOk(id);
      SlotAccessKept(s, out, id);
    }
  }

  /** Every register has one definition. */
  lemma OneDefinition(s: Ssa, out: Code, id: Id, b: Block, i: nat, c: Block, j: nat)
    requires Renamable(s) && IsSsaForm(s, out) && DefinedAt(out, id, b, i) && DefinedAt(out, id, c, j)
    ensures b == c && i == j
  {
    var k := StandsHere(s, out, b, i);
    var l := StandsHere(s, out, c, j);
    assert PhiListOk(s, b);
  }

  /** Every ordinary use comes after its definition. */
  lemma UsesAvailable(s: Ssa, out: Code, b: Block, i: nat, v: Value)
    requires Renamable(s) && IsSsaForm(s, out) && b in out.body && i < |out.body[b]|
    requires !out.body[b][i].PhiOf? && out.body[b][i] in out.ops && v in out.ops[out.body[b][i]]
    ensures Available(s.g, out, v, b, i)
  {
    var id := out.body[b][i];
    var k := StandsHere(s, out, b, i);
    var p := Place(b, k);
    assert s.InstrOk(id) && OpsRenamed(s, out, id);
    var n :| 0 <= n < |out.ops[id]| && out.ops[id][n] == v;
    var w := s.code.ops[id][n];
    assert w in s.code.ops[id] && s.OperandOk(p, w);
    s.RenamedAtIsRenamed(p, w);
    s.RenamedSettled(p, w);
    RenamedProper(s, p, w);
    SettledIsAvailable(s, out, p, v);
  }

  /** Every pair of a phi names a predecessor, and its value is available at
      the end of that predecessor. */
  lemma PairsAvailable(s: Ssa, out: Code, b: Block, x: Slot, p: Block, v: Value)
    requires Renamable(s) && IsSsaForm(s, out) && s.HasPhi(b, x) && b in s.code.body
    requires p in s.g.blocks && s.g.Edge(p, b) && PhiOf(b, x) in out.ops && v in Incoming(out.ops[PhiOf(b, x)], p)
    ensures p in out.body && Available(s.g, out, v, p, |out.body[p]|)
  {
    assert PhiFilled(s, out, b, x, p) && BodyRenamed(s, out, p);
    var n := |s.code.body[p]|;
    s.StackSettled(p, n, x, v);
    StackProper(s, p, n, x, v);
    SettledIsAvailable(s, out, Place(p, n), v);
    assert s.code.body[p][..n] == s.code.body[p];
  }

  // ----- all together -----

  ghost predicate OnePlace(out: Code, id: Id, b: Block, i: nat, c: Block, j: nat) {
    DefinedAt(out, id, b, i) && DefinedAt(out, id, c, j) ==> b == c && i == j
  }

  ghost predicate UseFits(g: Cfg, out: Code, b: Block, i: nat, v: Value) {
    b in out.body && i < |out.body[b]| && !out.body[b][i].PhiOf? && out.body[b][i] in out.ops && v in out.ops[out.body[b][i]] ==>
      Available(g, out, v, b, i)
  }

  ghost predicate PairFits(g: Cfg, out: Code, b: Block, i: nat, p: Block, v: Value) {
    b in out.body && i < |out.body[b]| && out.body[b][i].PhiOf? && out.body[b][i] in out.ops &&
    p in g.blocks && g.Edge(p, b) && v in Incoming(out.ops[out.body[b][i]], p) ==>
      p in out.body && Available(g, out, v, p, |out.body[p]|)
  }

  ghost predicate NoStoreAt(out: Code, b: Block, i: nat) {
    b in out.body && i < |out.body[b]| ==> !out.SlotStore(out.body[b][i])
  }

  ghost predicate ValidSsa(g: Cfg, out: Code) {
    && (forall b, i: nat {:trigger NoStoreAt(out, b, i)} :: NoStoreAt(out, b, i))
    && (forall id, b, i: nat, c, j: nat {:trigger OnePlace(out, id, b, i, c, j)} :: OnePlace(out, id, b, i, c, j))
    && (forall b, i: nat, v {:trigger UseFits(g, out, b, i, v)} :: UseFits(g, out, b, i, v))
    && (forall b, i: nat, p, v {:trigger PairFits(g, out, b, i, p, v)} :: PairFits(g, out, b, i, p, v))
  }

  lemma SsaIsValid(s: Ssa, out: Code)
    requires Renamable(s) && IsSsaForm(s, out)
    ensures ValidSsa(s.g, out)
  {
    forall b, i: nat ensures NoStoreAt(out, b, i) {
      if b in out.body && i < |out.body[b]| { NoSlotAccess(s, out, b, i); }
    }
    forall id, b, i: nat, c, j: nat ensures OnePlace(out, id, b, i, c, j) {
      if DefinedAt(out, id, b, i) && DefinedAt(out, id, c, j) { OneDefinition(s, out, id, b, i, c, j); }
    }
    forall b, i: nat, v ensures UseFits(s.g, out, b, i, v) {
      if b in out.body && i < |out.body[b]| && !out.body[b][i].PhiOf? && out.body[b][i] in out.ops && v in out.ops[out.body[b][i]] {
        UsesAvailable(s, out, b, i, v);
      }
    }
    forall b, i: nat, p, v ensures PairFits(s.g, out, b, i, p, v) {
      if b in out.body && i < |out.body[b]| && out.body[b][i].PhiOf? && out.body[b][i] in out.ops &&
         p in s.g.blocks && s.g.Edge(p, b) && v in Incoming(out.ops[out.body[b][i]], p)
      {
        PhiPairFits(s, out, b, i, p, v);
      }
    }
  }

  lemma PhiPairFits(s: Ssa, out: Code, b: Block, i: nat, p: Block, v: Value)
    requires Renamable(s) && IsSsaForm(s, out) && b in out.body && i < |out.body[b]| && out.body[b][i].PhiOf?
    requires out.body[b][i] in out.ops && p in s.g.blocks && s.g.Edge(p, b) && v in Incoming(out.ops[out.body[b][i]], p)
    ensures PairFits(s.g, out, b, i, p, v)
  {
    var k := StandsHere(s, out, b, i);
    PairsAvailable(s, out, b, s.phis[b][i], p, v);
  }
}
