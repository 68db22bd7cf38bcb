/** What renaming along the dominator tree puts where: the stack of definitions
    that is in force at each place of a function, and the value that replaces
    each load of a promoted slot. */
module SsaForm {
  import opened Graphs
  import opened DomTrees
  import opened IdomSweeps
  import opened IR

  datatype Place = Place(bb: Block, k: nat)

  predicate PointerIn(kind: map<Id, Kind>, v: Value) {
    v.Addr? || v.Global? || (v.Ref? && v.id in kind && kind[v.id] == Gep)
  }

  datatype Code = Code(body: map<Block, seq<Id>>, kind: map<Id, Kind>, ops: Operands)
  {
    predicate Is(id: Id, k: Kind) {
      id in kind && kind[id] == k
    }

    /** A load whose address is a stack slot; loads from globals and through
        address computations stay as they are. */
    predicate LoadsFrom(id: Id, x: Slot) {
      Is(id, Load) && id in ops && |ops[id]| == 1 && ops[id][0] == Addr(x)
    }

    predicate StoresTo(id: Id, x: Slot) {
      Is(id, Store) && id in ops && |ops[id]| == 2 && ops[id][1] == Addr(x)
    }

    predicate SlotLoad(id: Id) {
      Is(id, Load) && id in ops && |ops[id]| == 1 && ops[id][0].Addr?
    }

    predicate SlotStore(id: Id) {
      Is(id, Store) && id in ops && |ops[id]| == 2 && ops[id][1].Addr?
    }

    /** The kinds of instruction whose result other instructions may name. */
    predicate IsValue(id: Id) {
      id in kind && (kind[id].Load? || kind[id].Gep? || kind[id].Exec?)
    }

    predicate IsTerminator(id: Id) {
      id in kind && (kind[id].Br? || kind[id].CondBr? || kind[id].Ret?)
    }

    /** A terminator is the last instruction of its block, and it jumps along
        edges of the graph. */
    ghost predicate TerminatorOk(g: Cfg, pos: map<Id, Place>, id: Id)
      requires id in pos && id in ops && pos[id].bb in body
    {
      IsTerminator(id) ==>
        && pos[id].k == |body[pos[id].bb]| - 1
        && (kind[id] == Br ==> |ops[id]| == 1 && ops[id][0].Label?)
        && (kind[id] == CondBr ==> |ops[id]| == 3 && ops[id][1].Label? && ops[id][2].Label?)
        && forall v :: v in ops[id] && v.Label? ==> g.Edge(pos[id].bb, v.bb)
    }

    /** An instruction that stands at its place: no phi yet, memory addressed by
        a slot, a global or a computed address, and no slot address stored. */
    ghost predicate ShapeOk(g: Cfg, pos: map<Id, Place>, id: Id)
      requires id in pos
    {
      && id in kind && id in ops && id.Instr? && kind[id] != Phi
      && pos[id].bb in body && pos[id].k < |body[pos[id].bb]| && body[pos[id].bb][pos[id].k] == id
      && (kind[id] == Load ==> |ops[id]| == 1 && PointerIn(kind, ops[id][0]))
      && (kind[id] == Store ==> |ops[id]| == 2 && PointerIn(kind, ops[id][1]) && !ops[id][0].Addr?)
      && TerminatorOk(g, pos, id)
    }

    ghost predicate PlaceOk(pos: map<Id, Place>, b: Block, k: nat) {
      b in body && k < |body[b]| ==> body[b][k] in pos && pos[body[b][k]] == Place(b, k)
    }
  }

  /** A function in memory form together with the dominator tree, the places of
      its instructions, the slots for which each block has been given a phi, and
      the use lists before renaming. */
  datatype Ssa = Ssa(g: Cfg, t: Tree, code: Code, pos: map<Id, Place>, phis: map<Block, seq<Slot>>, uses: UseLists)
  {
    ghost predicate Before(a: Place, b: Place)
      requires t.Ok()
    {
      b.bb in t.up && if a.bb == b.bb then a.k < b.k else t.Above(b.bb, a.bb)
    }

    /** Operands that are instructions have been computed before. */
    ghost predicate OperandOk(p: Place, v: Value)
      requires t.Ok()
    {
      v.Ref? ==> v.id in pos && code.IsValue(v.id) && Before(pos[v.id], p)
    }

    ghost predicate InstrOk(id: Id)
      requires t.Ok()
    {
      id in pos ==>
        && code.ShapeOk(g, pos, id)
        && forall i {:trigger code.ops[id][i]} :: 0 <= i < |code.ops[id]| ==> OperandOk(pos[id], code.ops[id][i])
    }

    ghost predicate PlaceOk(b: Block, k: nat) {
      code.PlaceOk(pos, b, k)
    }

    ghost predicate BlockOk(b: Block) {
      b in code.body ==> b in t.up && (b != t.root ==> t.up[b] in code.body)
    }

    /** The function is in order for renaming. */
    ghost predicate Ready() {
      && t.Ok()
      && (forall b {:trigger BlockOk(b)} :: BlockOk(b))
      && (forall b, k {:trigger PlaceOk(b, k)} :: PlaceOk(b, k))
      && (forall id {:trigger InstrOk(id)} :: InstrOk(id))
    }

    predicate HasPhi(b: Block, x: Slot) {
      b in phis && x in phis[b]
    }

    ghost function Height(b: Block): nat
      requires t.Ok() && b in t.up
    {
      t.id[t.root] - t.id[b]
    }

    lemma BeforeIsHigher(a: Place, b: Place)
      requires t.Ok() && Before(a, b)
      ensures a.bb in t.up
      ensures a.bb != b.bb ==> Height(a.bb) < Height(b.bb)
    {
      if a.bb != b.bb { t.AboveId(b.bb, a.bb); }
    }

    lemma BeforeTrans(a: Place, b: Place, c: Place)
      requires t.Ok() && Before(a, b) && Before(b, c)
      ensures Before(a, c)
    {
      if a.bb != b.bb && b.bb != c.bb {
        t.AboveId(b.bb, a.bb);
        t.AboveId(c.bb, b.bb);
        t.AboveTrans(c.bb, b.bb, a.bb);
      }
    }

    /** The definitions of `x` in force before instruction `k` of `b`: those of
        the immediate dominator, then the phi, then the stores of `b` so far. */
    ghost function Stack(b: Block, k: nat, x: Slot): seq<Value>
      requires Ready() && b in code.body && k <= |code.body[b]|
      decreases assert BlockOk(b); Height(b), k
    {
      assert BlockOk(b);
      if k == 0 then
        Inherited(b, x) + (if HasPhi(b, x) then [Ref(PhiOf(b, x))] else [])
      else
        assert PlaceOk(b, k - 1);
        var id := code.body[b][k - 1];
        if code.StoresTo(id, x) then Stack(b, k - 1, x) + [RenamedAt(Place(b, k - 1), code.ops[id][0])]
        else Stack(b, k - 1, x)
    }

    /** What `b` finds on the stack when its visit begins. */
    ghost function Inherited(b: Block, x: Slot): seq<Value>
      requires Ready() && b in code.body
      decreases assert BlockOk(b); Height(b), 0, 0
    {
      assert BlockOk(b) && t.LinkAt(b);
      if b == t.root then [] else Stack(t.up[b], |code.body[t.up[b]]|, x)
    }

    /** The value that an operand `v` of the instruction at `p` is renamed to. */
    ghost function RenamedAt(p: Place, v: Value): Value
      requires Ready() && p.bb in code.body && p.k < |code.body[p.bb]|
      decreases assert BlockOk(p.bb); Height(p.bb), p.k, 1
    {
      assert BlockOk(p.bb);
      if v.Ref? && code.SlotLoad(v.id) && v.id in pos && Before(pos[v.id], p) then
        assert InstrOk(v.id);
        BeforeIsHigher(pos[v.id], p);
        TopOr(Stack(pos[v.id].bb, pos[v.id].k, code.ops[v.id][0].x), v)
      else v
    }

    /** The value that every use of `v` is renamed to. */
    ghost function Renamed(v: Value): Value
      requires Ready()
    {
      if v.Ref? && code.SlotLoad(v.id) && v.id in pos then
        assert InstrOk(v.id);
        TopOr(Stack(pos[v.id].bb, pos[v.id].k, code.ops[v.id][0].x), v)
      else v
    }

    lemma RenamedAtIsRenamed(p: Place, v: Value)
      requires Ready() && p.bb in code.body && p.k < |code.body[p.bb]| && OperandOk(p, v)
      ensures RenamedAt(p, v) == Renamed(v)
    {
    }

    /** A load that renaming replaces and deletes. */
    ghost predicate Replaced(id: Id)
      requires Ready()
    {
      id in pos && code.SlotLoad(id) && (assert InstrOk(id); Stack(pos[id].bb, pos[id].k, code.ops[id][0].x) != [])
    }

    /** A value that stacks may hold at `p`: it is final, and computed before. */
    ghost predicate Settled(p: Place, v: Value)
      requires Ready()
    {
      v.Ref? ==>
        match v.id
        case PhiOf(d, y) => HasPhi(d, y) && p.bb in t.up && t.Above(p.bb, d)
        case Instr(_) => v.id in pos && Before(pos[v.id], p) && !Replaced(v.id)
    }

    lemma SettledFinal(p: Place, v: Value)
      requires Ready() && Settled(p, v)
      ensures v.Ref? ==> !Replaced(v.id)
    {
      if v.Ref? { assert InstrOk(v.id); }
    }

    lemma SettledLater(p: Place, q: Place, v: Value)
      requires Ready() && Settled(p, v) && q.bb in t.up && p.bb in t.up
      requires Before(p, q) || (p.bb == q.bb && p.k <= q.k)
      ensures Settled(q, v)
    {
      if v.Ref? {
        match v.id
        case PhiOf(d, y) =>
          t.AboveId(p.bb, d);
          if p.bb != q.bb { t.AboveId(q.bb, p.bb); t.AboveTrans(q.bb, p.bb, d); }
        case Instr(_) =>
          if Before(p, q) { BeforeTrans(pos[v.id], p, q); }
      }
    }

    /** Every value on a stack is settled at the place where the stack is read. */
    lemma {:induction false} StackSettled(b: Block, k: nat, x: Slot, v: Value)
      requires Ready() && b in code.body && k <= |code.body[b]|
      requires v in Stack(b, k, x)
      ensures Settled(Place(b, k), v)
      decreases assert BlockOk(b); Height(b), k
    {
      assert BlockOk(b) && t.LinkAt(b);
      if k == 0 {
        if v in Inherited(b, x) {
          var u := t.up[b];
          StackSettled(u, |code.body[u]|, x, v);
          assert t.Above(u, u) && t.Above(b, u);
          SettledLater(Place(u, |code.body[u]|), Place(b, 0), v);
        }
      } else {
        assert PlaceOk(b, k - 1);
        var id := code.body[b][k - 1];
        var p := Place(b, k - 1);
        if v in Stack(b, k - 1, x) {
          StackSettled(b, k - 1, x, v);
        } else {
          RenamedSettled(p, code.ops[id][0]);
        }
        SettledLater(p, Place(b, k), v);
      }
    }

    lemma {:induction false} RenamedSettled(p: Place, v: Value)
      requires Ready() && p.bb in code.body && p.k < |code.body[p.bb]|
      requires code.body[p.bb][p.k] in code.ops && v in code.ops[code.body[p.bb][p.k]]
      ensures Settled(p, RenamedAt(p, v))
      decreases assert BlockOk(p.bb); Height(p.bb), p.k, 1
    {
      assert BlockOk(p.bb) && PlaceOk(p.bb, p.k) && InstrOk(code.body[p.bb][p.k]);
      assert OperandOk(p, v);
      if v.Ref? {
        var q := pos[v.id];
        assert InstrOk(v.id);
        BeforeIsHigher(q, p);
        if code.SlotLoad(v.id) {
          var s := Stack(q.bb, q.k, code.ops[v.id][0].x);
          if s != [] {
            StackSettled(q.bb, q.k, code.ops[v.id][0].x, s[|s| - 1]);
            SettledLater(q, p, s[|s| - 1]);
          }
        }
      }
    }
  }

  // ----- phis, and the join lemma -----

  /** Some instruction of `b` stores to `x`. */
  ghost predicate Stores(code: Code, b: Block, x: Slot) {
    b in code.body && exists k :: 0 <= k < |code.body[b]| && code.StoresTo(code.body[b][k], x)
  }

  /** A block that defines `x` gives every block of its dominance frontier a
      phi for `x`. */
  ghost predicate ClosedAt(s: Ssa, b: Block, x: Slot, y: Block) {
    y in s.g.preds && InFrontier(s.g, b, y) && (s.HasPhi(b, x) || Stores(s.code, b, x)) ==> s.HasPhi(y, x)
  }

  /** Everything that the renaming pass may rely on. */
  ghost predicate Fit(s: Ssa) {
    && s.Ready()
    && IsDomTree(s.g, s.t) && s.g.AllReachable() && s.g.preds[s.g.entry] == []
    && (forall b :: b in s.code.body <==> b in s.g.blocks)
    && (forall b, x, y {:trigger ClosedAt(s, b, x, y)} :: ClosedAt(s, b, x, y))
    && (forall x {:trigger s.HasPhi(s.g.entry, x)} :: !s.HasPhi(s.g.entry, x))
  }

  ghost function AtEnd(s: Ssa, b: Block, x: Slot): seq<Value>
    requires s.Ready() && b in s.code.body
  {
    s.Stack(b, |s.code.body[b]|, x)
  }

  lemma {:induction false} NoStoreNoChange(s: Ssa, b: Block, k: nat, x: Slot)
    requires s.Ready() && b in s.code.body && k <= |s.code.body[b]|
    requires !Stores(s.code, b, x) && !s.HasPhi(b, x)
    ensures s.Stack(b, k, x) == s.Inherited(b, x)
  {
    if k > 0 {
      NoStoreNoChange(s, b, k - 1, x);
    }
  }

  /** Going up from a predecessor of `b` to the immediate dominator of `b`,
      the stack does not change when `b` needs no phi. */
  lemma {:induction false} ChainUnchanged(s: Ssa, p: Block, r: Block, b: Block, x: Slot)
    requires Fit(s) && b in s.g.blocks && b != s.g.entry && s.g.Edge(p, b) && p in s.t.up && b in s.t.up
    requires r in s.t.up && s.t.Above(p, r) && s.t.Above(r, s.t.up[b])
    requires !s.HasPhi(b, x)
    ensures r in s.code.body && s.t.up[b] in s.code.body
    ensures AtEnd(s, r, x) == AtEnd(s, s.t.up[b], x)
    decreases s.Height(r)
  {
    BlocksInTree(s.g, s.t);
    var u := s.t.up[b];
    assert s.t.LinkAt(b) && s.t.LinkAt(r);
    if r != u {
      s.t.AboveId(r, u);
      s.t.RootAbove(u);
      s.t.AboveId(u, s.t.root);
      assert Passed(s.t, p, r, b);
      PassedIsFrontier(s.g, s.t, p, r, b);
      s.g.EdgesMirror(p, b);
      assert InFrontier(s.g, r, b);
      assert ClosedAt(s, r, x, b);
      NoStoreNoChange(s, r, |s.code.body[r]|, x);
      s.t.AboveTrans(p, r, s.t.up[r]);
      ChainUnchanged(s, p, s.t.up[r], b, x);
    }
  }

  /** The join lemma of SSA construction: along an edge into a block without a
      phi for `x`, the stack for `x` is that of the immediate dominator. */
  lemma Join(s: Ssa, p: Block, b: Block, x: Slot)
    requires Fit(s) && p in s.g.blocks && s.g.Edge(p, b) && !s.HasPhi(b, x)
    ensures b in s.code.body && p in s.code.body
    ensures AtEnd(s, p, x) == s.Inherited(b, x)
  {
    BlocksInTree(s.g, s.t);
    s.g.EdgesMirror(p, b);
    ParentAbovePred(s.g, s.t, p, b);
    ChainUnchanged(s, p, p, b, x);
  }

  function TopOr(s: seq<Value>, v: Value): Value {
    if s == [] then v else s[|s| - 1]
  }
}
