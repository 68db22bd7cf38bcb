/** Functions that are lowered as they should be, and that SSA construction does
    not deal with: it stops, or it leaves a load without its alloca. */
module LoweringExample {
  import opened Graphs
  import opened IR
  import opened SsaForm
  import opened Meanings
  import opened RenameStacks
  import opened RenameOrder
  import opened RenameResult
  import opened RenameSetup
  import opened RenameSafety
  import opened RenameExample
  import opened SsaValid
  import opened SsaClean
  import opened Sources
  import opened Lowerings
  import opened LoweringGrowth
  import opened LoweringOk
  import opened LoweringNeat
  import opened LoweringInit

  /** `{ int x; x = n; }` */
  function SetsLocal(x: string, n: int): Stmt {
    Compound([x], [Do(Assign(x, Expr.Num(n)))])
  }

  /** `if (c) { int x; x = m; } else { int y; y = n; }` */
  function ArmsProgram(params: seq<string>, c: Expr, x: string, m: int, y: string, n: int): Function {
    Function(params, [], [IfElse(c, SetsLocal(x, m), SetsLocal(y, n))])
  }

  /** `if (c) if (d) { int x; x = n; }` */
  function NestedProgram(params: seq<string>, c: Expr, d: Expr, x: string, n: int): Function {
    Function(params, [], [If(c, If(d, SetsLocal(x, n)))])
  }

  // ----- the parts of these programs -----

  /** The code of `{ int x; x = n; }` */
  ghost predicate SetsCode(st: Build, n: int, r: Build) {
    r == st.Emit(Alloca(st.slots, true), []).Emit(Store, [Const(n), Addr(st.slots)]).(slots := st.slots + 1)
  }

  lemma SetsLowered(st: Build, x: string, n: int, r: Build)
    requires Becomes(st, SetsLocal(x, n), r)
    ensures SetsCode(st, n, r)
  {
    var s, e := SetsLocal(x, n), Assign(x, Expr.Num(n));
    var st1 := OpenLocals(st, [x]);
    var st2 := CompoundBecomes(st, s, r, st1);
    var st3 := NextBecomes(st1, [Do(e)], st2);
    assert [Do(e)][1..] == [];
    var st4 := NextBecomes(st3, [], st2);
    SimpleBecomes(st1, Do(e), st3);
    OneDeclared(st, x, st1);
    assert st3 == st1.Emit(Store, [Const(n), Addr(st.slots)]) by { SetLowered(st1, x, n, st.slots); }
    assert Drop(st1.scopes) == st.scopes;
  }

  lemma OneDeclared(st: Build, x: string, st1: Build)
    requires st1 == OpenLocals(st, [x])
    ensures st1 == st.Emit(Alloca(st.slots, true), []).(slots := st.slots + 1, scopes := st.scopes + [map[x := st.slots]])
  {
    var st0 := st.(scopes := st.scopes + [map[]]);
    assert [x][..0] == [] && DeclareLocals(st0, []) == st0 && DeclareLocals(st0, [x]) == st0.Declare(x);
    assert Push(st0.scopes, x, st.slots) == st.scopes + [map[x := st.slots]];
  }

  lemma SetLowered(st: Build, x: string, n: int, slot: Slot)
    requires st.scopes != [] && x in st.scopes[|st.scopes| - 1] && st.scopes[|st.scopes| - 1][x] == slot
    ensures LowerExpr(st, Assign(x, Expr.Num(n))).st == st.Emit(Store, [Const(n), Addr(slot)])
  {
    assert LowerExpr(st, Expr.Num(n)) == Lowered(st, Const(n));
  }

  /** Afterwards the block stores to the new slot. */
  lemma SetsStores(st: Build, n: int, r: Build)
    requires Inv(st) && SetsCode(st, n, r)
    ensures Inv(r) && Grows(st, r, {st.cur}) && r.cur == st.cur && r.g == st.g && r.scopes == st.scopes && !Ended(r)
    ensures Stores(r.code, st.cur, st.slots)
  {
    var ops := [Const(n), Addr(st.slots)];
    var st1 := st.Emit(Alloca(st.slots, true), []);
    var st2 := st1.Emit(Store, ops);
    PlainKeeps(st, Alloca(st.slots, true), []);
    PlainKeeps(st1, Store, ops);
    GrowsTrans(st, st1, st2, {st.cur}, {st.cur});
    SameKeeps(st2, r);
    SameSound(st2, r);
    GrowsTrans(st, st2, r, {st.cur}, {});
    assert ThereAt(st2, st.cur);
    assert r.code.StoresTo(r.code.body[st.cur][st1.Here()], st.slots);
  }

  /** ... and to no other. */
  lemma SetsNoOther(st: Build, n: int, r: Build, x: Slot)
    requires Inv(st) && SetsCode(st, n, r) && EmptyAt(st, st.cur) && x != st.slots
    ensures !Stores(r.code, st.cur, x)
  {
    assert ThereAt(st, st.cur);
    var st1 := st.Emit(Alloca(st.slots, true), []);
    assert r.code.body[st.cur] == [Instr(st.ids), Instr(st.ids + 1)];
  }

  // ----- edges -----

  ghost predicate EdgesAre(st: Build, edges: set<(Block, Block)>) {
    OnlyEdges(st.g, edges)
  }

  lemma {:induction false} NewBlocksEdges(st: Build, k: nat, edges: set<(Block, Block)>)
    requires Sound(st) && EdgesAre(st, edges)
    ensures EdgesAre(NewBlocks(st, k), edges)
  {
    if k > 0 {
      var st1, r := NewBlocks(st, k - 1), NewBlocks(st, k);
      NewBlocksEdges(st, k - 1, edges);
      NewBlocksSound(st, k - 1);
      forall a: Block, b: Block ensures r.g.Edge(a, b) <==> (a, b) in edges {
        assert ThereAt(st1, a) && (st1.g.Edge(a, b) <==> (a, b) in edges);
      }
    }
  }

  lemma BrEdges(st: Build, b: Block, next: Block, edges: set<(Block, Block)>)
    requires EdgesAre(st, edges)
    ensures EdgesAre(st.Br(b).At(next), edges + {(st.cur, b)})
  {
    var r := st.Br(b).At(next);
    forall x: Block, y: Block ensures r.g.Edge(x, y) <==> (x, y) in edges + {(st.cur, b)} {
      assert st.g.Edge(x, y) <==> (x, y) in edges;
    }
  }

  lemma ForkEdges(st: Build, c: Expr, cond: Lowered, st0: Build, st1: Build, t: Block, f: Block, edges: set<(Block, Block)>)
    requires Sound(st) && EdgesAre(st, edges) && ForkOf(st, c, cond, st0, st1, t, f)
    ensures EdgesAre(st1, edges + {(st.cur, t), (st.cur, f)})
  {
    assert OneLevel(0);
    CondGrows(st, c, cond);
    NewBlocksEdges(cond.st, 2, edges);
    NewBlocksSound(cond.st, 2);
    TestEdges(st0, cond.v, t, f, st1, edges);
  }

  lemma TestEdges(st: Build, v: Value, t: Block, f: Block, r: Build, edges: set<(Block, Block)>)
    requires EdgesAre(st, edges) && r == Test(st, v, t, f)
    ensures EdgesAre(r, edges + {(st.cur, t), (st.cur, f)})
  {
    forall x: Block, y: Block ensures r.g.Edge(x, y) <==> (x, y) in edges + {(st.cur, t), (st.cur, f)} {
      assert st.g.Edge(x, y) <==> (x, y) in edges;
    }
  }

  // ----- stores -----

  /** A slot that is still to be given out has no store. */
  lemma UnusedNoStore(st: Build, n: nat, b: Block, x: Slot)
    requires AccessOnly(st, UpTo(n)) && n <= x
    ensures !Stores(st.code, b, x)
  {
    if b in st.code.body {
      forall k | 0 <= k < |st.code.body[b]| ensures !st.code.StoresTo(st.code.body[b][k], x) {
        assert AccessAt(st, UpTo(n), st.code.body[b][k]) && x !in UpTo(n);
      }
    }
  }

  lemma StoreKept(st: Build, r: Build, t: set<Block>, b: Block, k: nat, x: Slot)
    requires Inv(st) && Inv(r) && Grows(st, r, t) && b in st.code.body && k < |st.code.body[b]|
    ensures b in r.code.body && k < |r.code.body[b]| && r.code.body[b][k] == st.code.body[b][k]
    ensures r.code.StoresTo(r.code.body[b][k], x) <==> st.code.StoresTo(st.code.body[b][k], x)
  {
    var id := st.code.body[b][k];
    assert st.code.PlaceOk(st.pos, b, k) && IdAt(st, id) && GrowsId(st, r, id);
    assert ThereAt(st, b) && ThereAt(r, b) && GrowsAt(st, r, t, b);
  }

  lemma StoresStay(st: Build, r: Build, t: set<Block>, b: Block, x: Slot)
    requires Inv(st) && Inv(r) && Grows(st, r, t) && Stores(st.code, b, x)
    ensures Stores(r.code, b, x)
  {
    var k: nat :| k < |st.code.body[b]| && st.code.StoresTo(st.code.body[b][k], x);
    StoreKept(st, r, t, b, k, x);
  }

  lemma NoStoreStays(st: Build, r: Build, t: set<Block>, b: Block, x: Slot)
    requires Inv(st) && Inv(r) && Grows(st, r, t) && !Stores(st.code, b, x) && b !in t && b < |st.g.blocks|
    ensures !Stores(r.code, b, x)
  {
    assert ThereAt(st, b) && ThereAt(r, b) && GrowsAt(st, r, t, b);
    forall k: nat | k < |r.code.body[b]| ensures !r.code.StoresTo(r.code.body[b][k], x) {
      StoreKept(st, r, t, b, k, x);
    }
  }

  /** One more instruction that is no store. */
  lemma NoStoreEmitted(st: Build, kind: Kind, ops: seq<Value>, r: Build, b: Block, x: Slot)
    requires Inv(st) && Inv(r) && r.code == st.Emit(kind, ops).code && r.pos == st.Emit(kind, ops).pos && kind != Store && kind != Phi
    ensures Stores(r.code, b, x) <==> Stores(st.code, b, x)
  {
    var r' := st.Emit(kind, ops);
    EmitSound(st, kind, ops);
    FreshId(st);
    assert ThereAt(st, b) && ThereAt(st, st.cur) && ThereAt(r, b);
    assert st.cur in r.code.body && r.code.body[st.cur] == ListOf(st.code.body, st.cur) + [Instr(st.ids)] && !r.code.StoresTo(Instr(st.ids), x);
    if Stores(r.code, b, x) {
      var k: nat :| k < |r.code.body[b]| && r.code.StoresTo(r.code.body[b][k], x);
      assert st.code.StoresTo(st.code.body[b][k], x);
    }
    if Stores(st.code, b, x) {
      var k: nat :| k < |st.code.body[b]| && st.code.StoresTo(st.code.body[b][k], x);
      assert st.code.PlaceOk(st.pos, b, k) && IdAt(st, st.code.body[b][k]);
      assert r.code.StoresTo(r.code.body[b][k], x);
    }
  }

  // ----- the shapes -----

  /** The function up to its first statement. */
  lemma Begins(params: seq<string>, st0: Build, st1: Build)
    requires st0 == LowerParams(Empty(), params) && st1 == OpenLocals(st0, [])
    ensures WellBuilt(st1) && st1.cur == 0 && |st1.g.blocks| == 1 && !Ended(st1) && EdgesAre(st1, {})
    ensures AccessOnly(st1, UpTo(st1.slots)) && SlotsOf(st1.scopes, NamesOf(params), UpTo(st1.slots))
  {
    var p := Function(params, [], []);
    EmptySound();
    ParamsSet(params, st0);
    BeginKept(params, st0);
    LocalsKept(st0, [], st1);
    CompoundStart(st0, [], st1);
    ParamsGrow(Empty(), params);
    assert st1 == st0.(scopes := st0.scopes + [map[]]);
    SameAccess(st0, st1, UpTo(st1.slots));
    assert st1.scopes[..1] == st0.scopes && st1.scopes[..1][..0] == [];
    forall n | n in NamesOf(params) ensures SlotOf(st1.scopes, UpTo(st1.slots), n) {
      assert Level(st1.scopes, n) == 0;
    }
  }

  lemma MoreSlots(st: Build, m: nat, n: nat)
    requires AccessOnly(st, UpTo(m)) && m <= n
    ensures AccessOnly(st, UpTo(n))
  {
    forall id ensures AccessAt(st, UpTo(n), id) {
      assert AccessAt(st, UpTo(m), id);
      forall x: Slot | st.code.LoadsFrom(id, x) || st.code.StoresTo(id, x) ensures x in UpTo(n) { assert x in UpTo(m); }
    }
  }

  /** The branch of an `if`: nothing is stored to slots that are still to come. */
  lemma ForkShape(st: Build, c: Expr, cond: Lowered, st0: Build, st1: Build, t: Block, f: Block, names: set<string>, edges: set<(Block, Block)>)
    requires WellBuilt(st) && EdgesAre(st, edges) && ForkOf(st, c, cond, st0, st1, t, f)
    requires AccessOnly(st, UpTo(st.slots)) && SlotsOf(st.scopes, names, UpTo(st.slots)) && Reads(c) + Writes(c) <= names
    ensures WellBuilt(st1) && Grows(st, st1, {st.cur}) && st1.cur == t && |st1.g.blocks| == f + 1 && st1.scopes == st.scopes && st1.slots >= st.slots
    ensures EmptyAt(st1, t) && EmptyAt(st1, f) && EdgesAre(st1, edges + {(st.cur, t), (st.cur, f)})
    ensures AccessOnly(st1, UpTo(st1.slots)) && SlotsOf(st1.scopes, names, UpTo(st1.slots))
  {
    ForkGrows(st, c, cond, st0, st1, t, f);
    ForkKeeps(st, c, cond, st0, st1, t, f);
    ForkEdges(st, c, cond, st0, st1, t, f, edges);
    ForkAccess(st, c, cond, st0, st1, t, f, names, UpTo(st.slots));
    MoreSlots(st1, st.slots, st1.slots);
    forall n | n in names ensures SlotOf(st1.scopes, UpTo(st1.slots), n) { assert SlotOf(st.scopes, UpTo(st.slots), n); }
  }

  /** The end of a function whose statements end in an open or a closed block. */
  lemma EndShape(st: Build, r: Build, edges: set<(Block, Block)>)
    requires WellBuilt(st) && EdgesAre(st, edges) && r == (if Ended(st) then st else st.Emit(Ret, [Const(0)]))
    ensures Inv(r) && EdgesAre(r, edges) && r.g.entry == 0
    ensures forall b, x {:trigger Stores(r.code, b, x)} :: Stores(r.code, b, x) <==> Stores(st.code, b, x)
  {
    if !Ended(st) {
      EmitKeeps(st, Ret, [Const(0)]);
      forall b, x ensures Stores(r.code, b, x) <==> Stores(st.code, b, x) {
        NoStoreEmitted(st, Ret, [Const(0)], r, b, x);
      }
    }
  }

  lemma JumpShape(st: Build, b: Block, next: Block, r: Build, edges: set<(Block, Block)>)
    requires WellBuilt(st) && !Ended(st) && EdgesAre(st, edges) && 0 < b < |st.g.blocks| && next < |st.g.blocks| && r == Jump(st, b, next)
    ensures WellBuilt(r) && EdgesAre(r, edges + {(st.cur, b)}) && r.cur == next && r.g.blocks == st.g.blocks
    ensures forall c, x {:trigger Stores(r.code, c, x)} :: Stores(r.code, c, x) <==> Stores(st.code, c, x)
  {
    ArmKeeps(st, b, next, r);
    BrEdges(st, b, next, edges);
    EdgeKeeps(st, b);
    forall c, x ensures Stores(r.code, c, x) <==> Stores(st.code, c, x) {
      NoStoreEmitted(st.AddEdge(b), Kind.Br, [Label(b)], r, c, x);
    }
  }

  /** The inner arm stores to a slot to which the blocks before it do not. */
  ghost predicate NestedShape(r: Build, x: Slot) {
    && EdgesAre(r, {(0, 1), (0, 2), (1, 3), (1, 4), (3, 4), (4, 2)})
    && Stores(r.code, 3, x) && !Stores(r.code, 0, x) && !Stores(r.code, 1, x)
  }

  lemma OneStmt(st: Build, s: Stmt, r: Build)
    requires BecomesAll(st, [s], r)
    ensures Becomes(st, s, r)
  {
    var st1 := NextBecomes(st, [s], r);
    assert [s][1..] == [];
    var st2 := NextBecomes(st1, [], r);
  }

  /** The statement of the function is its body. */
  lemma BodyShape(params: seq<string>, s: Stmt, st0: Build, st: Build) returns (st1: Build, st2: Build)
    requires st0 == LowerParams(Empty(), params) && Becomes(st0, Compound([], [s]), st)
    ensures WellBuilt(st1) && st1.cur == 0 && |st1.g.blocks| == 1 && EdgesAre(st1, {}) && Becomes(st1, s, st2) && st == CloseScope(st2)
    ensures AccessOnly(st1, UpTo(st1.slots)) && SlotsOf(st1.scopes, NamesOf(params), UpTo(st1.slots))
  {
    st1 := OpenLocals(st0, []);
    st2 := CompoundBecomes(st0, Compound([], [s]), st, st1);
    Begins(params, st0, st1);
    OneStmt(st1, s, st2);
  }

  /** `{ int x; x = n; }` in a block of its own. */
  lemma ArmShape(st: Build, x: string, n: int, r: Build, edges: set<(Block, Block)>)
    requires WellBuilt(st) && Becomes(st, SetsLocal(x, n), r) && EdgesAre(st, edges)
    requires EmptyAt(st, st.cur) && AccessOnly(st, UpTo(st.slots))
    ensures WellBuilt(r) && Grows(st, r, {st.cur}) && r.cur == st.cur && r.g == st.g && r.scopes == st.scopes && !Ended(r) && EdgesAre(r, edges)
    ensures r.slots == st.slots + 1 && AccessOnly(r, UpTo(r.slots))
    ensures forall b: Block {:trigger Stores(r.code, b, st.slots)} :: b < |st.g.blocks| ==> (Stores(r.code, b, st.slots) <==> b == st.cur)
    ensures forall y {:trigger Stores(r.code, st.cur, y)} :: Stores(r.code, st.cur, y) ==> y == st.slots
  {
    SetsLowered(st, x, n, r);
    SetsStores(st, n, r);
    forall b: Block | b < |st.g.blocks| ensures Stores(r.code, b, st.slots) <==> b == st.cur {
      UnusedNoStore(st, st.slots, b, st.slots);
      if b != st.cur { NoStoreStays(st, r, {st.cur}, b, st.slots); }
    }
    forall y | Stores(r.code, st.cur, y) ensures y == st.slots {
      if y != st.slots { SetsNoOther(st, n, r, y); }
    }
    var ops := [Const(n), Addr(st.slots)];
    var st1 := st.Emit(Alloca(st.slots, true), []);
    ParamAccess(st, ops, st1, st1.Emit(Store, ops), r);
  }

  lemma NestedLowered(params: seq<string>, c: Expr, d: Expr, x: string, n: int, r: Build) returns (slot: Slot)
    requires Reads(c) + Writes(c) <= NamesOf(params) && Reads(d) + Writes(d) <= NamesOf(params)
    requires r == LowerFunction(NestedProgram(params, c, d, x, n))
    ensures NestedShape(r, slot) && r.g.entry == 0
  {
    var fn := NestedProgram(params, c, d, x, n);
    var st0, st := FunctionStates(fn, r);
    var outer := If(c, If(d, SetsLocal(x, n)));
    assert fn.stmts == [outer] && fn.decls == [];
    var st1, st2 := BodyShape(params, outer, st0, st);
    slot := NestedBody(st1, c, d, x, n, st2, NamesOf(params));
    var edges := {(0, 1), (0, 2), (1, 3), (1, 4), (3, 4), (4, 2)};
    ClosedShape(st2, st, edges);
    EndShape(st, r, edges);
    assert Stores(st.code, 3, slot) && !Stores(st.code, 0, slot) && !Stores(st.code, 1, slot);
  }

  lemma NestedBody(st1: Build, c: Expr, d: Expr, x: string, n: int, st2: Build, names: set<string>) returns (slot: Slot)
    requires WellBuilt(st1) && st1.cur == 0 && |st1.g.blocks| == 1 && EdgesAre(st1, {}) && Becomes(st1, If(c, If(d, SetsLocal(x, n))), st2)
    requires AccessOnly(st1, UpTo(st1.slots)) && SlotsOf(st1.scopes, names, UpTo(st1.slots))
    requires Reads(c) + Writes(c) <= names && Reads(d) + Writes(d) <= names
    ensures WellBuilt(st2) && NestedShape(st2, slot)
  {
    var inner := If(d, SetsLocal(x, n));
    var cond, a0, a1, a2 := IfBecomes(st1, If(c, inner), st2, 1, 2);
    ForkShape(st1, c, cond, a0, a1, 1, 2, names, {});
    var edges := {(0, 1), (0, 2)};
    assert {} + edges == edges;
    slot := InnerBody(a1, d, x, n, a2, names, edges);
    var edges' := edges + {(1, 3), (1, 4), (3, 4)};
    JumpShape(a2, 2, 2, st2, edges');
    assert edges' + {(4, 2)} == {(0, 1), (0, 2), (1, 3), (1, 4), (3, 4), (4, 2)};
    assert Stores(a2.code, 3, slot) && !Stores(a2.code, 0, slot) && !Stores(a2.code, 1, slot);
  }

  lemma InnerBody(a1: Build, d: Expr, x: string, n: int, a2: Build, names: set<string>, edges: set<(Block, Block)>) returns (slot: Slot)
    requires WellBuilt(a1) && a1.cur == 1 && |a1.g.blocks| == 3 && EdgesAre(a1, edges) && Becomes(a1, If(d, SetsLocal(x, n)), a2)
    requires AccessOnly(a1, UpTo(a1.slots)) && SlotsOf(a1.scopes, names, UpTo(a1.slots)) && Reads(d) + Writes(d) <= names
    ensures WellBuilt(a2) && a2.cur == 4 && |a2.g.blocks| == 5 && !Ended(a2) && EdgesAre(a2, edges + {(1, 3), (1, 4), (3, 4)})
    ensures Stores(a2.code, 3, slot) && !Stores(a2.code, 0, slot) && !Stores(a2.code, 1, slot)
  {
    var cond, b0, b1, b2 := IfBecomes(a1, If(d, SetsLocal(x, n)), a2, 3, 4);
    ForkShape(a1, d, cond, b0, b1, 3, 4, names, edges);
    slot := b1.slots;
    var edges1 := edges + {(1, 3), (1, 4)};
    ArmShape(b1, x, n, b2, edges1);
    JumpShape(b2, 4, 4, a2, edges1);
    assert edges1 + {(3, 4)} == edges + {(1, 3), (1, 4), (3, 4)};
    StillEmpty(b1, b2, a2, 4);
    assert Stores(b2.code, 3, slot) && !Stores(b2.code, 0, slot) && !Stores(b2.code, 1, slot);
  }

  lemma StillEmpty(b1: Build, b2: Build, a2: Build, f: Block)
    requires EmptyAt(b1, f) && Grows(b1, b2, {b1.cur}) && f != b1.cur && f < |b1.g.blocks| && WellBuilt(b2) && b2.cur == b1.cur && a2 == Jump(b2, f, f)
    ensures !Ended(a2)
  {
    JumpSound(b2, f, f, a2);
    assert GrowsAt(b1, b2, {b1.cur}, f) && GrowsAt(b2, a2, {b1.cur}, f);
    EmptyNotEnded(a2);
  }

  lemma ClosedShape(st2: Build, st: Build, edges: set<(Block, Block)>)
    requires WellBuilt(st2) && EdgesAre(st2, edges) && st == CloseScope(st2)
    ensures WellBuilt(st) && EdgesAre(st, edges)
  {
    SameKeeps(st2, st);
    SameSound(st2, st);
    OldReached(st2, st, {});
  }

  /** Without `else`, and without reading a variable that has no value, this
      function is in memory form; and for some order of the visits renaming meets
      an empty stack. */
  lemma NestedCanFail(params: seq<string>, c: Expr, d: Expr, x: string, n: int, s: Ssa)
    requires Reads(c) + Writes(c) <= NamesOf(params) && Reads(d) + Writes(d) <= NamesOf(params)
    requires var r := LowerFunction(NestedProgram(params, c, d, x, n)); s.g == r.g && s.code == r.code
    requires Renamable(s) && AllPlaced(s.g, s.code, s.phis) && forall b :: b in s.phis ==> b in s.g.blocks
    ensures NoElses(NestedProgram(params, c, d, x, n).stmts) && !OrderSafe(s)
    ensures s.g.entry in s.code.body
    ensures exists kids {:trigger KidsOk(s, kids)} :: KidsOk(s, kids) && !SafeRun(s, [], Preorder(s, kids, s.g.entry))
  {
    var slot := NestedLowered(params, c, d, x, n, LowerFunction(NestedProgram(params, c, d, x, n)));
    NestedPattern(s, slot);
    SafeIffOrderSafe(s);
    NestedIsPlain(params, c, d, x, n);
  }

  lemma NestedIsPlain(params: seq<string>, c: Expr, d: Expr, x: string, n: int)
    ensures NoElses(NestedProgram(params, c, d, x, n).stmts)
  {
    assert NoElse(SetsLocal(x, n)) by { assert [Do(Assign(x, Expr.Num(n)))][1..] == []; }
    assert NestedProgram(params, c, d, x, n).stmts[1..] == [];
  }

  // ----- both arms -----

  /** Each arm stores to a slot of its own. */
  ghost predicate ArmsShape(r: Build, x: Slot, y: Slot) {
    && EdgesAre(r, {(0, 1), (0, 2), (1, 3), (2, 3)})
    && Stores(r.code, 1, x) && Stores(r.code, 2, y)
    && !Stores(r.code, 0, x) && !Stores(r.code, 0, y) && !Stores(r.code, 1, y) && !Stores(r.code, 2, x)
  }

  lemma NewBlockStores(st: Build, b: Block, x: Slot)
    requires Sound(st)
    ensures Stores(st.NewBlock().code, b, x) <==> Stores(st.code, b, x)
  {
    assert ThereAt(st, |st.g.blocks|);
  }

  /** The jumps to the block after the arms. */
  lemma EndArmsShape(st3: Build, x: Block, r: Build, edges: set<(Block, Block)>, n: Block)
    requires WellBuilt(st3) && !Ended(st3) && x < n && x != st3.cur && r == EndArms(st3, x) && EdgesAre(st3, edges) && n == |st3.g.blocks|
    ensures WellBuilt(r) && EdgesAre(r, edges + {(x, n), (st3.cur, n)})
    ensures forall b, y {:trigger Stores(r.code, b, y)} :: Stores(r.code, b, y) <==> Stores(st3.code, b, y)
  {
    var z, st4 := st3.cur, st3.NewBlock();
    var st5 := st4.At(x);
    var st6 := st5.Br(n).At(z);
    ArmsGrow(st3, x, st4, st5, st6, n, r);
    EndArmsKeep(st3, x, r);
    assert NewBlocks(st3, 0) == st3 && NewBlocks(st3, 1) == st4;
    NewBlocksEdges(st3, 1, edges);
    BrEdges(st5, n, z, edges);
    BrEdges(st6, n, z, edges + {(x, n)});
    assert edges + {(x, n)} + {(z, n)} == edges + {(x, n), (z, n)} && r == st6.Br(n).At(z);
    JoinStores(st3, x, st4, st5, st6, n, r);
  }

  lemma JoinStores(st3: Build, x: Block, st4: Build, st5: Build, st6: Build, n: Block, r: Build)
    requires Inv(st3) && x < n && x != st3.cur && ArmsOf(st3, x, st4, st5, st6, n) && r == st6.Br(n)
    ensures forall b, y {:trigger Stores(r.code, b, y)} :: Stores(r.code, b, y) <==> Stores(st3.code, b, y)
  {
    assert NewBlocks(st3, 0) == st3 && NewBlocks(st3, 1) == st4 && ThereAt(st3, 0) && n > 0;
    NewBlocksKeep(st3, 1);
    NewBlocksSound(st3, 1);
    SameKeeps(st4, st5);
    BrKeeps(st5, n, st3.cur, st6);
    BrKeeps(st6, n, st3.cur, r.At(st3.cur));
    EdgeKeeps(st5, n);
    EdgeKeeps(st6, n);
    assert r.At(st3.cur) == r;
    forall b, y ensures Stores(r.code, b, y) <==> Stores(st3.code, b, y) {
      NewBlockStores(st3, b, y);
      NoStoreEmitted(st5.AddEdge(n), Kind.Br, [Label(n)], st6, b, y);
      NoStoreEmitted(st6.AddEdge(n), Kind.Br, [Label(n)], r, b, y);
    }
  }

  lemma ArmsLowered(params: seq<string>, c: Expr, x: string, m: int, y: string, n: int, r: Build) returns (slot: Slot)
    requires Reads(c) + Writes(c) <= NamesOf(params) && r == LowerFunction(ArmsProgram(params, c, x, m, y, n))
    ensures ArmsShape(r, slot, slot + 1) && r.g.entry == 0
  {
    var fn := ArmsProgram(params, c, x, m, y, n);
    var st0, st := FunctionStates(fn, r);
    var s := IfElse(c, SetsLocal(x, m), SetsLocal(y, n));
    assert fn.stmts == [s] && fn.decls == [];
    var st1, st2 := BodyShape(params, s, st0, st);
    slot := ArmsBody(st1, c, x, m, y, n, s, st2, NamesOf(params));
    var edges := {(0, 1), (0, 2), (1, 3), (2, 3)};
    ClosedShape(st2, st, edges);
    EndShape(st, r, edges);
    assert ArmsShape(st, slot, slot + 1);
  }

  lemma ArmsBody(st1: Build, c: Expr, x: string, m: int, y: string, n: int, s: Stmt, st2: Build, names: set<string>) returns (slot: Slot)
    requires WellBuilt(st1) && st1.cur == 0 && |st1.g.blocks| == 1 && EdgesAre(st1, {}) && Becomes(st1, s, st2)
    requires s == IfElse(c, SetsLocal(x, m), SetsLocal(y, n)) && Reads(c) + Writes(c) <= names
    requires AccessOnly(st1, UpTo(st1.slots)) && SlotsOf(st1.scopes, names, UpTo(st1.slots))
    ensures WellBuilt(st2) && ArmsShape(st2, slot, slot + 1)
  {
    var cond, a0, a1, a2, a2', a3 := IfElseBecomes(st1, s, st2, 1, 2);
    ForkShape(st1, c, cond, a0, a1, 1, 2, names, {});
    slot := a1.slots;
    var edges := {(0, 1), (0, 2)};
    assert {} + edges == edges;
    ArmsTail(a1, x, m, y, n, a2, a2', a3, st2, edges, slot);
    assert edges + {(1, 3), (2, 3)} == {(0, 1), (0, 2), (1, 3), (2, 3)};
  }

  lemma ArmsTail(a1: Build, x: string, m: int, y: string, n: int, a2: Build, a2': Build, a3: Build, st2: Build, edges: set<(Block, Block)>, slot: Slot)
    requires WellBuilt(a1) && a1.cur == 1 && |a1.g.blocks| == 3 && EmptyAt(a1, 1) && EmptyAt(a1, 2) && EdgesAre(a1, edges)
    requires AccessOnly(a1, UpTo(a1.slots)) && slot == a1.slots && Becomes(a1, SetsLocal(x, m), a2) && a2' == GoTo(a2, 2)
    requires Becomes(a2', SetsLocal(y, n), a3) && st2 == EndArms(a3, a2.cur)
    ensures WellBuilt(st2) && EdgesAre(st2, edges + {(1, 3), (2, 3)}) && Stores(st2.code, 1, slot) && Stores(st2.code, 2, slot + 1)
    ensures !Stores(st2.code, 0, slot) && !Stores(st2.code, 0, slot + 1) && !Stores(st2.code, 1, slot + 1) && !Stores(st2.code, 2, slot)
  {
    ArmShape(a1, x, m, a2, edges);
    assert Stores(a2.code, 1, slot) && !Stores(a2.code, 0, slot);
    SecondArm(a1, a2, a2', y, n, a3, edges, slot);
    EndArmsShape(a3, 1, st2, edges, 3);
  }

  lemma SecondArm(a1: Build, a2: Build, a2': Build, y: string, n: int, a3: Build, edges: set<(Block, Block)>, slot: Slot)
    requires a1.cur == 1 && |a1.g.blocks| == 3 && EmptyAt(a1, 2) && Grows(a1, a2, {1}) && a2.g == a1.g
    requires WellBuilt(a2) && a2' == GoTo(a2, 2) && EdgesAre(a2, edges) && AccessOnly(a2, UpTo(a2.slots)) && a2.slots == slot + 1
    requires Stores(a2.code, 1, slot) && !Stores(a2.code, 0, slot) && Becomes(a2', SetsLocal(y, n), a3)
    ensures WellBuilt(a3) && !Ended(a3) && a3.cur == 2 && |a3.g.blocks| == 3 && EdgesAre(a3, edges)
    ensures Stores(a3.code, 1, slot) && Stores(a3.code, 2, slot + 1)
    ensures !Stores(a3.code, 0, slot) && !Stores(a3.code, 0, slot + 1) && !Stores(a3.code, 1, slot + 1) && !Stores(a3.code, 2, slot)
  {
    SameKeeps(a2, a2');
    SameSound(a2, a2');
    OldReached(a2, a2', {});
    SameAccess(a2, a2', UpTo(a2.slots));
    assert GrowsAt(a1, a2, {1}, 2);
    ArmShape(a2', y, n, a3, edges);
    StoresStay(a2', a3, {2}, 1, slot);
    NoStoreStays(a2', a3, {2}, 0, slot);
  }

  /** This function is in memory form, and renaming meets an empty stack whatever
      the order of the visits. */
  lemma ArmsFail(params: seq<string>, c: Expr, x: string, m: int, y: string, n: int, s: Ssa, kids: Listing)
    requires Reads(c) + Writes(c) <= NamesOf(params)
    requires var r := LowerFunction(ArmsProgram(params, c, x, m, y, n)); s.g == r.g && s.code == r.code
    requires Renamable(s) && AllPlaced(s.g, s.code, s.phis) && KidsOk(s, kids)
    ensures var r := LowerFunction(ArmsProgram(params, c, x, m, y, n)); GraphOk(r.g) && IsMemoryForm(r.g, r.code, r.pos)
    ensures 0 in s.code.body && !SafeRun(s, [], Preorder(s, kids, 0))
  {
    var fn := ArmsProgram(params, c, x, m, y, n);
    var slot := ArmsLowered(params, c, x, m, y, n, LowerFunction(fn));
    ArmsPattern(s, kids, slot, slot + 1);
    SetsIsPlain(x, m);
    SetsIsPlain(y, n);
    PlainIsNeat(SetsLocal(x, m));
    PlainIsNeat(SetsLocal(y, n));
    assert fn.stmts[1..] == [] && NeatAll(fn.stmts, false);
    MemoryFormIffNeat(fn);
  }

  lemma SetsIsPlain(x: string, n: int)
    ensures NoElse(SetsLocal(x, n))
  {
    assert [Do(Assign(x, Expr.Num(n)))][1..] == [];
  }

  // ----- one arm -----

  /** `if (c) { int x; x = n; }` */
  function ArmProgram(params: seq<string>, c: Expr, x: string, n: int): Function {
    Function(params, [], [If(c, SetsLocal(x, n))])
  }

  lemma ArmLowered(params: seq<string>, c: Expr, x: string, n: int, r: Build) returns (slot: Slot)
    requires Reads(c) + Writes(c) <= NamesOf(params) && r == LowerFunction(ArmProgram(params, c, x, n))
    ensures EdgesAre(r, {(0, 1), (0, 2), (1, 2)}) && Stores(r.code, 1, slot) && !Stores(r.code, 0, slot) && r.g.entry == 0
  {
    var fn, s := ArmProgram(params, c, x, n), If(c, SetsLocal(x, n));
    var st0, st := FunctionStates(fn, r);
    assert fn.stmts == [s] && fn.decls == [];
    var st1, st2 := BodyShape(params, s, st0, st);
    slot := ArmBody(st1, c, x, n, st2, NamesOf(params));
    ClosedShape(st2, st, {(0, 1), (0, 2), (1, 2)});
    EndShape(st, r, {(0, 1), (0, 2), (1, 2)});
    assert Stores(st.code, 1, slot) && !Stores(st.code, 0, slot);
  }

  lemma ArmBody(st1: Build, c: Expr, x: string, n: int, st2: Build, names: set<string>) returns (slot: Slot)
    requires WellBuilt(st1) && st1.cur == 0 && |st1.g.blocks| == 1 && EdgesAre(st1, {}) && Becomes(st1, If(c, SetsLocal(x, n)), st2)
    requires AccessOnly(st1, UpTo(st1.slots)) && SlotsOf(st1.scopes, names, UpTo(st1.slots)) && Reads(c) + Writes(c) <= names
    ensures WellBuilt(st2) && EdgesAre(st2, {(0, 1), (0, 2), (1, 2)}) && Stores(st2.code, 1, slot) && !Stores(st2.code, 0, slot)
  {
    var cond, a0, a1, a2 := IfBecomes(st1, If(c, SetsLocal(x, n)), st2, 1, 2);
    ForkShape(st1, c, cond, a0, a1, 1, 2, names, {});
    slot := a1.slots;
    var edges := {(0, 1), (0, 2)};
    assert {} + edges == edges;
    ArmShape(a1, x, n, a2, edges);
    assert Stores(a2.code, 1, slot) && !Stores(a2.code, 0, slot);
    JumpShape(a2, 2, 2, st2, edges);
    assert edges + {(1, 2)} == {(0, 1), (0, 2), (1, 2)};
  }

  /** Its phi has no pair for the edge past the arm. */
  lemma ArmLeavesShortPhi(params: seq<string>, c: Expr, x: string, n: int, s: Ssa, ops: Operands)
    requires Reads(c) + Writes(c) <= NamesOf(params)
    requires var r := LowerFunction(ArmProgram(params, c, x, n)); s.g == r.g && s.code == r.code
    requires Renamable(s) && AllPlaced(s.g, s.code, s.phis) && AllPhiPairs(s, ops)
    ensures !PhisFull(s, ops)
  {
    var slot := ArmLowered(params, c, x, n, LowerFunction(ArmProgram(params, c, x, n)));
    ShortPattern(s, slot);
    EmptyIffUndefined(s, 0, |s.code.body[0]|, slot);
    assert !EdgeDefined(s, 2, slot, 0);
    PhisFullIffDefined(s, ops);
  }

  // ----- a variable without a value -----

  /** `int x; f(x);` */
  function ReadsUnset(x: string, callee: nat): Function {
    Function([], [x], [Do(Call(callee, [Var(x)]))])
  }

  lemma UnsetSteps(x: string, callee: nat, r: Build) returns (st: Build)
    requires r == LowerFunction(ReadsUnset(x, callee))
    ensures st.code == Empty().Emit(Alloca(0, true), []).Emit(Load, [Addr(0)]).Emit(Exec(CALL), [Global(callee), Ref(Instr(1))]).code
    ensures st.cur == 0 && st.ids == 3 && st.g.entry == 0 && r == if Ended(st) then st else st.Emit(Ret, [Const(0)])
  {
    var fn, e := ReadsUnset(x, callee), Call(callee, [Var(x)]);
    var st0;
    st0, st := FunctionStates(fn, r);
    assert st0 == Empty();
    var st1 := OpenLocals(st0, [x]);
    var st2 := CompoundBecomes(st0, Compound([x], [Do(e)]), st, st1);
    OneStmt(st1, Do(e), st2);
    SimpleBecomes(st1, Do(e), st2);
    OneDeclared(st0, x, st1);
    CallLowered(st1, x, callee, 0);
  }

  /** Its code: an alloca, a load, a call, and the return. */
  lemma UnsetLowered(x: string, callee: nat, r: Build)
    requires r == LowerFunction(ReadsUnset(x, callee))
    ensures r.code.body == map[0 := [Instr(0), Instr(1), Instr(2), Instr(3)]] && r.g.entry == 0
    ensures r.code.ops == map[Instr(0) := [], Instr(1) := [Addr(0)], Instr(2) := [Global(callee), Ref(Instr(1))], Instr(3) := [Const(0)]]
    ensures r.code.kind == map[Instr(0) := Alloca(0, true), Instr(1) := Load, Instr(2) := Exec(CALL), Instr(3) := Ret]
  {
    var st := UnsetSteps(x, callee, r);
    assert st.code.body[0] == [Instr(0), Instr(1), Instr(2)];
    assert !Ended(st);
    assert r.code.body[0] == [Instr(0), Instr(1), Instr(2), Instr(3)];
  }

  lemma CallLowered(st: Build, x: string, callee: nat, slot: Slot)
    requires st.scopes != [] && x in st.scopes[|st.scopes| - 1] && st.scopes[|st.scopes| - 1][x] == slot
    ensures LowerExpr(st, Call(callee, [Var(x)])).st == st.Emit(Load, [Addr(slot)]).Emit(Exec(CALL), [Global(callee), st.Next()])
  {
    OneArg(st, x, slot);
    assert [Global(callee)] + [st.Next()] == [Global(callee), st.Next()];
  }

  lemma OneArg(st: Build, x: string, slot: Slot)
    requires st.scopes != [] && x in st.scopes[|st.scopes| - 1] && st.scopes[|st.scopes| - 1][x] == slot
    ensures LowerArgs(st, [Var(x)]) == LoweredAll(st.Emit(Load, [Addr(slot)]), [st.Next()])
  {
    var args := [Var(x)];
    assert args[..0] == [] && LowerArgs(st, []) == LoweredAll(st, []);
    assert LowerExpr(st, Var(x)) == Lowered(st.Emit(Load, [Addr(slot)]), st.Next());
  }

  ghost predicate UnsetCode(code: Code, callee: nat) {
    && code.body == map[0 := [Instr(0), Instr(1), Instr(2), Instr(3)]]
    && code.ops == map[Instr(0) := [], Instr(1) := [Addr(0)], Instr(2) := [Global(callee), Ref(Instr(1))], Instr(3) := [Const(0)]]
    && code.kind == map[Instr(0) := Alloca(0, true), Instr(1) := Load, Instr(2) := Exec(CALL), Instr(3) := Ret]
  }

  lemma UnsetScalars(code: Code, callee: nat)
    requires UnsetCode(code, callee)
    ensures HasAlloca(code, 0, true) && ScalarsPlain(code) && code.SlotLoad(code.body[0][1]) && forall b, x :: !Stores(code, b, x)
  {
    assert AllocaAt(code, 0, 0, 0, true);
    forall b, k: nat, y ensures ScalarPlain(code, b, k, y) { }
  }

  lemma UnsetUndefined(s: Ssa, callee: nat)
    requires UnsetCode(s.code, callee) && s.g.entry == 0 && Fit(s) && s.code.SlotLoad(s.code.body[0][1])
    requires forall b, x :: !Stores(s.code, b, x)
    ensures !LoadDefined(s, 0, 1)
  {
    assert s.BlockOk(0) && !Defines(s, 0, 0);
    assert forall d :: s.t.Above(0, d) ==> d == 0;
  }

  /** Its SSA form is valid, but the load stays and its alloca does not. */
  lemma UnsetIsUnclean(x: string, callee: nat, s: Ssa, out: Code)
    requires s.code == LowerFunction(ReadsUnset(x, callee)).code && s.g.entry == 0 && Renamable(s) && IsSsaForm(s, out)
    ensures ValidSsa(s.g, out) && !NoSlotLoads(out) && !AddressesHeld(out)
  {
    UnsetLowered(x, callee, LowerFunction(ReadsUnset(x, callee)));
    UnsetScalars(s.code, callee);
    UnsetUndefined(s, callee);
    SsaIsValid(s, out);
    NoLoadsIffDefined(s, out);
    NoLongerHeld(s, out, 0, 1);
  }
}
