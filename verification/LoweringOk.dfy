/** What lowering establishes for every function: mirrored edge lists, an entry
    without predecessors, no unreachable block, every instruction at its place,
    definitions before uses, and exact use lists. */
module LoweringOk {
  import opened Graphs
  import opened IR
  import opened RenameSetup
  import opened Sources
  import opened Lowerings
  import opened LoweringGrowth

  // ----- the invariant of a function under construction -----

  /** An operand that is an instruction stands earlier in the same block. */
  ghost predicate UseHere(st: Build, id: Id, v: Value)
    requires id in st.pos
  {
    v.Ref? ==> v.id in st.pos && st.code.IsValue(v.id) && st.pos[v.id].bb == st.pos[id].bb && st.pos[v.id].k < st.pos[id].k
  }

  /** A terminator jumps along edges of the graph. It need not be the last
      instruction of its block. */
  ghost predicate JumpsOk(st: Build, id: Id)
    requires id in st.pos && id in st.code.ops
  {
    st.code.IsTerminator(id) ==>
      && (st.code.kind[id] == Kind.Br ==> |st.code.ops[id]| == 1 && st.code.ops[id][0].Label?)
      && (st.code.kind[id] == Kind.CondBr ==> |st.code.ops[id]| == 3 && st.code.ops[id][1].Label? && st.code.ops[id][2].Label?)
      && forall v :: v in st.code.ops[id] && v.Label? ==> st.g.Edge(st.pos[id].bb, v.bb)
  }

  /** Slots are of scalars, and their addresses are used by loads and stores only. */
  ghost predicate PlainAt(st: Build, id: Id)
    requires id in st.code.kind && id in st.code.ops
  {
    && (st.code.kind[id].Alloca? ==> st.code.kind[id].scalar)
    && (st.code.kind[id] != Load && st.code.kind[id] != Store ==> forall v :: v in st.code.ops[id] ==> !v.Addr?)
  }

  ghost predicate InstrAt(st: Build, id: Id) {
    id in st.pos ==>
      && id in st.code.kind && id in st.code.ops
      && st.pos[id].bb in st.code.body && st.pos[id].k < |st.code.body[st.pos[id].bb]| && st.code.body[st.pos[id].bb][st.pos[id].k] == id
      && (st.code.kind[id] == Load ==> |st.code.ops[id]| == 1 && st.code.ops[id][0].Addr?)
      && (st.code.kind[id] == Store ==> |st.code.ops[id]| == 2 && st.code.ops[id][1].Addr? && !st.code.ops[id][0].Addr?)
      && PlainAt(st, id) && JumpsOk(st, id)
      && forall v {:trigger UseHere(st, id, v)} :: v in st.code.ops[id] ==> UseHere(st, id, v)
  }

  ghost predicate MirrorAt(g: Cfg, p: Block, b: Block) {
    && (p in g.succs && b in g.succs[p] ==> b in g.blocks)
    && (b in g.preds && p in g.preds[b] ==> p in g.blocks)
    && (p in g.succs && b in g.preds ==> multiset(g.succs[p])[b] == multiset(g.preds[b])[p])
  }

  ghost predicate Mirror(g: Cfg) {
    forall p, b {:trigger MirrorAt(g, p, b)} :: MirrorAt(g, p, b)
  }

  ghost predicate Inv(st: Build) {
    && Sound(st) && Mirror(st.g) && st.g.entry == 0 && 0 in st.g.preds && st.g.preds[0] == []
    && (forall id {:trigger InstrAt(st, id)} :: InstrAt(st, id))
    && (forall b, k: nat {:trigger st.code.PlaceOk(st.pos, b, k)} :: st.code.PlaceOk(st.pos, b, k))
    && (forall v {:trigger ExactUses(st.code.ops, st.uses, v)} :: ExactUses(st.code.ops, st.uses, v))
  }

  /** A value that the next instruction of the block may use. */
  ghost predicate ValueHere(st: Build, v: Value) {
    && !v.Addr? && !v.Label?
    && (v.Ref? ==> v.id in st.pos && st.code.IsValue(v.id) && st.pos[v.id].bb == st.cur)
  }

  // ----- one instruction -----

  lemma {:induction false} UsesAdded(uses: UseLists, id: Id, ops: seq<Value>, v: Value, u: Use)
    ensures u in UsesOf(AddUses(uses, id, ops), v) <==>
            u in UsesOf(uses, v) || (u.user == id && u.argNo < |ops| && ops[u.argNo] == v)
  {
    if ops != [] {
      UsesAdded(uses, id, ops[..|ops| - 1], v, u);
    }
  }

  lemma EmitUses(st: Build, kind: Kind, ops: seq<Value>, v: Value)
    requires AllThere(st) && Instr(st.ids) !in st.code.ops && ExactUses(st.code.ops, st.uses, v)
    ensures ExactUses(st.Emit(kind, ops).code.ops, st.Emit(kind, ops).uses, v)
  {
    var st' := st.Emit(kind, ops);
    forall u: Use ensures u in UsesOf(st'.uses, v) <==> HasOperand(st'.code.ops, u, v) {
      UsesAdded(st.uses, Instr(st.ids), ops, v, u);
      assert u in UsesOf(st.uses, v) <==> HasOperand(st.code.ops, u, v);
    }
  }

  /** What an instruction has to be like to be appended to the block. */
  ghost predicate Fitting(st: Build, kind: Kind, ops: seq<Value>) {
    && kind != Phi
    && (kind == Load ==> |ops| == 1 && ops[0].Addr?)
    && (kind == Store ==> |ops| == 2 && ops[1].Addr? && !ops[0].Addr?)
    && (kind.Alloca? ==> kind.scalar)
    && (kind != Load && kind != Store ==> forall v :: v in ops ==> !v.Addr?)
    && (kind.Br? ==> |ops| == 1 && ops[0].Label?)
    && (kind.CondBr? ==> |ops| == 3 && ops[1].Label? && ops[2].Label?)
    && (forall v :: v in ops && v.Label? ==> st.g.Edge(st.cur, v.bb))
    && (forall v :: v in ops && v.Ref? ==> v.id in st.pos && st.code.IsValue(v.id) && st.pos[v.id].bb == st.cur)
  }

  lemma EmitInstr(st: Build, kind: Kind, ops: seq<Value>, id: Id)
    requires Inv(st) && Fitting(st, kind, ops)
    ensures InstrAt(st.Emit(kind, ops), id)
  {
    var st' := st.Emit(kind, ops);
    assert InstrAt(st, id) && ThereAt(st, st.cur);
    FreshId(st);
    if id == Instr(st.ids) {
      forall v | v in ops ensures UseHere(st', id, v) {
        if v.Ref? { assert InstrAt(st, v.id); }
      }
    } else if id in st.pos {
      forall v | v in st.code.ops[id] ensures UseHere(st', id, v) {
        assert UseHere(st, id, v);
      }
    }
  }

  lemma EmitPlace(st: Build, kind: Kind, ops: seq<Value>, b: Block, k: nat)
    requires Inv(st)
    ensures st.Emit(kind, ops).code.PlaceOk(st.Emit(kind, ops).pos, b, k)
  {
    FreshId(st);
    assert st.code.PlaceOk(st.pos, b, k);
  }

  lemma EmitKeeps(st: Build, kind: Kind, ops: seq<Value>)
    requires Inv(st) && Fitting(st, kind, ops)
    ensures Inv(st.Emit(kind, ops))
  {
    var st' := st.Emit(kind, ops);
    EmitSound(st, kind, ops);
    FreshId(st);
    forall id ensures InstrAt(st', id) {
      EmitInstr(st, kind, ops, id);
    }
    forall b, k: nat ensures st'.code.PlaceOk(st'.pos, b, k) {
      EmitPlace(st, kind, ops, b, k);
    }
    forall v ensures ExactUses(st'.code.ops, st'.uses, v) {
      assert ExactUses(st.code.ops, st.uses, v);
      EmitUses(st, kind, ops, v);
    }
  }

  // ----- edges and blocks -----

  lemma EdgeMirror(st: Build, b: Block, p: Block, c: Block)
    requires AllThere(st) && b < |st.g.blocks| && MirrorAt(st.g, p, c)
    ensures b in st.g.preds && MirrorAt(st.AddEdge(b).g, p, c)
  {
    assert ThereAt(st, b) && ThereAt(st, st.cur);
  }

  lemma EdgeKeeps(st: Build, b: Block)
    requires Inv(st) && b < |st.g.blocks| && b != 0
    ensures Inv(st.AddEdge(b)) && st.AddEdge(b).g.Edge(st.cur, b)
  {
    var st' := st.AddEdge(b);
    EdgeSound(st, b);
    assert ThereAt(st, b) && ThereAt(st, st.cur);
    forall p, c ensures MirrorAt(st'.g, p, c) {
      assert MirrorAt(st.g, p, c);
      EdgeMirror(st, b, p, c);
    }
    forall id ensures InstrAt(st', id) {
      EdgeInstr(st, b, id);
    }
    forall c, k: nat ensures st'.code.PlaceOk(st'.pos, c, k) {
      assert st.code.PlaceOk(st.pos, c, k);
    }
    forall v ensures ExactUses(st'.code.ops, st'.uses, v) {
      assert ExactUses(st.code.ops, st.uses, v);
    }
  }

  lemma EdgeInstr(st: Build, b: Block, id: Id)
    requires Inv(st)
    ensures InstrAt(st.AddEdge(b), id)
  {
    var st' := st.AddEdge(b);
    assert InstrAt(st, id) && ThereAt(st, st.cur);
    if id in st.pos {
      forall v | v in st'.code.ops[id] ensures UseHere(st', id, v) {
        assert UseHere(st, id, v);
      }
    }
  }

  /** A jump, and going on elsewhere. */
  lemma BrKeeps(st: Build, b: Block, next: Block, r: Build)
    requires Inv(st) && b < |st.g.blocks| && b != 0 && next < |st.g.blocks| && r == st.Br(b).At(next)
    ensures Inv(r) && r.g.Edge(st.cur, b)
  {
    EdgeKeeps(st, b);
    EmitKeeps(st.AddEdge(b), Kind.Br, [Label(b)]);
    SameKeeps(st.Br(b), r);
  }

  lemma JumpKeeps(st: Build, b: Block, next: Block, r: Build)
    requires Inv(st) && b < |st.g.blocks| && b != 0 && next < |st.g.blocks| && r == Jump(st, b, next)
    ensures Inv(r)
  {
    if Ended(st) {
      SameKeeps(st, r);
    } else {
      BrKeeps(st, b, next, r);
    }
  }

  lemma TestKeeps(st: Build, v: Value, t: Block, f: Block, r: Build)
    requires Inv(st) && ValueHere(st, v) && r == Test(st, v, t, f)
    requires t < |st.g.blocks| && f < |st.g.blocks| && t != 0 && f != 0
    ensures Inv(r) && r.g.Edge(st.cur, t) && r.g.Edge(st.cur, f)
  {
    var st1, ops := st.AddEdge(f), [v, Label(t), Label(f)];
    var st2 := st1.AddEdge(t);
    EdgeKeeps(st, f);
    EdgeKeeps(st1, t);
    EdgeSound(st1, t);
    assert EdgeKept(st1.g, st2.g, st.cur, f);
    EmitKeeps(st2, Kind.CondBr, ops);
    EmitSound(st2, Kind.CondBr, ops);
    SameKeeps(st2.Emit(Kind.CondBr, ops), r);
  }

  /** Going on in another block, or with other scopes. */
  lemma SameKeeps(st: Build, st': Build)
    requires Inv(st) && st'.cur < |st.g.blocks| && st'.slots >= st.slots
    requires st' == st.(cur := st'.cur, scopes := st'.scopes, slots := st'.slots)
    ensures Inv(st')
  {
    SameSound(st, st');
    forall id ensures InstrAt(st', id) {
      assert InstrAt(st, id);
      if id in st.pos {
        forall v | v in st'.code.ops[id] ensures UseHere(st', id, v) { assert UseHere(st, id, v); }
      }
    }
    forall p, c ensures MirrorAt(st'.g, p, c) { assert MirrorAt(st.g, p, c); }
    forall v ensures ExactUses(st'.code.ops, st'.uses, v) { assert ExactUses(st.code.ops, st.uses, v); }
    forall c, k: nat ensures st'.code.PlaceOk(st'.pos, c, k) { assert st.code.PlaceOk(st.pos, c, k); }
  }

  /** Nothing jumps to a new block yet. */
  lemma NewBlockKeeps(st: Build)
    requires Inv(st) && Sound(st.NewBlock())
    ensures Inv(st.NewBlock())
  {
    var n, st' := |st.g.blocks|, st.NewBlock();
    assert ThereAt(st, n) && ThereAt(st, 0);
    forall p, c ensures MirrorAt(st'.g, p, c) {
      assert MirrorAt(st.g, p, c) && MirrorAt(st.g, c, n) && MirrorAt(st.g, n, c) && MirrorAt(st.g, p, n);
      assert ThereAt(st, p) && ThereAt(st, c);
    }
    forall id ensures InstrAt(st', id) {
      assert InstrAt(st, id);
      if id in st.pos {
        assert ThereAt(st, st.pos[id].bb);
        forall v | v in st'.code.ops[id] ensures UseHere(st', id, v) { assert UseHere(st, id, v); }
      }
    }
    forall v ensures ExactUses(st'.code.ops, st'.uses, v) { assert ExactUses(st.code.ops, st.uses, v); }
    forall c, k: nat ensures st'.code.PlaceOk(st'.pos, c, k) { assert st.code.PlaceOk(st.pos, c, k); }
  }

  lemma {:induction false} NewBlocksKeep(st: Build, k: nat)
    requires Inv(st)
    ensures Inv(NewBlocks(st, k))
  {
    if k > 0 {
      NewBlocksKeep(st, k - 1);
      NewBlocksSound(st, k);
      NewBlockKeeps(NewBlocks(st, k - 1));
    }
  }

  // ----- expressions -----

  lemma ValueLater(st: Build, st': Build, v: Value)
    requires Grows(st, st', {st.cur}) && st'.cur == st.cur && ValueHere(st, v) && Sound(st)
    ensures ValueHere(st', v)
  {
    if v.Ref? { assert GrowsId(st, st', v.id) && IdAt(st, v.id); }
  }

  lemma PlainKeeps(st: Build, kind: Kind, ops: seq<Value>)
    requires Inv(st) && Fitting(st, kind, ops)
    ensures Inv(st.Emit(kind, ops)) && Grows(st, st.Emit(kind, ops), {st.cur})
    ensures kind.Load? || kind.Exec? ==> ValueHere(st.Emit(kind, ops), st.Next())
  {
    EmitSound(st, kind, ops);
    EmitKeeps(st, kind, ops);
  }

  lemma {:induction false} ExprKeeps(st: Build, e: Expr)
    requires Inv(st)
    ensures Inv(LowerExpr(st, e).st) && ValueHere(LowerExpr(st, e).st, LowerExpr(st, e).v)
    decreases e, 1
  {
    match e
    case Num(n) =>
    case Var(name) => PlainKeeps(st, Load, [Addr(if Declared(st.scopes, name) then Find(st.scopes, name) else 0)]);
    case Binary(op, l, r) => OperationKeeps(st, e, l, r, op);
    case Compare(op, l, r) =>
      OperationKeeps(st, e, l, r, op);
      var two := LowerTwo(st, e, l, r);
      PlainKeeps(two.st.Emit(Exec(op), two.vs), Exec(ZEXT), [two.st.Next()]);
    case Assign(name, v) =>
      ExprKeeps(st, v);
      StoreKeeps(LowerExpr(st, v), if Declared(st.scopes, name) then Find(st.scopes, name) else 0);
    case Call(callee, args) =>
      ArgsKeep(st, args);
      var all := LowerArgs(st, args);
      PlainKeeps(all.st, Exec(CALL), [Global(callee)] + all.vs);
  }

  lemma StoreKeeps(res: Lowered, x: Slot)
    requires Inv(res.st) && ValueHere(res.st, res.v)
    ensures var st' := res.st.Emit(Store, [res.v, Addr(x)]); Inv(st') && ValueHere(st', res.v)
  {
    PlainKeeps(res.st, Store, [res.v, Addr(x)]);
    ValueLater(res.st, res.st.Emit(Store, [res.v, Addr(x)]), res.v);
  }

  lemma {:induction false} OperationKeeps(st: Build, e: Expr, l: Expr, r: Expr, op: Op)
    requires Inv(st) && l < e && r < e
    ensures var two := LowerTwo(st, e, l, r);
            Inv(two.st.Emit(Exec(op), two.vs)) && ValueHere(two.st.Emit(Exec(op), two.vs), two.st.Next())
    decreases e, 0, 1
  {
    TwoKeep(st, e, l, r);
    var two := LowerTwo(st, e, l, r);
    PlainKeeps(two.st, Exec(op), two.vs);
  }

  lemma {:induction false} TwoKeep(st: Build, e: Expr, l: Expr, r: Expr)
    requires Inv(st) && l < e && r < e
    ensures Inv(LowerTwo(st, e, l, r).st)
    ensures forall v :: v in LowerTwo(st, e, l, r).vs ==> ValueHere(LowerTwo(st, e, l, r).st, v)
    decreases e, 0, 0
  {
    ExprKeeps(st, l);
    var lres := LowerExpr(st, l);
    ExprKeeps(lres.st, r);
    ExprGrows(lres.st, r);
    ValueLater(lres.st, LowerExpr(lres.st, r).st, lres.v);
  }

  lemma {:induction false} ArgsKeep(st: Build, es: seq<Expr>)
    requires Inv(st)
    ensures Inv(LowerArgs(st, es).st)
    ensures forall v :: v in LowerArgs(st, es).vs ==> ValueHere(LowerArgs(st, es).st, v)
    decreases es
  {
    if es != [] {
      var init, e := LowerArgs(st, es[..|es| - 1]), es[|es| - 1];
      ArgsKeep(st, es[..|es| - 1]);
      ExprKeeps(init.st, e);
      ExprGrows(init.st, e);
      forall v | v in init.vs ensures ValueHere(LowerExpr(init.st, e).st, v) {
        ValueLater(init.st, LowerExpr(init.st, e).st, v);
      }
    }
  }

  lemma CondKeeps(st: Build, c: Expr, cond: Lowered)
    requires Inv(st) && cond == LowerCond(st, c)
    ensures Inv(cond.st) && ValueHere(cond.st, cond.v)
  {
    ExprKeeps(st, c);
    var res := LowerExpr(st, c);
    PlainKeeps(res.st, Exec(GT), [res.v, Const(0)]);
  }

  // ----- reached blocks -----

  ghost predicate AllReached(st: Build) {
    forall b: Block {:trigger st.g.Reachable(b)} :: b < |st.g.blocks| ==> st.g.Reachable(b)
  }

  lemma ReachKept(st: Build, st': Build, t: set<Block>, b: Block)
    requires AllThere(st) && AllThere(st') && Grows(st, st', t) && st.g.Reachable(b)
    ensures st'.g.Reachable(b)
  {
    var w :| st.g.WalkFromTo(w, st.g.entry, b);
    forall i | 0 < i < |w| ensures st'.g.EdgeAt(w, i) {
      assert st.g.EdgeAt(w, i) && EdgeKept(st.g, st'.g, w[i - 1], w[i]);
    }
    assert st'.g.WalkFromTo(w, st'.g.entry, b);
  }

  lemma ReachNext(g: Cfg, p: Block, b: Block)
    requires g.Reachable(p) && g.Edge(p, b)
    ensures g.Reachable(b)
  {
    var w :| g.WalkFromTo(w, g.entry, p);
    g.ExtendWalk(w, g.entry, p, b);
  }

  /** The old blocks stay reached. */
  lemma OldReached(st: Build, st': Build, t: set<Block>)
    requires AllThere(st) && AllThere(st') && Grows(st, st', t) && AllReached(st)
    ensures forall b: Block {:trigger st'.g.Reachable(b)} :: b < |st.g.blocks| ==> st'.g.Reachable(b)
  {
    forall b: Block | b < |st.g.blocks| ensures st'.g.Reachable(b) {
      assert st.g.Reachable(b);
      ReachKept(st, st', t, b);
    }
  }

  // ----- statements -----

  /** What every statement keeps. */
  ghost predicate WellBuilt(st: Build) {
    Inv(st) && AllReached(st)
  }

  lemma ForkInv(st: Build, c: Expr, cond: Lowered, st0: Build, st1: Build, t: Block, f: Block)
    requires Inv(st) && ForkOf(st, c, cond, st0, st1, t, f) && ExprGrown(st, cond.st) && Sound(st0) && Grows(cond.st, st0, {})
    requires st0.cur == st.cur && |st0.g.blocks| == f + 1
    ensures Inv(st1) && st1.g.Edge(st.cur, t) && st1.g.Edge(st.cur, f)
  {
    assert OneLevel(0);
    CondKeeps(st, c, cond);
    NewBlocksKeep(cond.st, 2);
    assert ThereAt(st, st.cur);
    WidenGrows(cond.st, st0, {cond.st.cur});
    ValueLater(cond.st, st0, cond.v);
    TestKeeps(st0, cond.v, t, f, st1);
  }

  /** The branch of an `if`: its blocks are reached. */
  lemma ForkKeeps(st: Build, c: Expr, cond: Lowered, st0: Build, st1: Build, t: Block, f: Block)
    requires WellBuilt(st) && ForkOf(st, c, cond, st0, st1, t, f)
    ensures WellBuilt(st1)
  {
    ForkGrows(st, c, cond, st0, st1, t, f);
    assert |st0.g.blocks| == f + 1 by { assert OneLevel(0); NewBlocksSound(cond.st, 2); }
    ForkInv(st, c, cond, st0, st1, t, f);
    BothReached(st, st1, t, f);
  }

  /** The targets of a branch are reached. */
  lemma BothReached(st: Build, st1: Build, t: Block, f: Block)
    requires AllThere(st) && AllThere(st1) && Grows(st, st1, {st.cur}) && AllReached(st)
    requires st1.g.Edge(st.cur, t) && st1.g.Edge(st.cur, f)
    requires |st1.g.blocks| <= |st.g.blocks| + 2 && t == |st.g.blocks| && f == t + 1
    ensures AllReached(st1)
  {
    OldReached(st, st1, {st.cur});
    assert st.g.Reachable(st.cur) && st1.g.Reachable(st.cur);
    ReachNext(st1.g, st.cur, t);
    ReachNext(st1.g, st.cur, f);
  }

  lemma LoopInv(st: Build, c: Expr, st0: Build, st1: Build, cond: Lowered, st2: Build, n: Block, t: Block, f: Block)
    requires Inv(st) && LoopOf(st, c, st0, st1, cond, st2, n, t, f) && st0.cur == st.cur && Sound(st0) && |st0.g.blocks| == f + 1
    ensures Inv(st1) && st1.g.Edge(st.cur, n)
  {
    assert OneLevel(0) && st1 == st0.Br(n).At(n);
    NewBlocksKeep(st, 3);
    assert ThereAt(st, 0) && n > 0;
    BrKeeps(st0, n, n, st1);
  }

  lemma LoopTestInv(st: Build, c: Expr, st0: Build, st1: Build, cond: Lowered, st2: Build, n: Block, t: Block, f: Block)
    requires LoopOf(st, c, st0, st1, cond, st2, n, t, f) && Inv(st1) && ExprGrown(st1, cond.st) && st1.cur == n && |st1.g.blocks| == f + 1
    ensures Inv(st2) && st2.g.Edge(n, t) && st2.g.Edge(n, f)
  {
    assert OneLevel(0) && st2 == Test(cond.st, cond.v, t, f);
    CondKeeps(st1, c, cond);
    TestKeeps(cond.st, cond.v, t, f, st2);
  }

  /** The jump into a loop and its condition: its blocks are reached. */
  lemma LoopKeeps(st: Build, c: Expr, st0: Build, st1: Build, cond: Lowered, st2: Build, n: Block, t: Block, f: Block)
    requires WellBuilt(st) && LoopOf(st, c, st0, st1, cond, st2, n, t, f)
    ensures WellBuilt(st2)
  {
    LoopEntered(st, c, st0, st1, cond, st2, n, t, f);
    LoopGrows(st, c, st0, st1, cond, st2, n, t, f);
    assert |st0.g.blocks| == f + 1 by { assert OneLevel(0); NewBlocksSound(st, 3); }
    LoopInv(st, c, st0, st1, cond, st2, n, t, f);
    LoopTestInv(st, c, st0, st1, cond, st2, n, t, f);
    GrowsTrans(st1, cond.st, st2, {n}, {n});
    assert EdgeKept(st1.g, st2.g, st.cur, n);
    LoopReached(st, st2, n);
  }

  lemma LoopReached(st: Build, st2: Build, n: Block)
    requires AllThere(st) && AllThere(st2) && Grows(st, st2, {st.cur}) && AllReached(st) && n == |st.g.blocks|
    requires |st2.g.blocks| == n + 3 && st2.g.Edge(st.cur, n) && st2.g.Edge(n, n + 1) && st2.g.Edge(n, n + 2)
    ensures AllReached(st2)
  {
    OldReached(st, st2, {st.cur});
    assert st.g.Reachable(st.cur) && st2.g.Reachable(st.cur);
    ReachNext(st2.g, st.cur, n);
    ReachNext(st2.g, n, n + 1);
    ReachNext(st2.g, n, n + 2);
  }

  /** The jump after an arm. */
  lemma ArmKeeps(st2: Build, b: Block, f: Block, r: Build)
    requires WellBuilt(st2) && 0 < b < |st2.g.blocks| && f < |st2.g.blocks| && r == Jump(st2, b, f)
    ensures WellBuilt(r)
  {
    JumpKeeps(st2, b, f, r);
    JumpSound(st2, b, f, r);
    OldReached(st2, r, {st2.cur});
  }

  /** The end of an `if` with `else`: the new block is reached from the arms. */
  lemma EndArmsKeep(st3: Build, x: Block, r: Build)
    requires WellBuilt(st3) && x < |st3.g.blocks| && x != st3.cur && r == EndArms(st3, x)
    ensures WellBuilt(r)
  {
    if !Ended(st3) {
      var n, y, st4 := |st3.g.blocks|, st3.cur, st3.NewBlock();
      var st5 := st4.At(x);
      var st6 := st5.Br(n).At(y);
      ArmsGrow(st3, x, st4, st5, st6, n, r);
      JoinInv(st3, x, st4, st5, st6, n, r);
      OldReached(st3, r, {x, y});
      assert st3.g.Reachable(x);
      ReachNext(r.g, x, n);
    }
  }

  lemma JoinInv(st3: Build, x: Block, st4: Build, st5: Build, st6: Build, n: Block, r: Build)
    requires Inv(st3) && x < n && ArmsOf(st3, x, st4, st5, st6, n) && r == st6.Br(n) && Sound(st6) && Sound(r)
    ensures Inv(r) && r.g.Edge(x, n)
  {
    assert NewBlocks(st3, 0) == st3 && NewBlocks(st3, 1) == st4;
    NewBlocksSound(st3, 1);
    NewBlockKeeps(st3);
    assert ThereAt(st3, 0) && n > 0;
    SameKeeps(st4, st5);
    BrKeeps(st5, n, st3.cur, st6);
    BrKeeps(st6, n, st6.cur, st6.Br(n).At(st6.cur));
    assert r == st6.Br(n).At(st6.cur);
    EdgeSound(st6, n);
    assert EdgeKept(st6.g, st6.AddEdge(n).g, x, n);
  }

  lemma {:induction false} LocalsKeep(st: Build, names: seq<string>)
    requires Inv(st)
    ensures Inv(DeclareLocals(st, names))
  {
    if names != [] {
      var n := |names| - 1;
      var st1 := DeclareLocals(st, names[..n]);
      LocalsKeep(st, names[..n]);
      PlainKeeps(st1, Alloca(st1.slots, true), []);
      SameKeeps(st1.Emit(Alloca(st1.slots, true), []), st1.Declare(names[n]));
    }
  }

  lemma {:induction false} StmtKeeps(st: Build, s: Stmt, r: Build)
    requires WellBuilt(st) && Becomes(st, s, r)
    ensures WellBuilt(r)
    decreases s, 1
  {
    match s
    case Nothing => SimpleBecomes(st, s, r);
    case Do(e) =>
      SimpleBecomes(st, s, r);
      ExprKeeps(st, e);
      ExprGrows(st, e);
    case If(_, _) =>
      var t, f := |st.g.blocks|, |st.g.blocks| + 1;
      var cond, st0, st1, st2 := IfBecomes(st, s, r, t, f);
      ForkGrows(st, s.cond, cond, st0, st1, t, f);
      ForkKeeps(st, s.cond, cond, st0, st1, t, f);
      StmtKeeps(st1, s.then_, st2);
      StmtGrows(st1, s.then_, st2);
      ArmKeeps(st2, f, f, r);
    case IfElse(_, _, _) => IfElseKeeps(st, s, r);
    case While(_, _) =>
      var n, t, f := |st.g.blocks|, |st.g.blocks| + 1, |st.g.blocks| + 2;
      var st0, st1, cond, st2, st3 := WhileBecomes(st, s, r, n, t, f);
      LoopGrows(st, s.cond, st0, st1, cond, st2, n, t, f);
      LoopKeeps(st, s.cond, st0, st1, cond, st2, n, t, f);
      StmtKeeps(st2, s.body, st3);
      StmtGrows(st2, s.body, st3);
      ArmKeeps(st3, n, f, r);
    case Compound(decls, stmts) =>
      var st1 := OpenLocals(st, decls);
      var st2 := CompoundBecomes(st, s, r, st1);
      LocalsKept(st, decls, st1);
      StmtsKeep(st1, stmts, st2);
      SameKeeps(st2, r);
      SameSound(st2, r);
      OldReached(st2, r, {});
  }

  lemma LocalsKept(st: Build, decls: seq<string>, st1: Build)
    requires WellBuilt(st) && st1 == OpenLocals(st, decls)
    ensures WellBuilt(st1)
  {
    var st0 := st.(scopes := st.scopes + [map[]]);
    SameKeeps(st, st0);
    LocalsKeep(st0, decls);
    LocalsGrow(st0, decls);
  }

  lemma {:induction false} IfElseKeeps(st: Build, s: Stmt, r: Build)
    requires WellBuilt(st) && s.IfElse? && Becomes(st, s, r)
    ensures WellBuilt(r)
    decreases s, 0
  {
    var t, f := |st.g.blocks|, |st.g.blocks| + 1;
    var cond, st0, st1, st2, st2', st3 := IfElseBecomes(st, s, r, t, f);
    ForkGrows(st, s.cond, cond, st0, st1, t, f);
    ForkKeeps(st, s.cond, cond, st0, st1, t, f);
    StmtKeeps(st1, s.then_, st2);
    StmtGrows(st1, s.then_, st2);
    SameKeeps(st2, st2');
    SameSound(st2, st2');
    OldReached(st2, st2', {});
    StmtKeeps(st2', s.else_, st3);
    StmtGrows(st2', s.else_, st3);
    ElseGrown(st, st1, st2, st2', st3, t, f);
    EndArmsKeep(st3, st2.cur, r);
  }

  lemma {:induction false} StmtsKeep(st: Build, stmts: seq<Stmt>, r: Build)
    requires WellBuilt(st) && BecomesAll(st, stmts, r)
    ensures WellBuilt(r)
    decreases stmts
  {
    var st1 := NextBecomes(st, stmts, r);
    if stmts != [] {
      StmtKeeps(st, stmts[0], st1);
      StmtsKeep(st1, stmts[1..], r);
    }
  }

  // ----- functions -----

  lemma {:induction false} ParamsKeep(st: Build, params: seq<string>)
    requires Inv(st)
    ensures Inv(LowerParams(st, params))
  {
    if params != [] {
      var n := |params| - 1;
      var st1 := LowerParams(st, params[..n]);
      ParamsKeep(st, params[..n]);
      PlainKeeps(st1, Alloca(st1.slots, true), []);
      var st2 := st1.Emit(Alloca(st1.slots, true), []);
      PlainKeeps(st2, Store, [Arg(n), Addr(st1.slots)]);
      SameKeeps(st2.Emit(Store, [Arg(n), Addr(st1.slots)]), LowerParams(st, params));
    }
  }

  lemma EmptyOk()
    ensures WellBuilt(Empty())
  {
    var st := Empty();
    EmptySound();
    forall id ensures InstrAt(st, id) { }
    forall p, b ensures MirrorAt(st.g, p, b) { }
    st.g.SingleWalk(0);
  }

  lemma BeginKept(params: seq<string>, st0: Build)
    requires st0 == LowerParams(Empty(), params)
    ensures WellBuilt(st0)
  {
    EmptyOk();
    EmptySound();
    ParamsKeep(Empty(), params);
    ParamsGrow(Empty(), params);
  }

  /** Every function is lowered to mirrored edge lists with all blocks reached,
      instructions at their places, and exact use lists. */
  lemma FunctionLowered(f: Function, r: Build)
    requires r == LowerFunction(f)
    ensures WellBuilt(r)
  {
    var st0, st := FunctionStates(f, r);
    BeginKept(f.params, st0);
    StmtKeeps(st0, Compound(f.decls, f.stmts), st);
    EmitKeeps(st, Ret, [Const(0)]);
    OldReached(st, r, {st.cur});
  }

  /** The graph of every function is fit for the later passes. */
  lemma LoweredGraphOk(f: Function)
    ensures GraphOk(LowerFunction(f).g) && LowerFunction(f).g.entry == 0
  {
    FunctionLowered(f, LowerFunction(f));
    WfFromMirror(LowerFunction(f));
  }

  lemma KeysOf(st: Build)
    requires AllThere(st)
    ensures forall b: Block :: b in st.g.blocks <==> b < |st.g.blocks|
    ensures forall b :: b in st.g.succs <==> b in st.g.blocks
    ensures forall b :: b in st.g.preds <==> b in st.g.blocks
    ensures forall b :: b in st.code.body <==> b in st.g.blocks
  {
    forall b: Block ensures (b in st.g.blocks <==> b < |st.g.blocks|) && (b in st.g.succs <==> b in st.g.blocks) &&
                     (b in st.g.preds <==> b in st.g.blocks) && (b in st.code.body <==> b in st.g.blocks) {
      assert ThereAt(st, b);
    }
  }

  lemma WfFromMirror(st: Build)
    requires WellBuilt(st)
    ensures GraphOk(st.g)
  {
    KeysOf(st);
    forall p, b | p in st.g.blocks && b in st.g.succs[p] ensures b in st.g.blocks { assert MirrorAt(st.g, p, b); }
    forall p, b | b in st.g.blocks && p in st.g.preds[b] ensures p in st.g.blocks { assert MirrorAt(st.g, p, b); }
    forall p, b | p in st.g.blocks && b in st.g.blocks ensures multiset(st.g.succs[p])[b] == multiset(st.g.preds[b])[p] {
      assert MirrorAt(st.g, p, b);
    }
  }

  // ----- memory form -----

  /** A terminator is the last instruction of its block. */
  ghost predicate LastAt(st: Build, id: Id) {
    id in st.pos && st.code.IsTerminator(id) && st.pos[id].bb in st.code.body ==>
      st.pos[id].k == |st.code.body[st.pos[id].bb]| - 1
  }

  ghost predicate TerminatorsLast(st: Build) {
    forall id {:trigger LastAt(st, id)} :: LastAt(st, id)
  }

  /** The lowered function is in memory form exactly if its terminators come last;
      the use lists are exact in any case. */
  lemma MemoryFormIffLast(st: Build)
    requires WellBuilt(st)
    ensures IsMemoryForm(st.g, st.code, st.pos) <==> TerminatorsLast(st)
    ensures LoadUsesAllExact(st.code, st.uses)
  {
    KeysOf(st);
    forall id ensures FormOk(st.g, st.code, st.pos, id) <==> LastAt(st, id) {
      InstrFits(st, id);
    }
    forall id ensures (id in st.code.kind <==> id in st.pos) && (id in st.code.ops <==> id in st.pos) {
      assert IdAt(st, id);
    }
    if IsMemoryForm(st.g, st.code, st.pos) {
      forall id ensures LastAt(st, id) { assert FormOk(st.g, st.code, st.pos, id); }
    }
    if TerminatorsLast(st) {
      forall id ensures FormOk(st.g, st.code, st.pos, id) { assert LastAt(st, id); }
    }
    forall l ensures LoadUsesExact(st.code, st.uses, l) {
      assert ExactUses(st.code.ops, st.uses, Ref(l));
    }
  }

  lemma InstrFits(st: Build, id: Id)
    requires Inv(st)
    ensures FormOk(st.g, st.code, st.pos, id) <==> LastAt(st, id)
  {
    assert InstrAt(st, id) && IdAt(st, id);
    if id in st.pos {
      forall i | 0 <= i < |st.code.ops[id]| ensures UseOk(st.g, st.code, st.pos, id, st.code.ops[id][i]) {
        assert UseHere(st, id, st.code.ops[id][i]);
      }
    }
  }
}
