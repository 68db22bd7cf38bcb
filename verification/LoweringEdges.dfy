/** Which edges lowering leaves, and in which order: those of the jumps of each
    block, one after the other, with the false branch of a test first. */
module LoweringEdges {
  import opened Graphs
  import opened IR
  import opened SsaForm
  import opened Sources
  import opened Lowerings
  import opened LoweringGrowth
  import opened LoweringOk
  import opened LoweringNeat

  /** Where an instruction leads. */
  function TargetsOf(code: Code, id: Id): seq<Block> {
    if id !in code.kind || id !in code.ops then []
    else
      var ops := code.ops[id];
      if code.kind[id] == Kind.Br && |ops| == 1 && ops[0].Label? then [ops[0].bb]
      else if code.kind[id] == Kind.CondBr && |ops| == 3 && ops[1].Label? && ops[2].Label? then [ops[2].bb, ops[1].bb]
      else []
  }

  function Targets(code: Code, ids: seq<Id>): seq<Block> {
    if ids == [] then [] else Targets(code, ids[..|ids| - 1]) + TargetsOf(code, ids[|ids| - 1])
  }

  /** One entry of `p` for each time that `b` is a target. */
  function Hits(targets: seq<Block>, b: Block, p: Block): seq<Block> {
    if targets == [] then []
    else Hits(targets[..|targets| - 1], b, p) + if targets[|targets| - 1] == b then [p] else []
  }

  /** The blocks whose jumps lead to `b`, in the order in which the first `n`
      instructions of the function were made. */
  function Entries(code: Code, pos: map<Id, Place>, n: nat, b: Block): seq<Block> {
    if n == 0 then []
    else
      var id := Instr(n - 1);
      Entries(code, pos, n - 1, b) + if id in pos then Hits(TargetsOf(code, id), b, pos[id].bb) else []
  }

  ghost predicate LinedAt(st: Build, b: Block) {
    b < |st.g.blocks| ==>
      && ListOf(st.g.succs, b) == Targets(st.code, ListOf(st.code.body, b))
      && ListOf(st.g.preds, b) == Entries(st.code, st.pos, st.ids, b)
  }

  /** The successors of each block are the targets of its instructions in order,
      the predecessors the blocks that jump to it, in the order of the jumps. */
  ghost predicate Lined(st: Build) {
    forall b {:trigger LinedAt(st, b)} :: LinedAt(st, b)
  }

  lemma {:induction false} SameTargets(code: Code, code': Code, ids: seq<Id>)
    requires forall id :: id in ids ==> TargetsOf(code', id) == TargetsOf(code, id)
    ensures Targets(code', ids) == Targets(code, ids)
  {
    if ids != [] {
      SameTargets(code, code', ids[..|ids| - 1]);
    }
  }

  lemma {:induction false} SameEntries(st: Build, kind: Kind, ops: seq<Value>, n: nat, b: Block)
    requires Sound(st) && n <= st.ids
    ensures Entries(st.Emit(kind, ops).code, st.Emit(kind, ops).pos, n, b) == Entries(st.code, st.pos, n, b)
  {
    if n > 0 {
      SameEntries(st, kind, ops, n - 1, b);
    }
  }

  lemma OneHit(t: Block, b: Block, p: Block)
    ensures Hits([t], b, p) == if t == b then [p] else []
  {
    assert [t][..0] == [];
  }

  lemma TwoHits(t: Block, u: Block, b: Block, p: Block)
    ensures Hits([t, u], b, p) == Hits([t], b, p) + Hits([u], b, p)
  {
    assert [t, u][..1] == [t];
    OneHit(u, b, p);
  }

  lemma {:induction false} NoHits(targets: seq<Block>, b: Block, p: Block)
    requires b !in targets
    ensures Hits(targets, b, p) == []
  {
    if targets != [] {
      NoHits(targets[..|targets| - 1], b, p);
    }
  }

  /** A block that does not exist yet is no target. */
  lemma {:induction false} NewIsUnentered(st: Build, code: Code, n: nat, b: Block)
    requires Inv(st) && b >= |st.g.blocks| && code.kind == st.code.kind && code.ops == st.code.ops
    ensures Entries(code, st.pos, n, b) == []
  {
    if n > 0 {
      NewIsUnentered(st, code, n - 1, b);
      var id := Instr(n - 1);
      if id in st.pos {
        forall t | t in TargetsOf(code, id) ensures t < |st.g.blocks| {
          assert InstrAt(st, id) && JumpsOk(st, id) && st.g.Edge(st.pos[id].bb, t);
          assert MirrorAt(st.g, st.pos[id].bb, t) && ThereAt(st, t);
        }
        NoHits(TargetsOf(code, id), b, st.pos[id].bb);
      }
    }
  }

  lemma {:induction false} AlikeEntries(code: Code, code': Code, pos: map<Id, Place>, n: nat, b: Block)
    requires code'.kind == code.kind && code'.ops == code.ops
    ensures Entries(code', pos, n, b) == Entries(code, pos, n, b)
  {
    if n > 0 {
      AlikeEntries(code, code', pos, n - 1, b);
    }
  }

  // ----- one step -----

  /** The instructions of a block keep their targets. */
  lemma OldTargets(st: Build, kind: Kind, ops: seq<Value>, b: Block)
    requires Inv(st) && b < |st.g.blocks|
    ensures var list := ListOf(st.code.body, b); Targets(st.Emit(kind, ops).code, list) == Targets(st.code, list)
  {
    var list, code' := ListOf(st.code.body, b), st.Emit(kind, ops).code;
    FreshId(st);
    assert ThereAt(st, b);
    forall id | id in list ensures TargetsOf(code', id) == TargetsOf(st.code, id) {
      var k :| 0 <= k < |list| && list[k] == id;
      assert st.code.PlaceOk(st.pos, b, k) && IdAt(st, id);
    }
    SameTargets(st.code, code', list);
  }

  /** What one more instruction adds to the targets of a block. */
  lemma MoreTargets(st: Build, kind: Kind, ops: seq<Value>, b: Block)
    requires Inv(st) && b < |st.g.blocks|
    ensures var code' := st.Emit(kind, ops).code;
            Targets(code', ListOf(code'.body, b)) ==
            Targets(st.code, ListOf(st.code.body, b)) + if b == st.cur then TargetsOf(code', Instr(st.ids)) else []
  {
    OldTargets(st, kind, ops, b);
    if b == st.cur {
      var list := ListOf(st.code.body, b);
      assert (list + [Instr(st.ids)])[..|list|] == list;
    }
  }

  /** An instruction, with the edges that it stands for. */
  lemma OneLined(st: Build, kind: Kind, ops: seq<Value>, more: seq<Block>, r: Build)
    requires Inv(st) && Lined(st) && r.code == st.Emit(kind, ops).code && r.g.blocks == st.g.blocks
    requires more == TargetsOf(r.code, Instr(st.ids)) && r.pos == st.Emit(kind, ops).pos && r.ids == st.ids + 1
    requires forall b: Block {:trigger EdgesAdded(st, more, r, b)} :: EdgesAdded(st, more, r, b)
    ensures Lined(r)
  {
    forall b: Block ensures LinedAt(r, b) {
      if b < |st.g.blocks| {
        assert LinedAt(st, b) && EdgesAdded(st, more, r, b);
        MoreTargets(st, kind, ops, b);
        SameEntries(st, kind, ops, st.ids, b);
      }
    }
  }

  /** The edges from the current block to `more` have been added. */
  ghost predicate EdgesAdded(st: Build, more: seq<Block>, r: Build, b: Block) {
    && ListOf(r.g.succs, b) == ListOf(st.g.succs, b) + (if b == st.cur then more else [])
    && ListOf(r.g.preds, b) == ListOf(st.g.preds, b) + Hits(more, b, st.cur)
  }

  lemma PlainLined(st: Build, kind: Kind, ops: seq<Value>)
    requires Inv(st) && Lined(st) && !kind.Br? && !kind.CondBr?
    ensures Lined(st.Emit(kind, ops))
  {
    forall b: Block ensures EdgesAdded(st, [], st.Emit(kind, ops), b) { }
    OneLined(st, kind, ops, [], st.Emit(kind, ops));
  }

  lemma SameLined(st: Build, r: Build)
    requires Lined(st) && r.g == st.g && r.code == st.code && r.pos == st.pos && r.ids == st.ids
    ensures Lined(r)
  {
    forall b ensures LinedAt(r, b) { assert LinedAt(st, b); }
  }

  lemma BrLined(st: Build, b: Block, next: Block, r: Build)
    requires Inv(st) && Lined(st) && r == st.Br(b).At(next)
    ensures Lined(r)
  {
    forall c: Block ensures EdgesAdded(st, [b], r, c) { OneHit(b, c, st.cur); }
    OneLined(st, Kind.Br, [Label(b)], [b], r);
  }

  lemma JumpLined(st: Build, b: Block, next: Block, r: Build)
    requires Inv(st) && Lined(st) && r == Jump(st, b, next)
    ensures Lined(r)
  {
    if Ended(st) { SameLined(st, r); } else { BrLined(st, b, next, r); }
  }

  lemma TestEdges(st: Build, t: Block, f: Block, r: Build, c: Block)
    requires r.g == st.AddEdge(f).AddEdge(t).g
    ensures EdgesAdded(st, [f, t], r, c)
  {
    var st1 := st.AddEdge(f);
    OneHit(f, c, st.cur);
    OneHit(t, c, st.cur);
    assert EdgesAdded(st, [f], st1, c) && EdgesAdded(st1, [t], r, c);
    TwoHits(f, t, c, st.cur);
    assert ListOf(st.g.succs, st.cur) + [f] + [t] == ListOf(st.g.succs, st.cur) + [f, t];
  }

  lemma TestLined(st: Build, v: Value, t: Block, f: Block, r: Build)
    requires Inv(st) && Lined(st) && r == Test(st, v, t, f)
    ensures Lined(r)
  {
    forall c: Block ensures EdgesAdded(st, [f, t], r, c) { TestEdges(st, t, f, r, c); }
    OneLined(st, Kind.CondBr, [v, Label(t), Label(f)], [f, t], r);
  }

  lemma NewBlockLined(st: Build)
    requires Inv(st) && Lined(st)
    ensures Lined(st.NewBlock())
  {
    var n, r := |st.g.blocks|, st.NewBlock();
    NewIsUnentered(st, r.code, st.ids, n);
    forall b ensures LinedAt(r, b) {
      assert LinedAt(st, b) && ThereAt(st, b);
      SameTargets(st.code, r.code, ListOf(st.code.body, b));
      AlikeEntries(st.code, r.code, st.pos, st.ids, b);
    }
  }

  lemma {:induction false} NewBlocksLined(st: Build, k: nat)
    requires Inv(st) && Lined(st)
    ensures Lined(NewBlocks(st, k))
  {
    if k > 0 {
      NewBlocksLined(st, k - 1);
      NewBlocksKeep(st, k - 1);
      NewBlockLined(NewBlocks(st, k - 1));
    }
  }

  // ----- expressions -----

  lemma {:induction false} ExprLined(st: Build, e: Expr)
    requires Inv(st) && Lined(st)
    ensures Lined(LowerExpr(st, e).st)
    decreases e, 1
  {
    match e
    case Num(n) =>
    case Var(name) => PlainLined(st, Load, [Addr(if Declared(st.scopes, name) then Find(st.scopes, name) else 0)]);
    case Binary(op, l, r) => OperationLined(st, e, l, r, op);
    case Compare(op, l, r) =>
      OperationLined(st, e, l, r, op);
      OperationKeeps(st, e, l, r, op);
      var two := LowerTwo(st, e, l, r);
      PlainLined(two.st.Emit(Exec(op), two.vs), Exec(ZEXT), [two.st.Next()]);
    case Assign(name, v) =>
      ExprLined(st, v);
      ExprKeeps(st, v);
      var res := LowerExpr(st, v);
      PlainLined(res.st, Store, [res.v, Addr(if Declared(st.scopes, name) then Find(st.scopes, name) else 0)]);
    case Call(callee, args) =>
      ArgsLined(st, args);
      ArgsKeep(st, args);
      var all := LowerArgs(st, args);
      PlainLined(all.st, Exec(CALL), [Global(callee)] + all.vs);
  }

  lemma {:induction false} OperationLined(st: Build, e: Expr, l: Expr, r: Expr, op: Op)
    requires Inv(st) && Lined(st) && l < e && r < e
    ensures var two := LowerTwo(st, e, l, r); Lined(two.st.Emit(Exec(op), two.vs))
    decreases e, 0
  {
    ExprKeeps(st, l);
    ExprLined(st, l);
    ExprLined(LowerExpr(st, l).st, r);
    TwoKeep(st, e, l, r);
    var two := LowerTwo(st, e, l, r);
    PlainLined(two.st, Exec(op), two.vs);
  }

  lemma {:induction false} ArgsLined(st: Build, es: seq<Expr>)
    requires Inv(st) && Lined(st)
    ensures Lined(LowerArgs(st, es).st)
    decreases es
  {
    if es != [] {
      ArgsLined(st, es[..|es| - 1]);
      ArgsKeep(st, es[..|es| - 1]);
      ExprLined(LowerArgs(st, es[..|es| - 1]).st, es[|es| - 1]);
    }
  }

  lemma CondLined(st: Build, c: Expr, cond: Lowered)
    requires Inv(st) && Lined(st) && cond == LowerCond(st, c)
    ensures Lined(cond.st) && Inv(cond.st)
  {
    ExprLined(st, c);
    ExprKeeps(st, c);
    CondKeeps(st, c, cond);
    var res := LowerExpr(st, c);
    PlainLined(res.st, Exec(GT), [res.v, Const(0)]);
  }

  lemma {:induction false} LocalsLined(st: Build, names: seq<string>)
    requires Inv(st) && Lined(st)
    ensures Lined(DeclareLocals(st, names))
  {
    if names != [] {
      var st1 := DeclareLocals(st, names[..|names| - 1]);
      LocalsLined(st, names[..|names| - 1]);
      LocalsKeep(st, names[..|names| - 1]);
      PlainLined(st1, Alloca(st1.slots, true), []);
      SameLined(st1.Emit(Alloca(st1.slots, true), []), DeclareLocals(st, names));
    }
  }

  // ----- statements -----

  lemma ForkLined(st: Build, c: Expr, cond: Lowered, st0: Build, st1: Build, t: Block, f: Block)
    requires Inv(st) && Lined(st) && ForkOf(st, c, cond, st0, st1, t, f)
    ensures Lined(st1)
  {
    assert OneLevel(0) && st0 == NewBlocks(cond.st, 2) && st1 == Test(st0, cond.v, t, f);
    CondLined(st, c, cond);
    NewBlocksLined(cond.st, 2);
    NewBlocksKeep(cond.st, 2);
    TestLined(st0, cond.v, t, f, st1);
  }

  lemma LoopLined(st: Build, c: Expr, st0: Build, st1: Build, cond: Lowered, st2: Build, n: Block, t: Block, f: Block)
    requires Inv(st) && Lined(st) && LoopOf(st, c, st0, st1, cond, st2, n, t, f)
    ensures Lined(st2)
  {
    EnterLast(st, c, st0, st1, cond, st2, n, t, f);
    assert OneLevel(0) && st0 == NewBlocks(st, 3) && st1 == st0.Br(n).At(n) && cond == LowerCond(st1, c) && st2 == Test(cond.st, cond.v, t, f);
    NewBlocksLined(st, 3);
    NewBlocksKeep(st, 3);
    BrLined(st0, n, n, st1);
    CondLined(st1, c, cond);
    TestLined(cond.st, cond.v, t, f, st2);
  }

  lemma EndArmsLined(st3: Build, x: Block, r: Build)
    requires WellBuilt(st3) && Lined(st3) && x < |st3.g.blocks| && x != st3.cur && r == EndArms(st3, x)
    ensures Lined(r)
  {
    if !Ended(st3) {
      var n, y, st4 := |st3.g.blocks|, st3.cur, st3.NewBlock();
      var st5 := st4.At(x);
      var st6 := st5.Br(n).At(y);
      ArmsGrow(st3, x, st4, st5, st6, n, r);
      assert NewBlocks(st3, 0) == st3 && NewBlocks(st3, 1) == st4 && ThereAt(st3, 0);
      NewBlocksLined(st3, 1);
      NewBlocksKeep(st3, 1);
      NewBlocksSound(st3, 1);
      SameKeeps(st4, st5);
      SameLined(st4, st5);
      BrKeeps(st5, n, y, st6);
      BrLined(st5, n, y, st6);
      BrLined(st6, n, y, r.At(y));
      assert r.At(y) == r;
    }
  }

  /** The jumps of every statement enter their edges in this order. */
  lemma {:induction false} StmtLined(st: Build, s: Stmt, r: Build)
    requires WellBuilt(st) && Lined(st) && Becomes(st, s, r)
    ensures Lined(r)
    decreases s, 1
  {
    match s
    case Nothing => SimpleBecomes(st, s, r);
    case Do(e) =>
      SimpleBecomes(st, s, r);
      ExprLined(st, e);
    case If(_, _) => IfLined(st, s, r);
    case IfElse(_, _, _) => IfElseLined(st, s, r);
    case While(_, _) => WhileLined(st, s, r);
    case Compound(_, _) => CompoundLined(st, s, r);
  }

  lemma {:induction false} IfLined(st: Build, s: Stmt, r: Build)
    requires WellBuilt(st) && Lined(st) && s.If? && Becomes(st, s, r)
    ensures Lined(r)
    decreases s, 0
  {
    var t, f := |st.g.blocks|, |st.g.blocks| + 1;
    var cond, st0, st1, st2 := IfBecomes(st, s, r, t, f);
    ForkLined(st, s.cond, cond, st0, st1, t, f);
    ForkKeeps(st, s.cond, cond, st0, st1, t, f);
    StmtLined(st1, s.then_, st2);
    StmtKeeps(st1, s.then_, st2);
    JumpLined(st2, f, f, r);
  }

  lemma {:induction false} WhileLined(st: Build, s: Stmt, r: Build)
    requires WellBuilt(st) && Lined(st) && s.While? && Becomes(st, s, r)
    ensures Lined(r)
    decreases s, 0
  {
    var n, t, f := |st.g.blocks|, |st.g.blocks| + 1, |st.g.blocks| + 2;
    var st0, st1, cond, st2, st3 := WhileBecomes(st, s, r, n, t, f);
    LoopLined(st, s.cond, st0, st1, cond, st2, n, t, f);
    LoopKeeps(st, s.cond, st0, st1, cond, st2, n, t, f);
    StmtLined(st2, s.body, st3);
    StmtKeeps(st2, s.body, st3);
    JumpLined(st3, n, f, r);
  }

  lemma {:induction false} CompoundLined(st: Build, s: Stmt, r: Build)
    requires WellBuilt(st) && Lined(st) && s.Compound? && Becomes(st, s, r)
    ensures Lined(r)
    decreases s, 0
  {
    var st0, st1 := st.(scopes := st.scopes + [map[]]), OpenLocals(st, s.decls);
    var st2 := CompoundBecomes(st, s, r, st1);
    SameKeeps(st, st0);
    SameLined(st, st0);
    LocalsLined(st0, s.decls);
    LocalsKept(st, s.decls, st1);
    StmtsLined(st1, s.stmts, st2);
    SameLined(st2, r);
  }

  lemma {:induction false} IfElseLined(st: Build, s: Stmt, r: Build)
    requires WellBuilt(st) && Lined(st) && s.IfElse? && Becomes(st, s, r)
    ensures Lined(r)
    decreases s, 0
  {
    var t, f := |st.g.blocks|, |st.g.blocks| + 1;
    var cond, st0, st1, st2, st2', st3 := IfElseBecomes(st, s, r, t, f);
    FirstStarts(st, s.cond, cond, st0, st1, t, f);
    ForkLined(st, s.cond, cond, st0, st1, t, f);
    StmtLined(st1, s.then_, st2);
    StmtKeeps(st1, s.then_, st2);
    StmtGrows(st1, s.then_, st2);
    SecondStarts(st1, st2, st2', t, f);
    SameLined(st2, st2');
    StmtLined(st2', s.else_, st3);
    StmtKeeps(st2', s.else_, st3);
    StmtGrows(st2', s.else_, st3);
    ElseGrown(st, st1, st2, st2', st3, t, f);
    EndArmsLined(st3, st2.cur, r);
  }

  lemma {:induction false} StmtsLined(st: Build, stmts: seq<Stmt>, r: Build)
    requires WellBuilt(st) && Lined(st) && BecomesAll(st, stmts, r)
    ensures Lined(r)
    decreases stmts
  {
    var st1 := NextBecomes(st, stmts, r);
    if stmts != [] {
      StmtLined(st, stmts[0], st1);
      StmtKeeps(st, stmts[0], st1);
      StmtsLined(st1, stmts[1..], r);
    }
  }

  // ----- functions -----

  lemma {:induction false} ParamsLined(st: Build, params: seq<string>)
    requires Inv(st) && Lined(st)
    ensures Lined(LowerParams(st, params))
  {
    if params != [] {
      var n := |params| - 1;
      var st1 := LowerParams(st, params[..n]);
      ParamsLined(st, params[..n]);
      ParamsKeep(st, params[..n]);
      PlainLined(st1, Alloca(st1.slots, true), []);
      PlainKeeps(st1, Alloca(st1.slots, true), []);
      var st2, ops := st1.Emit(Alloca(st1.slots, true), []), [Arg(n), Addr(st1.slots)];
      PlainLined(st2, Store, ops);
      SameLined(st2.Emit(Store, ops), LowerParams(st, params));
    }
  }

  /** In the code of every function, the successors of a block are the targets of
      its jumps in order, with the false branch of a test first, and the
      predecessors are the blocks that jump to it, in the order of these jumps. */
  lemma FunctionLined(f: Function)
    ensures var r := LowerFunction(f);
      forall b :: b in r.g.blocks ==>
        && b in r.g.succs && b in r.g.preds && b in r.code.body
        && r.g.succs[b] == Targets(r.code, r.code.body[b]) && r.g.preds[b] == Entries(r.code, r.pos, r.ids, b)
  {
    var r := LowerFunction(f);
    var st0, st := FunctionStates(f, r);
    var s := Compound(f.decls, f.stmts);
    EmptyOk();
    forall b ensures LinedAt(Empty(), b) { }
    ParamsLined(Empty(), f.params);
    BeginKept(f.params, st0);
    StmtLined(st0, s, st);
    StmtKeeps(st0, s, st);
    if !Ended(st) { PlainLined(st, Ret, [Const(0)]); }
    FunctionLowered(f, r);
    forall b | b in r.g.blocks
      ensures b in r.g.succs && b in r.g.preds && b in r.code.body
      ensures r.g.succs[b] == Targets(r.code, r.code.body[b]) && r.g.preds[b] == Entries(r.code, r.pos, r.ids, b)
    {
      assert ThereAt(r, b) && LinedAt(r, b);
    }
  }

  lemma {:induction false} NoTargets(code: Code, ids: seq<Id>)
    requires forall id :: id in ids ==> TargetsOf(code, id) == []
    ensures Targets(code, ids) == []
  {
    if ids != [] {
      NoTargets(code, ids[..|ids| - 1]);
    }
  }

  /** Where nothing is put after a terminator, a block that ends in a test has the
      false branch as its first successor and the true branch as its second. */
  lemma FalseBranchFirst(f: Function, b: Block, v: Value, t: Block, e: Block)
    requires var r := LowerFunction(f);
      && NeatAll(f.stmts, false) && b in r.g.blocks && b in r.code.body && r.code.body[b] != []
      && var id := r.code.body[b][|r.code.body[b]| - 1];
      && r.code.Is(id, Kind.CondBr) && id in r.code.ops && r.code.ops[id] == [v, Label(t), Label(e)]
    ensures b in LowerFunction(f).g.succs && LowerFunction(f).g.succs[b] == [e, t]
  {
    var r := LowerFunction(f);
    var list := r.code.body[b];
    FunctionLined(f);
    FunctionLast(f, r);
    FunctionLowered(f, r);
    forall id | id in list[..|list| - 1] ensures TargetsOf(r.code, id) == [] {
      var k :| 0 <= k < |list| - 1 && list[k] == id;
      assert r.code.PlaceOk(r.pos, b, k) && LastAt(r, id);
    }
    NoTargets(r.code, list[..|list| - 1]);
  }
}
