/** When the lowered code is in memory form: exactly if no instruction is put
    after a terminator, which can be read off the statements. */
module LoweringNeat {
  import opened Graphs
  import opened IR
  import opened RenameSetup
  import opened Sources
  import opened Lowerings
  import opened LoweringGrowth
  import opened LoweringOk

  // ----- one step -----

  /** Nothing new comes after a terminator, and nothing else changes. */
  ghost predicate Quiet(st: Build, st': Build) {
    (TerminatorsLast(st') <==> TerminatorsLast(st)) && Ended(st') == Ended(st)
  }

  /** Instructions have been added to the block, the last not a terminator. */
  ghost predicate Adds(st: Build, st': Build) {
    (TerminatorsLast(st') <==> TerminatorsLast(st) && !Ended(st)) && !Ended(st')
  }

  lemma SameLast(st: Build, st': Build)
    requires st'.pos == st.pos && st'.code.kind == st.code.kind
    requires Sound(st) && Sound(st') && forall b: Block {:trigger ListOf(st'.code.body, b)} :: ListOf(st'.code.body, b) == ListOf(st.code.body, b)
    requires forall id {:trigger InstrAt(st, id)} :: InstrAt(st, id)
    ensures TerminatorsLast(st') <==> TerminatorsLast(st)
  {
    forall id ensures LastAt(st', id) <==> LastAt(st, id) {
      assert InstrAt(st, id) && IdAt(st, id);
      if id in st.pos {
        var b := st.pos[id].bb;
        assert ThereAt(st, b) && ThereAt(st', b) && ListOf(st'.code.body, b) == ListOf(st.code.body, b);
      }
    }
    if TerminatorsLast(st) { forall id ensures LastAt(st', id) { assert LastAt(st, id); } }
    if TerminatorsLast(st') { forall id ensures LastAt(st, id) { assert LastAt(st', id); } }
  }

  /** An instruction may be added exactly where there is no terminator. */
  lemma EmitLast(st: Build, kind: Kind, ops: seq<Value>, r: Build)
    requires Inv(st) && r == st.Emit(kind, ops)
    ensures TerminatorsLast(r) <==> TerminatorsLast(st) && !Ended(st)
    ensures Ended(r) == Ends(kind)
  {
    FreshId(st);
    assert ThereAt(st, st.cur);
    if TerminatorsLast(st) && !Ended(st) {
      forall id ensures LastAt(r, id) {
        assert LastAt(st, id) && InstrAt(st, id) && IdAt(st, id);
      }
    }
    if Ended(st) {
      var list := ListOf(st.code.body, st.cur);
      var id := list[|list| - 1];
      assert st.code.PlaceOk(st.pos, st.cur, |list| - 1);
      assert !LastAt(r, id);
    }
    if id :| !LastAt(st, id) {
      assert InstrAt(st, id) && IdAt(st, id);
      assert !LastAt(r, id);
    }
  }

  lemma PlainAdds(a: Build, st: Build, kind: Kind, ops: seq<Value>)
    requires Inv(st) && !Ends(kind) && (Quiet(a, st) || Adds(a, st))
    ensures Adds(a, st.Emit(kind, ops))
  {
    EmitLast(st, kind, ops, st.Emit(kind, ops));
  }

  // ----- expressions -----

  ghost predicate ExprDoes(st: Build, st': Build, silent: bool) {
    if silent then Quiet(st, st') else Adds(st, st')
  }

  lemma {:induction false} ExprLast(st: Build, e: Expr)
    requires Inv(st)
    ensures ExprDoes(st, LowerExpr(st, e).st, e.Num?)
    decreases e, 1
  {
    match e
    case Num(n) =>
    case Var(name) => PlainAdds(st, st, Load, [Addr(if Declared(st.scopes, name) then Find(st.scopes, name) else 0)]);
    case Binary(op, l, r) => OperationAdds(st, e, l, r, op);
    case Compare(op, l, r) =>
      OperationAdds(st, e, l, r, op);
      OperationKeeps(st, e, l, r, op);
      var two := LowerTwo(st, e, l, r);
      PlainAdds(st, two.st.Emit(Exec(op), two.vs), Exec(ZEXT), [two.st.Next()]);
    case Assign(name, v) =>
      ExprLast(st, v);
      ExprKeeps(st, v);
      var res := LowerExpr(st, v);
      PlainAdds(st, res.st, Store, [res.v, Addr(if Declared(st.scopes, name) then Find(st.scopes, name) else 0)]);
    case Call(callee, args) =>
      ArgsLast(st, args);
      ArgsKeep(st, args);
      var all := LowerArgs(st, args);
      PlainAdds(st, all.st, Exec(CALL), [Global(callee)] + all.vs);
  }

  lemma {:induction false} OperationAdds(st: Build, e: Expr, l: Expr, r: Expr, op: Op)
    requires Inv(st) && l < e && r < e
    ensures var two := LowerTwo(st, e, l, r); Adds(st, two.st.Emit(Exec(op), two.vs))
    decreases e, 0
  {
    var lres, two := LowerExpr(st, l), LowerTwo(st, e, l, r);
    ExprKeeps(st, l);
    ExprLast(st, l);
    ExprLast(lres.st, r);
    TwoKeep(st, e, l, r);
    PlainAdds(st, two.st, Exec(op), two.vs);
  }

  lemma {:induction false} ArgsLast(st: Build, es: seq<Expr>)
    requires Inv(st)
    ensures Quiet(st, LowerArgs(st, es).st) || Adds(st, LowerArgs(st, es).st)
    decreases es
  {
    if es != [] {
      ArgsLast(st, es[..|es| - 1]);
      ArgsKeep(st, es[..|es| - 1]);
      ExprLast(LowerArgs(st, es[..|es| - 1]).st, es[|es| - 1]);
    }
  }

  lemma CondAdds(st: Build, c: Expr, cond: Lowered)
    requires Inv(st) && cond == LowerCond(st, c)
    ensures Adds(st, cond.st)
  {
    ExprLast(st, c);
    ExprKeeps(st, c);
    var res := LowerExpr(st, c);
    PlainAdds(st, res.st, Exec(GT), [res.v, Const(0)]);
  }

  // ----- blocks and jumps -----

  lemma {:induction false} NewBlocksQuiet(st: Build, k: nat)
    requires Inv(st)
    ensures Quiet(st, NewBlocks(st, k)) && NewBlocks(st, k).pos == st.pos
  {
    if k > 0 {
      var st1, r := NewBlocks(st, k - 1), NewBlocks(st, k);
      NewBlocksQuiet(st, k - 1);
      NewBlocksKeep(st, k - 1);
      NewBlocksSound(st, k);
      forall b: Block ensures ListOf(r.code.body, b) == ListOf(st1.code.body, b) { assert ThereAt(st1, b); }
      SameLast(st1, r);
    }
  }

  /** Going on in a block without a terminator. */
  lemma GoesLast(st: Build, r: Build)
    requires Inv(st) && Sound(r) && r.code == st.code && r.pos == st.pos
    ensures TerminatorsLast(r) <==> TerminatorsLast(st)
  {
    SameLast(st, r);
  }

  lemma BrLast(st: Build, b: Block, next: Block, r: Build)
    requires Inv(st) && 0 < b < |st.g.blocks| && next < |st.g.blocks| && r == st.Br(b).At(next)
    ensures TerminatorsLast(r) <==> TerminatorsLast(st) && !Ended(st)
  {
    EdgeKeeps(st, b);
    BrKeeps(st, b, st.cur, st.Br(b).At(st.cur));
    BrSound(st, b, next, r);
    EmitLast(st.AddEdge(b), Kind.Br, [Label(b)], st.Br(b));
    GoesLast(st, st.AddEdge(b));
    assert st.Br(b).At(st.cur) == st.Br(b);
    GoesLast(st.Br(b), r);
  }

  lemma JumpLast(st: Build, b: Block, next: Block, r: Build)
    requires Inv(st) && 0 < b < |st.g.blocks| && next < |st.g.blocks| && r == Jump(st, b, next)
    ensures TerminatorsLast(r) <==> TerminatorsLast(st)
  {
    if Ended(st) {
      SameSound(st, r);
      GoesLast(st, r);
    } else {
      BrLast(st, b, next, r);
    }
  }

  lemma TestLast(st: Build, v: Value, t: Block, f: Block, r: Build)
    requires Inv(st) && ValueHere(st, v) && r == Test(st, v, t, f)
    requires 0 < t < |st.g.blocks| && 0 < f < |st.g.blocks|
    ensures TerminatorsLast(r) <==> TerminatorsLast(st) && !Ended(st)
  {
    var st1, ops := st.AddEdge(f), [v, Label(t), Label(f)];
    var st2 := st1.AddEdge(t);
    EdgeKeeps(st, f);
    EdgeKeeps(st1, t);
    GoesLast(st, st1);
    GoesLast(st1, st2);
    EmitLast(st2, Kind.CondBr, ops, st2.Emit(Kind.CondBr, ops));
    TestKeeps(st, v, t, f, r);
    SameSound(r, r.At(st.cur));
    GoesLast(r, r.At(st.cur));
    assert r.At(st.cur) == st2.Emit(Kind.CondBr, ops);
  }

  // ----- statements -----

  /** What a statement comes to: its terminators come last exactly if it is neat. */
  ghost predicate StmtDoes(st: Build, r: Build, neat: bool, closes: bool) {
    (TerminatorsLast(r) <==> TerminatorsLast(st) && neat) && Ended(r) == closes
  }

  lemma EmptyNotEnded(st: Build)
    requires EmptyAt(st, st.cur)
    ensures !Ended(st)
  {
  }

  /** The branch of an `if`. */
  lemma ForkLast(st: Build, c: Expr, cond: Lowered, st0: Build, st1: Build, t: Block, f: Block)
    requires WellBuilt(st) && ForkOf(st, c, cond, st0, st1, t, f)
    ensures TerminatorsLast(st1) <==> TerminatorsLast(st) && !Ended(st)
  {
    ForkGrows(st, c, cond, st0, st1, t, f);
    assert OneLevel(0) && st0 == NewBlocks(cond.st, 2) && st1 == Test(st0, cond.v, t, f);
    CondAdds(st, c, cond);
    CondKeeps(st, c, cond);
    NewBlocksQuiet(cond.st, 2);
    NewBlocksKeep(cond.st, 2);
    NewBlocksSound(cond.st, 2);
    WidenGrows(cond.st, st0, {cond.st.cur});
    ValueLater(cond.st, st0, cond.v);
    TestLast(st0, cond.v, t, f, st1);
  }

  /** The jump into a loop. */
  lemma EnterLast(st: Build, c: Expr, st0: Build, st1: Build, cond: Lowered, st2: Build, n: Block, t: Block, f: Block)
    requires Inv(st) && LoopOf(st, c, st0, st1, cond, st2, n, t, f)
    ensures Inv(st1) && (TerminatorsLast(st1) <==> TerminatorsLast(st) && !Ended(st))
  {
    LoopEntered(st, c, st0, st1, cond, st2, n, t, f);
    assert OneLevel(0) && st0 == NewBlocks(st, 3) && st1 == st0.Br(n).At(n);
    NewBlocksQuiet(st, 3);
    NewBlocksKeep(st, 3);
    NewBlocksSound(st, 3);
    BrLast(st0, n, n, st1);
    BrKeeps(st0, n, n, st1);
  }

  /** The condition of a loop. */
  lemma LoopTestLast(st: Build, c: Expr, st0: Build, st1: Build, cond: Lowered, st2: Build, n: Block, t: Block, f: Block)
    requires LoopOf(st, c, st0, st1, cond, st2, n, t, f) && Inv(st1) && st1.cur == n && EmptyAt(st1, n) && |st1.g.blocks| == f + 1
    ensures TerminatorsLast(st2) <==> TerminatorsLast(st1)
  {
    assert OneLevel(0) && st2 == Test(cond.st, cond.v, t, f);
    CondGrows(st1, c, cond);
    EmptyNotEnded(st1);
    CondAdds(st1, c, cond);
    CondKeeps(st1, c, cond);
    TestLast(cond.st, cond.v, t, f, st2);
  }

  /** Both arms get a jump, unless the second has one. */
  lemma EndArmsLast(st3: Build, x: Block, r: Build, closes: bool)
    requires WellBuilt(st3) && x < |st3.g.blocks| && x != st3.cur && r == EndArms(st3, x) && closes == Ended(st3.At(x))
    ensures StmtDoes(st3, r, closes ==> Ended(st3), true)
  {
    if !Ended(st3) {
      var n, y, st4 := |st3.g.blocks|, st3.cur, st3.NewBlock();
      var st5 := st4.At(x);
      var st6 := st5.Br(n).At(y);
      ArmsGrow(st3, x, st4, st5, st6, n, r);
      JoinInv(st3, x, st4, st5, st6, n, r);
      JoinLast(st3, x, st4, st5, st6, n, r, closes);
    }
  }

  lemma JoinLast(st3: Build, x: Block, st4: Build, st5: Build, st6: Build, n: Block, r: Build, closes: bool)
    requires Inv(st3) && x < n && x != st3.cur && ArmsOf(st3, x, st4, st5, st6, n) && r == st6.Br(n) && !Ended(st3)
    requires closes == Ended(st3.At(x)) && Sound(st6) && ListOf(st6.code.body, st3.cur) == ListOf(st3.code.body, st3.cur)
    ensures StmtDoes(st3, r, !closes, true)
  {
    var y := st3.cur;
    assert NewBlocks(st3, 0) == st3 && NewBlocks(st3, 1) == st4;
    NewBlocksQuiet(st3, 1);
    NewBlocksKeep(st3, 1);
    NewBlocksSound(st3, 1);
    SameKeeps(st4, st5);
    GoesLast(st4, st5);
    EndedElsewhere(st3, st5, x, closes);
    assert ThereAt(st3, 0) && n > 0;
    BrKeeps(st5, n, y, st6);
    BrLast(st5, n, y, st6);
    JoinGrows(st3, x, st4, st5, st6, n);
    StillOpen(st3, st6, {x});
    BrLast(st6, n, y, r.At(y));
    EdgeKeeps(st6, n);
    EmitLast(st6.AddEdge(n), Kind.Br, [Label(n)], r);
    assert r.At(y) == r;
  }

  lemma JoinGrows(st3: Build, x: Block, st4: Build, st5: Build, st6: Build, n: Block)
    requires Sound(st3) && x < n && ArmsOf(st3, x, st4, st5, st6, n) && Sound(st4) && Grows(st3, st4, {}) && |st4.g.blocks| == n + 1
    ensures Grows(st3, st6, {x})
  {
    SameSound(st4, st5);
    BrSound(st5, n, st3.cur, st6);
    WidenGrows(st3, st4, {x});
    GrowsTrans(st3, st4, st5, {x}, {});
    GrowsTrans(st3, st5, st6, {x}, {x});
  }

  lemma EndedElsewhere(st3: Build, st5: Build, x: Block, closes: bool)
    requires x < |st3.g.blocks| && st5 == st3.NewBlock().At(x) && closes == Ended(st3.At(x))
    ensures Ended(st5) == closes
  {
  }

  /** A block stays open while instructions are added to others. */
  lemma StillOpen(st: Build, st': Build, t: set<Block>)
    requires Inv(st) && !Ended(st) && st'.cur == st.cur && ListOf(st'.code.body, st.cur) == ListOf(st.code.body, st.cur)
    requires Grows(st, st', t)
    ensures !Ended(st')
  {
    var list := ListOf(st.code.body, st.cur);
    if list != [] {
      var id := list[|list| - 1];
      assert st.code.PlaceOk(st.pos, st.cur, |list| - 1) && IdAt(st, id) && GrowsId(st, st', id);
    }
  }

  /** A statement leaves the code tidy exactly if it is neat where it begins. */
  lemma {:induction false} StmtLast(st: Build, s: Stmt, r: Build)
    requires WellBuilt(st) && Becomes(st, s, r)
    ensures StmtDoes(st, r, Neat(s, Ended(st)), Closes(s, Ended(st)))
    decreases s, 1
  {
    match s
    case Nothing => SimpleBecomes(st, s, r);
    case Do(e) =>
      SimpleBecomes(st, s, r);
      ExprLast(st, e);
    case If(_, _) => IfLast(st, s, r);
    case IfElse(_, _, _) => IfElseLast(st, s, r);
    case While(_, _) => WhileLast(st, s, r);
    case Compound(decls, stmts) =>
      var st1 := OpenLocals(st, decls);
      var st2 := CompoundBecomes(st, s, r, st1);
      LocalsKept(st, decls, st1);
      DeclsLast(st, decls, st1);
      StmtsLast(st1, stmts, st2);
      StmtsKeep(st1, stmts, st2);
      SameSound(st2, r);
      GoesLast(st2, r);
  }

  lemma {:induction false} IfLast(st: Build, s: Stmt, r: Build)
    requires WellBuilt(st) && s.If? && Becomes(st, s, r)
    ensures StmtDoes(st, r, Neat(s, Ended(st)), false)
    decreases s, 0
  {
    var t, f := |st.g.blocks|, |st.g.blocks| + 1;
    var cond, st0, st1, st2 := IfBecomes(st, s, r, t, f);
    ForkGrows(st, s.cond, cond, st0, st1, t, f);
    ForkKeeps(st, s.cond, cond, st0, st1, t, f);
    ForkLast(st, s.cond, cond, st0, st1, t, f);
    EmptyNotEnded(st1);
    StmtLast(st1, s.then_, st2);
    StmtKeeps(st1, s.then_, st2);
    StmtGrows(st1, s.then_, st2);
    JumpLast(st2, f, f, r);
    ArmGrown(st, st1, st2, t, f, f, r);
    EmptyNotEnded(r);
  }

  lemma {:induction false} WhileLast(st: Build, s: Stmt, r: Build)
    requires WellBuilt(st) && s.While? && Becomes(st, s, r)
    ensures StmtDoes(st, r, Neat(s, Ended(st)), false)
    decreases s, 0
  {
    var n, t, f := |st.g.blocks|, |st.g.blocks| + 1, |st.g.blocks| + 2;
    var st0, st1, cond, st2, st3 := WhileBecomes(st, s, r, n, t, f);
    LoopGrows(st, s.cond, st0, st1, cond, st2, n, t, f);
    LoopEntered(st, s.cond, st0, st1, cond, st2, n, t, f);
    LoopKeeps(st, s.cond, st0, st1, cond, st2, n, t, f);
    EnterLast(st, s.cond, st0, st1, cond, st2, n, t, f);
    LoopTestLast(st, s.cond, st0, st1, cond, st2, n, t, f);
    EmptyNotEnded(st2);
    StmtLast(st2, s.body, st3);
    StmtKeeps(st2, s.body, st3);
    StmtGrows(st2, s.body, st3);
    assert ThereAt(st, st.cur);
    JumpLast(st3, n, f, r);
    ArmGrown(st, st2, st3, t, n, f, r);
    EmptyNotEnded(r);
  }

  lemma {:induction false} IfElseLast(st: Build, s: Stmt, r: Build)
    requires WellBuilt(st) && s.IfElse? && Becomes(st, s, r)
    ensures StmtDoes(st, r, Neat(s, Ended(st)), true)
    decreases s, 0
  {
    var t, f := |st.g.blocks|, |st.g.blocks| + 1;
    var cond, st0, st1, st2, st2', st3 := IfElseBecomes(st, s, r, t, f);
    FirstStarts(st, s.cond, cond, st0, st1, t, f);
    StmtLast(st1, s.then_, st2);
    StmtKeeps(st1, s.then_, st2);
    StmtGrows(st1, s.then_, st2);
    SecondStarts(st1, st2, st2', t, f);
    StmtLast(st2', s.else_, st3);
    StmtKeeps(st2', s.else_, st3);
    StmtGrows(st2', s.else_, st3);
    BothEnd(st, st1, st2, st2', st3, t, f, r);
    ArmsAreNeat(st, s, st1, st2, st2', st3, r);
  }

  /** The parts of an `if` with `else` come to the whole. */
  lemma ArmsAreNeat(st: Build, s: Stmt, st1: Build, st2: Build, st2': Build, st3: Build, r: Build)
    requires s.IfElse? && (TerminatorsLast(st1) <==> TerminatorsLast(st) && !Ended(st)) && !Ended(st1)
    requires StmtDoes(st1, st2, Neat(s.then_, Ended(st1)), Closes(s.then_, Ended(st1)))
    requires (TerminatorsLast(st2') <==> TerminatorsLast(st2)) && !Ended(st2')
    requires StmtDoes(st2', st3, Neat(s.else_, Ended(st2')), Closes(s.else_, Ended(st2')))
    requires StmtDoes(st3, r, Ended(st2) ==> Ended(st3), true)
    ensures StmtDoes(st, r, Neat(s, Ended(st)), true)
  {
  }

  lemma FirstStarts(st: Build, c: Expr, cond: Lowered, st0: Build, st1: Build, t: Block, f: Block)
    requires WellBuilt(st) && ForkOf(st, c, cond, st0, st1, t, f)
    ensures WellBuilt(st1) && !Ended(st1) && (TerminatorsLast(st1) <==> TerminatorsLast(st) && !Ended(st))
    ensures Grows(st, st1, {st.cur}) && st1.cur == t && |st1.g.blocks| == f + 1 && st1.scopes == st.scopes && EmptyAt(st1, f)
  {
    ForkGrows(st, c, cond, st0, st1, t, f);
    ForkKeeps(st, c, cond, st0, st1, t, f);
    ForkLast(st, c, cond, st0, st1, t, f);
    EmptyNotEnded(st1);
  }

  lemma SecondStarts(st1: Build, st2: Build, st2': Build, t: Block, f: Block)
    requires WellBuilt(st2) && StmtGrown(st1, st2) && st2' == GoTo(st2, f) && st1.cur == t && t < f < |st1.g.blocks| && EmptyAt(st1, f)
    ensures WellBuilt(st2') && Grows(st2, st2', {}) && !Ended(st2') && (TerminatorsLast(st2') <==> TerminatorsLast(st2))
  {
    SameKeeps(st2, st2');
    SameSound(st2, st2');
    OldReached(st2, st2', {});
    GoesLast(st2, st2');
    assert GrowsAt(st1, st2, {t}, f);
    EmptyNotEnded(st2');
  }

  lemma BothEnd(st: Build, st1: Build, st2: Build, st2': Build, st3: Build, t: Block, f: Block, r: Build)
    requires Grows(st, st1, {st.cur}) && st1.cur == t && |st.g.blocks| <= t < f && |st1.g.blocks| == f + 1 && st1.scopes == st.scopes
    requires EmptyAt(st1, f) && StmtGrown(st1, st2) && st2' == GoTo(st2, f) && Grows(st2, st2', {}) && StmtGrown(st2', st3)
    requires Inv(st2) && WellBuilt(st3) && r == EndArms(st3, st2.cur)
    ensures StmtDoes(st3, r, Ended(st2) ==> Ended(st3), true)
  {
    ElseGrown(st, st1, st2, st2', st3, t, f);
    FirstStays(st2, st3, f);
    EndArmsLast(st3, st2.cur, r, Ended(st2));
  }

  /** Where the first arm ends, the second changes nothing. */
  lemma FirstStays(st2: Build, st3: Build, f: Block)
    requires Inv(st2) && Grows(st2, st3, {f}) && st2.cur != f && ListOf(st3.code.body, st2.cur) == ListOf(st2.code.body, st2.cur)
    ensures Ended(st3.At(st2.cur)) == Ended(st2)
  {
    var list := ListOf(st2.code.body, st2.cur);
    if list != [] {
      var id := list[|list| - 1];
      assert st2.code.PlaceOk(st2.pos, st2.cur, |list| - 1) && IdAt(st2, id) && GrowsId(st2, st3, id);
    }
  }

  lemma {:induction false} LocalsLast(st: Build, names: seq<string>)
    requires Inv(st)
    ensures ExprDoes(st, DeclareLocals(st, names), names == [])
  {
    if names != [] {
      var n := |names| - 1;
      var st1, r := DeclareLocals(st, names[..n]), DeclareLocals(st, names);
      LocalsLast(st, names[..n]);
      LocalsKeep(st, names[..n]);
      LocalsKeep(st, names);
      var st2 := st1.Emit(Alloca(st1.slots, true), []);
      PlainAdds(st, st1, Alloca(st1.slots, true), []);
      EmitKeeps(st1, Alloca(st1.slots, true), []);
      GoesLast(st2, r);
    }
  }

  lemma DeclsLast(st: Build, decls: seq<string>, st1: Build)
    requires Inv(st) && st1 == OpenLocals(st, decls)
    ensures ExprDoes(st, st1, decls == [])
  {
    var st0 := st.(scopes := st.scopes + [map[]]);
    SameKeeps(st, st0);
    GoesLast(st, st0);
    LocalsLast(st0, decls);
  }

  lemma {:induction false} StmtsLast(st: Build, stmts: seq<Stmt>, r: Build)
    requires WellBuilt(st) && BecomesAll(st, stmts, r)
    ensures StmtDoes(st, r, NeatAll(stmts, Ended(st)), CloseAll(stmts, Ended(st)))
    decreases stmts
  {
    var st1 := NextBecomes(st, stmts, r);
    if stmts != [] {
      StmtLast(st, stmts[0], st1);
      StmtKeeps(st, stmts[0], st1);
      StmtsLast(st1, stmts[1..], r);
    }
  }

  // ----- functions -----

  lemma {:induction false} ParamsLast(st: Build, params: seq<string>)
    requires Inv(st) && TerminatorsLast(st) && !Ended(st)
    ensures TerminatorsLast(LowerParams(st, params)) && !Ended(LowerParams(st, params))
  {
    if params != [] {
      var n := |params| - 1;
      var st1, r := LowerParams(st, params[..n]), LowerParams(st, params);
      ParamsLast(st, params[..n]);
      ParamsKeep(st, params[..n]);
      ParamsKeep(st, params);
      PlainKeeps(st1, Alloca(st1.slots, true), []);
      PlainAdds(st1, st1, Alloca(st1.slots, true), []);
      var st2, ops := st1.Emit(Alloca(st1.slots, true), []), [Arg(n), Addr(st1.slots)];
      PlainKeeps(st2, Store, ops);
      PlainAdds(st2, st2, Store, ops);
      GoesLast(st2.Emit(Store, ops), r);
    }
  }

  lemma FunctionLast(f: Function, r: Build)
    requires r == LowerFunction(f)
    ensures TerminatorsLast(r) <==> NeatAll(f.stmts, false)
  {
    var st0, st := FunctionStates(f, r);
    var s := Compound(f.decls, f.stmts);
    EmptyOk();
    EmptySound();
    assert TerminatorsLast(Empty());
    ParamsLast(Empty(), f.params);
    BeginKept(f.params, st0);
    StmtLast(st0, s, st);
    StmtKeeps(st0, s, st);
    if !Ended(st) { EmitLast(st, Ret, [Const(0)], r); }
  }

  /** The later passes find a function in the form they ask for exactly if it is
      neat: if nothing is put after a terminator. What they ask of the graph and
      of the use lists holds for every function. */
  lemma MemoryFormIffNeat(f: Function)
    ensures var st := LowerFunction(f);
      && GraphOk(st.g) && st.g.entry == 0 && LoadUsesAllExact(st.code, st.uses)
      && (IsMemoryForm(st.g, st.code, st.pos) <==> NeatAll(f.stmts, false))
  {
    var st := LowerFunction(f);
    FunctionLowered(f, st);
    LoweredGraphOk(f);
    MemoryFormIffLast(st);
    FunctionLast(f, st);
  }

  /** Functions without `else` are ... */
  lemma PlainIsMemoryForm(f: Function)
    requires NoElses(f.stmts)
    ensures var st := LowerFunction(f); GraphOk(st.g) && IsMemoryForm(st.g, st.code, st.pos)
  {
    PlainAreNeat(f.stmts);
    MemoryFormIffNeat(f);
  }

  /** ... and so is this one, where nothing follows the `if` with `else` ... */
  lemma LostIsMemoryForm()
    ensures var st := LowerFunction(Lost());
      !NoElses(Lost().stmts) && GraphOk(st.g) && IsMemoryForm(st.g, st.code, st.pos) && LoadUsesAllExact(st.code, st.uses)
  {
    assert Lost().stmts[1..] == [];
    MemoryFormIffNeat(Lost());
  }

  /** ... but not this one, where something does. */
  lemma UntidyIsNotMemoryForm()
    ensures var st := LowerFunction(Untidy()); !IsMemoryForm(st.g, st.code, st.pos)
  {
    assert Untidy().stmts[1..][0] == Untidy().stmts[1];
    MemoryFormIffNeat(Untidy());
  }
}
