/** Where an `if` with `else` leaves a function: one block never gets an
    instruction. Every block ends in a terminator exactly if there is no `else`. */
module LoweringElse {
  import opened Graphs
  import opened IR
  import opened Sources
  import opened Lowerings
  import opened LoweringGrowth
  import opened LoweringOk
  import opened LoweringNeat

  /** A block without instructions, which is not under construction: it stays
      so. */
  ghost predicate Orphan(st: Build, lo: nat, b: Block) {
    lo <= b < |st.g.blocks| && b != st.cur && EmptyAt(st, b)
  }

  lemma OrphanStays(st: Build, r: Build, lo: nat, b: Block)
    requires Orphan(st, lo, b) && Grows(st, r, {st.cur}) && (r.cur == st.cur || r.cur >= |st.g.blocks| || r.cur < lo)
    ensures Orphan(r, lo, b)
  {
    assert GrowsAt(st, r, {st.cur}, b);
  }

  // ----- whether the block under construction has a terminator -----

  lemma EmitEnds(st: Build, kind: Kind, ops: seq<Value>)
    ensures Ended(st.Emit(kind, ops)) == Ends(kind)
  {
    assert ListOf(st.Emit(kind, ops).code.body, st.cur) == ListOf(st.code.body, st.cur) + [Instr(st.ids)];
  }

  /** The code of an expression ends in an instruction that is no terminator. */
  lemma ExprEnds(st: Build, e: Expr)
    ensures if e.Num? then LowerExpr(st, e).st == st else !Ended(LowerExpr(st, e).st)
  {
    match e
    case Num(_) =>
    case Var(name) => EmitEnds(st, Load, [Addr(if Declared(st.scopes, name) then Find(st.scopes, name) else 0)]);
    case Binary(op, l, r) =>
      var two := LowerTwo(st, e, l, r);
      EmitEnds(two.st, Exec(op), two.vs);
    case Compare(op, l, r) =>
      var two := LowerTwo(st, e, l, r);
      EmitEnds(two.st.Emit(Exec(op), two.vs), Exec(ZEXT), [two.st.Next()]);
    case Assign(name, v) =>
      var res := LowerExpr(st, v);
      EmitEnds(res.st, Store, [res.v, Addr(if Declared(st.scopes, name) then Find(st.scopes, name) else 0)]);
    case Call(callee, args) =>
      var all := LowerArgs(st, args);
      EmitEnds(all.st, Exec(CALL), [Global(callee)] + all.vs);
  }

  lemma LocalsEnd(st: Build, names: seq<string>)
    ensures Ended(OpenLocals(st, names)) == (Ended(st) && names == [])
  {
    var st0 := st.(scopes := st.scopes + [map[]]);
    assert Ended(st0) == Ended(st);
    if names != [] {
      var st1, r := DeclareLocals(st0, names[..|names| - 1]), OpenLocals(st, names);
      EmitEnds(st1, Alloca(st1.slots, true), []);
      assert Ended(r) == Ended(st1.Emit(Alloca(st1.slots, true), []));
    }
  }

  /** The block in which a statement ends has a terminator exactly if the
      statement closes it. */
  lemma {:induction false} StmtEnds(st: Build, s: Stmt, r: Build)
    requires Sound(st) && Becomes(st, s, r)
    ensures Ended(r) == Closes(s, Ended(st))
    decreases s, 1
  {
    match s
    case Nothing => SimpleBecomes(st, s, r);
    case Do(e) =>
      SimpleBecomes(st, s, r);
      ExprEnds(st, e);
    case If(_, t) => BranchEnds(st, s, r);
    case IfElse(_, _, _) => ArmsEnd(st, s, r);
    case While(_, body) => LoopEnds(st, s, r);
    case Compound(decls, stmts) =>
      var st1 := OpenLocals(st, decls);
      var st2 := CompoundBecomes(st, s, r, st1);
      CompoundStart(st, decls, st1);
      LocalsEnd(st, decls);
      StmtsEnd(st1, stmts, st2);
  }

  /** What follows an `if` is empty where its statement ends. */
  lemma BranchEnds(st: Build, s: Stmt, r: Build)
    requires Sound(st) && s.If? && Becomes(st, s, r)
    ensures !Ended(r)
  {
    var t, f := |st.g.blocks|, |st.g.blocks| + 1;
    var cond, st0, st1, st2 := IfBecomes(st, s, r, t, f);
    ForkGrows(st, s.cond, cond, st0, st1, t, f);
    StmtGrows(st1, s.then_, st2);
    ArmGrown(st, st1, st2, t, f, f, r);
    EmptyNotEnded(r);
  }

  lemma LoopEnds(st: Build, s: Stmt, r: Build)
    requires Sound(st) && s.While? && Becomes(st, s, r)
    ensures !Ended(r)
  {
    var n, t, f := |st.g.blocks|, |st.g.blocks| + 1, |st.g.blocks| + 2;
    var st0, st1, cond, st2, st3 := WhileBecomes(st, s, r, n, t, f);
    LoopGrows(st, s.cond, st0, st1, cond, st2, n, t, f);
    StmtGrows(st2, s.body, st3);
    ArmGrown(st, st2, st3, t, n, f, r);
    EmptyNotEnded(r);
  }

  /** After an `if` with `else` there is always one. */
  lemma ArmsEnd(st: Build, s: Stmt, r: Build)
    requires Sound(st) && s.IfElse? && Becomes(st, s, r)
    ensures Ended(r)
  {
    var cond, st0, st1, st2, st2', st3 := IfElseBecomes(st, s, r, |st.g.blocks|, |st.g.blocks| + 1);
    if !Ended(st3) {
      var n := |st3.g.blocks|;
      EmitEnds(st3.NewBlock().At(st2.cur).Br(n).At(st3.cur).AddEdge(n), Kind.Br, [Label(n)]);
    }
  }

  lemma {:induction false} StmtsEnd(st: Build, stmts: seq<Stmt>, r: Build)
    requires Sound(st) && BecomesAll(st, stmts, r)
    ensures Ended(r) == CloseAll(stmts, Ended(st))
    decreases stmts
  {
    var st1 := NextBecomes(st, stmts, r);
    if stmts != [] {
      StmtGrows(st, stmts[0], st1);
      StmtEnds(st, stmts[0], st1);
      StmtsEnd(st1, stmts[1..], r);
    }
  }

  /** Without `else`, it stays open. */
  lemma PlainStaysOpen(st: Build, s: Stmt, r: Build)
    requires Sound(st) && !Ended(st) && NoElse(s) && Becomes(st, s, r)
    ensures !Ended(r)
  {
    StmtEnds(st, s, r);
    PlainIsNeat(s);
  }

  // ----- with `else`, a block stays empty -----

  lemma {:induction false} ElseLeavesOrphan(st: Build, s: Stmt, r: Build) returns (b: Block)
    requires Sound(st) && !NoElse(s) && Becomes(st, s, r)
    ensures Orphan(r, |st.g.blocks|, b)
    decreases s, 1
  {
    match s
    case If(_, t) => b := BranchLeavesOrphan(st, s, r);
    case IfElse(_, _, _) => b := ArmsLeaveOrphan(st, s, r);
    case While(_, body) => b := LoopLeavesOrphan(st, s, r);
    case Compound(decls, stmts) =>
      var st1 := OpenLocals(st, decls);
      var st2 := CompoundBecomes(st, s, r, st1);
      CompoundStart(st, decls, st1);
      b := SomeLeavesOrphan(st1, stmts, st2);
  }

  lemma {:induction false} BranchLeavesOrphan(st: Build, s: Stmt, r: Build) returns (b: Block)
    requires Sound(st) && s.If? && !NoElse(s) && Becomes(st, s, r)
    ensures Orphan(r, |st.g.blocks|, b)
    decreases s, 0
  {
    var t, f := |st.g.blocks|, |st.g.blocks| + 1;
    var cond, st0, st1, st2 := IfBecomes(st, s, r, t, f);
    ForkGrows(st, s.cond, cond, st0, st1, t, f);
    b := ElseLeavesOrphan(st1, s.then_, st2);
    StmtGrows(st1, s.then_, st2);
    ArmGrown(st, st1, st2, t, f, f, r);
    OrphanStays(st2, r, |st1.g.blocks|, b);
  }

  lemma {:induction false} LoopLeavesOrphan(st: Build, s: Stmt, r: Build) returns (b: Block)
    requires Sound(st) && s.While? && !NoElse(s) && Becomes(st, s, r)
    ensures Orphan(r, |st.g.blocks|, b)
    decreases s, 0
  {
    var n, t, f := |st.g.blocks|, |st.g.blocks| + 1, |st.g.blocks| + 2;
    var st0, st1, cond, st2, st3 := WhileBecomes(st, s, r, n, t, f);
    LoopGrows(st, s.cond, st0, st1, cond, st2, n, t, f);
    b := ElseLeavesOrphan(st2, s.body, st3);
    StmtGrows(st2, s.body, st3);
    ArmGrown(st, st2, st3, t, n, f, r);
    OrphanStays(st3, r, |st2.g.blocks|, b);
  }

  /** The block after the arms stays empty; if there is none, the second arm has
      an `else` itself. */
  lemma {:induction false} ArmsLeaveOrphan(st: Build, s: Stmt, r: Build) returns (b: Block)
    requires Sound(st) && s.IfElse? && Becomes(st, s, r)
    ensures Orphan(r, |st.g.blocks|, b)
    decreases s, 0
  {
    var t, f := |st.g.blocks|, |st.g.blocks| + 1;
    var cond, st0, st1, st2, st2', st3 := IfElseBecomes(st, s, r, t, f);
    ForkGrows(st, s.cond, cond, st0, st1, t, f);
    StmtGrows(st1, s.then_, st2);
    SameSound(st2, st2');
    StmtGrows(st2', s.else_, st3);
    ElseGrown(st, st1, st2, st2', st3, t, f);
    if Ended(st3) {
      if NoElse(s.else_) {
        EmptyNotEnded(st2');
        PlainStaysOpen(st2', s.else_, st3);
      }
      b := ElseLeavesOrphan(st2', s.else_, st3);
    } else {
      b := |st3.g.blocks|;
      EndArmsLeave(st3, st2.cur, r);
    }
  }

  lemma EndArmsLeave(st3: Build, x: Block, r: Build)
    requires Sound(st3) && x < |st3.g.blocks| && x != st3.cur && !Ended(st3) && r == EndArms(st3, x)
    ensures Orphan(r, |st3.g.blocks|, |st3.g.blocks|)
  {
    var n, st4, st5 := |st3.g.blocks|, st3.NewBlock(), st3.NewBlock().At(x);
    ArmsGrow(st3, x, st4, st5, st5.Br(n).At(st3.cur), n, r);
  }

  lemma {:induction false} SomeLeavesOrphan(st: Build, stmts: seq<Stmt>, r: Build) returns (b: Block)
    requires Sound(st) && !NoElses(stmts) && BecomesAll(st, stmts, r)
    ensures Orphan(r, |st.g.blocks|, b)
    decreases stmts
  {
    var st1 := NextBecomes(st, stmts, r);
    StmtGrows(st, stmts[0], st1);
    if !NoElse(stmts[0]) {
      b := ElseLeavesOrphan(st, stmts[0], st1);
      StmtsGrow(st1, stmts[1..], r);
      OrphanStays(st1, r, |st.g.blocks|, b);
    } else {
      b := SomeLeavesOrphan(st1, stmts[1..], r);
    }
  }

  // ----- without `else`, every other block is closed -----

  ghost predicate EndedAt(st: Build, b: Block) {
    var list := ListOf(st.code.body, b);
    list != [] && st.code.IsTerminator(list[|list| - 1])
  }

  /** Of the block where a statement begins and the new ones, all but that where
      it ends have been closed. */
  ghost predicate ClosedAt(st: Build, r: Build, b: Block) {
    (b == st.cur || |st.g.blocks| <= b < |r.g.blocks|) && b != r.cur ==> EndedAt(r, b)
  }

  ghost predicate AllClosed(st: Build, r: Build) {
    forall b: Block {:trigger ClosedAt(st, r, b)} :: ClosedAt(st, r, b)
  }

  lemma EndedStays(st: Build, r: Build, t: set<Block>, b: Block)
    requires Grows(st, r, t) && EndedAt(st, b) && b !in t && b < |st.g.blocks|
    ensures EndedAt(r, b)
  {
    var list := ListOf(st.code.body, b);
    assert GrowsAt(st, r, t, b) && GrowsId(st, r, list[|list| - 1]);
  }

  /** A jump closes the block, a branch does, too. */
  lemma JumpCloses(st: Build, b: Block, next: Block, r: Build)
    requires !Ended(st) && r == Jump(st, b, next)
    ensures EndedAt(r, st.cur)
  {
  }

  lemma TestCloses(st: Build, v: Value, t: Block, f: Block, r: Build)
    requires r == Test(st, v, t, f)
    ensures EndedAt(r, st.cur)
  {
  }

  lemma ForkCloses(st: Build, c: Expr, cond: Lowered, st0: Build, st1: Build, t: Block, f: Block)
    requires ForkOf(st, c, cond, st0, st1, t, f) && st0.cur == st.cur
    ensures EndedAt(st1, st.cur)
  {
    assert OneLevel(0);
    TestCloses(st0, cond.v, t, f, st1);
  }

  lemma LoopCloses(st: Build, c: Expr, st0: Build, st1: Build, cond: Lowered, st2: Build, n: Block, t: Block, f: Block)
    requires Sound(st) && !Ended(st) && LoopOf(st, c, st0, st1, cond, st2, n, t, f)
    ensures EndedAt(st2, st.cur) && EndedAt(st2, n)
  {
    LoopEntered(st, c, st0, st1, cond, st2, n, t, f);
    LoopTested(st, c, st0, st1, cond, st2, n, t, f);
    GrowsTrans(st1, cond.st, st2, {n}, {n});
    assert OneLevel(0) && st1 == st0.Br(n).At(n) && st2 == Test(cond.st, cond.v, t, f);
    JumpCloses(st0, n, n, st1);
    TestCloses(cond.st, cond.v, t, f, st2);
    EndedStays(st1, st2, {n}, st.cur);
  }

  /** An arm, or the body of a loop, with the jump after it. */
  lemma ArmCloses(st: Build, st1: Build, st2: Build, t: Block, b: Block, f: Block, r: Build)
    requires Sound(st) && Sound(st1) && StmtGrown(st1, st2) && !Ended(st2) && AllClosed(st1, st2) && r == Jump(st2, b, f)
    requires st1.cur == t && |st.g.blocks| <= t < |st1.g.blocks| && b < |st1.g.blocks| && f < |st1.g.blocks|
    requires EndedAt(st1, st.cur) && st.cur < |st.g.blocks|
    requires forall x: Block {:trigger EndedAt(st1, x)} :: |st.g.blocks| <= x < |st1.g.blocks| && x != t && x != f ==> EndedAt(st1, x)
    ensures AllClosed(st, r)
  {
    JumpSound(st2, b, f, r);
    JumpCloses(st2, b, f, r);
    forall x: Block ensures ClosedAt(st, r, x) {
      assert ClosedAt(st1, st2, x);
      if (x == st.cur || |st.g.blocks| <= x < |r.g.blocks|) && x != f && x != st2.cur {
        if x < |st1.g.blocks| && x != t {
          assert EndedAt(st1, x);
          EndedStays(st1, st2, {t}, x);
        }
        EndedStays(st2, r, {st2.cur}, x);
      }
    }
  }

  lemma {:induction false} StmtCloses(st: Build, s: Stmt, r: Build)
    requires Sound(st) && !Ended(st) && NoElse(s) && Becomes(st, s, r)
    ensures AllClosed(st, r)
    decreases s, 1
  {
    match s
    case Nothing =>
      SimpleBecomes(st, s, r);
      NoneOpened(st, r);
    case Do(e) =>
      SimpleBecomes(st, s, r);
      ExprGrows(st, e);
      NoneOpened(st, r);
    case If(_, t) =>
      var t, f := |st.g.blocks|, |st.g.blocks| + 1;
      var cond, st0, st1, st2 := IfBecomes(st, s, r, t, f);
      ForkGrows(st, s.cond, cond, st0, st1, t, f);
      ForkCloses(st, s.cond, cond, st0, st1, t, f);
      EmptyNotEnded(st1);
      StmtGrows(st1, s.then_, st2);
      PlainStaysOpen(st1, s.then_, st2);
      StmtCloses(st1, s.then_, st2);
      ArmCloses(st, st1, st2, t, f, f, r);
    case While(_, body) =>
      var n, t, f := |st.g.blocks|, |st.g.blocks| + 1, |st.g.blocks| + 2;
      var st0, st1, cond, st2, st3 := WhileBecomes(st, s, r, n, t, f);
      LoopGrows(st, s.cond, st0, st1, cond, st2, n, t, f);
      LoopCloses(st, s.cond, st0, st1, cond, st2, n, t, f);
      EmptyNotEnded(st2);
      StmtGrows(st2, s.body, st3);
      PlainStaysOpen(st2, s.body, st3);
      StmtCloses(st2, s.body, st3);
      ArmCloses(st, st2, st3, t, n, f, r);
    case Compound(decls, stmts) =>
      var st1 := OpenLocals(st, decls);
      var st2 := CompoundBecomes(st, s, r, st1);
      CompoundStart(st, decls, st1);
      StmtsClose(st1, stmts, st2);
      forall b: Block ensures ClosedAt(st, r, b) { assert ClosedAt(st1, st2, b); }
    case IfElse(_, _, _) => assert false;
  }

  lemma NoneOpened(st: Build, r: Build)
    requires r.cur == st.cur && r.g == st.g
    ensures AllClosed(st, r)
  {
    forall b: Block ensures ClosedAt(st, r, b) { }
  }

  lemma {:induction false} StmtsClose(st: Build, stmts: seq<Stmt>, r: Build)
    requires Sound(st) && !Ended(st) && NoElses(stmts) && BecomesAll(st, stmts, r)
    ensures AllClosed(st, r)
    decreases stmts
  {
    var st1 := NextBecomes(st, stmts, r);
    if stmts == [] {
      NoneOpened(st, r);
    } else {
      StmtGrows(st, stmts[0], st1);
      PlainStaysOpen(st, stmts[0], st1);
      StmtCloses(st, stmts[0], st1);
      StmtsGrow(st1, stmts[1..], r);
      StmtsClose(st1, stmts[1..], r);
      forall b: Block ensures ClosedAt(st, r, b) {
        assert ClosedAt(st, st1, b) && ClosedAt(st1, r, b);
        if (b == st.cur || |st.g.blocks| <= b < |st1.g.blocks|) && b != st1.cur { EndedStays(st1, r, {st1.cur}, b); }
      }
    }
  }

  // ----- functions -----

  /** The block ends in its only terminator. */
  ghost predicate EndsOnce(st: Build, b: Block) {
    EndedAt(st, b) && forall i :: 0 <= i < |ListOf(st.code.body, b)| - 1 ==> !st.code.IsTerminator(ListOf(st.code.body, b)[i])
  }

  ghost predicate EveryBlockEndsOnce(st: Build) {
    forall b: Block {:trigger EndsOnce(st, b)} :: b < |st.g.blocks| ==> EndsOnce(st, b)
  }

  lemma EndedEndsOnce(st: Build, b: Block)
    requires Inv(st) && TerminatorsLast(st) && EndedAt(st, b)
    ensures EndsOnce(st, b)
  {
    var list := ListOf(st.code.body, b);
    forall i | 0 <= i < |list| - 1 ensures !st.code.IsTerminator(list[i]) {
      assert st.code.PlaceOk(st.pos, b, i) && LastAt(st, list[i]);
    }
  }

  lemma PlainEndsOnce(f: Function, r: Build)
    requires NoElses(f.stmts) && r == LowerFunction(f)
    ensures EveryBlockEndsOnce(r)
  {
    var st0, st := FunctionStates(f, r);
    var s := Compound(f.decls, f.stmts);
    assert NoElse(s);
    PlainStaysOpen(st0, s, st);
    StmtCloses(st0, s, st);
    FunctionLowered(f, r);
    FunctionLast(f, r);
    PlainAreNeat(f.stmts);
    forall b: Block | b < |r.g.blocks| ensures EndsOnce(r, b) {
      assert ClosedAt(st0, st, b);
      if b != st.cur { EndedStays(st, r, {st.cur}, b); }
      EndedEndsOnce(r, b);
    }
  }

  /** Every block of a lowered function ends in its only terminator exactly if the
      function has no `else`. */
  lemma EndsOnceIffNoElse(f: Function)
    ensures EveryBlockEndsOnce(LowerFunction(f)) <==> NoElses(f.stmts)
  {
    var r := LowerFunction(f);
    if NoElses(f.stmts) {
      PlainEndsOnce(f, r);
    } else {
      var st0, st := FunctionStates(f, r);
      var s := Compound(f.decls, f.stmts);
      assert !NoElse(s);
      var b := ElseLeavesOrphan(st0, s, st);
      OrphanStays(st, r, 0, b);
      assert !EndsOnce(r, b);
    }
  }
}
