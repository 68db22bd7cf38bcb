/** What lowering leaves as it is: the blocks and instructions there were, but
    for what is added to the block under construction. This holds of every
    statement, well lowered or not. */
module LoweringGrowth {
  import opened Graphs
  import opened IR
  import opened Sources
  import opened Lowerings

  /** Blocks are numbered as they are created. */
  ghost predicate ThereAt(st: Build, b: Block) {
    && (b in st.g.blocks <==> b < |st.g.blocks|) && (b in st.code.body <==> b < |st.g.blocks|)
    && (b in st.g.succs <==> b < |st.g.blocks|) && (b in st.g.preds <==> b < |st.g.blocks|)
  }

  ghost predicate AllThere(st: Build) {
    (forall b {:trigger ThereAt(st, b)} :: ThereAt(st, b)) && st.cur < |st.g.blocks|
  }

  lemma NewBlockThere(st: Build)
    requires AllThere(st)
    ensures AllThere(st.NewBlock())
  {
    var r := st.NewBlock();
    forall b ensures ThereAt(r, b) {
      assert ThereAt(st, b);
    }
  }

  /** The same blocks: nothing but the contents and the edges have changed. */
  lemma SameBlocksThere(st: Build, r: Build)
    requires AllThere(st) && r.g.blocks == st.g.blocks && r.cur < |st.g.blocks|
    requires r.code.body.Keys == st.code.body.Keys && r.g.succs.Keys == st.g.succs.Keys && r.g.preds.Keys == st.g.preds.Keys
    ensures AllThere(r)
  {
    forall b ensures ThereAt(r, b) {
      assert ThereAt(st, b);
    }
  }

  // ----- growth -----

  ghost predicate GrowsAt(st: Build, st': Build, touched: set<Block>, b: Block) {
    b < |st.g.blocks| ==>
      && ListOf(st.code.body, b) <= ListOf(st'.code.body, b)
      && (b !in touched ==>
            ListOf(st'.code.body, b) == ListOf(st.code.body, b) && ListOf(st'.g.succs, b) == ListOf(st.g.succs, b))
  }

  ghost predicate GrowsId(st: Build, st': Build, id: Id) {
    && (id in st.code.kind ==> id in st'.code.kind && st'.code.kind[id] == st.code.kind[id])
    && (id in st.code.ops ==> id in st'.code.ops && st'.code.ops[id] == st.code.ops[id])
    && (id in st.pos ==> id in st'.pos && st'.pos[id] == st.pos[id])
  }

  ghost predicate EdgeKept(g: Cfg, g': Cfg, p: Block, b: Block) {
    g.Edge(p, b) ==> g'.Edge(p, b)
  }

  /** `st'` comes later: of the old blocks only the `touched` ones have been
      added to. */
  ghost predicate Grows(st: Build, st': Build, touched: set<Block>) {
    && |st.g.blocks| <= |st'.g.blocks| && st.ids <= st'.ids && st.slots <= st'.slots && st.g.entry == st'.g.entry
    && (forall b {:trigger GrowsAt(st, st', touched, b)} :: GrowsAt(st, st', touched, b))
    && (forall id {:trigger GrowsId(st, st', id)} :: GrowsId(st, st', id))
    && (forall p, b {:trigger EdgeKept(st.g, st'.g, p, b)} :: EdgeKept(st.g, st'.g, p, b))
  }

  lemma GrowsTrans(a: Build, b: Build, c: Build, t: set<Block>, u: set<Block>)
    requires Grows(a, b, t) && Grows(b, c, u)
    requires forall x :: x in u ==> x in t || x >= |a.g.blocks|
    ensures Grows(a, c, t)
  {
    forall x ensures GrowsAt(a, c, t, x) {
      assert GrowsAt(a, b, t, x) && GrowsAt(b, c, u, x);
    }
    forall id ensures GrowsId(a, c, id) {
      assert GrowsId(a, b, id) && GrowsId(b, c, id);
    }
    forall p, x ensures EdgeKept(a.g, c.g, p, x) {
      assert EdgeKept(a.g, b.g, p, x) && EdgeKept(b.g, c.g, p, x);
    }
  }

  lemma WidenGrows(st: Build, st': Build, t: set<Block>)
    requires Grows(st, st', {})
    ensures Grows(st, st', t)
  {
    forall b ensures GrowsAt(st, st', t, b) { assert GrowsAt(st, st', {}, b); }
  }

  lemma MoreGrows(st: Build, st': Build, s: set<Block>, t: set<Block>)
    requires Grows(st, st', s) && s <= t
    ensures Grows(st, st', t)
  {
    forall b ensures GrowsAt(st, st', t, b) { assert GrowsAt(st, st', s, b); }
  }

  lemma EmitThere(st: Build, kind: Kind, ops: seq<Value>)
    requires AllThere(st)
    ensures AllThere(st.Emit(kind, ops))
  {
    assert ThereAt(st, st.cur);
    SameBlocksThere(st, st.Emit(kind, ops));
  }

  lemma EmitGrows(st: Build, kind: Kind, ops: seq<Value>)
    requires AllThere(st) && AllThere(st.Emit(kind, ops))
    requires Instr(st.ids) !in st.code.ops && Instr(st.ids) !in st.code.kind && Instr(st.ids) !in st.pos
    ensures Grows(st, st.Emit(kind, ops), {st.cur})
  {
    var st' := st.Emit(kind, ops);
    forall b ensures GrowsAt(st, st', {st.cur}, b) {
      assert ThereAt(st, b);
    }
    forall id ensures GrowsId(st, st', id) {
    }
    forall p, b ensures EdgeKept(st.g, st'.g, p, b) {
    }
  }

  /** Identifiers are given out in order, and there are no phis. */
  ghost predicate IdAt(st: Build, id: Id) {
    && (id in st.pos <==> id.Instr? && id.n < st.ids)
    && (id in st.code.kind <==> id in st.pos) && (id in st.code.ops <==> id in st.pos)
    && (id in st.code.kind ==> st.code.kind[id] != Phi)
  }

  ghost predicate Sound(st: Build) {
    AllThere(st) && forall id {:trigger IdAt(st, id)} :: IdAt(st, id)
  }

  lemma FreshId(st: Build)
    requires Sound(st)
    ensures Instr(st.ids) !in st.pos && Instr(st.ids) !in st.code.kind && Instr(st.ids) !in st.code.ops
  {
    assert IdAt(st, Instr(st.ids));
  }

  lemma EmitSound(st: Build, kind: Kind, ops: seq<Value>)
    requires Sound(st) && kind != Phi
    ensures Sound(st.Emit(kind, ops)) && Grows(st, st.Emit(kind, ops), {st.cur})
  {
    FreshId(st);
    EmitThere(st, kind, ops);
    EmitGrows(st, kind, ops);
    forall id ensures IdAt(st.Emit(kind, ops), id) {
      assert IdAt(st, id);
    }
  }

  /** Going on in another block, or with other scopes. */
  lemma SameSound(st: Build, st': Build)
    requires Sound(st) && st'.cur < |st.g.blocks| && st'.slots >= st.slots
    requires st' == st.(cur := st'.cur, scopes := st'.scopes, slots := st'.slots)
    ensures Sound(st') && Grows(st, st', {})
  {
    SameBlocksThere(st, st');
    forall id ensures IdAt(st', id) && GrowsId(st, st', id) { assert IdAt(st, id); }
    forall b ensures GrowsAt(st, st', {}, b) { }
    forall p, b ensures EdgeKept(st.g, st'.g, p, b) { }
  }

  lemma EdgeSound(st: Build, b: Block)
    requires Sound(st) && b < |st.g.blocks|
    ensures Sound(st.AddEdge(b)) && Grows(st, st.AddEdge(b), {st.cur})
  {
    var st' := st.AddEdge(b);
    assert ThereAt(st, b) && ThereAt(st, st.cur);
    SameBlocksThere(st, st');
    forall id ensures IdAt(st', id) && GrowsId(st, st', id) { assert IdAt(st, id); }
    forall c ensures GrowsAt(st, st', {st.cur}, c) { }
    forall p, c ensures EdgeKept(st.g, st'.g, p, c) { }
  }

  lemma {:induction false} NewBlocksSound(st: Build, k: nat)
    requires Sound(st)
    ensures var r := NewBlocks(st, k);
      Sound(r) && Grows(st, r, {}) && r.cur == st.cur && r.scopes == st.scopes && |r.g.blocks| == |st.g.blocks| + k
  {
    if k == 0 {
      SameSound(st, st);
    } else {
      NewBlocksSound(st, k - 1);
      var st1, st' := NewBlocks(st, k - 1), NewBlocks(st, k);
      NewBlockThere(st1);
      forall id ensures IdAt(st', id) && GrowsId(st1, st', id) { assert IdAt(st1, id); }
      forall b ensures GrowsAt(st1, st', {}, b) { assert ThereAt(st1, b); }
      forall p, b ensures EdgeKept(st1.g, st'.g, p, b) { assert ThereAt(st1, p); }
      GrowsTrans(st, st1, st', {}, {});
    }
  }

  lemma BrSound(st: Build, b: Block, next: Block, r: Build)
    requires Sound(st) && b < |st.g.blocks| && next < |st.g.blocks| && r == st.Br(b).At(next)
    ensures Sound(r) && Grows(st, r, {st.cur}) && r.scopes == st.scopes && r.g.blocks == st.g.blocks && r.slots == st.slots
  {
    var st1 := st.Br(b);
    EdgeSound(st, b);
    EmitSound(st.AddEdge(b), Kind.Br, [Label(b)]);
    GrowsTrans(st, st.AddEdge(b), st1, {st.cur}, {st.cur});
    SameSound(st1, r);
    GrowsTrans(st, st1, r, {st.cur}, {});
  }

  lemma JumpSound(st: Build, b: Block, next: Block, r: Build)
    requires Sound(st) && b < |st.g.blocks| && next < |st.g.blocks| && r == Jump(st, b, next)
    ensures Sound(r) && Grows(st, r, {st.cur}) && r.scopes == st.scopes && r.g.blocks == st.g.blocks && r.slots == st.slots
  {
    if Ended(st) {
      SameSound(st, r);
      WidenGrows(st, r, {st.cur});
    } else {
      BrSound(st, b, next, r);
    }
  }

  lemma TestSound(st: Build, v: Value, t: Block, f: Block, r: Build)
    requires Sound(st) && t < |st.g.blocks| && f < |st.g.blocks| && r == Test(st, v, t, f)
    ensures Sound(r) && Grows(st, r, {st.cur}) && r.scopes == st.scopes && r.g.blocks == st.g.blocks && r.slots == st.slots
  {
    var st1, ops := st.AddEdge(f), [v, Label(t), Label(f)];
    var st2 := st1.AddEdge(t);
    EdgeSound(st, f);
    EdgeSound(st1, t);
    EmitSound(st2, Kind.CondBr, ops);
    SameSound(st2.Emit(Kind.CondBr, ops), r);
    GrowsTrans(st, st1, st2, {st.cur}, {st.cur});
    GrowsTrans(st, st2, st2.Emit(Kind.CondBr, ops), {st.cur}, {st.cur});
    GrowsTrans(st, st2.Emit(Kind.CondBr, ops), r, {st.cur}, {});
  }

  lemma SameEnded(st: Build, st': Build)
    requires ListOf(st'.code.body, st.cur) == ListOf(st.code.body, st.cur) && st'.cur == st.cur && st'.code.kind == st.code.kind
    ensures Ended(st') == Ended(st)
  {
  }

  // ----- expressions -----

  /** What lowering an expression leaves as it is. */
  ghost predicate ExprGrown(st: Build, st': Build) {
    && Sound(st') && Grows(st, st', {st.cur})
    && st'.cur == st.cur && st'.g == st.g && st'.scopes == st.scopes && st'.slots == st.slots && (Ended(st') ==> Ended(st))
  }

  ghost predicate Known(st: Build, v: Value) {
    v.Ref? ==> v.id in st.pos
  }

  lemma ExprGrownTrans(a: Build, b: Build, c: Build)
    requires ExprGrown(a, b) && ExprGrown(b, c)
    ensures ExprGrown(a, c)
  {
    GrowsTrans(a, b, c, {a.cur}, {b.cur});
  }

  lemma KnownLater(st: Build, st': Build, v: Value)
    requires ExprGrown(st, st') && Known(st, v)
    ensures Known(st', v)
  {
    if v.Ref? { assert GrowsId(st, st', v.id); }
  }

  lemma SelfGrown(st: Build)
    requires Sound(st)
    ensures ExprGrown(st, st)
  {
    SameSound(st, st);
    WidenGrows(st, st, {st.cur});
  }

  /** One more instruction after what has been lowered. */
  lemma NextGrown(a: Build, st: Build, kind: Kind, ops: seq<Value>)
    requires ExprGrown(a, st) && kind != Phi && !Ends(kind)
    ensures ExprGrown(st, st.Emit(kind, ops)) && ExprGrown(a, st.Emit(kind, ops)) && Known(st.Emit(kind, ops), st.Next())
  {
    EmitSound(st, kind, ops);
    ExprGrownTrans(a, st, st.Emit(kind, ops));
  }

  lemma PlainGrown(st: Build, kind: Kind, ops: seq<Value>)
    requires Sound(st) && kind != Phi && !Ends(kind)
    ensures ExprGrown(st, st.Emit(kind, ops)) && Known(st.Emit(kind, ops), st.Next())
  {
    EmitSound(st, kind, ops);
  }

  lemma {:induction false} ExprGrows(st: Build, e: Expr)
    requires Sound(st)
    ensures ExprGrown(st, LowerExpr(st, e).st) && Known(LowerExpr(st, e).st, LowerExpr(st, e).v)
    decreases e, 1
  {
    SelfGrown(st);
    match e
    case Num(n) =>
    case Var(name) => NextGrown(st, st, Load, [Addr(if Declared(st.scopes, name) then Find(st.scopes, name) else 0)]);
    case Binary(op, l, r) =>
      TwoGrow(st, e, l, r);
      var two := LowerTwo(st, e, l, r);
      NextGrown(st, two.st, Exec(op), two.vs);
    case Compare(op, l, r) =>
      TwoGrow(st, e, l, r);
      var two := LowerTwo(st, e, l, r);
      NextGrown(st, two.st, Exec(op), two.vs);
      NextGrown(st, two.st.Emit(Exec(op), two.vs), Exec(ZEXT), [two.st.Next()]);
    case Assign(name, v) =>
      ExprGrows(st, v);
      var res := LowerExpr(st, v);
      var ops := [res.v, Addr(if Declared(st.scopes, name) then Find(st.scopes, name) else 0)];
      NextGrown(st, res.st, Store, ops);
      KnownLater(res.st, res.st.Emit(Store, ops), res.v);
    case Call(callee, args) =>
      ArgsGrow(st, args);
      var all := LowerArgs(st, args);
      NextGrown(st, all.st, Exec(CALL), [Global(callee)] + all.vs);
  }

  lemma {:induction false} TwoGrow(st: Build, e: Expr, l: Expr, r: Expr)
    requires Sound(st) && l < e && r < e
    ensures ExprGrown(st, LowerTwo(st, e, l, r).st)
    ensures forall v :: v in LowerTwo(st, e, l, r).vs ==> Known(LowerTwo(st, e, l, r).st, v)
    decreases e, 0
  {
    ExprGrows(st, l);
    var lres := LowerExpr(st, l);
    ExprGrows(lres.st, r);
    var rres := LowerExpr(lres.st, r);
    KnownLater(lres.st, rres.st, lres.v);
    ExprGrownTrans(st, lres.st, rres.st);
  }

  lemma {:induction false} ArgsGrow(st: Build, es: seq<Expr>)
    requires Sound(st)
    ensures ExprGrown(st, LowerArgs(st, es).st)
    ensures forall v :: v in LowerArgs(st, es).vs ==> Known(LowerArgs(st, es).st, v)
    decreases es
  {
    SelfGrown(st);
    if es != [] {
      var init := LowerArgs(st, es[..|es| - 1]);
      ArgsGrow(st, es[..|es| - 1]);
      ExprGrows(init.st, es[|es| - 1]);
      var last := LowerExpr(init.st, es[|es| - 1]);
      ExprGrownTrans(st, init.st, last.st);
      forall v | v in init.vs ensures Known(last.st, v) {
        KnownLater(init.st, last.st, v);
      }
    }
  }

  lemma CondGrows(st: Build, c: Expr, cond: Lowered)
    requires Sound(st) && cond == LowerCond(st, c)
    ensures ExprGrown(st, cond.st)
  {
    ExprGrows(st, c);
    var res := LowerExpr(st, c);
    NextGrown(st, res.st, Exec(GT), [res.v, Const(0)]);
  }

  // ----- lowering, one level at a time -----

  ghost predicate OneLevel(k: nat) {
    true
  }

  /** `r` is what lowering `s` makes of `st`. The definition is looked into only
      where `OneLevel` is mentioned, so that proofs see one statement at a time. */
  ghost predicate Becomes(st: Build, s: Stmt, r: Build) {
    forall k: nat {:trigger OneLevel(k)} :: OneLevel(k) ==> r == LowerStmt(st, s)
  }

  ghost predicate BecomesAll(st: Build, stmts: seq<Stmt>, r: Build) {
    forall k: nat {:trigger OneLevel(k)} :: OneLevel(k) ==> r == LowerAll(st, stmts)
  }

  /** The states on the way to the two blocks of an `if`. */
  ghost predicate ForkOf(st: Build, c: Expr, cond: Lowered, st0: Build, st1: Build, t: Block, f: Block) {
    && t == |st.g.blocks| && f == t + 1
    && forall k: nat {:trigger OneLevel(k)} :: OneLevel(k) ==>
         cond == LowerCond(st, c) && st0 == NewBlocks(cond.st, 2) && st1 == Test(st0, cond.v, t, f)
  }

  /** The states on the way to the body of a loop. */
  ghost predicate LoopOf(st: Build, c: Expr, st0: Build, st1: Build, cond: Lowered, st2: Build, n: Block, t: Block, f: Block) {
    && n == |st.g.blocks| && t == n + 1 && f == n + 2
    && forall k: nat {:trigger OneLevel(k)} :: OneLevel(k) ==>
         st0 == NewBlocks(st, 3) && st1 == st0.Br(n).At(n) && cond == LowerCond(st1, c) && st2 == Test(cond.st, cond.v, t, f)
  }

  lemma IfBecomes(st: Build, s: Stmt, r: Build, t: Block, f: Block) returns (cond: Lowered, st0: Build, st1: Build, st2: Build)
    requires s.If? && Becomes(st, s, r) && t == |st.g.blocks| && f == t + 1
    ensures ForkOf(st, s.cond, cond, st0, st1, t, f) && Becomes(st1, s.then_, st2) && r == Jump(st2, f, f)
  {
    assert OneLevel(0) && r == LowerStmt(st, s) && r == LowerIf(st, s);
    cond := LowerCond(st, s.cond);
    st0, st1 := NewBlocks(cond.st, 2), Fork(st, s.cond);
    st2 := LowerStmt(st1, s.then_);
  }

  lemma IfElseBecomes(st: Build, s: Stmt, r: Build, t: Block, f: Block)
    returns (cond: Lowered, st0: Build, st1: Build, st2: Build, st2': Build, st3: Build)
    requires s.IfElse? && Becomes(st, s, r) && t == |st.g.blocks| && f == t + 1
    ensures ForkOf(st, s.cond, cond, st0, st1, t, f) && Becomes(st1, s.then_, st2)
    ensures st2' == GoTo(st2, f) && Becomes(st2', s.else_, st3) && r == EndArms(st3, st2.cur)
  {
    assert OneLevel(0) && r == LowerStmt(st, s) && r == LowerIfElse(st, s);
    cond := LowerCond(st, s.cond);
    st0, st1 := NewBlocks(cond.st, 2), Fork(st, s.cond);
    st2 := LowerStmt(st1, s.then_);
    st2' := GoTo(st2, f);
    st3 := LowerStmt(st2', s.else_);
  }

  lemma LoopStates(st: Build, c: Expr, n: Block, t: Block, f: Block) returns (st0: Build, st1: Build, cond: Lowered, st2: Build)
    requires n == |st.g.blocks| && t == n + 1 && f == n + 2
    ensures LoopOf(st, c, st0, st1, cond, st2, n, t, f) && st2 == TestLoop(EnterLoop(st), c)
  {
    st0, st1 := NewBlocks(st, 3), EnterLoop(st);
    cond, st2 := LowerCond(st1, c), TestLoop(st1, c);
  }

  lemma WhileBecomes(st: Build, s: Stmt, r: Build, n: Block, t: Block, f: Block)
    returns (st0: Build, st1: Build, cond: Lowered, st2: Build, st3: Build)
    requires s.While? && Becomes(st, s, r) && n == |st.g.blocks| && t == n + 1 && f == n + 2
    ensures LoopOf(st, s.cond, st0, st1, cond, st2, n, t, f) && Becomes(st2, s.body, st3) && r == Jump(st3, n, f)
  {
    st0, st1, cond, st2 := LoopStates(st, s.cond, n, t, f);
    assert OneLevel(0) && r == LowerStmt(st, s) && r == LowerWhile(st, s);
    st3 := LowerStmt(TestLoop(EnterLoop(st), s.cond), s.body);
  }

  lemma CompoundBecomes(st: Build, s: Stmt, r: Build, st1: Build) returns (st2: Build)
    requires s.Compound? && Becomes(st, s, r) && st1 == OpenLocals(st, s.decls)
    ensures BecomesAll(st1, s.stmts, st2) && r == CloseScope(st2)
  {
    assert OneLevel(0) && r == LowerStmt(st, s) && r == LowerCompound(st, s);
    st2 := LowerAll(OpenLocals(st, s.decls), s.stmts);
  }

  lemma NextBecomes(st: Build, stmts: seq<Stmt>, r: Build) returns (st1: Build)
    requires BecomesAll(st, stmts, r)
    ensures stmts == [] ==> r == st
    ensures stmts != [] ==> Becomes(st, stmts[0], st1) && BecomesAll(st1, stmts[1..], r)
  {
    assert OneLevel(0);
    st1 := if stmts == [] then st else LowerStmt(st, stmts[0]);
  }

  lemma SimpleBecomes(st: Build, s: Stmt, r: Build)
    requires Becomes(st, s, r)
    ensures s.Nothing? ==> r == st
    ensures s.Do? ==> r == LowerExpr(st, s.e).st
  {
    assert OneLevel(0);
  }

  ghost predicate EmptyAt(st: Build, b: Block) {
    ListOf(st.code.body, b) == []
  }

  /** New blocks are empty, and the others stay as they are. */
  lemma {:induction false} NewAreEmpty(st: Build, k: nat, b: Block)
    requires b < |st.g.blocks| + k
    ensures var st' := NewBlocks(st, k);
      && st'.cur == st.cur && |st'.g.blocks| == |st.g.blocks| + k && st'.code.kind == st.code.kind
      && ListOf(st'.code.body, b) == if b < |st.g.blocks| then ListOf(st.code.body, b) else []
  {
    if k > 0 {
      var st1 := NewBlocks(st, k - 1);
      if b < |st.g.blocks| + k - 1 {
        NewAreEmpty(st, k - 1, b);
      } else if |st.g.blocks| + k - 1 > 0 {
        NewAreEmpty(st, k - 1, 0);
      }
    }
  }

  // ----- statements -----

  /** The states on the way to the blocks of an `if`. */
  lemma ForkGrows(st: Build, c: Expr, cond: Lowered, st0: Build, st1: Build, t: Block, f: Block)
    requires Sound(st) && ForkOf(st, c, cond, st0, st1, t, f)
    ensures ExprGrown(st, cond.st) && Sound(st0) && Grows(cond.st, st0, {}) && st0.cur == st.cur && st0.Here() == cond.st.Here()
    ensures Sound(st1) && Grows(st0, st1, {st.cur}) && Grows(st, st1, {st.cur}) && st1.cur == t && |st1.g.blocks| == f + 1
    ensures EmptyAt(st1, t) && EmptyAt(st1, f) && st1.scopes == st.scopes && st1.slots >= st.slots && st.cur < t
  {
    assert OneLevel(0);
    CondGrows(st, c, cond);
    NewBlocksSound(cond.st, 2);
    TestSound(st0, cond.v, t, f, st1);
    GrowsTrans(st, cond.st, st0, {st.cur}, {});
    GrowsTrans(st, st0, st1, {st.cur}, {st.cur});
    NewAreEmpty(cond.st, 2, st.cur);
    NewAreEmpty(cond.st, 2, t);
    NewAreEmpty(cond.st, 2, f);
  }

  /** The three blocks of a loop. */
  lemma LoopBlocks(st: Build, st0: Build, n: Block, t: Block, f: Block)
    requires Sound(st) && st0 == NewBlocks(st, 3) && n == |st.g.blocks| && t == n + 1 && f == n + 2
    ensures Sound(st0) && Grows(st, st0, {}) && st0.cur == st.cur && st0.scopes == st.scopes && |st0.g.blocks| == f + 1
    ensures st0.Here() == st.Here() && Ended(st0) == Ended(st) && st.cur < n
    ensures EmptyAt(st0, n) && EmptyAt(st0, t) && EmptyAt(st0, f)
  {
    NewBlocksSound(st, 3);
    NewAreEmpty(st, 3, st.cur);
    NewAreEmpty(st, 3, n);
    NewAreEmpty(st, 3, t);
    NewAreEmpty(st, 3, f);
    SameEnded(st, st0);
  }

  /** The jump into a loop. */
  lemma LoopEntered(st: Build, c: Expr, st0: Build, st1: Build, cond: Lowered, st2: Build, n: Block, t: Block, f: Block)
    requires Sound(st) && LoopOf(st, c, st0, st1, cond, st2, n, t, f)
    ensures Sound(st0) && Sound(st1) && Grows(st0, st1, {st.cur}) && Grows(st, st1, {st.cur}) && st0.cur == st.cur && st0.Here() == st.Here()
    ensures Ended(st0) == Ended(st) && st.cur < n && |st1.g.blocks| == f + 1
    ensures st1.cur == n && EmptyAt(st1, n) && EmptyAt(st1, t) && EmptyAt(st1, f) && st1.scopes == st.scopes && st1.slots >= st.slots
  {
    assert OneLevel(0) && st0 == NewBlocks(st, 3) && st1 == st0.Br(n).At(n);
    LoopBlocks(st, st0, n, t, f);
    LoopJumps(st, st0, st1, n, t, f);
  }

  lemma LoopJumps(st: Build, st0: Build, st1: Build, n: Block, t: Block, f: Block)
    requires Sound(st0) && st0.cur == st.cur && st.cur < n < t < f < |st0.g.blocks| && Grows(st, st0, {}) && st1 == st0.Br(n).At(n)
    requires EmptyAt(st0, n) && EmptyAt(st0, t) && EmptyAt(st0, f)
    ensures Sound(st1) && Grows(st0, st1, {st.cur}) && Grows(st, st1, {st.cur}) && st1.cur == n && st1.scopes == st0.scopes
    ensures st1.g.blocks == st0.g.blocks && EmptyAt(st1, n) && EmptyAt(st1, t) && EmptyAt(st1, f) && st1.slots == st0.slots
  {
    BrSound(st0, n, n, st1);
    WidenGrows(st, st0, {st.cur});
    GrowsTrans(st, st0, st1, {st.cur}, {st.cur});
    assert GrowsAt(st0, st1, {st.cur}, n) && GrowsAt(st0, st1, {st.cur}, t) && GrowsAt(st0, st1, {st.cur}, f);
  }

  /** The condition of a loop. */
  lemma LoopTested(st: Build, c: Expr, st0: Build, st1: Build, cond: Lowered, st2: Build, n: Block, t: Block, f: Block)
    requires LoopOf(st, c, st0, st1, cond, st2, n, t, f) && Sound(st1) && st1.cur == n && |st1.g.blocks| == f + 1
    requires EmptyAt(st1, t) && EmptyAt(st1, f)
    ensures ExprGrown(st1, cond.st) && Sound(st2) && Grows(cond.st, st2, {n}) && st2.cur == t
    ensures EmptyAt(st2, t) && EmptyAt(st2, f) && |st2.g.blocks| == f + 1 && st2.scopes == st1.scopes && st2.slots >= st1.slots
  {
    assert OneLevel(0) && st2 == Test(cond.st, cond.v, t, f);
    CondGrows(st1, c, cond);
    TestGrows(st1, cond, st2, n, t, f);
  }

  lemma TestGrows(st1: Build, cond: Lowered, st2: Build, n: Block, t: Block, f: Block)
    requires ExprGrown(st1, cond.st) && st2 == Test(cond.st, cond.v, t, f) && st1.cur == n && |st1.g.blocks| == f + 1
    requires EmptyAt(st1, t) && EmptyAt(st1, f) && n < t < f
    ensures Sound(st2) && Grows(cond.st, st2, {n}) && st2.cur == t
    ensures EmptyAt(st2, t) && EmptyAt(st2, f) && |st2.g.blocks| == f + 1 && st2.scopes == st1.scopes && st2.slots >= st1.slots
  {
    TestSound(cond.st, cond.v, t, f, st2);
    assert GrowsAt(st1, cond.st, {n}, t) && GrowsAt(st1, cond.st, {n}, f);
    assert GrowsAt(cond.st, st2, {n}, t) && GrowsAt(cond.st, st2, {n}, f);
  }

  /** The states on the way to the body of a loop. */
  lemma LoopGrows(st: Build, c: Expr, st0: Build, st1: Build, cond: Lowered, st2: Build, n: Block, t: Block, f: Block)
    requires Sound(st) && LoopOf(st, c, st0, st1, cond, st2, n, t, f)
    ensures Sound(st0) && Sound(st1) && Grows(st0, st1, {st.cur}) && Grows(st, st1, {st.cur}) && st0.cur == st.cur && st0.Here() == st.Here()
    ensures Ended(st0) == Ended(st)
    ensures st1.cur == n && EmptyAt(st1, n) && EmptyAt(st1, t) && EmptyAt(st1, f) && st1.scopes == st.scopes && st1.slots >= st.slots
    ensures ExprGrown(st1, cond.st) && Sound(st2) && Grows(cond.st, st2, {n}) && Grows(st, st2, {st.cur}) && st2.cur == t
    ensures EmptyAt(st2, t) && EmptyAt(st2, f) && |st2.g.blocks| == f + 1 && st2.scopes == st.scopes && st2.slots >= st.slots && st.cur < n
  {
    LoopEntered(st, c, st0, st1, cond, st2, n, t, f);
    LoopTested(st, c, st0, st1, cond, st2, n, t, f);
    GrowsTrans(st, st1, cond.st, {st.cur}, {n});
    GrowsTrans(st, cond.st, st2, {st.cur}, {n});
  }

  /** The states where the arms of an `if` with `else` end: `st5` and `st6` jump. */
  ghost predicate ArmsOf(st3: Build, x: Block, st4: Build, st5: Build, st6: Build, n: Block) {
    n == |st3.g.blocks| && st4 == st3.NewBlock() && st5 == st4.At(x) && st6 == st5.Br(n).At(st3.cur)
  }

  lemma ArmsGrow(st3: Build, x: Block, st4: Build, st5: Build, st6: Build, n: Block, r: Build)
    requires Sound(st3) && x < n && x != st3.cur && ArmsOf(st3, x, st4, st5, st6, n) && r == st6.Br(n)
    ensures Sound(st5) && st5.cur == x && ListOf(st5.code.body, x) == ListOf(st3.code.body, x)
    ensures Sound(st6) && st6.cur == st3.cur && st6.Here() == st3.Here() && Grows(st5, st6.At(x), {x})
    ensures Sound(r) && Grows(st3, r, {x, st3.cur}) && Grows(st6, r, {st3.cur}) && EmptyAt(r, n)
    ensures r.cur == st3.cur && r.scopes == st3.scopes && |r.g.blocks| == n + 1
  {
    var y := st3.cur;
    assert NewBlocks(st3, 0) == st3 && NewBlocks(st3, 1) == st4;
    NewBlocksSound(st3, 1);
    SameSound(st4, st5);
    EdgeSound(st5, n);
    EmitSound(st5.AddEdge(n), Kind.Br, [Label(n)]);
    GrowsTrans(st5, st5.AddEdge(n), st5.Br(n), {x}, {x});
    SameSound(st5.Br(n), st6);
    EdgeSound(st6, n);
    EmitSound(st6.AddEdge(n), Kind.Br, [Label(n)]);
    GrowsTrans(st6, st6.AddEdge(n), r, {y}, {y});
    WidenGrows(st3, st4, {x, y});
    GrowsTrans(st3, st4, st5, {x, y}, {});
    GrowsTrans(st3, st5, st5.Br(n), {x, y}, {x});
    GrowsTrans(st3, st5.Br(n), st6, {x, y}, {});
    GrowsTrans(st3, st6, r, {x, y}, {y});
    SameSound(st5.Br(n), st6.At(x));
    GrowsTrans(st5, st5.Br(n), st6.At(x), {x}, {});
  }

  /** What lowering a statement leaves as it is. */
  ghost predicate StmtGrown(st: Build, r: Build) {
    && Sound(r) && Grows(st, r, {st.cur}) && r.scopes == st.scopes
    && (r.cur == st.cur || r.cur >= |st.g.blocks|)
  }

  lemma {:induction false} StmtGrows(st: Build, s: Stmt, r: Build)
    requires Sound(st) && Becomes(st, s, r)
    ensures StmtGrown(st, r)
    decreases s, 1
  {
    match s
    case Nothing =>
      SimpleBecomes(st, s, r);
      SelfGrown(st);
    case Do(e) =>
      SimpleBecomes(st, s, r);
      ExprGrows(st, e);
    case If(_, _) =>
      var t, f := |st.g.blocks|, |st.g.blocks| + 1;
      var cond, st0, st1, st2 := IfBecomes(st, s, r, t, f);
      ForkGrows(st, s.cond, cond, st0, st1, t, f);
      StmtGrows(st1, s.then_, st2);
      ArmGrown(st, st1, st2, t, f, f, r);
    case IfElse(_, _, _) => IfElseGrows(st, s, r);
    case While(_, _) =>
      var n, t, f := |st.g.blocks|, |st.g.blocks| + 1, |st.g.blocks| + 2;
      var st0, st1, cond, st2, st3 := WhileBecomes(st, s, r, n, t, f);
      LoopGrows(st, s.cond, st0, st1, cond, st2, n, t, f);
      StmtGrows(st2, s.body, st3);
      ArmGrown(st, st2, st3, t, n, f, r);
    case Compound(decls, stmts) =>
      var st0, st1 := st.(scopes := st.scopes + [map[]]), OpenLocals(st, decls);
      var st2 := CompoundBecomes(st, s, r, st1);
      SameSound(st, st0);
      LocalsGrow(st0, decls);
      StmtsGrow(st1, stmts, st2);
      CompoundGrown(st, st0, st1, st2, r);
  }

  /** An arm, and the jump after it. */
  lemma ArmGrown(st: Build, st1: Build, st2: Build, t: Block, b: Block, f: Block, r: Build)
    requires Sound(st) && Sound(st1) && Grows(st, st1, {st.cur}) && st1.cur == t && st1.scopes == st.scopes && StmtGrown(st1, st2)
    requires |st.g.blocks| <= t < |st1.g.blocks| && b < |st1.g.blocks| && |st.g.blocks| <= f < |st1.g.blocks| && r == Jump(st2, b, f)
    ensures StmtGrown(st, r) && Grows(st2, r, {st2.cur}) && r.cur == f
    ensures t != f ==> ListOf(r.code.body, f) == ListOf(st1.code.body, f)
  {
    JumpSound(st2, b, f, r);
    GrowsTrans(st, st1, st2, {st.cur}, {t});
    GrowsTrans(st, st2, r, {st.cur}, {st2.cur});
    assert GrowsAt(st1, st2, {t}, f) && GrowsAt(st2, r, {st2.cur}, f);
  }

  lemma {:induction false} IfElseGrows(st: Build, s: Stmt, r: Build)
    requires Sound(st) && s.IfElse? && Becomes(st, s, r)
    ensures StmtGrown(st, r)
    decreases s, 0
  {
    var t, f := |st.g.blocks|, |st.g.blocks| + 1;
    var cond, st0, st1, st2, st2', st3 := IfElseBecomes(st, s, r, t, f);
    ForkGrows(st, s.cond, cond, st0, st1, t, f);
    StmtGrows(st1, s.then_, st2);
    SameSound(st2, st2');
    StmtGrows(st2', s.else_, st3);
    ElseGrown(st, st1, st2, st2', st3, t, f);
    EndArmsGrown(st, st2.cur, st3, r);
  }

  /** The second arm leaves the first as it was. */
  lemma ElseGrown(st: Build, st1: Build, st2: Build, st2': Build, st3: Build, t: Block, f: Block)
    requires Grows(st, st1, {st.cur}) && st1.cur == t && |st.g.blocks| <= t < f && |st1.g.blocks| == f + 1 && st1.scopes == st.scopes
    requires EmptyAt(st1, f) && StmtGrown(st1, st2) && st2' == GoTo(st2, f) && Grows(st2, st2', {}) && StmtGrown(st2', st3)
    ensures Grows(st, st3, {st.cur}) && st3.scopes == st.scopes && EmptyAt(st2', f) && Grows(st2, st3, {f})
    ensures st2.cur < |st3.g.blocks| && st2.cur != f && st2.cur != st3.cur
    ensures ListOf(st3.code.body, st2.cur) == ListOf(st2.code.body, st2.cur) && st2.cur >= |st.g.blocks| && st3.cur >= |st.g.blocks|
  {
    GrowsTrans(st, st1, st2, {st.cur}, {t});
    GrowsTrans(st, st2, st2', {st.cur}, {});
    GrowsTrans(st, st2', st3, {st.cur}, {f});
    assert GrowsAt(st1, st2, {t}, f) && GrowsAt(st2', st3, {f}, st2.cur);
    WidenGrows(st2, st2', {f});
    GrowsTrans(st2, st2', st3, {f}, {f});
  }

  lemma EndArmsGrown(st: Build, x: Block, st3: Build, r: Build)
    requires Sound(st) && Sound(st3) && Grows(st, st3, {st.cur}) && st3.scopes == st.scopes && r == EndArms(st3, x)
    requires |st.g.blocks| <= x < |st3.g.blocks| && x != st3.cur && st3.cur >= |st.g.blocks|
    ensures StmtGrown(st, r)
  {
    if !Ended(st3) {
      var n, st4, st5 := |st3.g.blocks|, st3.NewBlock(), st3.NewBlock().At(x);
      ArmsGrow(st3, x, st4, st5, st5.Br(n).At(st3.cur), n, r);
      GrowsTrans(st, st3, r, {st.cur}, {x, st3.cur});
    }
  }

  /** What declaring variables leaves as it is. */
  ghost predicate DeclGrown(st: Build, r: Build) {
    Sound(r) && Grows(st, r, {st.cur}) && r.cur == st.cur && r.g == st.g && (Ended(r) ==> Ended(st))
  }

  lemma {:induction false} LocalsGrow(st: Build, names: seq<string>)
    requires Sound(st)
    ensures DeclGrown(st, DeclareLocals(st, names)) && Drop(DeclareLocals(st, names).scopes) == Drop(st.scopes)
  {
    SelfGrown(st);
    if names != [] {
      var n := |names| - 1;
      var st1, r := DeclareLocals(st, names[..n]), DeclareLocals(st, names);
      LocalsGrow(st, names[..n]);
      var st2 := st1.Emit(Alloca(st1.slots, true), []);
      EmitSound(st1, Alloca(st1.slots, true), []);
      SameSound(st2, r);
      GrowsTrans(st, st1, st2, {st.cur}, {st.cur});
      GrowsTrans(st, st2, r, {st.cur}, {});
    }
  }

  lemma {:induction false} ParamsGrow(st: Build, params: seq<string>)
    requires Sound(st)
    ensures DeclGrown(st, LowerParams(st, params))
  {
    SelfGrown(st);
    if params != [] {
      var n := |params| - 1;
      var st1, r := LowerParams(st, params[..n]), LowerParams(st, params);
      ParamsGrow(st, params[..n]);
      ParamGrown(st, st1, n, r);
    }
  }

  lemma ParamGrown(st: Build, st1: Build, n: nat, r: Build)
    requires Sound(st) && DeclGrown(st, st1)
    requires var st3 := st1.Emit(Alloca(st1.slots, true), []).Emit(Store, [Arg(n), Addr(st1.slots)]);
             r == st3.(slots := st1.slots + 1, scopes := r.scopes)
    ensures DeclGrown(st, r)
  {
    var st2 := st1.Emit(Alloca(st1.slots, true), []);
    var st3 := st2.Emit(Store, [Arg(n), Addr(st1.slots)]);
    EmitSound(st1, Alloca(st1.slots, true), []);
    EmitSound(st2, Store, [Arg(n), Addr(st1.slots)]);
    SameSound(st3, r);
    GrowsTrans(st, st1, st2, {st.cur}, {st.cur});
    GrowsTrans(st, st2, st3, {st.cur}, {st.cur});
    GrowsTrans(st, st3, r, {st.cur}, {});
  }

  lemma EmptySound()
    ensures Sound(Empty()) && !Ended(Empty())
  {
    forall id ensures IdAt(Empty(), id) { }
    forall b ensures ThereAt(Empty(), b) { }
  }

  /** The states on the way through a function: after its parameters, and after
      its statements. */
  lemma FunctionStates(f: Function, r: Build) returns (st0: Build, st: Build)
    requires r == LowerFunction(f)
    ensures st0 == LowerParams(Empty(), f.params) && Sound(st0) && st0.cur == 0 && |st0.g.blocks| == 1 && !Ended(st0)
    ensures Becomes(st0, Compound(f.decls, f.stmts), st) && StmtGrown(st0, st)
    ensures r == if Ended(st) then st else st.Emit(Ret, [Const(0)])
    ensures Sound(r) && Grows(st, r, {st.cur})
  {
    st0 := LowerParams(Empty(), f.params);
    st := LowerStmt(st0, Compound(f.decls, f.stmts));
    EmptySound();
    ParamsGrow(Empty(), f.params);
    StmtGrows(st0, Compound(f.decls, f.stmts), st);
    EmitSound(st, Ret, [Const(0)]);
    SelfGrown(st);
  }

  lemma CompoundGrown(st: Build, st0: Build, st1: Build, st2: Build, r: Build)
    requires Sound(st) && st0 == st.(scopes := st.scopes + [map[]]) && Grows(st, st0, {}) && Sound(st0)
    requires DeclGrown(st0, st1) && Drop(st1.scopes) == Drop(st0.scopes)
    requires StmtGrown(st1, st2) && r == CloseScope(st2)
    ensures StmtGrown(st, r)
  {
    SameSound(st2, r);
    WidenGrows(st, st0, {st.cur});
    GrowsTrans(st, st0, st1, {st.cur}, {st.cur});
    GrowsTrans(st, st1, st2, {st.cur}, {st.cur});
    GrowsTrans(st, st2, r, {st.cur}, {});
  }

  lemma {:induction false} StmtsGrow(st: Build, stmts: seq<Stmt>, r: Build)
    requires Sound(st) && BecomesAll(st, stmts, r)
    ensures StmtGrown(st, r)
    decreases stmts
  {
    var st1 := NextBecomes(st, stmts, r);
    if stmts == [] {
      SelfGrown(st);
    } else {
      StmtGrows(st, stmts[0], st1);
      StmtsGrow(st1, stmts[1..], r);
      GrowsTrans(st, st1, r, {st.cur}, {st1.cur});
    }
  }

  /** The declarations at the start of a compound statement. */
  lemma CompoundStart(st: Build, decls: seq<string>, st1: Build)
    requires Sound(st) && st1 == OpenLocals(st, decls)
    ensures Sound(st1) && Grows(st, st1, {st.cur}) && st1.cur == st.cur && st1.g == st.g && (Ended(st1) ==> Ended(st))
  {
    var st0 := st.(scopes := st.scopes + [map[]]);
    SameSound(st, st0);
    LocalsGrow(st0, decls);
    WidenGrows(st, st0, {st.cur});
    GrowsTrans(st, st0, st1, {st.cur}, {st.cur});
  }
}
