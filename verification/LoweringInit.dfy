/** Where a function sets its variables first, its entry block stores to every
    slot before it loads it. */
module LoweringInit {
  import opened Graphs
  import opened IR
  import opened SsaForm
  import opened RenameSafety
  import opened SsaClean
  import opened Sources
  import opened Lowerings
  import opened LoweringGrowth
  import opened LoweringOk

  // ----- which slots are accessed -----

  ghost predicate AccessAt(st: Build, slots: set<Slot>, id: Id) {
    forall x: Slot {:trigger x in slots} :: st.code.LoadsFrom(id, x) || st.code.StoresTo(id, x) ==> x in slots
  }

  /** No other slot is loaded or stored to. */
  ghost predicate AccessOnly(st: Build, slots: set<Slot>) {
    forall id {:trigger AccessAt(st, slots, id)} :: AccessAt(st, slots, id)
  }

  lemma SameAccess(st: Build, st': Build, slots: set<Slot>)
    requires AccessOnly(st, slots) && st'.code.kind == st.code.kind && st'.code.ops == st.code.ops
    ensures AccessOnly(st', slots)
  {
    forall id ensures AccessAt(st', slots, id) { assert AccessAt(st, slots, id); }
  }

  lemma EmitAccess(st: Build, kind: Kind, ops: seq<Value>, slots: set<Slot>)
    requires AccessOnly(st, slots)
    requires kind == Load && |ops| == 1 && ops[0].Addr? ==> ops[0].x in slots
    requires kind == Store && |ops| == 2 && ops[1].Addr? ==> ops[1].x in slots
    ensures AccessOnly(st.Emit(kind, ops), slots)
  {
    var r := st.Emit(kind, ops);
    forall id ensures AccessAt(r, slots, id) { assert AccessAt(st, slots, id); }
  }

  /** The slots that these names have now. */
  ghost predicate SlotOf(scopes: Scopes<Slot>, slots: set<Slot>, name: string) {
    Declared(scopes, name) && Find(scopes, name) in slots
  }

  ghost predicate SlotsOf(scopes: Scopes<Slot>, names: set<string>, slots: set<Slot>) {
    forall n {:trigger SlotOf(scopes, slots, n)} :: n in names ==> SlotOf(scopes, slots, n)
  }

  lemma {:induction false} ExprAccess(st: Build, e: Expr, names: set<string>, slots: set<Slot>)
    requires Sound(st) && AccessOnly(st, slots) && SlotsOf(st.scopes, names, slots) && Reads(e) <= names && Writes(e) <= names
    ensures AccessOnly(LowerExpr(st, e).st, slots)
    decreases e, 1
  {
    match e
    case Num(_) =>
    case Var(name) =>
      assert SlotOf(st.scopes, slots, name);
      EmitAccess(st, Load, [Addr(Find(st.scopes, name))], slots);
    case Binary(op, l, r) => OperationAccess(st, e, l, r, op, names, slots);
    case Compare(op, l, r) =>
      OperationAccess(st, e, l, r, op, names, slots);
      var two := LowerTwo(st, e, l, r);
      EmitAccess(two.st.Emit(Exec(op), two.vs), Exec(ZEXT), [two.st.Next()], slots);
    case Assign(name, v) =>
      ExprAccess(st, v, names, slots);
      assert SlotOf(st.scopes, slots, name);
      var res := LowerExpr(st, v);
      EmitAccess(res.st, Store, [res.v, Addr(Find(st.scopes, name))], slots);
    case Call(callee, args) =>
      ArgsAccess(st, args, names, slots);
      var all := LowerArgs(st, args);
      EmitAccess(all.st, Exec(CALL), [Global(callee)] + all.vs, slots);
  }

  lemma {:induction false} OperationAccess(st: Build, e: Expr, l: Expr, r: Expr, op: Op, names: set<string>, slots: set<Slot>)
    requires Sound(st) && AccessOnly(st, slots) && SlotsOf(st.scopes, names, slots) && l < e && r < e
    requires Reads(l) + Reads(r) <= names && Writes(l) + Writes(r) <= names
    ensures var two := LowerTwo(st, e, l, r); AccessOnly(two.st.Emit(Exec(op), two.vs), slots)
    decreases e, 0
  {
    ExprAccess(st, l, names, slots);
    ExprGrows(st, l);
    ExprAccess(LowerExpr(st, l).st, r, names, slots);
    var two := LowerTwo(st, e, l, r);
    EmitAccess(two.st, Exec(op), two.vs, slots);
  }

  lemma {:induction false} ArgsAccess(st: Build, es: seq<Expr>, names: set<string>, slots: set<Slot>)
    requires Sound(st) && AccessOnly(st, slots) && SlotsOf(st.scopes, names, slots) && ReadsAll(es) <= names && WritesAll(es) <= names
    ensures AccessOnly(LowerArgs(st, es).st, slots)
    decreases es
  {
    if es != [] {
      ArgsAccess(st, es[..|es| - 1], names, slots);
      ArgsGrow(st, es[..|es| - 1]);
      ExprAccess(LowerArgs(st, es[..|es| - 1]).st, es[|es| - 1], names, slots);
    }
  }

  lemma CondAccess(st: Build, c: Expr, cond: Lowered, names: set<string>, slots: set<Slot>)
    requires Sound(st) && AccessOnly(st, slots) && SlotsOf(st.scopes, names, slots) && Reads(c) + Writes(c) <= names && cond == LowerCond(st, c)
    ensures AccessOnly(cond.st, slots)
  {
    ExprAccess(st, c, names, slots);
    var res := LowerExpr(st, c);
    EmitAccess(res.st, Exec(GT), [res.v, Const(0)], slots);
  }

  lemma {:induction false} NewBlocksSame(st: Build, k: nat)
    ensures NewBlocks(st, k).code.kind == st.code.kind && NewBlocks(st, k).code.ops == st.code.ops
  {
    if k > 0 { NewBlocksSame(st, k - 1); }
  }

  lemma BrAccess(st: Build, b: Block, next: Block, slots: set<Slot>)
    requires AccessOnly(st, slots)
    ensures AccessOnly(st.Br(b).At(next), slots)
  {
    SameAccess(st, st.AddEdge(b), slots);
    EmitAccess(st.AddEdge(b), Kind.Br, [Label(b)], slots);
    SameAccess(st.Br(b), st.Br(b).At(next), slots);
  }

  lemma JumpAccess(st: Build, b: Block, next: Block, r: Build, slots: set<Slot>)
    requires AccessOnly(st, slots) && r == Jump(st, b, next)
    ensures AccessOnly(r, slots)
  {
    if Ended(st) { SameAccess(st, r, slots); } else { BrAccess(st, b, next, slots); }
  }

  lemma TestAccess(st: Build, v: Value, t: Block, f: Block, r: Build, slots: set<Slot>)
    requires AccessOnly(st, slots) && r == Test(st, v, t, f)
    ensures AccessOnly(r, slots)
  {
    var st2, ops := st.AddEdge(f).AddEdge(t), [v, Label(t), Label(f)];
    SameAccess(st, st2, slots);
    EmitAccess(st2, Kind.CondBr, ops, slots);
    SameAccess(st2.Emit(Kind.CondBr, ops), r, slots);
  }

  lemma ForkAccess(st: Build, c: Expr, cond: Lowered, st0: Build, st1: Build, t: Block, f: Block, names: set<string>, slots: set<Slot>)
    requires Sound(st) && AccessOnly(st, slots) && SlotsOf(st.scopes, names, slots) && Reads(c) + Writes(c) <= names
    requires ForkOf(st, c, cond, st0, st1, t, f)
    ensures AccessOnly(st1, slots)
  {
    assert OneLevel(0);
    CondAccess(st, c, cond, names, slots);
    NewBlocksSame(cond.st, 2);
    SameAccess(cond.st, st0, slots);
    TestAccess(st0, cond.v, t, f, st1, slots);
  }

  lemma LoopAccess(st: Build, c: Expr, st0: Build, st1: Build, cond: Lowered, st2: Build, n: Block, t: Block, f: Block,
                   names: set<string>, slots: set<Slot>)
    requires Sound(st1) && st1.scopes == st.scopes && AccessOnly(st, slots) && SlotsOf(st.scopes, names, slots) && Reads(c) + Writes(c) <= names
    requires LoopOf(st, c, st0, st1, cond, st2, n, t, f)
    ensures AccessOnly(st2, slots)
  {
    assert OneLevel(0) && st1 == st0.Br(n).At(n);
    NewBlocksSame(st, 3);
    SameAccess(st, st0, slots);
    BrAccess(st0, n, n, slots);
    CondAccess(st1, c, cond, names, slots);
    TestAccess(cond.st, cond.v, t, f, st2, slots);
  }

  lemma EndArmsAccess(st3: Build, x: Block, r: Build, slots: set<Slot>)
    requires AccessOnly(st3, slots) && r == EndArms(st3, x)
    ensures AccessOnly(r, slots)
  {
    if !Ended(st3) {
      var n, y, st5 := |st3.g.blocks|, st3.cur, st3.NewBlock().At(x);
      var st6 := st5.Br(n).At(y);
      SameAccess(st3, st5, slots);
      BrAccess(st5, n, y, slots);
      BrAccess(st6, n, y, slots);
      SameAccess(st6.Br(n).At(y), r, slots);
    }
  }

  /** An empty scope changes the meaning of no name. */
  lemma EmptyScope(scopes: Scopes<Slot>, names: set<string>, slots: set<Slot>)
    requires SlotsOf(scopes, names, slots)
    ensures SlotsOf(scopes + [map[]], names, slots)
  {
    var scopes' := scopes + [map[]];
    assert scopes'[..|scopes'| - 1] == scopes;
    forall n | n in names ensures SlotOf(scopes', slots, n) { assert SlotOf(scopes, slots, n); }
  }

  lemma {:induction false} StmtAccess(st: Build, s: Stmt, r: Build, names: set<string>, slots: set<Slot>)
    requires Sound(st) && AccessOnly(st, slots) && SlotsOf(st.scopes, names, slots) && UsesOnly(s, names) && Becomes(st, s, r)
    ensures AccessOnly(r, slots)
    decreases s, 1
  {
    match s
    case Nothing => SimpleBecomes(st, s, r);
    case Do(e) =>
      SimpleBecomes(st, s, r);
      ExprAccess(st, e, names, slots);
    case If(_, _) =>
      var t, f := |st.g.blocks|, |st.g.blocks| + 1;
      var cond, st0, st1, st2 := IfBecomes(st, s, r, t, f);
      ForkGrows(st, s.cond, cond, st0, st1, t, f);
      ForkAccess(st, s.cond, cond, st0, st1, t, f, names, slots);
      StmtAccess(st1, s.then_, st2, names, slots);
      JumpAccess(st2, f, f, r, slots);
    case IfElse(_, _, _) => IfElseAccess(st, s, r, names, slots);
    case While(_, _) =>
      var n, t, f := |st.g.blocks|, |st.g.blocks| + 1, |st.g.blocks| + 2;
      var st0, st1, cond, st2, st3 := WhileBecomes(st, s, r, n, t, f);
      LoopGrows(st, s.cond, st0, st1, cond, st2, n, t, f);
      LoopAccess(st, s.cond, st0, st1, cond, st2, n, t, f, names, slots);
      StmtAccess(st2, s.body, st3, names, slots);
      JumpAccess(st3, n, f, r, slots);
    case Compound(decls, stmts) =>
      var st1 := OpenLocals(st, decls);
      var st2 := CompoundBecomes(st, s, r, st1);
      assert st1 == st.(scopes := st.scopes + [map[]]);
      SameSound(st, st1);
      SameAccess(st, st1, slots);
      EmptyScope(st.scopes, names, slots);
      StmtsAccess(st1, stmts, st2, names, slots);
      SameAccess(st2, r, slots);
  }

  lemma {:induction false} IfElseAccess(st: Build, s: Stmt, r: Build, names: set<string>, slots: set<Slot>)
    requires Sound(st) && AccessOnly(st, slots) && SlotsOf(st.scopes, names, slots) && UsesOnly(s, names) && s.IfElse? && Becomes(st, s, r)
    ensures AccessOnly(r, slots)
    decreases s, 0
  {
    var t, f := |st.g.blocks|, |st.g.blocks| + 1;
    var cond, st0, st1, st2, st2', st3 := IfElseBecomes(st, s, r, t, f);
    ForkGrows(st, s.cond, cond, st0, st1, t, f);
    ForkAccess(st, s.cond, cond, st0, st1, t, f, names, slots);
    StmtAccess(st1, s.then_, st2, names, slots);
    StmtGrows(st1, s.then_, st2);
    SameSound(st2, st2');
    SameAccess(st2, st2', slots);
    StmtAccess(st2', s.else_, st3, names, slots);
    EndArmsAccess(st3, st2.cur, r, slots);
  }

  lemma {:induction false} StmtsAccess(st: Build, stmts: seq<Stmt>, r: Build, names: set<string>, slots: set<Slot>)
    requires Sound(st) && AccessOnly(st, slots) && SlotsOf(st.scopes, names, slots) && AllUseOnly(stmts, names) && BecomesAll(st, stmts, r)
    ensures AccessOnly(r, slots)
    decreases stmts
  {
    var st1 := NextBecomes(st, stmts, r);
    if stmts != [] {
      StmtAccess(st, stmts[0], st1, names, slots);
      StmtGrows(st, stmts[0], st1);
      StmtsAccess(st1, stmts[1..], r, names, slots);
    }
  }

  // ----- which slots the entry sets -----

  ghost predicate StoreFirstAt(st: Build, x: Slot, k: nat) {
    var list := ListOf(st.code.body, 0);
    && k < |list| && st.code.StoresTo(list[k], x)
    && forall j {:trigger st.code.LoadsFrom(list[j], x)} :: 0 <= j < k ==> !st.code.LoadsFrom(list[j], x)
  }

  /** The entry block stores to `x`, and does not load it before. */
  ghost predicate SetAt(st: Build, x: Slot) {
    exists k: nat {:trigger StoreFirstAt(st, x, k)} :: StoreFirstAt(st, x, k)
  }

  ghost predicate LoadSet(st: Build, j: nat, x: Slot) {
    var list := ListOf(st.code.body, 0);
    j < |list| && st.code.LoadsFrom(list[j], x) ==> SetAt(st, x)
  }

  /** What the entry block has loaded so far it has set. */
  ghost predicate LoadsSet(st: Build) {
    forall j: nat, x {:trigger LoadSet(st, j, x)} :: LoadSet(st, j, x)
  }

  lemma ListKept(st: Build, r: Build, t: set<Block>, j: nat)
    requires Inv(st) && Grows(st, r, t) && j < |ListOf(st.code.body, 0)|
    ensures j < |ListOf(r.code.body, 0)| && ListOf(r.code.body, 0)[j] == ListOf(st.code.body, 0)[j]
    ensures var id := ListOf(st.code.body, 0)[j];
      && (forall x :: r.code.LoadsFrom(id, x) <==> st.code.LoadsFrom(id, x))
      && (forall x :: r.code.StoresTo(id, x) <==> st.code.StoresTo(id, x))
  {
    var id := ListOf(st.code.body, 0)[j];
    assert st.code.PlaceOk(st.pos, 0, j) && GrowsAt(st, r, t, 0) && ThereAt(st, 0) && ThereAt(st, st.cur);
    assert IdAt(st, id) && GrowsId(st, r, id);
  }

  /** What is set stays so. */
  lemma StaysSet(st: Build, r: Build, t: set<Block>, x: Slot)
    requires Inv(st) && Grows(st, r, t) && SetAt(st, x)
    ensures SetAt(r, x)
  {
    var k: nat :| StoreFirstAt(st, x, k);
    ListKept(st, r, t, k);
    forall j | 0 <= j < k ensures !r.code.LoadsFrom(ListOf(r.code.body, 0)[j], x) { ListKept(st, r, t, j); }
    assert StoreFirstAt(r, x, k);
  }

  /** One more instruction of the entry block. */
  lemma EmitSets(st: Build, kind: Kind, ops: seq<Value>, r: Build)
    requires Inv(st) && st.cur == 0 && LoadsSet(st) && kind != Phi && r == st.Emit(kind, ops)
    requires kind == Load && |ops| == 1 && ops[0].Addr? ==> SetAt(st, ops[0].x)
    ensures LoadsSet(r)
    ensures kind == Store && |ops| == 2 && ops[1].Addr? ==> SetAt(r, ops[1].x)
  {
    EmitSound(st, kind, ops);
    var n, list := st.Here(), ListOf(r.code.body, 0);
    assert ThereAt(st, 0) && |list| == n + 1 && list[n] == Instr(st.ids);
    forall j: nat, x ensures LoadSet(r, j, x) {
      if j < n {
        ListKept(st, r, {0}, j);
        assert LoadSet(st, j, x);
        if SetAt(st, x) { StaysSet(st, r, {0}, x); }
      } else if j == n && r.code.LoadsFrom(list[n], x) {
        StaysSet(st, r, {0}, x);
      }
    }
    if kind == Store && |ops| == 2 && ops[1].Addr? {
      StoreSets(st, kind, ops, r, ops[1].x);
    }
  }

  lemma StoreSets(st: Build, kind: Kind, ops: seq<Value>, r: Build, x: Slot)
    requires Inv(st) && st.cur == 0 && LoadsSet(st) && r == st.Emit(kind, ops) && Grows(st, r, {0})
    requires kind == Store && |ops| == 2 && ops[1] == Addr(x)
    ensures SetAt(r, x)
  {
    if SetAt(st, x) {
      StaysSet(st, r, {0}, x);
    } else {
      var n, list := st.Here(), ListOf(r.code.body, 0);
      assert list[n] == Instr(st.ids) && r.code.StoresTo(list[n], x);
      forall j | 0 <= j < n ensures !r.code.LoadsFrom(list[j], x) {
        ListKept(st, r, {0}, j);
        assert LoadSet(st, j, x);
      }
      assert StoreFirstAt(r, x, n);
    }
  }

  ghost predicate NameSet(st: Build, scopes: Scopes<Slot>, n: string) {
    Declared(scopes, n) && SetAt(st, Find(scopes, n))
  }

  ghost predicate NamesSet(st: Build, scopes: Scopes<Slot>, names: set<string>) {
    forall n {:trigger NameSet(st, scopes, n)} :: n in names ==> NameSet(st, scopes, n)
  }

  lemma NamesStaySet(st: Build, r: Build, t: set<Block>, scopes: Scopes<Slot>, names: set<string>)
    requires Inv(st) && Grows(st, r, t) && NamesSet(st, scopes, names)
    ensures NamesSet(r, scopes, names)
  {
    forall n | n in names ensures NameSet(r, scopes, n) {
      assert NameSet(st, scopes, n);
      StaysSet(st, r, t, Find(scopes, n));
    }
  }

  /** In the entry: what may be read is set, and what is written is set after. */
  ghost predicate Setting(st: Build, st': Build, writes: set<string>) {
    LoadsSet(st') && NamesSet(st', st.scopes, writes)
  }

  ghost predicate AllDeclared(scopes: Scopes<Slot>, names: set<string>) {
    forall n {:trigger Declared(scopes, n)} :: n in names ==> Declared(scopes, n)
  }

  lemma {:induction false} ExprSets(st: Build, e: Expr)
    requires Inv(st) && st.cur == 0 && LoadsSet(st) && NamesSet(st, st.scopes, Reads(e)) && AllDeclared(st.scopes, Writes(e))
    ensures Setting(st, LowerExpr(st, e).st, Writes(e))
    decreases e, 1
  {
    match e
    case Num(_) =>
    case Var(name) =>
      assert NameSet(st, st.scopes, name);
      var ops := [Addr(Find(st.scopes, name))];
      EmitSets(st, Load, ops, st.Emit(Load, ops));
    case Binary(op, l, r) => OperationSets(st, e, l, r, op);
    case Compare(op, l, r) =>
      OperationSets(st, e, l, r, op);
      OperationKeeps(st, e, l, r, op);
      TwoGrow(st, e, l, r);
      var two := LowerTwo(st, e, l, r);
      var st1, ops := two.st.Emit(Exec(op), two.vs), [two.st.Next()];
      PlainSets(st, st1, Exec(ZEXT), ops, Writes(l) + Writes(r));
    case Assign(name, v) => AssignSets(st, e, name, v);
    case Call(callee, args) =>
      ArgsSet(st, args);
      ArgsKeep(st, args);
      ArgsGrow(st, args);
      var all := LowerArgs(st, args);
      PlainSets(st, all.st, Exec(CALL), [Global(callee)] + all.vs, WritesAll(args));
  }

  lemma PlainSets(a: Build, st: Build, kind: Kind, ops: seq<Value>, writes: set<string>)
    requires Inv(st) && st.cur == 0 && Setting(a, st, writes) && kind.Exec?
    ensures Setting(a, st.Emit(kind, ops), writes)
  {
    EmitSets(st, kind, ops, st.Emit(kind, ops));
    EmitSound(st, kind, ops);
    NamesStaySet(st, st.Emit(kind, ops), {0}, a.scopes, writes);
  }

  lemma {:induction false} AssignSets(st: Build, e: Expr, name: string, v: Expr)
    requires Inv(st) && st.cur == 0 && LoadsSet(st) && e == Assign(name, v)
    requires NamesSet(st, st.scopes, Reads(v)) && AllDeclared(st.scopes, {name} + Writes(v))
    ensures Setting(st, LowerExpr(st, e).st, {name} + Writes(v))
    decreases v, 2
  {
    ExprSets(st, v);
    ExprKeeps(st, v);
    ExprGrows(st, v);
    var res, ops := LowerExpr(st, v), [LowerExpr(st, v).v, Addr(Find(st.scopes, name))];
    assert Declared(st.scopes, name);
    var r := res.st.Emit(Store, ops);
    EmitSets(res.st, Store, ops, r);
    EmitSound(res.st, Store, ops);
    NamesStaySet(res.st, r, {0}, st.scopes, Writes(v));
    forall n | n in {name} + Writes(v) ensures NameSet(r, st.scopes, n) { }
  }

  lemma {:induction false} OperationSets(st: Build, e: Expr, l: Expr, r: Expr, op: Op)
    requires Inv(st) && st.cur == 0 && LoadsSet(st) && l < e && r < e
    requires NamesSet(st, st.scopes, Reads(l) + Reads(r)) && AllDeclared(st.scopes, Writes(l) + Writes(r))
    ensures var two := LowerTwo(st, e, l, r); Setting(st, two.st.Emit(Exec(op), two.vs), Writes(l) + Writes(r))
    decreases e, 0
  {
    var lst, two := LowerExpr(st, l).st, LowerTwo(st, e, l, r);
    ReadPart(st, Reads(l) + Reads(r), Reads(l));
    ReadPart(st, Reads(l) + Reads(r), Reads(r));
    ExprSets(st, l);
    ExprKeeps(st, l);
    ExprGrows(st, l);
    NamesStaySet(st, lst, {0}, st.scopes, Reads(r));
    ExprSets(lst, r);
    ExprKeeps(lst, r);
    ExprGrows(lst, r);
    NamesStaySet(lst, two.st, {0}, st.scopes, Writes(l));
    BothSet(two.st, st.scopes, Writes(l), Writes(r));
    PlainSets(st, two.st, Exec(op), two.vs, Writes(l) + Writes(r));
  }

  lemma ReadPart(st: Build, all: set<string>, part: set<string>)
    requires NamesSet(st, st.scopes, all) && part <= all
    ensures NamesSet(st, st.scopes, part)
  {
    forall n | n in part ensures NameSet(st, st.scopes, n) { }
  }

  lemma BothSet(st: Build, scopes: Scopes<Slot>, a: set<string>, b: set<string>)
    requires NamesSet(st, scopes, a) && NamesSet(st, scopes, b)
    ensures NamesSet(st, scopes, a + b)
  {
    forall n | n in a + b ensures NameSet(st, scopes, n) { }
  }

  lemma {:induction false} ArgsSet(st: Build, es: seq<Expr>)
    requires Inv(st) && st.cur == 0 && LoadsSet(st) && NamesSet(st, st.scopes, ReadsAll(es)) && AllDeclared(st.scopes, WritesAll(es))
    ensures Setting(st, LowerArgs(st, es).st, WritesAll(es))
    decreases es
  {
    if es != [] {
      var es', e := es[..|es| - 1], es[|es| - 1];
      var init := LowerArgs(st, es').st;
      var last := LowerExpr(init, e).st;
      ReadPart(st, ReadsAll(es), ReadsAll(es'));
      ReadPart(st, ReadsAll(es), Reads(e));
      ArgsSet(st, es');
      ArgsKeep(st, es');
      ArgsGrow(st, es');
      NamesStaySet(st, init, {0}, st.scopes, Reads(e));
      ExprSets(init, e);
      ExprKeeps(init, e);
      ExprGrows(init, e);
      NamesStaySet(init, last, {0}, st.scopes, WritesAll(es'));
      BothSet(last, st.scopes, WritesAll(es'), Writes(e));
    }
  }

  /** Once the first statements have been lowered, every variable is set. */
  lemma {:induction false} LeadSets(st: Build, stmts: seq<Stmt>, r: Build, names: set<string>, todo: set<string>)
    requires WellBuilt(st) && st.cur == 0 && LoadsSet(st) && BecomesAll(st, stmts, r) && AllUseOnly(stmts, names) && SetsAll(stmts, todo)
    requires AllDeclared(st.scopes, names) && NamesSet(st, st.scopes, names - todo)
    ensures NamesSet(r, st.scopes, names)
    decreases stmts
  {
    StmtsGrow(st, stmts, r);
    if todo == {} {
      ReadPart(st, names - todo, names);
      NamesStaySet(st, r, {0}, st.scopes, names);
    } else {
      var st1 := NextBecomes(st, stmts, r);
      var e := stmts[0].e;
      SimpleBecomes(st, stmts[0], st1);
      assert UsesOnly(stmts[0], names);
      StmtKeeps(st, stmts[0], st1);
      ExprGrows(st, e);
      ReadPart(st, names - todo, Reads(e));
      ExprSets(st, e);
      NamesStaySet(st, st1, {0}, st.scopes, names - todo);
      BothSet(st1, st.scopes, names - todo, Writes(e));
      forall n | n in names - (todo - Writes(e)) ensures NameSet(st1, st1.scopes, n) { assert NameSet(st1, st.scopes, n); }
      LeadSets(st1, stmts[1..], r, names, todo - Writes(e));
    }
  }

  // ----- functions -----

  /** The slots below `n` are those of the parameters: the entry has set them. */
  ghost predicate BelowSet(st: Build, n: nat, x: Slot) {
    x < n ==> SetAt(st, x)
  }

  ghost function UpTo(n: nat): (slots: set<Slot>)
    ensures forall x: Slot {:trigger x in slots} :: x in slots <==> x < n
  {
    if n == 0 then {} else UpTo(n - 1) + {n - 1}
  }

  ghost predicate ParamScope(st: Build, params: seq<string>) {
    |st.scopes| == 1 && forall name :: (name in st.scopes[0] <==> name in params) && (name in st.scopes[0] ==> st.scopes[0][name] < st.slots)
  }

  lemma {:induction false} ParamsSet(params: seq<string>, r: Build)
    requires r == LowerParams(Empty(), params)
    ensures Inv(r) && r.cur == 0 && LoadsSet(r) && AccessOnly(r, UpTo(r.slots)) && ParamScope(r, params)
    ensures forall x {:trigger BelowSet(r, r.slots, x)} :: BelowSet(r, r.slots, x)
  {
    if params == [] {
      NoParamsSet();
    } else {
      var n := |params| - 1;
      var before, name := params[..n], params[n];
      var st := LowerParams(Empty(), before);
      ParamsSet(before, st);
      OneParam(Empty(), params, before, name, n, st, r);
      ParamSet(st, n, before, name, r);
      assert params == before + [name];
    }
  }

  lemma NoParamsSet()
    ensures var r := Empty();
      && Inv(r) && r.cur == 0 && LoadsSet(r) && AccessOnly(r, UpTo(r.slots)) && ParamScope(r, [])
      && forall x {:trigger BelowSet(r, r.slots, x)} :: BelowSet(r, r.slots, x)
  {
    var r := Empty();
    EmptyOk();
    forall id ensures AccessAt(r, UpTo(r.slots), id) { }
  }

  lemma OneParam(st0: Build, params: seq<string>, before: seq<string>, name: string, n: nat, st: Build, r: Build)
    requires params != [] && n == |params| - 1 && before == params[..n] && name == params[n]
    requires st == LowerParams(st0, before) && r == LowerParams(st0, params)
    ensures var st2 := st.Emit(Alloca(st.slots, true), []).Emit(Store, [Arg(n), Addr(st.slots)]);
            r == st2.(slots := st.slots + 1, scopes := Push(st.scopes, name, st.slots))
  {
  }

  lemma ParamSet(st: Build, n: nat, before: seq<string>, name: string, r: Build)
    requires Inv(st) && st.cur == 0 && LoadsSet(st) && AccessOnly(st, UpTo(st.slots)) && ParamScope(st, before)
    requires forall x {:trigger BelowSet(st, st.slots, x)} :: BelowSet(st, st.slots, x)
    requires var st2 := st.Emit(Alloca(st.slots, true), []).Emit(Store, [Arg(n), Addr(st.slots)]);
             r == st2.(slots := st.slots + 1, scopes := Push(st.scopes, name, st.slots))
    ensures Inv(r) && r.cur == 0 && LoadsSet(r) && AccessOnly(r, UpTo(r.slots)) && ParamScope(r, before + [name])
    ensures forall x {:trigger BelowSet(r, r.slots, x)} :: BelowSet(r, r.slots, x)
  {
    var ops := [Arg(n), Addr(st.slots)];
    var st1 := st.Emit(Alloca(st.slots, true), []);
    var st2 := st1.Emit(Store, ops);
    PlainKeeps(st, Alloca(st.slots, true), []);
    PlainKeeps(st1, Store, ops);
    EmitSets(st, Alloca(st.slots, true), [], st1);
    EmitSets(st1, Store, ops, st2);
    SameKeeps(st2, r);
    SameSet(st2, r);
    forall x: Slot ensures BelowSet(r, r.slots, x) {
      assert BelowSet(st, st.slots, x);
      if x < st.slots { StaysSet(st, st1, {0}, x); StaysSet(st1, st2, {0}, x); }
      SameSets(st2, r, x);
    }
    ParamAccess(st, ops, st1, st2, r);
  }

  lemma ParamAccess(st: Build, ops: seq<Value>, st1: Build, st2: Build, r: Build)
    requires AccessOnly(st, UpTo(st.slots)) && st1 == st.Emit(Alloca(st.slots, true), []) && st2 == st1.Emit(Store, ops)
    requires |ops| == 2 && ops[1] == Addr(st.slots) && r.code == st2.code && r.slots == st.slots + 1
    ensures AccessOnly(r, UpTo(r.slots))
  {
    forall id ensures AccessAt(st, UpTo(r.slots), id) { assert AccessAt(st, UpTo(st.slots), id); }
    EmitAccess(st, Alloca(st.slots, true), [], UpTo(r.slots));
    EmitAccess(st1, Store, ops, UpTo(r.slots));
    SameAccess(st2, r, UpTo(r.slots));
  }

  lemma SameSets(st: Build, r: Build, x: Slot)
    requires r.code == st.code
    ensures SetAt(r, x) <==> SetAt(st, x)
  {
    forall k: nat ensures StoreFirstAt(r, x, k) <==> StoreFirstAt(st, x, k) { }
  }

  lemma SameSet(st: Build, r: Build)
    requires r.code == st.code && LoadsSet(st)
    ensures LoadsSet(r)
  {
    forall j: nat, x ensures LoadSet(r, j, x) {
      assert LoadSet(st, j, x);
      SameSets(st, r, x);
    }
  }

  /** Declaring variables loads and stores nothing. */
  lemma {:induction false} LocalsSet(st: Build, names: seq<string>, slots: set<Slot>)
    requires Inv(st) && st.cur == 0 && LoadsSet(st) && AccessOnly(st, slots) && st.scopes != []
    ensures var r := DeclareLocals(st, names);
      && Inv(r) && r.cur == 0 && LoadsSet(r) && AccessOnly(r, slots) && Grows(st, r, {0}) && |r.scopes| == |st.scopes|
      && r.scopes[..|r.scopes| - 1] == st.scopes[..|st.scopes| - 1]
      && forall n :: n in r.scopes[|r.scopes| - 1] <==> n in st.scopes[|st.scopes| - 1] || n in names
  {
    LocalsGrow(st, names);
    LocalsKeep(st, names);
    if names != [] {
      var n := |names| - 1;
      var st1, r := DeclareLocals(st, names[..n]), DeclareLocals(st, names);
      LocalsSet(st, names[..n], slots);
      var st2 := st1.Emit(Alloca(st1.slots, true), []);
      EmitSets(st1, Alloca(st1.slots, true), [], st2);
      EmitAccess(st1, Alloca(st1.slots, true), [], slots);
      SameSet(st2, r);
      SameAccess(st2, r, slots);
      assert names == names[..n] + [names[n]];
    }
  }

  /** The names of a function at its first statement: each is declared, and those
      that are not locals have been set. */
  lemma NamesAtStart(st0: Build, params: seq<string>, decls: seq<string>, st1: Build)
    requires ParamScope(st0, params) && |st1.scopes| == 2 && st1.scopes[..1] == st0.scopes && Inv(st0) && Grows(st0, st1, {0})
    requires forall n :: n in st1.scopes[1] <==> n in decls
    requires forall x {:trigger BelowSet(st0, st0.slots, x)} :: BelowSet(st0, st0.slots, x)
    ensures AllDeclared(st1.scopes, NamesOf(params) + NamesOf(decls))
    ensures NamesSet(st1, st1.scopes, NamesOf(params) + NamesOf(decls) - NamesOf(decls))
  {
    var names := NamesOf(params) + NamesOf(decls);
    assert st1.scopes[0] == st0.scopes[0] && st1.scopes[..1][..0] == [];
    forall n | n in names ensures Declared(st1.scopes, n) { }
    forall n | n in names - NamesOf(decls) ensures NameSet(st1, st1.scopes, n) {
      var x := st0.scopes[0][n];
      assert Level(st1.scopes, n) == 0 && Find(st1.scopes, n) == x && BelowSet(st0, st0.slots, x);
      StaysSet(st0, st1, {0}, x);
    }
  }

  ghost function SlotsFor(scopes: Scopes<Slot>, names: set<string>): set<Slot> {
    set n | n in names && Declared(scopes, n) :: Find(scopes, n)
  }

  /** A function that sets its variables first: whatever slot it accesses, the
      entry stores to it first. */
  lemma SetsFirstLowered(f: Function, r: Build) returns (slots: set<Slot>)
    requires SetsFirst(f) && r == LowerFunction(f)
    ensures AccessOnly(r, slots) && forall x {:trigger SetAt(r, x)} :: x in slots ==> SetAt(r, x)
  {
    var names := NamesOf(f.params) + NamesOf(f.decls);
    var st0, st := FunctionStates(f, r);
    ParamsSet(f.params, st0);
    BeginKept(f.params, st0);
    var s, st1 := Compound(f.decls, f.stmts), OpenLocals(st0, f.decls);
    var st2 := CompoundBecomes(st0, s, st, st1);
    slots := UpTo(st0.slots) + SlotsFor(st1.scopes, names);
    StartSet(f, st0, st1, slots);
    LocalsKept(st0, f.decls, st1);
    NamesAtStart(st0, f.params, f.decls, st1);
    StartSlots(st1.scopes, names, slots);
    LeadSets(st1, f.stmts, st2, names, NamesOf(f.decls));
    StmtsAccess(st1, f.stmts, st2, names, slots);
    StmtsKeep(st1, f.stmts, st2);
    StmtsGrow(st1, f.stmts, st2);
    SameAccess(st2, st, slots);
    if !Ended(st) { EmitAccess(st, Ret, [Const(0)], slots); }
    SameKeeps(st2, st);
    forall x | x in slots ensures SetAt(r, x) {
      SlotSet(st0, st1, st2, st, r, names, x);
    }
  }

  lemma StartSet(f: Function, st0: Build, st1: Build, slots: set<Slot>)
    requires Inv(st0) && st0.cur == 0 && LoadsSet(st0) && AccessOnly(st0, UpTo(st0.slots)) && |st0.scopes| == 1
    requires st1 == OpenLocals(st0, f.decls) && UpTo(st0.slots) <= slots
    ensures Inv(st1) && st1.cur == 0 && LoadsSet(st1) && AccessOnly(st1, slots) && Grows(st0, st1, {0}) && |st1.scopes| == 2
    ensures st1.scopes[..1] == st0.scopes && forall n :: n in st1.scopes[1] <==> n in f.decls
  {
    var st := st0.(scopes := st0.scopes + [map[]]);
    forall id ensures AccessAt(st, slots, id) { assert AccessAt(st0, UpTo(st0.slots), id); }
    SameKeeps(st0, st);
    SameSound(st0, st);
    SameSet(st0, st);
    LocalsSet(st, f.decls, slots);
    WidenGrows(st0, st, {0});
    GrowsTrans(st0, st, st1, {0}, {0});
    assert st.scopes[..1] == st0.scopes;
  }

  lemma StartSlots(scopes: Scopes<Slot>, names: set<string>, slots: set<Slot>)
    requires AllDeclared(scopes, names) && SlotsFor(scopes, names) <= slots
    ensures SlotsOf(scopes, names, slots)
  {
    forall n | n in names ensures SlotOf(scopes, slots, n) {
      assert Find(scopes, n) in SlotsFor(scopes, names);
    }
  }

  lemma SlotSet(st0: Build, st1: Build, st2: Build, st: Build, r: Build, names: set<string>, x: Slot)
    requires Inv(st0) && Inv(st2) && Grows(st0, st1, {0}) && Grows(st1, st2, {0}) && st.code == st2.code && Inv(st) && Grows(st, r, {st.cur})
    requires forall x {:trigger BelowSet(st0, st0.slots, x)} :: BelowSet(st0, st0.slots, x)
    requires NamesSet(st2, st1.scopes, names) && x in UpTo(st0.slots) + SlotsFor(st1.scopes, names)
    ensures SetAt(r, x)
  {
    if x in UpTo(st0.slots) {
      assert BelowSet(st0, st0.slots, x);
      GrowsTrans(st0, st1, st2, {0}, {0});
      StaysSet(st0, st2, {0}, x);
    } else {
      var n :| n in names && Declared(st1.scopes, n) && Find(st1.scopes, n) == x;
      assert NameSet(st2, st1.scopes, n);
    }
    SameSets(st2, st, x);
    StaysSet(st, r, {st.cur}, x);
  }

  /** So the pass goes through on it, and leaves no load and no incomplete phi. */
  lemma SetsFirstIsSetFirst(f: Function, s: Ssa)
    requires SetsFirst(f) && s.code == LowerFunction(f).code && s.g.entry == 0
    ensures SetFirst(s)
  {
    var r := LowerFunction(f);
    var slots := SetsFirstLowered(f, r);
    FunctionLowered(f, r);
    assert ThereAt(r, 0) && ThereAt(r, r.cur);
    forall x | Accessed(s, x) ensures StoredFirst(s, x) {
      var id :| s.code.LoadsFrom(id, x) || s.code.StoresTo(id, x);
      assert AccessAt(r, slots, id) && x in slots && SetAt(r, x);
      var k: nat :| StoreFirstAt(r, x, k);
      assert s.code.StoresTo(s.code.body[0][k], x);
    }
  }

  /** The code of every function uses addresses for loads and stores only. */
  lemma LoweredIsPlain(f: Function)
    ensures PlainCode(LowerFunction(f).code)
  {
    var r := LowerFunction(f);
    FunctionLowered(f, r);
    forall b, k: nat, x ensures AddressPlain(r.code, b, k, x) {
      assert r.code.PlaceOk(r.pos, b, k);
      if b in r.code.body && k < |r.code.body[b]| { assert InstrAt(r, r.code.body[b][k]); }
    }
  }
}
