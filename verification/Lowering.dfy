/** Lowering of statements to basic blocks, instruction by instruction. */
module Lowerings {
  import opened Graphs
  import opened IR
  import opened SsaForm
  import opened Sources

  /** A function that is being built: its blocks, its instructions with their
      operands and use lists, the block under construction, and the scopes. */
  datatype Build = Build(g: Cfg, code: Code, uses: UseLists, pos: map<Id, Place>,
                         cur: Block, ids: nat, slots: nat, scopes: Scopes<Slot>)
  {
    function NewBlock(): Build {
      var b := |g.blocks|;
      this.(g := Cfg(g.entry, g.blocks + [b], g.succs[b := []], g.preds[b := []]),
            code := code.(body := code.body[b := []]))
    }

    function At(b: Block): Build {
      this.(cur := b)
    }

    /** The place of the next instruction. */
    function Here(): nat {
      |ListOf(code.body, cur)|
    }

    function Emit(kind: Kind, ops: seq<Value>): Build {
      var id := Instr(ids);
      this.(code := Code(code.body[cur := ListOf(code.body, cur) + [id]], code.kind[id := kind], code.ops[id := ops]),
            uses := AddUses(uses, id, ops),
            pos := pos[id := Place(cur, Here())],
            ids := ids + 1)
    }

    /** The value of the next instruction. */
    function Next(): Value {
      Ref(Instr(ids))
    }

    function AddEdge(b: Block): Build {
      this.(g := g.(preds := g.preds[b := ListOf(g.preds, b) + [cur]], succs := g.succs[cur := ListOf(g.succs, cur) + [b]]))
    }

    function Br(b: Block): Build {
      AddEdge(b).Emit(Kind.Br, [Label(b)])
    }

    /** The edge of the false branch enters the successor list first. */
    function CondBr(v: Value, t: Block, f: Block): Build {
      AddEdge(f).AddEdge(t).Emit(Kind.CondBr, [v, Label(t), Label(f)])
    }

    function Declare(name: string): Build {
      Emit(Alloca(slots, true), []).(slots := slots + 1, scopes := Push(scopes, name, slots))
    }
  }

  /** The list that a block has, empty for a block that does not exist. */
  function ListOf<T>(m: map<Block, seq<T>>, b: Block): seq<T> {
    if b in m then m[b] else []
  }

  function AddUses(uses: UseLists, id: Id, ops: seq<Value>): UseLists {
    if ops == [] then uses
    else
      var n := |ops| - 1;
      var before := AddUses(uses, id, ops[..n]);
      before[ops[n] := UsesOf(before, ops[n]) + [Use(id, n)]]
  }

  // ----- expressions -----

  datatype Lowered = Lowered(st: Build, v: Value)

  datatype LoweredAll = LoweredAll(st: Build, vs: seq<Value>)

  function LowerExpr(st: Build, e: Expr): Lowered
    decreases e, 1
  {
    match e
    case Num(n) => Lowered(st, Const(n))
    case Var(name) =>
      var x := if Declared(st.scopes, name) then Find(st.scopes, name) else 0;
      Lowered(st.Emit(Load, [Addr(x)]), st.Next())
    case Binary(op, l, r) =>
      var two := LowerTwo(st, e, l, r);
      Lowered(two.st.Emit(Exec(op), two.vs), two.st.Next())
    case Compare(op, l, r) =>
      var two := LowerTwo(st, e, l, r);
      var st' := two.st.Emit(Exec(op), two.vs);
      Lowered(st'.Emit(Exec(ZEXT), [two.st.Next()]), st'.Next())
    case Assign(name, v) =>
      var x := if Declared(st.scopes, name) then Find(st.scopes, name) else 0;
      var res := LowerExpr(st, v);
      Lowered(res.st.Emit(Store, [res.v, Addr(x)]), res.v)
    case Call(callee, args) =>
      var all := LowerArgs(st, args);
      Lowered(all.st.Emit(Exec(CALL), [Global(callee)] + all.vs), all.st.Next())
  }

  function LowerTwo(st: Build, e: Expr, l: Expr, r: Expr): LoweredAll
    requires l < e && r < e
    decreases e, 0
  {
    var lres := LowerExpr(st, l);
    var rres := LowerExpr(lres.st, r);
    LoweredAll(rres.st, [lres.v, rres.v])
  }

  function LowerArgs(st: Build, es: seq<Expr>): LoweredAll
    decreases es
  {
    if es == [] then LoweredAll(st, [])
    else
      var init := LowerArgs(st, es[..|es| - 1]);
      var last := LowerExpr(init.st, es[|es| - 1]);
      LoweredAll(last.st, init.vs + [last.v])
  }

  // ----- statements -----

  /** The condition, compared with zero. */
  function LowerCond(st: Build, e: Expr): Lowered {
    var res := LowerExpr(st, e);
    Lowered(res.st.Emit(Exec(GT), [res.v, Const(0)]), res.st.Next())
  }

  function DeclareLocals(st: Build, names: seq<string>): Build {
    if names == [] then st
    else DeclareLocals(st, names[..|names| - 1]).Declare(names[|names| - 1])
  }

  /** Creating `n` blocks. */
  function NewBlocks(st: Build, n: nat): Build {
    if n == 0 then st else NewBlocks(st, n - 1).NewBlock()
  }

  predicate Ends(kind: Kind) {
    kind.Br? || kind.CondBr? || kind.Ret?
  }

  /** The block under construction has a terminator: its last instruction is one. */
  predicate Ended(st: Build) {
    var list := ListOf(st.code.body, st.cur);
    list != [] && list[|list| - 1] in st.code.kind && Ends(st.code.kind[list[|list| - 1]])
  }

  /** Leaving the block under construction for `b`, unless it has a terminator,
      and going on in `next`. */
  function Jump(st: Build, b: Block, next: Block): Build {
    (if Ended(st) then st else st.Br(b)).At(next)
  }

  /** Leaving it for `t` or `f`, and going on in `t`. */
  function Test(st: Build, v: Value, t: Block, f: Block): Build {
    st.CondBr(v, t, f).At(t)
  }

  function GoTo(st: Build, b: Block): Build {
    st.At(b)
  }

  /** The condition of an `if`, and the two blocks that it leads to. */
  function Fork(st: Build, c: Expr): Build {
    var cond := LowerCond(st, c);
    Test(NewBlocks(cond.st, 2), cond.v, |st.g.blocks|, |st.g.blocks| + 1)
  }

  /** The jump into a loop: the blocks for its condition, its body and what
      follows it. */
  function EnterLoop(st: Build): Build {
    NewBlocks(st, 3).Br(|st.g.blocks|).At(|st.g.blocks|)
  }

  /** The condition of a loop, which leads to the two blocks after its own. */
  function TestLoop(st: Build, c: Expr): Build {
    var cond := LowerCond(st, c);
    Test(cond.st, cond.v, st.cur + 1, st.cur + 2)
  }

  /** The arms of an `if` with `else`: the first ended in `x`, the second ends
      here. Both jump to a new block, in which nothing goes on: instructions go
      on being added where the second arm ended. If the second arm has a
      terminator, the first is taken to have one as well. */
  function EndArms(st: Build, x: Block): Build {
    if Ended(st) then st
    else
      var n := |st.g.blocks|;
      st.NewBlock().At(x).Br(n).At(st.cur).Br(n)
  }

  function LowerStmt(st: Build, s: Stmt): Build
    decreases s, 1
  {
    match s
    case Nothing => st
    case Do(e) => LowerExpr(st, e).st
    case If(_, _) => LowerIf(st, s)
    case IfElse(_, _, _) => LowerIfElse(st, s)
    case While(_, _) => LowerWhile(st, s)
    case Compound(_, _) => LowerCompound(st, s)
  }

  function LowerIf(st: Build, s: Stmt): Build
    requires s.If?
    decreases s, 0
  {
    Jump(LowerStmt(Fork(st, s.cond), s.then_), |st.g.blocks| + 1, |st.g.blocks| + 1)
  }

  function LowerIfElse(st: Build, s: Stmt): Build
    requires s.IfElse?
    decreases s, 0
  {
    var st1 := LowerStmt(Fork(st, s.cond), s.then_);
    EndArms(LowerStmt(GoTo(st1, |st.g.blocks| + 1), s.else_), st1.cur)
  }

  function LowerWhile(st: Build, s: Stmt): Build
    requires s.While?
    decreases s, 0
  {
    Jump(LowerStmt(TestLoop(EnterLoop(st), s.cond), s.body), |st.g.blocks|, |st.g.blocks| + 2)
  }

  function LowerCompound(st: Build, s: Stmt): Build
    requires s.Compound?
    decreases s, 0
  {
    var st1 := OpenLocals(st, s.decls);
    CloseScope(LowerAll(st1, s.stmts))
  }

  /** A new scope with its variables. */
  function OpenLocals(st: Build, decls: seq<string>): Build {
    DeclareLocals(st.(scopes := st.scopes + [map[]]), decls)
  }

  function CloseScope(st: Build): Build {
    st.(scopes := Drop(st.scopes))
  }

  function LowerAll(st: Build, stmts: seq<Stmt>): Build
    decreases stmts
  {
    if stmts == [] then st else LowerAll(LowerStmt(st, stmts[0]), stmts[1..])
  }

  // ----- functions -----

  /** Each parameter gets a slot that its argument is stored to. */
  function LowerParams(st: Build, params: seq<string>): Build {
    if params == [] then st
    else
      var n := |params| - 1;
      var st' := LowerParams(st, params[..n]);
      var st'' := st'.Emit(Alloca(st'.slots, true), []).Emit(Store, [Arg(n), Addr(st'.slots)]);
      st''.(slots := st'.slots + 1, scopes := Push(st''.scopes, params[n], st'.slots))
  }

  function Empty(): Build {
    Build(Cfg(0, [0], map[0 := []], map[0 := []]), Code(map[0 := []], map[], map[]), map[], map[], 0, 0, 0, [map[]])
  }

  /** A function returns zero at its end, unless its last block has a terminator. */
  function LowerFunction(f: Function): Build {
    var st := LowerStmt(LowerParams(Empty(), f.params), Compound(f.decls, f.stmts));
    if Ended(st) then st else st.Emit(Ret, [Const(0)])
  }
}
