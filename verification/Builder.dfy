/** The visitor that lowers a function: it keeps an insert point and the result
    of the last expression, and appends instructions to blocks in place. */
module Builders {
  import opened Graphs
  import opened IR
  import opened SsaForm
  import opened Sources
  import opened Lowerings
  import opened LoweringGrowth

  class Builder {
    const f: Func
    var g: Cfg
    var cur: Block
    var ids: nat
    var slots: nat
    var scopes: Scopes<Slot>
    var res: Value
    var needAsAddress: bool
    ghost var pos: map<Id, Place>

    constructor ()
      ensures fresh(f) && View() == Empty() && !needAsAddress
    {
      f := new Func(0);
      g := Cfg(0, [0], map[0 := []], map[0 := []]);
      cur, ids, slots, scopes := 0, 0, 0, [map[]];
      res, needAsAddress := Const(0), false;
      pos := map[];
    }

    ghost function View(): Build
      reads this, f
    {
      Build(g, Code(f.body, f.kind, f.ops), f.uses, pos, cur, ids, slots, scopes)
    }

    // ----- blocks and instructions -----

    method NewBlock() returns (b: Block)
      modifies this, f
      ensures View() == old(View()).NewBlock() && b == |old(g.blocks)|
      ensures res == old(res) && needAsAddress == old(needAsAddress)
    {
      b := |g.blocks|;
      g := Cfg(g.entry, g.blocks + [b], g.succs[b := []], g.preds[b := []]);
      f.body := f.body[b := []];
    }

    method SetInsertPoint(b: Block)
      modifies this`cur
      ensures View() == old(View()).At(b)
    {
      cur := b;
    }

    /** The operands are set one by one, each with its use. */
    method SetOperands(id: Id, ops: seq<Value>)
      modifies f`ops, f`uses
      ensures f.ops == old(f.ops)[id := ops] && f.uses == AddUses(old(f.uses), id, ops)
    {
      f.ops := f.ops[id := seq(|ops|, i => Const(0))];
      var i := 0;
      while i < |ops|
        invariant 0 <= i <= |ops| && id in f.ops
        invariant f.ops == old(f.ops)[id := f.ops[id]] && |f.ops[id]| == |ops| && f.ops[id][..i] == ops[..i]
        invariant f.uses == AddUses(old(f.uses), id, ops[..i])
      {
        ghost var before := f.ops[id];
        f.SetOperand(id, i, ops[i]);
        assert f.ops[id] == before[i := ops[i]];
        assert ops[..i + 1][..i] == ops[..i] && f.ops[id][..i + 1] == before[..i] + [ops[i]];
        i := i + 1;
      }
      assert f.ops[id] == ops && ops[..i] == ops;
    }

    method CreateInstr(kind: Kind, ops: seq<Value>)
      modifies this`ids, this`pos, this`res, f
      ensures View() == old(View()).Emit(kind, ops) && res == old(View()).Next()
    {
      var id := Instr(ids);
      f.kind := f.kind[id := kind];
      SetOperands(id, ops);
      pos := pos[id := Place(cur, |ListOf(f.body, cur)|)];
      f.body := f.body[cur := ListOf(f.body, cur) + [id]];
      ids := ids + 1;
      res := Ref(id);
    }

    method AddEdge(b: Block)
      modifies this`g
      ensures View() == old(View()).AddEdge(b)
    {
      g := g.(preds := g.preds[b := ListOf(g.preds, b) + [cur]], succs := g.succs[cur := ListOf(g.succs, cur) + [b]]);
    }

    method CreateBr(b: Block)
      modifies this`g, this`ids, this`pos, this`res, f
      ensures View() == old(View()).Br(b)
    {
      AddEdge(b);
      CreateInstr(Kind.Br, [Label(b)]);
    }

    method CreateCondBr(v: Value, t: Block, e: Block)
      modifies this`g, this`ids, this`pos, this`res, f
      ensures View() == old(View()).CondBr(v, t, e)
    {
      AddEdge(e);
      AddEdge(t);
      CreateInstr(Kind.CondBr, [v, Label(t), Label(e)]);
    }

    /** Whether the block under construction ends in a terminator. */
    method HasTerminator() returns (r: bool)
      ensures r == Ended(View())
    {
      var list := ListOf(f.body, cur);
      r := list != [] && list[|list| - 1] in f.kind && Ends(f.kind[list[|list| - 1]]);
    }

    // ----- expressions -----

    /** The variable's address where that is asked for, and its value otherwise. */
    method VisitVar(name: string)
      modifies this`ids, this`pos, this`res, this`needAsAddress, f
      ensures !needAsAddress
      ensures var x := if Declared(scopes, name) then Find(scopes, name) else 0;
        if old(needAsAddress) then res == Addr(x) && View() == old(View())
        else View() == LowerExpr(old(View()), Var(name)).st && res == LowerExpr(old(View()), Var(name)).v
    {
      var x := if Declared(scopes, name) then Find(scopes, name) else 0;
      if needAsAddress {
        res := Addr(x);
      } else {
        CreateInstr(Load, [Addr(x)]);
      }
      needAsAddress := false;
    }

    method VisitExpr(e: Expr)
      requires !needAsAddress
      modifies this`ids, this`pos, this`res, this`needAsAddress, f
      ensures View() == LowerExpr(old(View()), e).st && res == LowerExpr(old(View()), e).v && !needAsAddress
      decreases e, 1
    {
      match e
      case Num(n) => res := Const(n);
      case Var(name) => VisitVar(name);
      case Binary(op, l, r) =>
        var vs := VisitTwo(e, l, r);
        CreateInstr(Exec(op), vs);
      case Compare(op, l, r) =>
        var vs := VisitTwo(e, l, r);
        CreateInstr(Exec(op), vs);
        CreateInstr(Exec(ZEXT), [res]);
      case Assign(name, v) => VisitAssign(name, v);
      case Call(callee, args) => VisitCall(callee, args);
    }

    method VisitTwo(ghost e: Expr, l: Expr, r: Expr) returns (vs: seq<Value>)
      requires !needAsAddress && l < e && r < e
      modifies this`ids, this`pos, this`res, this`needAsAddress, f
      ensures View() == LowerTwo(old(View()), e, l, r).st && vs == LowerTwo(old(View()), e, l, r).vs && !needAsAddress
      decreases e, 0
    {
      VisitExpr(l);
      var lres := res;
      VisitExpr(r);
      vs := [lres, res];
    }

    /** The address comes first, then the value; the result stays the value's. */
    method VisitAssign(name: string, v: Expr)
      requires !needAsAddress
      modifies this`ids, this`pos, this`res, this`needAsAddress, f
      ensures View() == LowerExpr(old(View()), Assign(name, v)).st && res == LowerExpr(old(View()), Assign(name, v)).v && !needAsAddress
      decreases v, 2
    {
      ghost var st := View();
      needAsAddress := true;
      VisitVar(name);
      var address := res;
      VisitExpr(v);
      var value := res;
      ghost var st1 := View();
      CreateInstr(Store, [value, address]);
      res := value;
      AssignIs(st, Assign(name, v), Lowered(st1, value), address.x, Lowered(View(), value));
    }

    method VisitCall(callee: nat, args: seq<Expr>)
      requires !needAsAddress
      modifies this`ids, this`pos, this`res, this`needAsAddress, f
      ensures View() == LowerExpr(old(View()), Call(callee, args)).st && res == LowerExpr(old(View()), Call(callee, args)).v
      ensures !needAsAddress
      decreases args
    {
      var vs := [];
      var i := 0;
      while i < |args|
        invariant 0 <= i <= |args| && !needAsAddress
        invariant LowerArgs(old(View()), args[..i]) == LoweredAll(View(), vs)
      {
        VisitExpr(args[i]);
        assert args[..i + 1][..i] == args[..i];
        vs := vs + [res];
        i := i + 1;
      }
      assert args[..i] == args;
      CreateInstr(Exec(CALL), [Global(callee)] + vs);
    }

    method VisitCond(c: Expr)
      requires !needAsAddress
      modifies this`ids, this`pos, this`res, this`needAsAddress, f
      ensures View() == LowerCond(old(View()), c).st && res == LowerCond(old(View()), c).v && !needAsAddress
    {
      VisitExpr(c);
      CreateInstr(Exec(GT), [res, Const(0)]);
    }

    // ----- statements -----

    method VisitStmt(s: Stmt)
      requires !needAsAddress
      modifies this, f
      ensures View() == LowerStmt(old(View()), s) && !needAsAddress
      decreases s, 1
    {
      match s
      case Nothing =>
      case Do(e) => VisitExpr(e);
      case If(_, _) => VisitIf(s);
      case IfElse(_, _, _) => VisitIfElse(s);
      case While(_, _) => VisitWhile(s);
      case Compound(_, _) => VisitCompound(s);
    }

    /** The condition of an `if`; instructions go on in the block for its first
        arm. */
    method OpenBranches(c: Expr) returns (trueBB: Block, otherBB: Block)
      requires !needAsAddress
      modifies this, f
      ensures View() == Fork(old(View()), c) && !needAsAddress
      ensures trueBB == |old(g.blocks)| && otherBB == |old(g.blocks)| + 1
    {
      ghost var st := View();
      VisitCond(c);
      ghost var cond := View();
      var v := res;
      trueBB, otherBB := NewBranches();
      CreateCondBr(v, trueBB, otherBB);
      SetInsertPoint(trueBB);
      ForkIs(st, c, cond, v, View());
    }

    method NewBranches() returns (trueBB: Block, otherBB: Block)
      modifies this, f
      ensures View() == NewBlocks(old(View()), 2) && res == old(res) && needAsAddress == old(needAsAddress)
      ensures trueBB == |old(g.blocks)| && otherBB == |old(g.blocks)| + 1 && |g.blocks| == otherBB + 1
    {
      ghost var st := View();
      trueBB := NewBlock();
      otherBB := NewBlock();
      TwoAreNew(st, View());
    }

    /** The end of an arm or of a loop body: a jump, unless there is a terminator. */
    method Leave(b: Block, next: Block)
      modifies this, f
      ensures View() == Jump(old(View()), b, next) && needAsAddress == old(needAsAddress)
    {
      var ended := HasTerminator();
      if !ended { CreateBr(b); }
      SetInsertPoint(next);
    }

    /** An arm of an `if`, or the body of a loop. */
    method VisitArm(s: Stmt)
      requires !needAsAddress
      modifies this, f
      ensures Becomes(old(View()), s, View()) && !needAsAddress
      decreases s, 2
    {
      VisitStmt(s);
    }

    method VisitIf(s: Stmt)
      requires !needAsAddress && s.If?
      modifies this, f
      ensures View() == LowerIf(old(View()), s) && !needAsAddress
      decreases s, 0
    {
      ghost var st := View();
      var trueBB, retBB := OpenBranches(s.cond);
      ghost var st1 := View();
      VisitArm(s.then_);
      ghost var st2 := View();
      Leave(retBB, retBB);
      IfIs(st, s, st1, st2, View());
    }

    method VisitIfElse(s: Stmt)
      requires !needAsAddress && s.IfElse?
      modifies this, f
      ensures View() == LowerIfElse(old(View()), s) && !needAsAddress
      decreases s, 0
    {
      ghost var st := View();
      var trueBB, falseBB := OpenBranches(s.cond);
      ghost var st1 := View();
      VisitArm(s.then_);
      ghost var st2 := View();
      var curTrueBB := cur;
      SetInsertPoint(falseBB);
      VisitArm(s.else_);
      ghost var st3 := View();
      JoinBranches(curTrueBB);
      IfElseIs(st, s, st1, st2, st3, View());
    }

    /** Both tests for a terminator are made where the second arm ended, and that
        is where instructions go on. */
    method JoinBranches(curTrueBB: Block)
      modifies this, f
      ensures View() == EndArms(old(View()), curTrueBB) && needAsAddress == old(needAsAddress)
    {
      var curFalseBB := cur;
      var trueTerm := HasTerminator();
      var falseTerm := HasTerminator();
      var retBB := curFalseBB;
      if !trueTerm || !falseTerm {
        retBB := NewBlock();
        SetInsertPoint(retBB);
      }
      if !trueTerm {
        SetInsertPoint(curTrueBB);
        CreateBr(retBB);
      }
      if !falseTerm {
        SetInsertPoint(curFalseBB);
        CreateBr(retBB);
      }
    }

    /** The blocks of a loop, and the jump to its condition. */
    method OpenLoop() returns (conditionBB: Block, loopBB: Block, retBB: Block)
      modifies this, f
      ensures View() == EnterLoop(old(View())) && needAsAddress == old(needAsAddress)
      ensures conditionBB == |old(g.blocks)| && loopBB == conditionBB + 1 && retBB == conditionBB + 2
    {
      conditionBB, loopBB := NewBranches();
      retBB := NewBlock();
      CreateBr(conditionBB);
      SetInsertPoint(conditionBB);
    }

    method TestCondition(c: Expr, loopBB: Block, retBB: Block)
      requires !needAsAddress && loopBB == cur + 1 && retBB == cur + 2
      modifies this, f
      ensures View() == TestLoop(old(View()), c) && !needAsAddress
    {
      ghost var st := View();
      VisitCond(c);
      ghost var cond := View();
      var v := res;
      CreateCondBr(v, loopBB, retBB);
      SetInsertPoint(loopBB);
      TestIs(st, c, cond, v, View());
    }

    method VisitWhile(s: Stmt)
      requires !needAsAddress && s.While?
      modifies this, f
      ensures View() == LowerWhile(old(View()), s) && !needAsAddress
      decreases s, 0
    {
      ghost var st := View();
      var conditionBB, loopBB, retBB := OpenLoop();
      TestCondition(s.cond, loopBB, retBB);
      ghost var st2 := View();
      VisitArm(s.body);
      ghost var st3 := View();
      Leave(conditionBB, retBB);
      WhileIs(st, s, st2, st3, View());
    }

    method VisitVarDeclaration(name: string)
      modifies this`ids, this`pos, this`res, this`slots, this`scopes, f
      ensures View() == old(View()).Declare(name) && needAsAddress == old(needAsAddress)
    {
      CreateInstr(Alloca(slots, true), []);
      scopes := Push(scopes, name, slots);
      slots := slots + 1;
    }

    method VisitCompound(s: Stmt)
      requires !needAsAddress && s.Compound?
      modifies this, f
      ensures View() == LowerCompound(old(View()), s) && !needAsAddress
      decreases s, 0
    {
      scopes := scopes + [map[]];
      ghost var st0 := View();
      var i := 0;
      while i < |s.decls|
        invariant 0 <= i <= |s.decls| && !needAsAddress
        invariant View() == DeclareLocals(st0, s.decls[..i])
      {
        VisitVarDeclaration(s.decls[i]);
        assert s.decls[..i + 1][..i] == s.decls[..i];
        i := i + 1;
      }
      assert s.decls[..i] == s.decls;
      ghost var st1 := View();
      i := 0;
      while i < |s.stmts|
        invariant 0 <= i <= |s.stmts| && !needAsAddress
        invariant LowerAll(View(), s.stmts[i..]) == LowerAll(st1, s.stmts)
      {
        assert s.stmts[i..][1..] == s.stmts[i + 1..];
        VisitStmt(s.stmts[i]);
        i := i + 1;
      }
      scopes := Drop(scopes);
    }

    // ----- functions -----

    method VisitParam(name: string, arg: Value)
      modifies this`ids, this`pos, this`res, this`slots, this`scopes, f
      ensures View() == old(View()).Emit(Alloca(old(slots), true), []).Emit(Store, [arg, Addr(old(slots))])
                          .(slots := old(slots) + 1, scopes := Push(old(scopes), name, old(slots)))
      ensures needAsAddress == old(needAsAddress)
    {
      CreateInstr(Alloca(slots, true), []);
      CreateInstr(Store, [arg, Addr(slots)]);
      scopes := Push(scopes, name, slots);
      slots := slots + 1;
    }

    method VisitParams(params: seq<string>)
      modifies this, f
      ensures View() == LowerParams(old(View()), params) && needAsAddress == old(needAsAddress)
    {
      ghost var st := View();
      var i := 0;
      while i < |params|
        invariant 0 <= i <= |params| && needAsAddress == old(needAsAddress)
        invariant View() == LowerParams(st, params[..i])
      {
        VisitParam(params[i], Arg(i));
        assert params[..i + 1][..i] == params[..i];
        i := i + 1;
      }
      assert params[..i] == params;
    }

    /** A function that has just been begun. */
    method VisitFunction(fn: Function)
      requires View() == Empty() && !needAsAddress
      modifies this, f
      ensures View() == LowerFunction(fn)
    {
      VisitParams(fn.params);
      VisitStmt(Compound(fn.decls, fn.stmts));
      CreateRet();
    }

    /** The return at the end of a function, unless there is a terminator. */
    method CreateRet()
      modifies this, f
      ensures View() == if Ended(old(View())) then old(View()) else old(View()).Emit(Ret, [Const(0)])
    {
      var ended := HasTerminator();
      if !ended { CreateInstr(Ret, [Const(0)]); }
    }
  }

  lemma IfIs(st: Build, s: Stmt, st1: Build, st2: Build, r: Build)
    requires s.If? && st1 == Fork(st, s.cond) && Becomes(st1, s.then_, st2) && r == Jump(st2, |st.g.blocks| + 1, |st.g.blocks| + 1)
    ensures r == LowerIf(st, s)
  {
    assert OneLevel(0);
  }

  lemma IfElseIs(st: Build, s: Stmt, st1: Build, st2: Build, st3: Build, r: Build)
    requires s.IfElse? && st1 == Fork(st, s.cond) && Becomes(st1, s.then_, st2)
    requires Becomes(GoTo(st2, |st.g.blocks| + 1), s.else_, st3) && r == EndArms(st3, st2.cur)
    ensures r == LowerIfElse(st, s)
  {
    assert OneLevel(0);
  }

  lemma WhileIs(st: Build, s: Stmt, st2: Build, st3: Build, r: Build)
    requires s.While? && st2 == TestLoop(EnterLoop(st), s.cond) && Becomes(st2, s.body, st3)
    requires r == Jump(st3, |st.g.blocks|, |st.g.blocks| + 2)
    ensures r == LowerWhile(st, s)
  {
    assert OneLevel(0);
  }

  lemma ForkIs(st: Build, c: Expr, cond: Build, v: Value, r: Build)
    requires Lowered(cond, v) == LowerCond(st, c) && r == Test(NewBlocks(cond, 2), v, |cond.g.blocks|, |cond.g.blocks| + 1)
    ensures r == Fork(st, c) && cond.g == st.g
  {
    CondKeepsGraph(st, c);
  }

  lemma TestIs(st: Build, c: Expr, cond: Build, v: Value, r: Build)
    requires Lowered(cond, v) == LowerCond(st, c) && r == Test(cond, v, st.cur + 1, st.cur + 2)
    ensures r == TestLoop(st, c)
  {
  }

  lemma AssignIs(st: Build, e: Expr, value: Lowered, x: Slot, r: Lowered)
    requires e.Assign? && value == LowerExpr(st, e.e) && x == if Declared(st.scopes, e.name) then Find(st.scopes, e.name) else 0
    requires r == Lowered(value.st.Emit(Store, [value.v, Addr(x)]), value.v)
    ensures LowerExpr(st, e) == r
  {
  }

  lemma TwoAreNew(st: Build, r: Build)
    requires r == st.NewBlock().NewBlock()
    ensures r == NewBlocks(st, 2)
  {
    assert NewBlocks(st, 0) == st && NewBlocks(st, 1) == st.NewBlock();
  }

  // ----- expressions have no branches -----

  lemma ExprKeepsGraph(st: Build, e: Expr)
    ensures LowerExpr(st, e).st.g == st.g && LowerExpr(st, e).st.cur == st.cur
    decreases e, 1
  {
    match e
    case Num(_) =>
    case Var(_) =>
    case Binary(_, l, r) => TwoKeepGraph(st, e, l, r);
    case Compare(_, l, r) => TwoKeepGraph(st, e, l, r);
    case Assign(_, v) => ExprKeepsGraph(st, v);
    case Call(_, args) => ArgsKeepGraph(st, args);
  }

  lemma TwoKeepGraph(st: Build, e: Expr, l: Expr, r: Expr)
    requires l < e && r < e
    ensures LowerTwo(st, e, l, r).st.g == st.g && LowerTwo(st, e, l, r).st.cur == st.cur
    decreases e, 0
  {
    ExprKeepsGraph(st, l);
    ExprKeepsGraph(LowerExpr(st, l).st, r);
  }

  lemma ArgsKeepGraph(st: Build, es: seq<Expr>)
    ensures LowerArgs(st, es).st.g == st.g && LowerArgs(st, es).st.cur == st.cur
    decreases es
  {
    if es != [] {
      ArgsKeepGraph(st, es[..|es| - 1]);
      ExprKeepsGraph(LowerArgs(st, es[..|es| - 1]).st, es[|es| - 1]);
    }
  }

  lemma CondKeepsGraph(st: Build, c: Expr)
    ensures LowerCond(st, c).st.g == st.g
  {
    ExprKeepsGraph(st, c);
  }
}
