/** Which way lowered conditions lead on a machine that computes with integers. */
module LoweringConds {
  import opened IR
  import opened SsaForm
  import M = Meanings
  import opened Sources
  import opened Integers
  import opened Lowerings
  import opened LoweringGrowth
  import opened LoweringExprs
  import opened LoweringMeaning

  /** The condition has been evaluated to `n`. */
  ghost predicate ValueIs(m: M.Machine, c: Expr, env: Env, trace: seq<M.Event>, n: int) {
    Evaluate(m, c, env, trace).Some? && Evaluate(m, c, env, trace).w == M.Num(n)
  }

  /** From the code before an `if`, the function gets to the block of the first
      arm if the condition is greater than zero, and to the other one otherwise. */
  lemma IfEnters(m: M.Machine, code: Code, st: Build, s: Stmt, r: Build,
                 env: Env, regs: M.Regs, mem: M.Memory, trace: seq<M.Event>, n: int)
    returns (regs': M.Regs, mem': M.Memory, trace': seq<M.Event>)
    requires Computes(m) && Ready(st, env, mem) && (s.If? || s.IfElse?) && ValueIs(m, s.cond, env, trace, n)
    requires Becomes(st, s, r) && Fits(r, code, |st.g.blocks|)
    ensures Goes(m, code, EndOf(st, regs, mem, trace),
                 Conf(if n > 0 then |st.g.blocks| else |st.g.blocks| + 1, 0, regs', mem', trace'), 1)
    ensures Corr(st.scopes, Evaluate(m, s.cond, env, trace).env, mem')
  {
    var t, f, out := |st.g.blocks|, |st.g.blocks| + 1, Evaluate(m, s.cond, env, trace);
    HoldsIffPositive(m, n, out.trace);
    trace' := Holds(m, out.w, out.trace).1;
    if s.If? {
      var cond, st0, st1, st2 := IfBecomes(st, s, r, t, f);
      ForkGrows(st, s.cond, cond, st0, st1, t, f);
      ArmParts(code, st, st1, s.then_, st2, r, f, f);
      regs', mem' := ForkRuns(m, code, st, s.cond, cond, st0, st1, t, f, env, regs, mem, trace);
    } else {
      var cond, st0, st1, st2, st2', st3 := IfElseBecomes(st, s, r, t, f);
      IfElseParts(code, st, s, r, t, f, cond, st0, st1, st2, st2', st3);
      regs', mem' := ForkRuns(m, code, st, s.cond, cond, st0, st1, t, f, env, regs, mem, trace);
    }
  }

  /** From the condition of a `while`, in every round, it gets to the body if the
      condition is greater than zero, and to what follows the loop otherwise. */
  lemma WhileEnters(m: M.Machine, code: Code, st: Build, s: Stmt, r: Build,
                    env: Env, regs: M.Regs, mem: M.Memory, trace: seq<M.Event>, n: int)
    returns (regs': M.Regs, mem': M.Memory, trace': seq<M.Event>)
    requires Computes(m) && Ready(st, env, mem) && s.While? && ValueIs(m, s.cond, env, trace, n)
    requires Becomes(st, s, r) && Fits(r, code, |st.g.blocks|)
    ensures Goes(m, code, Conf(|st.g.blocks|, 0, regs, mem, trace),
                 Conf(if n > 0 then |st.g.blocks| + 1 else |st.g.blocks| + 2, 0, regs', mem', trace'), 1)
    ensures Corr(st.scopes, Evaluate(m, s.cond, env, trace).env, mem')
  {
    var c, t, f, out := |st.g.blocks|, |st.g.blocks| + 1, |st.g.blocks| + 2, Evaluate(m, s.cond, env, trace);
    HoldsIffPositive(m, n, out.trace);
    trace' := Holds(m, out.w, out.trace).1;
    var st0, st1, cond, st2, st3 := WhileBecomes(st, s, r, c, t, f);
    WhileParts(code, st, s, r, c, t, f, st0, st1, cond, st2, st3);
    ApartLonger(st.scopes, st.slots, st1.slots);
    regs', mem' := LoopTestRuns(m, code, st, s.cond, st0, st1, cond, st2, c, t, f, env, regs, mem, trace);
  }

  // ----- a whole function -----

  /** `if (x) f();` */
  function CallsIf(x: string, callee: nat): Function {
    Function([x], [], [If(Var(x), Do(Call(callee, [])))])
  }

  ghost predicate HasCall(trace: seq<M.Event>) {
    exists e :: e in trace && e.kind == Exec(CALL)
  }

  /** Its code returns, and has made the call exactly if the argument is greater
      than zero. */
  lemma CallsIffPositive(m: M.Machine, x: string, callee: nat, n: int) returns (trace: seq<M.Event>)
    requires Computes(m) && m.leaf(Arg(0)) == M.Num(n)
    ensures Returns(m, LowerFunction(CallsIf(x, callee)).code, trace) && (HasCall(trace) <==> n > 0)
  {
    trace := SourceCalls(m, x, callee, n);
    var k := FunctionRuns(m, CallsIf(x, callee), 0);
  }

  lemma SourceCalls(m: M.Machine, x: string, callee: nat, n: int) returns (trace: seq<M.Event>)
    requires Computes(m) && m.leaf(Arg(0)) == M.Num(n)
    ensures var res := RunFunction(m, CallsIf(x, callee), 0, false);
            res.Fine? && res.trace == trace && (HasCall(trace) <==> n > 0)
  {
    var s, env := If(Var(x), Do(Call(callee, []))), Given(m, [x]) + [map[]];
    GivenMeans(m, [x], 0);
    ScopeMeans(Given(m, [x]), [], x);
    trace := IfTraces(m, s, callee, env, n);
    var res := Run(m, s, env, [], 0, false);
    assert [s][1..] == [] && DeclareAll(env, []) == env;
    assert RunAll(m, [s], env, [], 0, false) == Fine(res.env, res.trace);
    assert RunCompound(m, Compound([], [s]), Given(m, [x]), [], 0, false) == Fine(Drop(res.env), res.trace);
  }

  lemma IfTraces(m: M.Machine, s: Stmt, callee: nat, env: Env, n: int) returns (trace: seq<M.Event>)
    requires Computes(m) && s.If? && s.then_ == Do(Call(callee, []))
    requires Evaluate(m, s.cond, env, []) == Valued.Some(M.Num(n), env, [])
    ensures var res := Run(m, s, env, [], 0, false);
            res.Fine? && res.trace == trace && (HasCall(trace) <==> n > 0)
  {
    ConditionsMean(m, s, env, [], 0, false, n);
    trace := Holds(m, M.Num(n), []).1;
    if n > 0 {
      var call := M.Event(Exec(CALL), [m.leaf(Global(callee))] + []);
      assert EvaluateAll(m, [], env, trace) == AllOf([], env, trace);
      assert Evaluate(m, s.then_.e, env, trace) == Performed(m, env, trace, call.kind, call.args);
      trace := trace + [call];
      assert trace[1] == call;
    }
  }
}
