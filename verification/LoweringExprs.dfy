/** What the code of expressions and declarations does when it is run. */
module LoweringExprs {
  import opened Graphs
  import opened IR
  import opened SsaForm
  import M = Meanings
  import opened Sources
  import opened Lowerings
  import opened LoweringGrowth

  // ----- running on from the middle of a block -----

  /** Before instruction `k` of `bb`. */
  datatype Conf = Conf(bb: Block, k: nat, regs: M.Regs, mem: M.Memory, trace: seq<M.Event>)

  function Rest(m: M.Machine, code: Code, c: Conf): M.Outcome {
    if c.bb in code.body && c.k <= |code.body[c.bb]|
    then M.Run(m, code, code.body[c.bb][c.k..], c.regs, c.mem, c.trace)
    else M.Stuck(c.trace)
  }

  function Leave(m: M.Machine, code: Code, bb: Block, o: M.Outcome): M.State {
    match o
    case Return(vals, trace) => M.Done(vals, trace)
    case Stuck(trace) => M.Broken(trace)
    case Goto(next, regs, mem, trace) =>
      M.At(next, if next in code.body then M.Enter(m, code, code.body[next], bb, regs) else regs, mem, trace)
  }

  /** The state when the block has been left, and `n` more blocks have been run. */
  function After(m: M.Machine, code: Code, c: Conf, n: nat): M.State {
    M.Steps(m, code, Leave(m, code, c.bb, Rest(m, code, c)), n)
  }

  ghost predicate Same(m: M.Machine, code: Code, c: Conf, c': Conf, d: nat, n: nat) {
    After(m, code, c, n + d) == After(m, code, c', n)
  }

  ghost predicate Running(m: M.Machine, code: Code, c: Conf, n: nat) {
    After(m, code, c, n).At?
  }

  /** The function is still running when `f` blocks have been left. */
  ghost predicate Busy(m: M.Machine, code: Code, c: Conf, f: nat) {
    forall n: nat {:trigger Running(m, code, c, n)} :: n < f ==> Running(m, code, c, n)
  }

  /** From `c` the function gets to `c'`, leaving `d` blocks on the way. */
  ghost predicate Goes(m: M.Machine, code: Code, c: Conf, c': Conf, d: nat) {
    && (forall n: nat {:trigger Same(m, code, c, c', d, n)} :: Same(m, code, c, c', d, n))
    && Busy(m, code, c, d)
  }

  lemma GoesOn(m: M.Machine, code: Code, c: Conf, c': Conf)
    requires c.bb == c'.bb && Rest(m, code, c) == Rest(m, code, c')
    ensures Goes(m, code, c, c', 0)
  {
    var none: nat := 0;
    forall n: nat ensures Same(m, code, c, c', none, n) {
      assert n + none == n;
    }
  }

  lemma GoesTrans(m: M.Machine, code: Code, a: Conf, b: Conf, c: Conf, d: nat, e: nat)
    requires Goes(m, code, a, b, d) && Goes(m, code, b, c, e)
    ensures Goes(m, code, a, c, d + e)
  {
    var f := d + e;
    forall n: nat ensures Same(m, code, a, c, f, n) {
      assert Same(m, code, b, c, e, n) && Same(m, code, a, b, d, n + e);
      assert n + e + d == n + f;
    }
    BusyLonger(m, code, a, b, d, e);
  }

  lemma BusyLonger(m: M.Machine, code: Code, a: Conf, b: Conf, d: nat, f: nat)
    requires Goes(m, code, a, b, d) && Busy(m, code, b, f)
    ensures Busy(m, code, a, d + f)
  {
    forall n: nat | n < d + f ensures Running(m, code, a, n) {
      if n >= d {
        assert Same(m, code, a, b, d, n - d) && Running(m, code, b, n - d);
      }
    }
  }

  lemma {:induction false} StepsShift(m: M.Machine, code: Code, s: M.State, n: nat)
    ensures M.Steps(m, code, M.Step(m, code, s), n) == M.Steps(m, code, s, n + 1)
  {
    if n > 0 {
      StepsShift(m, code, s, n - 1);
    }
  }

  /** The code has no phis. */
  ghost predicate NoPhis(code: Code) {
    forall id {:trigger code.Is(id, Phi)} :: !code.Is(id, Phi)
  }

  lemma GoesToNext(m: M.Machine, code: Code, c: Conf, next: Block, regs: M.Regs, mem: M.Memory, trace: seq<M.Event>)
    requires NoPhis(code) && next in code.body && Rest(m, code, c) == M.Goto(next, regs, mem, trace)
    ensures Goes(m, code, c, Conf(next, 0, regs, mem, trace), 1)
  {
    var c' := Conf(next, 0, regs, mem, trace);
    assert M.Enter(m, code, code.body[next], c.bb, regs) == regs;
    assert code.body[next][0..] == code.body[next];
    var s := M.At(next, regs, mem, trace);
    forall n: nat ensures Same(m, code, c, c', 1, n) {
      StepsShift(m, code, s, n);
    }
    assert Running(m, code, c, 0);
  }

  // ----- code under construction as a part of the final code -----

  ghost predicate PartAt(st: Build, code: Code, b: Block) {
    b in st.code.body ==> b in code.body && st.code.body[b] <= code.body[b]
  }

  ghost predicate PartId(st: Build, code: Code, id: Id) {
    && (id in st.code.kind ==> id in code.kind && code.kind[id] == st.code.kind[id])
    && (id in st.code.ops ==> id in code.ops && code.ops[id] == st.code.ops[id])
  }

  ghost predicate PartOf(st: Build, code: Code) {
    && NoPhis(code)
    && (forall b {:trigger PartAt(st, code, b)} :: PartAt(st, code, b))
    && (forall id {:trigger PartId(st, code, id)} :: PartId(st, code, id))
  }

  lemma EarlierPart(st: Build, st': Build, t: set<Block>, code: Code)
    requires AllThere(st) && AllThere(st') && Grows(st, st', t) && PartOf(st', code)
    ensures PartOf(st, code)
  {
    forall b ensures PartAt(st, code, b) {
      assert PartAt(st', code, b) && GrowsAt(st, st', t, b) && ThereAt(st, b) && ThereAt(st', b);
    }
    forall id ensures PartId(st, code, id) {
      assert PartId(st', code, id) && GrowsId(st, st', id);
    }
  }

  lemma SamePart(st: Build, st': Build, code: Code)
    requires PartOf(st', code) && st.code == st'.code
    ensures PartOf(st, code)
  {
    forall b ensures PartAt(st, code, b) { assert PartAt(st', code, b); }
    forall id ensures PartId(st, code, id) { assert PartId(st', code, id); }
  }

  /** The end of the block under construction. */
  function EndOf(st: Build, regs: M.Regs, mem: M.Memory, trace: seq<M.Event>): Conf {
    Conf(st.cur, st.Here(), regs, mem, trace)
  }

  /** An emitted instruction is the next to run. */
  lemma NextToRun(st: Build, kind: Kind, ops: seq<Value>, code: Code)
    requires PartOf(st.Emit(kind, ops), code)
    ensures var id, k := Instr(st.ids), st.Here();
      && st.cur in code.body && k < |code.body[st.cur]| && code.body[st.cur][k] == id
      && code.body[st.cur][k..][0] == id && code.body[st.cur][k..][1..] == code.body[st.cur][k + 1..]
      && id in code.kind && code.kind[id] == kind && id in code.ops && code.ops[id] == ops
  {
    var st' := st.Emit(kind, ops);
    assert PartAt(st', code, st.cur) && PartId(st', code, Instr(st.ids));
    assert st'.code.body[st.cur][st.Here()] == Instr(st.ids);
  }

  lemma ExecRuns(m: M.Machine, code: Code, st: Build, op: Op, ops: seq<Value>, regs: M.Regs, mem: M.Memory, trace: seq<M.Event>, ws: seq<M.Word>)
    requires PartOf(st.Emit(Exec(op), ops), code) && |ws| == |ops|
    requires forall i :: 0 <= i < |ops| ==> M.Eval(m, regs, ops[i]) == ws[i]
    ensures var st' := st.Emit(Exec(op), ops);
            var trace' := trace + [M.Event(Exec(op), ws)];
            Rest(m, code, EndOf(st, regs, mem, trace)) ==
            Rest(m, code, EndOf(st', regs[Instr(st.ids) := m.result(trace')], mem, trace'))
  {
    NextToRun(st, Exec(op), ops, code);
    assert M.EvalAll(m, regs, ops) == ws;
  }

  lemma LoadRuns(m: M.Machine, code: Code, st: Build, x: Slot, regs: M.Regs, mem: M.Memory, trace: seq<M.Event>)
    requires PartOf(st.Emit(Load, [Addr(x)]), code)
    ensures Rest(m, code, EndOf(st, regs, mem, trace)) ==
            Rest(m, code, EndOf(st.Emit(Load, [Addr(x)]), regs[Instr(st.ids) := M.Held(mem, x)], mem, trace))
  {
    NextToRun(st, Load, [Addr(x)], code);
  }

  lemma StoreRuns(m: M.Machine, code: Code, st: Build, v: Value, x: Slot, regs: M.Regs, mem: M.Memory, trace: seq<M.Event>)
    requires PartOf(st.Emit(Store, [v, Addr(x)]), code)
    ensures Rest(m, code, EndOf(st, regs, mem, trace)) ==
            Rest(m, code, EndOf(st.Emit(Store, [v, Addr(x)]), regs, mem[x := M.Eval(m, regs, v)], trace))
  {
    NextToRun(st, Store, [v, Addr(x)], code);
  }

  lemma AllocaRuns(m: M.Machine, code: Code, st: Build, x: Slot, regs: M.Regs, mem: M.Memory, trace: seq<M.Event>)
    requires PartOf(st.Emit(Alloca(x, true), []), code)
    ensures Rest(m, code, EndOf(st, regs, mem, trace)) ==
            Rest(m, code, EndOf(st.Emit(Alloca(x, true), []), regs, mem, trace))
  {
    NextToRun(st, Alloca(x, true), [], code);
  }

  // ----- variables and their slots -----

  ghost predicate Bound<T>(s: Scopes<T>, i: int, name: string) {
    0 <= i < |s| && name in s[i]
  }

  /** The slot of a variable that has been given a value holds it. */
  ghost predicate HoldsAt(scopes: Scopes<Slot>, env: Env, mem: M.Memory, i: int, name: string) {
    && (Bound(scopes, i, name) <==> Bound(env, i, name))
    && (Bound(scopes, i, name) && env[i][name] != M.Undef ==> M.Held(mem, scopes[i][name]) == env[i][name])
  }

  /** Different variables have different slots, all of them in use. */
  ghost predicate ApartAt(scopes: Scopes<Slot>, slots: nat, i: int, a: string, j: int, b: string) {
    Bound(scopes, i, a) && Bound(scopes, j, b) ==>
      && scopes[i][a] < slots
      && (scopes[i][a] == scopes[j][b] ==> i == j && a == b)
  }

  ghost predicate Apart(scopes: Scopes<Slot>, slots: nat) {
    forall i, a, j, b {:trigger ApartAt(scopes, slots, i, a, j, b)} :: ApartAt(scopes, slots, i, a, j, b)
  }

  ghost predicate Corr(scopes: Scopes<Slot>, env: Env, mem: M.Memory) {
    && |scopes| == |env|
    && forall i, name {:trigger HoldsAt(scopes, env, mem, i, name)} :: HoldsAt(scopes, env, mem, i, name)
  }

  /** A name means the same scope on both sides. */
  lemma {:induction false} SameLevel(scopes: Scopes<Slot>, env: Env, mem: M.Memory, name: string)
    requires Corr(scopes, env, mem)
    ensures Level(scopes, name) == Level(env, name)
  {
    SameLevelUpTo(scopes, env, mem, name, |scopes|);
    assert scopes[..|scopes|] == scopes && env[..|env|] == env;
  }

  lemma {:induction false} SameLevelUpTo(scopes: Scopes<Slot>, env: Env, mem: M.Memory, name: string, n: nat)
    requires Corr(scopes, env, mem) && n <= |scopes|
    ensures Level(scopes[..n], name) == Level(env[..n], name)
  {
    if n > 0 {
      assert HoldsAt(scopes, env, mem, n - 1, name);
      SameLevelUpTo(scopes, env, mem, name, n - 1);
      assert scopes[..n][..n - 1] == scopes[..n - 1] && env[..n][..n - 1] == env[..n - 1];
    }
  }

  lemma VarHeld(scopes: Scopes<Slot>, env: Env, mem: M.Memory, name: string)
    requires Corr(scopes, env, mem) && Declared(env, name)
    ensures Declared(scopes, name)
    ensures Find(env, name) != M.Undef ==> M.Held(mem, Find(scopes, name)) == Find(env, name)
  {
    SameLevel(scopes, env, mem, name);
    assert HoldsAt(scopes, env, mem, Level(env, name), name);
  }

  lemma VarSet(scopes: Scopes<Slot>, slots: nat, env: Env, mem: M.Memory, name: string, w: M.Word)
    requires Corr(scopes, env, mem) && Apart(scopes, slots) && Declared(env, name)
    ensures Declared(scopes, name) && Corr(scopes, SetVar(env, name, w), mem[Find(scopes, name) := w])
  {
    SameLevel(scopes, env, mem, name);
    var l, env', mem' := Level(env, name), SetVar(env, name, w), mem[Find(scopes, name) := w];
    forall i, a ensures HoldsAt(scopes, env', mem', i, a) {
      assert HoldsAt(scopes, env, mem, i, a) && HoldsAt(scopes, env, mem, l, name);
      assert ApartAt(scopes, slots, i, a, l, name);
    }
  }

  // ----- expressions -----

  /** The registers of the instructions so far keep their words. */
  ghost predicate Kept(st: Build, regs: M.Regs, regs': M.Regs) {
    forall id {:trigger M.Read(regs', id)} :: id in st.pos ==> M.Read(regs', id) == M.Read(regs, id)
  }

  /** What running the code of an expression has come to. */
  ghost predicate Ran(m: M.Machine, code: Code, st: Build, st': Build, regs: M.Regs, mem: M.Memory, trace: seq<M.Event>,
                      regs': M.Regs, mem': M.Memory, env': Env, trace': seq<M.Event>)
  {
    && Rest(m, code, EndOf(st, regs, mem, trace)) == Rest(m, code, EndOf(st', regs', mem', trace'))
    && Kept(st, regs, regs') && Corr(st.scopes, env', mem')
  }

  lemma EvalKept(m: M.Machine, st: Build, regs: M.Regs, regs': M.Regs, v: Value)
    requires Kept(st, regs, regs') && Known(st, v)
    ensures M.Eval(m, regs', v) == M.Eval(m, regs, v)
  {
  }

  lemma KeptTrans(a: Build, b: Build, t: set<Block>, r0: M.Regs, r1: M.Regs, r2: M.Regs)
    requires AllThere(a) && AllThere(b) && Grows(a, b, t) && Kept(a, r0, r1) && Kept(b, r1, r2)
    ensures Kept(a, r0, r2)
  {
    forall id | id in a.pos ensures M.Read(r2, id) == M.Read(r0, id) {
      assert GrowsId(a, b, id) && M.Read(r1, id) == M.Read(r0, id);
    }
  }

  lemma {:induction false} ExprRuns(m: M.Machine, code: Code, st: Build, e: Expr,
                                    env: Env, regs: M.Regs, mem: M.Memory, trace: seq<M.Event>)
    returns (regs': M.Regs, mem': M.Memory)
    requires Sound(st) && PartOf(LowerExpr(st, e).st, code)
    requires Corr(st.scopes, env, mem) && Apart(st.scopes, st.slots) && Evaluate(m, e, env, trace).Some?
    ensures var r, out := LowerExpr(st, e), Evaluate(m, e, env, trace);
      && Ran(m, code, st, r.st, regs, mem, trace, regs', mem', out.env, out.trace)
      && M.Eval(m, regs', r.v) == out.w
    decreases e, 2
  {
    match e
    case Num(n) => regs', mem' := regs, mem;
    case Var(name) =>
      VarHeld(st.scopes, env, mem, name);
      FreshId(st);
      var x := Find(st.scopes, name);
      LoadRuns(m, code, st, x, regs, mem, trace);
      regs', mem' := regs[Instr(st.ids) := M.Held(mem, x)], mem;
    case Binary(op, l, r) =>
      var ws;
      regs', mem', ws := OperationRuns(m, code, st, e, l, r, op, env, regs, mem, trace);
    case Compare(op, l, r) => regs', mem' := CompareRuns(m, code, st, e, env, regs, mem, trace);
    case Assign(name, v) => regs', mem' := AssignRuns(m, code, st, e, env, regs, mem, trace);
    case Call(callee, args) => regs', mem' := CallRuns(m, code, st, e, env, regs, mem, trace);
  }

  lemma {:induction false} AssignRuns(m: M.Machine, code: Code, st: Build, e: Expr,
                                      env: Env, regs: M.Regs, mem: M.Memory, trace: seq<M.Event>)
    returns (regs': M.Regs, mem': M.Memory)
    requires Sound(st) && PartOf(LowerExpr(st, e).st, code) && e.Assign?
    requires Corr(st.scopes, env, mem) && Apart(st.scopes, st.slots) && Evaluate(m, e, env, trace).Some?
    ensures var r, out := LowerExpr(st, e), Evaluate(m, e, env, trace);
      && Ran(m, code, st, r.st, regs, mem, trace, regs', mem', out.env, out.trace)
      && M.Eval(m, regs', r.v) == out.w
    decreases e, 1
  {
    var res, x := LowerExpr(st, e.e), if Declared(st.scopes, e.name) then Find(st.scopes, e.name) else 0;
    ExprGrows(st, e.e);
    PlainGrown(res.st, Store, [res.v, Addr(x)]);
    EarlierPart(res.st, res.st.Emit(Store, [res.v, Addr(x)]), {st.cur}, code);
    var mem1;
    regs', mem1 := ExprRuns(m, code, st, e.e, env, regs, mem, trace);
    var out := Evaluate(m, e.e, env, trace);
    VarSet(st.scopes, st.slots, out.env, mem1, e.name, out.w);
    StoreRuns(m, code, res.st, res.v, x, regs', mem1, out.trace);
    mem' := mem1[x := out.w];
  }

  lemma {:induction false} CallRuns(m: M.Machine, code: Code, st: Build, e: Expr,
                                    env: Env, regs: M.Regs, mem: M.Memory, trace: seq<M.Event>)
    returns (regs': M.Regs, mem': M.Memory)
    requires Sound(st) && PartOf(LowerExpr(st, e).st, code) && e.Call?
    requires Corr(st.scopes, env, mem) && Apart(st.scopes, st.slots) && Evaluate(m, e, env, trace).Some?
    ensures var r, out := LowerExpr(st, e), Evaluate(m, e, env, trace);
      && Ran(m, code, st, r.st, regs, mem, trace, regs', mem', out.env, out.trace)
      && M.Eval(m, regs', r.v) == out.w
    decreases e, 1
  {
    var all, out := LowerArgs(st, e.args), EvaluateAll(m, e.args, env, trace);
    ArgsGrow(st, e.args);
    EarlierCall(st, all, e.callee, code);
    var regs1;
    regs1, mem' := ArgsRun(m, code, st, e.args, env, regs, mem, trace);
    var ops, ws := [Global(e.callee)] + all.vs, [m.leaf(Global(e.callee))] + out.ws;
    forall i | 0 <= i < |ops| ensures M.Eval(m, regs1, ops[i]) == ws[i] {
      if i > 0 { assert ops[i] == all.vs[i - 1] && ws[i] == out.ws[i - 1]; }
    }
    regs' := Performs(m, code, st, all.st, CALL, ops, regs, mem, trace, regs1, mem', out.env, out.trace, ws);
  }

  lemma EarlierCall(st: Build, all: LoweredAll, callee: nat, code: Code)
    requires ExprGrown(st, all.st) && forall v :: v in all.vs ==> Known(all.st, v)
    requires PartOf(all.st.Emit(Exec(CALL), [Global(callee)] + all.vs), code)
    ensures PartOf(all.st, code)
  {
    PlainGrown(all.st, Exec(CALL), [Global(callee)] + all.vs);
    EarlierPart(all.st, all.st.Emit(Exec(CALL), [Global(callee)] + all.vs), {st.cur}, code);
  }

  /** One operation after what has been run. */
  lemma Performs(m: M.Machine, code: Code, a: Build, st: Build, op: Op, ops: seq<Value>,
                 regs: M.Regs, mem: M.Memory, trace: seq<M.Event>,
                 regs1: M.Regs, mem1: M.Memory, env1: Env, trace1: seq<M.Event>, ws: seq<M.Word>)
    returns (regs': M.Regs)
    requires ExprGrown(a, st) && PartOf(st.Emit(Exec(op), ops), code)
    requires Ran(m, code, a, st, regs, mem, trace, regs1, mem1, env1, trace1)
    requires |ws| == |ops| && forall i :: 0 <= i < |ops| ==> M.Eval(m, regs1, ops[i]) == ws[i]
    ensures var out := Performed(m, env1, trace1, Exec(op), ws);
      && Ran(m, code, a, st.Emit(Exec(op), ops), regs, mem, trace, regs', mem1, out.env, out.trace)
      && M.Eval(m, regs', st.Next()) == out.w
  {
    ExecRuns(m, code, st, op, ops, regs1, mem1, trace1, ws);
    var trace' := trace1 + [M.Event(Exec(op), ws)];
    regs' := regs1[Instr(st.ids) := m.result(trace')];
    FreshId(st);
    forall id | id in a.pos ensures M.Read(regs', id) == M.Read(regs, id) {
      assert GrowsId(a, st, id) && M.Read(regs1, id) == M.Read(regs, id);
    }
  }

  lemma {:induction false} OperationRuns(m: M.Machine, code: Code, st: Build, e: Expr, l: Expr, r: Expr, op: Op,
                                         env: Env, regs: M.Regs, mem: M.Memory, trace: seq<M.Event>)
    returns (regs': M.Regs, mem': M.Memory, ws: seq<M.Word>)
    requires Sound(st) && l < e && r < e
    requires PartOf(LowerTwo(st, e, l, r).st.Emit(Exec(op), LowerTwo(st, e, l, r).vs), code)
    requires Corr(st.scopes, env, mem) && Apart(st.scopes, st.slots) && EvaluateTwo(m, e, l, r, env, trace).AllOf?
    ensures var two, both := LowerTwo(st, e, l, r), EvaluateTwo(m, e, l, r, env, trace);
      var out := Performed(m, both.env, both.trace, Exec(op), both.ws);
      && Ran(m, code, st, two.st.Emit(Exec(op), two.vs), regs, mem, trace, regs', mem', out.env, out.trace)
      && M.Eval(m, regs', two.st.Next()) == out.w
    decreases e, 0, 1
  {
    var two, both := LowerTwo(st, e, l, r), EvaluateTwo(m, e, l, r, env, trace);
    TwoGrow(st, e, l, r);
    PlainGrown(two.st, Exec(op), two.vs);
    EarlierPart(two.st, two.st.Emit(Exec(op), two.vs), {st.cur}, code);
    var regs1;
    regs1, mem' := TwoRun(m, code, st, e, l, r, env, regs, mem, trace);
    ws := both.ws;
    regs' := Performs(m, code, st, two.st, op, two.vs, regs, mem, trace, regs1, mem', both.env, both.trace, both.ws);
  }

  lemma {:induction false} CompareRuns(m: M.Machine, code: Code, st: Build, e: Expr,
                                       env: Env, regs: M.Regs, mem: M.Memory, trace: seq<M.Event>)
    returns (regs': M.Regs, mem': M.Memory)
    requires Sound(st) && PartOf(LowerExpr(st, e).st, code) && e.Compare?
    requires Corr(st.scopes, env, mem) && Apart(st.scopes, st.slots) && Evaluate(m, e, env, trace).Some?
    ensures var r, out := LowerExpr(st, e), Evaluate(m, e, env, trace);
      && Ran(m, code, st, r.st, regs, mem, trace, regs', mem', out.env, out.trace)
      && M.Eval(m, regs', r.v) == out.w
    decreases e, 1
  {
    var two, both := LowerTwo(st, e, e.l, e.r), EvaluateTwo(m, e, e.l, e.r, env, trace);
    TwoGrow(st, e, e.l, e.r);
    NextGrown(st, two.st, Exec(e.op), two.vs);
    var st1, z := two.st.Emit(Exec(e.op), two.vs), [two.st.Next()];
    PlainGrown(st1, Exec(ZEXT), z);
    EarlierPart(st1, st1.Emit(Exec(ZEXT), z), {st.cur}, code);
    var regs1, ws;
    regs1, mem', ws := OperationRuns(m, code, st, e, e.l, e.r, e.op, env, regs, mem, trace);
    var c := Performed(m, both.env, both.trace, Exec(e.op), both.ws);
    regs' := Performs(m, code, st, st1, ZEXT, z, regs, mem, trace, regs1, mem', c.env, c.trace, [c.w]);
  }

  lemma {:induction false} TwoRun(m: M.Machine, code: Code, st: Build, e: Expr, l: Expr, r: Expr,
                                  env: Env, regs: M.Regs, mem: M.Memory, trace: seq<M.Event>)
    returns (regs': M.Regs, mem': M.Memory)
    requires Sound(st) && l < e && r < e && PartOf(LowerTwo(st, e, l, r).st, code)
    requires Corr(st.scopes, env, mem) && Apart(st.scopes, st.slots) && EvaluateTwo(m, e, l, r, env, trace).AllOf?
    ensures var two, both := LowerTwo(st, e, l, r), EvaluateTwo(m, e, l, r, env, trace);
      && Ran(m, code, st, two.st, regs, mem, trace, regs', mem', both.env, both.trace)
      && |both.ws| == |two.vs| && forall i :: 0 <= i < |two.vs| ==> M.Eval(m, regs', two.vs[i]) == both.ws[i]
    decreases e, 0, 0
  {
    var lres, out := LowerExpr(st, l), Evaluate(m, l, env, trace);
    var rres, out' := LowerExpr(lres.st, r), Evaluate(m, r, out.env, out.trace);
    ExprGrows(st, l);
    ExprGrows(lres.st, r);
    EarlierPart(lres.st, rres.st, {st.cur}, code);
    var regs1, mem1 := ExprRuns(m, code, st, l, env, regs, mem, trace);
    regs', mem' := ExprRuns(m, code, lres.st, r, out.env, regs1, mem1, out.trace);
    BothRan(m, code, st, lres, rres, regs, mem, trace, regs1, mem1, out, regs', mem', out', LowerTwo(st, e, l, r), EvaluateTwo(m, e, l, r, env, trace));
  }

  lemma BothRan(m: M.Machine, code: Code, st: Build, lres: Lowered, rres: Lowered, regs: M.Regs, mem: M.Memory, trace: seq<M.Event>,
                regs1: M.Regs, mem1: M.Memory, out: Valued, regs2: M.Regs, mem2: M.Memory, out': Valued, two: LoweredAll, both: ValuedAll)
    requires out.Some? && out'.Some? && ExprGrown(st, lres.st) && AllThere(st) && Known(lres.st, lres.v)
    requires two == LoweredAll(rres.st, [lres.v, rres.v]) && both == AllOf([out.w, out'.w], out'.env, out'.trace)
    requires Ran(m, code, st, lres.st, regs, mem, trace, regs1, mem1, out.env, out.trace) && M.Eval(m, regs1, lres.v) == out.w
    requires Ran(m, code, lres.st, rres.st, regs1, mem1, out.trace, regs2, mem2, out'.env, out'.trace) && M.Eval(m, regs2, rres.v) == out'.w
    ensures Ran(m, code, st, two.st, regs, mem, trace, regs2, mem2, both.env, both.trace)
    ensures |both.ws| == |two.vs| && forall i :: 0 <= i < |two.vs| ==> M.Eval(m, regs2, two.vs[i]) == both.ws[i]
  {
    RanTrans(m, code, st, lres.st, rres.st, regs, mem, trace, regs1, mem1, out.env, out.trace, regs2, mem2, out'.env, out'.trace);
    EvalKept(m, lres.st, regs1, regs2, lres.v);
  }

  lemma RanTrans(m: M.Machine, code: Code, a: Build, b: Build, c: Build, regs: M.Regs, mem: M.Memory, trace: seq<M.Event>,
                 regs1: M.Regs, mem1: M.Memory, env1: Env, trace1: seq<M.Event>,
                 regs2: M.Regs, mem2: M.Memory, env2: Env, trace2: seq<M.Event>)
    requires AllThere(a) && AllThere(b) && Grows(a, b, {a.cur}) && b.scopes == a.scopes
    requires Ran(m, code, a, b, regs, mem, trace, regs1, mem1, env1, trace1)
    requires Ran(m, code, b, c, regs1, mem1, trace1, regs2, mem2, env2, trace2)
    ensures Ran(m, code, a, c, regs, mem, trace, regs2, mem2, env2, trace2)
  {
    KeptTrans(a, b, {a.cur}, regs, regs1, regs2);
  }

  lemma {:induction false} ArgsRun(m: M.Machine, code: Code, st: Build, es: seq<Expr>,
                                   env: Env, regs: M.Regs, mem: M.Memory, trace: seq<M.Event>)
    returns (regs': M.Regs, mem': M.Memory)
    requires Sound(st) && PartOf(LowerArgs(st, es).st, code)
    requires Corr(st.scopes, env, mem) && Apart(st.scopes, st.slots) && EvaluateAll(m, es, env, trace).AllOf?
    ensures var all, out := LowerArgs(st, es), EvaluateAll(m, es, env, trace);
      && Ran(m, code, st, all.st, regs, mem, trace, regs', mem', out.env, out.trace)
      && |out.ws| == |all.vs| && forall i :: 0 <= i < |all.vs| ==> M.Eval(m, regs', all.vs[i]) == out.ws[i]
    decreases es
  {
    if es == [] {
      regs', mem' := regs, mem;
    } else {
      var init, last := LowerArgs(st, es[..|es| - 1]), es[|es| - 1];
      ArgsGrow(st, es[..|es| - 1]);
      ExprGrows(init.st, last);
      EarlierPart(init.st, LowerExpr(init.st, last).st, {st.cur}, code);
      var regs1, mem1 := ArgsRun(m, code, st, es[..|es| - 1], env, regs, mem, trace);
      var out := EvaluateAll(m, es[..|es| - 1], env, trace);
      regs', mem' := ExprRuns(m, code, init.st, last, out.env, regs1, mem1, out.trace);
      KeptTrans(st, init.st, {st.cur}, regs, regs1, regs');
      forall i | 0 <= i < |init.vs| ensures M.Eval(m, regs', init.vs[i]) == out.ws[i] {
        EvalKept(m, init.st, regs1, regs', init.vs[i]);
      }
    }
  }

  // ----- declarations -----

  lemma PushHolds(scopes: Scopes<Slot>, env: Env, mem: M.Memory, slots: nat, name: string)
    requires Corr(scopes, env, mem) && Apart(scopes, slots)
    ensures Corr(Push(scopes, name, slots), Push(env, name, M.Undef), mem) && Apart(Push(scopes, name, slots), slots + 1)
  {
    var scopes', env', slots' := Push(scopes, name, slots), Push(env, name, M.Undef), slots + 1;
    var top := |scopes| - 1;
    forall i, a ensures HoldsAt(scopes', env', mem, i, a) {
      assert HoldsAt(scopes, env, mem, i, a) && HoldsAt(scopes, env, mem, top, name);
    }
    forall i, a, j, b ensures ApartAt(scopes', slots', i, a, j, b) {
      assert ApartAt(scopes, slots, i, a, j, b) && ApartAt(scopes, slots, i, a, i, a) && ApartAt(scopes, slots, j, b, j, b);
    }
  }

  lemma {:induction false} LocalsRun(m: M.Machine, code: Code, st: Build, names: seq<string>,
                                     env: Env, regs: M.Regs, mem: M.Memory, trace: seq<M.Event>)
    requires Sound(st) && PartOf(DeclareLocals(st, names), code)
    requires Corr(st.scopes, env, mem) && Apart(st.scopes, st.slots)
    ensures var st' := DeclareLocals(st, names);
      && Rest(m, code, EndOf(st, regs, mem, trace)) == Rest(m, code, EndOf(st', regs, mem, trace))
      && Corr(st'.scopes, DeclareAll(env, names), mem) && Apart(st'.scopes, st'.slots)
  {
    if names != [] {
      var n := |names| - 1;
      var st1 := DeclareLocals(st, names[..n]);
      LocalsGrow(st, names[..n]);
      var env1, last := DeclareAll(env, names[..n]), names[n];
      LocalParts(code, st1, last);
      LocalsRun(m, code, st, names[..n], env, regs, mem, trace);
      LocalRuns(m, code, st1, st1.Declare(last), last, env1, regs, mem, trace);
    }
  }

  lemma LocalParts(code: Code, st: Build, name: string)
    requires Sound(st) && PartOf(st.Declare(name), code)
    ensures PartOf(st, code) && PartOf(st.Emit(Alloca(st.slots, true), []), code)
  {
    var st1 := st.Emit(Alloca(st.slots, true), []);
    PlainGrown(st, Alloca(st.slots, true), []);
    SamePart(st1, st.Declare(name), code);
    EarlierPart(st, st1, {st.cur}, code);
  }

  lemma LocalRuns(m: M.Machine, code: Code, st: Build, r: Build, name: string,
                  env: Env, regs: M.Regs, mem: M.Memory, trace: seq<M.Event>)
    requires r == st.Declare(name) && PartOf(st.Emit(Alloca(st.slots, true), []), code)
    requires Corr(st.scopes, env, mem) && Apart(st.scopes, st.slots)
    ensures Rest(m, code, EndOf(st, regs, mem, trace)) == Rest(m, code, EndOf(r, regs, mem, trace))
    ensures Corr(r.scopes, Push(env, name, M.Undef), mem) && Apart(r.scopes, r.slots)
  {
    AllocaRuns(m, code, st, st.slots, regs, mem, trace);
    PushHolds(st.scopes, env, mem, st.slots, name);
  }

  lemma DropHolds(scopes: Scopes<Slot>, env: Env, mem: M.Memory)
    requires Corr(scopes, env, mem)
    ensures Corr(Drop(scopes), Drop(env), mem)
  {
    forall i, a ensures HoldsAt(Drop(scopes), Drop(env), mem, i, a) {
      assert HoldsAt(scopes, env, mem, i, a);
    }
  }

  lemma OpenScope(scopes: Scopes<Slot>, env: Env, mem: M.Memory, slots: nat)
    requires Corr(scopes, env, mem) && Apart(scopes, slots)
    ensures Corr(scopes + [map[]], env + [map[]], mem) && Apart(scopes + [map[]], slots)
  {
    var scopes', env' := scopes + [map[]], env + [map[]];
    forall i, a ensures HoldsAt(scopes', env', mem, i, a) {
      assert HoldsAt(scopes, env, mem, i, a);
    }
    forall i, a, j, b ensures ApartAt(scopes', slots, i, a, j, b) {
      assert ApartAt(scopes, slots, i, a, j, b);
    }
  }

  lemma ApartLonger(scopes: Scopes<Slot>, slots: nat, slots': nat)
    requires Apart(scopes, slots) && slots <= slots'
    ensures Apart(scopes, slots')
  {
    forall i, a, j, b ensures ApartAt(scopes, slots', i, a, j, b) {
      assert ApartAt(scopes, slots, i, a, j, b);
    }
  }
}
