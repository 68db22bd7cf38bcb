/** Lowering preserves meaning: the blocks do what the statements say, for as
    long as these run, except that nothing follows an `if` with `else`. */
module LoweringMeaning {
  import opened Graphs
  import opened IR
  import opened SsaForm
  import M = Meanings
  import opened Sources
  import opened Lowerings
  import opened LoweringGrowth
  import opened LoweringExprs

  // ----- finished blocks -----

  /** The blocks from `lo` on have got their last instruction, but for the one
      under construction. */
  ghost predicate SettledAt(st: Build, code: Code, lo: nat, b: Block) {
    lo <= b < |st.g.blocks| && b != st.cur ==> b in code.body && code.body[b] == ListOf(st.code.body, b)
  }

  ghost predicate Fits(st: Build, code: Code, lo: nat) {
    PartOf(st, code) && forall b {:trigger SettledAt(st, code, lo, b)} :: SettledAt(st, code, lo, b)
  }

  lemma EarlierFits(st: Build, st': Build, t: set<Block>, code: Code, lo': nat, lo: nat)
    requires AllThere(st) && AllThere(st') && Grows(st, st', t) && Fits(st', code, lo') && lo' <= lo
    requires forall x :: x in t ==> x == st.cur || x < lo || x >= |st.g.blocks|
    requires st'.cur == st.cur || st'.cur < lo || st'.cur >= |st.g.blocks|
    ensures Fits(st, code, lo)
  {
    EarlierPart(st, st', t, code);
    forall b ensures SettledAt(st, code, lo, b) {
      assert SettledAt(st', code, lo', b) && GrowsAt(st, st', t, b);
    }
  }

  // ----- jumps and branches -----

  lemma BrRuns(m: M.Machine, code: Code, st: Build, b: Block, r: Build, regs: M.Regs, mem: M.Memory, trace: seq<M.Event>)
    requires r.code == st.Br(b).code && b in code.body && PartOf(r, code)
    ensures Goes(m, code, EndOf(st, regs, mem, trace), Conf(b, 0, regs, mem, trace), 1)
  {
    var st0 := st.AddEdge(b);
    SamePart(st0.Emit(Kind.Br, [Label(b)]), r, code);
    NextToRun(st0, Kind.Br, [Label(b)], code);
    GoesToNext(m, code, EndOf(st, regs, mem, trace), b, regs, mem, trace);
  }

  lemma TestRuns(m: M.Machine, code: Code, st: Build, v: Value, t: Block, f: Block, r: Build,
                 regs: M.Regs, mem: M.Memory, trace: seq<M.Event>, b: bool)
    requires r == Test(st, v, t, f) && t in code.body && f in code.body && PartOf(r, code) && m.truth(M.Eval(m, regs, v)) == b
    ensures Goes(m, code, EndOf(st, regs, mem, trace), Conf(if b then t else f, 0, regs, mem, trace), 1)
  {
    var st0, ops := st.AddEdge(f).AddEdge(t), [v, Label(t), Label(f)];
    SamePart(st0.Emit(Kind.CondBr, ops), r, code);
    NextToRun(st0, Kind.CondBr, ops, code);
    GoesToNext(m, code, EndOf(st, regs, mem, trace), if b then t else f, regs, mem, trace);
  }

  /** A condition: its value decides, and counts as true when it is positive. */
  lemma CondRuns(m: M.Machine, code: Code, st: Build, c: Expr, cond: Lowered,
                 env: Env, regs: M.Regs, mem: M.Memory, trace: seq<M.Event>)
    returns (regs': M.Regs, mem': M.Memory)
    requires Sound(st) && cond == LowerCond(st, c) && PartOf(cond.st, code)
    requires Corr(st.scopes, env, mem) && Apart(st.scopes, st.slots) && Evaluate(m, c, env, trace).Some?
    ensures var out := Evaluate(m, c, env, trace);
      && Ran(m, code, st, cond.st, regs, mem, trace, regs', mem', out.env, Holds(m, out.w, out.trace).1)
      && m.truth(M.Eval(m, regs', cond.v)) == Holds(m, out.w, out.trace).0
  {
    var res, ops := LowerExpr(st, c), [LowerExpr(st, c).v, Const(0)];
    ExprGrows(st, c);
    PlainGrown(res.st, Exec(GT), ops);
    EarlierPart(res.st, res.st.Emit(Exec(GT), ops), {st.cur}, code);
    var regs1;
    regs1, mem' := ExprRuns(m, code, st, c, env, regs, mem, trace);
    var out := Evaluate(m, c, env, trace);
    regs' := Performs(m, code, st, res.st, GT, ops, regs, mem, trace, regs1, mem', out.env, out.trace, [out.w, m.leaf(Const(0))]);
  }

  /** A branch after what has been run. */
  lemma ThenTest(m: M.Machine, code: Code, c: Conf, cond: Lowered, st: Build, t: Block, f: Block, r: Build,
                 regs: M.Regs, mem: M.Memory, trace: seq<M.Event>, b: bool)
    requires r == Test(st, cond.v, t, f) && t in code.body && f in code.body && PartOf(r, code)
    requires c.bb == cond.st.cur && Rest(m, code, c) == Rest(m, code, EndOf(cond.st, regs, mem, trace))
    requires st.cur == cond.st.cur && st.Here() == cond.st.Here() && m.truth(M.Eval(m, regs, cond.v)) == b
    ensures Goes(m, code, c, Conf(if b then t else f, 0, regs, mem, trace), 1)
  {
    GoesOn(m, code, c, EndOf(st, regs, mem, trace));
    TestRuns(m, code, st, cond.v, t, f, r, regs, mem, trace, b);
    GoesTrans(m, code, c, EndOf(st, regs, mem, trace), Conf(if b then t else f, 0, regs, mem, trace), 0, 1);
  }

  /** A condition and the branch after it. */
  lemma CondTests(m: M.Machine, code: Code, st: Build, c: Expr, cond: Lowered, st0: Build, r: Build, t: Block, f: Block,
                  env: Env, regs: M.Regs, mem: M.Memory, trace: seq<M.Event>)
    returns (regs': M.Regs, mem': M.Memory)
    requires Sound(st) && cond == LowerCond(st, c) && PartOf(cond.st, code) && cond.st.cur == st.cur
    requires r == Test(st0, cond.v, t, f) && t in code.body && f in code.body && PartOf(r, code)
    requires st0.cur == cond.st.cur && st0.Here() == cond.st.Here()
    requires Corr(st.scopes, env, mem) && Apart(st.scopes, st.slots) && Evaluate(m, c, env, trace).Some?
    ensures Decides(m, code, EndOf(st, regs, mem, trace), st.scopes, Evaluate(m, c, env, trace), t, f, regs', mem')
  {
    var out := Evaluate(m, c, env, trace);
    regs', mem' := CondRuns(m, code, st, c, cond, env, regs, mem, trace);
    var (b, trace') := Holds(m, out.w, out.trace);
    ThenTest(m, code, EndOf(st, regs, mem, trace), cond, st0, t, f, r, regs', mem', trace', b);
  }

  /** The condition, evaluated to `out`, decides between `t` and `f`. */
  ghost predicate Decides(m: M.Machine, code: Code, a: Conf, scopes: Scopes<Slot>, out: Valued, t: Block, f: Block,
                          regs': M.Regs, mem': M.Memory)
    requires out.Some?
  {
    var (b, trace') := Holds(m, out.w, out.trace);
    Goes(m, code, a, Conf(if b then t else f, 0, regs', mem', trace'), 1) && Corr(scopes, out.env, mem')
  }

  lemma BlocksThere(st: Build, code: Code, t: Block, f: Block)
    requires AllThere(st) && PartOf(st, code) && t < |st.g.blocks| && f < |st.g.blocks|
    ensures t in code.body && f in code.body
  {
    assert ThereAt(st, t) && ThereAt(st, f) && PartAt(st, code, t) && PartAt(st, code, f);
  }

  /** What lowering and running need to know of each other. */
  ghost predicate Ready(st: Build, env: Env, mem: M.Memory) {
    Sound(st) && !Ended(st) && Corr(st.scopes, env, mem) && Apart(st.scopes, st.slots)
  }

  /** The condition of an `if` decides between its two blocks. */
  lemma ForkRuns(m: M.Machine, code: Code, st: Build, c: Expr, cond: Lowered, st0: Build, st1: Build, t: Block, f: Block,
                 env: Env, regs: M.Regs, mem: M.Memory, trace: seq<M.Event>)
    returns (regs': M.Regs, mem': M.Memory)
    requires Ready(st, env, mem) && ForkOf(st, c, cond, st0, st1, t, f) && PartOf(st1, code) && Evaluate(m, c, env, trace).Some?
    ensures Decides(m, code, EndOf(st, regs, mem, trace), st.scopes, Evaluate(m, c, env, trace), t, f, regs', mem')
  {
    ForkGrows(st, c, cond, st0, st1, t, f);
    EarlierPart(st0, st1, {st.cur}, code);
    EarlierPart(cond.st, st0, {}, code);
    BlocksThere(st1, code, t, f);
    assert OneLevel(0);
    regs', mem' := CondTests(m, code, st, c, cond, st0, st1, t, f, env, regs, mem, trace);
  }

  /** A loop's condition, at the start of the block made for it. */
  lemma LoopTestRuns(m: M.Machine, code: Code, st: Build, c: Expr, st0: Build, st1: Build, cond: Lowered, st2: Build,
                     n: Block, t: Block, f: Block, env: Env, regs: M.Regs, mem: M.Memory, trace: seq<M.Event>)
    returns (regs': M.Regs, mem': M.Memory)
    requires LoopOf(st, c, st0, st1, cond, st2, n, t, f) && Sound(st1) && st1.cur == n && |st1.g.blocks| == f + 1
    requires EmptyAt(st1, n) && EmptyAt(st1, t) && EmptyAt(st1, f) && PartOf(st2, code)
    requires Corr(st1.scopes, env, mem) && Apart(st1.scopes, st1.slots) && Evaluate(m, c, env, trace).Some?
    ensures Decides(m, code, Conf(n, 0, regs, mem, trace), st1.scopes, Evaluate(m, c, env, trace), t, f, regs', mem')
  {
    LoopTested(st, c, st0, st1, cond, st2, n, t, f);
    EarlierPart(cond.st, st2, {n}, code);
    BlocksThere(st2, code, t, f);
    assert OneLevel(0);
    regs', mem' := CondTests(m, code, st1, c, cond, cond.st, st2, t, f, env, regs, mem, trace);
  }

  // ----- statements -----

  /** The code from `c` on does what the statement does: it gets to the end of
      `r` with the variables in their slots, or it is still running when the
      fuel is used up, or it comes to where there is no instruction. */
  ghost predicate Does(m: M.Machine, code: Code, c: Conf, r: Build, res: Result, fuel: nat,
                       regs': M.Regs, mem': M.Memory, d: nat)
  {
    match res
    case Fine(env', trace') => Goes(m, code, c, EndOf(r, regs', mem', trace'), d) && Corr(r.scopes, env', mem') && !Ended(r)
    case OutOfFuel => Busy(m, code, c, fuel)
    case Fell(trace') => After(m, code, c, d) == M.Broken(trace')
    case Undefined => true
  }

  /** Getting to an empty block where nothing is left to do. */
  lemma DoesNothing(m: M.Machine, code: Code, a: Conf, r: Build, env: Env, regs: M.Regs, mem: M.Memory, trace: seq<M.Event>, fuel: nat)
    requires EmptyAt(r, r.cur) && Goes(m, code, a, Conf(r.cur, 0, regs, mem, trace), 1) && Corr(r.scopes, env, mem)
    ensures Does(m, code, a, r, Fine(env, trace), fuel, regs, mem, 1)
  {
  }

  /** From `a` to `c`, and on from there. */
  lemma DoesAfter(m: M.Machine, code: Code, a: Conf, c: Conf, e: nat, r: Build, res: Result, fuel: nat, fuel': nat,
                  regs': M.Regs, mem': M.Memory, d: nat)
    requires Goes(m, code, a, c, e) && Does(m, code, c, r, res, fuel, regs', mem', d) && fuel' <= e + fuel
    ensures Does(m, code, a, r, res, fuel', regs', mem', e + d)
  {
    match res
    case Fine(env', trace') => GoesTrans(m, code, a, c, EndOf(r, regs', mem', trace'), e, d);
    case OutOfFuel => BusyLonger(m, code, a, c, e, fuel);
    case Fell(_) => assert Same(m, code, a, c, e, d);
    case Undefined =>
  }

  /** The end of an arm, at `st2`, with the jump to `b` after it. */
  ghost predicate ArmAt(code: Code, st1: Build, t: Stmt, st2: Build, r: Build, b: Block, f: Block) {
    && Sound(st1) && EmptyAt(st1, st1.cur) && Becomes(st1, t, st2) && r == Jump(st2, b, f) && st2.scopes == st1.scopes
    && Fits(st2, code, |st1.g.blocks|) && PartOf(r, code) && b in code.body
  }

  lemma ArmParts(code: Code, st: Build, st1: Build, t: Stmt, st2: Build, r: Build, b: Block, f: Block)
    requires Sound(st) && Sound(st1) && Grows(st, st1, {st.cur}) && st1.scopes == st.scopes && EmptyAt(st1, st1.cur) && EmptyAt(st1, f)
    requires |st.g.blocks| <= st1.cur < |st1.g.blocks| && b < |st1.g.blocks| && |st.g.blocks| <= f < |st1.g.blocks| && f != st1.cur
    requires Becomes(st1, t, st2) && r == Jump(st2, b, f) && Fits(r, code, |st.g.blocks|)
    ensures ArmAt(code, st1, t, st2, r, b, f) && PartOf(st1, code) && r.cur == f && EmptyAt(r, f) && r.scopes == st.scopes
  {
    StmtGrows(st1, t, st2);
    ArmGrown(st, st1, st2, st1.cur, b, f, r);
    EarlierFits(st2, r, {st2.cur}, code, |st.g.blocks|, |st1.g.blocks|);
    EarlierPart(st1, st2, {st1.cur}, code);
    BlocksThere(st1, code, b, f);
  }

  /** From `a` to the start of an arm, through it to its end, and with a jump to
      where `last` begins. */
  lemma ArmDone(m: M.Machine, code: Code, a: Conf, c: Conf, st2: Build, b: Block, f: Block, r: Build, last: Build,
                res: Result, fuel: nat, regs': M.Regs, mem': M.Memory, d: nat)
    returns (d': nat)
    requires Goes(m, code, a, c, 1) && Does(m, code, c, st2, res, fuel, regs', mem', d)
    requires r == Jump(st2, b, f) && b in code.body && PartOf(r, code)
    requires last.cur == b && EmptyAt(last, b) && last.scopes == st2.scopes
    ensures Does(m, code, a, last, res, fuel, regs', mem', d') && Does(m, code, a, last, res, fuel + 1, regs', mem', d') && d' > 0
  {
    d' := d + 1;
    if res.Fine? {
      BrRuns(m, code, st2, b, r, regs', mem', res.trace);
      GoesTrans(m, code, c, EndOf(st2, regs', mem', res.trace), Conf(b, 0, regs', mem', res.trace), d, 1);
      d' := d' + 1;
    }
    DoesAfter(m, code, a, c, 1, last, res, fuel, fuel, regs', mem', d' - 1);
    DoesAfter(m, code, a, c, 1, last, res, fuel, fuel + 1, regs', mem', d' - 1);
  }

  /** From `a` to the start of an arm, through it, and on to `b`. */
  lemma {:induction false} ArmRuns(m: M.Machine, code: Code, a: Conf, st1: Build, t: Stmt, st2: Build, r: Build, b: Block, f: Block, last: Build,
                                   env: Env, regs: M.Regs, mem: M.Memory, trace: seq<M.Event>, fuel: nat)
    returns (regs': M.Regs, mem': M.Memory, d: nat)
    requires ArmAt(code, st1, t, st2, r, b, f) && Corr(st1.scopes, env, mem) && Apart(st1.scopes, st1.slots)
    requires Goes(m, code, a, Conf(st1.cur, 0, regs, mem, trace), 1)
    requires last.cur == b && EmptyAt(last, b) && last.scopes == st1.scopes
    ensures Does(m, code, a, last, Run(m, t, env, trace, fuel, false), fuel, regs', mem', d)
    ensures Does(m, code, a, last, Run(m, t, env, trace, fuel, false), fuel + 1, regs', mem', d) && d > 0
    decreases fuel, t, 3
  {
    regs', mem', d := StmtRuns(m, code, st1, t, st2, env, regs, mem, trace, fuel);
    d := ArmDone(m, code, a, EndOf(st1, regs, mem, trace), st2, b, f, r, last, Run(m, t, env, trace, fuel, false), fuel, regs', mem', d);
  }

  lemma {:induction false} StmtRuns(m: M.Machine, code: Code, st: Build, s: Stmt, r: Build,
                                    env: Env, regs: M.Regs, mem: M.Memory, trace: seq<M.Event>, fuel: nat)
    returns (regs': M.Regs, mem': M.Memory, d: nat)
    requires Ready(st, env, mem) && Becomes(st, s, r) && Fits(r, code, |st.g.blocks|)
    ensures Does(m, code, EndOf(st, regs, mem, trace), r, Run(m, s, env, trace, fuel, false), fuel, regs', mem', d)
    decreases fuel, s, 2
  {
    regs', mem', d := regs, mem, 0;
    match s
    case Nothing =>
      SimpleBecomes(st, s, r);
      GoesOn(m, code, EndOf(st, regs, mem, trace), EndOf(st, regs, mem, trace));
    case Do(e) =>
      SimpleBecomes(st, s, r);
      if Evaluate(m, e, env, trace).Some? {
        ExprGrows(st, e);
        var out := Evaluate(m, e, env, trace);
        regs', mem' := ExprRuns(m, code, st, e, env, regs, mem, trace);
        GoesOn(m, code, EndOf(st, regs, mem, trace), EndOf(r, regs', mem', out.trace));
      }
    case If(_, _) => regs', mem', d := IfRuns(m, code, st, s, r, env, regs, mem, trace, fuel);
    case IfElse(_, _, _) => regs', mem', d := IfElseRuns(m, code, st, s, r, env, regs, mem, trace, fuel);
    case While(_, _) => regs', mem', d := WhileRuns(m, code, st, s, r, env, regs, mem, trace, fuel);
    case Compound(_, _) => regs', mem', d := CompoundRuns(m, code, st, s, r, env, regs, mem, trace, fuel);
  }

  lemma {:induction false} IfRuns(m: M.Machine, code: Code, st: Build, s: Stmt, r: Build,
                                  env: Env, regs: M.Regs, mem: M.Memory, trace: seq<M.Event>, fuel: nat)
    returns (regs': M.Regs, mem': M.Memory, d: nat)
    requires Ready(st, env, mem) && s.If? && Becomes(st, s, r) && Fits(r, code, |st.g.blocks|)
    ensures Does(m, code, EndOf(st, regs, mem, trace), r, RunIf(m, s, env, trace, fuel, false), fuel, regs', mem', d)
    decreases fuel, s, 1
  {
    regs', mem', d := regs, mem, 0;
    if Evaluate(m, s.cond, env, trace).Some? {
      var t, f, a, out := |st.g.blocks|, |st.g.blocks| + 1, EndOf(st, regs, mem, trace), Evaluate(m, s.cond, env, trace);
      var (b, trace') := Holds(m, out.w, out.trace);
      var cond, st0, st1, st2 := IfBecomes(st, s, r, t, f);
      ForkGrows(st, s.cond, cond, st0, st1, t, f);
      ArmParts(code, st, st1, s.then_, st2, r, f, f);
      regs', mem' := ForkRuns(m, code, st, s.cond, cond, st0, st1, t, f, env, regs, mem, trace);
      if b {
        ApartLonger(st.scopes, st.slots, st1.slots);
        regs', mem', d := ArmRuns(m, code, a, st1, s.then_, st2, r, f, f, r, out.env, regs', mem', trace', fuel);
      } else {
        DoesNothing(m, code, a, r, out.env, regs', mem', trace', fuel);
        d := 1;
      }
    }
  }

  // ----- if with else -----

  /** Where the instructions of a block end, nothing goes on. */
  lemma EndIsLost(m: M.Machine, code: Code, b: Block, k: nat, regs: M.Regs, mem: M.Memory, trace: seq<M.Event>)
    requires b in code.body && k == |code.body[b]|
    ensures After(m, code, Conf(b, k, regs, mem, trace), 0) == M.Broken(trace)
  {
    assert code.body[b][k..] == [];
  }

  /** Where an arm ends, the code gets lost: in the empty block after the arms,
      or at once. */
  lemma ArmIsLost(m: M.Machine, code: Code, st3: Build, x: Block, r: Build, lo: nat, b: Block,
                  regs: M.Regs, mem: M.Memory, trace: seq<M.Event>)
    returns (k: nat)
    requires Sound(st3) && lo <= x < |st3.g.blocks| && x != st3.cur && r == EndArms(st3, x) && Fits(r, code, lo)
    requires b == x || (b == st3.cur && !Ended(st3))
    ensures After(m, code, Conf(b, |ListOf(st3.code.body, b)|, regs, mem, trace), k) == M.Broken(trace)
  {
    if Ended(st3) {
      k := 0;
      assert SettledAt(r, code, lo, x);
      EndIsLost(m, code, x, |ListOf(st3.code.body, x)|, regs, mem, trace);
    } else {
      k := 1;
      var n, st4, st5 := |st3.g.blocks|, st3.NewBlock(), st3.NewBlock().At(x);
      var st6 := st5.Br(n).At(st3.cur);
      JumpIsLost(m, code, st3, x, st4, st5, st6, n, r, lo, b, regs, mem, trace);
    }
  }

  lemma JumpIsLost(m: M.Machine, code: Code, st3: Build, x: Block, st4: Build, st5: Build, st6: Build, n: Block, r: Build, lo: nat, b: Block,
                   regs: M.Regs, mem: M.Memory, trace: seq<M.Event>)
    requires Sound(st3) && lo <= x < n && x != st3.cur && ArmsOf(st3, x, st4, st5, st6, n) && r == st6.Br(n) && Fits(r, code, lo)
    requires b == x || b == st3.cur
    ensures After(m, code, Conf(b, |ListOf(st3.code.body, b)|, regs, mem, trace), 1) == M.Broken(trace)
  {
    ArmsGrow(st3, x, st4, st5, st6, n, r);
    assert SettledAt(r, code, lo, n);
    EarlierPart(st6, r, {st3.cur}, code);
    var c := Conf(b, |ListOf(st3.code.body, b)|, regs, mem, trace);
    if b == x {
      BrRuns(m, code, st5, n, st6, regs, mem, trace);
    } else {
      BrRuns(m, code, st6, n, r, regs, mem, trace);
    }
    var zero: nat := 0;
    assert Same(m, code, c, Conf(n, 0, regs, mem, trace), 1, zero);
    EndIsLost(m, code, n, 0, regs, mem, trace);
  }

  /** An arm that comes to its end gets lost there. */
  lemma ArmFalls(m: M.Machine, code: Code, a: Conf, c: Conf, st2: Build, r: Build, res: Result, fuel: nat,
                 regs': M.Regs, mem': M.Memory, d: nat, k: nat)
    returns (d': nat)
    requires Goes(m, code, a, c, 1) && Does(m, code, c, st2, res, fuel, regs', mem', d)
    requires res.Fine? ==> After(m, code, EndOf(st2, regs', mem', res.trace), k) == M.Broken(res.trace)
    ensures Does(m, code, a, r, AfterArm(res, false), fuel, regs', mem', d')
  {
    d' := d;
    if res.Fine? {
      assert Same(m, code, c, EndOf(st2, regs', mem', res.trace), d, k);
      d' := k + d;
    }
    DoesAfter(m, code, a, c, 1, r, AfterArm(res, false), fuel, fuel, regs', mem', d');
    d' := d' + 1;
  }

  /** The states of an `if` with `else`: the arms begin in `st1` and `st2'`, and
      end in `st2` and `st3`. */
  ghost predicate ArmsFit(code: Code, s: Stmt, st1: Build, st2: Build, st2': Build, st3: Build, t: Block, f: Block, lo: nat, r: Build)
    requires s.IfElse?
  {
    && Sound(st1) && EmptyAt(st1, t) && st1.cur == t && Becomes(st1, s.then_, st2) && Fits(st2, code, |st1.g.blocks|)
    && Sound(st2') && EmptyAt(st2', f) && st2'.cur == f && Becomes(st2', s.else_, st3) && Fits(st3, code, |st2'.g.blocks|)
    && st2'.scopes == st1.scopes && st2'.slots >= st1.slots
    && Sound(st3) && lo <= st2.cur < |st3.g.blocks| && st2.cur != st3.cur && r == EndArms(st3, st2.cur) && Fits(r, code, lo)
    && ListOf(st3.code.body, st2.cur) == ListOf(st2.code.body, st2.cur)
  }

  lemma IfElseParts(code: Code, st: Build, s: Stmt, r: Build, t: Block, f: Block, cond: Lowered, st0: Build,
                    st1: Build, st2: Build, st2': Build, st3: Build)
    requires Sound(st) && s.IfElse? && Fits(r, code, |st.g.blocks|)
    requires ForkOf(st, s.cond, cond, st0, st1, t, f) && Becomes(st1, s.then_, st2)
    requires st2' == GoTo(st2, f) && Becomes(st2', s.else_, st3) && r == EndArms(st3, st2.cur)
    ensures ArmsFit(code, s, st1, st2, st2', st3, t, f, |st.g.blocks|, r)
    ensures PartOf(st1, code) && st1.scopes == st.scopes && st1.slots >= st.slots
  {
    ForkGrows(st, s.cond, cond, st0, st1, t, f);
    StmtGrows(st1, s.then_, st2);
    SameSound(st2, st2');
    StmtGrows(st2', s.else_, st3);
    ElseGrown(st, st1, st2, st2', st3, t, f);
    ArmsBefore(code, st1, st2, st2', st3, t, f, |st.g.blocks|, r);
    EarlierPart(st1, st2, {t}, code);
  }

  lemma ArmsBefore(code: Code, st1: Build, st2: Build, st2': Build, st3: Build, t: Block, f: Block, lo: nat, r: Build)
    requires Sound(st1) && StmtGrown(st1, st2) && st1.cur == t && lo <= t < f && |st1.g.blocks| == f + 1
    requires st2' == GoTo(st2, f) && StmtGrown(st2', st3) && Grows(st2, st3, {f}) && st2.cur != st3.cur && st2.cur < |st3.g.blocks|
    requires r == EndArms(st3, st2.cur) && Fits(r, code, lo)
    ensures Fits(st2, code, |st1.g.blocks|) && Fits(st3, code, |st2'.g.blocks|)
  {
    var x, y := st2.cur, st3.cur;
    EndArmsGrow(st3, x, r);
    EarlierFits(st3, r, {x, y}, code, lo, |st2'.g.blocks|);
    MoreGrows(st2, st3, {f}, {f, x, y});
    GrowsTrans(st2, st3, r, {f, x, y}, {x, y});
    EarlierFits(st2, r, {f, x, y}, code, lo, |st1.g.blocks|);
  }

  lemma EndArmsGrow(st3: Build, x: Block, r: Build)
    requires Sound(st3) && x < |st3.g.blocks| && x != st3.cur && r == EndArms(st3, x)
    ensures Sound(r) && Grows(st3, r, {x, st3.cur}) && r.cur == st3.cur
  {
    if Ended(st3) {
      SameSound(st3, st3);
      WidenGrows(st3, st3, {x, st3.cur});
    } else {
      var n, st4, st5 := |st3.g.blocks|, st3.NewBlock(), st3.NewBlock().At(x);
      ArmsGrow(st3, x, st4, st5, st5.Br(n).At(st3.cur), n, r);
    }
  }

  lemma {:induction false} IfElseRuns(m: M.Machine, code: Code, st: Build, s: Stmt, r: Build,
                                      env: Env, regs: M.Regs, mem: M.Memory, trace: seq<M.Event>, fuel: nat)
    returns (regs': M.Regs, mem': M.Memory, d: nat)
    requires Ready(st, env, mem) && s.IfElse? && Becomes(st, s, r) && Fits(r, code, |st.g.blocks|)
    ensures Does(m, code, EndOf(st, regs, mem, trace), r, RunIfElse(m, s, env, trace, fuel, false), fuel, regs', mem', d)
    decreases fuel, s, 1
  {
    regs', mem', d := regs, mem, 0;
    if Evaluate(m, s.cond, env, trace).Some? {
      var t, f, c, out := |st.g.blocks|, |st.g.blocks| + 1, EndOf(st, regs, mem, trace), Evaluate(m, s.cond, env, trace);
      var (b, trace') := Holds(m, out.w, out.trace);
      var cond, st0, st1, st2, st2', st3 := IfElseBecomes(st, s, r, t, f);
      IfElseParts(code, st, s, r, t, f, cond, st0, st1, st2, st2', st3);
      regs', mem' := ForkRuns(m, code, st, s.cond, cond, st0, st1, t, f, env, regs, mem, trace);
      ApartLonger(st.scopes, st.slots, st2'.slots);
      ApartLonger(st.scopes, st.slots, st1.slots);
      regs', mem', d := OneArmRuns(m, code, c, s, st1, st2, st2', st3, t, f, |st.g.blocks|, r, b, out.env, regs', mem', trace', fuel,
                                   if b then Run(m, s.then_, out.env, trace', fuel, false) else Run(m, s.else_, out.env, trace', fuel, false));
    }
  }

  lemma {:induction false} OneArmRuns(m: M.Machine, code: Code, c: Conf, s: Stmt, st1: Build, st2: Build, st2': Build, st3: Build,
                                      t: Block, f: Block, lo: nat, r: Build,
                                      b: bool, env: Env, regs: M.Regs, mem: M.Memory, trace: seq<M.Event>, fuel: nat, res: Result)
    returns (regs': M.Regs, mem': M.Memory, d: nat)
    requires s.IfElse? && res == (if b then Run(m, s.then_, env, trace, fuel, false) else Run(m, s.else_, env, trace, fuel, false))
    requires ArmsFit(code, s, st1, st2, st2', st3, t, f, lo, r)
    requires Corr(st1.scopes, env, mem) && Apart(st1.scopes, st1.slots) && Apart(st1.scopes, st2'.slots)
    requires Goes(m, code, c, Conf(if b then t else f, 0, regs, mem, trace), 1)
    ensures Does(m, code, c, r, AfterArm(res, false), fuel, regs', mem', d)
    decreases fuel, s, 0
  {
    var k: nat := 0;
    if b {
      regs', mem', d := StmtRuns(m, code, st1, s.then_, st2, env, regs, mem, trace, fuel);
      if res.Fine? { k := ArmIsLost(m, code, st3, st2.cur, r, lo, st2.cur, regs', mem', res.trace); }
      d := ArmFalls(m, code, c, EndOf(st1, regs, mem, trace), st2, r, res, fuel, regs', mem', d, k);
    } else {
      regs', mem', d := StmtRuns(m, code, st2', s.else_, st3, env, regs, mem, trace, fuel);
      if res.Fine? { k := ArmIsLost(m, code, st3, st2.cur, r, lo, st3.cur, regs', mem', res.trace); }
      d := ArmFalls(m, code, c, EndOf(st2', regs, mem, trace), st3, r, res, fuel, regs', mem', d, k);
    }
  }

  // ----- loops -----

  lemma WhileParts(code: Code, st: Build, s: Stmt, r: Build, n: Block, t: Block, f: Block,
                   st0: Build, st1: Build, cond: Lowered, st2: Build, st3: Build)
    requires Sound(st) && s.While? && Fits(r, code, |st.g.blocks|)
    requires LoopOf(st, s.cond, st0, st1, cond, st2, n, t, f) && Becomes(st2, s.body, st3) && r == Jump(st3, n, f)
    ensures Sound(st1) && st1.cur == n && |st1.g.blocks| == f + 1 && st1.scopes == st.scopes && st1.slots >= st.slots
    ensures EmptyAt(st1, n) && EmptyAt(st1, t) && EmptyAt(st1, f) && PartOf(st1, code)
    ensures ArmAt(code, st2, s.body, st3, r, n, f) && st2.cur == t && st2.scopes == st.scopes && st2.slots >= st.slots
    ensures PartOf(st2, code) && EmptyAt(r, f) && r.cur == f && r.scopes == st.scopes
  {
    LoopGrows(st, s.cond, st0, st1, cond, st2, n, t, f);
    LoopEntered(st, s.cond, st0, st1, cond, st2, n, t, f);
    ArmParts(code, st, st2, s.body, st3, r, n, f);
    EarlierPart(cond.st, st2, {n}, code);
    EarlierPart(st1, cond.st, {n}, code);
  }

  lemma {:induction false} WhileRuns(m: M.Machine, code: Code, st: Build, s: Stmt, r: Build,
                                     env: Env, regs: M.Regs, mem: M.Memory, trace: seq<M.Event>, fuel: nat)
    returns (regs': M.Regs, mem': M.Memory, d: nat)
    requires Ready(st, env, mem) && s.While? && Becomes(st, s, r) && Fits(r, code, |st.g.blocks|)
    ensures Does(m, code, EndOf(st, regs, mem, trace), r, RunWhile(m, s, env, trace, fuel, false), fuel, regs', mem', d)
    decreases fuel, s, 1
  {
    var n, t, f, a := |st.g.blocks|, |st.g.blocks| + 1, |st.g.blocks| + 2, EndOf(st, regs, mem, trace);
    var st0, st1, cond, st2, st3 := WhileBecomes(st, s, r, n, t, f);
    WhileParts(code, st, s, r, n, t, f, st0, st1, cond, st2, st3);
    EnterRuns(m, code, st, s.cond, st0, st1, cond, st2, n, t, f, regs, mem, trace);
    regs', mem', d := LoopRuns(m, code, st, s, st0, st1, cond, st2, st3, r, n, t, f, env, regs, mem, trace, fuel);
    DoesAfter(m, code, a, Conf(n, 0, regs, mem, trace), 1, r, RunWhile(m, s, env, trace, fuel, false), fuel, fuel, regs', mem', d);
    d := d + 1;
  }

  lemma EnterRuns(m: M.Machine, code: Code, st: Build, c: Expr, st0: Build, st1: Build, cond: Lowered, st2: Build,
                  n: Block, t: Block, f: Block, regs: M.Regs, mem: M.Memory, trace: seq<M.Event>)
    requires Sound(st) && !Ended(st) && LoopOf(st, c, st0, st1, cond, st2, n, t, f) && PartOf(st1, code)
    ensures Goes(m, code, EndOf(st, regs, mem, trace), Conf(n, 0, regs, mem, trace), 1)
  {
    LoopEntered(st, c, st0, st1, cond, st2, n, t, f);
    BlocksThere(st1, code, n, n);
    assert OneLevel(0) && st1 == st0.Br(n).At(n);
    BrRuns(m, code, st0, n, st1, regs, mem, trace);
  }

  /** The loop from its condition on, as often as it goes round. */
  lemma {:induction false} LoopRuns(m: M.Machine, code: Code, st: Build, s: Stmt,
                                    st0: Build, st1: Build, cond: Lowered, st2: Build, st3: Build, r: Build, n: Block, t: Block, f: Block,
                                    env: Env, regs: M.Regs, mem: M.Memory, trace: seq<M.Event>, fuel: nat)
    returns (regs': M.Regs, mem': M.Memory, d: nat)
    requires Ready(st, env, mem) && s.While? && Fits(r, code, |st.g.blocks|)
    requires LoopOf(st, s.cond, st0, st1, cond, st2, n, t, f) && Becomes(st2, s.body, st3) && r == Jump(st3, n, f)
    ensures Does(m, code, Conf(n, 0, regs, mem, trace), r, RunWhile(m, s, env, trace, fuel, false), fuel, regs', mem', d)
    decreases fuel, s, 0
  {
    regs', mem', d := regs, mem, 0;
    if Evaluate(m, s.cond, env, trace).Some? {
      var a, out := Conf(n, 0, regs, mem, trace), Evaluate(m, s.cond, env, trace);
      var (b, trace') := Holds(m, out.w, out.trace);
      WhileParts(code, st, s, r, n, t, f, st0, st1, cond, st2, st3);
      ApartLonger(st.scopes, st.slots, st1.slots);
      regs', mem' := LoopTestRuns(m, code, st, s.cond, st0, st1, cond, st2, n, t, f, env, regs, mem, trace);
      if !b {
        DoesNothing(m, code, a, r, out.env, regs', mem', trace', fuel);
        d := 1;
      } else if fuel > 0 {
        regs', mem', d := RoundRuns(m, code, st, s, st0, st1, cond, st2, st3, r, n, t, f, a, out.env, regs', mem', trace', fuel);
      }
    }
  }

  /** The body, and the loop again. */
  lemma {:induction false} RoundRuns(m: M.Machine, code: Code, st: Build, s: Stmt,
                                     st0: Build, st1: Build, cond: Lowered, st2: Build, st3: Build, r: Build, n: Block, t: Block, f: Block,
                                     a: Conf, env: Env, regs: M.Regs, mem: M.Memory, trace: seq<M.Event>, fuel: nat)
    returns (regs': M.Regs, mem': M.Memory, d: nat)
    requires Ready(st, env, mem) && s.While? && Fits(r, code, |st.g.blocks|) && fuel > 0
    requires LoopOf(st, s.cond, st0, st1, cond, st2, n, t, f) && Becomes(st2, s.body, st3) && r == Jump(st3, n, f)
    requires Goes(m, code, a, Conf(t, 0, regs, mem, trace), 1)
    ensures Does(m, code, a, r, RunRound(m, s, env, trace, fuel - 1, false), fuel, regs', mem', d)
    decreases fuel - 1, s, 5
  {
    WhileParts(code, st, s, r, n, t, f, st0, st1, cond, st2, st3);
    ApartLonger(st.scopes, st.slots, st2.slots);
    regs', mem', d := ArmRuns(m, code, a, st2, s.body, st3, r, n, f, st1, env, regs, mem, trace, fuel - 1);
    var res := Run(m, s.body, env, trace, fuel - 1, false);
    if res.Fine? {
      var c, e := EndOf(st1, regs', mem', res.trace), d;
      regs', mem', d := LoopRuns(m, code, st, s, st0, st1, cond, st2, st3, r, n, t, f, res.env, regs', mem', res.trace, fuel - 1);
      DoesAfter(m, code, a, c, e, r, RunWhile(m, s, res.env, res.trace, fuel - 1, false), fuel - 1, fuel, regs', mem', d);
      d := e + d;
    }
  }

  // ----- compound statements -----

  lemma {:induction false} CompoundRuns(m: M.Machine, code: Code, st: Build, s: Stmt, r: Build,
                                        env: Env, regs: M.Regs, mem: M.Memory, trace: seq<M.Event>, fuel: nat)
    returns (regs': M.Regs, mem': M.Memory, d: nat)
    requires Ready(st, env, mem) && s.Compound? && Becomes(st, s, r) && Fits(r, code, |st.g.blocks|)
    ensures Does(m, code, EndOf(st, regs, mem, trace), r, RunCompound(m, s, env, trace, fuel, false), fuel, regs', mem', d)
    decreases fuel, s, 1
  {
    var st0, st1, a := st.(scopes := st.scopes + [map[]]), OpenLocals(st, s.decls), EndOf(st, regs, mem, trace);
    var st2 := CompoundBecomes(st, s, r, st1);
    var env1 := DeclareAll(env + [map[]], s.decls);
    CompoundOpens(code, st, s.decls, st0, st1, s.stmts, st2, r, env, mem);
    LocalsRun(m, code, st0, s.decls, env + [map[]], regs, mem, trace);
    var res := RunAll(m, s.stmts, env1, trace, fuel, false);
    regs', mem', d := StmtsRun(m, code, st1, s.stmts, st2, env1, regs, mem, trace, fuel);
    GoesOn(m, code, a, EndOf(st1, regs, mem, trace));
    DoesAfter(m, code, a, EndOf(st1, regs, mem, trace), 0, st2, res, fuel, fuel, regs', mem', d);
    if res.Fine? { DropHolds(st2.scopes, res.env, mem'); }
  }

  lemma CompoundOpens(code: Code, st: Build, decls: seq<string>, st0: Build, st1: Build, stmts: seq<Stmt>, st2: Build, r: Build,
                      env: Env, mem: M.Memory)
    requires Ready(st, env, mem) && st0 == st.(scopes := st.scopes + [map[]]) && st1 == DeclareLocals(st0, decls)
    requires BecomesAll(st1, stmts, st2) && r == CloseScope(st2) && Fits(r, code, |st.g.blocks|)
    ensures Sound(st0) && Corr(st0.scopes, env + [map[]], mem) && Apart(st0.scopes, st0.slots)
    ensures Sound(st1) && st1.cur == st.cur && |st1.g.blocks| == |st.g.blocks| && !Ended(st1)
    ensures Fits(st2, code, |st.g.blocks|) && PartOf(st1, code)
  {
    SameSound(st, st0);
    LocalsGrow(st0, decls);
    OpenScope(st.scopes, env, mem, st.slots);
    StmtsGrow(st1, stmts, st2);
    SameSound(st2, r);
    EarlierFits(st2, r, {}, code, |st.g.blocks|, |st.g.blocks|);
    EarlierPart(st1, st2, {st1.cur}, code);
  }

  lemma {:induction false} StmtsRun(m: M.Machine, code: Code, st: Build, stmts: seq<Stmt>, r: Build,
                                    env: Env, regs: M.Regs, mem: M.Memory, trace: seq<M.Event>, fuel: nat)
    returns (regs': M.Regs, mem': M.Memory, d: nat)
    requires Ready(st, env, mem) && BecomesAll(st, stmts, r) && Fits(r, code, |st.g.blocks|)
    ensures Does(m, code, EndOf(st, regs, mem, trace), r, RunAll(m, stmts, env, trace, fuel, false), fuel, regs', mem', d)
    decreases fuel, stmts
  {
    regs', mem', d := regs, mem, 0;
    var a := EndOf(st, regs, mem, trace);
    var st1 := NextBecomes(st, stmts, r);
    if stmts == [] {
      GoesOn(m, code, a, a);
    } else {
      NextFits(code, st, stmts, st1, r);
      regs', mem', d := StmtRuns(m, code, st, stmts[0], st1, env, regs, mem, trace, fuel);
      var res := Run(m, stmts[0], env, trace, fuel, false);
      if res.Fine? {
        var c, e := EndOf(st1, regs', mem', res.trace), d;
        ApartLonger(st.scopes, st.slots, st1.slots);
        regs', mem', d := StmtsRun(m, code, st1, stmts[1..], r, res.env, regs', mem', res.trace, fuel);
        DoesAfter(m, code, a, c, e, r, RunAll(m, stmts[1..], res.env, res.trace, fuel, false), fuel, fuel, regs', mem', d);
        d := e + d;
      }
    }
  }

  lemma NextFits(code: Code, st: Build, stmts: seq<Stmt>, st1: Build, r: Build)
    requires Sound(st) && stmts != [] && Becomes(st, stmts[0], st1) && BecomesAll(st1, stmts[1..], r) && Fits(r, code, |st.g.blocks|)
    ensures StmtGrown(st, st1) && Fits(st1, code, |st.g.blocks|) && Fits(r, code, |st1.g.blocks|)
  {
    StmtGrows(st, stmts[0], st1);
    StmtsGrow(st1, stmts[1..], r);
    EarlierFits(st1, r, {st1.cur}, code, |st.g.blocks|, |st.g.blocks|);
    SameSound(r, r);
    EarlierFits(r, r, {}, code, |st.g.blocks|, |st1.g.blocks|);
  }

  // ----- functions -----

  /** A parameter's slot holds its argument. */
  lemma ParamHolds(scopes: Scopes<Slot>, env: Env, mem: M.Memory, slots: nat, name: string, w: M.Word)
    requires Corr(scopes, env, mem) && Apart(scopes, slots)
    ensures Corr(Push(scopes, name, slots), Push(env, name, w), mem[slots := w]) && Apart(Push(scopes, name, slots), slots + 1)
  {
    var scopes', env', mem', slots' := Push(scopes, name, slots), Push(env, name, w), mem[slots := w], slots + 1;
    var top := |scopes| - 1;
    forall i, a ensures HoldsAt(scopes', env', mem', i, a) {
      assert HoldsAt(scopes, env, mem, i, a) && HoldsAt(scopes, env, mem, top, name) && ApartAt(scopes, slots, i, a, i, a);
    }
    forall i, a, j, b ensures ApartAt(scopes', slots', i, a, j, b) {
      assert ApartAt(scopes, slots, i, a, j, b) && ApartAt(scopes, slots, i, a, i, a) && ApartAt(scopes, slots, j, b, j, b);
    }
  }

  lemma {:induction false} ParamsRun(m: M.Machine, code: Code, st: Build, params: seq<string>, r: Build, regs: M.Regs, mem: M.Memory)
    returns (mem': M.Memory)
    requires Sound(st) && r == LowerParams(st, params) && PartOf(r, code)
    requires Corr(st.scopes, [map[]], mem) && Apart(st.scopes, st.slots)
    ensures Rest(m, code, EndOf(st, regs, mem, [])) == Rest(m, code, EndOf(r, regs, mem', []))
    ensures Corr(r.scopes, Given(m, params), mem') && Apart(r.scopes, r.slots)
  {
    mem' := mem;
    if params != [] {
      var n := |params| - 1;
      var st1 := LowerParams(st, params[..n]);
      ParamsGrow(st, params[..n]);
      ParamParts(code, st1, n, r);
      mem' := ParamsRun(m, code, st, params[..n], st1, regs, mem);
      AllocaRuns(m, code, st1, st1.slots, regs, mem', []);
      var st2 := st1.Emit(Alloca(st1.slots, true), []);
      StoreRuns(m, code, st2, Arg(n), st1.slots, regs, mem', []);
      ParamHolds(st1.scopes, Given(m, params[..n]), mem', st1.slots, params[n], m.leaf(Arg(n)));
      mem' := mem'[st1.slots := m.leaf(Arg(n))];
    }
  }

  lemma ParamParts(code: Code, st1: Build, n: nat, r: Build)
    requires Sound(st1) && PartOf(r, code)
    requires r.code == st1.Emit(Alloca(st1.slots, true), []).Emit(Store, [Arg(n), Addr(st1.slots)]).code
    ensures PartOf(st1, code) && PartOf(st1.Emit(Alloca(st1.slots, true), []), code)
    ensures PartOf(st1.Emit(Alloca(st1.slots, true), []).Emit(Store, [Arg(n), Addr(st1.slots)]), code)
  {
    var st2 := st1.Emit(Alloca(st1.slots, true), []);
    var st3 := st2.Emit(Store, [Arg(n), Addr(st1.slots)]);
    SamePart(st3, r, code);
    EmitSound(st1, Alloca(st1.slots, true), []);
    EmitSound(st2, Store, [Arg(n), Addr(st1.slots)]);
    EarlierPart(st2, st3, {st1.cur}, code);
    EarlierPart(st1, st2, {st1.cur}, code);
  }

  /** The end of the function. */
  lemma ReturnRuns(m: M.Machine, code: Code, st: Build, r: Build, regs: M.Regs, mem: M.Memory, trace: seq<M.Event>)
    requires r == st.Emit(Ret, [Const(0)]) && PartOf(r, code)
    ensures Rest(m, code, EndOf(st, regs, mem, trace)) == M.Return([m.leaf(Const(0))], trace)
  {
    NextToRun(st, Ret, [Const(0)], code);
    assert M.EvalAll(m, regs, [Const(0)]) == [m.leaf(Const(0))];
  }

  /** A run that has ended stays as it is. */
  lemma {:induction false} EndStays(m: M.Machine, code: Code, n: nat, k: nat)
    requires !M.Steps(m, code, M.Start(0), n).At? && k >= n
    ensures M.Steps(m, code, M.Start(0), k) == M.Steps(m, code, M.Start(0), n)
  {
    if k > n {
      EndStays(m, code, n, k - 1);
    }
  }

  lemma FromStart(m: M.Machine, code: Code, n: nat)
    requires 0 in code.body
    ensures After(m, code, Conf(0, 0, map[], map[], []), n) == M.Steps(m, code, M.Start(0), n + 1)
  {
    assert code.body[0][0..] == code.body[0];
    StepsShift(m, code, M.Start(0), n);
  }

  /** The finished function fits itself. */
  lemma WholeFits(st: Build, lo: nat)
    requires Sound(st)
    ensures Fits(st, st.code, lo)
  {
    forall id ensures !st.code.Is(id, Phi) && PartId(st, st.code, id) {
      assert IdAt(st, id);
    }
    forall b ensures PartAt(st, st.code, b) && SettledAt(st, st.code, lo, b) {
      assert ThereAt(st, b);
    }
  }

  lemma FunctionFits(st0: Build, st: Build, r: Build)
    requires Sound(st0) && st0.cur == 0 && |st0.g.blocks| == 1 && StmtGrown(st0, st)
    requires Sound(r) && Grows(st, r, {st.cur}) && r.cur == st.cur
    ensures Fits(st, r.code, |st0.g.blocks|) && PartOf(st0, r.code) && PartOf(r, r.code) && 0 in r.code.body
  {
    WholeFits(r, 1);
    EarlierFits(st, r, {st.cur}, r.code, 1, 1);
    EarlierPart(st0, st, {0}, r.code);
    assert ThereAt(st0, 0) && PartAt(st0, r.code, 0);
  }

  /** What a result of the source says of a run of the code. */
  ghost predicate RunsAs(m: M.Machine, code: Code, res: Result, fuel: nat, n: nat) {
    match res
    case Fine(_, trace) => M.Steps(m, code, M.Start(0), n) == M.Done([m.leaf(Const(0))], trace)
    case OutOfFuel => forall k: nat {:trigger M.Steps(m, code, M.Start(0), k)} :: k <= fuel ==> M.Steps(m, code, M.Start(0), k).At?
    case Fell(trace) => M.Steps(m, code, M.Start(0), n) == M.Broken(trace)
    case Undefined => true
  }

  /** A function whose statements come to their end returns, with the same
      events behind it; one that outlasts its fuel is still running after as
      many blocks; one that comes to the end of an arm of an `if` with `else`
      gets to where there is no instruction. */
  lemma FunctionRuns(m: M.Machine, f: Function, fuel: nat) returns (n: nat)
    ensures RunsAs(m, LowerFunction(f).code, RunFunction(m, f, fuel, false), fuel, n)
  {
    var r := LowerFunction(f);
    var st0, st := FunctionStates(f, r);
    FunctionFits(st0, st, r);
    n := FunctionDoes(m, r, f.params, Compound(f.decls, f.stmts), st0, st, fuel, RunFunction(m, f, fuel, false));
  }

  lemma FunctionDoes(m: M.Machine, r: Build, params: seq<string>, s: Stmt, st0: Build, st: Build, fuel: nat, res: Result) returns (n: nat)
    requires st0 == LowerParams(Empty(), params) && Sound(st0) && !Ended(st0) && st0.cur == 0 && Becomes(st0, s, st)
    requires r == if Ended(st) then st else st.Emit(Ret, [Const(0)])
    requires res == Run(m, s, Given(m, params), [], fuel, false)
    requires Fits(st, r.code, |st0.g.blocks|) && PartOf(st0, r.code) && PartOf(r, r.code) && 0 in r.code.body
    ensures RunsAs(m, r.code, res, fuel, n)
  {
    var mem0 := BeginsRun(m, r.code, params, st0);
    var regs, mem, d := BodyRuns(m, r.code, s, st0, st, Given(m, params), mem0, fuel, res);
    n := d + 1;
    EndsRun(m, r, st, res, fuel, regs, mem, d);
  }

  lemma BodyRuns(m: M.Machine, code: Code, s: Stmt, st0: Build, st: Build, env: Env, mem0: M.Memory, fuel: nat, res: Result)
    returns (regs: M.Regs, mem: M.Memory, d: nat)
    requires Ready(st0, env, mem0) && st0.cur == 0 && Becomes(st0, s, st) && Fits(st, code, |st0.g.blocks|)
    requires res == Run(m, s, env, [], fuel, false)
    requires Rest(m, code, Conf(0, 0, map[], map[], [])) == Rest(m, code, EndOf(st0, map[], mem0, []))
    ensures Does(m, code, Conf(0, 0, map[], map[], []), st, res, fuel, regs, mem, d)
  {
    var c0, c1 := Conf(0, 0, map[], map[], []), EndOf(st0, map[], mem0, []);
    regs, mem, d := StmtRuns(m, code, st0, s, st, env, map[], mem0, [], fuel);
    GoesOn(m, code, c0, c1);
    DoesAfter(m, code, c0, c1, 0, st, res, fuel, fuel, regs, mem, d);
  }

  lemma BeginsRun(m: M.Machine, code: Code, params: seq<string>, st0: Build) returns (mem0: M.Memory)
    requires st0 == LowerParams(Empty(), params) && st0.cur == 0 && PartOf(st0, code)
    ensures Rest(m, code, Conf(0, 0, map[], map[], [])) == Rest(m, code, EndOf(st0, map[], mem0, []))
    ensures Corr(st0.scopes, Given(m, params), mem0) && Apart(st0.scopes, st0.slots)
  {
    EmptySound();
    assert Corr(Empty().scopes, [map[]], map[]) && Apart(Empty().scopes, 0);
    mem0 := ParamsRun(m, code, Empty(), params, st0, map[], map[]);
  }

  lemma EndsRun(m: M.Machine, r: Build, st: Build, res: Result, fuel: nat, regs: M.Regs, mem: M.Memory, d: nat)
    requires (r == if Ended(st) then st else st.Emit(Ret, [Const(0)])) && PartOf(r, r.code) && 0 in r.code.body
    requires Does(m, r.code, Conf(0, 0, map[], map[], []), st, res, fuel, regs, mem, d)
    ensures RunsAs(m, r.code, res, fuel, d + 1)
  {
    var c := Conf(0, 0, map[], map[], []);
    FromStart(m, r.code, d);
    match res
    case Fine(_, trace) =>
      ReturnRuns(m, r.code, st, r, regs, mem, trace);
      var zero: nat := 0;
      assert Same(m, r.code, c, EndOf(st, regs, mem, trace), d, zero);
    case OutOfFuel =>
      forall k: nat | k <= fuel ensures M.Steps(m, r.code, M.Start(0), k).At? {
        if k > 0 {
          assert Running(m, r.code, c, k - 1);
          FromStart(m, r.code, k - 1);
        }
      }
    case Fell(_) =>
    case Undefined =>
  }

  // ----- what the language promises -----

  ghost predicate Returns(m: M.Machine, code: Code, trace: seq<M.Event>) {
    exists n: nat :: M.Steps(m, code, M.Start(0), n) == M.Done([m.leaf(Const(0))], trace)
  }

  /** Where the language lets a function come to its end, the lowered code
      returns with the same events exactly if no arm of an `if` with `else` is
      run to its end. Where there is no `else`, it always does. */
  lemma ReturnsUnlessFell(m: M.Machine, f: Function, fuel: nat)
    requires RunFunction(m, f, fuel, true).Fine?
    ensures Returns(m, LowerFunction(f).code, RunFunction(m, f, fuel, true).trace) <==> !RunFunction(m, f, fuel, false).Fell?
    ensures NoElses(f.stmts) ==> !RunFunction(m, f, fuel, false).Fell?
  {
    var s, env, code := Compound(f.decls, f.stmts), Given(m, f.params), LowerFunction(f).code;
    FallsOrSame(m, s, env, [], fuel);
    var n := FunctionRuns(m, f, fuel);
    var res := RunFunction(m, f, fuel, false);
    if res.Fell? {
      forall k: nat ensures M.Steps(m, code, M.Start(0), k) != M.Done([m.leaf(Const(0))], RunFunction(m, f, fuel, true).trace) {
        if M.Steps(m, code, M.Start(0), k).Done? {
          EndStays(m, code, if k < n then k else n, if k < n then n else k);
        }
      }
    }
  }

  /** `if (1) ; else ;` ends in the language, and its code gets lost. */
  lemma ElseLoses(m: M.Machine)
    ensures RunFunction(m, Lost(), 0, true).Fine?
    ensures !Returns(m, LowerFunction(Lost()).code, RunFunction(m, Lost(), 0, true).trace)
  {
    var s, env := IfElse(Num(1), Nothing, Nothing), Given(m, []) + [map[]];
    assert Lost().stmts == [s] && DeclareAll(env, []) == env;
    var res := Run(m, s, env, [], 0, true);
    assert res.Fine? && Run(m, s, env, [], 0, false) == Fell(res.trace);
    assert RunAll(m, [s], env, [], 0, false) == Fell(res.trace);
    assert [s][1..] == [];
    ReturnsUnlessFell(m, Lost(), 0);
  }
}
