/** Runs that take chosen branches: on some machine, a function with `else` whose
    variables are set first runs to the end of an arm. */
module SourceRuns {
  import opened IR
  import M = Meanings
  import opened Sources

  // ----- machines that decide -----

  /** The condition that is the `n`-th event holds exactly if `n` is in `turns`. */
  function Deciding(turns: set<int>): M.Machine {
    M.Machine((v: Value) => M.Word.Num(0), (trace: seq<M.Event>) => M.Word.Num(|trace|), (w: M.Word) => w.Num? && w.n in turns)
  }

  /** The events of an expression. */
  function Cost(e: Expr): nat
    decreases e, 1
  {
    match e
    case Num(_) => 0
    case Var(_) => 0
    case Binary(_, l, r) => Cost(l) + Cost(r) + 1
    case Compare(_, l, r) => Cost(l) + Cost(r) + 2
    case Assign(_, v) => Cost(v)
    case Call(_, args) => CostAll(args) + 1
  }

  function CostAll(es: seq<Expr>): nat
    decreases es
  {
    if es == [] then 0 else CostAll(es[..|es| - 1]) + Cost(es[|es| - 1])
  }

  /** The events of a statement when no condition holds. */
  function Skip(s: Stmt): nat {
    match s
    case Nothing => 0
    case Do(e) => Cost(e)
    case If(c, _) => Cost(c) + 1
    case IfElse(c, _, f) => Cost(c) + 1 + Skip(f)
    case While(c, _) => Cost(c) + 1
    case Compound(_, stmts) => SkipAll(stmts)
  }

  function SkipAll(stmts: seq<Stmt>): nat {
    if stmts == [] then 0 else Skip(stmts[0]) + SkipAll(stmts[1..])
  }

  /** The conditions that have to hold to come to the end of a first arm, when the
      statement begins after `at` events. */
  function Turns(s: Stmt, at: nat): set<int> {
    if NoElse(s) then {}
    else
      match s
      case If(c, t) => {at + Cost(c) + 1} + Turns(t, at + Cost(c) + 1)
      case IfElse(c, t, _) => {at + Cost(c) + 1} + Turns(t, at + Cost(c) + 1)
      case While(c, body) => {at + Cost(c) + 1} + Turns(body, at + Cost(c) + 1)
      case Compound(_, stmts) => TurnsOf(stmts, at)
      case _ => {}
  }

  function TurnsOf(stmts: seq<Stmt>, at: nat): set<int> {
    if stmts == [] then {}
    else if NoElse(stmts[0]) then TurnsOf(stmts[1..], at + Skip(stmts[0]))
    else Turns(stmts[0], at)
  }

  /** The loops that are gone into on the way. */
  function Rounds(s: Stmt): nat {
    match s
    case If(_, t) => Rounds(t)
    case IfElse(_, t, _) => Rounds(t)
    case While(_, body) => Rounds(body) + 1
    case Compound(_, stmts) => RoundsOf(stmts)
    case _ => 0
  }

  function RoundsOf(stmts: seq<Stmt>): nat {
    if stmts == [] then 0 else Rounds(stmts[0]) + RoundsOf(stmts[1..])
  }

  lemma {:induction false} TurnsAbove(s: Stmt, at: nat)
    ensures forall x {:trigger x in Turns(s, at)} :: x in Turns(s, at) ==> x > at
  {
    if !NoElse(s) {
      match s
      case If(c, t) => TurnsAbove(t, at + Cost(c) + 1);
      case IfElse(c, t, _) => TurnsAbove(t, at + Cost(c) + 1);
      case While(c, body) => TurnsAbove(body, at + Cost(c) + 1);
      case Compound(_, stmts) => TurnsOfAbove(stmts, at);
    }
  }

  lemma {:induction false} TurnsOfAbove(stmts: seq<Stmt>, at: nat)
    ensures forall x {:trigger x in TurnsOf(stmts, at)} :: x in TurnsOf(stmts, at) ==> x > at
  {
    if stmts != [] {
      TurnsAbove(stmts[0], at);
      TurnsOfAbove(stmts[1..], at + Skip(stmts[0]));
    }
  }

  // ----- variables with values -----

  ghost predicate LiveAt(env: Env, n: string) {
    Declared(env, n) && Find(env, n) != M.Undef
  }

  ghost predicate Live(env: Env, names: set<string>) {
    forall n {:trigger LiveAt(env, n)} :: n in names ==> LiveAt(env, n)
  }

  ghost predicate Known(env: Env, names: set<string>) {
    forall n {:trigger Declared(env, n)} :: n in names ==> Declared(env, n)
  }

  ghost predicate SameKeysAt(env: Env, env': Env, i: nat) {
    i < |env| && i < |env'| ==> env[i].Keys == env'[i].Keys
  }

  ghost predicate SameKeys(env: Env, env': Env) {
    |env| == |env'| && forall i: nat {:trigger SameKeysAt(env, env', i)} :: SameKeysAt(env, env', i)
  }

  lemma {:induction false} SameLevel(env: Env, env': Env, n: string)
    requires SameKeys(env, env')
    ensures Level(env, n) == Level(env', n)
  {
    if env != [] {
      var k := |env| - 1;
      assert SameKeysAt(env, env', k);
      forall i: nat ensures SameKeysAt(env[..k], env'[..k], i) { assert SameKeysAt(env, env', i); }
      SameLevel(env[..k], env'[..k], n);
    }
  }

  lemma KeysTrans(a: Env, b: Env, c: Env)
    requires SameKeys(a, b) && SameKeys(b, c)
    ensures SameKeys(a, c)
  {
    forall i: nat ensures SameKeysAt(a, c, i) { assert SameKeysAt(a, b, i) && SameKeysAt(b, c, i); }
  }

  lemma StillKnown(env: Env, env': Env, names: set<string>)
    requires SameKeys(env, env') && Known(env, names)
    ensures Known(env', names)
  {
    forall n | n in names ensures Declared(env', n) {
      assert Declared(env, n);
      SameLevel(env, env', n);
    }
  }

  /** Setting a variable gives it a value, and takes none away. */
  lemma SetIsLive(env: Env, name: string, w: M.Word, live: set<string>)
    requires Declared(env, name) && w != M.Undef && Live(env, live)
    ensures SameKeys(env, SetVar(env, name, w)) && Live(SetVar(env, name, w), live + {name})
  {
    var env' := SetVar(env, name, w);
    forall i: nat ensures SameKeysAt(env, env', i) { }
    forall n | n in live + {name} ensures LiveAt(env', n) {
      SameLevel(env, env', n);
      assert n in live ==> LiveAt(env, n);
    }
  }

  lemma LiveKnown(env: Env, names: set<string>, part: set<string>)
    requires Live(env, names) && part <= names
    ensures Known(env, part) && Live(env, part)
  {
    forall n | n in part ensures Declared(env, n) && LiveAt(env, n) { assert LiveAt(env, n); }
  }

  // ----- expressions -----

  ghost predicate Good(out: Valued, env: Env, trace: seq<M.Event>, cost: nat, live: set<string>) {
    out.Some? && out.w != M.Undef && |out.trace| == |trace| + cost && SameKeys(env, out.env) && Live(out.env, live)
  }

  ghost predicate AllGood(out: ValuedAll, env: Env, trace: seq<M.Event>, cost: nat, live: set<string>) {
    out.AllOf? && |out.trace| == |trace| + cost && SameKeys(env, out.env) && Live(out.env, live)
  }

  lemma SelfKeys(env: Env)
    ensures SameKeys(env, env)
  {
    forall i: nat ensures SameKeysAt(env, env, i) { }
  }

  lemma {:induction false} EvalGood(turns: set<int>, e: Expr, env: Env, trace: seq<M.Event>, live: set<string>)
    requires Live(env, live) && Reads(e) <= live && Known(env, Writes(e))
    ensures Good(Evaluate(Deciding(turns), e, env, trace), env, trace, Cost(e), live + Writes(e))
    decreases e, 1
  {
    var m := Deciding(turns);
    SelfKeys(env);
    match e
    case Num(_) => assert live + Writes(e) == live;
    case Var(name) =>
      assert LiveAt(env, name) && live + Writes(e) == live;
    case Binary(op, l, r) => TwoGood(turns, e, l, r, env, trace, live);
    case Compare(op, l, r) => TwoGood(turns, e, l, r, env, trace, live);
    case Assign(name, v) =>
      EvalGood(turns, v, env, trace, live);
      var out := Evaluate(m, v, env, trace);
      SameLevel(env, out.env, name);
      assert Declared(env, name);
      SetIsLive(out.env, name, out.w, live + Writes(v));
      KeysTrans(env, out.env, SetVar(out.env, name, out.w));
      assert live + Writes(v) + {name} == live + Writes(e);
    case Call(callee, args) => ArgsGood(turns, args, env, trace, live);
  }

  lemma {:induction false} TwoGood(turns: set<int>, e: Expr, l: Expr, r: Expr, env: Env, trace: seq<M.Event>, live: set<string>)
    requires Live(env, live) && l < e && r < e && Reads(l) + Reads(r) <= live && Known(env, Writes(l) + Writes(r))
    ensures AllGood(EvaluateTwo(Deciding(turns), e, l, r, env, trace), env, trace, Cost(l) + Cost(r), live + (Writes(l) + Writes(r)))
    decreases e, 0
  {
    EvalGood(turns, l, env, trace, live);
    var out := Evaluate(Deciding(turns), l, env, trace);
    StillKnown(env, out.env, Writes(l) + Writes(r));
    EvalGood(turns, r, out.env, out.trace, live + Writes(l));
    var out' := Evaluate(Deciding(turns), r, out.env, out.trace);
    KeysTrans(env, out.env, out'.env);
    assert live + Writes(l) + Writes(r) == live + (Writes(l) + Writes(r));
  }

  lemma {:induction false} ArgsGood(turns: set<int>, es: seq<Expr>, env: Env, trace: seq<M.Event>, live: set<string>)
    requires Live(env, live) && ReadsAll(es) <= live && Known(env, WritesAll(es))
    ensures AllGood(EvaluateAll(Deciding(turns), es, env, trace), env, trace, CostAll(es), live + WritesAll(es))
    decreases es
  {
    SelfKeys(env);
    if es == [] {
      assert live + WritesAll(es) == live;
    } else {
      var es', e := es[..|es| - 1], es[|es| - 1];
      ArgsGood(turns, es', env, trace, live);
      var out := EvaluateAll(Deciding(turns), es', env, trace);
      StillKnown(env, out.env, WritesAll(es));
      EvalGood(turns, e, out.env, out.trace, live + WritesAll(es'));
      var out' := Evaluate(Deciding(turns), e, out.env, out.trace);
      KeysTrans(env, out.env, out'.env);
      assert live + WritesAll(es') + Writes(e) == live + WritesAll(es);
    }
  }

  /** A condition holds exactly if its event is one of the turns. */
  lemma CondGood(turns: set<int>, c: Expr, env: Env, trace: seq<M.Event>, names: set<string>) returns (out: Valued, trace': seq<M.Event>)
    requires Live(env, names) && Reads(c) + Writes(c) <= names
    ensures out == Evaluate(Deciding(turns), c, env, trace) && out.Some? && SameKeys(env, out.env) && Live(out.env, names)
    ensures Holds(Deciding(turns), out.w, out.trace) == (|trace| + Cost(c) + 1 in turns, trace') && |trace'| == |trace| + Cost(c) + 1
  {
    LiveKnown(env, names, Writes(c));
    EvalGood(turns, c, env, trace, names);
    assert names + Writes(c) == names;
    out := Evaluate(Deciding(turns), c, env, trace);
    trace' := Holds(Deciding(turns), out.w, out.trace).1;
  }

  // ----- statements that take no turn -----

  ghost predicate EndsWell(res: Result, env: Env, names: set<string>) {
    res.Fine? && SameKeys(env, res.env) && Live(res.env, names)
  }

  /** No turn from `at` on for `n` events. */
  ghost predicate Straight(turns: set<int>, at: nat, n: nat) {
    forall x {:trigger x in turns} :: x in turns ==> x <= at || x > at + n
  }

  /** A scope without variables. */
  lemma ScopeOpens(env: Env, names: set<string>)
    requires Live(env, names)
    ensures Live(env + [map[]], names)
  {
    var env' := env + [map[]];
    assert env'[..|env'| - 1] == env;
    forall n | n in names ensures LiveAt(env', n) { assert LiveAt(env, n); }
  }

  lemma ScopeCloses(env: Env, env': Env, names: set<string>)
    requires SameKeys(env + [map[]], env') && Live(env', names)
    ensures SameKeys(env, Drop(env')) && Live(Drop(env'), names)
  {
    var k := |env|;
    assert SameKeysAt(env + [map[]], env', k) && env'[k].Keys == {};
    forall i: nat ensures SameKeysAt(env, Drop(env'), i) { assert SameKeysAt(env + [map[]], env', i); }
    forall n | n in names ensures LiveAt(Drop(env'), n) {
      assert LiveAt(env', n);
      assert n !in env'[k].Keys && Level(env', n) == Level(env'[..k], n);
    }
  }

  lemma {:induction false} SkipRuns(turns: set<int>, s: Stmt, env: Env, trace: seq<M.Event>, fuel: nat, names: set<string>)
    requires UsesOnly(s, names) && Live(env, names) && Straight(turns, |trace|, Skip(s))
    ensures var res := Run(Deciding(turns), s, env, trace, fuel, true); EndsWell(res, env, names) && |res.trace| == |trace| + Skip(s)
    decreases s
  {
    SelfKeys(env);
    match s
    case Nothing =>
    case Do(e) =>
      LiveKnown(env, names, Writes(e));
      EvalGood(turns, e, env, trace, names);
      assert names + Writes(e) == names;
    case If(c, t) =>
      var out, trace' := CondGood(turns, c, env, trace, names);
    case IfElse(c, t, f) =>
      var out, trace' := CondGood(turns, c, env, trace, names);
      SkipRuns(turns, f, out.env, trace', fuel, names);
      KeysTrans(env, out.env, Run(Deciding(turns), f, out.env, trace', fuel, true).env);
    case While(c, body) =>
      var out, trace' := CondGood(turns, c, env, trace, names);
    case Compound(decls, stmts) =>
      ScopeOpens(env, names);
      AllSkipRun(turns, stmts, env + [map[]], trace, fuel, names);
      assert DeclareAll(env + [map[]], decls) == env + [map[]];
      ScopeCloses(env, RunAll(Deciding(turns), stmts, env + [map[]], trace, fuel, true).env, names);
  }

  lemma {:induction false} AllSkipRun(turns: set<int>, stmts: seq<Stmt>, env: Env, trace: seq<M.Event>, fuel: nat, names: set<string>)
    requires AllUseOnly(stmts, names) && Live(env, names) && Straight(turns, |trace|, SkipAll(stmts))
    ensures var res := RunAll(Deciding(turns), stmts, env, trace, fuel, true); EndsWell(res, env, names) && |res.trace| == |trace| + SkipAll(stmts)
    decreases stmts
  {
    SelfKeys(env);
    if stmts != [] {
      SkipRuns(turns, stmts[0], env, trace, fuel, names);
      var res := Run(Deciding(turns), stmts[0], env, trace, fuel, true);
      AllSkipRun(turns, stmts[1..], res.env, res.trace, fuel, names);
      KeysTrans(env, res.env, RunAll(Deciding(turns), stmts[1..], res.env, res.trace, fuel, true).env);
    }
  }

  // ----- statements that take their turns -----

  /** From `at` on, exactly these turns. */
  ghost predicate Exactly(turns: set<int>, at: nat, ts: set<int>) {
    forall x {:trigger x in turns} {:trigger x in ts} :: x > at ==> (x in turns <==> x in ts)
  }

  /** As the language has it, the statement ends, after the last of the turns; as
      it is lowered, it falls. */
  ghost predicate Falls(turns: set<int>, res: Result, res': Result, env: Env, names: set<string>) {
    && EndsWell(res, env, names) && res'.Fell?
    && forall x {:trigger x in turns} :: x in turns ==> x <= |res.trace|
  }

  lemma NoTurnsLeft(turns: set<int>, at: nat, n: nat)
    requires Exactly(turns, at, {}) || forall x {:trigger x in turns} :: x in turns ==> x <= at
    ensures Straight(turns, at, n) && forall x {:trigger x in turns} :: x in turns ==> x <= at
  {
    forall x | x in turns ensures x <= at { }
  }

  lemma TurnsLater(turns: set<int>, at: nat, n: nat, ts: set<int>)
    requires Exactly(turns, at, ts) && forall x {:trigger x in ts} :: x in ts ==> x > at + n
    ensures Straight(turns, at, n) && Exactly(turns, at + n, ts)
  {
    forall x | x in turns ensures x <= at || x > at + n { assert x > at ==> x in ts; }
  }

  /** The turn at the condition, and those behind it. */
  lemma TurnTaken(turns: set<int>, at: nat, p: nat, ts: set<int>)
    requires Exactly(turns, at, {p} + ts) && p > at && forall x {:trigger x in ts} :: x in ts ==> x > p
    ensures p in turns && Exactly(turns, p, ts)
  {
    assert p in {p} + ts;
    forall x | x > p ensures x in turns <==> x in ts { assert x in {p} + ts <==> x in ts; }
  }

  /** An arm with its own turns, or with none. */
  lemma {:induction false} ArmFalls(turns: set<int>, t: Stmt, env: Env, trace: seq<M.Event>, fuel: nat, names: set<string>)
    requires UsesOnly(t, names) && Live(env, names) && Exactly(turns, |trace|, Turns(t, |trace|)) && fuel >= Rounds(t)
    ensures var m := Deciding(turns);
            Falls(turns, Run(m, t, env, trace, fuel, true), AfterArm(Run(m, t, env, trace, fuel, false), false), env, names)
    decreases t, 1
  {
    if NoElse(t) {
      NoTurnsLeft(turns, |trace|, Skip(t));
      SkipRuns(turns, t, env, trace, fuel, names);
      FallsOrSame(Deciding(turns), t, env, trace, fuel);
    } else {
      TurnRuns(turns, t, env, trace, fuel, names);
    }
  }

  lemma {:induction false} TurnRuns(turns: set<int>, s: Stmt, env: Env, trace: seq<M.Event>, fuel: nat, names: set<string>)
    requires UsesOnly(s, names) && Live(env, names) && !NoElse(s) && Exactly(turns, |trace|, Turns(s, |trace|)) && fuel >= Rounds(s)
    ensures var m := Deciding(turns); Falls(turns, Run(m, s, env, trace, fuel, true), Run(m, s, env, trace, fuel, false), env, names)
    decreases s, 0
  {
    var m := Deciding(turns);
    match s
    case If(c, t) =>
      var out, trace' := CondGood(turns, c, env, trace, names);
      TurnsAbove(t, |trace'|);
      TurnTaken(turns, |trace|, |trace'|, Turns(t, |trace'|));
      TurnRuns(turns, t, out.env, trace', fuel, names);
      KeysTrans(env, out.env, Run(m, t, out.env, trace', fuel, true).env);
    case IfElse(c, t, f) =>
      var out, trace' := CondGood(turns, c, env, trace, names);
      TurnsAbove(t, |trace'|);
      TurnTaken(turns, |trace|, |trace'|, Turns(t, |trace'|));
      ArmFalls(turns, t, out.env, trace', fuel, names);
      KeysTrans(env, out.env, Run(m, t, out.env, trace', fuel, true).env);
    case While(c, body) =>
      var out, trace' := CondGood(turns, c, env, trace, names);
      TurnsAbove(body, |trace'|);
      TurnTaken(turns, |trace|, |trace'|, Turns(body, |trace'|));
      TurnRuns(turns, body, out.env, trace', fuel - 1, names);
      LoopEnds(turns, s, env, out.env, trace', fuel - 1, names);
    case Compound(decls, stmts) =>
      ScopeOpens(env, names);
      assert DeclareAll(env + [map[]], decls) == env + [map[]];
      TurnsRun(turns, stmts, env + [map[]], trace, fuel, names);
      ScopeCloses(env, RunAll(m, stmts, env + [map[]], trace, fuel, true).env, names);
  }

  /** After the round that was taken, the loop ends. */
  lemma LoopEnds(turns: set<int>, s: Stmt, env0: Env, env: Env, trace: seq<M.Event>, fuel: nat, names: set<string>)
    requires s.While? && UsesOnly(s, names) && SameKeys(env0, env)
    requires var m := Deciding(turns); Falls(turns, Run(m, s.body, env, trace, fuel, true), Run(m, s.body, env, trace, fuel, false), env, names)
    ensures var m := Deciding(turns); Falls(turns, RunRound(m, s, env, trace, fuel, true), RunRound(m, s, env, trace, fuel, false), env0, names)
  {
    var m := Deciding(turns);
    var res := Run(m, s.body, env, trace, fuel, true);
    NoTurnsLeft(turns, |res.trace|, Skip(s));
    SkipRuns(turns, s, res.env, res.trace, fuel, names);
    var res' := Run(m, s, res.env, res.trace, fuel, true);
    assert res' == RunWhile(m, s, res.env, res.trace, fuel, true);
    KeysTrans(env0, env, res.env);
    KeysTrans(env0, res.env, res'.env);
  }

  lemma {:induction false} TurnsRun(turns: set<int>, stmts: seq<Stmt>, env: Env, trace: seq<M.Event>, fuel: nat, names: set<string>)
    requires AllUseOnly(stmts, names) && Live(env, names) && !NoElses(stmts) && Exactly(turns, |trace|, TurnsOf(stmts, |trace|))
    requires fuel >= RoundsOf(stmts)
    ensures var m := Deciding(turns); Falls(turns, RunAll(m, stmts, env, trace, fuel, true), RunAll(m, stmts, env, trace, fuel, false), env, names)
    decreases stmts
  {
    var m := Deciding(turns);
    var s, rest := stmts[0], stmts[1..];
    if NoElse(s) {
      TurnsOfAbove(rest, |trace| + Skip(s));
      TurnsLater(turns, |trace|, Skip(s), TurnsOf(rest, |trace| + Skip(s)));
      SkipRuns(turns, s, env, trace, fuel, names);
      FallsOrSame(m, s, env, trace, fuel);
      var res := Run(m, s, env, trace, fuel, true);
      TurnsRun(turns, rest, res.env, res.trace, fuel, names);
      KeysTrans(env, res.env, RunAll(m, rest, res.env, res.trace, fuel, true).env);
    } else {
      TurnRuns(turns, s, env, trace, fuel, names);
      var res := Run(m, s, env, trace, fuel, true);
      NoTurnsLeft(turns, |res.trace|, SkipAll(rest));
      AllSkipRun(turns, rest, res.env, res.trace, fuel, names);
      KeysTrans(env, res.env, RunAll(m, rest, res.env, res.trace, fuel, true).env);
    }
  }

  // ----- functions -----

  /** The first statements, which set the variables. */
  lemma {:induction false} LeadRuns(turns: set<int>, stmts: seq<Stmt>, env: Env, trace: seq<M.Event>, fuel: nat, names: set<string>, todo: set<string>)
    requires AllUseOnly(stmts, names) && SetsAll(stmts, todo) && Known(env, names) && Live(env, names - todo) && !NoElses(stmts)
    requires Exactly(turns, |trace|, TurnsOf(stmts, |trace|)) && fuel >= RoundsOf(stmts)
    ensures var m := Deciding(turns); RunAll(m, stmts, env, trace, fuel, true).Fine? && RunAll(m, stmts, env, trace, fuel, false).Fell?
    decreases stmts
  {
    if todo == {} {
      assert names - todo == names;
      TurnsRun(turns, stmts, env, trace, fuel, names);
    } else {
      var e, rest := stmts[0].e, stmts[1..];
      assert UsesOnly(stmts[0], names) && NoElse(stmts[0]);
      forall n | n in Writes(e) ensures Declared(env, n) { }
      EvalGood(turns, e, env, trace, names - todo);
      var out := Evaluate(Deciding(turns), e, env, trace);
      StillKnown(env, out.env, names);
      assert names - (todo - Writes(e)) == names - todo + Writes(e);
      LeadRuns(turns, rest, out.env, out.trace, fuel, names, todo - Writes(e));
    }
  }

  /** The parameters are the names of the only scope, and have values. */
  ghost predicate ParamsLive(env: Env, params: seq<string>) {
    |env| == 1 && forall n {:trigger n in env[0]} :: (n in env[0] <==> n in params) && (n in env[0] ==> env[0][n] != M.Undef)
  }

  lemma {:induction false} GivenLive(m: M.Machine, params: seq<string>)
    requires forall v: Value {:trigger m.leaf(v)} :: m.leaf(v) != M.Undef
    ensures ParamsLive(Given(m, params), params)
  {
    if params != [] {
      var n := |params| - 1;
      GivenLive(m, params[..n]);
      OneMoreLive(Given(m, params[..n]), params[..n], params[n], m.leaf(Arg(n)));
      assert params == params[..n] + [params[n]];
    }
  }

  lemma OneMoreLive(env: Env, params: seq<string>, name: string, w: M.Word)
    requires ParamsLive(env, params) && w != M.Undef
    ensures ParamsLive(Push(env, name, w), params + [name])
  {
    var env' := Push(env, name, w);
    assert name !in env[0] ==> env' == [env[0][name := w]];
    forall n ensures (n in env'[0] <==> n in params + [name]) && (n in env'[0] ==> env'[0][n] != M.Undef) {
      assert n in env[0] <==> n in params;
    }
  }

  lemma {:induction false} LocalsDeclared(env: Env, names: seq<string>)
    requires env != []
    ensures var r := DeclareAll(env, names);
            |r| == |env| && r[..|r| - 1] == env[..|env| - 1] && forall n :: n in r[|r| - 1] <==> n in env[|env| - 1] || n in names
  {
    if names != [] {
      var n := |names| - 1;
      LocalsDeclared(env, names[..n]);
      assert names == names[..n] + [names[n]];
    }
  }

  lemma StartLive(turns: set<int>, params: seq<string>, decls: seq<string>, env: Env)
    requires env == DeclareAll(Given(Deciding(turns), params) + [map[]], decls)
    ensures Known(env, NamesOf(params) + NamesOf(decls)) && Live(env, NamesOf(params) + NamesOf(decls) - NamesOf(decls))
  {
    var env0 := Given(Deciding(turns), params);
    GivenLive(Deciding(turns), params);
    LocalsDeclared(env0 + [map[]], decls);
    assert env[..1] == env0 && env[..1][..0] == [] && |env| == 2;
    assert env[0] == env0[0];
    forall n | n in NamesOf(params) + NamesOf(decls) ensures Declared(env, n) { }
    forall n | n in NamesOf(params) + NamesOf(decls) - NamesOf(decls) ensures LiveAt(env, n) {
      assert Level(env, n) == 0;
    }
  }

  /** On some machine, a function with `else` that sets its variables first comes
      to its end in the language, and falls as it is lowered. */
  lemma SomeRunFalls(f: Function) returns (m: M.Machine, fuel: nat)
    requires SetsFirst(f) && !NoElses(f.stmts)
    ensures RunFunction(m, f, fuel, true).Fine? && RunFunction(m, f, fuel, false).Fell?
  {
    var turns := TurnsOf(f.stmts, 0);
    m, fuel := Deciding(turns), RoundsOf(f.stmts);
    var env := DeclareAll(Given(m, f.params) + [map[]], f.decls);
    StartLive(turns, f.params, f.decls, env);
    LeadRuns(turns, f.stmts, env, [], fuel, NamesOf(f.params) + NamesOf(f.decls), NamesOf(f.decls));
    var s := Compound(f.decls, f.stmts);
    assert RunFunction(m, f, fuel, true) == RunCompound(m, s, Given(m, f.params), [], fuel, true);
    assert RunFunction(m, f, fuel, false) == RunCompound(m, s, Given(m, f.params), [], fuel, false);
  }
}
