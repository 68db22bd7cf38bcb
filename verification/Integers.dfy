/** What operations mean on integers of 32 bits, and what expressions and
    conditions mean on a machine that computes with them. */
module Integers {
  import opened IR
  import M = Meanings
  import opened Sources

  const WORDS := 0x1_0000_0000

  function Wrap(n: int): (r: int)
    ensures -0x8000_0000 <= r < 0x8000_0000 && (n - r) % WORDS == 0
  {
    (n + 0x8000_0000) % WORDS - 0x8000_0000
  }

  /** Division that drops the fraction. */
  function Quotient(a: int, b: int): int
    requires b != 0
  {
    var q := (if a < 0 then -a else a) / (if b < 0 then -b else b);
    if (a < 0) == (b < 0) then q else -q
  }

  predicate HasResult(op: Op, b: int) {
    op == ADD || op == SUB || op == MUL || (op == SDIV && b != 0)
  }

  function Arithmetic(op: Op, a: int, b: int): int
    requires HasResult(op, b)
  {
    match op
    case ADD => Wrap(a + b)
    case SUB => Wrap(a - b)
    case MUL => Wrap(a * b)
    case SDIV => Wrap(Quotient(a, b))
  }

  predicate IsComparison(op: Op) {
    op == EQ || op == NE || op == GT || op == GE || op == LT || op == LE
  }

  predicate Compares(op: Op, a: int, b: int)
    requires IsComparison(op)
  {
    match op
    case EQ => a == b
    case NE => a != b
    case GT => a > b
    case GE => a >= b
    case LT => a < b
    case LE => a <= b
  }

  // ----- machines that compute with integers -----

  function ResultOf(m: M.Machine, trace: seq<M.Event>, op: Op, args: seq<M.Word>): M.Word {
    m.result(trace + [M.Event(Exec(op), args)])
  }

  ghost predicate OperatesAt(m: M.Machine, trace: seq<M.Event>, op: Op, a: int, b: int) {
    var w := ResultOf(m, trace, op, [M.Num(a), M.Num(b)]);
    && (HasResult(op, b) ==> w == M.Num(Arithmetic(op, a, b)))
    && (IsComparison(op) ==> (m.truth(w) <==> Compares(op, a, b)))
  }

  ghost predicate ExtendsAt(m: M.Machine, trace: seq<M.Event>, w: M.Word) {
    ResultOf(m, trace, ZEXT, [w]) == M.Num(if m.truth(w) then 1 else 0)
  }

  ghost predicate Computes(m: M.Machine) {
    && (forall n: int {:trigger Const(n)} :: m.leaf(Const(n)) == M.Num(n))
    && (forall trace, op, a, b {:trigger OperatesAt(m, trace, op, a, b)} :: OperatesAt(m, trace, op, a, b))
    && (forall trace, w {:trigger ExtendsAt(m, trace, w)} :: ExtendsAt(m, trace, w))
  }

  /** The result of an event on integers, whatever came before it. */
  function Calculate(e: M.Event): M.Word {
    if !e.kind.Exec? then M.Undef
    else if e.kind.op == ZEXT && |e.args| == 1 then M.Num(if e.args[0] == M.Num(1) then 1 else 0)
    else if |e.args| != 2 || !e.args[0].Num? || !e.args[1].Num? then M.Undef
    else if HasResult(e.kind.op, e.args[1].n) then M.Num(Arithmetic(e.kind.op, e.args[0].n, e.args[1].n))
    else if IsComparison(e.kind.op) then M.Num(if Compares(e.kind.op, e.args[0].n, e.args[1].n) then 1 else 0)
    else M.Undef
  }

  function Calculator(): M.Machine {
    M.Machine((v: Value) => if v.Const? then M.Num(v.c) else M.Undef,
              (trace: seq<M.Event>) => if trace == [] then M.Undef else Calculate(trace[|trace| - 1]),
              (w: M.Word) => w == M.Num(1))
  }

  lemma CalculatorComputes()
    ensures Computes(Calculator())
  {
    var m := Calculator();
    forall trace, op, a, b ensures OperatesAt(m, trace, op, a, b) {
      var e := M.Event(Exec(op), [M.Num(a), M.Num(b)]);
      assert (trace + [e])[|trace + [e]| - 1] == e;
    }
    forall trace, w ensures ExtendsAt(m, trace, w) {
      var e := M.Event(Exec(ZEXT), [w]);
      assert (trace + [e])[|trace + [e]| - 1] == e;
    }
  }

  // ----- expressions -----

  datatype Calculated = Unknown | Known(n: int, env: Env)

  /** The value of an expression without calls, by integer arithmetic alone. It
      is unknown where a variable has no integer or a divisor is zero. */
  function Calc(e: Expr, env: Env): Calculated {
    match e
    case Num(n) => Known(n, env)
    case Var(name) => if Declared(env, name) && Find(env, name).Num? then Known(Find(env, name).n, env) else Unknown
    case Binary(op, l, r) =>
      (match Calc(l, env)
       case Unknown => Unknown
       case Known(a, env') =>
         match Calc(r, env')
         case Unknown => Unknown
         case Known(b, env'') => if HasResult(op, b) then Known(Arithmetic(op, a, b), env'') else Unknown)
    case Compare(op, l, r) =>
      (match Calc(l, env)
       case Unknown => Unknown
       case Known(a, env') =>
         match Calc(r, env')
         case Unknown => Unknown
         case Known(b, env'') =>
           if IsComparison(op) then Known(if Compares(op, a, b) then 1 else 0, env'') else Unknown)
    case Assign(name, v) =>
      (match Calc(v, env)
       case Unknown => Unknown
       case Known(n, env') => if Declared(env', name) then Known(n, SetVar(env', name, M.Num(n))) else Unknown)
    case Call(_, _) => Unknown
  }

  /** On a machine that computes, an expression has its integer value. */
  lemma {:induction false} ExprMeans(m: M.Machine, e: Expr, env: Env, trace: seq<M.Event>)
    requires Computes(m) && Calc(e, env).Known?
    ensures var out := Evaluate(m, e, env, trace);
            out.Some? && out.w == M.Num(Calc(e, env).n) && out.env == Calc(e, env).env
    decreases e, 1
  {
    match e
    case Num(n) => assert m.leaf(Const(n)) == M.Num(n);
    case Var(_) =>
    case Binary(op, l, r) =>
      var both := TwoMean(m, e, l, r, env, trace);
      assert OperatesAt(m, both.trace, op, both.ws[0].n, both.ws[1].n);
    case Compare(op, l, r) =>
      var both := TwoMean(m, e, l, r, env, trace);
      assert OperatesAt(m, both.trace, op, both.ws[0].n, both.ws[1].n);
      var c := Performed(m, both.env, both.trace, Exec(op), both.ws);
      assert ExtendsAt(m, c.trace, c.w);
    case Assign(_, v) => ExprMeans(m, v, env, trace);
  }

  lemma {:induction false} TwoMean(m: M.Machine, e: Expr, l: Expr, r: Expr, env: Env, trace: seq<M.Event>) returns (both: ValuedAll)
    requires Computes(m) && l < e && r < e && Calc(l, env).Known? && Calc(r, Calc(l, env).env).Known?
    ensures var a, b := Calc(l, env), Calc(r, Calc(l, env).env);
            both == EvaluateTwo(m, e, l, r, env, trace) && both.AllOf? && both.ws == [M.Num(a.n), M.Num(b.n)] && both.env == b.env
    decreases e, 0
  {
    ExprMeans(m, l, env, trace);
    var out := Evaluate(m, l, env, trace);
    ExprMeans(m, r, out.env, out.trace);
    both := EvaluateTwo(m, e, l, r, env, trace);
  }

  // ----- conditions -----

  /** A condition holds exactly if it is greater than zero. */
  lemma HoldsIffPositive(m: M.Machine, n: int, trace: seq<M.Event>)
    requires Computes(m)
    ensures Holds(m, M.Num(n), trace).0 <==> n > 0
  {
    assert OperatesAt(m, trace, GT, n, 0);
    assert m.leaf(Const(0)) == M.Num(0);
  }

  /** An `if` runs its statement, an `if` with `else` its first one and a `while`
      another round, exactly if the condition is greater than zero. */
  lemma ConditionsMean(m: M.Machine, s: Stmt, env: Env, trace: seq<M.Event>, fuel: nat, joins: bool, n: int)
    requires Computes(m) && (s.If? || s.IfElse? || s.While?)
    requires Evaluate(m, s.cond, env, trace).Some? && Evaluate(m, s.cond, env, trace).w == M.Num(n)
    ensures var out, res := Evaluate(m, s.cond, env, trace), Run(m, s, env, trace, fuel, joins);
      var env', trace' := out.env, Holds(m, out.w, out.trace).1;
      && (s.If? ==> res == if n > 0 then Run(m, s.then_, env', trace', fuel, joins) else Fine(env', trace'))
      && (s.IfElse? ==> res == AfterArm(if n > 0 then Run(m, s.then_, env', trace', fuel, joins)
                                        else Run(m, s.else_, env', trace', fuel, joins), joins))
      && (s.While? ==> res == if n <= 0 then Fine(env', trace')
                              else if fuel == 0 then OutOfFuel
                              else RunRound(m, s, env', trace', fuel - 1, joins))
  {
    HoldsIffPositive(m, n, Evaluate(m, s.cond, env, trace).trace);
  }
}
