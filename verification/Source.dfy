/** The statements that are lowered, and what running them means. */
module Sources {
  import opened IR
  import opened Meanings

  /** `Binary` carries the arithmetic operation, `Compare` the comparison. */
  datatype Expr =
    | Num(n: int)
    | Var(name: string)
    | Binary(op: Op, l: Expr, r: Expr)
    | Compare(op: Op, l: Expr, r: Expr)
    | Assign(name: string, e: Expr)
    | Call(callee: nat, args: seq<Expr>)

  datatype Stmt =
    | Nothing
    | Do(e: Expr)
    | If(cond: Expr, then_: Stmt)
    | IfElse(cond: Expr, then_: Stmt, else_: Stmt)
    | While(cond: Expr, body: Stmt)
    | Compound(decls: seq<string>, stmts: seq<Stmt>)

  datatype Function = Function(params: seq<string>, decls: seq<string>, stmts: seq<Stmt>)

  // ----- scopes -----

  type Scopes<T> = seq<map<string, T>>

  /** The innermost scope that has the name, counted from the outside. */
  function Level<T>(s: Scopes<T>, name: string): (r: int)
    ensures -1 <= r < |s|
    ensures r >= 0 ==> name in s[r]
    ensures forall i :: r < i < |s| ==> name !in s[i]
  {
    if s == [] then -1
    else if name in s[|s| - 1] then |s| - 1
    else Level(s[..|s| - 1], name)
  }

  predicate Declared<T>(s: Scopes<T>, name: string) {
    Level(s, name) >= 0
  }

  function Find<T>(s: Scopes<T>, name: string): T
    requires Declared(s, name)
  {
    s[Level(s, name)][name]
  }

  /** A name that the innermost scope already has keeps its meaning. */
  function Push<T>(s: Scopes<T>, name: string, t: T): Scopes<T> {
    if s == [] || name in s[|s| - 1] then s
    else s[..|s| - 1] + [s[|s| - 1][name := t]]
  }

  /** A declaration gives its name a meaning, unless the innermost scope has one
      for it, and leaves all other names theirs. */
  lemma PushMeans<T>(s: Scopes<T>, name: string, t: T, a: string)
    requires s != []
    ensures var s' := Push(s, name, t);
      && Declared(s', name) && Find(s', name) == (if name in s[|s| - 1] then s[|s| - 1][name] else t)
      && (a != name ==> (Declared(s', a) <==> Declared(s, a)) && (Declared(s, a) ==> Find(s', a) == Find(s, a)))
  {
    if a != name {
      assert Level(Push(s, name, t), a) == Level(s, a);
    }
  }

  // ----- running -----

  type Env = Scopes<Word>

  function SetVar(env: Env, name: string, w: Word): Env
    requires Declared(env, name)
  {
    var i := Level(env, name);
    env[i := env[i][name := w]]
  }

  /** The result of an expression; `None` where it reads a variable that has not
      been given a value, or that is not declared. */
  datatype Valued = None | Some(w: Word, env: Env, trace: seq<Event>)

  datatype ValuedAll = NoneOf | AllOf(ws: seq<Word>, env: Env, trace: seq<Event>)

  function Performed(m: Machine, env: Env, trace: seq<Event>, kind: Kind, args: seq<Word>): Valued {
    var trace' := trace + [Event(kind, args)];
    Some(m.result(trace'), env, trace')
  }

  /** Operands are evaluated from left to right. */
  function Evaluate(m: Machine, e: Expr, env: Env, trace: seq<Event>): Valued
    decreases e, 1
  {
    match e
    case Num(n) => Some(m.leaf(Const(n)), env, trace)
    case Var(name) =>
      if Declared(env, name) && Find(env, name) != Undef then Some(Find(env, name), env, trace) else None
    case Binary(op, l, r) =>
      (match EvaluateTwo(m, e, l, r, env, trace)
       case NoneOf => None
       case AllOf(ws, env', trace') => Performed(m, env', trace', Exec(op), ws))
    case Compare(op, l, r) =>
      (match EvaluateTwo(m, e, l, r, env, trace)
       case NoneOf => None
       case AllOf(ws, env', trace') =>
         var c := Performed(m, env', trace', Exec(op), ws);
         Performed(m, env', c.trace, Exec(ZEXT), [c.w]))
    case Assign(name, v) =>
      (match Evaluate(m, v, env, trace)
       case None => None
       case Some(w, env', trace') => if Declared(env', name) then Some(w, SetVar(env', name, w), trace') else None)
    case Call(callee, args) =>
      match EvaluateAll(m, args, env, trace)
      case NoneOf => None
      case AllOf(ws, env', trace') => Performed(m, env', trace', Exec(CALL), [m.leaf(Global(callee))] + ws)
  }

  function EvaluateTwo(m: Machine, e: Expr, l: Expr, r: Expr, env: Env, trace: seq<Event>): ValuedAll
    requires l < e && r < e
    decreases e, 0
  {
    match Evaluate(m, l, env, trace)
    case None => NoneOf
    case Some(w, env', trace') =>
      match Evaluate(m, r, env', trace')
      case None => NoneOf
      case Some(w', env'', trace'') => AllOf([w, w'], env'', trace'')
  }

  function EvaluateAll(m: Machine, es: seq<Expr>, env: Env, trace: seq<Event>): ValuedAll
    decreases es
  {
    if es == [] then AllOf([], env, trace)
    else
      match EvaluateAll(m, es[..|es| - 1], env, trace)
      case NoneOf => NoneOf
      case AllOf(ws, env', trace') =>
        match Evaluate(m, es[|es| - 1], env', trace')
        case None => NoneOf
        case Some(w, env'', trace'') => AllOf(ws + [w], env'', trace'')
  }

  /** Evaluating adds events behind those there are ... */
  lemma {:induction false} EventsAdded(m: Machine, e: Expr, env: Env, trace: seq<Event>)
    requires Evaluate(m, e, env, trace).Some?
    ensures trace <= Evaluate(m, e, env, trace).trace
    decreases e, 1
  {
    match e
    case Num(_) =>
    case Var(_) =>
    case Binary(_, l, r) => TwoInOrder(m, e, l, r, env, trace);
    case Compare(_, l, r) => TwoInOrder(m, e, l, r, env, trace);
    case Assign(_, v) => EventsAdded(m, v, env, trace);
    case Call(_, args) => ArgsInOrder(m, args, env, trace, 0);
  }

  /** ... those of the left operand before those of the right one ... */
  lemma {:induction false} TwoInOrder(m: Machine, e: Expr, l: Expr, r: Expr, env: Env, trace: seq<Event>)
    requires l < e && r < e && EvaluateTwo(m, e, l, r, env, trace).AllOf?
    ensures Evaluate(m, l, env, trace).Some? && trace <= Evaluate(m, l, env, trace).trace <= EvaluateTwo(m, e, l, r, env, trace).trace
    decreases e, 0
  {
    EventsAdded(m, l, env, trace);
    var out := Evaluate(m, l, env, trace);
    EventsAdded(m, r, out.env, out.trace);
  }

  /** ... and those of each argument before those of the next. */
  lemma {:induction false} ArgsInOrder(m: Machine, es: seq<Expr>, env: Env, trace: seq<Event>, k: nat)
    requires EvaluateAll(m, es, env, trace).AllOf? && k <= |es|
    ensures var first, all := EvaluateAll(m, es[..k], env, trace), EvaluateAll(m, es, env, trace);
      && first.AllOf? && trace <= first.trace <= all.trace && first.ws <= all.ws && |first.ws| == k
    decreases es
  {
    if es != [] {
      var n := |es| - 1;
      var init := EvaluateAll(m, es[..n], env, trace);
      EventsAdded(m, es[n], init.env, init.trace);
      ArgsInOrder(m, es[..n], env, trace, if k <= n then k else n);
      assert if k <= n then es[..n][..k] == es[..k] else es[..k] == es && es[..n][..n] == es[..n];
    }
  }

  /** `Undefined` where a variable without a value is read; `OutOfFuel` where
      some loop goes round more often than the fuel allows. `Fell` is no result
      of the language: it is where the lowered code gets lost. */
  datatype Result = Fine(env: Env, trace: seq<Event>) | Undefined | OutOfFuel | Fell(trace: seq<Event>)

  /** A condition holds if it is greater than zero, as the code tests it. */
  function Holds(m: Machine, w: Word, trace: seq<Event>): (bool, seq<Event>) {
    var trace' := trace + [Event(Exec(GT), [w, m.leaf(Const(0))])];
    (m.truth(m.result(trace')), trace')
  }

  function DeclareAll(env: Env, names: seq<string>): Env {
    if names == [] then env else Push(DeclareAll(env, names[..|names| - 1]), names[|names| - 1], Undef)
  }

  function Drop<T>(s: Scopes<T>): Scopes<T> {
    if s == [] then [] else s[..|s| - 1]
  }

  lemma {:induction false} ScopeHas(env: Env, names: seq<string>)
    ensures var inner := DeclareAll(env + [map[]], names);
      && |inner| == |env| + 1 && Drop(inner) == env
      && forall a :: (a in inner[|env|] <==> a in names) && (a in names ==> inner[|env|][a] == Undef)
  {
    if names == [] {
      assert (env + [map[]])[..|env|] == env;
    } else {
      var n := |names| - 1;
      var before := DeclareAll(env + [map[]], names[..n]);
      ScopeHas(env, names[..n]);
      assert Push(before, names[n], Undef)[..|env|] == before[..|env|];
      assert forall a :: a in names <==> a in names[..n] || a == names[n];
    }
  }

  /** A new scope hides what its names mean outside, for as long as it lasts. */
  lemma ScopeMeans(env: Env, names: seq<string>, a: string)
    ensures var inner := DeclareAll(env + [map[]], names);
      && Drop(inner) == env
      && (a in names ==> Declared(inner, a) && Find(inner, a) == Undef)
      && (a !in names ==> (Declared(inner, a) <==> Declared(env, a)) && (Declared(env, a) ==> Find(inner, a) == Find(env, a)))
  {
    var inner := DeclareAll(env + [map[]], names);
    ScopeHas(env, names);
    assert forall i :: 0 <= i < |env| ==> inner[i] == Drop(inner)[i];
    if a in names {
      assert Level(inner, a) == |env|;
    } else {
      assert Level(inner, a) == Level(env, a);
    }
  }

  /** Setting a variable changes what its name means, and nothing else. */
  lemma SetMeans(env: Env, name: string, w: Word, a: string)
    requires Declared(env, name)
    ensures var env' := SetVar(env, name, w);
      && (Declared(env', a) <==> Declared(env, a))
      && (Declared(env, a) ==> Find(env', a) == if a == name then w else Find(env, a))
  {
    var env' := SetVar(env, name, w);
    assert forall i :: 0 <= i < |env| ==> (a in env'[i] <==> a in env[i]);
    assert Level(env', a) == Level(env, a);
  }

  /** Runs a statement. With `joins`, as the language has it; without, as the
      lowered code does it: there nothing follows an arm of an `if` with `else`. */
  function Run(m: Machine, s: Stmt, env: Env, trace: seq<Event>, fuel: nat, joins: bool): Result
    decreases fuel, s, 1
  {
    match s
    case Nothing => Fine(env, trace)
    case Do(e) =>
      (match Evaluate(m, e, env, trace)
       case None => Undefined
       case Some(_, env', trace') => Fine(env', trace'))
    case If(_, _) => RunIf(m, s, env, trace, fuel, joins)
    case IfElse(_, _, _) => RunIfElse(m, s, env, trace, fuel, joins)
    case While(_, _) => RunWhile(m, s, env, trace, fuel, joins)
    case Compound(_, _) => RunCompound(m, s, env, trace, fuel, joins)
  }

  function RunIf(m: Machine, s: Stmt, env: Env, trace: seq<Event>, fuel: nat, joins: bool): Result
    requires s.If?
    decreases fuel, s, 0
  {
    match Evaluate(m, s.cond, env, trace)
    case None => Undefined
    case Some(w, env', trace') =>
      var (b, trace'') := Holds(m, w, trace');
      if b then Run(m, s.then_, env', trace'', fuel, joins) else Fine(env', trace'')
  }

  function RunIfElse(m: Machine, s: Stmt, env: Env, trace: seq<Event>, fuel: nat, joins: bool): Result
    requires s.IfElse?
    decreases fuel, s, 0
  {
    match Evaluate(m, s.cond, env, trace)
    case None => Undefined
    case Some(w, env', trace') =>
      var (b, trace'') := Holds(m, w, trace');
      var res := if b then Run(m, s.then_, env', trace'', fuel, joins) else Run(m, s.else_, env', trace'', fuel, joins);
      AfterArm(res, joins)
  }

  function AfterArm(res: Result, joins: bool): Result {
    if res.Fine? && !joins then Fell(res.trace) else res
  }

  function RunWhile(m: Machine, s: Stmt, env: Env, trace: seq<Event>, fuel: nat, joins: bool): Result
    requires s.While?
    decreases fuel, s, 0
  {
    match Evaluate(m, s.cond, env, trace)
    case None => Undefined
    case Some(w, env', trace') =>
      var (b, trace'') := Holds(m, w, trace');
      if !b then Fine(env', trace'')
      else if fuel == 0 then OutOfFuel
      else RunRound(m, s, env', trace'', fuel - 1, joins)
  }

  /** The body of a loop, and the loop again. */
  function RunRound(m: Machine, s: Stmt, env: Env, trace: seq<Event>, fuel: nat, joins: bool): Result
    requires s.While?
    decreases fuel, s, 2
  {
    var res := Run(m, s.body, env, trace, fuel, joins);
    if res.Fine? then RunWhile(m, s, res.env, res.trace, fuel, joins) else res
  }

  function RunCompound(m: Machine, s: Stmt, env: Env, trace: seq<Event>, fuel: nat, joins: bool): Result
    requires s.Compound?
    decreases fuel, s, 0
  {
    var res := RunAll(m, s.stmts, DeclareAll(env + [map[]], s.decls), trace, fuel, joins);
    if res.Fine? then Fine(Drop(res.env), res.trace) else res
  }

  function RunAll(m: Machine, stmts: seq<Stmt>, env: Env, trace: seq<Event>, fuel: nat, joins: bool): Result
    decreases fuel, stmts
  {
    if stmts == [] then Fine(env, trace)
    else
      var res := Run(m, stmts[0], env, trace, fuel, joins);
      if res.Fine? then RunAll(m, stmts[1..], res.env, res.trace, fuel, joins) else res
  }

  /** Parameters begin with the values of their arguments. */
  function Given(m: Machine, params: seq<string>): Env {
    if params == [] then [map[]]
    else Push(Given(m, params[..|params| - 1]), params[|params| - 1], m.leaf(Arg(|params| - 1)))
  }

  /** A parameter means its argument, the first one of its name. */
  lemma {:induction false} GivenMeans(m: Machine, params: seq<string>, i: nat)
    requires i < |params| && params[i] !in params[..i]
    ensures Declared(Given(m, params), params[i]) && Find(Given(m, params), params[i]) == m.leaf(Arg(i))
  {
    var n, before := |params| - 1, Given(m, params[..|params| - 1]);
    GivenNames(m, params[..n]);
    PushMeans(before, params[n], m.leaf(Arg(n)), params[i]);
    if i < n {
      assert params[..n][..i] == params[..i];
      GivenMeans(m, params[..n], i);
    }
  }

  lemma {:induction false} GivenNames(m: Machine, params: seq<string>)
    ensures |Given(m, params)| == 1 && forall a :: a in Given(m, params)[0] <==> a in params
  {
    if params != [] {
      var n := |params| - 1;
      GivenNames(m, params[..n]);
      assert forall a :: a in params <==> a in params[..n] || a == params[n];
    }
  }

  function RunFunction(m: Machine, f: Function, fuel: nat, joins: bool): Result {
    Run(m, Compound(f.decls, f.stmts), Given(m, f.params), [], fuel, joins)
  }

  // ----- variables that are set first -----

  function Reads(e: Expr): set<string>
    decreases e, 1
  {
    match e
    case Num(_) => {}
    case Var(name) => {name}
    case Binary(_, l, r) => Reads(l) + Reads(r)
    case Compare(_, l, r) => Reads(l) + Reads(r)
    case Assign(_, v) => Reads(v)
    case Call(_, args) => ReadsAll(args)
  }

  function ReadsAll(es: seq<Expr>): set<string>
    decreases es
  {
    if es == [] then {} else ReadsAll(es[..|es| - 1]) + Reads(es[|es| - 1])
  }

  function Writes(e: Expr): set<string>
    decreases e, 1
  {
    match e
    case Num(_) => {}
    case Var(_) => {}
    case Binary(_, l, r) => Writes(l) + Writes(r)
    case Compare(_, l, r) => Writes(l) + Writes(r)
    case Assign(name, v) => {name} + Writes(v)
    case Call(_, args) => WritesAll(args)
  }

  function WritesAll(es: seq<Expr>): set<string>
    decreases es
  {
    if es == [] then {} else WritesAll(es[..|es| - 1]) + Writes(es[|es| - 1])
  }

  /** The statement uses these names only, and declares none itself. */
  predicate UsesOnly(s: Stmt, names: set<string>) {
    match s
    case Nothing => true
    case Do(e) => Reads(e) + Writes(e) <= names
    case If(c, t) => Reads(c) + Writes(c) <= names && UsesOnly(t, names)
    case IfElse(c, t, f) => Reads(c) + Writes(c) <= names && UsesOnly(t, names) && UsesOnly(f, names)
    case While(c, body) => Reads(c) + Writes(c) <= names && UsesOnly(body, names)
    case Compound(decls, stmts) => decls == [] && AllUseOnly(stmts, names)
  }

  predicate AllUseOnly(stmts: seq<Stmt>, names: set<string>) {
    stmts == [] || (UsesOnly(stmts[0], names) && AllUseOnly(stmts[1..], names))
  }

  /** Expressions at the start of the statements set all of `todo`, and none is
      read before. */
  predicate SetsAll(stmts: seq<Stmt>, todo: set<string>) {
    todo == {} || (stmts != [] && stmts[0].Do? && Reads(stmts[0].e) !! todo && SetsAll(stmts[1..], todo - Writes(stmts[0].e)))
  }

  function NamesOf(names: seq<string>): set<string> {
    set n | n in names
  }

  /** All variables are parameters, or declared at the start of the function and
      then set before anything else is done. */
  predicate SetsFirst(f: Function) {
    AllUseOnly(f.stmts, NamesOf(f.params) + NamesOf(f.decls)) && SetsAll(f.stmts, NamesOf(f.decls))
  }

  // ----- if with else -----

  /** No `if` in the statement has an `else`. */
  predicate NoElse(s: Stmt) {
    match s
    case Nothing => true
    case Do(_) => true
    case If(_, t) => NoElse(t)
    case IfElse(_, _, _) => false
    case While(_, body) => NoElse(body)
    case Compound(_, stmts) => NoElses(stmts)
  }

  predicate NoElses(stmts: seq<Stmt>) {
    stmts == [] || (NoElse(stmts[0]) && NoElses(stmts[1..]))
  }

  /** Whether the block in which lowering a statement ends has a terminator then,
      if the one in which it begins has one (`ended`) or not. */
  predicate Closes(s: Stmt, ended: bool) {
    match s
    case Nothing => ended
    case Do(e) => ended && e.Num?
    case If(_, _) => false
    case IfElse(_, _, _) => true
    case While(_, _) => false
    case Compound(decls, stmts) => CloseAll(stmts, ended && decls == [])
  }

  predicate CloseAll(stmts: seq<Stmt>, ended: bool) {
    if stmts == [] then ended else CloseAll(stmts[1..], Closes(stmts[0], ended))
  }

  /** Nothing is put after a terminator: neither an instruction of a statement
      behind an `if` with `else`, nor a second jump at the end of a first arm,
      which comes where the second arm has none. */
  predicate Neat(s: Stmt, ended: bool) {
    match s
    case Nothing => true
    case Do(e) => ended ==> e.Num?
    case If(_, t) => !ended && Neat(t, false)
    case IfElse(_, t, f) => !ended && Neat(t, false) && Neat(f, false) && (Closes(t, false) ==> Closes(f, false))
    case While(_, body) => !ended && Neat(body, false)
    case Compound(decls, stmts) => (ended ==> decls == []) && NeatAll(stmts, ended && decls == [])
  }

  predicate NeatAll(stmts: seq<Stmt>, ended: bool) {
    stmts == [] || (Neat(stmts[0], ended) && NeatAll(stmts[1..], Closes(stmts[0], ended)))
  }

  /** `if (1) ; else ;` */
  function Lost(): Function {
    Function([], [], [IfElse(Expr.Num(1), Nothing, Nothing)])
  }

  /** `if (1) ; else ; x = 1;` */
  function Untidy(): Function {
    Function(["x"], [], [IfElse(Expr.Num(1), Nothing, Nothing), Do(Assign("x", Expr.Num(1)))])
  }

  lemma {:induction false} PlainIsNeat(s: Stmt)
    requires NoElse(s)
    ensures Neat(s, false) && !Closes(s, false)
  {
    match s
    case If(_, t) => PlainIsNeat(t);
    case While(_, body) => PlainIsNeat(body);
    case Compound(_, stmts) => PlainAreNeat(stmts);
    case _ =>
  }

  lemma {:induction false} PlainAreNeat(stmts: seq<Stmt>)
    requires NoElses(stmts)
    ensures NeatAll(stmts, false) && !CloseAll(stmts, false)
  {
    if stmts != [] {
      PlainIsNeat(stmts[0]);
      PlainAreNeat(stmts[1..]);
    }
  }

  /** As the language has it, nothing falls. */
  lemma {:induction false} JoinsNeverFalls(m: Machine, s: Stmt, env: Env, trace: seq<Event>, fuel: nat)
    ensures !Run(m, s, env, trace, fuel, true).Fell?
    decreases fuel, s, 1
  {
    match s
    case Nothing =>
    case Do(_) =>
    case If(c, t) =>
      if Evaluate(m, c, env, trace).Some? {
        var out := Evaluate(m, c, env, trace);
        JoinsNeverFalls(m, t, out.env, Holds(m, out.w, out.trace).1, fuel);
      }
    case IfElse(c, t, f) =>
      if Evaluate(m, c, env, trace).Some? {
        var out := Evaluate(m, c, env, trace);
        JoinsNeverFalls(m, t, out.env, Holds(m, out.w, out.trace).1, fuel);
        JoinsNeverFalls(m, f, out.env, Holds(m, out.w, out.trace).1, fuel);
      }
    case While(_, _) => LoopNeverFalls(m, s, env, trace, fuel);
    case Compound(decls, stmts) => AllNeverFall(m, stmts, DeclareAll(env + [map[]], decls), trace, fuel);
  }

  lemma {:induction false} LoopNeverFalls(m: Machine, s: Stmt, env: Env, trace: seq<Event>, fuel: nat)
    requires s.While?
    ensures !RunWhile(m, s, env, trace, fuel, true).Fell?
    decreases fuel, s, 0
  {
    if Evaluate(m, s.cond, env, trace).Some? && fuel > 0 {
      var out := Evaluate(m, s.cond, env, trace);
      var trace' := Holds(m, out.w, out.trace).1;
      JoinsNeverFalls(m, s.body, out.env, trace', fuel - 1);
      var res := Run(m, s.body, out.env, trace', fuel - 1, true);
      if res.Fine? { LoopNeverFalls(m, s, res.env, res.trace, fuel - 1); }
    }
  }

  lemma {:induction false} AllNeverFall(m: Machine, stmts: seq<Stmt>, env: Env, trace: seq<Event>, fuel: nat)
    ensures !RunAll(m, stmts, env, trace, fuel, true).Fell?
    decreases fuel, stmts
  {
    if stmts != [] {
      JoinsNeverFalls(m, stmts[0], env, trace, fuel);
      var res := Run(m, stmts[0], env, trace, fuel, true);
      if res.Fine? { AllNeverFall(m, stmts[1..], res.env, res.trace, fuel); }
    }
  }

  /** The two readings differ only where the code falls, and without `else` it
      never does. */
  lemma {:induction false} FallsOrSame(m: Machine, s: Stmt, env: Env, trace: seq<Event>, fuel: nat)
    ensures Run(m, s, env, trace, fuel, false).Fell? || Run(m, s, env, trace, fuel, false) == Run(m, s, env, trace, fuel, true)
    ensures NoElse(s) ==> !Run(m, s, env, trace, fuel, false).Fell?
    decreases fuel, s, 1
  {
    match s
    case Nothing =>
    case Do(_) =>
    case If(c, t) =>
      if Evaluate(m, c, env, trace).Some? {
        var out := Evaluate(m, c, env, trace);
        FallsOrSame(m, t, out.env, Holds(m, out.w, out.trace).1, fuel);
      }
    case IfElse(c, t, f) =>
      if Evaluate(m, c, env, trace).Some? {
        var out := Evaluate(m, c, env, trace);
        FallsOrSame(m, t, out.env, Holds(m, out.w, out.trace).1, fuel);
        FallsOrSame(m, f, out.env, Holds(m, out.w, out.trace).1, fuel);
      }
    case While(_, _) => LoopFallsOrSame(m, s, env, trace, fuel);
    case Compound(decls, stmts) => AllFallOrSame(m, stmts, DeclareAll(env + [map[]], decls), trace, fuel);
  }

  lemma {:induction false} LoopFallsOrSame(m: Machine, s: Stmt, env: Env, trace: seq<Event>, fuel: nat)
    requires s.While?
    ensures var res := RunWhile(m, s, env, trace, fuel, false);
            (res.Fell? || res == RunWhile(m, s, env, trace, fuel, true)) && (NoElse(s.body) ==> !res.Fell?)
    decreases fuel, s, 0
  {
    if Evaluate(m, s.cond, env, trace).Some? && fuel > 0 {
      var out := Evaluate(m, s.cond, env, trace);
      var trace' := Holds(m, out.w, out.trace).1;
      FallsOrSame(m, s.body, out.env, trace', fuel - 1);
      var res := Run(m, s.body, out.env, trace', fuel - 1, false);
      if res.Fine? { LoopFallsOrSame(m, s, res.env, res.trace, fuel - 1); }
    }
  }

  lemma {:induction false} AllFallOrSame(m: Machine, stmts: seq<Stmt>, env: Env, trace: seq<Event>, fuel: nat)
    ensures var res := RunAll(m, stmts, env, trace, fuel, false);
            (res.Fell? || res == RunAll(m, stmts, env, trace, fuel, true)) && (NoElses(stmts) ==> !res.Fell?)
    decreases fuel, stmts
  {
    if stmts != [] {
      FallsOrSame(m, stmts[0], env, trace, fuel);
      var res := Run(m, stmts[0], env, trace, fuel, false);
      if res.Fine? { AllFallOrSame(m, stmts[1..], res.env, res.trace, fuel); }
    }
  }
}
