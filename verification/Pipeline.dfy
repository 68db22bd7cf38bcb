/** The passes one after the other: statements are lowered, the code is put into
    SSA form, and its loops are searched. */
module Pipeline {
  import opened Graphs
  import opened IR
  import opened SsaForm
  import M = Meanings
  import opened RenameStacks
  import opened RenameOrder
  import opened RenameSafety
  import opened RenameUses
  import opened SsaValid
  import opened SsaClean
  import opened Mem2RegPass
  import opened LoopRounds
  import opened LoopSearchPass
  import opened Sources
  import opened SourceRuns
  import opened Lowerings
  import opened LoweringOk
  import opened LoweringNeat
  import opened LoweringInit
  import opened LoweringMeaning
  import opened LoweringLoops
  import opened Builders

  /** What one run of the source asks of the code: to return with the same
      events behind it, or to be still running, or to get lost. */
  ghost predicate Agrees(m: M.Machine, code: Code, res: Result, fuel: nat) {
    match res
    case Fine(_, trace) => Returns(m, code, trace)
    case OutOfFuel => forall k: nat {:trigger M.Steps(m, code, M.Start(0), k)} :: k <= fuel ==> M.Steps(m, code, M.Start(0), k).At?
    case Fell(trace) => exists n: nat :: M.Steps(m, code, M.Start(0), n) == M.Broken(trace)
    case Undefined => true
  }

  /** The code does what the source says, on every machine: as the language has
      it (`joins`), or as it is lowered. */
  ghost predicate Implements(code: Code, fn: Function, joins: bool) {
    forall m, fuel: nat {:trigger RunFunction(m, fn, fuel, joins)} :: Agrees(m, code, RunFunction(m, fn, fuel, joins), fuel)
  }

  /** The lowered code does what the source says, but for what follows an `if`
      with `else`; without `else`, all of it. */
  lemma LoweredImplements(fn: Function)
    ensures Implements(LowerFunction(fn).code, fn, false)
    ensures NoElses(fn.stmts) ==> Implements(LowerFunction(fn).code, fn, true)
  {
    forall m, fuel: nat ensures Agrees(m, LowerFunction(fn).code, RunFunction(m, fn, fuel, false), fuel) {
      var n := FunctionRuns(m, fn, fuel);
    }
    PlainImplements(LowerFunction(fn).code, fn);
  }

  /** Without `else` the two readings are the same. */
  lemma PlainImplements(code: Code, fn: Function)
    requires Implements(code, fn, false)
    ensures NoElses(fn.stmts) ==> Implements(code, fn, true)
  {
    if NoElses(fn.stmts) {
      forall m, fuel: nat ensures Agrees(m, code, RunFunction(m, fn, fuel, true), fuel) {
        FallsOrSame(m, Compound(fn.decls, fn.stmts), Given(m, fn.params), [], fuel);
        assert Agrees(m, code, RunFunction(m, fn, fuel, false), fuel);
      }
    }
  }

  /** A function that sets its variables first is lowered to code that does all
      that the language says, on every machine, exactly if it has no `else`. */
  lemma ImplementsIffNoElse(fn: Function)
    requires SetsFirst(fn)
    ensures Implements(LowerFunction(fn).code, fn, true) <==> NoElses(fn.stmts)
  {
    LoweredImplements(fn);
    if !NoElses(fn.stmts) {
      var m, fuel := SomeRunFalls(fn);
      ReturnsUnlessFell(m, fn, fuel);
      assert !Agrees(m, LowerFunction(fn).code, RunFunction(m, fn, fuel, true), fuel);
    }
  }

  lemma SameBothWays(code: Code, out: Code)
    requires M.SameMeaning(0, code, out)
    ensures M.SameMeaning(0, out, code)
  {
    forall m, n ensures M.AlikeAfter(0, out, code, m, n) { assert M.AlikeAfter(0, code, out, m, n); }
  }

  /** Code that means the same does so, too. */
  lemma SameImplements(code: Code, out: Code, fn: Function, joins: bool)
    requires Implements(code, fn, joins) && M.SameMeaning(0, code, out)
    ensures Implements(out, fn, joins)
  {
    forall m, fuel: nat ensures Agrees(m, out, RunFunction(m, fn, fuel, joins), fuel) {
      var res := RunFunction(m, fn, fuel, joins);
      assert Agrees(m, code, res, fuel);
      match res
      case Fine(_, trace) =>
        var n: nat :| M.Steps(m, code, M.Start(0), n) == M.Done([m.leaf(Const(0))], trace);
        assert M.AlikeAfter(0, code, out, m, n);
      case OutOfFuel =>
        forall k: nat | k <= fuel ensures M.Steps(m, out, M.Start(0), k).At? {
          assert M.AlikeAfter(0, code, out, m, k) && M.Steps(m, code, M.Start(0), k).At?;
        }
      case Fell(trace) =>
        var n: nat :| M.Steps(m, code, M.Start(0), n) == M.Broken(trace);
        assert M.AlikeAfter(0, code, out, m, n);
      case Undefined =>
    }
  }

  /** A neat function is lowered, put into SSA form if renaming goes through, and
      searched for loops. Renaming always goes through where the order of the
      visits cannot matter, and on every function that sets its variables first;
      there it leaves no load of a slot and no incomplete phi. The code still
      does what the source says; every loop is the natural loop of its base,
      and the bases are the conditions of the `while` statements that jump back. */
  method Compile(fn: Function) returns (ok: bool, g: Cfg, f: Func, search: LoopSearch, ghost s: Ssa, kids: Listing)
    requires NeatAll(fn.stmts, false)
    ensures fresh(f) && g == LowerFunction(fn).g
    ensures s == Ssa(g, s.t, LowerFunction(fn).code, LowerFunction(fn).pos, s.phis, LowerFunction(fn).uses) && Renamable(s) && KidsOk(s, kids)
    ensures (forall b :: b in s.phis ==> b in g.blocks) && 0 in s.code.body
    ensures (ok <==> SafeRun(s, [], Preorder(s, kids, 0))) && (OrderSafe(s) ==> ok)
    ensures ok ==> ValidSsa(g, Code(f.body, f.kind, f.ops)) && Implements(Code(f.body, f.kind, f.ops), fn, false)
    ensures ok ==> UsesInOrder(s, f.body, f.ops, f.uses)
    ensures ok && NoElses(fn.stmts) ==> Implements(Code(f.body, f.kind, f.ops), fn, true)
    ensures SetsFirst(fn) ==> (Implements(Code(f.body, f.kind, f.ops), fn, true) <==> NoElses(fn.stmts))
    ensures ok ==> (CleanSsa(g, Code(f.body, f.kind, f.ops)) <==> LoadsDefined(s)) && (PhisFull(s, f.ops) <==> EdgesDefined(s))
    ensures SetsFirst(fn) ==> ok && CleanSsa(g, Code(f.body, f.kind, f.ops)) && PhisFull(s, f.ops)
    ensures LoopsOf(g, search.loops) && search.Mapped() && forall i :: 0 <= i < |search.loops| ==> IsNatural(g, search.loops[i])
    ensures forall b {:trigger IsLoopBase(search.loops, b)} :: IsLoopBase(search.loops, b) <==> IsReturning(WhilesIn(fn), b)
  {
    ghost var pos;
    g, f, pos := Lower(fn);
    ok, s, kids := ToSsa(fn, g, f, pos);
    search := FindLoops(fn, g);
  }

  method Lower(fn: Function) returns (g: Cfg, f: Func, ghost pos: map<Id, Place>)
    ensures fresh(f) && g == LowerFunction(fn).g && pos == LowerFunction(fn).pos
    ensures Code(f.body, f.kind, f.ops) == LowerFunction(fn).code && f.uses == LowerFunction(fn).uses
  {
    var builder := new Builder();
    builder.VisitFunction(fn);
    g, f, pos := builder.g, builder.f, builder.pos;
  }

  method ToSsa(fn: Function, g: Cfg, f: Func, ghost pos: map<Id, Place>) returns (ok: bool, ghost s: Ssa, kids: Listing)
    requires NeatAll(fn.stmts, false) && g == LowerFunction(fn).g && pos == LowerFunction(fn).pos
    requires Code(f.body, f.kind, f.ops) == LowerFunction(fn).code && f.uses == LowerFunction(fn).uses
    modifies f
    ensures s == Ssa(g, s.t, LowerFunction(fn).code, pos, s.phis, LowerFunction(fn).uses) && Renamable(s) && KidsOk(s, kids)
    ensures (forall b :: b in s.phis ==> b in g.blocks) && 0 in s.code.body
    ensures (ok <==> SafeRun(s, [], Preorder(s, kids, 0))) && (OrderSafe(s) ==> ok)
    ensures ok ==> ValidSsa(g, Code(f.body, f.kind, f.ops)) && Implements(Code(f.body, f.kind, f.ops), fn, false)
    ensures ok ==> UsesInOrder(s, f.body, f.ops, f.uses)
    ensures ok && NoElses(fn.stmts) ==> Implements(Code(f.body, f.kind, f.ops), fn, true)
    ensures SetsFirst(fn) ==> (Implements(Code(f.body, f.kind, f.ops), fn, true) <==> NoElses(fn.stmts))
    ensures ok ==> (CleanSsa(g, Code(f.body, f.kind, f.ops)) <==> LoadsDefined(s)) && (PhisFull(s, f.ops) <==> EdgesDefined(s))
    ensures SetsFirst(fn) ==> ok && CleanSsa(g, Code(f.body, f.kind, f.ops)) && PhisFull(s, f.ops)
  {
    MemoryFormIffNeat(fn);
    var mem2reg := new Mem2Reg(f);
    ok, s, kids := mem2reg.Run(g, pos);
    if SetsFirst(fn) { SetsFirstIsSetFirst(fn, s); }
    if ok {
      FunctionLowered(fn, LowerFunction(fn));
      AllInOrder(s, f.body, f.ops, f.uses);
      StillImplements(fn, Code(f.body, f.kind, f.ops));
      LoweredIsPlain(fn);
      PlainIsCleanIffDefined(s, Code(f.body, f.kind, f.ops));
    }
  }

  lemma StillImplements(fn: Function, out: Code)
    requires M.SameMeaning(0, LowerFunction(fn).code, out)
    ensures Implements(out, fn, false) && (NoElses(fn.stmts) ==> Implements(out, fn, true))
    ensures SetsFirst(fn) ==> (Implements(out, fn, true) <==> NoElses(fn.stmts))
  {
    LoweredImplements(fn);
    SameImplements(LowerFunction(fn).code, out, fn, false);
    PlainImplements(out, fn);
    if SetsFirst(fn) && Implements(out, fn, true) {
      SameBothWays(LowerFunction(fn).code, out);
      SameImplements(out, LowerFunction(fn).code, fn, true);
      ImplementsIffNoElse(fn);
    }
  }

  method FindLoops(fn: Function, g: Cfg) returns (search: LoopSearch)
    requires g == LowerFunction(fn).g
    ensures LoopsOf(g, search.loops) && search.Mapped() && forall i :: 0 <= i < |search.loops| ==> IsNatural(g, search.loops[i])
    ensures forall b {:trigger IsLoopBase(search.loops, b)} :: IsLoopBase(search.loops, b) <==> IsReturning(WhilesIn(fn), b)
  {
    MemoryFormIffNeat(fn);
    LoweredIsReducible(fn);
    search := new LoopSearch();
    search.Run(g);
    forall i | 0 <= i < |search.loops| ensures IsNatural(g, search.loops[i]) { assert LoopAt(g, search.loops[i]); }
    forall b ensures IsLoopBase(search.loops, b) <==> IsReturning(WhilesIn(fn), b) { LoopsAreWhiles(fn, search.loops, b); }
  }
}
