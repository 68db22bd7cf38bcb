/** The `while` statements of a function and the loops of its graph: the
    condition of each dominates its body, and the loops are those whose body
    jumps back. */
module LoweringLoops {
  import opened Graphs
  import opened Knots
  import opened LoopRounds
  import opened Sources
  import opened Lowerings
  import opened LoweringGrowth
  import opened LoweringOk
  import opened LoweringNeat
  import opened LoweringElse
  import opened LoweringOrder

  /** A lowered `while`: the block of its condition, the number of blocks when its
      body has been lowered, and whether the end of the body jumps back. */
  datatype WhileAt = WhileAt(n: Block, m: nat, loops: bool)

  /** The blocks of its body: the first, and all that were made for it. */
  predicate InBody(w: WhileAt, b: Block) {
    b == w.n + 1 || w.n + 3 <= b < w.m
  }

  /** The `while` statements of `s`, lowered from `st`. */
  ghost function WhilesOf(st: Build, s: Stmt): set<WhileAt>
    decreases s, 1
  {
    match s
    case Nothing => {}
    case Do(_) => {}
    case If(c, t) => WhilesOf(Fork(st, c), t)
    case IfElse(c, t, f) => WhilesOf(Fork(st, c), t) + WhilesOf(GoTo(LowerStmt(Fork(st, c), t), |st.g.blocks| + 1), f)
    case While(c, body) =>
      var st2 := TestLoop(EnterLoop(st), c);
      WhilesOf(st2, body) + {WhileAt(|st.g.blocks|, |LowerStmt(st2, body).g.blocks|, !Closes(body, false))}
    case Compound(decls, stmts) => WhilesOfAll(OpenLocals(st, decls), stmts)
  }

  ghost function WhilesOfAll(st: Build, stmts: seq<Stmt>): set<WhileAt>
    decreases stmts
  {
    if stmts == [] then {} else WhilesOf(st, stmts[0]) + WhilesOfAll(LowerStmt(st, stmts[0]), stmts[1..])
  }

  ghost function WhilesIn(f: Function): set<WhileAt> {
    WhilesOf(LowerParams(Empty(), f.params), Compound(f.decls, f.stmts))
  }

  // ----- one level at a time -----

  ghost predicate WhilesAre(st: Build, s: Stmt, ws: set<WhileAt>) {
    forall k: nat {:trigger OneLevel(k)} :: OneLevel(k) ==> ws == WhilesOf(st, s)
  }

  ghost predicate AllWhilesAre(st: Build, stmts: seq<Stmt>, ws: set<WhileAt>) {
    forall k: nat {:trigger OneLevel(k)} :: OneLevel(k) ==> ws == WhilesOfAll(st, stmts)
  }

  lemma NoWhiles(st: Build, s: Stmt, ws: set<WhileAt>)
    requires (s.Nothing? || s.Do?) && WhilesAre(st, s, ws)
    ensures ws == {}
  {
    assert OneLevel(0);
  }

  lemma IfWhiles(st: Build, s: Stmt, ws: set<WhileAt>, cond: Lowered, st0: Build, st1: Build, t: Block, f: Block)
    requires s.If? && WhilesAre(st, s, ws) && ForkOf(st, s.cond, cond, st0, st1, t, f)
    ensures WhilesAre(st1, s.then_, ws)
  {
    assert OneLevel(0) && st1 == Fork(st, s.cond);
  }

  lemma IfElseWhiles(st: Build, s: Stmt, ws: set<WhileAt>, cond: Lowered, st0: Build, st1: Build, st2: Build, st2': Build, t: Block, f: Block)
    returns (ws1: set<WhileAt>, ws2: set<WhileAt>)
    requires s.IfElse? && WhilesAre(st, s, ws) && ForkOf(st, s.cond, cond, st0, st1, t, f) && Becomes(st1, s.then_, st2) && st2' == GoTo(st2, f)
    ensures WhilesAre(st1, s.then_, ws1) && WhilesAre(st2', s.else_, ws2) && ws == ws1 + ws2
  {
    assert OneLevel(0) && st1 == Fork(st, s.cond);
    ws1, ws2 := WhilesOf(st1, s.then_), WhilesOf(st2', s.else_);
  }

  lemma WhileWhiles(st: Build, s: Stmt, ws: set<WhileAt>, st0: Build, st1: Build, cond: Lowered, st2: Build, st3: Build, n: Block, t: Block, f: Block)
    returns (ws1: set<WhileAt>, w: WhileAt)
    requires s.While? && WhilesAre(st, s, ws) && LoopOf(st, s.cond, st0, st1, cond, st2, n, t, f) && Becomes(st2, s.body, st3) && st1.cur == n
    ensures WhilesAre(st2, s.body, ws1) && w == WhileAt(n, |st3.g.blocks|, !Closes(s.body, false)) && ws == ws1 + {w}
  {
    assert OneLevel(0) && st1 == EnterLoop(st) && st2 == TestLoop(st1, s.cond);
    ws1, w := WhilesOf(st2, s.body), WhileAt(n, |st3.g.blocks|, !Closes(s.body, false));
  }

  lemma CompoundWhiles(st: Build, s: Stmt, ws: set<WhileAt>, st1: Build)
    requires s.Compound? && WhilesAre(st, s, ws) && st1 == OpenLocals(st, s.decls)
    ensures AllWhilesAre(st1, s.stmts, ws)
  {
    assert OneLevel(0);
  }

  lemma NextWhiles(st: Build, stmts: seq<Stmt>, ws: set<WhileAt>, st1: Build) returns (ws1: set<WhileAt>, ws2: set<WhileAt>)
    requires AllWhilesAre(st, stmts, ws) && (stmts != [] ==> Becomes(st, stmts[0], st1))
    ensures stmts == [] ==> ws == {}
    ensures stmts != [] ==> WhilesAre(st, stmts[0], ws1) && AllWhilesAre(st1, stmts[1..], ws2) && ws == ws1 + ws2
  {
    assert OneLevel(0);
    ws1, ws2 := {}, {};
    if stmts != [] {
      ws1, ws2 := WhilesOf(st, stmts[0]), WhilesOfAll(st1, stmts[1..]);
    }
  }

  // ----- what holds of a lowered `while` -----

  /** The body is entered from its condition only. */
  ghost predicate EntersBody(g: Cfg, w: WhileAt, x: Block, y: Block) {
    g.Edge(x, y) && InBody(w, y) ==> x == w.n || InBody(w, x)
  }

  ghost predicate Guarded(g: Cfg, w: WhileAt) {
    forall x, y {:trigger EntersBody(g, w, x, y)} :: EntersBody(g, w, x, y)
  }

  /** An edge leads back from the body. */
  ghost predicate JumpsBack(g: Cfg, w: WhileAt) {
    exists p {:trigger g.Edge(p, w.n)} :: InBody(w, p) && g.Edge(p, w.n)
  }

  ghost predicate WhileFits(st: Build, r: Build, w: WhileAt) {
    && |st.g.blocks| <= w.n && w.n + 3 <= w.m <= |r.g.blocks|
    && Guarded(r.g, w) && (w.loops ==> JumpsBack(r.g, w))
  }

  ghost predicate IsReturning(ws: set<WhileAt>, n: Block) {
    exists w {:trigger w in ws} :: w in ws && w.n == n && w.loops
  }

  /** A new edge leads forward, or back to a condition. */
  ghost predicate BackEdge(st: Build, r: Build, rank: Ranks, ws: set<WhileAt>, x: Block, y: Block) {
    r.g.Edge(x, y) && !st.g.Edge(x, y) ==> Rank(rank, x) < Rank(rank, y) || IsReturning(ws, y)
  }

  ghost predicate WhilesFit(st: Build, r: Build, rank: Ranks, ws: set<WhileAt>) {
    && (forall w {:trigger WhileFits(st, r, w)} :: w in ws ==> WhileFits(st, r, w))
    && (forall x, y {:trigger BackEdge(st, r, rank, ws, x, y)} :: BackEdge(st, r, rank, ws, x, y))
  }

  lemma ForwardFits(st: Build, r: Build, rank: Ranks)
    requires AllForward(st, r, rank)
    ensures WhilesFit(st, r, rank, {})
  {
    forall x, y ensures BackEdge(st, r, rank, {}, x, y) { assert ForwardEdge(st, r, rank, x, y); }
  }

  lemma SameFits(st: Build, r: Build, rank: Ranks)
    requires r.g == st.g
    ensures WhilesFit(st, r, rank, {})
  {
    forall x, y ensures BackEdge(st, r, rank, {}, x, y) { }
  }

  /** What comes later leads into no body that is complete. */
  ghost predicate LaterEdge(st: Build, r: Build, r': Build, x: Block, y: Block) {
    && (r.g.Edge(x, y) ==> r'.g.Edge(x, y))
    && (r'.g.Edge(x, y) && !r.g.Edge(x, y) ==> y < |st.g.blocks| || y >= |r.g.blocks|)
  }

  ghost predicate Later(st: Build, r: Build, r': Build) {
    |r.g.blocks| <= |r'.g.blocks| && forall x, y {:trigger LaterEdge(st, r, r', x, y)} :: LaterEdge(st, r, r', x, y)
  }

  lemma FitsLater(st: Build, r: Build, r': Build, w: WhileAt)
    requires WhileFits(st, r, w) && Later(st, r, r')
    ensures WhileFits(st, r', w)
  {
    forall x, y ensures EntersBody(r'.g, w, x, y) {
      assert EntersBody(r.g, w, x, y) && LaterEdge(st, r, r', x, y);
    }
    if w.loops {
      var p :| InBody(w, p) && r.g.Edge(p, w.n);
      assert LaterEdge(st, r, r', p, w.n);
    }
  }

  /** One part after the other. */
  lemma FitTrans(a: Build, b: Build, c: Build, rank: Ranks, rank': Ranks, ws1: set<WhileAt>, ws2: set<WhileAt>)
    requires WhilesFit(a, b, rank, ws1) && WhilesFit(b, c, rank', ws2) && Later(a, b, c) && |a.g.blocks| <= |b.g.blocks|
    requires SameRanks(|b.g.blocks|, rank, rank') && forall x, y {:trigger EdgeInside(b.g, |b.g.blocks|, x, y)} :: EdgeInside(b.g, |b.g.blocks|, x, y)
    ensures WhilesFit(a, c, rank', ws1 + ws2)
  {
    forall w | w in ws1 + ws2 ensures WhileFits(a, c, w) {
      if w in ws1 { FitsLater(a, b, c, w); } else { assert WhileFits(b, c, w); }
    }
    forall x, y ensures BackEdge(a, c, rank', ws1 + ws2, x, y) {
      assert BackEdge(a, b, rank, ws1, x, y) && BackEdge(b, c, rank', ws2, x, y) && EdgeInside(b.g, |b.g.blocks|, x, y);
      if IsReturning(ws1, y) { var w :| w in ws1 && w.n == y && w.loops; assert w in ws1 + ws2; }
      if IsReturning(ws2, y) { var w :| w in ws2 && w.n == y && w.loops; assert w in ws1 + ws2; }
    }
  }

  /** A statement adds no edge to the blocks there were. */
  lemma StmtIsLater(a: Build, b: Build, c: Build, rank: Ranks, rank': Ranks, hi: real)
    requires StmtLaid(b, c, rank, rank', hi) && StmtGrown(b, c)
    ensures Later(a, b, c) && SameRanks(|b.g.blocks|, rank, rank')
  {
    forall x, y ensures LaterEdge(a, b, c, x, y) {
      assert NewEdge(b, c, x, y) && EdgeKept(b.g, c.g, x, y);
    }
    forall x: Block | x < |b.g.blocks| ensures Rank(rank', x) == Rank(rank, x) { assert KeepsRank(b, c, rank, rank', hi, x); }
  }

  /** A jump forward to a block from before the statement's own. */
  lemma JumpFits(st: Build, st1: Build, st2: Build, r: Build, b: Block, f: Block, rank: Ranks, ws: set<WhileAt>)
    requires Sound(st2) && WhilesFit(st, st2, rank, ws) && (forall w {:trigger WhileFits(st1, st2, w)} :: w in ws ==> WhileFits(st1, st2, w))
    requires r == Jump(st2, b, f) && b < |st1.g.blocks| && b < |st2.g.blocks| && |st.g.blocks| <= |st1.g.blocks|
    requires Ended(st2) || Rank(rank, st2.cur) < Rank(rank, b)
    ensures WhilesFit(st, r, rank, ws)
  {
    JumpIsLater(st1, st2, r, b, f);
    forall w | w in ws ensures WhileFits(st, r, w) {
      assert WhileFits(st1, st2, w);
      FitsLater(st1, st2, r, w);
    }
    forall x, y ensures BackEdge(st, r, rank, ws, x, y) {
      assert BackEdge(st, st2, rank, ws, x, y);
      if !Ended(st2) { JumpAdds(st2, b, f, r); assert EdgeAdded(st2.g, r.g, st2.cur, b, x, y); }
    }
  }

  lemma JumpIsLater(st1: Build, st2: Build, r: Build, b: Block, f: Block)
    requires Sound(st2) && r == Jump(st2, b, f) && b < |st1.g.blocks| && b < |st2.g.blocks|
    ensures Later(st1, st2, r)
  {
    if !Ended(st2) { JumpAdds(st2, b, f, r); }
    forall x, y ensures LaterEdge(st1, st2, r, x, y) {
      if !Ended(st2) { assert EdgeAdded(st2.g, r.g, st2.cur, b, x, y); }
    }
  }

  // ----- the loop itself -----

  /** The new loop, when its body has been lowered. */
  lemma BodyGuarded(st: Build, st2: Build, st3: Build, n: Block, t: Block, f: Block, rank2: Ranks, rank3: Ranks, hi: real, w: WhileAt)
    requires n == |st.g.blocks| && t == n + 1 && f == n + 2 && |st2.g.blocks| == f + 1 && st2.cur == t && LoopEdges(st2.g, n, t, f)
    requires StmtLaid(st2, st3, rank2, rank3, hi) && w.n == n && w.m == |st3.g.blocks|
    requires forall x, y {:trigger EdgeInside(st2.g, |st2.g.blocks|, x, y)} :: EdgeInside(st2.g, |st2.g.blocks|, x, y)
    requires forall x, y {:trigger EdgeInside(st3.g, |st3.g.blocks|, x, y)} :: EdgeInside(st3.g, |st3.g.blocks|, x, y)
    ensures Guarded(st3.g, w)
  {
    forall x, y ensures EntersBody(st3.g, w, x, y) {
      assert NewEdge(st2, st3, x, y) && LoopEdge(st2.g, n, t, f, x, y);
      assert EdgeInside(st2.g, |st2.g.blocks|, x, y) && EdgeInside(st3.g, |st3.g.blocks|, x, y);
    }
  }

  /** The loop, when the jump from the end of its body has been added. */
  lemma WhileCloses(st: Build, st2: Build, st3: Build, r: Build, n: Block, t: Block, f: Block, rank3: Ranks, ws1: set<WhileAt>, w: WhileAt)
    requires Sound(st3) && n == |st.g.blocks| && t == n + 1 && f == n + 2 && |st2.g.blocks| == f + 1 && |st2.g.blocks| <= |st3.g.blocks|
    requires WhilesFit(st, st3, rank3, ws1) && (forall v {:trigger WhileFits(st2, st3, v)} :: v in ws1 ==> WhileFits(st2, st3, v))
    requires w.n == n && w.m == |st3.g.blocks| && Guarded(st3.g, w) && (w.loops <==> !Ended(st3)) && r == Jump(st3, n, f)
    requires st3.cur == t || st3.cur >= |st2.g.blocks|
    ensures WhilesFit(st, r, rank3, ws1 + {w})
  {
    JumpIsLater(st2, st3, r, n, f);
    if !Ended(st3) { JumpAdds(st3, n, f, r); }
    forall x, y ensures EntersBody(r.g, w, x, y) {
      assert EntersBody(st3.g, w, x, y) && LaterEdge(st2, st3, r, x, y);
      if !Ended(st3) { assert EdgeAdded(st3.g, r.g, st3.cur, n, x, y); }
    }
    if w.loops { assert EdgeAdded(st3.g, r.g, st3.cur, n, st3.cur, n) && r.g.Edge(st3.cur, w.n); }
    forall v | v in ws1 + {w} ensures WhileFits(st, r, v) {
      if v in ws1 {
        assert WhileFits(st2, st3, v);
        FitsLater(st2, st3, r, v);
      }
    }
    forall x, y ensures BackEdge(st, r, rank3, ws1 + {w}, x, y) {
      assert BackEdge(st, st3, rank3, ws1, x, y);
      if IsReturning(ws1, y) { var v :| v in ws1 && v.n == y && v.loops; assert v in ws1 + {w}; }
      if !Ended(st3) { assert EdgeAdded(st3.g, r.g, st3.cur, n, x, y) && w in ws1 + {w}; }
    }
  }

  // ----- statements -----

  /** The blocks of a statement fit into the order, and its loops are guarded. */
  lemma {:induction false} StmtOrdered(st: Build, s: Stmt, r: Build, rank: Ranks, hi: real, ws: set<WhileAt>) returns (rank': Ranks)
    requires Sound(st) && Becomes(st, s, r) && Laid(st, rank, hi) && WhilesAre(st, s, ws)
    ensures StmtLaid(st, r, rank, rank', hi) && WhilesFit(st, r, rank', ws)
    decreases s, 1
  {
    rank' := rank;
    match s
    case Nothing =>
      SimpleBecomes(st, s, r);
      NothingNew(st, r, rank, hi);
      NoWhiles(st, s, ws);
      SameFits(st, r, rank);
    case Do(e) =>
      SimpleBecomes(st, s, r);
      ExprGrows(st, e);
      NothingNew(st, r, rank, hi);
      NoWhiles(st, s, ws);
      SameFits(st, r, rank);
    case If(_, _) => rank' := IfOrdered(st, s, r, rank, hi, ws);
    case While(_, _) => rank' := WhileOrdered(st, s, r, rank, hi, ws);
    case Compound(decls, stmts) =>
      var st1 := OpenLocals(st, decls);
      var st2 := CompoundBecomes(st, s, r, st1);
      CompoundStart(st, decls, st1);
      CompoundWhiles(st, s, ws, st1);
      rank' := StmtsOrdered(st1, stmts, st2, rank, hi, ws);
      SameLaid(st, st1, st2, r, rank, rank', hi);
      SameWhiles(st, st1, st2, r, rank', ws);
    case IfElse(_, _, _) => rank' := IfElseOrdered(st, s, r, rank, hi, ws);
  }

  lemma SameWhiles(st: Build, st1: Build, st2: Build, r: Build, rank: Ranks, ws: set<WhileAt>)
    requires st1.g == st.g && r.g == st2.g && WhilesFit(st1, st2, rank, ws)
    ensures WhilesFit(st, r, rank, ws)
  {
    forall w | w in ws ensures WhileFits(st, r, w) { assert WhileFits(st1, st2, w); }
    forall x, y ensures BackEdge(st, r, rank, ws, x, y) { assert BackEdge(st1, st2, rank, ws, x, y); }
  }

  lemma {:induction false} IfOrdered(st: Build, s: Stmt, r: Build, rank: Ranks, hi: real, ws: set<WhileAt>) returns (rank': Ranks)
    requires Sound(st) && s.If? && Becomes(st, s, r) && Laid(st, rank, hi) && WhilesAre(st, s, ws)
    ensures StmtLaid(st, r, rank, rank', hi) && WhilesFit(st, r, rank', ws)
    decreases s, 0
  {
    var t, f := |st.g.blocks|, |st.g.blocks| + 1;
    var cond, st0, st1, st2 := IfBecomes(st, s, r, t, f);
    ForkGrows(st, s.cond, cond, st0, st1, t, f);
    IfWhiles(st, s, ws, cond, st0, st1, t, f);
    var rank1 := ForkLaid(st, s.cond, cond, st0, st1, t, f, rank, hi);
    rank' := StmtOrdered(st1, s.then_, st2, rank1, Rank(rank1, f), ws);
    StmtGrows(st1, s.then_, st2);
    ArmLaid(st, st1, st2, t, f, rank, rank1, rank', hi);
    assert KeepsRank(st1, st2, rank1, rank', Rank(rank1, f), f);
    ArmJumps(st, st2, r, f, rank, rank', hi);
    ArmFits(st, st1, st2, rank1, rank', Rank(rank1, f), ws);
    JumpFits(st, st1, st2, r, f, f, rank', ws);
  }

  /** The fork and the arm. */
  lemma ArmFits(st: Build, st1: Build, st2: Build, rank1: Ranks, rank2: Ranks, hi: real, ws: set<WhileAt>)
    requires AllForward(st, st1, rank1) && WhilesFit(st1, st2, rank2, ws) && StmtLaid(st1, st2, rank1, rank2, hi) && StmtGrown(st1, st2)
    requires |st.g.blocks| <= |st1.g.blocks| && Laid(st1, rank1, hi)
    ensures WhilesFit(st, st2, rank2, ws)
  {
    ForwardFits(st, st1, rank1);
    StmtIsLater(st, st1, st2, rank1, rank2, hi);
    FitTrans(st, st1, st2, rank1, rank2, {}, ws);
    assert {} + ws == ws;
  }

  lemma {:induction false} IfElseOrdered(st: Build, s: Stmt, r: Build, rank: Ranks, hi: real, ws: set<WhileAt>) returns (rank': Ranks)
    requires Sound(st) && s.IfElse? && Becomes(st, s, r) && Laid(st, rank, hi) && WhilesAre(st, s, ws)
    ensures StmtLaid(st, r, rank, rank', hi) && WhilesFit(st, r, rank', ws)
    decreases s, 0
  {
    var t, f := |st.g.blocks|, |st.g.blocks| + 1;
    var cond, st0, st1, st2, st2', st3 := IfElseBecomes(st, s, r, t, f);
    var ws1, ws2 := IfElseWhiles(st, s, ws, cond, st0, st1, st2, st2', t, f);
    ForkGrows(st, s.cond, cond, st0, st1, t, f);
    var rank1 := ForkLaid(st, s.cond, cond, st0, st1, t, f, rank, hi);
    var rank2 := StmtOrdered(st1, s.then_, st2, rank1, Rank(rank1, f), ws1);
    StmtGrows(st1, s.then_, st2);
    ArmLaid(st, st1, st2, t, f, rank, rank1, rank2, hi);
    ArmFits(st, st1, st2, rank1, rank2, Rank(rank1, f), ws1);
    SameSound(st2, st2');
    var rank3 := StmtOrdered(st2', s.else_, st3, rank2, hi, ws2);
    StmtGrows(st2', s.else_, st3);
    ElseGrown(st, st1, st2, st2', st3, t, f);
    LaidTrans(st, st2', st3, rank, rank2, rank3, hi);
    SecondFits(st, st2, st2', st3, rank2, rank3, hi, ws1, ws2);
    assert KeepsRank(st2', st3, rank2, rank3, hi, st2.cur);
    rank' := EndArmsLaid(st, st2.cur, st3, r, rank, rank3, hi);
    EndArmsGrow(st3, st2.cur, r);
    EndFits(st, st3, st2.cur, r, rank3, rank', ws);
  }

  lemma SecondFits(st: Build, st2: Build, st2': Build, st3: Build, rank2: Ranks, rank3: Ranks, hi: real, ws1: set<WhileAt>, ws2: set<WhileAt>)
    requires st2'.g == st2.g && WhilesFit(st, st2, rank2, ws1) && WhilesFit(st2', st3, rank3, ws2) && StmtLaid(st2', st3, rank2, rank3, hi)
    requires StmtGrown(st2', st3) && |st.g.blocks| <= |st2.g.blocks| && Laid(st2', rank2, hi)
    ensures WhilesFit(st, st3, rank3, ws1 + ws2)
  {
    SameWhiles(st, st, st2, st2', rank2, ws1);
    StmtIsLater(st, st2', st3, rank2, rank3, hi);
    FitTrans(st, st2', st3, rank2, rank3, ws1, ws2);
  }

  lemma EndArmsGrow(st3: Build, x: Block, r: Build)
    requires Sound(st3) && x < |st3.g.blocks| && x != st3.cur && r == EndArms(st3, x)
    ensures Grows(st3, r, {x, st3.cur}) && Sound(r)
  {
    if Ended(st3) {
      SameSound(st3, st3);
      WidenGrows(st3, st3, {x, st3.cur});
    } else {
      var n, st4, st5 := |st3.g.blocks|, st3.NewBlock(), st3.NewBlock().At(x);
      ArmsGrow(st3, x, st4, st5, st5.Br(n).At(st3.cur), n, r);
    }
  }

  /** The jumps behind the arms lead to a new block. */
  lemma EndFits(st: Build, st3: Build, x: Block, r: Build, rank3: Ranks, rank': Ranks, ws: set<WhileAt>)
    requires Sound(st3) && WhilesFit(st, st3, rank3, ws) && AllForward(st3, r, rank') && SameRanks(|st3.g.blocks|, rank3, rank')
    requires Grows(st3, r, {x, st3.cur}) && r == EndArms(st3, x) && x < |st3.g.blocks| && |st.g.blocks| <= |st3.g.blocks|
    requires forall a, b {:trigger EdgeInside(st3.g, |st3.g.blocks|, a, b)} :: EdgeInside(st3.g, |st3.g.blocks|, a, b)
    ensures WhilesFit(st, r, rank', ws)
  {
    ForwardFits(st3, r, rank');
    forall a, b ensures LaterEdge(st, st3, r, a, b) {
      assert EdgeKept(st3.g, r.g, a, b);
      if r.g.Edge(a, b) { EndEdge(st3, x, r, a, b); }
    }
    FitTrans(st, st3, r, rank3, rank', ws, {});
    assert ws + {} == ws;
  }

  lemma EndEdge(st3: Build, x: Block, r: Build, a: Block, b: Block)
    requires Sound(st3) && r == EndArms(st3, x) && r.g.Edge(a, b)
    ensures st3.g.Edge(a, b) || b == |st3.g.blocks|
  {
    assert ThereAt(st3, a);
  }

  lemma {:induction false} WhileOrdered(st: Build, s: Stmt, r: Build, rank: Ranks, hi: real, ws: set<WhileAt>) returns (rank': Ranks)
    requires Sound(st) && s.While? && Becomes(st, s, r) && Laid(st, rank, hi) && WhilesAre(st, s, ws)
    ensures StmtLaid(st, r, rank, rank', hi) && WhilesFit(st, r, rank', ws)
    decreases s, 0
  {
    var n, t, f := |st.g.blocks|, |st.g.blocks| + 1, |st.g.blocks| + 2;
    var st0, st1, cond, st2, st3 := WhileBecomes(st, s, r, n, t, f);
    LoopGrows(st, s.cond, st0, st1, cond, st2, n, t, f);
    var ws1, w := WhileWhiles(st, s, ws, st0, st1, cond, st2, st3, n, t, f);
    var rank2 := LoopLaid(st, s.cond, st0, st1, cond, st2, n, t, f, rank, hi);
    rank' := StmtOrdered(st2, s.body, st3, rank2, Rank(rank2, f), ws1);
    StmtGrows(st2, s.body, st3);
    ArmLaid(st, st2, st3, t, f, rank, rank2, rank', hi);
    BodyJumps(st, st2, st3, r, n, t, f, rank, rank2, rank', hi);
    ArmFits(st, st2, st3, rank2, rank', Rank(rank2, f), ws1);
    BodyGuarded(st, st2, st3, n, t, f, rank2, rank', Rank(rank2, f), w);
    EmptyNotEnded(st2);
    StmtEnds(st2, s.body, st3);
    WhileCloses(st, st2, st3, r, n, t, f, rank', ws1, w);
  }

  lemma {:induction false} StmtsOrdered(st: Build, stmts: seq<Stmt>, r: Build, rank: Ranks, hi: real, ws: set<WhileAt>) returns (rank': Ranks)
    requires Sound(st) && BecomesAll(st, stmts, r) && Laid(st, rank, hi) && AllWhilesAre(st, stmts, ws)
    ensures StmtLaid(st, r, rank, rank', hi) && WhilesFit(st, r, rank', ws)
    decreases stmts
  {
    var st1 := NextBecomes(st, stmts, r);
    var ws1, ws2 := NextWhiles(st, stmts, ws, st1);
    if stmts == [] {
      rank' := rank;
      NothingNew(st, r, rank, hi);
      SameFits(st, r, rank);
    } else {
      StmtGrows(st, stmts[0], st1);
      var rank1 := StmtOrdered(st, stmts[0], st1, rank, hi, ws1);
      rank' := StmtsOrdered(st1, stmts[1..], r, rank1, hi, ws2);
      StmtsGrow(st1, stmts[1..], r);
      LaidTrans(st, st1, r, rank, rank1, rank', hi);
      StmtIsLater(st, st1, r, rank1, rank', hi);
      FitTrans(st, st1, r, rank1, rank', ws1, ws2);
    }
  }

  // ----- functions -----

  /** The whole function. */
  lemma FunctionOrdered(f: Function, r: Build) returns (rank: Ranks)
    requires r == LowerFunction(f)
    ensures Layout(r.g, |r.g.blocks|, rank) && r.g.entry == 0
    ensures forall w {:trigger w in WhilesIn(f)} :: w in WhilesIn(f) ==> w.n > 0 && w.n + 3 <= w.m <= |r.g.blocks| && Guarded(r.g, w) && (w.loops ==> JumpsBack(r.g, w))
    ensures forall x, y {:trigger r.g.Edge(x, y)} :: r.g.Edge(x, y) ==> Rank(rank, x) < Rank(rank, y) || IsReturning(WhilesIn(f), y)
  {
    var st0, st := FunctionStates(f, r);
    EmptySound();
    ParamsGrow(Empty(), f.params);
    var rank0: Ranks := map[0 := 0.0];
    EntryLaid(st0, rank0);
    var s := Compound(f.decls, f.stmts);
    rank := StmtOrdered(st0, s, st, rank0, 1.0, WhilesIn(f));
    assert r.g == st.g;
    forall w | w in WhilesIn(f) ensures w.n > 0 && w.n + 3 <= w.m <= |r.g.blocks| && Guarded(r.g, w) && (w.loops ==> JumpsBack(r.g, w)) {
      assert WhileFits(st0, st, w);
    }
    forall x, y | r.g.Edge(x, y) ensures Rank(rank, x) < Rank(rank, y) || IsReturning(WhilesIn(f), y) {
      assert BackEdge(st0, st, rank, WhilesIn(f), x, y);
    }
  }

  /** Every function is lowered to a reducible graph. */
  lemma LoweredIsReducible(f: Function)
    ensures Reducible(LowerFunction(f).g)
  {
    var r := LowerFunction(f);
    var rank := FunctionOrdered(f, r);
    LayoutIsReducible(r.g, |r.g.blocks|, rank);
  }

  lemma {:induction false} BodyBehind(g: Cfg, w: WhileAt, v: seq<Block>, b: Block)
    requires Guarded(g, w) && g.entry == 0 && g.WalkFromTo(v, 0, b) && InBody(w, b)
    ensures w.n in v
    decreases |v|
  {
    if |v| > 1 {
      var i := |v| - 2;
      assert g.EdgeAt(v, i + 1) && EntersBody(g, w, v[i], b);
      if v[i] != w.n {
        g.PrefixWalk(v, 0, b, i);
        BodyBehind(g, w, v[..i + 1], v[i]);
      }
    }
  }

  /** The condition of each `while` dominates its body. */
  lemma WhileDominatesBody(f: Function, w: WhileAt, b: Block)
    requires w in WhilesIn(f) && InBody(w, b)
    ensures w.n in LowerFunction(f).g.blocks && b in LowerFunction(f).g.blocks && LowerFunction(f).g.Dom(w.n, b)
  {
    var r := LowerFunction(f);
    var rank := FunctionOrdered(f, r);
    FunctionLowered(f, r);
    KeysOf(r);
    forall v | r.g.WalkFromTo(v, r.g.entry, b) ensures w.n in v { BodyBehind(r.g, w, v, b); }
  }

  ghost predicate IsLoopBase(loops: seq<Loop>, b: Block) {
    exists i {:trigger loops[i]} :: 0 <= i < |loops| && loops[i].base == b
  }

  /** The loops that are found are those of the `while` statements whose bodies
      jump back: each has the condition of one as its base, and each of these
      conditions is the base of one. */
  lemma LoopsAreWhiles(f: Function, loops: seq<Loop>, b: Block)
    requires LoopsOf(LowerFunction(f).g, loops)
    ensures IsLoopBase(loops, b) <==> IsReturning(WhilesIn(f), b)
  {
    var r := LowerFunction(f);
    LoweredGraphOk(f);
    LoweredIsReducible(f);
    var rank := FunctionOrdered(f, r);
    if IsReturning(WhilesIn(f), b) {
      var w :| w in WhilesIn(f) && w.n == b && w.loops;
      var p :| InBody(w, p) && r.g.Edge(p, w.n);
      WhileDominatesBody(f, w, p);
      PairIsReported(r.g, loops, w.n, p);
    }
    if i :| 0 <= i < |loops| && loops[i].base == b {
      assert LoopAt(r.g, loops[i]);
      var p := BaseIsLowest(r.g, |r.g.blocks|, rank, loops[i].blocks, b);
    }
  }

  /** An edge back to a block that dominates its source makes a loop. */
  lemma PairIsReported(g: Cfg, loops: seq<Loop>, n: Block, p: Block)
    requires Searchable(g) && Reducible(g) && LoopsOf(g, loops) && n in g.blocks && p in g.blocks && n != p && g.Dom(n, p) && g.Edge(p, n)
    ensures IsLoopBase(loops, n)
  {
    assert g.Dom(n, n);
    assert n in NaturalLoop(g, n);
    NaturalHasPred(g, n, p, n);
    AtLeastTwo(NaturalLoop(g, n), n, p);
    var i := NaturalIsReported(g, loops, n);
  }

  /** An edge inside a knot leads back to its base. */
  lemma BaseIsLowest(g: Cfg, n: nat, rank: Ranks, c: set<Block>, h: Block) returns (p: Block)
    requires Layout(g, n, rank) && g.entry == 0 && g.Wf() && g.AllReachable() && IsKnot(g, c) && Heads(g, h, c)
    ensures g.Edge(p, h) && Rank(rank, h) <= Rank(rank, p)
  {
    var low := HasLowest(rank, c);
    LowestHeads(g, n, rank, c, low);
    assert low in c && h in c && g.Dom(low, h) && g.Dom(h, low);
    assert g.Reachable(h);
    var v :| g.WalkFromTo(v, g.entry, h);
    DomAntisymmetric(g, v, low, h);
    var q := c - {h};
    assert |q| == |c| - 1;
    var a :| a in q;
    assert !ClosedIn(g, c, q) by { assert h in c && h !in q; }
    p, low := PickEdge(g, c, q);
  }

  lemma PickEdge(g: Cfg, c: set<Block>, q: set<Block>) returns (p: Block, b: Block)
    requires !ClosedIn(g, c, q)
    ensures p in q && p in c && b in c && g.Edge(p, b) && b !in q
  {
    p, b :| p in q && p in c && b in c && g.Edge(p, b) && b !in q;
  }
}
