/** The order in which `re_name` visits the blocks: the dominator tree, parents
    first, children as they are listed. */
module RenameOrder {
  import opened Graphs
  import opened SsaForm
  import opened RenameSteps
  import opened RenameStacks

  type Listing = map<Block, seq<Block>>

  ghost predicate Distinct(bs: seq<Block>) {
    forall i, j :: 0 <= i < j < |bs| ==> bs[i] != bs[j]
  }

  /** `kids` lists the dominator-tree children of `b`, each once. */
  ghost predicate KidsAt(s: Ssa, kids: Listing, b: Block) {
    b in s.code.body ==>
      && b in kids && Distinct(kids[b])
      && forall c :: c in kids[b] <==> c in s.code.body && c != s.t.root && c in s.t.up && s.t.up[c] == b
  }

  ghost predicate KidsOk(s: Ssa, kids: Listing) {
    forall b {:trigger KidsAt(s, kids, b)} :: KidsAt(s, kids, b)
  }

  lemma KidIsBelow(s: Ssa, kids: Listing, b: Block, c: Block)
    requires s.Ready() && KidsOk(s, kids) && b in s.code.body && b in kids && c in kids[b]
    ensures c in s.code.body && c in s.t.up && b in s.t.up && c != s.t.root && s.t.up[c] == b
    ensures s.t.id[c] < s.t.id[b] && s.t.Above(c, b)
  {
    assert KidsAt(s, kids, b) && s.t.LinkAt(c) && s.BlockOk(c) && s.BlockOk(b);
    assert s.t.Above(b, b);
  }

  ghost function Preorder(s: Ssa, kids: Listing, b: Block): seq<Block>
    requires s.Ready() && KidsOk(s, kids) && b in s.code.body
    decreases assert s.BlockOk(b); s.t.id[b], 1, 0
  {
    assert KidsAt(s, kids, b) && s.BlockOk(b);
    [b] + Forest(s, kids, b, kids[b])
  }

  ghost function Forest(s: Ssa, kids: Listing, b: Block, cs: seq<Block>): seq<Block>
    requires s.Ready() && KidsOk(s, kids) && b in s.code.body && b in kids
    requires forall c :: c in cs ==> c in kids[b]
    decreases assert s.BlockOk(b); s.t.id[b], 0, |cs|
  {
    if cs == [] then []
    else
      assert s.BlockOk(b);
      assert forall c :: c in cs[..|cs| - 1] ==> c in cs;
      KidIsBelow(s, kids, b, cs[|cs| - 1]);
      Forest(s, kids, b, cs[..|cs| - 1]) + Preorder(s, kids, cs[|cs| - 1])
  }

  /** The visit of `b` covers exactly the blocks that `b` dominates. */
  lemma {:induction false} PreorderCovers(s: Ssa, kids: Listing, b: Block, d: Block)
    requires s.Ready() && KidsOk(s, kids) && b in s.code.body
    ensures d in Preorder(s, kids, b) <==> d in s.code.body && d in s.t.up && s.t.Above(d, b)
    decreases assert s.BlockOk(b); s.t.id[b], 1, 0
  {
    assert KidsAt(s, kids, b) && s.BlockOk(b);
    ForestCovers(s, kids, b, kids[b], d);
    if d in s.code.body && d in s.t.up && s.t.Above(d, b) && d != b {
      var c := KidAbove(s, kids, b, d);
    }
    if c: Block :| c in kids[b] && d in s.t.up && s.t.Above(d, c) {
      KidIsBelow(s, kids, b, c);
      s.t.AboveTrans(d, c, b);
    }
  }

  lemma {:induction false} ForestCovers(s: Ssa, kids: Listing, b: Block, cs: seq<Block>, d: Block)
    requires s.Ready() && KidsOk(s, kids) && b in s.code.body && b in kids
    requires forall c :: c in cs ==> c in kids[b]
    ensures d in Forest(s, kids, b, cs) <==> exists c :: c in cs && d in s.code.body && d in s.t.up && s.t.Above(d, c)
    decreases assert s.BlockOk(b); s.t.id[b], 0, |cs|
  {
    if cs != [] {
      var c, ds := cs[|cs| - 1], cs[..|cs| - 1];
      assert s.BlockOk(b);
      KidIsBelow(s, kids, b, c);
      assert forall e :: e in cs <==> e in ds || e == c;
      ForestCovers(s, kids, b, ds, d);
      PreorderCovers(s, kids, c, d);
    }
  }

  /** Below `b` there is a child of `b` on the way up. */
  lemma {:induction false} KidAbove(s: Ssa, kids: Listing, b: Block, d: Block) returns (c: Block)
    requires s.Ready() && KidsOk(s, kids) && b in s.code.body && d in s.code.body && d in s.t.up
    requires s.t.Above(d, b) && d != b
    ensures b in kids && c in kids[b] && c in s.t.up && s.t.Above(d, c)
    decreases s.Height(d)
  {
    assert KidsAt(s, kids, b) && s.t.LinkAt(d) && s.BlockOk(d);
    if s.t.up[d] == b {
      s.t.AboveId(d, b);
      s.t.RootAbove(b);
      s.t.AboveId(b, s.t.root);
      c := d;
    } else {
      s.t.AboveId(d, b);
      c := KidAbove(s, kids, b, s.t.up[d]);
    }
  }

  /** Different children have nothing below them in common. */
  lemma SiblingsApart(s: Ssa, kids: Listing, b: Block, c: Block, e: Block, d: Block)
    requires s.Ready() && KidsOk(s, kids) && b in s.code.body && b in kids && c in kids[b] && e in kids[b] && c != e
    requires d in s.t.up && c in s.t.up && e in s.t.up
    ensures !(s.t.Above(d, c) && s.t.Above(d, e))
  {
    KidIsBelow(s, kids, b, c);
    KidIsBelow(s, kids, b, e);
    if s.t.Above(d, c) && s.t.Above(d, e) {
      if s.t.id[c] <= s.t.id[e] {
        s.t.AboveLinear(d, c, e);
        s.t.AboveId(b, e);
      } else {
        s.t.AboveLinear(d, e, c);
        s.t.AboveId(b, c);
      }
    }
  }

  // ----- visits that never meet an empty stack -----

  ghost predicate VisitSafe(s: Ssa, filled: seq<Block>, b: Block)
    requires s.Ready() && b in s.code.body
  {
    LoadsSafe(s, filled, b, |s.code.body[b]|) && FillsSafe(s, filled, b)
  }

  /** After `filled`, the visits of `order` go through. */
  ghost predicate SafeRun(s: Ssa, filled: seq<Block>, order: seq<Block>)
    requires s.Ready()
  {
    order == [] ||
    (SafeRun(s, filled, order[..|order| - 1]) &&
     (order[|order| - 1] in s.code.body ==> VisitSafe(s, filled + order[..|order| - 1], order[|order| - 1])))
  }

  lemma {:induction false} SafeRunJoin(s: Ssa, filled: seq<Block>, a: seq<Block>, b: seq<Block>)
    requires s.Ready()
    ensures SafeRun(s, filled, a + b) <==> SafeRun(s, filled, a) && SafeRun(s, filled + a, b)
  {
    if b == [] {
      assert a + b == a;
    } else {
      var b1 := b[..|b| - 1];
      assert (a + b)[..|a + b| - 1] == a + b1;
      assert filled + (a + b1) == filled + a + b1;
      SafeRunJoin(s, filled, a, b1);
    }
  }

  // ----- the visit of one block -----

  ghost function Set(bs: seq<Block>): set<Block> {
    set b | b in bs
  }

  /** Nothing below `b` has been visited. */
  ghost predicate Unvisited(s: Ssa, filled: seq<Block>, cleaned: set<Block>, b: Block)
    requires s.t.Ok()
  {
    && Set(filled) >= cleaned
    && (forall d {:trigger NotBelow(s, b, d)} :: d in filled ==> NotBelow(s, b, d))
  }

  ghost predicate NotBelow(s: Ssa, b: Block, d: Block)
    requires s.t.Ok()
  {
    d in s.t.up && !s.t.Above(d, b)
  }

  lemma SelfUnvisited(s: Ssa, filled: seq<Block>, cleaned: set<Block>, b: Block)
    requires s.Ready() && b in s.t.up && Unvisited(s, filled, cleaned, b)
    ensures b !in filled && b !in cleaned
  {
    assert s.t.Above(b, b);
    assert b in filled ==> NotBelow(s, b, b);
  }

  /** The visit of `b` begins with `b` itself. */
  lemma VisitIsFirst(s: Ssa, kids: Listing, filled: seq<Block>, b: Block)
    requires s.Ready() && KidsOk(s, kids) && b in s.code.body
    ensures b in kids
    ensures SafeRun(s, filled, Preorder(s, kids, b)) <==>
            VisitSafe(s, filled, b) && SafeRun(s, filled + [b], Forest(s, kids, b, kids[b]))
    ensures filled + Preorder(s, kids, b) == filled + [b] + Forest(s, kids, b, kids[b])
    ensures Set(Preorder(s, kids, b)) == {b} + Set(Forest(s, kids, b, kids[b]))
  {
    assert KidsAt(s, kids, b);
    FirstIsSafe(s, filled, b, Forest(s, kids, b, kids[b]));
  }

  lemma FirstIsSafe(s: Ssa, filled: seq<Block>, b: Block, below: seq<Block>)
    requires s.Ready() && b in s.code.body
    ensures SafeRun(s, filled, [b] + below) <==> VisitSafe(s, filled, b) && SafeRun(s, filled + [b], below)
    ensures filled + ([b] + below) == filled + [b] + below && Set([b] + below) == {b} + Set(below)
  {
    SafeRunJoin(s, filled, [b], below);
    assert filled + [b][..0] == filled;
    assert [b][..0] == [];
  }

  /** Once its phis, loads, stores and outgoing pairs are done, a block counts
      among those that have defined their slots. */
  lemma BlockFilled(s: Ssa, vs: Stacks, filled: seq<Block>, b: Block)
    requires s.Ready() && b in s.code.body && StacksAt(s, vs, filled, b, |s.code.body[b]|)
    ensures StacksAtEnd(s, vs, filled + [b], b)
  {
    var filled1 := filled + [b];
    forall x ensures StackAtEnd(s, vs, filled1, b, x) {
      assert StackAt(s, vs, filled, b, |s.code.body[b]|, x);
      assert DefinedIn(s, b, |s.code.body[b]|, x) <==> Defines(s, b, x);
    }
  }

  lemma NotYetCleaned(s: Ssa, kids: Listing, cleaned: set<Block>, b: Block)
    requires s.Ready() && KidsOk(s, kids) && b in s.code.body && b in s.t.up && b in kids
    requires b !in cleaned
    ensures b !in Set(Forest(s, kids, b, kids[b]))
  {
    ForestCovers(s, kids, b, kids[b], b);
    if c: Block :| c in kids[b] && s.t.Above(b, c) {
      KidIsBelow(s, kids, b, c);
      s.t.AboveId(b, c);
    }
  }

  // ----- the visits of the children -----

  /** What a child finds is what its parent has at its end. */
  lemma KidStacks(s: Ssa, vs: Stacks, filled: seq<Block>, b: Block, c: Block)
    requires s.Ready() && b in s.code.body && c in s.code.body && c in s.t.up && c != s.t.root && s.t.up[c] == b
    ensures StacksAtEnd(s, vs, filled, b) <==> StacksOnEntry(s, vs, filled, c)
  {
    forall x ensures StackAtEnd(s, vs, filled, b, x) <==> StackOnEntry(s, vs, filled, c, x) {
    }
    if StacksAtEnd(s, vs, filled, b) {
      forall x ensures StackOnEntry(s, vs, filled, c, x) { assert StackAtEnd(s, vs, filled, b, x); }
    }
    if StacksOnEntry(s, vs, filled, c) {
      forall x ensures StackAtEnd(s, vs, filled, b, x) { assert StackOnEntry(s, vs, filled, c, x); }
    }
  }

  /** The visit of the next child may begin. */
  lemma KidUnvisited(s: Ssa, kids: Listing, filled: seq<Block>, cleaned: set<Block>, b: Block, i: nat)
    requires s.Ready() && KidsOk(s, kids) && b in s.code.body && b in s.t.up
    requires AncestorsIn(s, filled, b) && Unvisited(s, filled, cleaned, b)
    requires b in kids && i < |kids[b]|
    ensures forall c :: c in kids[b][..i] ==> c in kids[b]
    ensures var c, before := kids[b][i], Forest(s, kids, b, kids[b][..i]);
            c in s.code.body && c in s.t.up && c != s.t.root && s.t.up[c] == b && s.t.id[c] < s.t.id[b] &&
            AncestorsIn(s, filled + [b] + before, c) &&
            Unvisited(s, filled + [b] + before, cleaned + Set(before), c)
  {
    var c, cs := kids[b][i], kids[b][..i];
    KidIsBelow(s, kids, b, c);
    assert KidsAt(s, kids, b);
    var before := Forest(s, kids, b, cs);
    var now := filled + [b] + before;
    forall d | s.t.Above(c, d) && d != c ensures d in now {
      assert s.t.Above(b, d);
    }
    forall d | d in now ensures NotBelow(s, c, d) {
      ForestCovers(s, kids, b, cs, d);
      if d in filled { assert NotBelow(s, b, d); }
      if d in s.t.up && s.t.Above(d, c) {
        s.t.AboveTrans(d, c, b);
        if d in filled {
        } else if d == b {
          s.t.AboveId(b, c);
        } else {
          var e :| e in cs && s.t.Above(d, e);
          KidIsBelow(s, kids, b, e);
          SiblingsApart(s, kids, b, c, e, d);
        }
      }
    }
  }

  lemma ForestNext(s: Ssa, kids: Listing, b: Block, i: nat)
    requires s.Ready() && KidsOk(s, kids) && b in s.code.body && b in kids && i < |kids[b]|
    ensures kids[b][i] in s.code.body
    ensures forall c :: c in kids[b][..i + 1] ==> c in kids[b]
    ensures forall c :: c in kids[b][..i] ==> c in kids[b]
    ensures Forest(s, kids, b, kids[b][..i + 1]) == Forest(s, kids, b, kids[b][..i]) + Preorder(s, kids, kids[b][i])
  {
    KidIsBelow(s, kids, b, kids[b][i]);
    assert kids[b][..i + 1][..i] == kids[b][..i];
  }

  /** A child whose visit fails makes the whole visit fail. */
  lemma {:induction false} ForestStopsHere(s: Ssa, kids: Listing, filled: seq<Block>, b: Block, i: nat)
    requires s.Ready() && KidsOk(s, kids) && b in s.code.body && b in kids && i < |kids[b]|
    requires forall c :: c in kids[b][..i + 1] ==> c in kids[b]
    requires !SafeRun(s, filled + [b], Forest(s, kids, b, kids[b][..i + 1]))
    ensures !SafeRun(s, filled + [b], Forest(s, kids, b, kids[b]))
    decreases |kids[b]| - i
  {
    if i + 1 == |kids[b]| {
      assert kids[b][..i + 1] == kids[b];
    } else {
      ForestNext(s, kids, b, i + 1);
      SafeRunJoin(s, filled + [b], Forest(s, kids, b, kids[b][..i + 1]), Preorder(s, kids, kids[b][i + 1]));
      ForestStopsHere(s, kids, filled, b, i + 1);
    }
  }

  /** How far the visits below `b` have come: the children before `i` are done. */
  ghost predicate KidsDone(s: Ssa, h: Heap, vs: Stacks, kids: Listing, filled: seq<Block>, cleaned: set<Block>, b: Block, i: nat)
    requires s.Ready() && KidsOk(s, kids) && b in s.code.body && b in kids && i <= |kids[b]|
  {
    && (forall c :: c in kids[b][..i] ==> c in kids[b])
    && var done := Forest(s, kids, b, kids[b][..i]);
    && Underway(s, h, Stage(filled + [b] + done, b, 0), cleaned + Set(done))
    && StacksAtEnd(s, vs, filled + [b] + done, b)
    && SafeRun(s, filled + [b], done)
  }

  /** What the visit of a block starts from. */
  ghost predicate VisitReady(s: Ssa, h: Heap, vs: Stacks, filled: seq<Block>, cleaned: set<Block>, b: Block)
    requires s.Ready() && b in s.code.body
  {
    && b in s.t.up && AncestorsIn(s, filled, b) && Unvisited(s, filled, cleaned, b)
    && Underway(s, h, Stage(filled, b, 0), cleaned)
    && StacksOnEntry(s, vs, filled, b)
  }

  /** What it has done in the end, `order` being the blocks it has visited. */
  ghost predicate VisitDone(s: Ssa, h: Heap, vs: Stacks, filled: seq<Block>, cleaned: set<Block>, b: Block, order: seq<Block>)
    requires s.Ready() && b in s.code.body
  {
    && Underway(s, h, Stage(filled + order, b, 0), cleaned + Set(order))
    && StacksOnEntry(s, vs, filled + order, b)
  }

  lemma KidReady(s: Ssa, h: Heap, vs: Stacks, kids: Listing, filled: seq<Block>, cleaned: set<Block>, b: Block, i: nat)
    requires s.Ready() && KidsOk(s, kids) && b in s.code.body && b in s.t.up && b in kids && i < |kids[b]|
    requires AncestorsIn(s, filled, b) && Unvisited(s, filled, cleaned, b)
    requires KidsDone(s, h, vs, kids, filled, cleaned, b, i)
    ensures kids[b][i] in s.code.body && kids[b][i] in s.t.up && s.t.id[kids[b][i]] < s.t.id[b]
    ensures var done := Forest(s, kids, b, kids[b][..i]);
            VisitReady(s, h, vs, filled + [b] + done, cleaned + Set(done), kids[b][i])
  {
    var c, done := kids[b][i], Forest(s, kids, b, kids[b][..i]);
    KidUnvisited(s, kids, filled, cleaned, b, i);
    KidStacks(s, vs, filled + [b] + done, b, c);
    StageStarts(s, h, filled + [b] + done, b, c, cleaned + Set(done));
  }

  lemma KidDone(s: Ssa, h: Heap, vs: Stacks, kids: Listing, filled: seq<Block>, cleaned: set<Block>, b: Block, i: nat)
    requires s.Ready() && KidsOk(s, kids) && b in s.code.body && b in s.t.up && b in kids && i < |kids[b]|
    requires kids[b][i] in s.code.body && forall c :: c in kids[b][..i] ==> c in kids[b]
    requires var done := Forest(s, kids, b, kids[b][..i]);
             SafeRun(s, filled + [b], done) &&
             SafeRun(s, filled + [b] + done, Preorder(s, kids, kids[b][i])) &&
             VisitDone(s, h, vs, filled + [b] + done, cleaned + Set(done), kids[b][i], Preorder(s, kids, kids[b][i]))
    ensures KidsDone(s, h, vs, kids, filled, cleaned, b, i + 1)
  {
    var c, done := kids[b][i], Forest(s, kids, b, kids[b][..i]);
    var sub := Preorder(s, kids, c);
    KidIsBelow(s, kids, b, c);
    ForestNext(s, kids, b, i);
    SafeRunJoin(s, filled + [b], done, sub);
    assert filled + [b] + done + sub == filled + [b] + (done + sub);
    assert cleaned + Set(done) + Set(sub) == cleaned + Set(done + sub);
    StageStarts(s, h, filled + [b] + (done + sub), c, b, cleaned + Set(done + sub));
    KidStacks(s, vs, filled + [b] + (done + sub), b, c);
  }

  lemma KidFailed(s: Ssa, kids: Listing, filled: seq<Block>, b: Block, i: nat)
    requires s.Ready() && KidsOk(s, kids) && b in s.code.body && b in kids && i < |kids[b]|
    requires kids[b][i] in s.code.body && forall c :: c in kids[b][..i] ==> c in kids[b]
    requires !SafeRun(s, filled + [b] + Forest(s, kids, b, kids[b][..i]), Preorder(s, kids, kids[b][i]))
    ensures !SafeRun(s, filled + [b], Forest(s, kids, b, kids[b]))
  {
    ForestNext(s, kids, b, i);
    SafeRunJoin(s, filled + [b], Forest(s, kids, b, kids[b][..i]), Preorder(s, kids, kids[b][i]));
    ForestStopsHere(s, kids, filled, b, i);
  }

  /** All that the visit of `b` needs to know about its parts. */
  lemma VisitParts(s: Ssa, kids: Listing, filled: seq<Block>, cleaned: set<Block>, b: Block)
    requires s.Ready() && KidsOk(s, kids) && b in s.code.body && b in s.t.up && Unvisited(s, filled, cleaned, b)
    ensures b in kids
    ensures var order, below := Preorder(s, kids, b), Forest(s, kids, b, kids[b]);
      && (SafeRun(s, filled, order) <==> VisitSafe(s, filled, b) && SafeRun(s, filled + [b], below))
      && filled + order == filled + [b] + below
      && cleaned + Set(order) == cleaned + Set(below) + {b}
      && b !in cleaned + Set(below)
  {
    VisitIsFirst(s, kids, filled, b);
    SelfUnvisited(s, filled, cleaned, b);
    NotYetCleaned(s, kids, cleaned, b);
    var below := Forest(s, kids, b, kids[b]);
    assert cleaned + Set(below) + {b} == cleaned + ({b} + Set(below));
  }
}
