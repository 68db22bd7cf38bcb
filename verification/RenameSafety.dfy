/** When renaming meets an empty stack: the exact condition under which no order
    of the dominator-tree children makes it fail. */
module RenameSafety {
  import opened Graphs
  import opened IdomSweeps
  import opened IR
  import opened SsaForm
  import opened Meanings
  import opened RenameStacks
  import opened RenameOrder
  import opened RenameResult
  import opened PhiPlacement
  import opened RenameSetup

  // ----- empty stacks -----

  /** A definition of `x` comes before instruction `k` of `b`, or in a block
      that strictly dominates `b`. */
  ghost predicate DefinedAbove(s: Ssa, b: Block, k: nat, x: Slot)
    requires s.Ready() && b in s.t.up
  {
    DefinedIn(s, b, k, x) || exists d :: d != b && s.t.Above(b, d) && Defines(s, d, x)
  }

  /** The stack is empty exactly where no definition comes before. */
  lemma {:induction false} EmptyIffUndefined(s: Ssa, b: Block, k: nat, x: Slot)
    requires Fit(s) && b in s.code.body && k <= |s.code.body[b]|
    ensures b in s.t.up && (s.Stack(b, k, x) == [] <==> !DefinedAbove(s, b, k, x))
    decreases assert s.BlockOk(b); s.Height(b), k
  {
    assert s.BlockOk(b) && s.t.LinkAt(b);
    if k == 0 {
      if b == s.t.root {
        assert s.Inherited(b, x) == [];
        assert forall d :: s.t.Above(b, d) ==> d == b;
      } else {
        var u := s.t.up[b];
        EmptyIffUndefined(s, u, |s.code.body[u]|, x);
        assert DefinedIn(s, u, |s.code.body[u]|, x) <==> Defines(s, u, x);
        assert forall d :: d != b ==> (s.t.Above(b, d) <==> s.t.Above(u, d));
        if s.t.Above(u, b) { s.t.AboveId(u, b); }
        assert s.t.Above(u, u);
      }
    } else {
      EmptyIffUndefined(s, b, k - 1, x);
      OneStepStack(s, b, k - 1, x);
      assert DefinedIn(s, b, k, x) <==> DefinedIn(s, b, k - 1, x) || s.code.StoresTo(s.code.body[b][k - 1], x);
    }
  }

  /** `b` reads `x`, by a load or for a phi of a successor, where no definition
      of it comes before. */
  ghost predicate Exposed(s: Ssa, b: Block, x: Slot)
    requires s.Ready() && b in s.code.body
  {
    || (exists k: nat {:trigger LoadExposed(s, b, k, x)} :: LoadExposed(s, b, k, x))
    || (exists c: Block {:trigger s.HasPhi(c, x)} :: s.g.Edge(b, c) && s.HasPhi(c, x) && AtEnd(s, b, x) == [])
  }

  ghost predicate LoadExposed(s: Ssa, b: Block, k: nat, x: Slot)
    requires s.Ready() && b in s.code.body
  {
    k < |s.code.body[b]| && s.code.LoadsFrom(s.code.body[b][k], x) && s.Stack(b, k, x) == []
  }

  lemma VisitSafeIff(s: Ssa, filled: seq<Block>, b: Block)
    requires s.Ready() && b in s.code.body
    ensures VisitSafe(s, filled, b) <==> forall x {:trigger Exposed(s, b, x)} :: Exposed(s, b, x) ==> !DefinedBy(s, filled, x)
  {
    var n := |s.code.body[b]|;
    if VisitSafe(s, filled, b) {
      forall x | Exposed(s, b, x) && DefinedBy(s, filled, x) ensures false {
        if k: nat :| LoadExposed(s, b, k, x) {
          assert LoadFails(s, filled, b, k, x);
        } else {
          var c :| s.g.Edge(b, c) && s.HasPhi(c, x) && AtEnd(s, b, x) == [];
          assert FillFails(s, filled, b, c, x);
        }
      }
    }
    if !VisitSafe(s, filled, b) {
      if k: nat, x :| k < n && LoadFails(s, filled, b, k, x) {
        assert LoadExposed(s, b, k, x) && Exposed(s, b, x);
      } else {
        var c, x :| FillFails(s, filled, b, c, x);
        assert Exposed(s, b, x);
      }
    }
  }

  /** Visit `i` of `order` goes through. */
  ghost predicate SafeAt(s: Ssa, order: seq<Block>, i: nat)
    requires s.Ready()
  {
    i < |order| && order[i] in s.code.body ==> VisitSafe(s, order[..i], order[i])
  }

  ghost predicate AllSafe(s: Ssa, order: seq<Block>)
    requires s.Ready()
  {
    forall i: nat {:trigger SafeAt(s, order, i)} :: SafeAt(s, order, i)
  }

  lemma {:induction false} SafeRunHas(s: Ssa, order: seq<Block>, i: nat)
    requires s.Ready() && SafeRun(s, [], order)
    ensures SafeAt(s, order, i)
  {
    if i < |order| {
      var n := |order| - 1;
      assert [] + order[..n] == order[..n];
      if i < n {
        SafeRunHas(s, order[..n], i);
        assert order[..n][..i] == order[..i];
      }
    }
  }

  lemma {:induction false} SafeRunFrom(s: Ssa, order: seq<Block>)
    requires s.Ready() && AllSafe(s, order)
    ensures SafeRun(s, [], order)
  {
    if order != [] {
      var n := |order| - 1;
      var init := order[..n];
      assert [] + init == init;
      forall i: nat ensures SafeAt(s, init, i) {
        assert SafeAt(s, order, i);
        if i < n { assert init[..i] == order[..i]; }
      }
      SafeRunFrom(s, init);
      assert SafeAt(s, order, n);
    }
  }

  // ----- who comes before whom -----

  ghost predicate Precedes(order: seq<Block>, d: Block, e: Block) {
    exists i, j {:trigger order[i], order[j]} :: 0 <= i < j < |order| && order[i] == d && order[j] == e
  }

  lemma PrecedesInside(a: seq<Block>, order: seq<Block>, c: seq<Block>, d: Block, e: Block)
    requires Precedes(order, d, e)
    ensures Precedes(a + order + c, d, e)
  {
    var i, j :| 0 <= i < j < |order| && order[i] == d && order[j] == e;
    var all := a + order + c;
    assert all[|a| + i] == d && all[|a| + j] == e;
  }

  lemma PrecedesAcross(a: seq<Block>, b: seq<Block>, d: Block, e: Block)
    requires d in a && e in b
    ensures Precedes(a + b, d, e)
  {
    var i :| 0 <= i < |a| && a[i] == d;
    var j :| 0 <= j < |b| && b[j] == e;
    assert (a + b)[i] == d && (a + b)[|a| + j] == e;
  }

  /** Whatever is defined in a block that comes first is defined by then. */
  lemma PrecedesDefines(s: Ssa, order: seq<Block>, d: Block, e: Block, x: Slot)
    requires s.Ready() && Precedes(order, d, e) && e in s.code.body && Defines(s, d, x) && Exposed(s, e, x)
    ensures !SafeRun(s, [], order)
  {
    var i, j :| 0 <= i < j < |order| && order[i] == d && order[j] == e;
    VisitSafeIff(s, order[..j], e);
    assert order[..j][i] == d;
    assert DefinedBy(s, order[..j], x);
    if SafeRun(s, [], order) { SafeRunHas(s, order, j); }
  }

  lemma {:induction false} ForestPrecedes(s: Ssa, kids: Listing, b: Block, cs: seq<Block>, c: Block, d: Block, e: Block)
    requires s.Ready() && KidsOk(s, kids) && b in s.code.body && b in kids && c in cs && c in s.code.body
    requires forall c :: c in cs ==> c in kids[b]
    requires Precedes(Preorder(s, kids, c), d, e)
    ensures Precedes(Forest(s, kids, b, cs), d, e)
  {
    var n := |cs| - 1;
    var init := Forest(s, kids, b, cs[..n]);
    assert s.BlockOk(b);
    KidIsBelow(s, kids, b, cs[n]);
    if cs[n] == c {
      PrecedesInside(init, Preorder(s, kids, c), [], d, e);
      assert init + Preorder(s, kids, c) + [] == init + Preorder(s, kids, c);
    } else {
      ForestPrecedes(s, kids, b, cs[..n], c, d, e);
      PrecedesInside([], init, Preorder(s, kids, cs[n]), d, e);
      assert [] + init + Preorder(s, kids, cs[n]) == init + Preorder(s, kids, cs[n]);
    }
  }

  lemma PreorderPrecedes(s: Ssa, kids: Listing, b: Block, d: Block, e: Block)
    requires s.Ready() && KidsOk(s, kids) && b in s.code.body && b in kids
    requires Precedes(Forest(s, kids, b, kids[b]), d, e)
    ensures Precedes(Preorder(s, kids, b), d, e)
  {
    var below := Forest(s, kids, b, kids[b]);
    PrecedesInside([b], below, [], d, e);
    assert [b] + below + [] == [b] + below;
  }

  /** The visit of `a` is a part of the visit of any block above it. */
  lemma {:induction false} PrecedesUpwards(s: Ssa, kids: Listing, b: Block, a: Block, d: Block, e: Block)
    requires s.Ready() && KidsOk(s, kids) && b in s.code.body && a in s.code.body && a in s.t.up && s.t.Above(a, b)
    requires Precedes(Preorder(s, kids, a), d, e)
    ensures Precedes(Preorder(s, kids, b), d, e)
    decreases assert s.BlockOk(b); s.t.id[b]
  {
    if a != b {
      assert s.BlockOk(b) && KidsAt(s, kids, b);
      var c := KidAbove(s, kids, b, a);
      KidIsBelow(s, kids, b, c);
      PrecedesUpwards(s, kids, c, a, d, e);
      ForestPrecedes(s, kids, b, kids[b], c, d, e);
      PreorderPrecedes(s, kids, b, d, e);
    }
  }

  /** Ancestors are visited first. */
  lemma AncestorFirst(s: Ssa, kids: Listing, b: Block, e: Block, d: Block)
    requires s.Ready() && KidsOk(s, kids) && b in s.code.body && d in s.code.body && e in s.code.body && d != e
    requires e in s.t.up && d in s.t.up && s.t.Above(d, e) && s.t.Above(e, b)
    ensures Precedes(Preorder(s, kids, b), e, d)
  {
    PreorderCovers(s, kids, e, d);
    assert KidsAt(s, kids, e);
    PrecedesAcross([e], Forest(s, kids, e, kids[e]), e, d);
    PrecedesUpwards(s, kids, b, e, e, d);
  }

  // ----- choosing an order -----

  /** Two blocks of which neither is above the other lie below two different
      children of some block. */
  lemma {:induction false} Fork(s: Ssa, kids: Listing, b: Block, d: Block, e: Block) returns (a: Block, c: Block, f: Block)
    requires s.Ready() && KidsOk(s, kids) && b in s.code.body && d in s.code.body && e in s.code.body
    requires d in s.t.up && e in s.t.up && s.t.Above(d, b) && s.t.Above(e, b)
    requires !s.t.Above(d, e) && !s.t.Above(e, d)
    ensures a in s.code.body && a in s.t.up && a in kids && s.t.Above(a, b)
    ensures c in kids[a] && f in kids[a] && c != f && c in s.t.up && f in s.t.up && s.t.Above(d, c) && s.t.Above(e, f)
    decreases assert s.BlockOk(b); s.t.id[b]
  {
    assert s.BlockOk(b) && KidsAt(s, kids, b);
    a := b;
    c := KidAbove(s, kids, b, d);
    f := KidAbove(s, kids, b, e);
    if c == f {
      var k := c;
      KidIsBelow(s, kids, b, k);
      a, c, f := Fork(s, kids, k, d, e);
      s.t.AboveTrans(a, k, b);
    }
  }

  function WithoutBlock(bs: seq<Block>, c: Block): (r: seq<Block>)
    ensures forall b :: b in r <==> b in bs && b != c
  {
    if bs == [] then []
    else if bs[0] == c then WithoutBlock(bs[1..], c)
    else [bs[0]] + WithoutBlock(bs[1..], c)
  }

  lemma {:induction false} WithoutStaysDistinct(bs: seq<Block>, c: Block)
    requires Distinct(bs)
    ensures Distinct(WithoutBlock(bs, c))
  {
    if bs != [] {
      WithoutStaysDistinct(bs[1..], c);
      assert bs[0] !in bs[1..];
    }
  }

  /** The same children, `c` first. */
  function First(kids: Listing, a: Block, c: Block): Listing
    requires a in kids
  {
    kids[a := [c] + WithoutBlock(kids[a], c)]
  }

  lemma FirstIsListing(s: Ssa, kids: Listing, a: Block, c: Block)
    requires KidsOk(s, kids) && a in s.code.body && a in kids && c in kids[a]
    ensures KidsOk(s, First(kids, a, c))
  {
    assert KidsAt(s, kids, a);
    WithoutStaysDistinct(kids[a], c);
    var kids1 := First(kids, a, c);
    forall b ensures KidsAt(s, kids1, b) {
      assert KidsAt(s, kids, b);
    }
  }

  lemma {:induction false} FirstComesFirst(s: Ssa, kids: Listing, b: Block, cs: seq<Block>, f: Block, d: Block, e: Block)
    requires s.Ready() && KidsOk(s, kids) && b in s.code.body && b in kids
    requires cs != [] && f in cs && f != cs[0] && cs[0] in s.code.body && f in s.code.body
    requires forall c :: c in cs ==> c in kids[b]
    requires d in Preorder(s, kids, cs[0]) && e in Preorder(s, kids, f)
    ensures Precedes(Forest(s, kids, b, cs), d, e)
    decreases |cs|
  {
    var n := |cs| - 1;
    var init := Forest(s, kids, b, cs[..n]);
    assert s.BlockOk(b);
    KidIsBelow(s, kids, b, cs[n]);
    assert cs[..n][0] == cs[0];
    if cs[n] == f {
      ForestCovers(s, kids, b, cs[..n], d);
      KidIsBelow(s, kids, b, cs[0]);
      PreorderCovers(s, kids, cs[0], d);
      PrecedesAcross(init, Preorder(s, kids, f), d, e);
    } else {
      FirstComesFirst(s, kids, b, cs[..n], f, d, e);
      PrecedesInside([], init, Preorder(s, kids, cs[n]), d, e);
      assert [] + init + Preorder(s, kids, cs[n]) == init + Preorder(s, kids, cs[n]);
    }
  }

  /** Of two blocks that are not related, either can be visited first. */
  lemma SomeOrderPuts(s: Ssa, kids: Listing, d: Block, e: Block) returns (kids': Listing)
    requires Fit(s) && KidsOk(s, kids) && d in s.code.body && e in s.code.body && d in s.t.up && e in s.t.up
    requires !s.t.Above(d, e) && !s.t.Above(e, d)
    ensures KidsOk(s, kids') && s.g.entry in s.code.body && Precedes(Preorder(s, kids', s.g.entry), d, e)
  {
    s.t.RootAbove(d);
    s.t.RootAbove(e);
    var a, c, f := Fork(s, kids, s.g.entry, d, e);
    kids' := First(kids, a, c);
    FirstIsListing(s, kids, a, c);
    KidIsBelow(s, kids, a, c);
    KidIsBelow(s, kids, a, f);
    PreorderCovers(s, kids', c, d);
    PreorderCovers(s, kids', f, e);
    FirstComesFirst(s, kids', a, kids'[a], f, d, e);
    PreorderPrecedes(s, kids', a, d, e);
    PrecedesUpwards(s, kids', s.g.entry, a, d, e);
  }

  // ----- a listing exists -----

  ghost function ChildrenOf(s: Ssa, b: Block, bs: seq<Block>): (r: seq<Block>)
    ensures Distinct(r) && forall c :: c in r <==> c in bs && c != s.t.root && c in s.t.up && s.t.up[c] == b
  {
    if bs == [] then []
    else
      var rest := ChildrenOf(s, b, bs[1..]);
      if bs[0] != s.t.root && bs[0] in s.t.up && s.t.up[bs[0]] == b && bs[0] !in rest then [bs[0]] + rest else rest
  }

  ghost function SomeListing(s: Ssa): (kids: Listing)
    requires Fit(s)
    ensures KidsOk(s, kids)
  {
    var kids := map b | b in s.code.body :: ChildrenOf(s, b, s.g.blocks);
    assert forall b {:trigger KidsAt(s, kids, b)} :: KidsAt(s, kids, b);
    kids
  }

  // ----- the condition -----

  /** Wherever a slot is read with no definition before, its definitions are in
      blocks that the reading block dominates. */
  ghost predicate OrderSafe(s: Ssa)
    requires Fit(s)
  {
    forall b, x, d {:trigger Exposed(s, b, x), Defines(s, d, x)} ::
      b in s.code.body && Exposed(s, b, x) && Defines(s, d, x) ==> s.g.Dom(b, d)
  }

  lemma DefinerInBody(s: Ssa, d: Block, x: Slot)
    requires Renamable(s) && Defines(s, d, x) && (forall b :: b in s.phis ==> b in s.g.blocks)
    ensures d in s.code.body && d in s.t.up
  {
    assert s.BlockOk(d);
  }

  lemma ExposedNotBelow(s: Ssa, b: Block, x: Slot, d: Block)
    requires Fit(s) && b in s.code.body && Exposed(s, b, x) && Defines(s, d, x) && d in s.code.body && d in s.t.up
    ensures b in s.t.up && (s.t.Above(b, d) ==> b == d)
  {
    assert s.BlockOk(b);
    if d != b && s.t.Above(b, d) {
      if k: nat :| LoadExposed(s, b, k, x) {
        EmptyIffUndefined(s, b, k, x);
      } else {
        EmptyIffUndefined(s, b, |s.code.body[b]|, x);
      }
    }
  }

  /** The order is safe wherever the condition holds. */
  lemma SafeInEveryOrder(s: Ssa, kids: Listing)
    requires Renamable(s) && (forall b :: b in s.phis ==> b in s.g.blocks) && OrderSafe(s) && KidsOk(s, kids)
    ensures s.g.entry in s.code.body && SafeRun(s, [], Preorder(s, kids, s.g.entry))
  {
    var order := Preorder(s, kids, s.g.entry);
    EachBlockOnce(s, kids);
    forall i: nat ensures SafeAt(s, order, i) {
      if i < |order| && order[i] in s.code.body {
        var b := order[i];
        VisitSafeIff(s, order[..i], b);
        forall x | Exposed(s, b, x) ensures !DefinedBy(s, order[..i], x) {
          if d :| d in order[..i] && Defines(s, d, x) {
            assert ExactAt(s.g, s.t, d, b);
            VisitedEarlierNotBelow(s, kids, i, d);
          }
        }
      }
    }
    SafeRunFrom(s, order);
  }

  lemma VisitedEarlierNotBelow(s: Ssa, kids: Listing, i: nat, d: Block)
    requires Fit(s) && KidsOk(s, kids) && s.g.entry in s.code.body
    requires i < |Preorder(s, kids, s.g.entry)| && d in Preorder(s, kids, s.g.entry)[..i]
    ensures d in s.t.up && !s.t.Above(d, Preorder(s, kids, s.g.entry)[i])
  {
    var order := Preorder(s, kids, s.g.entry);
    EachBlockOnce(s, kids);
    var b := order[i];
    var j :| 0 <= j < i && order[j] == d;
    assert b in order && d in order;
    assert s.BlockOk(d) && s.BlockOk(b);
    if s.t.Above(d, b) {
      s.t.RootAbove(b);
      AncestorFirst(s, kids, s.g.entry, b, d);
    }
  }

  /** Renaming goes through in every order exactly under the condition. */
  lemma SafeIffOrderSafe(s: Ssa)
    requires Renamable(s) && (forall b :: b in s.phis ==> b in s.g.blocks)
    ensures s.g.entry in s.code.body
    ensures OrderSafe(s) <==>
            forall kids {:trigger KidsOk(s, kids)} :: KidsOk(s, kids) ==> SafeRun(s, [], Preorder(s, kids, s.g.entry))
  {
    if OrderSafe(s) {
      forall kids | KidsOk(s, kids) ensures SafeRun(s, [], Preorder(s, kids, s.g.entry)) {
        SafeInEveryOrder(s, kids);
      }
    } else {
      var b, x, d :| b in s.code.body && Exposed(s, b, x) && Defines(s, d, x) && !s.g.Dom(b, d);
      DefinerInBody(s, d, x);
      ExposedNotBelow(s, b, x, d);
      assert ExactAt(s.g, s.t, d, b);
      assert s.t.Above(b, b);
      var kids := SomeOrderPuts(s, SomeListing(s), d, b);
      PrecedesDefines(s, Preorder(s, kids, s.g.entry), d, b, x);
    }
  }

  /** The entry stores to `x`, and does not load it before. */
  ghost predicate StoredFirst(s: Ssa, x: Slot) {
    s.g.entry in s.code.body &&
    exists k {:trigger s.code.StoresTo(s.code.body[s.g.entry][k], x)} ::
      && 0 <= k < |s.code.body[s.g.entry]| && s.code.StoresTo(s.code.body[s.g.entry][k], x)
      && forall j {:trigger s.code.LoadsFrom(s.code.body[s.g.entry][j], x)} ::
           0 <= j < k ==> !s.code.LoadsFrom(s.code.body[s.g.entry][j], x)
  }

  ghost predicate Accessed(s: Ssa, x: Slot) {
    exists id {:trigger s.code.LoadsFrom(id, x)} {:trigger s.code.StoresTo(id, x)} ::
      s.code.LoadsFrom(id, x) || s.code.StoresTo(id, x)
  }

  lemma PhiMeansStore(s: Ssa, b: Block, x: Slot)
    requires AllPlaced(s.g, s.code, s.phis) && s.HasPhi(b, x)
    ensures Accessed(s, x)
  {
    assert IteratedFrontier(s.g, s.code, x, PhiBlocks(s.phis, x)) && b in PhiBlocks(s.phis, x);
    if !Accessed(s, x) {
      var none: set<Block> := {};
      forall d ensures !Stores(s.code, d, x) {
      }
      assert ClosedInGraph(s.g, s.code, x, none);
    }
  }

  lemma StoredBefore(s: Ssa, k: nat, x: Slot)
    requires StoredFirst(s, x) && k <= |s.code.body[s.g.entry]|
    requires k == |s.code.body[s.g.entry]| || s.code.LoadsFrom(s.code.body[s.g.entry][k], x)
    ensures DefinedIn(s, s.g.entry, k, x)
  {
  }

  lemma StoredFirstAbove(s: Ssa, b: Block, k: nat, x: Slot)
    requires Fit(s) && b in s.code.body && k <= |s.code.body[b]| && StoredFirst(s, x)
    requires b == s.g.entry ==> k == |s.code.body[b]| || s.code.LoadsFrom(s.code.body[b][k], x)
    ensures s.Stack(b, k, x) != []
  {
    if b == s.g.entry { StoredBefore(s, k, x); }
    assert Stores(s.code, s.g.entry, x) && Defines(s, s.g.entry, x) && s.BlockOk(b);
    s.t.RootAbove(b);
    EmptyIffUndefined(s, b, k, x);
  }

  /** When the entry stores to every slot before it loads it, no stack that is
      read is empty: every order is safe, and every load is replaced. */
  lemma StoredFirstIsSafe(s: Ssa)
    requires Renamable(s) && AllPlaced(s.g, s.code, s.phis)
    requires forall x {:trigger Accessed(s, x)} :: Accessed(s, x) ==> StoredFirst(s, x)
    ensures OrderSafe(s)
    ensures forall id {:trigger s.Replaced(id)} :: id in s.pos && s.code.SlotLoad(id) ==> s.Replaced(id)
  {
    forall b, x | b in s.code.body ensures !Exposed(s, b, x) {
      if k: nat :| LoadExposed(s, b, k, x) {
        assert Accessed(s, x);
        StoredFirstAbove(s, b, k, x);
      } else if c: Block :| s.g.Edge(b, c) && s.HasPhi(c, x) && AtEnd(s, b, x) == [] {
        PhiMeansStore(s, c, x);
        StoredFirstAbove(s, b, |s.code.body[b]|, x);
      }
    }
    forall id | id in s.pos && s.code.SlotLoad(id) ensures s.Replaced(id) {
      assert s.InstrOk(id);
      var p := s.pos[id];
      var x := s.code.ops[id][0].x;
      assert s.code.LoadsFrom(id, x) && Accessed(s, x);
      StoredFirstAbove(s, p.bb, p.k, x);
    }
  }
}
