/** What renaming has made of a function once every block has been visited. */
module RenameResult {
  import opened Graphs
  import opened IR
  import opened SsaForm
  import opened Meanings
  import opened RenameSteps
  import opened RenameStacks
  import opened RenameOrder

  // ----- the operands of phis -----

  /** How many pairs carry the label `p`. */
  function PairsFrom(ops: seq<Value>, p: Block): nat {
    if |ops| < 2 then 0
    else (if ops[1] == Label(p) then 1 else 0) + PairsFrom(ops[2..], p)
  }

  lemma {:induction false} PairsJoin(a: seq<Value>, b: seq<Value>, p: Block)
    requires |a| % 2 == 0
    ensures PairsFrom(a + b, p) == PairsFrom(a, p) + PairsFrom(b, p)
    ensures Incoming(a + b, p) == if Incoming(a, p) != [] then Incoming(a, p) else Incoming(b, p)
  {
    if a == [] {
      assert a + b == b;
    } else {
      assert (a + b)[2..] == a[2..] + b;
      PairsJoin(a[2..], b, p);
    }
  }

  ghost function OneIf(c: bool): nat {
    if c then 1 else 0
  }

  ghost function TopIf(s: Ssa, p: Block, x: Slot, c: bool): seq<Value>
    requires s.Ready() && p in s.code.body
  {
    if c && AtEnd(s, p, x) != [] then [AtEnd(s, p, x)[|AtEnd(s, p, x)| - 1]] else []
  }

  lemma PairParts(s: Ssa, q: Block, x: Slot, p: Block)
    requires s.Ready() && p in s.code.body
    ensures |Pair(s, q, x)| % 2 == 0
    ensures PairsFrom(Pair(s, q, x), p) == OneIf(q == p && AtEnd(s, p, x) != [])
    ensures Incoming(Pair(s, q, x), p) == TopIf(s, p, x, q == p)
  {
    assert PairsFrom([], p) == 0;
    if Pair(s, q, x) != [] {
      assert Pair(s, q, x)[2..] == [];
    }
  }

  lemma CountLast(ss: seq<Block>, c: Block)
    requires ss != []
    ensures multiset(ss)[c] == multiset(ss[..|ss| - 1])[c] + OneIf(ss[|ss| - 1] == c)
    ensures c in ss <==> c in ss[..|ss| - 1] || ss[|ss| - 1] == c
  {
    assert ss == ss[..|ss| - 1] + [ss[|ss| - 1]];
  }

  /** `q` adds a pair for each edge to `c`, if a definition reaches its end. */
  lemma {:induction false} AddedParts(s: Ssa, q: Block, ss: seq<Block>, c: Block, x: Slot, p: Block)
    requires s.Ready() && p in s.code.body
    ensures |Added(s, q, ss, c, x)| % 2 == 0
    ensures PairsFrom(Added(s, q, ss, c, x), p) == if q == p && AtEnd(s, p, x) != [] then multiset(ss)[c] else 0
    ensures Incoming(Added(s, q, ss, c, x), p) == TopIf(s, p, x, q == p && c in ss)
  {
    if ss != [] {
      var n := |ss| - 1;
      AddedParts(s, q, ss[..n], c, x, p);
      PairParts(s, q, x, p);
      CountLast(ss, c);
      var a, b := Added(s, q, ss[..n], c, x), if ss[n] == c then Pair(s, q, x) else [];
      PairsJoin(a, b, p);
      assert Added(s, q, ss, c, x) == a + b;
    }
  }

  ghost function SuccsOf(s: Ssa, p: Block): seq<Block> {
    if p in s.g.succs then s.g.succs[p] else []
  }

  lemma LastIsNew(filled: seq<Block>, p: Block)
    requires filled != [] && Distinct(filled)
    ensures var n := |filled| - 1;
            Distinct(filled[..n]) && filled[n] !in filled[..n] && (p in filled <==> p in filled[..n] || p == filled[n])
  {
    var n := |filled| - 1;
    assert filled == filled[..n] + [filled[n]];
  }

  lemma {:induction false} PhiOpsParts(s: Ssa, filled: seq<Block>, c: Block, x: Slot, p: Block)
    requires s.Ready() && p in s.code.body && Distinct(filled)
    ensures |PhiOps(s, filled, c, x)| % 2 == 0
    ensures PairsFrom(PhiOps(s, filled, c, x), p) ==
            if p in filled && AtEnd(s, p, x) != [] then multiset(SuccsOf(s, p))[c] else 0
    ensures Incoming(PhiOps(s, filled, c, x), p) == TopIf(s, p, x, p in filled && c in SuccsOf(s, p))
  {
    if filled != [] {
      var n := |filled| - 1;
      LastIsNew(filled, p);
      PhiOpsParts(s, filled[..n], c, x, p);
      OneMorePart(s, PhiOps(s, filled[..n], c, x), filled[..n], filled[n], c, x, p);
    }
  }

  /** What one more predecessor adds. */
  lemma OneMorePart(s: Ssa, a: seq<Value>, filled: seq<Block>, q: Block, c: Block, x: Slot, p: Block)
    requires s.Ready() && p in s.code.body && q !in filled && |a| % 2 == 0
    requires PairsFrom(a, p) == if p in filled && AtEnd(s, p, x) != [] then multiset(SuccsOf(s, p))[c] else 0
    requires Incoming(a, p) == TopIf(s, p, x, p in filled && c in SuccsOf(s, p))
    ensures var b := a + Added(s, q, SuccsOf(s, q), c, x);
      && |b| % 2 == 0
      && PairsFrom(b, p) == (if (p in filled || p == q) && AtEnd(s, p, x) != [] then multiset(SuccsOf(s, p))[c] else 0)
      && Incoming(b, p) == TopIf(s, p, x, (p in filled || p == q) && c in SuccsOf(s, p))
  {
    AddedParts(s, q, SuccsOf(s, q), c, x, p);
    PairsJoin(a, Added(s, q, SuccsOf(s, q), c, x), p);
  }

  // ----- every block is visited once -----

  lemma {:induction false} PreorderDistinct(s: Ssa, kids: Listing, b: Block)
    requires s.Ready() && KidsOk(s, kids) && b in s.code.body
    ensures Distinct(Preorder(s, kids, b))
    decreases assert s.BlockOk(b); s.t.id[b], 1, 0
  {
    assert KidsAt(s, kids, b) && s.BlockOk(b);
    ForestDistinct(s, kids, b, kids[b]);
    ForestCovers(s, kids, b, kids[b], b);
    if c: Block :| c in kids[b] && s.t.Above(b, c) {
      KidIsBelow(s, kids, b, c);
      s.t.AboveId(b, c);
    }
  }

  lemma {:induction false} ForestDistinct(s: Ssa, kids: Listing, b: Block, cs: seq<Block>)
    requires s.Ready() && KidsOk(s, kids) && b in s.code.body && b in kids && Distinct(cs)
    requires forall c :: c in cs ==> c in kids[b]
    ensures Distinct(Forest(s, kids, b, cs))
    decreases assert s.BlockOk(b); s.t.id[b], 0, |cs|
  {
    if cs != [] {
      var n := |cs| - 1;
      var c, before := cs[n], Forest(s, kids, b, cs[..n]);
      assert s.BlockOk(b);
      KidIsBelow(s, kids, b, c);
      ForestDistinct(s, kids, b, cs[..n]);
      PreorderDistinct(s, kids, c);
      forall i, j | 0 <= i < |before| && 0 <= j < |Preorder(s, kids, c)| ensures before[i] != Preorder(s, kids, c)[j] {
        ForestApart(s, kids, b, cs, before[i], Preorder(s, kids, c)[j]);
      }
    }
  }

  lemma ForestApart(s: Ssa, kids: Listing, b: Block, cs: seq<Block>, d: Block, e: Block)
    requires s.Ready() && KidsOk(s, kids) && b in s.code.body && b in kids && Distinct(cs) && cs != []
    requires forall c :: c in cs ==> c in kids[b]
    requires cs[|cs| - 1] in s.code.body && forall c :: c in cs[..|cs| - 1] ==> c in kids[b]
    requires d in Forest(s, kids, b, cs[..|cs| - 1]) && e in Preorder(s, kids, cs[|cs| - 1])
    ensures d != e
  {
    var n := |cs| - 1;
    ForestCovers(s, kids, b, cs[..n], d);
    PreorderCovers(s, kids, cs[n], e);
    var c :| c in cs[..n] && s.t.Above(d, c);
    KidIsBelow(s, kids, b, c);
    KidIsBelow(s, kids, b, cs[n]);
    if d == e { SiblingsApart(s, kids, b, c, cs[n], d); }
  }

  /** From the entry, each block is visited exactly once. */
  lemma EachBlockOnce(s: Ssa, kids: Listing)
    requires Fit(s) && KidsOk(s, kids)
    ensures s.g.entry in s.code.body && Distinct(Preorder(s, kids, s.g.entry))
    ensures forall b :: b in Preorder(s, kids, s.g.entry) <==> b in s.g.blocks
  {
    PreorderDistinct(s, kids, s.g.entry);
    forall b ensures b in Preorder(s, kids, s.g.entry) <==> b in s.g.blocks {
      PreorderCovers(s, kids, s.g.entry, b);
      assert s.BlockOk(b);
      if b in s.t.up { s.t.RootAbove(b); }
    }
  }

  // ----- removing the allocas -----

  predicate ScalarAlloca(kind: map<Id, Kind>, id: Id) {
    id in kind && kind[id].Alloca? && kind[id].scalar
  }

  ghost function NoScalars(kind: map<Id, Kind>, ids: seq<Id>): (r: seq<Id>)
    ensures forall id :: id in r <==> id in ids && !ScalarAlloca(kind, id)
  {
    if ids == [] then []
    else if ScalarAlloca(kind, ids[0]) then NoScalars(kind, ids[1..])
    else [ids[0]] + NoScalars(kind, ids[1..])
  }

  lemma {:induction false} RemovedScalars(kind: map<Id, Kind>, ids: seq<Id>, ws: seq<Id>)
    requires forall id :: id in ids ==> (id in ws <==> ScalarAlloca(kind, id))
    ensures Removed(ids, ws) == NoScalars(kind, ids)
  {
    if ids != [] {
      RemovedScalars(kind, ids[1..], ws);
    }
  }

  lemma {:induction false} NothingToRemove(kind: map<Id, Kind>, ids: seq<Id>)
    requires forall id :: id in ids ==> !ScalarAlloca(kind, id)
    ensures NoScalars(kind, ids) == ids
  {
    if ids != [] {
      NothingToRemove(kind, ids[1..]);
    }
  }

  lemma {:induction false} NoScalarsJoin(kind: map<Id, Kind>, a: seq<Id>, b: seq<Id>)
    ensures NoScalars(kind, a + b) == NoScalars(kind, a) + NoScalars(kind, b)
  {
    if a == [] {
      assert a + b == b;
    } else {
      assert (a + b)[1..] == a[1..] + b;
      NoScalarsJoin(kind, a[1..], b);
    }
  }

  lemma {:induction false} CleanedToKept(s: Ssa, kind: map<Id, Kind>, ids: seq<Id>)
    requires s.Ready()
    requires forall id :: id in ids ==> (ScalarAlloca(kind, id) <==> ScalarAlloca(s.code.kind, id))
    ensures NoScalars(kind, CleanedOf(s, ids)) == KeptOf(s, ids)
  {
    if ids != [] {
      CleanedToKept(s, kind, ids[1..]);
      if CleanedOf(s, ids) != CleanedOf(s, ids[1..]) {
        assert CleanedOf(s, ids) == [ids[0]] + CleanedOf(s, ids[1..]);
        assert CleanedOf(s, ids)[1..] == CleanedOf(s, ids[1..]);
      }
    }
  }

  /** Every instruction in a block is in the arena. */
  ghost predicate AllKept(h: Heap) {
    forall b, id {:trigger Inside(h.body, b, id)} :: Inside(h.body, b, id) ==> id in h.kind && id in h.ops
  }

  predicate Inside(body: map<Block, seq<Id>>, b: Block, id: Id) {
    b in body && id in body[b]
  }

  lemma CleanedInside(s: Ssa, h: Heap, g: Stage, cleaned: set<Block>)
    requires Renamable(s) && Underway(s, h, g, cleaned)
    ensures AllKept(h)
  {
    forall b, id | Inside(h.body, b, id) ensures id in h.kind && id in h.ops {
      assert BodyAt(s, h.body, cleaned, b) && Known(s, h, id);
      if id in PhiIds(b, s.phis[b]) {
        var i :| 0 <= i < |s.phis[b]| && id == PhiOf(b, s.phis[b][i]);
        assert s.HasPhi(b, s.phis[b][i]);
        assert PhiAt(s, h.ops, g.filled, IDLE, b, s.phis[b][i]);
      } else {
        if b in cleaned { CleanedFrom(s, s.code.body[b], id); }
        var k :| 0 <= k < |s.code.body[b]| && s.code.body[b][k] == id;
        assert s.PlaceOk(b, k) && s.InstrOk(id) && OpsAt(s, h.ops, g, id);
      }
    }
  }

  /** Block `c` without its scalar allocas. */
  ghost predicate Stripped(h: Heap, body: map<Block, seq<Id>>, c: Block) {
    c in h.body ==> c in body && body[c] == NoScalars(h.kind, h.body[c])
  }

  /** The blocks in `done` have been stripped. */
  ghost predicate StrippingAt(h: Heap, body: map<Block, seq<Id>>, done: seq<Block>, c: Block) {
    c in h.body ==> c in body && body[c] == if c in done then NoScalars(h.kind, h.body[c]) else h.body[c]
  }

  ghost predicate Stripping(h: Heap, body: map<Block, seq<Id>>, done: seq<Block>) {
    && body.Keys == h.body.Keys
    && forall c {:trigger StrippingAt(h, body, done, c)} :: StrippingAt(h, body, done, c)
  }

  lemma StripOne(h: Heap, body: map<Block, seq<Id>>, done: seq<Block>, b: Block)
    requires Stripping(h, body, done) && b in body
    ensures forall id :: id in body[b] ==> Inside(h.body, b, id)
    ensures Stripping(h, body[b := NoScalars(h.kind, body[b])], done + [b])
  {
    assert StrippingAt(h, body, done, b);
    NothingToRemove(h.kind, NoScalars(h.kind, h.body[b]));
    var body1, done1 := body[b := NoScalars(h.kind, body[b])], done + [b];
    forall c ensures StrippingAt(h, body1, done1, c) {
      assert StrippingAt(h, body, done, c);
    }
  }

  lemma StrippedIsKept(s: Ssa, h: Heap, g: Stage, cleaned: set<Block>, body: map<Block, seq<Id>>, c: Block)
    requires Renamable(s) && Underway(s, h, g, cleaned) && c in s.code.body && c in cleaned
    requires Stripped(h, body, c)
    ensures c in body && c in s.phis && body[c] == PhiIds(c, s.phis[c]) + KeptOf(s, s.code.body[c])
  {
    assert BodyAt(s, h.body, cleaned, c);
    var phis := PhiIds(c, s.phis[c]);
    forall id | id in phis ensures !ScalarAlloca(h.kind, id) {
      assert Known(s, h, id);
    }
    forall id | id in s.code.body[c] ensures ScalarAlloca(h.kind, id) <==> ScalarAlloca(s.code.kind, id) {
      var k :| 0 <= k < |s.code.body[c]| && s.code.body[c][k] == id;
      assert s.PlaceOk(c, k) && s.InstrOk(id) && Known(s, h, id);
    }
    NothingToRemove(h.kind, phis);
    NoScalarsJoin(h.kind, phis, CleanedOf(s, s.code.body[c]));
    CleanedToKept(s, h.kind, s.code.body[c]);
  }

  // ----- the finished function -----

  /** The phis of the finished function: a pair for each edge from a block in
      which a definition is in force at the end. */
  ghost predicate PhiPairs(s: Ssa, ops: Operands, b: Block, x: Slot, p: Block)
    requires s.Ready()
  {
    s.HasPhi(b, x) && b in s.g.preds && p in s.code.body ==>
      && PhiOf(b, x) in ops
      && PairsFrom(ops[PhiOf(b, x)], p) == if AtEnd(s, p, x) == [] then 0 else multiset(s.g.preds[b])[p]
  }

  ghost predicate AllPhiPairs(s: Ssa, ops: Operands)
    requires s.Ready()
  {
    forall b, x, p {:trigger PhiPairs(s, ops, b, x, p)} :: PhiPairs(s, ops, b, x, p)
  }

  lemma FinishedPhi(s: Ssa, h: Heap, order: seq<Block>, b: Block, x: Slot, p: Block)
    requires Fit(s) && Distinct(order) && (forall d :: d in order <==> d in s.g.blocks)
    requires PhiAt(s, h.ops, order, IDLE, b, x)
    ensures PhiFilled(s, Code(h.body, h.kind, h.ops), b, x, p)
    ensures b in s.g.blocks ==> PhiPairs(s, h.ops, b, x, p)
  {
    if s.HasPhi(b, x) && p in s.code.body {
      PhiOpsParts(s, order, b, x, p);
      assert Added(s, 0, [], b, x) == [];
      assert h.ops[PhiOf(b, x)] == PhiOps(s, order, b, x) + [] + [];
      assert h.ops[PhiOf(b, x)] == PhiOps(s, order, b, x);
    }
  }

  lemma FinishedOps(s: Ssa, h: Heap, order: seq<Block>, id: Id)
    requires Fit(s) && (forall d :: d in order <==> d in s.g.blocks)
    requires OpsAt(s, h.ops, Stage(order, s.g.entry, 0), id)
    ensures OpsRenamed(s, Code(h.body, h.kind, h.ops), id)
  {
    var g := Stage(order, s.g.entry, 0);
    if id in s.pos {
      forall i | 0 <= i < |s.code.ops[id]| ensures h.ops[id][i] == s.Renamed(s.code.ops[id][i]) {
        var v := s.code.ops[id][i];
        if v.Ref? { assert s.InstrOk(v.id); }
      }
    }
  }

  lemma NothingBefore(order: seq<Block>)
    ensures [] + order == order && {} + Set(order) == Set(order)
    ensures forall d :: d in Set(order) <==> d in order
  {
  }

  /** After the visit of the entry the stacks are empty. */
  lemma StacksEmpty(s: Ssa, vs: Stacks, filled: seq<Block>)
    requires Fit(s) && s.g.entry in s.code.body && StacksOnEntry(s, vs, filled, s.g.entry)
    ensures forall x :: Lookup(vs, x) == []
  {
    forall x ensures Lookup(vs, x) == [] {
      assert StackOnEntry(s, vs, filled, s.g.entry, x);
    }
  }

  lemma FinishedIsSsa(s: Ssa, h: Heap, order: seq<Block>, cleaned: set<Block>, body: map<Block, seq<Id>>)
    requires Renamable(s) && Distinct(order) && (forall d :: d in order <==> d in s.g.blocks)
    requires Underway(s, h, Stage(order, s.g.entry, 0), cleaned) && (forall d :: d in cleaned <==> d in s.g.blocks)
    requires body.Keys == h.body.Keys && forall c {:trigger Stripped(h, body, c)} :: Stripped(h, body, c)
    requires forall b :: b in s.phis ==> b in s.g.blocks
    ensures IsSsaForm(s, Code(body, h.kind, h.ops)) && AllPhiPairs(s, h.ops)
  {
    var out := Code(body, h.kind, h.ops);
    forall id ensures OpsRenamed(s, out, id) && KindKept(s, out, id) {
      assert OpsAt(s, h.ops, Stage(order, s.g.entry, 0), id) && Known(s, h, id);
      FinishedOps(s, h, order, id);
    }
    forall b, x, p ensures PhiFilled(s, out, b, x, p) && PhiPairs(s, h.ops, b, x, p) {
      assert PhiAt(s, h.ops, order, IDLE, b, x);
      FinishedPhi(s, h, order, b, x, p);
    }
    forall b ensures BodyRenamed(s, out, b) {
      assert Stripped(h, body, b);
      if b in s.g.blocks {
        StrippedIsKept(s, h, Stage(order, s.g.entry, 0), cleaned, body, b);
      }
    }
  }
}
