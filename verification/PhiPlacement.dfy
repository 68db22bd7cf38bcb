/** Where phis go: the iterated dominance frontier of the blocks that store to a
    slot, as the least set closed under frontiers. */
module PhiPlacement {
  import opened Graphs
  import opened IR
  import opened SsaForm
  import opened Meanings
  import opened RenameSteps
  import opened RenameStacks
  import opened DominatorPass

  type Phis = map<Block, seq<Slot>>

  predicate PhiIn(phis: Phis, b: Block, x: Slot) {
    b in phis && x in phis[b]
  }

  ghost function PhiBlocks(phis: Phis, x: Slot): set<Block> {
    set b | b in phis && x in phis[b]
  }

  /** `q` holds the frontier of every block that stores to `x`, and of itself. */
  ghost predicate ClosedUnder(code: Code, frontier: map<Block, set<Block>>, x: Slot, q: set<Block>) {
    forall b, y {:trigger Has(frontier, b, y)} :: Has(frontier, b, y) && (Stores(code, b, x) || b in q) ==> y in q
  }

  ghost predicate FrontierWithin(frontier: map<Block, set<Block>>, blocks: set<Block>) {
    forall b, y {:trigger Has(frontier, b, y)} :: Has(frontier, b, y) ==> y in blocks
  }

  ghost predicate IsIterated(code: Code, frontier: map<Block, set<Block>>, x: Slot, p: set<Block>) {
    && ClosedUnder(code, frontier, x, p)
    && forall q {:trigger ClosedUnder(code, frontier, x, q)} :: ClosedUnder(code, frontier, x, q) ==> p <= q
  }

  // ----- the function while phis are put in -----

  ghost predicate PlacedBody(code: Code, body: map<Block, seq<Id>>, phis: Phis, c: Block) {
    c in code.body ==>
      && c in phis && c in body && NoDups(phis[c])
      && body[c] == PhiIds(c, phis[c]) + code.body[c]
  }

  ghost predicate PlacedId(code: Code, h: Heap, phis: Phis, id: Id) {
    && (id in h.kind <==> id in code.kind || (id.PhiOf? && PhiIn(phis, id.bb, id.lval)))
    && (id in h.ops <==> id in code.ops || (id.PhiOf? && PhiIn(phis, id.bb, id.lval)))
    && (id in code.kind ==> h.kind[id] == code.kind[id])
    && (id in code.ops ==> h.ops[id] == code.ops[id])
    && (id.PhiOf? && PhiIn(phis, id.bb, id.lval) ==> h.kind[id] == Phi && h.ops[id] == [])
  }

  /** Only instructions, no phis, before the pass. */
  ghost predicate NoPhisYet(code: Code) {
    (forall id :: id in code.kind ==> id.Instr?) && (forall id :: id in code.ops ==> id.Instr?)
  }

  ghost predicate Placed(code: Code, h: Heap, phis: Phis) {
    && h.body.Keys == code.body.Keys && phis.Keys == code.body.Keys
    && (forall c {:trigger PlacedBody(code, h.body, phis, c)} :: PlacedBody(code, h.body, phis, c))
    && (forall id {:trigger PlacedId(code, h, phis, id)} :: PlacedId(code, h, phis, id))
  }

  lemma PlaceOne(code: Code, h: Heap, h': Heap, phis: Phis, c: Block, x: Slot)
    requires NoPhisYet(code) && Placed(code, h, phis) && c in code.body && !PhiIn(phis, c, x)
    requires c in h.body && h'.body == h.body[c := [PhiOf(c, x)] + h.body[c]]
    requires h'.kind == h.kind[PhiOf(c, x) := Phi] && h'.ops == h.ops[PhiOf(c, x) := []] && h'.uses == h.uses
    ensures c in phis && Placed(code, h', phis[c := [x] + phis[c]])
  {
    assert PlacedBody(code, h.body, phis, c);
    var phis1 := phis[c := [x] + phis[c]];
    forall d ensures PlacedBody(code, h'.body, phis1, d) {
      assert PlacedBody(code, h.body, phis, d);
      if d == c && d in code.body {
        assert PhiIds(c, [x] + phis[c]) == [PhiOf(c, x)] + PhiIds(c, phis[c]);
        assert [PhiOf(c, x)] + (PhiIds(c, phis[c]) + code.body[c]) == [PhiOf(c, x)] + PhiIds(c, phis[c]) + code.body[c];
      }
    }
    forall id ensures PlacedId(code, h', phis1, id) {
      assert PlacedId(code, h, phis, id);
      assert forall b, y :: PhiIn(phis1, b, y) <==> PhiIn(phis, b, y) || (b == c && y == x);
    }
  }

  // ----- one slot -----

  /** The worklist for `x` has been worked through up to `i`; of the frontier of
      block `i`, `rest` is still to come. */
  ghost predicate Working(code: Code, frontier: map<Block, set<Block>>, phis: Phis, x: Slot,
                          work: seq<Block>, i: nat, rest: set<Block>)
    requires i <= |work|
  {
    && (forall b :: b in work <==> Stores(code, b, x) || PhiIn(phis, b, x))
    && (forall k, y {:trigger Has(frontier, work[k], y)} :: 0 <= k < i && Has(frontier, work[k], y) ==> PhiIn(phis, y, x))
    && (forall y :: i < |work| && Has(frontier, work[i], y) ==> y in rest || PhiIn(phis, y, x))
    && (forall q {:trigger ClosedUnder(code, frontier, x, q)} ::
          ClosedUnder(code, frontier, x, q) ==> PhiBlocks(phis, x) <= q)
  }

  /** What of the frontier of block `i` is to be looked at. */
  function FrontierAt(frontier: map<Block, set<Block>>, work: seq<Block>, i: nat): set<Block> {
    if i < |work| && work[i] in frontier then frontier[work[i]] else {}
  }

  lemma WorkStarts(code: Code, frontier: map<Block, set<Block>>, phis: Phis, x: Slot, work: seq<Block>)
    requires forall b :: b in work <==> Stores(code, b, x)
    requires forall b :: !PhiIn(phis, b, x)
    ensures Working(code, frontier, phis, x, work, 0, FrontierAt(frontier, work, 0))
  {
    forall b | b in PhiBlocks(phis, x) ensures false {
      assert PhiIn(phis, b, x);
    }
  }

  /** Only phis for `x` have been added, and `has` records them all. */
  ghost predicate OnlyFor(phis0: Phis, phis: Phis, x: Slot, has: set<(Block, Slot)>) {
    && PhiBlocks(phis0, x) <= PhiBlocks(phis, x)
    && (forall b, y {:trigger PhiIn(phis, b, y)} :: y != x ==> (PhiIn(phis, b, y) <==> PhiIn(phis0, b, y)))
    && (forall b: Block, y: Slot {:trigger (b, y) in has} {:trigger PhiIn(phis, b, y)} :: (b, y) in has <==> PhiIn(phis, b, y))
  }

  lemma OnlyForOne(phis0: Phis, phis: Phis, x: Slot, has: set<(Block, Slot)>, y: Block)
    requires OnlyFor(phis0, phis, x, has) && y in phis
    ensures OnlyFor(phis0, phis[y := [x] + phis[y]], x, has + {(y, x)})
    ensures PhiBlocks(phis[y := [x] + phis[y]], x) == PhiBlocks(phis, x) + {y}
  {
    var phis1 := phis[y := [x] + phis[y]];
    forall b: Block, z: Slot
      ensures PhiIn(phis1, b, z) <==> PhiIn(phis, b, z) || (b == y && z == x)
    {
    }
    forall b ensures b in PhiBlocks(phis1, x) <==> b in PhiBlocks(phis, x) || b == y {
      assert PhiIn(phis1, b, x) <==> PhiIn(phis, b, x) || b == y;
    }
    forall b: Block, z: Slot ensures (b, z) in has + {(y, x)} <==> PhiIn(phis1, b, z) {
      assert (b, z) in has <==> PhiIn(phis, b, z);
    }
  }

  ghost predicate AllRecorded(phis: Phis, has: set<(Block, Slot)>) {
    forall b: Block, y: Slot {:trigger (b, y) in has} {:trigger PhiIn(phis, b, y)} :: (b, y) in has <==> PhiIn(phis, b, y)
  }

  /** The slots in `done` have their phis, the others have none yet. */
  ghost predicate SlotPlaced(code: Code, frontier: map<Block, set<Block>>, phis: Phis, done: set<Slot>, x: Slot) {
    if x in done then IsIterated(code, frontier, x, PhiBlocks(phis, x)) else PhiBlocks(phis, x) == {}
  }

  ghost predicate SlotsPlaced(code: Code, frontier: map<Block, set<Block>>, phis: Phis, done: set<Slot>) {
    forall x {:trigger SlotPlaced(code, frontier, phis, done, x)} :: SlotPlaced(code, frontier, phis, done, x)
  }

  lemma SlotStarts(code: Code, frontier: map<Block, set<Block>>, phis: Phis, done: set<Slot>, x: Slot, has: set<(Block, Slot)>)
    requires SlotsPlaced(code, frontier, phis, done) && x !in done && AllRecorded(phis, has)
    ensures OnlyFor(phis, phis, x, has) && forall b :: !PhiIn(phis, b, x)
  {
    assert SlotPlaced(code, frontier, phis, done, x);
    assert forall b :: PhiIn(phis, b, x) ==> b in PhiBlocks(phis, x);
  }

  lemma SlotEnds(code: Code, frontier: map<Block, set<Block>>, phis0: Phis, phis: Phis, done: set<Slot>, x: Slot, has: set<(Block, Slot)>)
    requires SlotsPlaced(code, frontier, phis0, done) && OnlyFor(phis0, phis, x, has)
    requires IsIterated(code, frontier, x, PhiBlocks(phis, x))
    ensures AllRecorded(phis, has) && SlotsPlaced(code, frontier, phis, done + {x})
  {
    var done1 := done + {x};
    forall y ensures SlotPlaced(code, frontier, phis, done1, y) {
      assert SlotPlaced(code, frontier, phis0, done, y);
      if y != x {
        forall b ensures b in PhiBlocks(phis, y) <==> b in PhiBlocks(phis0, y) {
          assert PhiIn(phis, b, y) <==> PhiIn(phis0, b, y);
        }
        assert PhiBlocks(phis, y) == PhiBlocks(phis0, y);
      }
    }
  }

  lemma PlacementStarts(code: Code, frontier: map<Block, set<Block>>, h: Heap)
    requires NoPhisYet(code) && h.body == code.body && h.kind == code.kind && h.ops == code.ops
    ensures var phis: Phis := map b | b in code.body :: [];
            Placed(code, h, phis) && AllRecorded(phis, {}) && SlotsPlaced(code, frontier, phis, {})
  {
    var phis: Phis := map b | b in code.body :: [];
    forall c ensures PlacedBody(code, h.body, phis, c) {
    }
    forall id ensures PlacedId(code, h, phis, id) {
    }
    var done: set<Slot> := {};
    forall x ensures SlotPlaced(code, frontier, phis, done, x) {
      assert PhiBlocks(phis, x) == {};
    }
  }

  /** A slot that is never stored to needs no phi. */
  lemma NeverStored(code: Code, frontier: map<Block, set<Block>>, x: Slot)
    requires !exists b :: Stores(code, b, x)
    ensures IsIterated(code, frontier, x, {})
  {
  }

  ghost predicate StoresFound(code: Code, live: set<Slot>, blocksOf: StoreMap) {
    && (forall x, b :: InMap(blocksOf, x, b) <==> Stores(code, b, x))
    && (forall x :: x in live <==> exists b :: Stores(code, b, x))
    && live == blocksOf.Keys
  }

  /** `blocksOf[x]` is where `x` is stored to. */
  ghost predicate WorkAt(code: Code, blocksOf: StoreMap, x: Slot) {
    x in blocksOf ==> forall b :: b in blocksOf[x] <==> Stores(code, b, x)
  }

  lemma WorkOf(code: Code, live: set<Slot>, blocksOf: StoreMap)
    requires StoresFound(code, live, blocksOf)
    ensures forall x {:trigger WorkAt(code, blocksOf, x)} :: WorkAt(code, blocksOf, x)
  {
    forall x ensures WorkAt(code, blocksOf, x) {
      assert x in blocksOf ==> forall b :: b in blocksOf[x] <==> InMap(blocksOf, x, b);
    }
  }

  /** A block of the frontier at hand gets its phi and joins the worklist. */
  lemma WorkPlaces(code: Code, frontier: map<Block, set<Block>>, phis: Phis, x: Slot,
                   work: seq<Block>, i: nat, rest: set<Block>, y: Block)
    requires i < |work| && Working(code, frontier, phis, x, work, i, rest) && y in phis
    requires Has(frontier, work[i], y) && !PhiIn(phis, y, x)
    ensures Working(code, frontier, phis[y := [x] + phis[y]], x, work + [y], i, rest - {y})
  {
    var phis1, work1 := phis[y := [x] + phis[y]], work + [y];
    assert forall b :: PhiIn(phis1, b, x) <==> PhiIn(phis, b, x) || b == y;
    forall b ensures b in work1 <==> Stores(code, b, x) || PhiIn(phis1, b, x) {
      assert b in work1 <==> b in work || b == y;
    }
    forall q | ClosedUnder(code, frontier, x, q) ensures PhiBlocks(phis1, x) <= q {
      assert work[i] in work;
      if PhiIn(phis, work[i], x) { assert work[i] in PhiBlocks(phis, x); }
      assert PhiBlocks(phis, x) <= q;
      forall b | b in PhiBlocks(phis1, x) ensures b in q {
        if b != y { assert b in PhiBlocks(phis, x); }
      }
    }
    forall k, z | 0 <= k < i && Has(frontier, work1[k], z) ensures PhiIn(phis1, z, x) {
      assert work1[k] == work[k];
    }
  }

  lemma WorkSkips(code: Code, frontier: map<Block, set<Block>>, phis: Phis, x: Slot,
                  work: seq<Block>, i: nat, rest: set<Block>, y: Block)
    requires i < |work| && Working(code, frontier, phis, x, work, i, rest) && PhiIn(phis, y, x)
    ensures Working(code, frontier, phis, x, work, i, rest - {y})
  {
  }

  lemma WorkMovesOn(code: Code, frontier: map<Block, set<Block>>, phis: Phis, x: Slot, work: seq<Block>, i: nat)
    requires i < |work| && Working(code, frontier, phis, x, work, i, {})
    ensures Working(code, frontier, phis, x, work, i + 1, FrontierAt(frontier, work, i + 1))
  {
  }

  lemma WorkDone(code: Code, frontier: map<Block, set<Block>>, phis: Phis, x: Slot, work: seq<Block>)
    requires Working(code, frontier, phis, x, work, |work|, {})
    ensures IsIterated(code, frontier, x, PhiBlocks(phis, x))
  {
    var p := PhiBlocks(phis, x);
    forall b, y | Has(frontier, b, y) && (Stores(code, b, x) || b in p) ensures y in p {
      assert b in work;
      var k :| 0 <= k < |work| && work[k] == b;
      assert Has(frontier, work[k], y);
    }
  }

  // ----- collecting the stores -----

  ghost predicate StoredIn(code: Code, b: Block, n: nat, x: Slot) {
    b in code.body && exists j :: 0 <= j < n && j < |code.body[b]| && code.StoresTo(code.body[b][j], x)
  }

  /** What the pass relies on when it looks at an instruction for a store: it
      addresses memory in one of the three ways, and stores no slot address. */
  ghost predicate StoreOk(ops: Operands, kind: map<Id, Kind>, body: map<Block, seq<Id>>, b: Block, k: nat) {
    b in body && k < |body[b]| ==>
      && body[b][k] in kind && body[b][k] in ops
      && (kind[body[b][k]] == Store ==>
            && |ops[body[b][k]]| == 2 && !ops[body[b][k]][0].Addr?
            && PointerIn(kind, ops[body[b][k]][1]))
  }

  type StoreMap = map<Slot, set<Block>>

  predicate InMap(m: StoreMap, x: Slot, b: Block) {
    x in m && b in m[x]
  }

  /** The stores of the blocks in `done` and of the first `n` instructions of `b`. */
  ghost predicate CollectedAt(code: Code, m: StoreMap, done: seq<Block>, b: Block, n: nat, x: Slot, c: Block) {
    InMap(m, x, c) <==> (c in done && Stores(code, c, x)) || (c == b && StoredIn(code, b, n, x))
  }

  ghost predicate Collected(code: Code, m: StoreMap, live: set<Slot>, done: seq<Block>, b: Block, n: nat) {
    && m.Keys == live
    && (forall x :: x in m ==> m[x] != {})
    && (forall x, c {:trigger CollectedAt(code, m, done, b, n, x, c)} :: CollectedAt(code, m, done, b, n, x, c))
  }

  lemma CollectOne(code: Code, m: StoreMap, live: set<Slot>, done: seq<Block>, b: Block, n: nat, x0: Slot)
    requires Collected(code, m, live, done, b, n) && b in code.body && n < |code.body[b]|
    requires code.StoresTo(code.body[b][n], x0)
    ensures Collected(code, m[x0 := (if x0 in m then m[x0] else {}) + {b}], live + {x0}, done, b, n + 1)
  {
    var m1, n1 := m[x0 := (if x0 in m then m[x0] else {}) + {b}], n + 1;
    forall x, c ensures CollectedAt(code, m1, done, b, n1, x, c) {
      assert CollectedAt(code, m, done, b, n, x, c);
      assert StoredIn(code, b, n1, x) <==> StoredIn(code, b, n, x) || x == x0;
    }
  }

  lemma CollectNone(code: Code, m: StoreMap, live: set<Slot>, done: seq<Block>, b: Block, n: nat)
    requires Collected(code, m, live, done, b, n) && b in code.body && n < |code.body[b]|
    requires forall x :: !code.StoresTo(code.body[b][n], x)
    ensures Collected(code, m, live, done, b, n + 1)
  {
    var n1 := n + 1;
    forall x, c ensures CollectedAt(code, m, done, b, n1, x, c) {
      assert CollectedAt(code, m, done, b, n, x, c);
      assert StoredIn(code, b, n1, x) <==> StoredIn(code, b, n, x);
    }
  }

  lemma CollectStart(code: Code, m: StoreMap, live: set<Slot>, done: seq<Block>, a: Block, b: Block)
    requires Collected(code, m, live, done, a, 0)
    ensures Collected(code, m, live, done, b, 0)
  {
    forall x, d ensures CollectedAt(code, m, done, b, 0, x, d) {
      assert CollectedAt(code, m, done, a, 0, x, d);
    }
  }

  lemma CollectBlock(code: Code, m: StoreMap, live: set<Slot>, done: seq<Block>, b: Block, c: Block)
    requires b in code.body && Collected(code, m, live, done, b, |code.body[b]|)
    ensures Collected(code, m, live, done + [b], c, 0)
  {
    var done1 := done + [b];
    forall x, d ensures CollectedAt(code, m, done1, c, 0, x, d) {
      assert CollectedAt(code, m, done, b, |code.body[b]|, x, d);
      assert StoredIn(code, b, |code.body[b]|, x) <==> Stores(code, b, x);
    }
  }

  /** The collected map gives, for each slot that is stored to, its blocks. */
  lemma CollectedAll(code: Code, m: StoreMap, live: set<Slot>, done: seq<Block>, b: Block)
    requires Collected(code, m, live, done, b, 0) && forall c :: c in code.body ==> c in done
    ensures forall x, c :: InMap(m, x, c) <==> Stores(code, c, x)
    ensures forall x :: x in live <==> exists c :: Stores(code, c, x)
  {
    forall x, c ensures InMap(m, x, c) <==> Stores(code, c, x) {
      assert CollectedAt(code, m, done, b, 0, x, c);
    }
    forall x ensures x in live <==> exists c :: Stores(code, c, x) {
      if x in live {
        var c :| c in m[x];
        assert InMap(m, x, c);
      }
      if c :| Stores(code, c, x) {
        assert InMap(m, x, c);
      }
    }
  }
}
