/** The stacks of `re_name`: what they hold at each step, and when a step finds
    an empty one. */
module RenameStacks {
  import opened Graphs
  import opened IR
  import opened SsaForm
  import opened Meanings
  import opened RenameSteps

  type Stacks = map<Slot, seq<Value>>

  function Lookup(vs: Stacks, x: Slot): seq<Value> {
    if x in vs then vs[x] else []
  }

  ghost predicate Defines(s: Ssa, b: Block, x: Slot) {
    s.HasPhi(b, x) || Stores(s.code, b, x)
  }

  ghost predicate DefinedBy(s: Ssa, order: seq<Block>, x: Slot) {
    exists d :: d in order && Defines(s, d, x)
  }

  /** `b` has defined `x` before its instruction `k`. */
  ghost predicate DefinedIn(s: Ssa, b: Block, k: nat, x: Slot) {
    s.HasPhi(b, x) ||
    (b in s.code.body && exists j :: 0 <= j < k && j < |s.code.body[b]| && s.code.StoresTo(s.code.body[b][j], x))
  }

  /** The stacks are those in force at place `k` of `b`; a slot has one as soon
      as some definition of it has been met. */
  ghost predicate StackAt(s: Ssa, vs: Stacks, filled: seq<Block>, b: Block, k: nat, x: Slot)
    requires s.Ready() && b in s.code.body && k <= |s.code.body[b]|
  {
    && Lookup(vs, x) == s.Stack(b, k, x)
    && (x in vs <==> DefinedBy(s, filled, x) || DefinedIn(s, b, k, x))
  }

  ghost predicate StacksAt(s: Ssa, vs: Stacks, filled: seq<Block>, b: Block, k: nat)
    requires s.Ready() && b in s.code.body && k <= |s.code.body[b]|
  {
    forall x {:trigger StackAt(s, vs, filled, b, k, x)} :: StackAt(s, vs, filled, b, k, x)
  }

  /** The stacks that a visit of `b` finds, and leaves. */
  ghost predicate StackOnEntry(s: Ssa, vs: Stacks, filled: seq<Block>, b: Block, x: Slot)
    requires s.Ready() && b in s.code.body
  {
    Lookup(vs, x) == s.Inherited(b, x) && (x in vs <==> DefinedBy(s, filled, x))
  }

  ghost predicate StacksOnEntry(s: Ssa, vs: Stacks, filled: seq<Block>, b: Block)
    requires s.Ready() && b in s.code.body
  {
    forall x {:trigger StackOnEntry(s, vs, filled, b, x)} :: StackOnEntry(s, vs, filled, b, x)
  }

  ghost predicate NoDups(xs: seq<Slot>) {
    forall i, j :: 0 <= i < j < |xs| ==> xs[i] != xs[j]
  }

  ghost predicate PhiListOk(s: Ssa, b: Block) {
    b in s.code.body ==> b in s.phis && NoDups(s.phis[b])
  }

  ghost predicate Renamable(s: Ssa) {
    Fit(s) && OnlyInstrs(s) && forall b {:trigger PhiListOk(s, b)} :: PhiListOk(s, b)
  }

  /** The phis are the pass's own. */
  ghost predicate OnlyInstrs(s: Ssa) {
    forall id :: id in s.code.kind ==> id.Instr?
  }

  /** The strict dominators of `b` have all been renamed. */
  ghost predicate AncestorsIn(s: Ssa, filled: seq<Block>, b: Block)
    requires s.t.Ok() && b in s.t.up
  {
    forall d {:trigger s.t.Above(b, d)} :: s.t.Above(b, d) && d != b ==> d in filled
  }

  /** A load that finds the stack of its slot empty although the slot has one. */
  ghost predicate LoadFails(s: Ssa, filled: seq<Block>, b: Block, k: nat, x: Slot)
    requires s.Ready() && b in s.code.body && k < |s.code.body[b]|
  {
    s.code.LoadsFrom(s.code.body[b][k], x) && s.Stack(b, k, x) == [] && DefinedBy(s, filled, x)
  }

  ghost predicate LoadsSafe(s: Ssa, filled: seq<Block>, b: Block, n: nat)
    requires s.Ready() && b in s.code.body && n <= |s.code.body[b]|
  {
    forall k: nat, x {:trigger LoadFails(s, filled, b, k, x)} :: k < n ==> !LoadFails(s, filled, b, k, x)
  }

  ghost function DroppedOf(s: Ssa, ids: seq<Id>): seq<Id>
    requires s.Ready()
  {
    if ids == [] then []
    else DroppedOf(s, ids[..|ids| - 1]) + (if Dropped(s, ids[|ids| - 1]) then [ids[|ids| - 1]] else [])
  }

  /** The loads and stores of `g.bb` before place `g.k` are done: no empty stack
      was met, and `wait` is what is to be deleted. */
  ghost predicate Renaming(s: Ssa, h: Heap, vs: Stacks, g: Stage, cleaned: set<Block>, wait: seq<Id>)
    requires s.Ready() && g.bb in s.code.body && g.k <= |s.code.body[g.bb]|
  {
    && Underway(s, h, g, cleaned) && StacksAt(s, vs, g.filled, g.bb, g.k)
    && LoadsSafe(s, g.filled, g.bb, g.k) && wait == DroppedOf(s, s.code.body[g.bb][..g.k])
  }

  /** Passing an instruction: what it does to the parts comes together. */
  lemma RenamingGoesOn(s: Ssa, h: Heap, vs: Stacks, g: Stage, cleaned: set<Block>, wait: seq<Id>)
    requires s.Ready() && g.bb in s.code.body && g.k < |s.code.body[g.bb]|
    requires Underway(s, h, Next(g), cleaned) && StacksAt(s, vs, g.filled, g.bb, g.k + 1)
    requires LoadsSafe(s, g.filled, g.bb, g.k)
    requires forall x {:trigger LoadFails(s, g.filled, g.bb, g.k, x)} :: !LoadFails(s, g.filled, g.bb, g.k, x)
    requires var id := s.code.body[g.bb][g.k];
             wait == DroppedOf(s, s.code.body[g.bb][..g.k]) + (if Dropped(s, id) then [id] else [])
    ensures Renaming(s, h, vs, Next(g), cleaned, wait)
  {
    assert s.code.body[g.bb][..g.k + 1] == s.code.body[g.bb][..g.k] + [s.code.body[g.bb][g.k]];
  }

  // ----- one instruction -----

  /** Whether the stack of a slot is empty and whether it has one decide
      between replacing a load, leaving it, and running into an empty stack. */
  lemma LoadCases(s: Ssa, vs: Stacks, filled: seq<Block>, b: Block, k: nat, x: Slot)
    requires s.Ready() && b in s.code.body && k < |s.code.body[b]|
    requires StacksAt(s, vs, filled, b, k) && s.code.LoadsFrom(s.code.body[b][k], x)
    ensures s.Replaced(s.code.body[b][k]) <==> Lookup(vs, x) != []
    ensures Lookup(vs, x) != [] ==> x in vs && s.Renamed(Ref(s.code.body[b][k])) == vs[x][|vs[x]| - 1]
    ensures LoadFails(s, filled, b, k, x) <==> x in vs && vs[x] == []
  {
    assert StackAt(s, vs, filled, b, k, x) && s.PlaceOk(b, k);
    if s.Stack(b, k, x) == [] { EmptyMeansUndefined(s, b, k, x); }
  }

  lemma {:induction false} EmptyMeansUndefined(s: Ssa, b: Block, k: nat, x: Slot)
    requires s.Ready() && b in s.code.body && k <= |s.code.body[b]| && s.Stack(b, k, x) == []
    ensures !DefinedIn(s, b, k, x)
  {
    if k > 0 {
      OneStepStack(s, b, k - 1, x);
      EmptyMeansUndefined(s, b, k - 1, x);
    }
  }

  lemma StacksPass(s: Ssa, vs: Stacks, filled: seq<Block>, b: Block, k: nat)
    requires s.Ready() && b in s.code.body && k < |s.code.body[b]| && StacksAt(s, vs, filled, b, k)
    requires !s.code.SlotStore(s.code.body[b][k])
    ensures StacksAt(s, vs, filled, b, k + 1)
  {
    var k1 := k + 1;
    forall x ensures StackAt(s, vs, filled, b, k1, x) {
      assert StackAt(s, vs, filled, b, k, x);
      OneStepStack(s, b, k, x);
    }
  }

  lemma StacksPush(s: Ssa, vs: Stacks, filled: seq<Block>, b: Block, k: nat, x0: Slot, v: Value)
    requires s.Ready() && b in s.code.body && k < |s.code.body[b]| && StacksAt(s, vs, filled, b, k)
    requires s.code.StoresTo(s.code.body[b][k], x0)
    requires v == s.RenamedAt(Place(b, k), s.code.ops[s.code.body[b][k]][0])
    ensures StacksAt(s, vs[x0 := Lookup(vs, x0) + [v]], filled, b, k + 1)
  {
    var k1, vs1 := k + 1, vs[x0 := Lookup(vs, x0) + [v]];
    forall x ensures StackAt(s, vs1, filled, b, k1, x) {
      assert StackAt(s, vs, filled, b, k, x);
      OneStepStack(s, b, k, x);
    }
  }

  /** What a store pushes is its stored value, renamed. */
  lemma StoredIsRenamed(s: Ssa, ops: Operands, g: Stage, id: Id)
    requires s.Ready() && g.bb in s.code.body && g.k < |s.code.body[g.bb]| && id == s.code.body[g.bb][g.k]
    requires g.bb in s.t.up && AncestorsIn(s, g.filled, g.bb) && OpsAt(s, ops, g, id) && s.code.SlotStore(id)
    ensures id in ops && |ops[id]| == 2 && ops[id][1] == s.code.ops[id][1]
    ensures ops[id][0] == s.RenamedAt(Place(g.bb, g.k), s.code.ops[id][0])
  {
    assert s.PlaceOk(g.bb, g.k) && s.InstrOk(id);
    var v := s.code.ops[id][0];
    assert s.OperandOk(Place(g.bb, g.k), v);
    s.RenamedAtIsRenamed(Place(g.bb, g.k), v);
    if v.Ref? && s.Replaced(v.id) {
      assert s.InstrOk(v.id);
      assert LoadDone(s, g, v.id);
    }
  }

  lemma PendingUsesExact(s: Ssa, h: Heap, g: Stage, cleaned: set<Block>)
    requires s.Ready() && g.bb in s.code.body && g.k < |s.code.body[g.bb]| && g.bb !in g.filled
    requires Underway(s, h, g, cleaned) && s.Replaced(s.code.body[g.bb][g.k])
    ensures ExactUses(h.ops, h.uses, Ref(s.code.body[g.bb][g.k]))
  {
    assert s.PlaceOk(g.bb, g.k) && UsesAt(s, h, g, s.code.body[g.bb][g.k]);
  }

  /** Where the phis of a block end and its instructions begin. */
  lemma AtPlace(s: Ssa, h: Heap, g: Stage, cleaned: set<Block>, b: Block, i: nat)
    requires Renamable(s) && b in s.code.body && b !in cleaned && Underway(s, h, g, cleaned)
    requires b in h.body && i < |h.body[b]| && b in s.phis
    ensures |h.body[b]| == |s.phis[b]| + |s.code.body[b]|
    ensures h.body[b][i] in h.kind && (h.kind[h.body[b][i]] == Phi <==> i < |s.phis[b]|)
    ensures h.body[b][i] == if i < |s.phis[b]| then PhiOf(b, s.phis[b][i]) else s.code.body[b][i - |s.phis[b]|]
  {
    assert BodyAt(s, h.body, cleaned, b) && Known(s, h, h.body[b][i]);
    if i >= |s.phis[b]| {
      assert s.PlaceOk(b, i - |s.phis[b]|) && s.InstrOk(h.body[b][i]);
    }
  }

  // ----- pushing phis -----

  ghost predicate PushedAt(s: Ssa, vs: Stacks, filled: seq<Block>, b: Block, xs: seq<Slot>, x: Slot)
    requires s.Ready() && b in s.code.body
  {
    && Lookup(vs, x) == s.Inherited(b, x) + (if x in xs then [Ref(PhiOf(b, x))] else [])
    && (x in vs <==> DefinedBy(s, filled, x) || x in xs)
  }

  ghost predicate Pushed(s: Ssa, vs: Stacks, filled: seq<Block>, b: Block, xs: seq<Slot>)
    requires s.Ready() && b in s.code.body
  {
    forall x {:trigger PushedAt(s, vs, filled, b, xs, x)} :: PushedAt(s, vs, filled, b, xs, x)
  }

  lemma PushStarts(s: Ssa, vs: Stacks, filled: seq<Block>, b: Block)
    requires s.Ready() && b in s.code.body && StacksOnEntry(s, vs, filled, b)
    ensures Pushed(s, vs, filled, b, [])
  {
    var none: seq<Slot> := [];
    forall x ensures PushedAt(s, vs, filled, b, none, x) {
      assert StackOnEntry(s, vs, filled, b, x);
    }
  }

  lemma PushOne(s: Ssa, vs: Stacks, filled: seq<Block>, b: Block, xs: seq<Slot>, x0: Slot)
    requires s.Ready() && b in s.code.body && Pushed(s, vs, filled, b, xs) && x0 !in xs
    ensures Pushed(s, vs[x0 := Lookup(vs, x0) + [Ref(PhiOf(b, x0))]], filled, b, xs + [x0])
  {
    var vs1, xs1 := vs[x0 := Lookup(vs, x0) + [Ref(PhiOf(b, x0))]], xs + [x0];
    forall x ensures PushedAt(s, vs1, filled, b, xs1, x) {
      assert PushedAt(s, vs, filled, b, xs, x);
    }
  }

  lemma PushEnds(s: Ssa, vs: Stacks, filled: seq<Block>, b: Block)
    requires s.Ready() && b in s.code.body && b in s.phis && Pushed(s, vs, filled, b, s.phis[b])
    ensures StacksAt(s, vs, filled, b, 0)
  {
    forall x ensures StackAt(s, vs, filled, b, 0, x) {
      assert PushedAt(s, vs, filled, b, s.phis[b], x);
    }
  }

  // ----- filling phis -----

  /** `p` meets a phi of a successor whose slot has a stack, but an empty one. */
  ghost predicate FillFails(s: Ssa, filled: seq<Block>, p: Block, c: Block, x: Slot)
    requires s.Ready() && p in s.code.body
  {
    s.g.Edge(p, c) && s.HasPhi(c, x) && AtEnd(s, p, x) == [] && DefinedBy(s, filled, x)
  }

  ghost predicate FillsSafe(s: Ssa, filled: seq<Block>, p: Block)
    requires s.Ready() && p in s.code.body
  {
    forall c, x {:trigger FillFails(s, filled, p, c, x)} :: !FillFails(s, filled, p, c, x)
  }

  lemma FillCases(s: Ssa, vs: Stacks, filled: seq<Block>, p: Block, x: Slot)
    requires s.Ready() && p in s.code.body && StacksAt(s, vs, filled, p, |s.code.body[p]|)
    ensures Lookup(vs, x) == AtEnd(s, p, x)
    ensures AtEnd(s, p, x) == [] ==> (x in vs <==> DefinedBy(s, filled, x))
    ensures AtEnd(s, p, x) != [] ==> x in vs
  {
    assert StackAt(s, vs, filled, p, |s.code.body[p]|, x);
    if AtEnd(s, p, x) == [] { EmptyMeansUndefined(s, p, |s.code.body[p]|, x); }
  }

  // ----- popping -----

  predicate DefinesSlot(code: Code, id: Id, x: Slot) {
    (id.PhiOf? && id.lval == x) || code.StoresTo(id, x)
  }

  ghost function NumDefs(s: Ssa, ids: seq<Id>, x: Slot): nat {
    if ids == [] then 0
    else NumDefs(s, ids[..|ids| - 1], x) + (if DefinesSlot(s.code, ids[|ids| - 1], x) then 1 else 0)
  }

  /** The list of a block before anything is deleted from it. */
  ghost function FullList(s: Ssa, b: Block): seq<Id>
    requires b in s.code.body && b in s.phis
  {
    PhiIds(b, s.phis[b]) + s.code.body[b]
  }

  lemma {:induction false} PhiDefs(s: Ssa, b: Block, xs: seq<Slot>, x: Slot)
    requires NoDups(xs) && OnlyInstrs(s)
    ensures NumDefs(s, PhiIds(b, xs), x) == if x in xs then 1 else 0
  {
    if xs != [] {
      var ys := xs[..|xs| - 1];
      assert PhiIds(b, xs)[..|xs| - 1] == PhiIds(b, ys);
      PhiDefs(s, b, ys, x);
      assert x in xs <==> x in ys || x == xs[|xs| - 1];
    }
  }

  /** A block pushes one value for each of its definitions, on top of what it
      has inherited. */
  lemma {:induction false} StackGrowth(s: Ssa, b: Block, k: nat, x: Slot)
    requires Renamable(s) && b in s.code.body && b in s.phis && k <= |s.code.body[b]|
    ensures s.Inherited(b, x) <= s.Stack(b, k, x)
    ensures |s.Stack(b, k, x)| == |s.Inherited(b, x)| + NumDefs(s, PhiIds(b, s.phis[b]) + s.code.body[b][..k], x)
  {
    var phis := PhiIds(b, s.phis[b]);
    if k == 0 {
      assert PhiListOk(s, b);
      PhiDefs(s, b, s.phis[b], x);
      assert phis + s.code.body[b][..0] == phis;
    } else {
      StackGrowth(s, b, k - 1, x);
      OneStepStack(s, b, k - 1, x);
      assert s.PlaceOk(b, k - 1) && s.InstrOk(s.code.body[b][k - 1]);
      var l := phis + s.code.body[b][..k];
      assert l[..|l| - 1] == phis + s.code.body[b][..k - 1];
      assert l[|l| - 1] == s.code.body[b][k - 1];
    }
  }

  lemma {:induction false} NumDefsPrefix(s: Ssa, ids: seq<Id>, n: nat, x: Slot)
    requires n <= |ids|
    ensures NumDefs(s, ids[..n], x) <= NumDefs(s, ids, x)
    ensures n < |ids| && DefinesSlot(s.code, ids[n], x) ==> NumDefs(s, ids[..n], x) < NumDefs(s, ids, x)
  {
    if n == |ids| {
      assert ids[..n] == ids;
    } else {
      var l := ids[..|ids| - 1];
      assert l[..n] == ids[..n];
      if n < |l| { assert l[n] == ids[n]; }
      NumDefsPrefix(s, l, n, x);
    }
  }

  /** The stacks at the end of `b`, but `n` instructions' definitions popped. */
  ghost predicate PoppedAt(s: Ssa, vs: Stacks, filled: seq<Block>, b: Block, n: nat, x: Slot)
    requires s.Ready() && b in s.code.body && b in s.phis && n <= |FullList(s, b)|
  {
    var st, c := AtEnd(s, b, x), NumDefs(s, FullList(s, b)[..n], x);
    && c <= |st| && Lookup(vs, x) == st[..|st| - c]
    && (x in vs <==> DefinedBy(s, filled, x))
  }

  ghost predicate Popped(s: Ssa, vs: Stacks, filled: seq<Block>, b: Block, n: nat)
    requires s.Ready() && b in s.code.body && b in s.phis && n <= |FullList(s, b)|
  {
    forall x {:trigger PoppedAt(s, vs, filled, b, n, x)} :: PoppedAt(s, vs, filled, b, n, x)
  }

  ghost predicate StackAtEnd(s: Ssa, vs: Stacks, filled: seq<Block>, b: Block, x: Slot)
    requires s.Ready() && b in s.code.body
  {
    Lookup(vs, x) == AtEnd(s, b, x) && (x in vs <==> DefinedBy(s, filled, x))
  }

  ghost predicate StacksAtEnd(s: Ssa, vs: Stacks, filled: seq<Block>, b: Block)
    requires s.Ready() && b in s.code.body
  {
    forall x {:trigger StackAtEnd(s, vs, filled, b, x)} :: StackAtEnd(s, vs, filled, b, x)
  }

  lemma PopStarts(s: Ssa, vs: Stacks, filled: seq<Block>, b: Block)
    requires Renamable(s) && b in s.code.body && b in s.phis && StacksAtEnd(s, vs, filled, b)
    ensures Popped(s, vs, filled, b, 0)
  {
    forall x ensures PoppedAt(s, vs, filled, b, 0, x) {
      assert StackAtEnd(s, vs, filled, b, x);
      assert FullList(s, b)[..0] == [];
    }
  }

  /** A definition leaves something to pop. */
  lemma PopOne(s: Ssa, vs: Stacks, filled: seq<Block>, b: Block, n: nat, x0: Slot)
    requires Renamable(s) && b in s.code.body && b in s.phis && n < |FullList(s, b)|
    requires Popped(s, vs, filled, b, n)
    requires forall x :: DefinesSlot(s.code, FullList(s, b)[n], x) <==> x == x0
    ensures x0 in vs && vs[x0] != []
    ensures Popped(s, vs[x0 := vs[x0][..|vs[x0]| - 1]], filled, b, n + 1)
  {
    var list := FullList(s, b);
    assert list[..n + 1][..n] == list[..n];
    StackGrowth(s, b, |s.code.body[b]|, x0);
    assert PhiIds(b, s.phis[b]) + s.code.body[b][..|s.code.body[b]|] == list;
    NumDefsPrefix(s, list, n, x0);
    assert PoppedAt(s, vs, filled, b, n, x0);
    var n1, vs1 := n + 1, vs[x0 := vs[x0][..|vs[x0]| - 1]];
    forall x ensures PoppedAt(s, vs1, filled, b, n1, x) {
      assert PoppedAt(s, vs, filled, b, n, x);
    }
  }

  lemma PopNone(s: Ssa, vs: Stacks, filled: seq<Block>, b: Block, n: nat)
    requires s.Ready() && b in s.code.body && b in s.phis && n < |FullList(s, b)|
    requires Popped(s, vs, filled, b, n)
    requires forall x :: !DefinesSlot(s.code, FullList(s, b)[n], x)
    ensures Popped(s, vs, filled, b, n + 1)
  {
    var list := FullList(s, b);
    assert list[..n + 1][..n] == list[..n];
    var n1 := n + 1;
    forall x ensures PoppedAt(s, vs, filled, b, n1, x) {
      assert PoppedAt(s, vs, filled, b, n, x);
    }
  }

  /** Every visit leaves the stacks as it found them. */
  lemma PopEnds(s: Ssa, vs: Stacks, filled: seq<Block>, b: Block)
    requires Renamable(s) && b in s.code.body && b in s.phis
    requires Popped(s, vs, filled, b, |FullList(s, b)|)
    ensures StacksOnEntry(s, vs, filled, b)
  {
    var list := FullList(s, b);
    forall x ensures StackOnEntry(s, vs, filled, b, x) {
      assert PoppedAt(s, vs, filled, b, |list|, x);
      assert list[..|list|] == list;
      StackGrowth(s, b, |s.code.body[b]|, x);
      assert PhiIds(b, s.phis[b]) + s.code.body[b][..|s.code.body[b]|] == list;
    }
  }

  lemma RestIsNoPhi(s: Ssa, body: map<Block, seq<Id>>, cleaned: set<Block>, c: Block, i: nat)
    requires s.Ready() && c in s.code.body && BodyAt(s, body, cleaned, c) && |s.phis[c]| <= i < |body[c]|
    ensures body[c][i] in s.code.kind && s.code.kind[body[c][i]] != Phi && body[c][i].Instr?
  {
    var id := body[c][i];
    if c in cleaned { CleanedFrom(s, s.code.body[c], id); }
    assert id in s.code.body[c];
    var k :| 0 <= k < |s.code.body[c]| && s.code.body[c][k] == id;
    assert s.PlaceOk(c, k) && s.InstrOk(id);
  }

  /** The phis come first, each for a slot of its own. */
  lemma AtPhiPlace(s: Ssa, h: Heap, g: Stage, cleaned: set<Block>, fl: Filling, c: Block, i: nat)
    requires Renamable(s) && UnderwayIn(s, h, g, cleaned, fl) && c in s.code.body && c in h.body && i < |h.body[c]|
    ensures c in s.phis && h.body[c][i] in h.kind && (h.kind[h.body[c][i]] == Phi <==> i < |s.phis[c]|)
    ensures i < |s.phis[c]| ==> h.body[c][i] == PhiOf(c, s.phis[c][i]) && s.phis[c][i] !in s.phis[c][..i]
  {
    assert BodyAt(s, h.body, cleaned, c) && PhiListOk(s, c);
    assert Known(s, h, h.body[c][i]);
    if i >= |s.phis[c]| { RestIsNoPhi(s, h.body, cleaned, c, i); }
  }

  lemma {:induction false} CleanedFrom(s: Ssa, ids: seq<Id>, id: Id)
    requires s.Ready()
    ensures id in CleanedOf(s, ids) <==> id in ids && !Dropped(s, id)
  {
    if ids != [] {
      CleanedFrom(s, ids[1..], id);
    }
  }

  /** Which slot an instruction defines, read off its present operands. */
  lemma DefsOfInstr(s: Ssa, h: Heap, g: Stage, cleaned: set<Block>, b: Block, i: nat)
    requires Renamable(s) && b in s.code.body && b !in cleaned && Underway(s, h, g, cleaned)
    requires b in h.body && i < |h.body[b]| && b in s.phis
    ensures h.body[b] == FullList(s, b)
    ensures var id := h.body[b][i];
      && id in h.kind && id in h.ops
      && (h.kind[id] == Phi ==> id.PhiOf? && forall x :: DefinesSlot(s.code, id, x) <==> x == id.lval)
      && (h.kind[id] == Store ==>
            && |h.ops[id]| == 2
            && (h.ops[id][1].Addr? <==>
                  !h.ops[id][1].Global? &&
                  !(h.ops[id][1].Ref? && h.ops[id][1].id in h.kind && h.kind[h.ops[id][1].id] == Gep))
            && if h.ops[id][1].Addr? then forall x :: DefinesSlot(s.code, id, x) <==> x == h.ops[id][1].x
               else forall x :: !DefinesSlot(s.code, id, x))
      && (h.kind[id] != Phi && h.kind[id] != Store ==> forall x :: !DefinesSlot(s.code, id, x))
  {
    assert BodyAt(s, h.body, cleaned, b);
    var id := h.body[b][i];
    assert Known(s, h, id);
    if i < |s.phis[b]| {
      assert id == PhiOf(b, s.phis[b][i]);
      assert PhiAt(s, h.ops, g.filled, IDLE, b, s.phis[b][i]) && s.HasPhi(b, s.phis[b][i]);
      PhiIsNoInstr(s, id);
    } else {
      assert s.PlaceOk(b, i - |s.phis[b]|) && s.InstrOk(id) && OpsAt(s, h.ops, g, id);
      if s.code.kind[id] == Store {
        PointerKept(s, h, g, cleaned, id, 1);
      }
    }
  }

  lemma PhiIsNoInstr(s: Ssa, id: Id)
    requires s.Ready() && id.PhiOf?
    ensures id !in s.pos
  {
    assert s.InstrOk(id);
  }

  // ----- deleting -----

  lemma {:induction false} DroppedFrom(s: Ssa, ids: seq<Id>, id: Id)
    requires s.Ready()
    ensures id in DroppedOf(s, ids) <==> id in ids && Dropped(s, id)
  {
    if ids != [] {
      DroppedFrom(s, ids[..|ids| - 1], id);
      assert id in ids <==> id in ids[..|ids| - 1] || id == ids[|ids| - 1];
    }
  }

  /** What is deleted from `b` is an instruction of `b`. */
  lemma DroppedHere(s: Ssa, b: Block, id: Id)
    requires s.Ready() && b in s.code.body && id in DroppedOf(s, s.code.body[b])
    ensures id.Instr? && id in s.pos && s.pos[id].bb == b && id in s.code.ops
  {
    DroppedFrom(s, s.code.body[b], id);
    var k :| 0 <= k < |s.code.body[b]| && s.code.body[b][k] == id;
    assert s.PlaceOk(b, k) && s.InstrOk(id);
  }

  /** Taking out what was replaced leaves the phis and the kept instructions. */
  lemma DeletedBody(s: Ssa, b: Block)
    requires s.Ready() && b in s.code.body && b in s.phis
    ensures Removed(FullList(s, b), DroppedOf(s, s.code.body[b])) ==
            PhiIds(b, s.phis[b]) + CleanedOf(s, s.code.body[b])
  {
    var ids, ws := s.code.body[b], DroppedOf(s, s.code.body[b]);
    RemovedJoin(PhiIds(b, s.phis[b]), ids, ws);
    forall id | id in PhiIds(b, s.phis[b]) ensures id !in ws {
      if id in ws { DroppedHere(s, b, id); }
    }
    RemovedNone(PhiIds(b, s.phis[b]), ws);
    forall id | id in ids ensures id in ws <==> s.Replaced(id) || s.code.SlotStore(id) {
      DroppedFrom(s, ids, id);
    }
    RemovedIsCleaned(s, ids, ws);
  }

  /** Deletion in `b` under way: `ws` are gone. */
  ghost predicate Deleting(s: Ssa, h: Heap, g: Stage, cleaned: set<Block>, b: Block, ws: seq<Id>)
    requires s.Ready() && b in s.code.body
  {
    && h.body.Keys == s.code.body.Keys && b in s.phis
    && OperandsIn(s, h, g, IDLE) && Lists(s, h, g, cleaned, ws)
    && h.body[b] == Removed(FullList(s, b), ws)
    && (forall c {:trigger BodyAt(s, h.body, cleaned, c)} :: c != b ==> BodyAt(s, h.body, cleaned, c))
  }

  lemma DeletionStarts(s: Ssa, h: Heap, g: Stage, cleaned: set<Block>, b: Block)
    requires s.Ready() && b in s.code.body && b !in cleaned && Underway(s, h, g, cleaned)
    ensures Deleting(s, h, g, cleaned, b, [])
  {
    assert BodyAt(s, h.body, cleaned, b);
    RemovedNone(FullList(s, b), []);
  }

  lemma DeletionNext(s: Ssa, h: Heap, g: Stage, cleaned: set<Block>, b: Block, ws: seq<Id>, id: Id)
    requires s.Ready() && b in s.code.body && Deleting(s, h, g, cleaned, b, ws) && id in DroppedOf(s, s.code.body[b])
    ensures b in h.body && id in h.ops
  {
    DroppedHere(s, b, id);
    assert OpsAt(s, h.ops, g, id);
  }

  lemma DeletionGoesOn(s: Ssa, h: Heap, h': Heap, g: Stage, cleaned: set<Block>, b: Block, ws: seq<Id>, id: Id)
    requires s.Ready() && b in s.code.body && b in s.t.up && Deleting(s, h, g, cleaned, b, ws)
    requires AncestorsIn(s, g.filled, b) && b in g.filled && id in DroppedOf(s, s.code.body[b]) && id in h.ops
    requires h'.kind == h.kind && h'.ops == h.ops && h'.body == h.body[b := Without(h.body[b], id)]
    requires forall v, u: Use {:trigger u in UsesOf(h'.uses, v)} ::
               u in UsesOf(h'.uses, v) <==> u in UsesOf(h.uses, v) && !(v in h.ops[id] && u.user == id)
    ensures Deleting(s, h', g, cleaned, b, ws + [id])
  {
    DroppedHere(s, b, id);
    RemovedOne(FullList(s, b), ws, id);
    DeleteKeeps(s, h, h', g, id);
    DeleteLists(s, h, h', g, cleaned, ws, id);
    forall c | c != b ensures BodyAt(s, h'.body, cleaned, c) {
      assert BodyAt(s, h.body, cleaned, c);
    }
  }

  lemma DroppedIsGone(s: Ssa, cleaned: set<Block>, b: Block, id: Id)
    requires s.Ready() && b in s.code.body
    ensures Gone(s, cleaned, DroppedOf(s, s.code.body[b]), id) <==> Gone(s, cleaned + {b}, [], id)
  {
    DroppedFrom(s, s.code.body[b], id);
    if id in DroppedOf(s, s.code.body[b]) { DroppedHere(s, b, id); }
    assert s.InstrOk(id);
  }

  lemma DeletionEnds(s: Ssa, h: Heap, g: Stage, cleaned: set<Block>, b: Block)
    requires s.Ready() && b in s.code.body && Deleting(s, h, g, cleaned, b, DroppedOf(s, s.code.body[b]))
    ensures Underway(s, h, g, cleaned + {b})
  {
    DeletedBody(s, b);
    var cleaned1 := cleaned + {b};
    forall id ensures Gone(s, cleaned, DroppedOf(s, s.code.body[b]), id) <==> Gone(s, cleaned1, [], id) {
      DroppedIsGone(s, cleaned, b, id);
    }
    SameLists(s, h, g, g, cleaned, DroppedOf(s, s.code.body[b]), cleaned1, []);
    forall c ensures BodyAt(s, h.body, cleaned1, c) {
      if c != b { assert BodyAt(s, h.body, cleaned, c); }
    }
  }

  /** Renaming leaves addresses as they are. */
  lemma PointerKept(s: Ssa, h: Heap, g: Stage, cleaned: set<Block>, id: Id, i: nat)
    requires s.Ready() && Underway(s, h, g, cleaned) && id in s.pos
    requires id in s.code.kind && ((s.code.kind[id] == Load && i == 0) || (s.code.kind[id] == Store && i == 1))
    ensures id in h.ops && id in s.code.ops && i < |h.ops[id]| && i < |s.code.ops[id]| && h.ops[id][i] == s.code.ops[id][i]
    ensures h.ops[id][i].Addr? <==>
            !h.ops[id][i].Global? &&
            !(h.ops[id][i].Ref? && h.ops[id][i].id in h.kind && h.kind[h.ops[id][i].id] == Gep)
  {
    assert s.InstrOk(id) && OpsAt(s, h.ops, g, id);
    assert s.code.ShapeOk(s.g, s.pos, id);
    var v := s.code.ops[id][i];
    assert PointerIn(s.code.kind, v);
    if v.Ref? {
      assert s.OperandOk(s.pos[id], v) && s.InstrOk(v.id);
      assert Known(s, h, v.id);
    }
  }
}
