/** The state of a function while `re_name` works through it, and how each of
    its steps moves that state on. */
module RenameSteps {
  import opened Graphs
  import opened IR
  import opened SsaForm
  import opened Meanings

  /** The mutable fields of a function. */
  datatype Heap = Heap(body: map<Block, seq<Id>>, kind: map<Id, Kind>, ops: Operands, uses: UseLists)

  /** How far renaming has come: the blocks whose instructions and outgoing
      phi operands are done, in order, and the block under way up to place `k`. */
  datatype Stage = Stage(filled: seq<Block>, bb: Block, k: nat)

  ghost predicate LoadDone(s: Ssa, g: Stage, l: Id)
    requires s.Ready()
  {
    s.Replaced(l) && (s.pos[l].bb in g.filled || (s.pos[l].bb == g.bb && s.pos[l].k < g.k))
  }

  ghost predicate LoadPending(s: Ssa, g: Stage, l: Id)
    requires s.Ready()
  {
    s.Replaced(l) && !LoadDone(s, g, l)
  }

  ghost function Now(s: Ssa, g: Stage, v: Value): Value
    requires s.Ready()
  {
    if v.Ref? && LoadDone(s, g, v.id) then s.Renamed(v) else v
  }

  ghost predicate OpsAt(s: Ssa, ops: Operands, g: Stage, id: Id)
    requires s.Ready()
  {
    id in s.pos ==>
      && id in ops && id in s.code.ops && |ops[id]| == |s.code.ops[id]|
      && forall i :: 0 <= i < |ops[id]| ==> ops[id][i] == Now(s, g, s.code.ops[id][i])
  }

  /** The pair that `p` adds to a phi for `x`, if a definition reaches its end. */
  ghost function Pair(s: Ssa, p: Block, x: Slot): seq<Value>
    requires s.Ready()
  {
    if p !in s.code.body || AtEnd(s, p, x) == [] then []
    else [AtEnd(s, p, x)[|AtEnd(s, p, x)| - 1], Label(p)]
  }

  /** What `p` has added to the phi of `c` for `x` after the successors `ss`. */
  ghost function Added(s: Ssa, p: Block, ss: seq<Block>, c: Block, x: Slot): seq<Value>
    requires s.Ready()
  {
    if ss == [] then []
    else Added(s, p, ss[..|ss| - 1], c, x) + (if ss[|ss| - 1] == c then Pair(s, p, x) else [])
  }

  ghost function PhiOps(s: Ssa, filled: seq<Block>, c: Block, x: Slot): seq<Value>
    requires s.Ready()
  {
    if filled == [] then []
    else
      var p := filled[|filled| - 1];
      PhiOps(s, filled[..|filled| - 1], c, x) + Added(s, p, if p in s.g.succs then s.g.succs[p] else [], c, x)
  }

  /** The filling of phis by `p` under way: the successors `ss` are done, and of
      `c` the phis for the slots in `done`. */
  datatype Filling = Filling(p: Block, ss: seq<Block>, c: Block, done: seq<Slot>)

  const IDLE := Filling(0, [], 0, [])

  ghost predicate PhiAt(s: Ssa, ops: Operands, filled: seq<Block>, fl: Filling, c: Block, x: Slot)
    requires s.Ready()
  {
    s.HasPhi(c, x) ==>
      && PhiOf(c, x) in ops
      && ops[PhiOf(c, x)] == PhiOps(s, filled, c, x) + Added(s, fl.p, fl.ss, c, x)
                             + (if c == fl.c && x in fl.done then Pair(s, fl.p, x) else [])
  }

  ghost predicate UsesAt(s: Ssa, h: Heap, g: Stage, l: Id)
    requires s.Ready()
  {
    LoadPending(s, g, l) ==> ExactUses(h.ops, h.uses, Ref(l))
  }

  ghost predicate Known(s: Ssa, h: Heap, id: Id) {
    && KindKept(s, Code(h.body, h.kind, h.ops), id)
    && (id in h.ops ==> id in s.pos || (id.PhiOf? && s.HasPhi(id.bb, id.lval)))
  }

  /** What renaming takes out of a block. */
  ghost predicate Dropped(s: Ssa, id: Id)
    requires s.Ready()
  {
    s.Replaced(id) || s.code.SlotStore(id)
  }

  /** What is left of a block when renaming has finished with it. */
  ghost function CleanedOf(s: Ssa, ids: seq<Id>): seq<Id>
    requires s.Ready()
  {
    if ids == [] then []
    else if s.Replaced(ids[0]) || s.code.SlotStore(ids[0]) then CleanedOf(s, ids[1..])
    else [ids[0]] + CleanedOf(s, ids[1..])
  }

  ghost predicate BodyAt(s: Ssa, body: map<Block, seq<Id>>, cleaned: set<Block>, c: Block)
    requires s.Ready()
  {
    c in s.code.body ==>
      && c in body && c in s.phis
      && body[c] == PhiIds(c, s.phis[c]) + (if c in cleaned then CleanedOf(s, s.code.body[c]) else s.code.body[c])
  }

  /** Deleted by now: dropped from a block that is finished, or among `ws`. */
  ghost predicate Gone(s: Ssa, cleaned: set<Block>, ws: seq<Id>, id: Id)
    requires s.Ready()
  {
    id in ws || (id in s.pos && s.pos[id].bb in cleaned && Dropped(s, id))
  }

  /** A value whose use list is kept exact: it was so at the start, and the value
      is no load that has been replaced. */
  ghost predicate Tracked(s: Ssa, g: Stage, v: Value)
    requires s.Ready()
  {
    if v.Ref? && s.Replaced(v.id) then LoadPending(s, g, v.id) else ExactUses(s.code.ops, s.uses, v)
  }

  /** Its list names exactly the operands that are the value, but for those of
      instructions that have been deleted. */
  ghost predicate ListAt(s: Ssa, h: Heap, g: Stage, cleaned: set<Block>, ws: seq<Id>, v: Value)
    requires s.Ready()
  {
    Tracked(s, g, v) ==>
      forall u {:trigger HasOperand(h.ops, u, v)} {:trigger u in UsesOf(h.uses, v)} ::
        u in UsesOf(h.uses, v) <==> HasOperand(h.ops, u, v) && !Gone(s, cleaned, ws, u.user)
  }

  ghost predicate Lists(s: Ssa, h: Heap, g: Stage, cleaned: set<Block>, ws: seq<Id>)
    requires s.Ready()
  {
    forall v {:trigger ListAt(s, h, g, cleaned, ws, v)} :: ListAt(s, h, g, cleaned, ws, v)
  }

  /** Everything but the contents of the blocks. */
  ghost predicate OperandsIn(s: Ssa, h: Heap, g: Stage, fl: Filling)
    requires s.Ready()
  {
    && (forall id {:trigger OpsAt(s, h.ops, g, id)} :: OpsAt(s, h.ops, g, id))
    && (forall c, x {:trigger PhiAt(s, h.ops, g.filled, fl, c, x)} :: PhiAt(s, h.ops, g.filled, fl, c, x))
    && (forall l {:trigger UsesAt(s, h, g, l)} :: UsesAt(s, h, g, l))
    && (forall id {:trigger Known(s, h, id)} :: Known(s, h, id))
  }

  ghost predicate UnderwayIn(s: Ssa, h: Heap, g: Stage, cleaned: set<Block>, fl: Filling)
    requires s.Ready()
  {
    && h.body.Keys == s.code.body.Keys
    && OperandsIn(s, h, g, fl) && Lists(s, h, g, cleaned, [])
    && (forall c {:trigger BodyAt(s, h.body, cleaned, c)} :: BodyAt(s, h.body, cleaned, c))
  }

  ghost predicate Underway(s: Ssa, h: Heap, g: Stage, cleaned: set<Block>)
    requires s.Ready()
  {
    UnderwayIn(s, h, g, cleaned, IDLE)
  }

  // ----- values on the way are never loads still to be replaced -----

  lemma {:induction false} AddedFinal(s: Ssa, p: Block, ss: seq<Block>, c: Block, x: Slot, v: Value)
    requires s.Ready() && v in Added(s, p, ss, c, x)
    ensures v.Ref? ==> !s.Replaced(v.id)
  {
    if v in Added(s, p, ss[..|ss| - 1], c, x) {
      AddedFinal(s, p, ss[..|ss| - 1], c, x, v);
    } else {
      var st := AtEnd(s, p, x);
      s.StackSettled(p, |s.code.body[p]|, x, st[|st| - 1]);
      s.SettledFinal(Place(p, |s.code.body[p]|), st[|st| - 1]);
    }
  }

  lemma {:induction false} PhiOpsFinal(s: Ssa, filled: seq<Block>, c: Block, x: Slot, v: Value)
    requires s.Ready() && v in PhiOps(s, filled, c, x)
    ensures v.Ref? ==> !s.Replaced(v.id)
  {
    var p := filled[|filled| - 1];
    if v in PhiOps(s, filled[..|filled| - 1], c, x) {
      PhiOpsFinal(s, filled[..|filled| - 1], c, x, v);
    } else {
      AddedFinal(s, p, if p in s.g.succs then s.g.succs[p] else [], c, x, v);
    }
  }

  lemma RenamedFinal(s: Ssa, v: Value)
    requires s.Ready()
    ensures s.Renamed(v).Ref? ==> !s.Replaced(s.Renamed(v).id)
  {
    if v.Ref? && s.Replaced(v.id) {
      var q := s.pos[v.id];
      assert s.InstrOk(v.id);
      var st := s.Stack(q.bb, q.k, s.code.ops[v.id][0].x);
      s.StackSettled(q.bb, q.k, s.code.ops[v.id][0].x, st[|st| - 1]);
      s.SettledFinal(q, st[|st| - 1]);
    }
  }

  /** An operand is a pending load now if and only if it was one at the start. */
  lemma NowPending(s: Ssa, g: Stage, v: Value, l: Id)
    requires s.Ready() && LoadPending(s, g, l)
    ensures Now(s, g, v) == Ref(l) <==> v == Ref(l)
  {
    RenamedFinal(s, v);
  }

  // ----- one instruction -----

  ghost function Next(g: Stage): Stage {
    g.(k := g.k + 1)
  }

  lemma NextDone(s: Ssa, g: Stage, l: Id)
    requires s.Ready() && g.bb in s.code.body && g.k < |s.code.body[g.bb]|
    ensures LoadDone(s, Next(g), l) <==> LoadDone(s, g, l) || (s.Replaced(l) && l == s.code.body[g.bb][g.k])
  {
    assert s.PlaceOk(g.bb, g.k) && s.InstrOk(l);
  }

  /** The lists stay as they are where the same loads and deletions are done. */
  lemma SameLists(s: Ssa, h: Heap, g: Stage, g1: Stage, cleaned: set<Block>, ws: seq<Id>, cleaned1: set<Block>, ws1: seq<Id>)
    requires s.Ready() && Lists(s, h, g, cleaned, ws)
    requires forall l {:trigger LoadDone(s, g1, l)} :: LoadDone(s, g1, l) <==> LoadDone(s, g, l)
    requires forall id {:trigger Gone(s, cleaned1, ws1, id)} :: Gone(s, cleaned1, ws1, id) <==> Gone(s, cleaned, ws, id)
    ensures Lists(s, h, g1, cleaned1, ws1)
  {
    forall v ensures ListAt(s, h, g1, cleaned1, ws1, v) {
      assert ListAt(s, h, g, cleaned, ws, v);
      if v.Ref? { assert LoadDone(s, g1, v.id) <==> LoadDone(s, g, v.id); }
    }
  }

  /** Passing an instruction that is not a replaced load changes nothing. */
  lemma PassPlain(s: Ssa, h: Heap, g: Stage, cleaned: set<Block>)
    requires s.Ready() && Underway(s, h, g, cleaned) && g.bb in s.code.body && g.k < |s.code.body[g.bb]|
    requires !s.Replaced(s.code.body[g.bb][g.k])
    ensures Underway(s, h, Next(g), cleaned)
  {
    var g1 := Next(g);
    forall id ensures OpsAt(s, h.ops, g1, id) {
      assert OpsAt(s, h.ops, g, id);
      if id in s.pos {
        forall i | 0 <= i < |h.ops[id]| ensures h.ops[id][i] == Now(s, g1, s.code.ops[id][i]) {
          var v := s.code.ops[id][i];
          if v.Ref? { NextDone(s, g, v.id); }
        }
      }
    }
    forall l ensures UsesAt(s, h, g1, l) {
      assert UsesAt(s, h, g, l);
      NextDone(s, g, l);
    }
    forall c, x ensures PhiAt(s, h.ops, g1.filled, IDLE, c, x) {
      assert PhiAt(s, h.ops, g.filled, IDLE, c, x);
    }
    forall l ensures LoadDone(s, g1, l) <==> LoadDone(s, g, l) { NextDone(s, g, l); }
    SameLists(s, h, g, g1, cleaned, [], cleaned, []);
  }

  /** Replacing a load: its use list names exactly its uses, so exactly they
      are rewritten, and the lists of the loads still to come stay exact. */
  lemma ReplaceLoad(s: Ssa, h: Heap, g: Stage, cleaned: set<Block>, h': Heap, w: Value)
    requires s.Ready() && Underway(s, h, g, cleaned) && g.bb in s.code.body && g.k < |s.code.body[g.bb]|
    requires g.bb !in g.filled
    requires s.Replaced(s.code.body[g.bb][g.k]) && w == s.Renamed(Ref(s.code.body[g.bb][g.k]))
    requires h'.body == h.body && h'.kind == h.kind
    requires var v := Ref(s.code.body[g.bb][g.k]);
             Rewritten(h.ops, h'.ops, UsesOf(h.uses, v), w) &&
             forall x :: UsesOf(h'.uses, x) == if x == w then UsesOf(h.uses, w) + UsesOf(h.uses, v) else UsesOf(h.uses, x)
    ensures Underway(s, h', Next(g), cleaned)
  {
    var id := s.code.body[g.bb][g.k];
    var g1 := Next(g);
    assert s.PlaceOk(g.bb, g.k);
    assert LoadPending(s, g, id) && UsesAt(s, h, g, id);
    RenamedFinal(s, Ref(id));
    forall u ensures OpsAt(s, h'.ops, g1, u) {
      ReplaceLoadOps(s, h, g, cleaned, h'.ops, w, u);
    }
    forall c, x ensures PhiAt(s, h'.ops, g1.filled, IDLE, c, x) {
      ReplaceLoadPhi(s, h, g, cleaned, h'.ops, w, c, x);
    }
    forall l ensures UsesAt(s, h', g1, l) {
      ReplaceLoadUses(s, h, g, cleaned, h', w, l);
    }
    forall v ensures ListAt(s, h', g1, cleaned, [], v) {
      ReplaceLoadList(s, h, g, cleaned, h', w, v);
    }
    forall u ensures Known(s, h', u) {
      assert Known(s, h, u);
    }
    forall c ensures BodyAt(s, h'.body, cleaned, c) {
      assert BodyAt(s, h.body, cleaned, c);
    }
  }

  lemma ReplaceLoadOps(s: Ssa, h: Heap, g: Stage, cleaned: set<Block>, ops': Operands, w: Value, u: Id)
    requires s.Ready() && Underway(s, h, g, cleaned) && g.bb in s.code.body && g.k < |s.code.body[g.bb]|
    requires LoadPending(s, g, s.code.body[g.bb][g.k]) && w == s.Renamed(Ref(s.code.body[g.bb][g.k]))
    requires Rewritten(h.ops, ops', UsesOf(h.uses, Ref(s.code.body[g.bb][g.k])), w)
    ensures OpsAt(s, ops', Next(g), u)
  {
    var id := s.code.body[g.bb][g.k];
    if u in s.pos {
      assert OpsAt(s, h.ops, g, u) && UsesAt(s, h, g, id);
      forall i | 0 <= i < |ops'[u]| ensures ops'[u][i] == Now(s, Next(g), s.code.ops[u][i]) {
        var v := s.code.ops[u][i];
        NowPending(s, g, v, id);
        assert HasOperand(h.ops, Use(u, i), Ref(id)) <==> h.ops[u][i] == Ref(id);
        if v.Ref? { NextDone(s, g, v.id); }
      }
    }
  }

  lemma ReplaceLoadPhi(s: Ssa, h: Heap, g: Stage, cleaned: set<Block>, ops': Operands, w: Value, c: Block, x: Slot)
    requires s.Ready() && Underway(s, h, g, cleaned) && g.bb in s.code.body && g.k < |s.code.body[g.bb]|
    requires LoadPending(s, g, s.code.body[g.bb][g.k])
    requires Rewritten(h.ops, ops', UsesOf(h.uses, Ref(s.code.body[g.bb][g.k])), w)
    ensures PhiAt(s, ops', g.filled, IDLE, c, x)
  {
    var id := s.code.body[g.bb][g.k];
    if s.HasPhi(c, x) {
      var phi := PhiOf(c, x);
      assert PhiAt(s, h.ops, g.filled, IDLE, c, x) && UsesAt(s, h, g, id);
      forall i | 0 <= i < |ops'[phi]| ensures ops'[phi][i] == h.ops[phi][i] {
        PhiOpsFinal(s, g.filled, c, x, h.ops[phi][i]);
        assert !HasOperand(h.ops, Use(phi, i), Ref(id));
      }
      assert ops'[phi] == h.ops[phi];
    }
  }

  lemma ReplaceLoadUses(s: Ssa, h: Heap, g: Stage, cleaned: set<Block>, h': Heap, w: Value, l: Id)
    requires s.Ready() && Underway(s, h, g, cleaned) && g.bb in s.code.body && g.k < |s.code.body[g.bb]|
    requires LoadPending(s, g, s.code.body[g.bb][g.k]) && (w.Ref? ==> !s.Replaced(w.id))
    requires var v := Ref(s.code.body[g.bb][g.k]);
             Rewritten(h.ops, h'.ops, UsesOf(h.uses, v), w) &&
             forall x :: UsesOf(h'.uses, x) == if x == w then UsesOf(h.uses, w) + UsesOf(h.uses, v) else UsesOf(h.uses, x)
    ensures UsesAt(s, h', Next(g), l)
  {
    var id := s.code.body[g.bb][g.k];
    NextDone(s, g, l);
    if LoadPending(s, Next(g), l) {
      assert UsesAt(s, h, g, l) && UsesAt(s, h, g, id);
      forall u: Use ensures u in UsesOf(h'.uses, Ref(l)) <==> HasOperand(h'.ops, u, Ref(l)) {
        assert u in UsesOf(h.uses, Ref(l)) <==> HasOperand(h.ops, u, Ref(l));
        assert u in UsesOf(h.uses, Ref(id)) <==> HasOperand(h.ops, u, Ref(id));
        if u.user in h'.ops && u.argNo < |h'.ops[u.user]| {
          assert h'.ops[u.user][u.argNo] ==
                 if Use(u.user, u.argNo) in UsesOf(h.uses, Ref(id)) then w else h.ops[u.user][u.argNo];
        }
      }
    }
  }

  lemma ReplaceLoadList(s: Ssa, h: Heap, g: Stage, cleaned: set<Block>, h': Heap, w: Value, v: Value)
    requires s.Ready() && Underway(s, h, g, cleaned) && g.bb in s.code.body && g.k < |s.code.body[g.bb]|
    requires LoadPending(s, g, s.code.body[g.bb][g.k]) && (w.Ref? ==> !s.Replaced(w.id))
    requires var r := Ref(s.code.body[g.bb][g.k]);
             Rewritten(h.ops, h'.ops, UsesOf(h.uses, r), w) &&
             forall x :: UsesOf(h'.uses, x) == if x == w then UsesOf(h.uses, w) + UsesOf(h.uses, r) else UsesOf(h.uses, x)
    ensures ListAt(s, h', Next(g), cleaned, [], v)
  {
    var id := s.code.body[g.bb][g.k];
    if v.Ref? { NextDone(s, g, v.id); }
    if Tracked(s, Next(g), v) {
      assert ListAt(s, h, g, cleaned, [], v) && ListAt(s, h, g, cleaned, [], Ref(id)) && UsesAt(s, h, g, id);
      assert Tracked(s, g, v) && v != Ref(id);
      forall u: Use ensures u in UsesOf(h'.uses, v) <==> HasOperand(h'.ops, u, v) && !Gone(s, cleaned, [], u.user) {
        assert u in UsesOf(h.uses, v) <==> HasOperand(h.ops, u, v) && !Gone(s, cleaned, [], u.user);
        assert u in UsesOf(h.uses, Ref(id)) <==> HasOperand(h.ops, u, Ref(id)) && !Gone(s, cleaned, [], u.user);
        assert u in UsesOf(h.uses, Ref(id)) <==> HasOperand(h.ops, u, Ref(id));
        if u.user in h'.ops && u.argNo < |h'.ops[u.user]| {
          assert h'.ops[u.user][u.argNo] ==
                 if Use(u.user, u.argNo) in UsesOf(h.uses, Ref(id)) then w else h.ops[u.user][u.argNo];
        }
      }
    }
  }

  // ----- the phi operands that a block adds -----

  lemma PairFinal(s: Ssa, p: Block, x: Slot, v: Value)
    requires s.Ready() && v in Pair(s, p, x)
    ensures v.Ref? ==> !s.Replaced(v.id)
  {
    var st := AtEnd(s, p, x);
    s.StackSettled(p, |s.code.body[p]|, x, st[|st| - 1]);
    s.SettledFinal(Place(p, |s.code.body[p]|), st[|st| - 1]);
  }

  /** The use lists after `added` has been appended to the operands of `phi`. */
  ghost predicate Appended(h: Heap, h': Heap, phi: Id, added: seq<Value>)
    requires phi in h.ops
  {
    && h'.body == h.body && h'.kind == h.kind
    && h'.ops == h.ops[phi := h.ops[phi] + added]
    && forall x, u: Use {:trigger u in UsesOf(h'.uses, x)} ::
         u in UsesOf(h'.uses, x) <==>
           u in UsesOf(h.uses, x) ||
           (u.user == phi && |h.ops[phi]| <= u.argNo < |h.ops[phi]| + |added| && added[u.argNo - |h.ops[phi]|] == x)
  }

  lemma PairAppended(h: Heap, h': Heap, phi: Id, v: Value, p: Block)
    requires phi in h.ops && h'.body == h.body && h'.kind == h.kind
    requires h'.ops == h.ops[phi := h.ops[phi] + [v, Label(p)]]
    requires forall x, u: Use {:trigger u in UsesOf(h'.uses, x)} :: u in UsesOf(h'.uses, x) <==>
               u in UsesOf(h.uses, x) ||
               (x == v && u == Use(phi, |h.ops[phi]|)) || (x == Label(p) && u == Use(phi, |h.ops[phi]| + 1))
    ensures Appended(h, h', phi, [v, Label(p)])
  {
  }

  lemma AppendedUses(s: Ssa, h: Heap, h': Heap, g: Stage, phi: Id, added: seq<Value>, l: Id)
    requires s.Ready() && phi in h.ops && Appended(h, h', phi, added) && UsesAt(s, h, g, l)
    requires forall v :: v in added && v.Ref? ==> !s.Replaced(v.id)
    ensures UsesAt(s, h', g, l)
  {
    if LoadPending(s, g, l) {
      forall u: Use ensures u in UsesOf(h'.uses, Ref(l)) <==> HasOperand(h'.ops, u, Ref(l)) {
        assert u in UsesOf(h.uses, Ref(l)) <==> HasOperand(h.ops, u, Ref(l));
        if u.user == phi && |h.ops[phi]| <= u.argNo < |h.ops[phi]| + |added| {
          assert added[u.argNo - |h.ops[phi]|] in added;
        }
      }
    }
  }

  lemma AppendedList(s: Ssa, h: Heap, h': Heap, g: Stage, cleaned: set<Block>, phi: Id, added: seq<Value>, v: Value)
    requires s.Ready() && phi in h.ops && phi !in s.pos && Appended(h, h', phi, added) && ListAt(s, h, g, cleaned, [], v)
    ensures ListAt(s, h', g, cleaned, [], v)
  {
    if Tracked(s, g, v) {
      forall u: Use ensures u in UsesOf(h'.uses, v) <==> HasOperand(h'.ops, u, v) && !Gone(s, cleaned, [], u.user) {
        assert u in UsesOf(h.uses, v) <==> HasOperand(h.ops, u, v) && !Gone(s, cleaned, [], u.user);
      }
    }
  }

  /** Filling one phi. */
  lemma FillOne(s: Ssa, h: Heap, h': Heap, g: Stage, cleaned: set<Block>, fl: Filling, x0: Slot)
    requires s.Ready() && UnderwayIn(s, h, g, cleaned, fl)
    requires s.HasPhi(fl.c, x0) && x0 !in fl.done && PhiOf(fl.c, x0) in h.ops
    requires Appended(h, h', PhiOf(fl.c, x0), Pair(s, fl.p, x0))
    ensures UnderwayIn(s, h', g, cleaned, fl.(done := fl.done + [x0]))
  {
    var phi := PhiOf(fl.c, x0);
    var fl1 := fl.(done := fl.done + [x0]);
    forall v | v in Pair(s, fl.p, x0) && v.Ref? ensures !s.Replaced(v.id) {
      PairFinal(s, fl.p, x0, v);
    }
    forall l ensures UsesAt(s, h', g, l) {
      assert UsesAt(s, h, g, l);
      AppendedUses(s, h, h', g, phi, Pair(s, fl.p, x0), l);
    }
    assert s.InstrOk(phi);
    forall v ensures ListAt(s, h', g, cleaned, [], v) {
      assert ListAt(s, h, g, cleaned, [], v);
      AppendedList(s, h, h', g, cleaned, phi, Pair(s, fl.p, x0), v);
    }
    forall id ensures OpsAt(s, h'.ops, g, id) {
      assert OpsAt(s, h.ops, g, id) && s.InstrOk(id);
    }
    forall c, x ensures PhiAt(s, h'.ops, g.filled, fl1, c, x) {
      assert PhiAt(s, h.ops, g.filled, fl, c, x);
    }
    forall id ensures Known(s, h', id) {
      assert Known(s, h, id);
    }
    forall c ensures BodyAt(s, h'.body, cleaned, c) {
      assert BodyAt(s, h.body, cleaned, c);
    }
  }

  /** All phis of one successor filled. */
  lemma FillNext(s: Ssa, h: Heap, g: Stage, cleaned: set<Block>, fl: Filling)
    requires s.Ready() && UnderwayIn(s, h, g, cleaned, fl)
    requires fl.c in s.phis && fl.done == s.phis[fl.c]
    ensures UnderwayIn(s, h, g, cleaned, Filling(fl.p, fl.ss + [fl.c], 0, []))
  {
    var fl1 := Filling(fl.p, fl.ss + [fl.c], 0, []);
    forall c, x ensures PhiAt(s, h.ops, g.filled, fl1, c, x) {
      assert PhiAt(s, h.ops, g.filled, fl, c, x);
    }
  }

  lemma FillStart(s: Ssa, h: Heap, g: Stage, cleaned: set<Block>, fl: Filling, c: Block)
    requires s.Ready() && UnderwayIn(s, h, g, cleaned, fl) && fl.done == []
    ensures UnderwayIn(s, h, g, cleaned, fl.(c := c))
  {
    var fl1 := fl.(c := c);
    forall d, x ensures PhiAt(s, h.ops, g.filled, fl1, d, x) {
      assert PhiAt(s, h.ops, g.filled, fl, d, x);
    }
  }

  lemma FillBegin(s: Ssa, h: Heap, g: Stage, cleaned: set<Block>, p: Block)
    requires s.Ready() && Underway(s, h, g, cleaned)
    ensures UnderwayIn(s, h, g, cleaned, Filling(p, [], 0, []))
  {
    var fl1 := Filling(p, [], 0, []);
    forall d, x ensures PhiAt(s, h.ops, g.filled, fl1, d, x) {
      assert PhiAt(s, h.ops, g.filled, IDLE, d, x);
    }
  }

  /** The instructions of the block and its outgoing phi operands are done. */
  lemma FillEnd(s: Ssa, h: Heap, g: Stage, cleaned: set<Block>)
    requires s.Ready() && g.bb in s.code.body && g.k == |s.code.body[g.bb]| && g.bb in s.g.succs
    requires UnderwayIn(s, h, g, cleaned, Filling(g.bb, s.g.succs[g.bb], 0, []))
    ensures Underway(s, h, Stage(g.filled + [g.bb], g.bb, 0), cleaned)
  {
    var g1 := Stage(g.filled + [g.bb], g.bb, 0);
    forall l ensures LoadDone(s, g, l) <==> LoadDone(s, g1, l) {
      assert s.InstrOk(l);
    }
    forall id ensures OpsAt(s, h.ops, g1, id) {
      assert OpsAt(s, h.ops, g, id);
    }
    forall l ensures UsesAt(s, h, g1, l) {
      assert UsesAt(s, h, g, l);
    }
    forall c, x ensures PhiAt(s, h.ops, g1.filled, IDLE, c, x) {
      assert PhiAt(s, h.ops, g.filled, Filling(g.bb, s.g.succs[g.bb], 0, []), c, x);
    }
    SameLists(s, h, g, g1, cleaned, [], cleaned, []);
  }

  /** The block under way does not matter until its first instruction is passed. */
  lemma StageStarts(s: Ssa, h: Heap, filled: seq<Block>, b: Block, c: Block, cleaned: set<Block>)
    requires s.Ready() && Underway(s, h, Stage(filled, b, 0), cleaned)
    ensures Underway(s, h, Stage(filled, c, 0), cleaned)
  {
    var g, g1 := Stage(filled, b, 0), Stage(filled, c, 0);
    forall l ensures LoadDone(s, g, l) <==> LoadDone(s, g1, l) {
    }
    forall id ensures OpsAt(s, h.ops, g1, id) {
      assert OpsAt(s, h.ops, g, id);
    }
    forall l ensures UsesAt(s, h, g1, l) {
      assert UsesAt(s, h, g, l);
    }
    forall d, x ensures PhiAt(s, h.ops, g1.filled, IDLE, d, x) {
      assert PhiAt(s, h.ops, g.filled, IDLE, d, x);
    }
    SameLists(s, h, g, g1, cleaned, [], cleaned, []);
  }

  // ----- deleting what has been replaced -----

  ghost function Removed(ids: seq<Id>, ws: seq<Id>): seq<Id> {
    if ids == [] then []
    else if ids[0] in ws then Removed(ids[1..], ws)
    else [ids[0]] + Removed(ids[1..], ws)
  }

  lemma {:induction false} RemovedOne(ids: seq<Id>, ws: seq<Id>, w: Id)
    ensures Without(Removed(ids, ws), w) == Removed(ids, ws + [w])
  {
    if ids != [] {
      RemovedOne(ids[1..], ws, w);
      if ids[0] !in ws {
        var r := [ids[0]] + Removed(ids[1..], ws);
        assert r[1..] == Removed(ids[1..], ws);
      }
    }
  }

  lemma {:induction false} RemovedNone(ids: seq<Id>, ws: seq<Id>)
    requires forall id :: id in ids ==> id !in ws
    ensures Removed(ids, ws) == ids
  {
    if ids != [] {
      RemovedNone(ids[1..], ws);
    }
  }

  lemma {:induction false} RemovedJoin(ids: seq<Id>, more: seq<Id>, ws: seq<Id>)
    ensures Removed(ids + more, ws) == Removed(ids, ws) + Removed(more, ws)
  {
    if ids == [] {
      assert ids + more == more;
    } else {
      assert (ids + more)[1..] == ids[1..] + more;
      RemovedJoin(ids[1..], more, ws);
    }
  }

  lemma {:induction false} RemovedIsCleaned(s: Ssa, ids: seq<Id>, ws: seq<Id>)
    requires s.Ready()
    requires forall id :: id in ids ==> (id in ws <==> s.Replaced(id) || s.code.SlotStore(id))
    ensures Removed(ids, ws) == CleanedOf(s, ids)
  {
    if ids != [] {
      RemovedIsCleaned(s, ids[1..], ws);
    }
  }

  /** Deleting an instruction of a finished block touches no pending use list. */
  lemma DeleteKeeps(s: Ssa, h: Heap, h': Heap, g: Stage, id: Id)
    requires s.Ready() && OperandsIn(s, h, g, IDLE)
    requires id in s.pos && s.pos[id].bb in g.filled
    requires forall d {:trigger s.t.Above(s.pos[id].bb, d)} ::
               s.pos[id].bb in s.t.up && s.t.Above(s.pos[id].bb, d) ==> d in g.filled
    requires h'.kind == h.kind && h'.ops == h.ops && id in h.ops
    requires forall v, u: Use {:trigger u in UsesOf(h'.uses, v)} ::
               u in UsesOf(h'.uses, v) <==> u in UsesOf(h.uses, v) && !(v in h.ops[id] && u.user == id)
    ensures OperandsIn(s, h', g, IDLE)
  {
    forall u ensures OpsAt(s, h'.ops, g, u) && Known(s, h', u) {
      assert OpsAt(s, h.ops, g, u) && Known(s, h, u);
    }
    forall c, x ensures PhiAt(s, h'.ops, g.filled, IDLE, c, x) {
      assert PhiAt(s, h.ops, g.filled, IDLE, c, x);
    }
    forall l ensures UsesAt(s, h', g, l) {
      if LoadPending(s, g, l) {
        assert UsesAt(s, h, g, l);
        DeletedHoldsNoPending(s, h, g, id, l);
        forall u: Use ensures u in UsesOf(h'.uses, Ref(l)) <==> HasOperand(h'.ops, u, Ref(l)) {
          assert u in UsesOf(h.uses, Ref(l)) <==> HasOperand(h.ops, u, Ref(l));
        }
      }
    }
  }

  /** A deleted instruction leaves the lists of all its operands. */
  lemma DeleteLists(s: Ssa, h: Heap, h': Heap, g: Stage, cleaned: set<Block>, ws: seq<Id>, id: Id)
    requires s.Ready() && Lists(s, h, g, cleaned, ws) && id in h.ops && h'.ops == h.ops
    requires forall v, u: Use {:trigger u in UsesOf(h'.uses, v)} ::
               u in UsesOf(h'.uses, v) <==> u in UsesOf(h.uses, v) && !(v in h.ops[id] && u.user == id)
    ensures Lists(s, h', g, cleaned, ws + [id])
  {
    var ws1 := ws + [id];
    forall v ensures ListAt(s, h', g, cleaned, ws1, v) {
      assert ListAt(s, h, g, cleaned, ws, v);
      if Tracked(s, g, v) {
        forall u: Use ensures u in UsesOf(h'.uses, v) <==> HasOperand(h'.ops, u, v) && !Gone(s, cleaned, ws1, u.user) {
          assert u in UsesOf(h.uses, v) <==> HasOperand(h.ops, u, v) && !Gone(s, cleaned, ws, u.user);
        }
      }
    }
  }

  lemma DeletedHoldsNoPending(s: Ssa, h: Heap, g: Stage, id: Id, l: Id)
    requires s.Ready() && OpsAt(s, h.ops, g, id) && id in h.ops && LoadPending(s, g, l)
    requires id in s.pos && s.pos[id].bb in g.filled
    requires forall d {:trigger s.t.Above(s.pos[id].bb, d)} ::
               s.pos[id].bb in s.t.up && s.t.Above(s.pos[id].bb, d) ==> d in g.filled
    ensures Ref(l) !in h.ops[id]
  {
    assert s.InstrOk(id);
    if Ref(l) in h.ops[id] {
      var i :| 0 <= i < |h.ops[id]| && h.ops[id][i] == Ref(l);
      NowPending(s, g, s.code.ops[id][i], l);
    }
  }
}
