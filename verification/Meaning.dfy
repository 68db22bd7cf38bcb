/** Running a function block by block, and the proof that a function in memory
    form and its SSA form run alike. */
module Meanings {
  import opened Graphs
  import opened IdomSweeps
  import opened IR
  import opened SsaForm

  /** What a register or slot holds; a slot holds `Undef` until it is stored to. */
  datatype Word = Undef | Num(n: int)

  /** An instruction with an effect or a computed result, and its arguments. */
  datatype Event = Event(kind: Kind, args: seq<Word>)

  /** What the function runs on. Arithmetic, calls, input, output, and memory
      other than promoted slots are one uninterpreted function of the history;
      `leaf` gives the values of constants, arguments and addresses. */
  datatype Machine = Machine(leaf: Value -> Word, result: seq<Event> -> Word, truth: Word -> bool)

  type Regs = map<Id, Word>
  type Memory = map<Slot, Word>

  function Read(regs: Regs, id: Id): Word {
    if id in regs then regs[id] else Undef
  }

  function Held(mem: Memory, x: Slot): Word {
    if x in mem then mem[x] else Undef
  }

  function Eval(m: Machine, regs: Regs, v: Value): Word {
    if v.Ref? then Read(regs, v.id) else m.leaf(v)
  }

  function EvalAll(m: Machine, regs: Regs, vs: seq<Value>): (r: seq<Word>)
    ensures |r| == |vs| && forall i :: 0 <= i < |vs| ==> r[i] == Eval(m, regs, vs[i])
  {
    seq(|vs|, i requires 0 <= i < |vs| => Eval(m, regs, vs[i]))
  }

  datatype Outcome =
    | Goto(next: Block, regs: Regs, mem: Memory, trace: seq<Event>)
    | Return(vals: seq<Word>, trace: seq<Event>)
    | Stuck(trace: seq<Event>)

  /** Runs the instructions of a block after its phis. */
  function Run(m: Machine, code: Code, ids: seq<Id>, regs: Regs, mem: Memory, trace: seq<Event>): Outcome {
    if ids == [] then Stuck(trace)
    else
      var id, rest := ids[0], ids[1..];
      if id !in code.kind || id !in code.ops then Stuck(trace)
      else
        var ops := code.ops[id];
        match code.kind[id]
        case Phi => Run(m, code, rest, regs, mem, trace)
        case Alloca(_, _) => Run(m, code, rest, regs, mem, trace)
        case Br =>
          if |ops| == 1 && ops[0].Label? then Goto(ops[0].bb, regs, mem, trace) else Stuck(trace)
        case CondBr =>
          if |ops| == 3 && ops[1].Label? && ops[2].Label? then
            Goto(if m.truth(Eval(m, regs, ops[0])) then ops[1].bb else ops[2].bb, regs, mem, trace)
          else Stuck(trace)
        case Ret => Return(EvalAll(m, regs, ops), trace)
        case _ =>
          if code.SlotLoad(id) then
            Run(m, code, rest, regs[id := Held(mem, ops[0].x)], mem, trace)
          else if code.SlotStore(id) then
            Run(m, code, rest, regs, mem[ops[1].x := Eval(m, regs, ops[0])], trace)
          else
            var trace' := trace + [Event(code.kind[id], EvalAll(m, regs, ops))];
            Run(m, code, rest, regs[id := m.result(trace')], mem, trace')
  }

  /** The value that a phi pairs with a predecessor. */
  function Incoming(ops: seq<Value>, prev: Block): seq<Value> {
    if |ops| < 2 then []
    else if ops[1] == Label(prev) then [ops[0]]
    else Incoming(ops[2..], prev)
  }

  function PhiWord(m: Machine, code: Code, regs: Regs, id: Id, prev: Block): Word {
    var vs := if id in code.ops then Incoming(code.ops[id], prev) else [];
    if vs == [] then Undef else Eval(m, regs, vs[0])
  }

  /** All phis of a block take their values at once, on entry. */
  function Enter(m: Machine, code: Code, ids: seq<Id>, prev: Block, regs: Regs): Regs {
    map id | id in regs.Keys + (set x | x in ids && code.Is(x, Phi)) ::
      if id in ids && code.Is(id, Phi) then PhiWord(m, code, regs, id, prev) else regs[id]
  }

  datatype State =
    | At(bb: Block, regs: Regs, mem: Memory, trace: seq<Event>)
    | Done(vals: seq<Word>, trace: seq<Event>)
    | Broken(trace: seq<Event>)

  /** One block: its phis have been entered. */
  function Step(m: Machine, code: Code, s: State): State {
    if !s.At? then s
    else if s.bb !in code.body then Broken(s.trace)
    else
      match Run(m, code, code.body[s.bb], s.regs, s.mem, s.trace)
      case Return(vals, trace) => Done(vals, trace)
      case Stuck(trace) => Broken(trace)
      case Goto(next, regs, mem, trace) =>
        At(next, if next in code.body then Enter(m, code, code.body[next], s.bb, regs) else regs, mem, trace)
  }

  function Steps(m: Machine, code: Code, s: State, n: nat): State {
    if n == 0 then s else Step(m, code, Steps(m, code, s, n - 1))
  }

  function Start(entry: Block): State {
    At(entry, map[], map[], [])
  }

  /** Same block, same events so far, same returned values. */
  ghost predicate Alike(s: State, s': State) {
    match s
    case At(bb, _, _, trace) => s'.At? && s'.bb == bb && s'.trace == trace
    case Done(vals, trace) => s' == s
    case Broken(trace) => s' == s
  }

  // ----- the SSA form -----

  /** What stays of a block: renaming deletes the loads it has replaced and the
      stores to slots; scalar allocas go last. */
  ghost predicate Kept(s: Ssa, id: Id)
    requires s.Ready()
  {
    !s.Replaced(id) && !s.code.SlotStore(id) && !(id in s.code.kind && s.code.kind[id].Alloca? && s.code.kind[id].scalar)
  }

  ghost function KeptOf(s: Ssa, ids: seq<Id>): seq<Id>
    requires s.Ready()
  {
    if ids == [] then []
    else if Kept(s, ids[0]) then [ids[0]] + KeptOf(s, ids[1..])
    else KeptOf(s, ids[1..])
  }

  function PhiIds(b: Block, xs: seq<Slot>): (r: seq<Id>)
    ensures |r| == |xs| && forall i :: 0 <= i < |xs| ==> r[i] == PhiOf(b, xs[i])
  {
    seq(|xs|, i requires 0 <= i < |xs| => PhiOf(b, xs[i]))
  }

  /** The operands of an original instruction, renamed. */
  ghost predicate OpsRenamed(s: Ssa, out: Code, id: Id)
    requires s.Ready()
  {
    id in s.pos && id in s.code.ops ==>
      && id in out.ops && |out.ops[id]| == |s.code.ops[id]|
      && forall i :: 0 <= i < |s.code.ops[id]| ==> out.ops[id][i] == s.Renamed(s.code.ops[id][i])
  }

  /** A phi receives, from each predecessor that has a definition, the one in
      force at its end. */
  ghost predicate PhiFilled(s: Ssa, out: Code, b: Block, x: Slot, p: Block)
    requires Fit(s)
  {
    b in s.g.blocks && p in s.g.blocks && s.HasPhi(b, x) && s.g.Edge(p, b) ==>
      && PhiOf(b, x) in out.ops
      && var st := AtEnd(s, p, x);
         Incoming(out.ops[PhiOf(b, x)], p) == if st == [] then [] else [st[|st| - 1]]
  }

  ghost predicate BodyRenamed(s: Ssa, out: Code, b: Block)
    requires Fit(s)
  {
    b in s.g.blocks ==>
      && b in s.phis && b in out.body
      && out.body[b] == PhiIds(b, s.phis[b]) + KeptOf(s, s.code.body[b])
  }

  ghost predicate KindKept(s: Ssa, out: Code, id: Id) {
    (id in out.kind <==> id in s.code.kind || (id.PhiOf? && s.HasPhi(id.bb, id.lval))) &&
    (id.PhiOf? && id in out.kind ==> id in out.ops) &&
    (id in out.kind ==> out.kind[id] == if id.PhiOf? then Phi else if id in s.code.kind then s.code.kind[id] else Phi)
  }

  ghost predicate IsSsaForm(s: Ssa, out: Code)
    requires Fit(s)
  {
    && out.body.Keys == s.code.body.Keys
    && (forall b {:trigger BodyRenamed(s, out, b)} :: BodyRenamed(s, out, b))
    && (forall id {:trigger KindKept(s, out, id)} :: KindKept(s, out, id))
    && (forall id {:trigger OpsRenamed(s, out, id)} :: OpsRenamed(s, out, id))
    && (forall b, x, p {:trigger PhiFilled(s, out, b, x, p)} :: PhiFilled(s, out, b, x, p))
  }

  // ----- the simulation -----

  /** At place `p`: a register computed before holds what its renamed value
      holds in the SSA run ... */
  ghost predicate RegAgrees(s: Ssa, m: Machine, p: Place, regs: Regs, regs': Regs, id: Id)
    requires s.Ready()
  {
    id in s.pos && s.code.IsValue(id) && s.Before(s.pos[id], p) ==> Read(regs, id) == Eval(m, regs', s.Renamed(Ref(id)))
  }

  /** ... and a slot holds what the top of its rename stack holds there. */
  ghost predicate SlotAgrees(s: Ssa, m: Machine, p: Place, mem: Memory, regs': Regs, x: Slot)
    requires s.Ready() && p.bb in s.code.body && p.k <= |s.code.body[p.bb]|
  {
    var st := s.Stack(p.bb, p.k, x);
    Held(mem, x) == if st == [] then Undef else Eval(m, regs', st[|st| - 1])
  }

  ghost predicate Agree(s: Ssa, m: Machine, p: Place, regs: Regs, mem: Memory, regs': Regs)
    requires s.Ready() && p.bb in s.code.body && p.k <= |s.code.body[p.bb]|
  {
    && (forall id {:trigger RegAgrees(s, m, p, regs, regs', id)} :: RegAgrees(s, m, p, regs, regs', id))
    && (forall x {:trigger SlotAgrees(s, m, p, mem, regs', x)} :: SlotAgrees(s, m, p, mem, regs', x))
  }

  /** The renamed value of a register that is available at `p` is settled there. */
  lemma RenamedRefSettled(s: Ssa, p: Place, id: Id)
    requires s.Ready() && id in s.pos && s.Before(s.pos[id], p)
    ensures s.Settled(s.pos[id], s.Renamed(Ref(id))) || s.Renamed(Ref(id)) == Ref(id)
    ensures s.Settled(p, s.Renamed(Ref(id)))
  {
    assert s.InstrOk(id);
    if s.Replaced(id) {
      var q := s.pos[id];
      var st := s.Stack(q.bb, q.k, s.code.ops[id][0].x);
      s.StackSettled(q.bb, q.k, s.code.ops[id][0].x, st[|st| - 1]);
      s.BeforeIsHigher(q, p);
      s.SettledLater(q, p, st[|st| - 1]);
    }
  }

  lemma OneStepStack(s: Ssa, b: Block, k: nat, x: Slot)
    requires s.Ready() && b in s.code.body && k < |s.code.body[b]|
    ensures s.Stack(b, k + 1, x) ==
            if s.code.StoresTo(s.code.body[b][k], x)
            then s.Stack(b, k, x) + [s.RenamedAt(Place(b, k), s.code.ops[s.code.body[b][k]][0])]
            else s.Stack(b, k, x)
  {
  }

  /** The registers available after instruction `k` are those before it, and its own. */
  lemma AvailableNext(s: Ssa, b: Block, k: nat, id: Id)
    requires s.Ready() && b in s.code.body && k < |s.code.body[b]| && id in s.pos
    requires s.Before(s.pos[id], Place(b, k + 1))
    ensures s.Before(s.pos[id], Place(b, k)) || id == s.code.body[b][k]
  {
    assert s.PlaceOk(b, k) && s.InstrOk(id);
  }

  /** An instruction that assigns the same word to its register in both runs. */
  lemma AgreeAssign(s: Ssa, m: Machine, b: Block, k: nat, regs: Regs, mem: Memory, regs': Regs, w: Word)
    requires s.Ready() && b in s.code.body && k < |s.code.body[b]|
    requires !s.code.SlotStore(s.code.body[b][k]) && !s.Replaced(s.code.body[b][k])
    requires Agree(s, m, Place(b, k), regs, mem, regs')
    ensures Agree(s, m, Place(b, k + 1), regs[s.code.body[b][k] := w], mem, regs'[s.code.body[b][k] := w])
  {
    var id := s.code.body[b][k];
    var p, q := Place(b, k), Place(b, k + 1);
    assert s.PlaceOk(b, k) && s.InstrOk(id);
    var regs1, regs1' := regs[id := w], regs'[id := w];
    forall r ensures RegAgrees(s, m, q, regs1, regs1', r) {
      if r in s.pos && s.code.IsValue(r) && s.Before(s.pos[r], q) {
        AvailableNext(s, b, k, r);
        if r != id {
          assert RegAgrees(s, m, p, regs, regs', r);
          RenamedRefSettled(s, p, r);
        }
      }
    }
    forall x ensures SlotAgrees(s, m, q, mem, regs1', x) {
      assert SlotAgrees(s, m, p, mem, regs', x);
      OneStepStack(s, b, k, x);
      var st := s.Stack(b, k, x);
      if st != [] { s.StackSettled(b, k, x, st[|st| - 1]); }
    }
  }

  /** A load that renaming deletes: its register gets what the slot holds. */
  lemma AgreeReplaced(s: Ssa, m: Machine, b: Block, k: nat, regs: Regs, mem: Memory, regs': Regs)
    requires s.Ready() && b in s.code.body && k < |s.code.body[b]|
    requires s.Replaced(s.code.body[b][k])
    requires Agree(s, m, Place(b, k), regs, mem, regs')
    ensures var id := s.code.body[b][k];
            Agree(s, m, Place(b, k + 1), regs[id := Held(mem, s.code.ops[id][0].x)], mem, regs')
  {
    var id := s.code.body[b][k];
    var p, q := Place(b, k), Place(b, k + 1);
    assert s.PlaceOk(b, k) && s.InstrOk(id);
    var x0 := s.code.ops[id][0].x;
    assert SlotAgrees(s, m, p, mem, regs', x0);
    var regs1 := regs[id := Held(mem, x0)];
    forall r ensures RegAgrees(s, m, q, regs1, regs', r) {
      if r in s.pos && s.code.IsValue(r) && s.Before(s.pos[r], q) {
        AvailableNext(s, b, k, r);
        if r != id { assert RegAgrees(s, m, p, regs, regs', r); }
      }
    }
    forall x ensures SlotAgrees(s, m, q, mem, regs', x) {
      assert SlotAgrees(s, m, p, mem, regs', x);
      OneStepStack(s, b, k, x);
    }
  }

  /** A store that renaming deletes: the pushed value is the stored one. */
  lemma AgreeStore(s: Ssa, m: Machine, b: Block, k: nat, regs: Regs, mem: Memory, regs': Regs)
    requires s.Ready() && b in s.code.body && k < |s.code.body[b]|
    requires s.code.SlotStore(s.code.body[b][k])
    requires Agree(s, m, Place(b, k), regs, mem, regs')
    ensures var ops := s.code.ops[s.code.body[b][k]];
            Agree(s, m, Place(b, k + 1), regs, mem[ops[1].x := Eval(m, regs, ops[0])], regs')
  {
    var id := s.code.body[b][k];
    var p, q := Place(b, k), Place(b, k + 1);
    assert s.PlaceOk(b, k) && s.InstrOk(id);
    var ops := s.code.ops[id];
    assert s.OperandOk(p, ops[0]);
    if ops[0].Ref? { assert RegAgrees(s, m, p, regs, regs', ops[0].id); }
    forall r ensures RegAgrees(s, m, q, regs, regs', r) {
      if r in s.pos && s.code.IsValue(r) && s.Before(s.pos[r], q) {
        AvailableNext(s, b, k, r);
        assert RegAgrees(s, m, p, regs, regs', r);
      }
    }
    var mem1 := mem[ops[1].x := Eval(m, regs, ops[0])];
    forall x ensures SlotAgrees(s, m, q, mem1, regs', x) {
      assert SlotAgrees(s, m, p, mem, regs', x);
      OneStepStack(s, b, k, x);
    }
  }

  /** An instruction that assigns no register and stores to no slot. */
  lemma AgreeSkip(s: Ssa, m: Machine, b: Block, k: nat, regs: Regs, mem: Memory, regs': Regs)
    requires s.Ready() && b in s.code.body && k < |s.code.body[b]|
    requires !s.code.SlotStore(s.code.body[b][k]) && !s.code.IsValue(s.code.body[b][k])
    requires Agree(s, m, Place(b, k), regs, mem, regs')
    ensures Agree(s, m, Place(b, k + 1), regs, mem, regs')
  {
    var p, q := Place(b, k), Place(b, k + 1);
    forall r ensures RegAgrees(s, m, q, regs, regs', r) {
      if r in s.pos && s.code.IsValue(r) && s.Before(s.pos[r], q) {
        AvailableNext(s, b, k, r);
        assert RegAgrees(s, m, p, regs, regs', r);
      }
    }
    forall x ensures SlotAgrees(s, m, q, mem, regs', x) {
      assert SlotAgrees(s, m, p, mem, regs', x);
      OneStepStack(s, b, k, x);
    }
  }

  /** The arguments of an instruction evaluate alike. */
  lemma ArgsAgree(s: Ssa, m: Machine, out: Code, b: Block, k: nat, regs: Regs, mem: Memory, regs': Regs)
    requires s.Ready() && b in s.code.body && k < |s.code.body[b]|
    requires OpsRenamed(s, out, s.code.body[b][k])
    requires Agree(s, m, Place(b, k), regs, mem, regs')
    ensures var id := s.code.body[b][k];
            id in s.code.ops && id in out.ops && |out.ops[id]| == |s.code.ops[id]|
    ensures var id := s.code.body[b][k];
            forall i :: 0 <= i < |s.code.ops[id]| ==>
              Eval(m, regs, s.code.ops[id][i]) == Eval(m, regs', out.ops[id][i]) &&
              (!s.code.ops[id][i].Ref? ==> out.ops[id][i] == s.code.ops[id][i])
  {
    var id := s.code.body[b][k];
    assert s.PlaceOk(b, k) && s.InstrOk(id);
    forall i | 0 <= i < |s.code.ops[id]|
      ensures Eval(m, regs, s.code.ops[id][i]) == Eval(m, regs', out.ops[id][i])
    {
      var v := s.code.ops[id][i];
      assert s.OperandOk(Place(b, k), v);
      if v.Ref? { assert RegAgrees(s, m, Place(b, k), regs, regs', v.id); }
    }
  }

  ghost predicate OutcomeAlike(s: Ssa, m: Machine, b: Block, o: Outcome, o': Outcome)
    requires s.Ready() && b in s.code.body
  {
    match o
    case Stuck(trace) => o' == o
    case Return(vals, trace) => o' == o
    case Goto(next, regs, mem, trace) =>
      && o'.Goto? && o'.next == next && o'.trace == trace && o'.mem == map[]
      && s.g.Edge(b, next)
      && Agree(s, m, Place(b, |s.code.body[b]|), regs, mem, o'.regs)
  }

  // ----- running a block in both forms -----

  lemma {:induction false} RunAgree(s: Ssa, m: Machine, out: Code, b: Block, k: nat,
                                    regs: Regs, mem: Memory, regs': Regs, trace: seq<Event>)
    requires Fit(s) && IsSsaForm(s, out) && b in s.code.body && k <= |s.code.body[b]|
    requires Agree(s, m, Place(b, k), regs, mem, regs')
    ensures OutcomeAlike(s, m, b,
                         Run(m, s.code, s.code.body[b][k..], regs, mem, trace),
                         Run(m, out, KeptOf(s, s.code.body[b][k..]), regs', map[], trace))
    decreases |s.code.body[b]| - k
  {
    var ids := s.code.body[b][k..];
    if k < |s.code.body[b]| {
      var id := s.code.body[b][k];
      assert s.PlaceOk(b, k) && s.InstrOk(id) && KindKept(s, out, id) && OpsRenamed(s, out, id);
      assert ids[0] == id && ids[1..] == s.code.body[b][k + 1..];
      ArgsAgree(s, m, out, b, k, regs, mem, regs');
      var ops := s.code.ops[id];
      if s.Replaced(id) {
        AgreeReplaced(s, m, b, k, regs, mem, regs');
        RunAgree(s, m, out, b, k + 1, regs[id := Held(mem, ops[0].x)], mem, regs', trace);
      } else if s.code.SlotStore(id) {
        AgreeStore(s, m, b, k, regs, mem, regs');
        RunAgree(s, m, out, b, k + 1, regs, mem[ops[1].x := Eval(m, regs, ops[0])], regs', trace);
      } else if s.code.kind[id].Alloca? {
        AgreeSkip(s, m, b, k, regs, mem, regs');
        RunAgree(s, m, out, b, k + 1, regs, mem, regs', trace);
      } else if s.code.IsTerminator(id) {
        AgreeSkip(s, m, b, k, regs, mem, regs');
        TerminatorAgrees(s, m, out, b, k, regs, mem, regs', trace);
      } else {
        PlainAgrees(s, m, out, b, k, regs, mem, regs', trace);
        var (w, trace') := PlainResult(s.code, m, id, regs, mem, trace);
        AgreeAssign(s, m, b, k, regs, mem, regs', w);
        RunAgree(s, m, out, b, k + 1, regs[id := w], mem, regs'[id := w], trace');
      }
    }
  }

  /** Renaming turns no other memory access into an access to a slot. */
  lemma SlotAccessKept(s: Ssa, out: Code, id: Id)
    requires s.Ready() && id in s.pos && KindKept(s, out, id) && OpsRenamed(s, out, id)
    ensures id in s.code.kind && id in s.code.ops && id in out.kind && id in out.ops && out.kind[id] == s.code.kind[id]
    ensures out.SlotLoad(id) <==> s.code.SlotLoad(id)
    ensures out.SlotStore(id) <==> s.code.SlotStore(id)
    ensures s.code.SlotLoad(id) ==> out.ops[id][0] == s.code.ops[id][0]
  {
    assert s.InstrOk(id);
  }

  lemma PlainAgrees(s: Ssa, m: Machine, out: Code, b: Block, k: nat,
                    regs: Regs, mem: Memory, regs': Regs, trace: seq<Event>)
    requires Fit(s) && IsSsaForm(s, out) && b in s.code.body && k < |s.code.body[b]|
    requires Agree(s, m, Place(b, k), regs, mem, regs')
    requires s.code.body[b][k] in s.code.kind && s.code.body[b][k] in s.code.ops
    requires var id := s.code.body[b][k];
             !s.Replaced(id) && !s.code.SlotStore(id) && !s.code.IsTerminator(id) && !s.code.kind[id].Alloca?
    ensures var id := s.code.body[b][k];
            var (w, trace') := PlainResult(s.code, m, id, regs, mem, trace);
            && Run(m, s.code, s.code.body[b][k..], regs, mem, trace) ==
               Run(m, s.code, s.code.body[b][k + 1..], regs[id := w], mem, trace')
            && Run(m, out, KeptOf(s, s.code.body[b][k..]), regs', map[], trace) ==
               Run(m, out, KeptOf(s, s.code.body[b][k + 1..]), regs'[id := w], map[], trace')
  {
    var ids := s.code.body[b][k..];
    var id := s.code.body[b][k];
    assert s.PlaceOk(b, k) && s.InstrOk(id) && KindKept(s, out, id) && OpsRenamed(s, out, id);
    assert ids[0] == id && ids[1..] == s.code.body[b][k + 1..];
    var rest := KeptOf(s, ids[1..]);
    assert KeptOf(s, ids) == [id] + rest && ([id] + rest)[1..] == rest;
    SlotAccessKept(s, out, id);
    ArgsAgree(s, m, out, b, k, regs, mem, regs');
    assert EvalAll(m, regs, s.code.ops[id]) == EvalAll(m, regs', out.ops[id]);
    if s.code.SlotLoad(id) {
      assert SlotAgrees(s, m, Place(b, k), mem, regs', s.code.ops[id][0].x);
    }
  }

  lemma TerminatorAgrees(s: Ssa, m: Machine, out: Code, b: Block, k: nat,
                         regs: Regs, mem: Memory, regs': Regs, trace: seq<Event>)
    requires Fit(s) && IsSsaForm(s, out) && b in s.code.body && k < |s.code.body[b]|
    requires Agree(s, m, Place(b, k), regs, mem, regs') && Agree(s, m, Place(b, k + 1), regs, mem, regs')
    requires s.code.IsTerminator(s.code.body[b][k])
    ensures OutcomeAlike(s, m, b,
                         Run(m, s.code, s.code.body[b][k..], regs, mem, trace),
                         Run(m, out, KeptOf(s, s.code.body[b][k..]), regs', map[], trace))
  {
    var ids := s.code.body[b][k..];
    var id := s.code.body[b][k];
    assert s.PlaceOk(b, k) && s.InstrOk(id) && KindKept(s, out, id) && OpsRenamed(s, out, id);
    assert s.code.TerminatorOk(s.g, s.pos, id);
    assert ids == [id] && KeptOf(s, ids) == [id];
    ArgsAgree(s, m, out, b, k, regs, mem, regs');
    assert EvalAll(m, regs, s.code.ops[id]) == EvalAll(m, regs', out.ops[id]);
  }

  /** The result and the history of an instruction that computes something. */
  function PlainResult(code: Code, m: Machine, id: Id, regs: Regs, mem: Memory, trace: seq<Event>): (r: (Word, seq<Event>))
    requires id in code.ops && id in code.kind
  {
    if code.SlotLoad(id) then (Held(mem, code.ops[id][0].x), trace)
    else
      var trace' := trace + [Event(code.kind[id], EvalAll(m, regs, code.ops[id]))];
      (m.result(trace'), trace')
  }

  // ----- entering a block -----

  lemma EnterWithoutPhis(s: Ssa, m: Machine, b: Block, p: Block, regs: Regs)
    requires s.Ready() && b in s.code.body
    ensures Enter(m, s.code, s.code.body[b], p, regs) == regs
  {
    forall id | id in s.code.body[b] ensures !s.code.Is(id, Phi) {
      var k :| 0 <= k < |s.code.body[b]| && s.code.body[b][k] == id;
      assert s.PlaceOk(b, k) && s.InstrOk(id);
    }
  }

  lemma {:induction false} KeptFrom(s: Ssa, ids: seq<Id>, id: Id)
    requires s.Ready()
    ensures id in KeptOf(s, ids) <==> id in ids && Kept(s, id)
  {
    if ids != [] {
      KeptFrom(s, ids[1..], id);
    }
  }

  /** Entering a block changes the registers of its own phis and no other. */
  lemma EnterReads(s: Ssa, m: Machine, out: Code, b: Block, p: Block, regs': Regs, id: Id)
    requires Fit(s) && IsSsaForm(s, out) && b in s.code.body
    ensures Read(Enter(m, out, out.body[b], p, regs'), id) ==
            if id.PhiOf? && id.bb == b && s.HasPhi(b, id.lval) then PhiWord(m, out, regs', id, p) else Read(regs', id)
  {
    assert BodyRenamed(s, out, b) && KindKept(s, out, id);
    KeptFrom(s, s.code.body[b], id);
    var phis := PhiIds(b, s.phis[b]);
    if id in phis {
      var i :| 0 <= i < |phis| && phis[i] == id;
      assert s.phis[b][i] == id.lval;
    }
    if id.PhiOf? && id.bb == b && s.HasPhi(b, id.lval) {
      var i :| 0 <= i < |s.phis[b]| && s.phis[b][i] == id.lval;
      assert phis[i] == id;
    }
    if id in s.code.body[b] {
      var k :| 0 <= k < |s.code.body[b]| && s.code.body[b][k] == id;
      assert s.PlaceOk(b, k) && s.InstrOk(id);
    }
  }

  /** A value that was settled strictly above `b` is not a phi of `b`. */
  lemma SettledAboveKeeps(s: Ssa, m: Machine, out: Code, b: Block, p: Block, regs': Regs, q: Place, v: Value)
    requires Fit(s) && IsSsaForm(s, out) && b in s.code.body && b in s.t.up
    requires q.bb in s.t.up && q.bb != b && s.t.Above(b, q.bb)
    requires s.Settled(q, v)
    ensures Eval(m, Enter(m, out, out.body[b], p, regs'), v) == Eval(m, regs', v)
  {
    if v.Ref? {
      EnterReads(s, m, out, b, p, regs', v.id);
      if v.id.PhiOf? {
        s.t.AboveId(b, q.bb);
        s.t.AboveId(q.bb, v.id.bb);
      }
    }
  }

  lemma EnterReg(s: Ssa, m: Machine, out: Code, p: Block, b: Block, regs: Regs, mem: Memory, regs': Regs, r: Id)
    requires Fit(s) && IsSsaForm(s, out) && p in s.code.body && b in s.code.body && s.g.Edge(p, b)
    requires Agree(s, m, Place(p, |s.code.body[p]|), regs, mem, regs')
    ensures RegAgrees(s, m, Place(b, 0), regs, Enter(m, out, out.body[b], p, regs'), r)
  {
    if r in s.pos && s.code.IsValue(r) && s.Before(s.pos[r], Place(b, 0)) {
      var q := s.pos[r];
      assert s.InstrOk(r) && s.BlockOk(p) && s.BlockOk(b) && s.BlockOk(q.bb);
      assert ExactAt(s.g, s.t, b, q.bb) && ExactAt(s.g, s.t, p, q.bb);
      s.g.DomOfPred(q.bb, p, b);
      assert RegAgrees(s, m, Place(p, |s.code.body[p]|), regs, regs', r);
      RenamedRefSettled(s, Place(b, 0), r);
      var v := s.Renamed(Ref(r));
      if s.Settled(q, v) {
        SettledAboveKeeps(s, m, out, b, p, regs', q, v);
      } else {
        EnterReads(s, m, out, b, p, regs', r);
      }
    }
  }

  lemma EnterSlot(s: Ssa, m: Machine, out: Code, p: Block, b: Block, regs: Regs, mem: Memory, regs': Regs, x: Slot)
    requires Fit(s) && IsSsaForm(s, out) && p in s.code.body && b in s.code.body && s.g.Edge(p, b)
    requires Agree(s, m, Place(p, |s.code.body[p]|), regs, mem, regs')
    ensures SlotAgrees(s, m, Place(b, 0), mem, Enter(m, out, out.body[b], p, regs'), x)
  {
    assert SlotAgrees(s, m, Place(p, |s.code.body[p]|), mem, regs', x);
    if s.HasPhi(b, x) {
      EnterReads(s, m, out, b, p, regs', PhiOf(b, x));
      assert PhiFilled(s, out, b, x, p);
    } else {
      Join(s, p, b, x);
      s.g.EdgesMirror(p, b);
      assert s.BlockOk(b) && s.t.LinkAt(b);
      var u := s.t.up[b];
      var st := s.Inherited(b, x);
      if st != [] {
        s.StackSettled(u, |s.code.body[u]|, x, st[|st| - 1]);
        assert s.t.Above(u, u) && s.t.Above(b, u);
        SettledAboveKeeps(s, m, out, b, p, regs', Place(u, |s.code.body[u]|), st[|st| - 1]);
      }
    }
  }

  lemma EnterAgree(s: Ssa, m: Machine, out: Code, p: Block, b: Block, regs: Regs, mem: Memory, regs': Regs)
    requires Fit(s) && IsSsaForm(s, out) && p in s.code.body && b in s.code.body && s.g.Edge(p, b)
    requires Agree(s, m, Place(p, |s.code.body[p]|), regs, mem, regs')
    ensures Agree(s, m, Place(b, 0), Enter(m, s.code, s.code.body[b], p, regs), mem,
                  Enter(m, out, out.body[b], p, regs'))
  {
    EnterWithoutPhis(s, m, b, p, regs);
    var entered := Enter(m, out, out.body[b], p, regs');
    var at := Place(b, 0);
    forall r ensures RegAgrees(s, m, at, regs, entered, r) {
      EnterReg(s, m, out, p, b, regs, mem, regs', r);
    }
    forall x ensures SlotAgrees(s, m, at, mem, entered, x) {
      EnterSlot(s, m, out, p, b, regs, mem, regs', x);
    }
  }

  // ----- whole runs -----

  ghost predicate StatesAgree(s: Ssa, m: Machine, st: State, st': State)
    requires s.Ready()
  {
    && Alike(st, st')
    && (st.At? ==> st'.mem == map[] && st.bb in s.code.body && Agree(s, m, Place(st.bb, 0), st.regs, st.mem, st'.regs))
  }

  lemma StartAgrees(s: Ssa, m: Machine)
    requires Fit(s)
    ensures StatesAgree(s, m, Start(s.g.entry), Start(s.g.entry))
  {
    var at := Place(s.g.entry, 0);
    var none: Regs := map[];
    var empty: Memory := map[];
    forall r ensures RegAgrees(s, m, at, none, none, r) {
    }
    forall x ensures SlotAgrees(s, m, at, empty, none, x) {
      assert !s.HasPhi(s.g.entry, x);
    }
  }

  /** Skipping the phis at the front of a block. */
  lemma {:induction false} RunSkipsPhis(m: Machine, out: Code, phis: seq<Id>, rest: seq<Id>, regs: Regs, mem: Memory, trace: seq<Event>)
    requires forall id :: id in phis ==> out.Is(id, Phi) && id in out.ops
    ensures Run(m, out, phis + rest, regs, mem, trace) == Run(m, out, rest, regs, mem, trace)
  {
    if phis == [] {
      assert phis + rest == rest;
    } else {
      assert (phis + rest)[1..] == phis[1..] + rest;
      RunSkipsPhis(m, out, phis[1..], rest, regs, mem, trace);
    }
  }

  lemma StepAgrees(s: Ssa, m: Machine, out: Code, st: State, st': State)
    requires Fit(s) && IsSsaForm(s, out) && StatesAgree(s, m, st, st')
    ensures StatesAgree(s, m, Step(m, s.code, st), Step(m, out, st'))
  {
    if st.At? {
      var b := st.bb;
      assert BodyRenamed(s, out, b);
      var phis, rest := PhiIds(b, s.phis[b]), KeptOf(s, s.code.body[b]);
      forall id | id in phis ensures out.Is(id, Phi) && id in out.ops {
        assert KindKept(s, out, id);
      }
      RunSkipsPhis(m, out, phis, rest, st'.regs, st'.mem, st'.trace);
      assert s.code.body[b][0..] == s.code.body[b];
      RunAgree(s, m, out, b, 0, st.regs, st.mem, st'.regs, st.trace);
      var o := Run(m, s.code, s.code.body[b], st.regs, st.mem, st.trace);
      var o' := Run(m, out, out.body[b], st'.regs, st'.mem, st'.trace);
      assert OutcomeAlike(s, m, b, o, o');
      if o.Goto? {
        assert o.next in s.code.body;
        EnterAgree(s, m, out, b, o.next, o.regs, o.mem, o'.regs);
      }
    }
  }

  /** The SSA form means the same: however long the two runs go on, they are at
      the same block, with the same events behind them and the same result; and
      every slot holds what the top of its rename stack holds. */
  lemma {:induction false} MeaningPreserved(s: Ssa, m: Machine, out: Code, n: nat)
    requires Fit(s) && IsSsaForm(s, out)
    ensures Alike(Steps(m, s.code, Start(s.g.entry), n), Steps(m, out, Start(s.g.entry), n))
    ensures StatesAgree(s, m, Steps(m, s.code, Start(s.g.entry), n), Steps(m, out, Start(s.g.entry), n))
  {
    if n == 0 {
      StartAgrees(s, m);
    } else {
      MeaningPreserved(s, m, out, n - 1);
      StepAgrees(s, m, out, Steps(m, s.code, Start(s.g.entry), n - 1), Steps(m, out, Start(s.g.entry), n - 1));
    }
  }

  ghost predicate AlikeAfter(entry: Block, code: Code, out: Code, m: Machine, n: nat) {
    Alike(Steps(m, code, Start(entry), n), Steps(m, out, Start(entry), n))
  }

  /** On every machine the two functions run alike, for as long as they run. */
  ghost predicate SameMeaning(entry: Block, code: Code, out: Code) {
    forall m, n {:trigger AlikeAfter(entry, code, out, m, n)} :: AlikeAfter(entry, code, out, m, n)
  }

  lemma SsaMeansTheSame(s: Ssa, out: Code)
    requires Fit(s) && IsSsaForm(s, out)
    ensures SameMeaning(s.g.entry, s.code, out)
  {
    forall m, n ensures AlikeAfter(s.g.entry, s.code, out, m, n) {
      MeaningPreserved(s, m, out, n);
    }
  }
}
