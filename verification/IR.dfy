/** The intermediate representation: values, instructions, and the use lists
    that tie operands to the values they name. Instructions live in an arena
    and are known by identifiers. */
module IR {
  import opened Graphs

  /** A stack slot: the address that an alloca instruction produces. */
  type Slot = nat

  /** A phi is known by its block and the slot it stands for. */
  datatype Id = Instr(n: nat) | PhiOf(bb: Block, lval: Slot)

  datatype Value = Const(c: int) | Arg(i: nat) | Global(g: nat) | Addr(x: Slot) | Ref(id: Id) | Label(bb: Block)

  /** Arithmetic on integers, comparisons, the extension of a truth value to an
      integer, and calls. */
  datatype Op = ADD | SUB | MUL | SDIV | EQ | NE | GT | GE | LT | LE | ZEXT | CALL

  datatype Kind = Alloca(x: Slot, scalar: bool) | Load | Store | Phi | Gep | Exec(op: Op) | Br | CondBr | Ret

  datatype Use = Use(user: Id, argNo: nat)

  type Operands = map<Id, seq<Value>>

  type UseLists = map<Value, seq<Use>>

  function UsesOf(uses: UseLists, v: Value): seq<Use> {
    if v in uses then uses[v] else []
  }

  predicate HasOperand(ops: Operands, u: Use, v: Value) {
    u.user in ops && u.argNo < |ops[u.user]| && ops[u.user][u.argNo] == v
  }

  /** The use list of `v` names only operands that are `v` ... */
  ghost predicate OnlyUses(ops: Operands, uses: UseLists, v: Value) {
    forall u :: u in UsesOf(uses, v) ==> HasOperand(ops, u, v)
  }

  /** ... and it names every operand of `user` that is `v`. */
  ghost predicate Registered(ops: Operands, uses: UseLists, user: Id, v: Value) {
    forall i: nat :: HasOperand(ops, Use(user, i), v) ==> Use(user, i) in UsesOf(uses, v)
  }

  /** Every operand of `user` is in the use list of the value it names. */
  ghost predicate Covered(ops: Operands, uses: UseLists, user: Id) {
    forall v {:trigger Registered(ops, uses, user, v)} :: Registered(ops, uses, user, v)
  }

  /** The use list of `v` names exactly the operands that are `v`. */
  ghost predicate ExactUses(ops: Operands, uses: UseLists, v: Value) {
    forall u {:trigger HasOperand(ops, u, v)} {:trigger u in UsesOf(uses, v)} ::
      u in UsesOf(uses, v) <==> HasOperand(ops, u, v)
  }

  /** `ops'` is `ops` with `w` in the operand places that `list` names. */
  ghost predicate Rewritten(ops: Operands, ops': Operands, list: seq<Use>, w: Value) {
    && ops'.Keys == ops.Keys
    && (forall id :: id in ops' ==> |ops'[id]| == |ops[id]|)
    && (forall id, i: nat {:trigger ops'[id][i]} :: id in ops' && i < |ops'[id]| ==>
          ops'[id][i] == if Use(id, i) in list then w else ops[id][i])
  }

  /** One more place is rewritten. */
  lemma RewriteOne(ops: Operands, ops1: Operands, list: seq<Use>, u: Use, w: Value)
    requires Rewritten(ops, ops1, list, w) && u.user in ops && u.argNo < |ops[u.user]|
    ensures u.user in ops1 && u.argNo < |ops1[u.user]|
    ensures Rewritten(ops, SetOp(ops1, u, w), list + [u], w)
  {
    var ops2, list2 := SetOp(ops1, u, w), list + [u];
    forall id, i: nat | id in ops2 && i < |ops2[id]|
      ensures ops2[id][i] == if Use(id, i) in list2 then w else ops[id][i]
    {
      assert ops1[id][i] == if Use(id, i) in list then w else ops[id][i];
    }
  }

  function SetOp(ops: Operands, u: Use, v: Value): Operands
    requires u.user in ops && u.argNo < |ops[u.user]|
  {
    ops[u.user := ops[u.user][u.argNo := v]]
  }

  function WithoutUser(s: seq<Use>, user: Id): (r: seq<Use>)
    ensures forall u :: u in r <==> u in s && u.user != user
  {
    if s == [] then []
    else if s[0].user == user then WithoutUser(s[1..], user)
    else [s[0]] + WithoutUser(s[1..], user)
  }

  function Without(s: seq<Id>, id: Id): (r: seq<Id>)
    ensures forall x :: x in r <==> x in s && x != id
  {
    if s == [] then []
    else if s[0] == id then Without(s[1..], id)
    else [s[0]] + Without(s[1..], id)
  }

  class Func {
    var body: map<Block, seq<Id>>
    var kind: map<Id, Kind>
    var ops: Operands
    var uses: UseLists

    constructor (entry: Block)
      ensures body == map[entry := []] && kind == map[] && ops == map[] && uses == map[]
    {
      body, kind, ops, uses := map[entry := []], map[], map[], map[];
    }

    /** Neither a global nor a computed address: what is left is a slot. */
    predicate Promotable(lval: Value)
      reads this`kind
    {
      !lval.Global? && !(lval.Ref? && lval.id in kind && kind[lval.id] == Gep)
    }

    method SetOperand(user: Id, i: nat, v: Value)
      requires user in ops && i < |ops[user]|
      modifies this`ops, this`uses
      ensures ops == SetOp(old(ops), Use(user, i), v)
      ensures uses == old(uses)[v := UsesOf(old(uses), v) + [Use(user, i)]]
    {
      ops := ops[user := ops[user][i := v]];
      AddUse(v, user, i);
    }

    method AddUse(v: Value, user: Id, i: nat)
      modifies this`uses
      ensures uses == old(uses)[v := UsesOf(old(uses), v) + [Use(user, i)]]
    {
      uses := uses[v := UsesOf(uses, v) + [Use(user, i)]];
    }

    method AddOperand(user: Id, v: Value)
      requires user in ops
      modifies this`ops, this`uses
      ensures ops == old(ops)[user := old(ops)[user] + [v]]
      ensures uses == old(uses)[v := UsesOf(old(uses), v) + [Use(user, |old(ops)[user]|)]]
    {
      var n := |ops[user]|;
      ops := ops[user := ops[user] + [v]];
      AddUse(v, user, n);
    }

    method AddPhiPairOperand(phi: Id, v: Value, pre: Block)
      requires phi in ops
      modifies this`ops, this`uses
      ensures ops == old(ops)[phi := old(ops)[phi] + [v, Label(pre)]]
      ensures forall x, u {:trigger u in UsesOf(uses, x)} :: u in UsesOf(uses, x) <==>
                u in UsesOf(old(uses), x) ||
                (x == v && u == Use(phi, |old(ops)[phi]|)) || (x == Label(pre) && u == Use(phi, |old(ops)[phi]| + 1))
    {
      AddOperand(phi, v);
      AddOperand(phi, Label(pre));
      assert old(ops)[phi] + [v] + [Label(pre)] == old(ops)[phi] + [v, Label(pre)];
    }

    /** Rewrites every operand named in the use list of `v`. */
    method ReplaceAllUseWith(v: Value, w: Value)
      requires v != w
      requires forall u :: u in UsesOf(uses, v) ==> u.user in ops && u.argNo < |ops[u.user]|
      modifies this`ops, this`uses
      ensures Rewritten(old(ops), ops, UsesOf(old(uses), v), w)
      ensures forall x ::
                UsesOf(uses, x) == if x == w then UsesOf(old(uses), w) + UsesOf(old(uses), v) else UsesOf(old(uses), x)
    {
      var list := UsesOf(uses, v);
      var i := 0;
      while i < |list|
        invariant 0 <= i <= |list|
        invariant Rewritten(old(ops), ops, list[..i], w)
        invariant forall x ::
          UsesOf(uses, x) == if x == w then UsesOf(old(uses), w) + list[..i] else UsesOf(old(uses), x)
      {
        assert list[i] in list;
        RewriteOne(old(ops), ops, list[..i], list[i], w);
        SetOperand(list[i].user, list[i].argNo, w);
        assert list[..i + 1] == list[..i] + [list[i]];
        i := i + 1;
      }
      assert list[..i] == list;
    }

    /** The user disappears from the list of `v`, and from no other. */
    method RemoveUse(v: Value, user: Id)
      modifies this`uses
      ensures forall w, u {:trigger u in UsesOf(uses, w)} :: u in UsesOf(uses, w) <==>
                u in UsesOf(old(uses), w) && !(w == v && u.user == user)
      ensures uses == old(uses)[v := WithoutUser(UsesOf(old(uses), v), user)]
    {
      uses := uses[v := WithoutUser(UsesOf(uses, v), user)];
    }

    method RemoveUseOfOps(user: Id)
      requires user in ops
      modifies this`uses
      ensures forall v, u {:trigger u in UsesOf(uses, v)} :: u in UsesOf(uses, v) <==>
                u in UsesOf(old(uses), v) && !(v in ops[user] && u.user == user)
    {
      var i := 0;
      while i < |ops[user]|
        invariant 0 <= i <= |ops[user]|
        invariant forall v, u {:trigger u in UsesOf(uses, v)} :: u in UsesOf(uses, v) <==>
          u in UsesOf(old(uses), v) && !(v in ops[user][..i] && u.user == user)
      {
        ghost var before := uses;
        RemoveUse(ops[user][i], user);
        assert ops[user][..i + 1] == ops[user][..i] + [ops[user][i]];
        assert forall v, u {:trigger u in UsesOf(uses, v)} ::
            u in UsesOf(uses, v) <==> u in UsesOf(before, v) && !(v == ops[user][i] && u.user == user);
        i := i + 1;
      }
      assert ops[user][..i] == ops[user];
    }

    method AddInstrBegin(b: Block, id: Id)
      requires b in body
      modifies this`body
      ensures body == old(body)[b := [id] + old(body)[b]]
    {
      body := body[b := [id] + body[b]];
    }

    method DeleteInstr(b: Block, id: Id)
      requires b in body && id in ops
      modifies this`body, this`uses
      ensures body == old(body)[b := Without(old(body)[b], id)]
      ensures forall v, u {:trigger u in UsesOf(uses, v)} :: u in UsesOf(uses, v) <==>
                u in UsesOf(old(uses), v) && !(v in ops[id] && u.user == id)
    {
      body := body[b := Without(body[b], id)];
      RemoveUseOfOps(id);
    }
  }
}
