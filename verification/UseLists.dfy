/** What the operations on operands do to use lists: they never lose a use, and
    they leave stale entries behind. */
module UseListLaws {
  import opened IR

  /** `set_operand` keeps every operand of every user in a use list ... */
  lemma SetKeepsCovered(ops: Operands, uses: UseLists, u: Use, v: Value, user: Id)
    requires u.user in ops && u.argNo < |ops[u.user]| && Covered(ops, uses, user)
    ensures Covered(SetOp(ops, u, v), uses[v := UsesOf(uses, v) + [u]], user)
  {
    var ops1, uses1 := SetOp(ops, u, v), uses[v := UsesOf(uses, v) + [u]];
    forall x ensures Registered(ops1, uses1, user, x) {
      assert Registered(ops, uses, user, x);
      forall i: nat | HasOperand(ops1, Use(user, i), x) ensures Use(user, i) in UsesOf(uses1, x) {
        if Use(user, i) != u { assert HasOperand(ops, Use(user, i), x); }
      }
    }
  }

  /** ... but the list of the value that was there before keeps its entry. */
  lemma SetLeavesStale(ops: Operands, uses: UseLists, u: Use, v: Value)
    requires u.user in ops && u.argNo < |ops[u.user]| && ops[u.user][u.argNo] != v
    requires u in UsesOf(uses, ops[u.user][u.argNo])
    ensures !OnlyUses(SetOp(ops, u, v), uses[v := UsesOf(uses, v) + [u]], ops[u.user][u.argNo])
  {
    var x := ops[u.user][u.argNo];
    assert u in UsesOf(uses[v := UsesOf(uses, v) + [u]], x) && !HasOperand(SetOp(ops, u, v), u, x);
  }

  lemma AppendKeepsCovered(ops: Operands, uses: UseLists, phi: Id, v: Value, user: Id)
    requires phi in ops && Covered(ops, uses, user)
    ensures Covered(ops[phi := ops[phi] + [v]], uses[v := UsesOf(uses, v) + [Use(phi, |ops[phi]|)]], user)
  {
    var ops1, uses1 := ops[phi := ops[phi] + [v]], uses[v := UsesOf(uses, v) + [Use(phi, |ops[phi]|)]];
    forall x ensures Registered(ops1, uses1, user, x) {
      assert Registered(ops, uses, user, x);
      forall i: nat | HasOperand(ops1, Use(user, i), x) ensures Use(user, i) in UsesOf(uses1, x) {
        if Use(user, i) != Use(phi, |ops[phi]|) { assert HasOperand(ops, Use(user, i), x); }
      }
    }
  }

  /** The use lists after those of `v` have gone over to `w`; the list of `v`
      itself is not cleared. */
  ghost predicate MovedUses(uses: UseLists, uses': UseLists, v: Value, w: Value) {
    forall x :: UsesOf(uses', x) == if x == w then UsesOf(uses, w) + UsesOf(uses, v) else UsesOf(uses, x)
  }

  lemma RewriteKeepsCovered(ops: Operands, ops': Operands, uses: UseLists, uses': UseLists, v: Value, w: Value, user: Id)
    requires v != w && Rewritten(ops, ops', UsesOf(uses, v), w) && MovedUses(uses, uses', v, w) && Covered(ops, uses, user)
    ensures Covered(ops', uses', user)
  {
    forall x ensures Registered(ops', uses', user, x) {
      assert Registered(ops, uses, user, x);
      forall i: nat | HasOperand(ops', Use(user, i), x) ensures Use(user, i) in UsesOf(uses', x) {
        if Use(user, i) !in UsesOf(uses, v) {
          assert ops'[user][i] == ops[user][i];
          assert HasOperand(ops, Use(user, i), x);
        }
      }
    }
  }

  lemma DeleteKeepsCovered(ops: Operands, uses: UseLists, uses': UseLists, id: Id, user: Id)
    requires id in ops && user != id && Covered(ops, uses, user)
    requires forall v, u {:trigger u in UsesOf(uses', v)} :: u in UsesOf(uses', v) <==>
               u in UsesOf(uses, v) && !(v in ops[id] && u.user == id)
    ensures Covered(ops, uses', user)
  {
    forall x ensures Registered(ops, uses', user, x) {
      assert Registered(ops, uses, user, x);
    }
  }

  /** After `replace_all_use_with`, exactly the operands that were `v` are `w`. */
  ghost predicate RewrittenExactly(ops: Operands, ops': Operands, v: Value, w: Value) {
    && ops'.Keys == ops.Keys
    && (forall id :: id in ops' ==> |ops'[id]| == |ops[id]|)
    && (forall id, i: nat {:trigger ops'[id][i]} :: id in ops' && i < |ops'[id]| ==>
          ops'[id][i] == if ops[id][i] == v then w else ops[id][i])
  }

  /** An entry in the list of `v` for an operand that is neither `v` nor `w`. */
  ghost predicate Stale(ops: Operands, uses: UseLists, v: Value, w: Value, u: Use) {
    u in UsesOf(uses, v) && u.user in ops && u.argNo < |ops[u.user]| && ops[u.user][u.argNo] != v && ops[u.user][u.argNo] != w
  }

  ghost predicate Missing(ops: Operands, uses: UseLists, v: Value, u: Use) {
    HasOperand(ops, u, v) && u !in UsesOf(uses, v)
  }

  /** Replacing is exact if and only if the use list is. */
  lemma ReplaceIsExactIff(ops: Operands, ops': Operands, uses: UseLists, v: Value, w: Value)
    requires v != w && Rewritten(ops, ops', UsesOf(uses, v), w)
    ensures RewrittenExactly(ops, ops', v, w) <==>
            forall u {:trigger HasOperand(ops, u, v)} {:trigger u in UsesOf(uses, v)} ::
              !Stale(ops, uses, v, w, u) && !Missing(ops, uses, v, u)
  {
    if RewrittenExactly(ops, ops', v, w) {
      forall u ensures !Stale(ops, uses, v, w, u) && !Missing(ops, uses, v, u) {
        if u.user in ops && u.argNo < |ops[u.user]| {
          assert ops'[u.user][u.argNo] == if Use(u.user, u.argNo) in UsesOf(uses, v) then w else ops[u.user][u.argNo];
        }
      }
    }
    if forall u {:trigger HasOperand(ops, u, v)} {:trigger u in UsesOf(uses, v)} ::
         !Stale(ops, uses, v, w, u) && !Missing(ops, uses, v, u)
    {
      forall id, i: nat | id in ops' && i < |ops'[id]| ensures ops'[id][i] == if ops[id][i] == v then w else ops[id][i] {
        assert HasOperand(ops, Use(id, i), v) <==> ops[id][i] == v;
        assert !Stale(ops, uses, v, w, Use(id, i)) && !Missing(ops, uses, v, Use(id, i));
      }
    }
  }

  /** Afterwards nothing uses `v`, and yet its list is as long as before. */
  lemma ReplacedHasNoUse(ops: Operands, ops': Operands, uses: UseLists, uses': UseLists, v: Value, w: Value)
    requires v != w && ExactUses(ops, uses, v) && Rewritten(ops, ops', UsesOf(uses, v), w) && MovedUses(uses, uses', v, w)
    ensures RewrittenExactly(ops, ops', v, w)
    ensures forall u :: !HasOperand(ops', u, v)
    ensures OnlyUses(ops', uses', v) <==> forall u :: !HasOperand(ops, u, v)
  {
    ReplaceIsExactIff(ops, ops', uses, v, w);
    forall u ensures !HasOperand(ops', u, v) {
      if u.user in ops' && u.argNo < |ops'[u.user]| {
        assert ops'[u.user][u.argNo] != v;
      }
    }
    if u :| HasOperand(ops, u, v) {
      assert u in UsesOf(uses', v);
    }
  }
}
