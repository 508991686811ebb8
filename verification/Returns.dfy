/** When everything that is active can be given back on the wrapping machine: an exact condition on the planes and leases of
    the moment, whatever was charged and given back before. */
module Returns {
  import opened Numbers
  import opened Leases
  import opened Topology
  import opened ArbiterSpec
  import opened Ledger
  import opened Runs
  import opened Preemption
  import opened Overflow
  import opened Machine

  /** Each active lease can be the last to come back to each plane that carries it. */
  ghost predicate Safe(s: State) {
    forall id, j: nat {:trigger Carries(s, id, j)} :: Carries(s, id, j) ==> LastSum(s, id, j) <= U64_MAX
  }

  predicate Ends(st: LeaseState) {
    st.Preempted? || st.Revoked? || st.Expired?
  }

  // ----- what others give back does not matter -----

  /** Plane `j` and its charge once lease `x` is given back. */
  lemma AfterReturn(s: State, x: LeaseId, st: LeaseState, j: nat)
    requires Inv(s) && IsActiveIn(s, x) && Ends(st) && j < |s.planes|
    ensures var r := CreditLease(s, x, st); var bytes := if Carries(s, x, j) then s.leases[x].bytes else 0;
      && |r.planes| == |s.planes| && r.planes[j].total == s.planes[j].total
      && r.planes[j].available == Min(s.planes[j].available + bytes, s.planes[j].total)
      && Charged(s.planes, s.leases, j) == Charged(r.planes, r.leases, j) + bytes
  {
    hide CreditLease, Charged, Touches;
    assert Bounded(s, j);
    CreditShape(s, x, st);
    CreditLines(s, x, st, j);
    CreditCharged(s, x, st, j);
  }

  /** The same planes carry the other active leases. */
  lemma CarriesAfterReturn(s: State, x: LeaseId, st: LeaseState, id: LeaseId, j: nat)
    requires Inv(s) && IsActiveIn(s, x) && Ends(st)
    ensures var r := CreditLease(s, x, st);
      && |r.planes| == |s.planes|
      && (Carries(r, id, j) <==> id != x && Carries(s, id, j))
      && (id in s.leases ==> id in r.leases && r.leases[id].bytes == s.leases[id].bytes)
  {
    hide Inv;
    CreditShape(s, x, st);
    CreditLayout(s, x, st);
    if id in s.leases {
      SameTouches(s.planes, CreditLease(s, x, st).planes, IndexOf(s.planes, s.leases[id].plane), j);
    }
  }

  lemma CreditLayout(s: State, x: LeaseId, st: LeaseState)
    requires x in s.leases
    ensures SameLayout(s.planes, CreditLease(s, x, st).planes)
  {
  }

  /** Whichever other lease comes back first, the last sum of a lease is the same. */
  lemma LastSumStays(s: State, x: LeaseId, st: LeaseState, id: LeaseId, j: nat)
    requires Inv(s) && IsActiveIn(s, x) && Ends(st) && x != id && Carries(s, id, j)
    ensures var r := CreditLease(s, x, st); Carries(r, id, j) && LastSum(r, id, j) == LastSum(s, id, j)
  {
    hide Inv, CreditLease, Charged, Touches, IndexOf;
    var r := CreditLease(s, x, st);
    AfterReturn(s, x, st, j);
    CarriesAfterReturn(s, x, st, id, j);
    AvailableWithinTotal(s, j);
    CarriedIsCharged(r, id, j);
  }

  lemma CarriedIsCharged(s: State, id: LeaseId, j: nat)
    requires Carries(s, id, j)
    ensures id in s.leases && j < |s.planes| && s.leases[id].bytes <= Charged(s.planes, s.leases, j)
  {
    ChargedAtLeast(s.planes, s.leases, id, j);
  }

  lemma SafeAfterReturn(s: State, x: LeaseId, st: LeaseState)
    requires Inv(s) && Safe(s) && IsActiveIn(s, x) && Ends(st)
    ensures Safe(CreditLease(s, x, st))
  {
    hide Inv, CreditLease, LastSum, Touches, IndexOf;
    var r := CreditLease(s, x, st);
    forall id, j: nat | Carries(r, id, j) ensures LastSum(r, id, j) <= U64_MAX {
      CarriesAfterReturn(s, x, st, id, j);
      LastSumStays(s, x, st, id, j);
    }
  }

  lemma SafeReturnFits(s: State, id: LeaseId)
    requires Inv(s) && Safe(s) && IsActiveIn(s, id)
    ensures ReturnFits(s, id)
  {
    hide Inv, LastSum;
    forall j | 0 <= j < |s.planes| && Carries(s, id, j) ensures s.planes[j].available + s.leases[id].bytes <= U64_MAX {
      SumAtMostLast(s, id, j);
    }
  }

  // ----- a safe state computes no sum that does not fit -----

  lemma {:induction false} SafeLoopFits(s: State, t: nat, required: nat, order: seq<LeaseId>)
    requires Inv(s) && Safe(s) && Victims(s, t, order)
    ensures LoopFits(s, t, required, order)
    decreases |order|
  {
    hide Inv, Safe, CreditLease, LoopFits;
    if order == [] || required <= s.planes[t].available {
      LoopIdle(s, t, required, order);
    } else {
      RestOfVictims(s, t, order);
      SafeReturnFits(s, order[0]);
      SafeAfterReturn(s, order[0], Preempted);
      SafeLoopFits(CreditLease(s, order[0], Preempted), t, required, order[1..]);
      LoopFitsOneMore(s, t, required, order);
    }
  }

  /** In a safe state every operation computes sums that fit, requests that preempt many leases too. */
  lemma SafeOpFits(s: State, op: Op)
    requires Inv(s) && Safe(s) && Enabled(s, op)
    ensures OpFits(s, op)
  {
    hide Inv, Safe, ReturnFits, LoopFits;
    match op
    case AcquireOp(critical, req, order, _) =>
      if Works(s, critical, req) {
        OrderIsVictims(s, req, order);
        SafeLoopFits(s, SelectPlane(s.planes, req).value, req.required, order);
      }
    case ReleaseOp(id) => if IsActiveIn(s, id) { SafeReturnFits(s, id); }
    case RevokeOp(id) => if IsActiveIn(s, id) { SafeReturnFits(s, id); }
    case _ =>
  }

  /** A state is safe when available and charged bytes of every plane fit in 64 bits together, as they do while the
      shortfall leaves room for the installed bytes. */
  lemma RoomyIsSafe(s: State)
    requires Inv(s)
    requires forall j :: 0 <= j < |s.planes| ==>
      || s.planes[j].available + Charged(s.planes, s.leases, j) <= U64_MAX
      || s.installed[j].available + Shortfall(s.installed, s.journal, j) <= U64_MAX
    ensures Safe(s)
  {
    hide LastSum, Charged;
    forall id, j: nat | Carries(s, id, j) ensures LastSum(s, id, j) <= U64_MAX {
      SumAtMostLast(s, id, j);
      assert Bounded(s, j);
    }
  }

  // ----- exactly when everything can be given back -----

  /** Operations that charge nothing: releases, revokes, yields and freezes. */
  predicate Uncharging(ops: seq<Op>) {
    forall k {:trigger ops[k]} :: 0 <= k < |ops| ==> ops[k].ReleaseOp? || ops[k].RevokeOp? || ops[k].YieldOp? || ops[k].FreezeOp?
  }

  lemma {:induction false} UnchargingLegal(s: State, ops: seq<Op>)
    requires Uncharging(ops)
    ensures Legal(s, ops) && Legal64(s, ops)
    decreases |ops|
  {
    if ops != [] {
      UnchargingLegal(Apply(s, ops[0]), ops[1..]);
      UnchargingLegal(Apply64(s, ops[0]), ops[1..]);
    }
  }

  lemma SafeAfterMark(s: State, id: LeaseId, st: LeaseState)
    requires Safe(s) && IsActiveIn(s, id) && (st.Preempting? || st.Frozen?)
    ensures Safe(SetState(s, id, st))
  {
    hide Charged;
    var r := SetState(s, id, st);
    forall x, j: nat | Carries(r, x, j) ensures LastSum(r, x, j) <= U64_MAX {
      assert Carries(s, x, j);
      ChargedPut(s.planes, s.leases, id, r.leases[id], j);
    }
  }

  lemma SafeAfter(s: State, op: Op)
    requires Inv(s) && Safe(s) && Enabled(s, op) && Uncharging([op])
    ensures Safe(Apply(s, op))
  {
    hide Inv, Safe, CreditLease;
    assert [op][0] == op;
    var id := op.id;
    match op
    case ReleaseOp(_) => SafeAfterEnd(s, id, Expired);
    case RevokeOp(_) => SafeAfterEnd(s, id, LeaseState.Revoked);
    case YieldOp(_) => if IsActiveIn(s, id) { SafeAfterMark(s, id, Preempting); }
    case FreezeOp(_) => if IsActiveIn(s, id) { SafeAfterMark(s, id, Frozen); }
  }

  lemma SafeAfterEnd(s: State, id: LeaseId, st: LeaseState)
    requires Inv(s) && Safe(s) && (st.Expired? || st.Revoked?)
    ensures Safe(End(s, id, st).state)
  {
    hide Inv, CreditLease, LastSum;
    if IsActiveIn(s, id) {
      SafeAfterReturn(s, id, st);
    } else {
      var r := End(s, id, st).state;
      forall x, j: nat | Carries(r, x, j) ensures LastSum(r, x, j) <= U64_MAX {
        assert Carries(s, x, j);
        SameLastSum(s, id, st, x, j);
      }
    }
  }

  /** Ending a preempted lease moves nothing. */
  lemma SameLastSum(s: State, id: LeaseId, st: LeaseState, x: LeaseId, j: nat)
    requires !IsActiveIn(s, id) && (st.Expired? || st.Revoked?) && Carries(s, x, j)
    ensures var r := End(s, id, st).state; Carries(r, x, j) && LastSum(r, x, j) == LastSum(s, x, j)
  {
    if id in s.leases {
      ChargedPut(s.planes, s.leases, id, s.leases[id].(state := st), j);
    }
  }

  lemma {:induction false} SafeRunAgrees(s: State, ops: seq<Op>)
    requires Inv(s) && WordSized(s) && Safe(s) && Uncharging(ops) && Legal(s, ops) && Legal64(s, ops)
    ensures Exec64(s, ops) == Exec(s, ops)
    decreases |ops|
  {
    hide Inv, Safe, WordSized, OpFits;
    if ops != [] {
      assert ops[0] == [ops[0]][0];
      SafeOpFits(s, ops[0]);
      OpAgreesIff(s, ops[0]);
      StepKeeps(s, ops[0]);
      StepKeepsWordSized(s, ops[0]);
      SafeAfter(s, ops[0]);
      SafeRunAgrees(Apply(s, ops[0]), ops[1..]);
    }
  }

  ghost function ActiveIds(s: State): set<LeaseId> {
    set id | id in s.leases && s.leases[id].IsActive()
  }

  /** A lease that a plane carries alone makes up its whole charge. */
  lemma AloneIsCharged(s: State, id: LeaseId, j: nat)
    requires Carries(s, id, j) && forall x :: Carries(s, x, j) ==> x == id
    ensures Charged(s.planes, s.leases, j) == s.leases[id].bytes
  {
    var w := Weights(s.planes, s.leases, j);
    Sums.TotalSplit(w, id);
    forall x | x in w - {id} ensures (w - {id})[x] == 0 {
      assert !Carries(s, x, j);
    }
    Sums.TotalZero(w - {id});
  }

  /** One release that does not fit is a run on which the machine differs. */
  lemma ReleaseDiffers(s: State, id: LeaseId)
    requires Inv(s) && WordSized(s) && IsActiveIn(s, id) && !ReturnFits(s, id)
    ensures Legal(s, [ReleaseOp(id)]) && Legal64(s, [ReleaseOp(id)])
    ensures Exec64(s, [ReleaseOp(id)]) != Exec(s, [ReleaseOp(id)])
  {
    hide Inv, WordSized, ReturnFits, CreditLease, Credit64;
    var op := ReleaseOp(id);
    CreditAgreesIff(s, id, Expired);
    assert [op][1..] == [] && Legal(Apply(s, op), []) && Legal64(Apply64(s, op), []);
    assert Exec(s, [op]) == Exec(Apply(s, op), []) == Apply(s, op);
    assert Exec64(s, [op]) == Exec64(Apply64(s, op), []) == Apply64(s, op);
  }

  lemma ReleaseThen(s: State, id: LeaseId, ops: seq<Op>)
    requires Inv(s) && WordSized(s) && IsActiveIn(s, id) && ReturnFits(s, id)
    requires Legal(Release(s, id).state, ops) && Legal64(Release(s, id).state, ops)
    ensures Legal(s, [ReleaseOp(id)] + ops) && Exec(s, [ReleaseOp(id)] + ops) == Exec(Release(s, id).state, ops)
    ensures Legal64(s, [ReleaseOp(id)] + ops) && Exec64(s, [ReleaseOp(id)] + ops) == Exec64(Release(s, id).state, ops)
  {
    hide Inv, WordSized, ReturnFits, CreditLease, Credit64;
    CreditAgreesIff(s, id, Expired);
    assert ([ReleaseOp(id)] + ops)[1..] == ops;
  }

  /** Otherwise some releases lead to a sum that does not fit: others first, as long as they fit, and the lease last. */
  lemma {:induction false} UnsafeRun(s: State, id: LeaseId, j: nat) returns (ops: seq<Op>)
    requires Inv(s) && WordSized(s) && Carries(s, id, j) && U64_MAX < LastSum(s, id, j)
    ensures Uncharging(ops) && Legal(s, ops) && Legal64(s, ops) && Exec64(s, ops) != Exec(s, ops)
    decreases |ActiveIds(s)|
  {
    hide Inv, WordSized, ReturnFits, CreditLease, Charged;
    if x :| x != id && Carries(s, x, j) {
      if !ReturnFits(s, x) {
        ReleaseDiffers(s, x);
        ops := [ReleaseOp(x)];
      } else {
        var r := Release(s, x).state;
        StepKeeps(s, ReleaseOp(x));
        StepKeepsWordSized(s, ReleaseOp(x));
        LastSumStays(s, x, Expired, id, j);
        FewerActive(s, x);
        var rest := UnsafeRun(r, id, j);
        ReleaseThen(s, x, rest);
        ops := [ReleaseOp(x)] + rest;
      }
    } else {
      AloneIsCharged(s, id, j);
      LastDoesNotFit(s, id, j);
      ReleaseDiffers(s, id);
      ops := [ReleaseOp(id)];
    }
  }

  lemma FewerActive(s: State, x: LeaseId)
    requires Inv(s) && IsActiveIn(s, x)
    ensures |ActiveIds(Release(s, x).state)| < |ActiveIds(s)|
  {
    hide Inv;
    CreditShape(s, x, Expired);
    assert ActiveIds(Release(s, x).state) == ActiveIds(s) - {x};
  }

  lemma LastDoesNotFit(s: State, id: LeaseId, j: nat)
    requires Inv(s) && Carries(s, id, j) && Charged(s.planes, s.leases, j) == s.leases[id].bytes && U64_MAX < LastSum(s, id, j)
    ensures !ReturnFits(s, id)
  {
    AvailableWithinTotal(s, j);
  }

  /** From a given state the wrapping machine does what is intended along every run of releases, revokes, yields and
      freezes, in every order, if and only if each active lease can be the last to come back to each plane that carries
      it. The condition reads nothing but the present planes and leases. */
  lemma ReturnsAgreeIff(s: State)
    requires Inv(s) && WordSized(s)
    ensures (forall ops {:trigger Uncharging(ops)} :: Uncharging(ops) ==>
      Legal(s, ops) && Legal64(s, ops) && Exec64(s, ops) == Exec(s, ops)) <==> Safe(s)
  {
    hide Inv, WordSized, LastSum;
    if Safe(s) {
      forall ops | Uncharging(ops) ensures Legal(s, ops) && Legal64(s, ops) && Exec64(s, ops) == Exec(s, ops) {
        UnchargingLegal(s, ops);
        SafeRunAgrees(s, ops);
      }
    } else {
      var id, j: nat :| Carries(s, id, j) && U64_MAX < LastSum(s, id, j);
      var ops := UnsafeRun(s, id, j);
    }
  }
}
