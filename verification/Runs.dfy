/** The main results about the arbiter, over every run of every operation. */
module Runs {
  import opened Numbers
  import opened Leases
  import opened Topology
  import opened Sums
  import opened ArbiterSpec
  import opened Ledger
  import opened Hotplug
  import opened Preemption

  lemma StepKeeps(s: State, op: Op)
    requires Inv(s) && Enabled(s, op)
    ensures Inv(Apply(s, op))
  {
    match op
    case AcquireOp(critical, req, order, id) => AcquireKeeps(s, critical, req, order, id);
    case ReleaseOp(id) => EndKeeps(s, id, Expired);
    case RevokeOp(id) => EndKeeps(s, id, LeaseState.Revoked);
    case YieldOp(id) => if id in s.leases && s.leases[id].IsActive() { MarkKeeps(s, id, Preempting); }
    case FreezeOp(id) => if id in s.leases && s.leases[id].IsActive() { MarkKeeps(s, id, Frozen); }
    case ThawOp(id) => ThawKeeps(s, id);
    case UpdateOp(planes, listing) => UpdateClosedForm(s, planes, listing);
  }

  lemma {:induction false} RunKeeps(s: State, ops: seq<Op>)
    requires Inv(s) && Legal(s, ops)
    ensures Inv(Exec(s, ops))
    decreases |ops|
  {
    if ops != [] {
      StepKeeps(s, ops[0]);
      RunKeeps(Apply(s, ops[0]), ops[1..]);
    }
  }

  lemma ReachableInv(s: State)
    requires Reachable(s)
    ensures Inv(s)
  {
    var planes, ops :| GoodTopology(planes) && Legal(Init(planes), ops) && Exec(Init(planes), ops) == s;
    InitKeeps(planes);
    RunKeeps(Init(planes), ops);
  }

  /** The ledger balances in every reachable state: what a plane has available, what active leases hold on it and what the
      clamp of restores dropped are together exactly the installed bytes and the shortfall, and no more was ever dropped
      than fell short. */
  lemma LedgerBalances(s: State, j: nat)
    requires Reachable(s) && j < |s.planes|
    ensures |s.installed| == |s.planes|
    ensures s.planes[j].available + Charged(s.planes, s.leases, j) + Spilled(s.installed, s.journal, j)
         == s.installed[j].available + Shortfall(s.installed, s.journal, j)
    ensures Spilled(s.installed, s.journal, j) <= Shortfall(s.installed, s.journal, j)
    ensures s.planes[j].available <= s.planes[j].total == s.installed[j].total
  {
    ReachableInv(s);
    assert Bounded(s, j);
    SameTotals(s.installed, s.planes);
  }

  /** So available plus charged is at least what was installed, and exceeds it by no more than the shortfall. */
  lemma LedgerBound(s: State, j: nat)
    requires Reachable(s) && j < |s.planes|
    ensures |s.installed| == |s.planes|
    ensures s.installed[j].available
         <= s.planes[j].available + Charged(s.planes, s.leases, j)
         <= s.installed[j].available + Shortfall(s.installed, s.journal, j)
    ensures s.planes[j].available <= s.planes[j].total == s.installed[j].total
  {
    LedgerBalances(s, j);
  }

  /** Nothing leaks: once no active lease burdens a plane, at least the installed bytes are available again, and a
      plane that began full is exactly full, even after forced emergency grants. */
  lemma FullRecovery(s: State, j: nat)
    requires Reachable(s) && j < |s.planes|
    requires forall id :: id in s.leases && s.leases[id].IsActive() ==> !Touches(s.planes, IndexOf(s.planes, s.leases[id].plane), j)
    ensures |s.installed| == |s.planes|
    ensures s.installed[j].available <= s.planes[j].available <= s.planes[j].total
    ensures s.installed[j].available == s.installed[j].total ==> s.planes[j].available == s.planes[j].total
  {
    ReachableInv(s);
    RecoveredWhenIdle(s, j);
  }

  lemma RecoveredWhenIdle(s: State, j: nat)
    requires Inv(s) && j < |s.planes|
    requires forall id :: id in s.leases && s.leases[id].IsActive() ==> !Touches(s.planes, IndexOf(s.planes, s.leases[id].plane), j)
    ensures s.installed[j].available <= s.planes[j].available <= s.planes[j].total == s.installed[j].total
  {
    assert Bounded(s, j);
    assert s.planes[j].(available := 0) == s.installed[j].(available := 0);
    TotalZero(Weights(s.planes, s.leases, j));
  }

  /** Without shortfall the ledger is exact, and giving back any active lease stays within the plane's capacity, so
      that the clamp in `restore_plane_memory` changes nothing. */
  lemma ExactWithoutShortfall(s: State, j: nat)
    requires Reachable(s) && j < |s.planes| == |s.installed|
    requires Shortfall(s.installed, s.journal, j) == 0
    ensures s.planes[j].available + Charged(s.planes, s.leases, j) == s.installed[j].available
    ensures forall id :: id in s.leases && s.leases[id].IsActive() && Touches(s.planes, IndexOf(s.planes, s.leases[id].plane), j) ==>
      s.planes[j].available + s.leases[id].bytes <= s.installed[j].available <= s.planes[j].total
  {
    LedgerBound(s, j);
    ReachableInv(s);
    forall id | id in s.leases && s.leases[id].IsActive() && Touches(s.planes, IndexOf(s.planes, s.leases[id].plane), j)
      ensures s.planes[j].available + s.leases[id].bytes <= s.installed[j].available <= s.planes[j].total
    {
      ChargedAtLeast(s.planes, s.leases, id, j);
      assert s.installed[j].available <= s.installed[j].total;
    }
  }

  // ----- where the shortfall comes from -----

  lemma {:induction false} PreemptShortfall(s: State, t: nat, required: nat, order: seq<LeaseId>, j: nat)
    requires t < |s.planes| && j < |s.installed|
    requires forall id :: id in order ==> id in s.leases
    ensures Preempt(s, t, required, order).0.installed == s.installed
    ensures Shortfall(s.installed, Preempt(s, t, required, order).0.journal, j) == Shortfall(s.installed, s.journal, j)
    decreases |order|
  {
    if order != [] && s.planes[t].available < required {
      PreemptShortfall(CreditLease(s, order[0], Preempted), t, required, order[1..], j);
    }
  }

  /** Release, revoke, yield, freeze and thaw never add to the shortfall of any plane. */
  lemma ShortfallFixed(s: State, op: Op, j: nat)
    requires Inv(s) && Enabled(s, op) && j < |s.planes| && !op.AcquireOp? && !op.UpdateOp?
    ensures Apply(s, op).installed == s.installed
    ensures Shortfall(s.installed, Apply(s, op).journal, j) == Shortfall(s.installed, s.journal, j)
  {
    if op.ThawOp? && op.id in s.leases && s.leases[op.id].state.Preempted? && Thaw(s, op.id).status.Done? {
      SameTouches(s.installed, s.planes, IndexOf(s.planes, s.leases[op.id].plane), j);
    }
  }

  /** The planes of a state that keeps the invariant are as good as those installed. */
  lemma GoodPlanes(s: State)
    requires Inv(s)
    ensures GoodTopology(s.planes)
  {
    SameLayoutLookups(s.installed, s.planes);
    forall j | 0 <= j < |s.planes| ensures s.planes[j].available <= s.planes[j].total {
      assert Bounded(s, j);
    }
  }

  /** What a granted request finds on plane `j`, and its overdraft there, as the state before the call tells. */
  lemma OverdraftKnown(s: State, critical: bool, req: Request, order: seq<LeaseId>, id: LeaseId, j: nat)
    requires Inv(s) && Orders(s, req, order) && j < |s.planes|
    ensures Acquire(s, critical, req, order, id).result.Ok? <==> Grantable(s, critical, req)
    ensures Grantable(s, critical, req) ==>
      var t := SelectPlane(s.planes, req).value;
      var cleared := Preempt(s, t, req.required, order).0;
      && |cleared.planes| == |s.planes|
      && Overdraft(s, critical, req, order, j) ==
           if Touches(s.planes, t, j) then SatSub(req.required, cleared.planes[j].available) else 0
  {
    GoodPlanes(s);
    GrantedIff(s, critical, req, order, id);
    if Grantable(s, critical, req) {
      LoopAvailability(s, SelectPlane(s.planes, req).value, req.required, req.priority, order, j);
    }
  }

  /** A request adds to the shortfall of each plane exactly what it overdraws there. */
  lemma ShortfallOfAcquire(s: State, critical: bool, req: Request, order: seq<LeaseId>, id: LeaseId, j: nat)
    requires Inv(s) && Orders(s, req, order) && id !in s.issued && j < |s.planes|
    ensures var r := Acquire(s, critical, req, order, id).state;
      && r.installed == s.installed
      && Shortfall(s.installed, r.journal, j) == Shortfall(s.installed, s.journal, j) + Overdraft(s, critical, req, order, j)
  {
    OverdraftKnown(s, critical, req, order, id, j);
    var selected := SelectPlane(s.planes, req);
    if selected.Ok? {
      var t := selected.value;
      PreemptShortfall(s, t, req.required, order, j);
      PreemptKeeps(s, t, req.required, order);
      if Grantable(s, critical, req) {
        ShortfallOfCharge(s, Preempt(s, t, req.required, order).0, id, NewLease(s, t, req), t, j);
      }
    }
  }

  /** A charge adds what its plane cannot cover. */
  lemma ShortfallOfCharge(s: State, m: State, id: LeaseId, l: Lease, at: nat, j: nat)
    requires Inv(m) && m.installed == s.installed && SameLayout(s.installed, s.planes) && at < |m.planes| && j < |m.planes|
    ensures Shortfall(m.installed, ChargeLease(Collect(m), id, l, at).journal, j)
         == Shortfall(m.installed, m.journal, j) + if Touches(s.planes, at, j) then SatSub(l.bytes, m.planes[j].available) else 0
  {
    SameTouches(s.installed, s.planes, at, j);
  }

  /** Conservation on one plane. */
  ghost predicate Exact(s: State, j: nat)
    requires j < |s.planes| == |s.installed|
  {
    s.planes[j].available + Charged(s.planes, s.leases, j) == s.installed[j].available
  }

  /** Charging a lease conserves plane `j` exactly when the lease fits there or does not touch it. */
  lemma ChargeExact(s: State, id: LeaseId, l: Lease, at: nat, j: nat)
    requires |s.installed| == |s.planes| && j < |s.planes| && Exact(s, j)
    requires l.IsActive() && at < |s.planes| && at == IndexOf(s.planes, l.plane)
    requires id in s.leases ==> !s.leases[id].IsActive()
    ensures Exact(ChargeLease(s, id, l, at), j) <==> (Touches(s.planes, at, j) ==> l.bytes <= s.planes[j].available)
  {
    var r := ChargeLease(s, id, l, at);
    ChargedPut(s.planes, s.leases, id, l, j);
    ChargedLayout(s.planes, r.planes, r.leases, j);
  }

  /** From a state that conserves plane `j`, a request keeps conserving it exactly when it would not overdraw it, which the
      state before the call tells. */
  lemma AcquireConservesIff(s: State, critical: bool, req: Request, order: seq<LeaseId>, id: LeaseId, j: nat)
    requires Inv(s) && Orders(s, req, order) && id !in s.issued && j < |s.planes| && Exact(s, j)
    ensures var r := Acquire(s, critical, req, order, id).state;
      && |r.planes| == |r.installed| == |s.planes|
      && (Exact(r, j) <==> Overdraft(s, critical, req, order, j) == 0)
  {
    OverdraftKnown(s, critical, req, order, id, j);
    var selected := SelectPlane(s.planes, req);
    if selected.Ok? {
      var t := selected.value;
      PreemptExact(s, t, req.required, order, j);
      if Grantable(s, critical, req) {
        GrantPlane(s, t, req, order);
        GrantExact(s, Preempt(s, t, req.required, order).0, id, NewLease(s, t, req), t, j);
      }
    }
  }

  lemma GrantExact(s: State, m: State, id: LeaseId, l: Lease, at: nat, j: nat)
    requires |m.installed| == |m.planes| && SameLayout(s.planes, m.planes) && j < |m.planes| && Exact(m, j)
    requires l.IsActive() && at < |m.planes| && at == IndexOf(m.planes, l.plane) && id !in m.leases
    ensures var r := ChargeLease(Collect(m), id, l, at);
      |r.planes| == |r.installed| && (Exact(r, j) <==> (Touches(s.planes, at, j) ==> l.bytes <= m.planes[j].available))
  {
    ChargedCollect(m, j);
    ChargeExact(Collect(m), id, l, at, j);
    SameTouches(s.planes, m.planes, at, j);
  }

  /** A grant is charged to the plane that was selected. */
  lemma GrantPlane(s: State, t: nat, req: Request, order: seq<LeaseId>)
    requires Inv(s) && t < |s.planes| && forall id :: id in order ==> id in s.leases
    ensures var cleared := Preempt(s, t, req.required, order).0;
      && SameLayout(s.planes, cleared.planes) && cleared.issued == s.issued && cleared.installed == s.installed
      && IndexOf(s.planes, s.planes[t].id) == t
      && IndexOf(cleared.planes, NewLease(s, t, req).plane) == t
  {
    PreemptFrame(s, t, req.required, order);
    SameLayoutLookups(s.installed, s.planes);
    SameLayoutLookups(s.planes, Preempt(s, t, req.required, order).0.planes);
    IndexOfUnique(s.planes, t);
  }

  /** Giving back what is charged keeps conservation: the clamp cannot bite. */
  lemma CreditExact(s: State, id: LeaseId, st: LeaseState, j: nat)
    requires Inv(s) && id in s.leases && s.leases[id].IsActive() && j < |s.planes| && Exact(s, j)
    requires st.Preempted? || st.Revoked? || st.Expired?
    ensures |CreditLease(s, id, st).planes| == |s.planes| && Exact(CreditLease(s, id, st), j)
  {
    var r := CreditLease(s, id, st);
    ChargedPut(s.planes, s.leases, id, r.leases[id], j);
    ChargedLayout(s.planes, r.planes, r.leases, j);
    ChargedAtLeast(s.planes, s.leases, id, j);
    assert s.planes[j].(available := 0) == s.installed[j].(available := 0);
    assert s.installed[j].available <= s.installed[j].total;
  }

  lemma {:induction false} PreemptExact(s: State, t: nat, required: nat, order: seq<LeaseId>, j: nat)
    requires Inv(s) && t < |s.planes| && Distinct(order) && j < |s.planes| && Exact(s, j)
    requires forall id :: id in order ==> id in s.leases && s.leases[id].IsActive()
    ensures var r := Preempt(s, t, required, order).0; |r.planes| == |r.installed| == |s.planes| && Exact(r, j)
    decreases |order|
  {
    if order != [] && s.planes[t].available < required {
      CreditExact(s, order[0], Preempted, j);
      CreditKeeps(s, order[0], Preempted);
      PreemptExact(CreditLease(s, order[0], Preempted), t, required, order[1..], j);
    }
  }

  /** A state change that keeps a lease active, or keeps it inactive, moves no charge. */
  lemma MarkExact(s: State, id: LeaseId, st: LeaseState, j: nat)
    requires j < |s.planes| == |s.installed| && Exact(s, j)
    requires id in s.leases && (s.leases[id].IsActive() <==> s.leases[id].(state := st).IsActive())
    ensures Exact(SetState(s, id, st), j)
  {
    ChargedPut(s.planes, s.leases, id, s.leases[id].(state := st), j);
  }

  /** Release, revoke, yield, freeze and thaw conserve whatever plane was conserved. */
  lemma LeaseOpsConserve(s: State, op: Op, j: nat)
    requires Inv(s) && Enabled(s, op) && !op.AcquireOp? && !op.UpdateOp? && j < |s.planes| && Exact(s, j)
    ensures var r := Apply(s, op); j < |r.planes| == |r.installed| && Exact(r, j)
  {
    var id := op.id;
    if id in s.leases {
      var l := s.leases[id];
      if op.ReleaseOp? || op.RevokeOp? {
        var st := if op.ReleaseOp? then Expired else LeaseState.Revoked;
        if l.IsActive() { CreditExact(s, id, st, j); } else { MarkExact(s, id, st, j); }
      } else if op.ThawOp? && l.state.Preempted? {
        if Thaw(s, id).status.Done? {
          ChargeExact(s, id, l.(state := Active), IndexOf(s.planes, l.plane), j);
        }
      } else if l.IsActive() {
        MarkExact(s, id, if op.YieldOp? then Preempting else if op.FreezeOp? then Frozen else Active, j);
      }
    }
  }

  /** A topology update conserves plane `j` exactly when the leases carried over fit in what discovery found there. */
  lemma UpdateConservesIff(s: State, planes: seq<Plane>, order: seq<LeaseId>, j: nat)
    requires Inv(s) && GoodTopology(planes) && IsListing(s, order) && j < |planes|
    ensures var r := UpdateTopology(s, planes, order);
      && |r.planes| == |r.installed| == |planes|
      && (Exact(r, j) <==> Charged(planes, Surviving(s.leases, planes), j) <= planes[j].available)
  {
    UpdateClosedForm(s, planes, order);
    ChargedLayout(planes, UpdateTopology(s, planes, order).planes, Surviving(s.leases, planes), j);
  }

  // ----- lease histories -----

  /** Every movement of every lease alternates charge and credit for one plane and one amount, and the lease is active
      exactly while one more charge than credits is on record. */
  lemma CreditedOnce(s: State, id: LeaseId)
    requires Reachable(s)
    ensures exists at, bytes :: Alternates(Movements(s.journal, id), at, bytes)
    ensures (id in s.leases && s.leases[id].IsActive()) <==> |Movements(s.journal, id)| % 2 == 1
    ensures id in s.leases ==> Alternates(Movements(s.journal, id), IndexOf(s.planes, s.leases[id].plane), s.leases[id].bytes)
    ensures s.planes == Replay(s.installed, s.journal)
  {
    ReachableInv(s);
    assert Accounted(s, id);
  }

  predicate IsActiveIn(s: State, id: LeaseId) {
    id in s.leases && s.leases[id].IsActive()
  }

  /** Between topology updates a step records exactly one charge when a lease becomes active, exactly one credit when
      it stops being active, and nothing otherwise. */
  ghost predicate MovedOnce(s: State, r: State, id: LeaseId) {
    var before, after := Movements(s.journal, id), Movements(r.journal, id);
    if IsActiveIn(s, id) && !IsActiveIn(r, id) then
      after == before + [Credit(id, IndexOf(s.planes, s.leases[id].plane), s.leases[id].bytes)]
    else if !IsActiveIn(s, id) && IsActiveIn(r, id) then
      after == before + [Charge(id, IndexOf(s.planes, r.leases[id].plane), r.leases[id].bytes)]
    else after == before
  }

  /** An active lease was active before, on the same terms and the same plane. */
  ghost predicate NoneRevived(s: State, r: State, id: LeaseId) {
    IsActiveIn(r, id) ==>
      && IsActiveIn(s, id)
      && r.leases[id] == s.leases[id]
      && IndexOf(r.planes, r.leases[id].plane) == IndexOf(s.planes, s.leases[id].plane)
  }

  lemma CreditMoves(s: State, x: LeaseId, st: LeaseState, id: LeaseId)
    requires x in s.leases && s.leases[x].IsActive() && IndexOf(s.planes, s.leases[x].plane) < |s.planes|
    requires st.Preempted? || st.Revoked? || st.Expired?
    ensures var r := CreditLease(s, x, st);
      && MovedOnce(s, r, id)
      && NoneRevived(s, r, id)
  {
    SameLayoutLookups(s.planes, CreditLease(s, x, st).planes);
  }

  /** Two stretches in which leases only ever stop being active. */
  lemma MovesCompose(s: State, m: State, r: State, id: LeaseId)
    requires MovedOnce(s, m, id) && MovedOnce(m, r, id)
    requires NoneRevived(s, m, id) && (IsActiveIn(r, id) ==> IsActiveIn(m, id))
    ensures MovedOnce(s, r, id)
  {
  }

  lemma {:induction false} PreemptMoves(s: State, t: nat, required: nat, order: seq<LeaseId>, id: LeaseId)
    requires Inv(s) && t < |s.planes| && Distinct(order)
    requires forall id :: id in order ==> id in s.leases && s.leases[id].IsActive()
    ensures MovedOnce(s, Preempt(s, t, required, order).0, id)
    ensures IsActiveIn(Preempt(s, t, required, order).0, id) ==> IsActiveIn(s, id)
    decreases |order|
  {
    if order != [] && s.planes[t].available < required {
      assert s.leases[order[0]].IsLive();
      var next := CreditLease(s, order[0], Preempted);
      CreditKeeps(s, order[0], Preempted);
      CreditMoves(s, order[0], Preempted, id);
      PreemptMoves(next, t, required, order[1..], id);
      MovesCompose(s, next, Preempt(next, t, required, order[1..]).0, id);
    }
  }

  /** A grant after collection: only the new lease becomes active. */
  lemma GrantMoves(s: State, m: State, newId: LeaseId, l: Lease, at: nat, id: LeaseId)
    requires MovedOnce(s, m, id) && (IsActiveIn(m, id) ==> IsActiveIn(s, id))
    requires newId !in s.leases && newId !in m.leases && l.IsActive() && at < |m.planes|
    requires IndexOf(s.planes, l.plane) == at
    ensures MovedOnce(s, ChargeLease(Collect(m), newId, l, at), id)
  {
    assert IsActiveIn(Collect(m), id) <==> IsActiveIn(m, id);
  }

  lemma AcquireMovesOnce(s: State, critical: bool, req: Request, order: seq<LeaseId>, newId: LeaseId, id: LeaseId)
    requires Inv(s) && Orders(s, req, order) && newId !in s.issued
    ensures MovedOnce(s, Acquire(s, critical, req, order, newId).state, id)
  {
    var selected := SelectPlane(s.planes, req);
    if selected.Ok? {
      var t := selected.value;
      PreemptMoves(s, t, req.required, order, id);
      GrantPlane(s, t, req, order);
      GrantMoves(s, Preempt(s, t, req.required, order).0, newId, NewLease(s, t, req), t, id);
    }
  }

  lemma ThawMovesOnce(s: State, target: LeaseId, id: LeaseId)
    ensures MovedOnce(s, Thaw(s, target).state, id)
  {
  }

  lemma EndMovesOnce(s: State, target: LeaseId, st: LeaseState, id: LeaseId)
    requires Inv(s) && (st.Revoked? || st.Expired?)
    ensures MovedOnce(s, End(s, target, st).state, id)
  {
    if target in s.leases && s.leases[target].IsActive() {
      assert s.leases[target].IsLive();
      CreditMoves(s, target, st, id);
    }
  }

  lemma MarkMovesOnce(s: State, target: LeaseId, st: LeaseState, id: LeaseId)
    requires st.Preempting? || st.Frozen?
    ensures MovedOnce(s, Mark(s, target, st).state, id)
  {
  }

  /** So no mix of repeated or racing operations credits a lease twice for one charge. */
  lemma StepMovesOnce(s: State, op: Op, id: LeaseId)
    requires Inv(s) && Enabled(s, op) && !op.UpdateOp?
    ensures MovedOnce(s, Apply(s, op), id)
  {
    match op
    case AcquireOp(critical, req, order, newId) => AcquireMovesOnce(s, critical, req, order, newId, id);
    case ReleaseOp(target) => EndMovesOnce(s, target, Expired, id);
    case RevokeOp(target) => EndMovesOnce(s, target, LeaseState.Revoked, id);
    case YieldOp(target) => MarkMovesOnce(s, target, Preempting, id);
    case FreezeOp(target) => MarkMovesOnce(s, target, Frozen, id);
    case ThawOp(target) => ThawMovesOnce(s, target, id);
  }

  /** A lease that was handed out and can never hold memory again. */
  predicate IsDead(s: State, id: LeaseId) {
    id in s.issued && (id in s.leases ==> !s.leases[id].IsLive())
  }

  /** What a step may do to a lease that is in the table: its plane, size, priority and owner never change, expired and
      revoked are final, and only a finished lease can leave the table. */
  ghost predicate KeptFaith(s: State, r: State, id: LeaseId)
    requires id in s.leases
  {
    if id in r.leases then
      && r.leases[id] == s.leases[id].(state := r.leases[id].state)
      && (!s.leases[id].IsLive() ==> r.leases[id] == s.leases[id])
    else !s.leases[id].IsLive()
  }

  lemma {:induction false} PreemptFaith(s: State, t: nat, required: nat, order: seq<LeaseId>, id: LeaseId)
    requires t < |s.planes| && Distinct(order) && id in s.leases
    requires forall id :: id in order ==> id in s.leases && s.leases[id].IsActive()
    ensures KeptFaith(s, Preempt(s, t, required, order).0, id) && id in Preempt(s, t, required, order).0.leases
    ensures Preempt(s, t, required, order).0.leases[id].state == s.leases[id].state || Preempt(s, t, required, order).0.leases[id].state.Preempted?
    decreases |order|
  {
    if order != [] && s.planes[t].available < required {
      PreemptFaith(CreditLease(s, order[0], Preempted), t, required, order[1..], id);
    }
  }

  lemma AcquireFaith(s: State, critical: bool, req: Request, order: seq<LeaseId>, newId: LeaseId, id: LeaseId)
    requires Inv(s) && Orders(s, req, order) && newId !in s.issued && id in s.leases
    ensures KeptFaith(s, Acquire(s, critical, req, order, newId).state, id)
  {
    var selected := SelectPlane(s.planes, req);
    if selected.Ok? {
      var cleared := Preempt(s, selected.value, req.required, order).0;
      PreemptFaith(s, selected.value, req.required, order, id);
      assert KeptFaith(s, Collect(cleared), id);
    }
  }

  lemma StepFaith(s: State, op: Op, id: LeaseId)
    requires Inv(s) && Enabled(s, op) && id in s.leases
    ensures KeptFaith(s, Apply(s, op), id)
  {
    match op
    case AcquireOp(critical, req, order, newId) => AcquireFaith(s, critical, req, order, newId, id);
    case UpdateOp(planes, listing) => UpdateClosedForm(s, planes, listing);
    case ReleaseOp(target) => EndFaith(s, target, Expired, id);
    case RevokeOp(target) => EndFaith(s, target, LeaseState.Revoked, id);
    case YieldOp(target) =>
    case FreezeOp(target) =>
    case ThawOp(target) => ThawFaith(s, target, id);
  }

  lemma EndFaith(s: State, target: LeaseId, st: LeaseState, id: LeaseId)
    requires id in s.leases && (st.Revoked? || st.Expired?)
    ensures KeptFaith(s, End(s, target, st).state, id)
  {
  }

  lemma ThawFaith(s: State, target: LeaseId, id: LeaseId)
    requires id in s.leases
    ensures KeptFaith(s, Thaw(s, target).state, id)
  {
  }

  /** Identifiers are never forgotten, so they are never handed out again. */
  lemma StepIssues(s: State, op: Op)
    requires Inv(s) && Enabled(s, op)
    ensures s.issued <= Apply(s, op).issued
  {
    match op
    case AcquireOp(critical, req, order, newId) =>
      var selected := SelectPlane(s.planes, req);
      if selected.Ok? {
        PreemptFrame(s, selected.value, req.required, order);
      }
    case UpdateOp(planes, listing) => UpdateClosedForm(s, planes, listing);
    case _ =>
  }

  lemma StepKeepsDead(s: State, op: Op, id: LeaseId)
    requires Inv(s) && Enabled(s, op) && IsDead(s, id)
    ensures IsDead(Apply(s, op), id)
  {
    StepIssues(s, op);
    if id in s.leases {
      StepFaith(s, op, id);
    } else {
      StepAddsOnlyNew(s, op, id);
    }
  }

  lemma StepAddsOnlyNew(s: State, op: Op, id: LeaseId)
    requires Inv(s) && Enabled(s, op) && id in s.issued && id !in s.leases
    ensures id !in Apply(s, op).leases
  {
    match op
    case UpdateOp(planes, listing) => UpdateClosedForm(s, planes, listing);
    case _ =>
  }

  /** Only a grant enters a lease in the table, its own. */
  lemma Newcomer(s: State, op: Op, id: LeaseId)
    requires Inv(s) && Enabled(s, op) && id !in s.leases && id in Apply(s, op).leases
    ensures op.AcquireOp? && SelectPlane(s.planes, op.req).Ok?
    ensures Apply(s, op).leases[id] == NewLease(s, SelectPlane(s.planes, op.req).value, op.req)
  {
    match op
    case UpdateOp(planes, listing) => UpdateClosedForm(s, planes, listing);
    case _ =>
  }

  lemma AcquireLayout(s: State, critical: bool, req: Request, order: seq<LeaseId>, id: LeaseId)
    requires Inv(s) && Orders(s, req, order)
    ensures var r := Acquire(s, critical, req, order, id).state; r.installed == s.installed && SameLayout(s.planes, r.planes)
  {
    hide Inv;
    var selected := SelectPlane(s.planes, req);
    if selected.Ok? {
      PreemptFrame(s, selected.value, req.required, order);
      GrantPlane(s, selected.value, req, order);
    }
  }

  /** Only an update installs a topology; everything else leaves the layout. */
  lemma LayoutAfter(s: State, op: Op)
    requires Inv(s) && Enabled(s, op)
    ensures var r := Apply(s, op); var base := if op.UpdateOp? then op.planes else s.planes;
      && r.installed == (if op.UpdateOp? then op.planes else s.installed)
      && SameLayout(base, r.planes)
  {
    match op
    case AcquireOp(critical, req, order, newId) => AcquireLayout(s, critical, req, order, newId);
    case UpdateOp(planes, listing) => UpdateLayout(s, planes, listing);
    case _ => LeaseOpLayout(s, op);
  }

  lemma UpdateLayout(s: State, planes: seq<Plane>, listing: seq<LeaseId>)
    requires Inv(s) && GoodTopology(planes) && IsListing(s, listing)
    ensures var r := UpdateTopology(s, planes, listing); r.installed == planes && SameLayout(planes, r.planes)
  {
    hide Inv, Charged, Surviving;
    UpdateClosedForm(s, planes, listing);
  }

  lemma LeaseOpLayout(s: State, op: Op)
    requires Enabled(s, op) && !op.AcquireOp? && !op.UpdateOp?
    ensures Apply(s, op).installed == s.installed && SameLayout(s.planes, Apply(s, op).planes)
  {
    hide Touches, IndexOf, FirstCpu;
  }

  /** Expired, revoked and forgotten leases stay so through every continuation of the run. */
  lemma {:induction false} DeadForever(s: State, ops: seq<Op>, id: LeaseId)
    requires Inv(s) && Legal(s, ops) && IsDead(s, id)
    ensures IsDead(Exec(s, ops), id)
    decreases |ops|
  {
    if ops != [] {
      StepKeeps(s, ops[0]);
      StepKeepsDead(s, ops[0], id);
      DeadForever(Apply(s, ops[0]), ops[1..], id);
    }
  }

  /** Plane, size, priority and owner of a lease are the same whenever the lease is in the table. */
  lemma {:induction false} TermsNeverChange(s: State, ops: seq<Op>, id: LeaseId)
    requires Inv(s) && Legal(s, ops) && id in s.leases && id in Exec(s, ops).leases
    ensures Exec(s, ops).leases[id] == s.leases[id].(state := Exec(s, ops).leases[id].state)
    decreases |ops|
  {
    if ops != [] {
      var next := Apply(s, ops[0]);
      StepKeeps(s, ops[0]);
      StepFaith(s, ops[0], id);
      StepIssues(s, ops[0]);
      if id in next.leases {
        TermsNeverChange(next, ops[1..], id);
      } else {
        AbsentForever(next, ops[1..], id);
      }
    }
  }

  lemma {:induction false} AbsentForever(s: State, ops: seq<Op>, id: LeaseId)
    requires Inv(s) && Legal(s, ops) && id in s.issued && id !in s.leases
    ensures id !in Exec(s, ops).leases
    decreases |ops|
  {
    if ops != [] {
      StepKeeps(s, ops[0]);
      StepIssues(s, ops[0]);
      StepAddsOnlyNew(s, ops[0], id);
      AbsentForever(Apply(s, ops[0]), ops[1..], id);
    }
  }

  /** A release ends a live lease as expired, a revoke as revoked, and both give back what it holds, nothing if it was
      preempted. The end is final: every further release, revoke, yield, freeze or thaw of it reports success and changes
      nothing at all, so racing clean-ups cannot give memory back twice. */
  lemma EndIsFinal(s: State, id: LeaseId)
    requires id in s.leases && s.leases[id].IsLive()
    ensures var e, v := Release(s, id), Revoke(s, id); var at := IndexOf(s.planes, s.leases[id].plane);
      && e.status == v.status == Done
      && e.state.leases == s.leases[id := s.leases[id].(state := Expired)]
      && v.state.leases == s.leases[id := s.leases[id].(state := LeaseState.Revoked)]
      && e.state.planes == v.state.planes
         == (if s.leases[id].state.Preempted? || at == |s.planes| then s.planes else Give(s.planes, at, s.leases[id].bytes))
      && IsFinal(e.state, id) && IsFinal(v.state, id)
  {
  }

  /** Nothing that is done to the lease has any effect. */
  predicate IsFinal(s: State, id: LeaseId) {
    Release(s, id) == Revoke(s, id) == Yield(s, id) == Freeze(s, id) == Thaw(s, id) == Outcome(s, Done)
  }

  /** An unknown lease is reported as such by every operation, and a preempted one is marked by none. */
  lemma NothingToDo(s: State, id: LeaseId)
    ensures id !in s.leases ==>
      Release(s, id) == Revoke(s, id) == Yield(s, id) == Freeze(s, id) == Thaw(s, id) == Outcome(s, Failed(LeaseNotFound(id)))
    ensures id in s.leases && s.leases[id].state.Preempted? ==> Yield(s, id) == Freeze(s, id) == Outcome(s, Done)
    ensures id in s.leases && (s.leases[id].state.Expired? || s.leases[id].state.Revoked?) ==> IsFinal(s, id)
    ensures id in s.leases && s.leases[id].state.Active? ==> Thaw(s, id) == Outcome(s, Done)
  {
  }

  /** Yield and freeze mark an active lease without moving a byte, and a thaw takes either mark back. */
  lemma MarksAreUndone(s: State, id: LeaseId)
    requires IsActiveIn(s, id)
    ensures var y, f := Yield(s, id).state, Freeze(s, id).state;
      && y.planes == f.planes == s.planes
      && y.leases == s.leases[id := s.leases[id].(state := Preempting)]
      && f.leases == s.leases[id := s.leases[id].(state := Frozen)]
      && Thaw(y, id) == Thaw(f, id) == Thaw(Freeze(y, id).state, id) == Outcome(SetState(s, id, Active), Done)
  {
    var marked := [Yield(s, id).state, Freeze(s, id).state, Freeze(Yield(s, id).state, id).state];
    forall k | 0 <= k < 3 ensures SetState(marked[k], id, Active) == SetState(s, id, Active) {
      assert marked[k].leases[id := s.leases[id].(state := Active)] == s.leases[id := s.leases[id].(state := Active)];
    }
  }

  /** The error names a plane that would have to carry the lease, its own if that is too full, and what is available there,
      which does not cover the lease. */
  ghost predicate IsShortage(s: State, id: LeaseId, error: Error)
    requires id in s.leases
  {
    var l, own := s.leases[id], IndexOf(s.planes, s.leases[id].plane);
    exists j :: 0 <= j < |s.planes| && Touches(s.planes, own, j) && s.planes[j].available < l.bytes
      && error == ResourceExhaustion(s.planes[j].id, l.bytes, s.planes[j].available)
      && (s.planes[own].available < l.bytes ==> j == own)
  }

  /** A preempted lease comes back exactly when every plane that would carry it has room for it; a thaw that fails changes
      nothing, and one of a lease that was never preempted fails only when the lease is unknown. */
  lemma ThawsIff(s: State, id: LeaseId)
    requires Inv(s)
    ensures Thaw(s, id).status.Done? <==>
      && id in s.leases
      && (s.leases[id].state.Preempted? ==>
           forall j :: 0 <= j < |s.planes| && Touches(s.planes, IndexOf(s.planes, s.leases[id].plane), j) ==>
             s.leases[id].bytes <= s.planes[j].available)
    ensures Thaw(s, id).status.Failed? ==> Thaw(s, id).state == s
    ensures Thaw(s, id).status.Done? && s.leases[id].IsLive() ==>
      Thaw(s, id).state.leases == s.leases[id := s.leases[id].(state := Active)]
    ensures Thaw(s, id).status.Failed? && id in s.leases ==> IsShortage(s, id, Thaw(s, id).status.error)
  {
    if id in s.leases && s.leases[id].state.Preempted? {
      var at, cpu := IndexOf(s.planes, s.leases[id].plane), FirstCpu(s.planes);
      assert s.leases[id].IsLive() && Touches(s.planes, at, at);
      assert s.planes[at].kind.IntegratedUma? && cpu < |s.planes| ==> Touches(s.planes, at, cpu);
    }
  }

  // ----- references and table size -----

  /** Every live lease names a plane of the current topology, so a thaw never finds its plane missing. */
  lemma ReferencesResolve(s: State, id: LeaseId)
    requires Reachable(s)
    ensures id in s.leases && s.leases[id].IsLive() ==> exists j :: 0 <= j < |s.planes| && s.planes[j].id == s.leases[id].plane
    ensures !(Thaw(s, id).status.Failed? && Thaw(s, id).status.error.PlaneNotFound?)
  {
    ReachableInv(s);
    if id in s.leases && s.leases[id].IsLive() {
      assert s.planes[IndexOf(s.planes, s.leases[id].plane)].id == s.leases[id].plane;
    }
  }

  /** Collection and the new entry, after preemption. */
  lemma TableAfterCollect(m: State, id: LeaseId, l: Lease)
    requires l.IsLive()
    ensures var kept := Collect(m).leases; var r := kept[id := l];
      && (|r| <= TABLE_LIMIT + 1 || forall x :: x in r ==> r[x].IsLive())
      && r.Keys == kept.Keys + {id} && kept.Keys <= m.leases.Keys
      && (forall x :: x in m.leases && x !in kept ==> !m.leases[x].IsLive() && |m.leases| > TABLE_LIMIT)
  {
    var kept := Collect(m).leases;
    var r := kept[id := l];
    assert r.Keys == kept.Keys + {id};
    assert |r| == |r.Keys| && |kept| == |kept.Keys|;
  }

  /** After a grant the table is within one of its limit, or holds live leases only; a lease that was live before the
      grant is still in it. */
  lemma TableAfterGrant(s: State, critical: bool, req: Request, order: seq<LeaseId>, id: LeaseId)
    requires Inv(s) && Orders(s, req, order) && id !in s.issued
    requires Acquire(s, critical, req, order, id).result.Ok?
    ensures var r := Acquire(s, critical, req, order, id).state;
      && (|r.leases| <= 129 || forall x :: x in r.leases ==> r.leases[x].IsLive())
      && r.leases.Keys <= s.leases.Keys + {id}
      && (forall x :: x in s.leases && x !in r.leases ==> !s.leases[x].IsLive() && |s.leases| > 128)
  {
    var t := SelectPlane(s.planes, req).value;
    var cleared := Preempt(s, t, req.required, order).0;
    TableAfterCollect(cleared, id, NewLease(s, t, req));
    assert |cleared.leases| == |cleared.leases.Keys| == |s.leases.Keys| == |s.leases|;
    forall x | x in s.leases && x !in Collect(cleared).leases ensures !s.leases[x].IsLive() {
      PreemptFaith(s, t, req.required, order, x);
    }
  }
}
