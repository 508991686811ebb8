/** Unified memory and host memory are one resource: the two planes that describe it stay equal. */
module Lockstep {
  import opened Leases
  import opened Topology
  import opened ArbiterSpec
  import opened Ledger
  import opened Hotplug
  import opened Runs

  /** Plane `u` is the only unified-memory plane, and there is a CPU plane. */
  ghost predicate Shared(planes: seq<Plane>, u: nat) {
    && u < |planes| && FirstCpu(planes) < |planes|
    && planes[u].kind.IntegratedUma?
    && (forall i :: 0 <= i < |planes| && planes[i].kind.IntegratedUma? ==> i == u)
  }

  /** The two also agree. */
  ghost predicate Twins(planes: seq<Plane>, u: nat) {
    var c := FirstCpu(planes);
    && Shared(planes, u)
    && planes[u].available == planes[c].available
    && planes[u].total == planes[c].total
  }

  /** Taking bytes from plane `i` keeps the twins equal exactly when `i` is not the CPU plane itself, or nothing is
      taken from it. */
  lemma TakeKeepsTwinsIff(planes: seq<Plane>, u: nat, i: nat, bytes: nat)
    requires Twins(planes, u) && i < |planes|
    ensures Twins(Take(planes, i, bytes), u) <==>
      i != FirstCpu(planes) || bytes == 0 || planes[i].available == 0
  {
    var r := Take(planes, i, bytes);
    SameLayoutLookups(planes, r);
    SameShape(planes, r);
  }

  lemma GiveKeepsTwins(planes: seq<Plane>, u: nat, i: nat, bytes: nat)
    requires Twins(planes, u) && i < |planes| && i != FirstCpu(planes)
    ensures Twins(Give(planes, i, bytes), u)
  {
    var r := Give(planes, i, bytes);
    SameLayoutLookups(planes, r);
    SameShape(planes, r);
  }

  lemma SameShape(p: seq<Plane>, q: seq<Plane>)
    requires SameLayout(p, q)
    ensures forall i :: 0 <= i < |p| ==> p[i].kind == q[i].kind && p[i].total == q[i].total && p[i].id == q[i].id
  {
    forall i | 0 <= i < |p| ensures p[i].kind == q[i].kind && p[i].total == q[i].total && p[i].id == q[i].id {
      assert p[i].(available := 0) == q[i].(available := 0);
    }
  }

  /** The name of the CPU plane, which no live lease uses. */
  ghost predicate HostFree(s: State, host: PlaneId) {
    && FirstCpu(s.planes) < |s.planes| && s.planes[FirstCpu(s.planes)].id == host
    && forall id {:trigger s.leases[id]} :: id in s.leases && s.leases[id].IsLive() ==> s.leases[id].plane != host
  }

  ghost predicate InLockstep(s: State, host: PlaneId) {
    Inv(s) && HostFree(s, host) && exists u :: Twins(s.planes, u)
  }

  /** A request may not be served by the CPU plane itself, and new topologies again share memory with one plane. */
  ghost predicate OffHostOp(s: State, op: Op, host: PlaneId) {
    match op
    case AcquireOp(_, req, _, _) => SelectPlane(s.planes, req) != Ok(FirstCpu(s.planes))
    case UpdateOp(planes, _) => FirstCpu(planes) < |planes| && planes[FirstCpu(planes)].id == host && exists u :: Shared(planes, u)
    case _ => true
  }

  /** New topologies also have equal twins again. */
  ghost predicate Allowed(s: State, op: Op, host: PlaneId) {
    OffHostOp(s, op, host) && (op.UpdateOp? ==> exists u :: Twins(op.planes, u))
  }

  /** A live lease is charged to a plane other than the CPU plane. */
  lemma OffHost(s: State, host: PlaneId, id: LeaseId)
    requires Inv(s) && HostFree(s, host) && id in s.leases && s.leases[id].IsLive()
    ensures IndexOf(s.planes, s.leases[id].plane) < |s.planes|
    ensures IndexOf(s.planes, s.leases[id].plane) != FirstCpu(s.planes)
  {
  }

  /** A change of availability and of one lease's state, live before, keeps the host plane free. */
  lemma HostStaysFree(s: State, r: State, host: PlaneId, id: LeaseId, l: Lease)
    requires HostFree(s, host) && SameLayout(s.planes, r.planes)
    requires r.leases == s.leases[id := l] && (l.IsLive() ==> l.plane != host)
    ensures HostFree(r, host)
  {
    SameLayoutLookups(s.planes, r.planes);
    SameShape(s.planes, r.planes);
  }

  lemma CreditLockstep(s: State, host: PlaneId, id: LeaseId, st: LeaseState)
    requires InLockstep(s, host) && id in s.leases && s.leases[id].IsActive()
    requires st.Preempted? || st.Revoked? || st.Expired?
    ensures InLockstep(CreditLease(s, id, st), host)
  {
    hide Inv, Twins, Give;
    var u :| Twins(s.planes, u);
    CreditKeeps(s, id, st);
    OffHost(s, host, id);
    GiveKeepsTwins(s.planes, u, IndexOf(s.planes, s.leases[id].plane), s.leases[id].bytes);
    HostStaysFree(s, CreditLease(s, id, st), host, id, s.leases[id].(state := st));
  }

  lemma ChargeLockstep(s: State, host: PlaneId, id: LeaseId, l: Lease, at: nat)
    requires InLockstep(s, host) && l.IsActive() && l.plane != host && at == IndexOf(s.planes, l.plane) < |s.planes|
    requires Inv(ChargeLease(s, id, l, at))
    ensures InLockstep(ChargeLease(s, id, l, at), host)
  {
    hide Inv, Twins, Take;
    var u :| Twins(s.planes, u);
    NotHost(s, host, l.plane);
    TakeKeepsTwinsIff(s.planes, u, at, l.bytes);
    HostStaysFree(s, ChargeLease(s, id, l, at), host, id, l);
  }

  lemma NotHost(s: State, host: PlaneId, plane: PlaneId)
    requires HostFree(s, host) && plane != host && IndexOf(s.planes, plane) < |s.planes|
    ensures IndexOf(s.planes, plane) != FirstCpu(s.planes)
  {
  }

  /** Forgetting finished leases moves nothing. */
  lemma CollectLockstep(s: State, host: PlaneId)
    requires InLockstep(s, host)
    ensures InLockstep(Collect(s), host)
  {
    hide Inv, Twins;
    CollectKeeps(s);
  }

  lemma {:induction false} PreemptLockstep(s: State, host: PlaneId, t: nat, required: nat, order: seq<LeaseId>)
    requires InLockstep(s, host) && t < |s.planes| && Sums.Distinct(order)
    requires forall id :: id in order ==> id in s.leases && s.leases[id].IsActive()
    ensures InLockstep(Preempt(s, t, required, order).0, host)
    decreases |order|
  {
    if order != [] && s.planes[t].available < required {
      CreditLockstep(s, host, order[0], Preempted);
      PreemptLockstep(CreditLease(s, order[0], Preempted), host, t, required, order[1..]);
    }
  }

  lemma AcquireLockstep(s: State, host: PlaneId, critical: bool, req: Request, order: seq<LeaseId>, id: LeaseId)
    requires InLockstep(s, host) && Orders(s, req, order) && id !in s.issued
    requires SelectPlane(s.planes, req) != Ok(FirstCpu(s.planes))
    ensures InLockstep(Acquire(s, critical, req, order, id).state, host)
  {
    hide ChargeLease, Collect, HostFree, Twins, FirstCpu, SelectPlane;
    var selected := SelectPlane(s.planes, req);
    if selected.Ok? {
      var t := selected.value;
      PreemptLockstep(s, host, t, req.required, order);
      GrantPlane(s, t, req, order);
      var cleared := Preempt(s, t, req.required, order).0;
      AcquireKeeps(s, critical, req, order, id);
      if Acquire(s, critical, req, order, id).result.Ok? {
        CollectLockstep(cleared, host);
        CollectPlanes(cleared);
        OtherName(s, host, t);
        ChargeLockstep(Collect(cleared), host, id, NewLease(s, t, req), t);
      }
    }
  }

  lemma CollectPlanes(s: State)
    ensures Collect(s).planes == s.planes
  {
  }

  lemma OtherName(s: State, host: PlaneId, t: nat)
    requires Inv(s) && HostFree(s, host) && t < |s.planes| && t != FirstCpu(s.planes)
    ensures s.planes[t].id != host
  {
    GoodPlanes(s);
    IndexOfUnique(s.planes, t);
    IndexOfUnique(s.planes, FirstCpu(s.planes));
  }

  /** Leases that stay off the host plane weigh alike on both twins. */
  lemma TwinsChargedAlike(planes: seq<Plane>, u: nat, leases: map<LeaseId, Lease>)
    requires Shared(planes, u)
    requires forall id :: id in leases && leases[id].IsActive() ==> leases[id].plane != planes[FirstCpu(planes)].id
    ensures Charged(planes, leases, u) == Charged(planes, leases, FirstCpu(planes))
  {
    var c := FirstCpu(planes);
    forall id | id in leases ensures Weight(planes, leases[id], u) == Weight(planes, leases[id], c) {
      var at := IndexOf(planes, leases[id].plane);
      assert leases[id].IsActive() ==> leases[id].plane != planes[c].id;
    }
    assert Weights(planes, leases, u) == Weights(planes, leases, c);
  }

  lemma UpdateLockstep(s: State, host: PlaneId, planes: seq<Plane>, order: seq<LeaseId>)
    requires InLockstep(s, host) && Enabled(s, UpdateOp(planes, order)) && Allowed(s, UpdateOp(planes, order), host)
    ensures InLockstep(UpdateTopology(s, planes, order), host)
  {
    var u :| Twins(planes, u);
    var r := UpdateTopology(s, planes, order);
    UpdateClosedForm(s, planes, order);
    SameLayoutLookups(planes, r.planes);
    SameShape(planes, r.planes);
    forall id | id in r.leases && r.leases[id].IsLive() ensures r.leases[id].plane != host {
      assert s.leases[id].IsLive();
    }
    TwinsChargedAlike(planes, u, r.leases);
    assert Twins(r.planes, u);
  }

  lemma EndLockstep(s: State, host: PlaneId, id: LeaseId, st: LeaseState)
    requires InLockstep(s, host) && (st.Revoked? || st.Expired?)
    ensures InLockstep(End(s, id, st).state, host)
  {
    EndKeeps(s, id, st);
    if id in s.leases && s.leases[id].IsActive() {
      CreditLockstep(s, host, id, st);
    }
  }

  lemma MarkLockstep(s: State, host: PlaneId, id: LeaseId, st: LeaseState)
    requires InLockstep(s, host) && (st.Preempting? || st.Frozen?)
    ensures InLockstep(Mark(s, id, st).state, host)
  {
    if id in s.leases && s.leases[id].IsActive() {
      MarkKeeps(s, id, st);
    }
  }

  lemma ThawLockstep(s: State, host: PlaneId, id: LeaseId)
    requires InLockstep(s, host)
    ensures InLockstep(Thaw(s, id).state, host)
  {
    ThawKeeps(s, id);
    if id in s.leases && s.leases[id].state.Preempted? && Thaw(s, id).status.Done? {
      OffHost(s, host, id);
      ChargeLockstep(s, host, id, s.leases[id].(state := Active), IndexOf(s.planes, s.leases[id].plane));
    }
  }

  lemma StepLockstep(s: State, host: PlaneId, op: Op)
    requires InLockstep(s, host) && Enabled(s, op) && Allowed(s, op, host)
    ensures InLockstep(Apply(s, op), host)
  {
    match op
    case AcquireOp(critical, req, order, newId) => AcquireLockstep(s, host, critical, req, order, newId);
    case UpdateOp(planes, listing) => UpdateLockstep(s, host, planes, listing);
    case ReleaseOp(id) => EndLockstep(s, host, id, Expired);
    case RevokeOp(id) => EndLockstep(s, host, id, LeaseState.Revoked);
    case YieldOp(id) => MarkLockstep(s, host, id, Preempting);
    case FreezeOp(id) => MarkLockstep(s, host, id, Frozen);
    case ThawOp(id) => ThawLockstep(s, host, id);
  }

  ghost predicate AllAllowed(s: State, host: PlaneId, ops: seq<Op>)
    requires Legal(s, ops)
    decreases |ops|
  {
    ops == [] || (Allowed(s, ops[0], host) && AllAllowed(Apply(s, ops[0]), host, ops[1..]))
  }

  /** Through forced grants, preemption, thaws, clamped restores and topology updates, in any order: as long as no
      request is served by the CPU plane itself, the unified-memory plane and the CPU plane show the same availability
      in every state of the run. */
  lemma {:induction false} LockstepForever(s: State, host: PlaneId, ops: seq<Op>)
    requires InLockstep(s, host) && Legal(s, ops) && AllAllowed(s, host, ops)
    ensures InLockstep(Exec(s, ops), host)
    decreases |ops|
  {
    if ops != [] {
      StepLockstep(s, host, ops[0]);
      LockstepForever(Apply(s, ops[0]), host, ops[1..]);
    }
  }

  /** An arbiter that starts with equal twins starts in lockstep. */
  lemma StartsInLockstep(planes: seq<Plane>, u: nat)
    requires GoodTopology(planes) && Twins(planes, u)
    ensures InLockstep(Init(planes), planes[FirstCpu(planes)].id)
  {
    InitKeeps(planes);
  }

  // ----- unequal planes -----

  ghost predicate OffHostRun(s: State, host: PlaneId, ops: seq<Op>)
    requires Legal(s, ops)
    decreases |ops|
  {
    ops == [] || (OffHostOp(s, ops[0], host) && OffHostRun(Apply(s, ops[0]), host, ops[1..]))
  }

  /** No live lease is on the host plane, which shares its memory with one other. */
  ghost predicate Sharing(s: State, host: PlaneId) {
    HostFree(s, host) && exists u :: Shared(s.planes, u)
  }

  /** The same planes share memory under other availabilities. */
  lemma SameSharing(p: seq<Plane>, q: seq<Plane>, host: PlaneId)
    requires SameLayout(p, q) && FirstCpu(p) < |p| && p[FirstCpu(p)].id == host && exists u :: Shared(p, u)
    ensures FirstCpu(q) == FirstCpu(p) && q[FirstCpu(q)].id == host && exists u :: Shared(q, u)
  {
    var u :| Shared(p, u);
    SameLayoutLookups(p, q);
    SameShape(p, q);
    assert Shared(q, u);
  }

  /** A lease that is live after a step is not on the host plane. */
  lemma StaysOffHost(s: State, host: PlaneId, op: Op, id: LeaseId)
    requires Inv(s) && HostFree(s, host) && Enabled(s, op) && OffHostOp(s, op, host)
    requires id in Apply(s, op).leases && Apply(s, op).leases[id].IsLive()
    ensures Apply(s, op).leases[id].plane != host
  {
    hide Inv, Apply, SelectPlane;
    if id in s.leases {
      StepFaith(s, op, id);
    } else {
      Newcomer(s, op, id);
      OtherName(s, host, SelectPlane(s.planes, op.req).value);
    }
  }

  lemma StepKeepsSharing(s: State, host: PlaneId, op: Op)
    requires Inv(s) && Sharing(s, host) && Enabled(s, op) && OffHostOp(s, op, host)
    ensures Sharing(Apply(s, op), host)
  {
    hide Inv, Apply, SelectPlane, Shared;
    LayoutAfter(s, op);
    SameSharing(if op.UpdateOp? then op.planes else s.planes, Apply(s, op).planes, host);
    forall id | id in Apply(s, op).leases && Apply(s, op).leases[id].IsLive() ensures Apply(s, op).leases[id].plane != host {
      StaysOffHost(s, host, op, id);
    }
  }

  lemma {:induction false} RunKeepsSharing(s: State, host: PlaneId, ops: seq<Op>)
    requires Inv(s) && Sharing(s, host) && Legal(s, ops) && OffHostRun(s, host, ops)
    ensures Inv(Exec(s, ops)) && Sharing(Exec(s, ops), host)
    decreases |ops|
  {
    if ops != [] {
      StepKeeps(s, ops[0]);
      StepKeepsSharing(s, host, ops[0]);
      RunKeepsSharing(Apply(s, ops[0]), host, ops[1..]);
    }
  }

  /** By how much the unified-memory plane has more available than the host plane behind it. */
  function Gap(planes: seq<Plane>, u: nat): int
    requires u < |planes| && FirstCpu(planes) < |planes|
  {
    planes[u].available - planes[FirstCpu(planes)].available
  }

  /** What saturating charges took too little, less what clamped restores gave too little. */
  function Excess(s: State, j: nat): int
    requires j < |s.installed|
  {
    Shortfall(s.installed, s.journal, j) - Spilled(s.installed, s.journal, j)
  }

  lemma GapLaw(s: State, host: PlaneId, u: nat)
    requires Inv(s) && HostFree(s, host) && Shared(s.planes, u)
    ensures |s.installed| == |s.planes| && FirstCpu(s.installed) == FirstCpu(s.planes)
    ensures Gap(s.planes, u) == Gap(s.installed, u) + Excess(s, u) - Excess(s, FirstCpu(s.planes))
    ensures Shortfall(s.installed, s.journal, u) == Shortfall(s.installed, s.journal, FirstCpu(s.planes)) == 0 ==>
      Gap(s.planes, u) == Gap(s.installed, u)
  {
    SameLayoutLookups(s.installed, s.planes);
    assert Bounded(s, u) && Bounded(s, FirstCpu(s.planes));
    forall id | id in s.leases && s.leases[id].IsActive() ensures s.leases[id].plane != s.planes[FirstCpu(s.planes)].id {
      assert s.leases[id].IsLive();
    }
    TwinsChargedAlike(s.planes, u, s.leases);
  }

  /** Planes as discovery reports them, of different sizes and fill: over every run in which no request is served by the CPU
      plane itself, the gap between the unified-memory plane and the first CPU plane stays what was installed, but for the
      shortfall and the spill of each, and so exactly that as long as neither falls short. */
  lemma GapForever(s: State, host: PlaneId, ops: seq<Op>, u: nat)
    requires Inv(s) && Sharing(s, host) && Legal(s, ops) && OffHostRun(s, host, ops)
    ensures var r := Exec(s, ops);
      && Sharing(r, host)
      && |r.installed| == |r.planes| && FirstCpu(r.installed) == FirstCpu(r.planes)
      && (Shared(r.planes, u) ==>
           var c := FirstCpu(r.planes);
           && Gap(r.planes, u) == Gap(r.installed, u) + Excess(r, u) - Excess(r, c)
           && (Shortfall(r.installed, r.journal, u) == Shortfall(r.installed, r.journal, c) == 0 ==>
                Gap(r.planes, u) == Gap(r.installed, u)))
  {
    RunKeepsSharing(s, host, ops);
    hide Inv, Exec;
    var r := Exec(s, ops);
    var v :| Shared(r.planes, v);
    GapLaw(r, host, v);
    assert Shared(r.planes, u) ==> u == v;
  }

  /** An arbiter with one unified-memory plane and a CPU plane starts so. */
  lemma StartsSharing(planes: seq<Plane>, u: nat)
    requires GoodTopology(planes) && Shared(planes, u)
    ensures Inv(Init(planes)) && Sharing(Init(planes), planes[FirstCpu(planes)].id)
  {
    InitKeeps(planes);
  }
}
