/** The arbiter on 64-bit arithmetic that wraps around: every operation of the state machine with `restore_plane_memory` as
    such a machine computes it, and when the two agree over whole runs. */
module Machine {
  import opened Numbers
  import opened Leases
  import opened Topology
  import opened Sums
  import opened ArbiterSpec
  import opened Ledger
  import opened Hotplug
  import opened Runs
  import opened Preemption
  import opened Overflow

  function GiveAt64(planes: seq<Plane>, i: nat, bytes: nat): (r: seq<Plane>)
    ensures SameLayout(planes, r)
    ensures forall j :: 0 <= j < |planes| ==>
      r[j].available == if j == i then MachineRestore(planes[j].available, bytes, planes[j].total) else planes[j].available
  {
    if i < |planes| then
      planes[i := planes[i].(available := MachineRestore(planes[i].available, bytes, planes[i].total))]
    else planes
  }

  function Give64(planes: seq<Plane>, i: nat, bytes: nat): (r: seq<Plane>)
    requires i < |planes|
    ensures SameLayout(planes, r)
    ensures forall j :: 0 <= j < |planes| ==>
      r[j].available ==
        if Touches(planes, i, j) then MachineRestore(planes[j].available, bytes, planes[j].total) else planes[j].available
  {
    var own := GiveAt64(planes, i, bytes);
    if planes[i].kind.IntegratedUma? then
      var both := GiveAt64(own, FirstCpu(own), bytes);
      SameCpu(planes, own, i);
      SameLayoutTrans(planes, own, both);
      SameTotals(planes, own);
      both
    else own
  }

  function Credit64(s: State, id: LeaseId, st: LeaseState): (r: State)
    requires id in s.leases
    ensures |r.planes| == |s.planes| && r.leases.Keys == s.leases.Keys
  {
    var lease := s.leases[id];
    var at := IndexOf(s.planes, lease.plane);
    var moved := SetState(s, id, st);
    if at < |s.planes| then
      moved.(planes := Give64(s.planes, at, lease.bytes), journal := After(s.journal, Credit(id, at, lease.bytes)))
    else moved
  }

  function Preempt64(s: State, t: nat, required: nat, order: seq<LeaseId>): (r: (State, nat))
    requires t < |s.planes|
    requires forall id :: id in order ==> id in s.leases
    ensures r.1 <= |order|
    ensures |r.0.planes| == |s.planes| && r.0.leases.Keys == s.leases.Keys
    decreases |order|
  {
    if order == [] || required <= s.planes[t].available then (s, 0)
    else
      var (rest, n) := Preempt64(Credit64(s, order[0], Preempted), t, required, order[1..]);
      (rest, n + 1)
  }

  function Acquire64(s: State, critical: bool, req: Request, order: seq<LeaseId>, id: LeaseId): Acquisition
    requires Orders(s, req, order)
  {
    if critical && !req.priority.EmergencyTriage? then Acquisition(s, Err(BusSaturation), [])
    else
      match SelectPlane(s.planes, req)
      case Err(e) => Acquisition(s, Err(e), [])
      case Ok(t) =>
        var (cleared, n) := Preempt64(s, t, req.required, order);
        var left := cleared.planes[t].available;
        if left < req.required && !req.priority.EmergencyTriage? then
          Acquisition(cleared, Err(ResourceExhaustion(s.planes[t].id, req.required, left)), [])
        else
          Acquisition(ChargeLease(Collect(cleared), id, NewLease(s, t, req), t), Ok(id), order[..n])
  }

  function End64(s: State, id: LeaseId, st: LeaseState): State {
    if IsActiveIn(s, id) then Credit64(s, id, st) else End(s, id, st).state
  }

  /** The operations that give nothing back are as before. */
  function Apply64(s: State, op: Op): State
    requires Enabled(s, op)
  {
    match op
    case AcquireOp(critical, req, order, newId) => Acquire64(s, critical, req, order, newId).state
    case ReleaseOp(id) => End64(s, id, Expired)
    case RevokeOp(id) => End64(s, id, LeaseState.Revoked)
    case _ => Apply(s, op)
  }

  ghost predicate Legal64(s: State, ops: seq<Op>)
    decreases |ops|
  {
    ops == [] || (Enabled(s, ops[0]) && Legal64(Apply64(s, ops[0]), ops[1..]))
  }

  function Exec64(s: State, ops: seq<Op>): State
    requires Legal64(s, ops)
    decreases |ops|
  {
    if ops == [] then s else Exec64(Apply64(s, ops[0]), ops[1..])
  }

  // ----- agreement of one restore -----

  /** On 64-bit planes and sizes, one machine restore is the intended one exactly when the sum fits on every plane that the
      bytes go back to. */
  lemma GiveAgreesIff(planes: seq<Plane>, i: nat, bytes: nat)
    requires i < |planes| && WithinTotals(planes) && bytes <= U64_MAX
    requires forall j :: 0 <= j < |planes| ==> planes[j].total <= U64_MAX
    ensures Give64(planes, i, bytes) == Give(planes, i, bytes) <==>
      forall j :: 0 <= j < |planes| && Touches(planes, i, j) ==> planes[j].available + bytes <= U64_MAX
  {
    var p, q := Give64(planes, i, bytes), Give(planes, i, bytes);
    forall j | 0 <= j < |planes|
      ensures p[j] == q[j] <==> (Touches(planes, i, j) ==> planes[j].available + bytes <= U64_MAX)
    {
      MachineRestoreIff(planes[j].available, bytes, planes[j].total);
      assert planes[j].(available := 0) == p[j].(available := 0) == q[j].(available := 0);
    }
    assert p == q <==> forall j :: 0 <= j < |planes| ==> p[j] == q[j];
  }

  /** Totals and lease sizes are 64-bit numbers, as their types say. */
  ghost predicate WordSized(s: State) {
    && (forall j {:trigger s.installed[j]} :: 0 <= j < |s.installed| ==> s.installed[j].total <= U64_MAX)
    && (forall id {:trigger s.leases[id]} :: id in s.leases ==> s.leases[id].bytes <= U64_MAX)
  }

  /** Giving lease `id` back computes no sum beyond 64 bits. */
  ghost predicate ReturnFits(s: State, id: LeaseId) {
    forall j {:trigger s.planes[j]} :: 0 <= j < |s.planes| && Carries(s, id, j) ==> s.planes[j].available + s.leases[id].bytes <= U64_MAX
  }

  lemma CreditAgreesIff(s: State, id: LeaseId, st: LeaseState)
    requires Inv(s) && WordSized(s) && IsActiveIn(s, id)
    ensures Credit64(s, id, st) == CreditLease(s, id, st) <==> ReturnFits(s, id)
  {
    var l := s.leases[id];
    var at := IndexOf(s.planes, l.plane);
    assert l.IsLive();
    GoodPlanes(s);
    SameTotals(s.installed, s.planes);
    forall j | 0 <= j < |s.planes| ensures s.planes[j].total <= U64_MAX {
      assert s.installed[j].total <= U64_MAX;
    }
    GiveAgreesIff(s.planes, at, l.bytes);
    assert forall j :: 0 <= j < |s.planes| ==> (Carries(s, id, j) <==> Touches(s.planes, at, j));
  }

  // ----- agreement of a preemption loop -----

  /** No restore of the preemption loop computes a sum beyond 64 bits, as the state before the loop tells: the `k`-th victim
      finds what the plane had and the victims before it gave. */
  ghost predicate LoopFits(s: State, t: nat, required: nat, order: seq<LeaseId>)
    requires t < |s.planes| && forall id :: id in order ==> id in s.leases
  {
    forall k, j {:trigger order[k], s.planes[j]} ::
      0 <= k < VictimCount(s, t, required, order) && 0 <= j < |s.planes| && Touches(s.planes, t, j) ==>
        Min(s.planes[j].total, s.planes[j].available + SumOver(order[..k], Sizes(s.leases))) + s.leases[order[k]].bytes <= U64_MAX
  }

  /** The machine's loop goes through the same states as the intended one: they agree wherever the order is cut off. */
  ghost predicate LoopAgrees(s: State, t: nat, required: nat, order: seq<LeaseId>)
    requires t < |s.planes| && forall id :: id in order ==> id in s.leases
  {
    forall k {:trigger order[..k]} :: 0 <= k <= |order| ==>
      Preempt64(s, t, required, order[..k]) == Preempt(s, t, required, order[..k])
  }

  /** What the loop works on: active leases of plane `t`, each once. */
  ghost predicate Victims(s: State, t: nat, order: seq<LeaseId>) {
    && t < |s.planes| && Distinct(order)
    && forall k {:trigger order[k]} :: 0 <= k < |order| ==> IsActiveIn(s, order[k]) && s.leases[order[k]].plane == s.planes[t].id
  }

  /** The rest of the loop, after one victim. */
  lemma RestOfVictims(s: State, t: nat, order: seq<LeaseId>)
    requires Inv(s) && Victims(s, t, order) && order != []
    ensures var next := CreditLease(s, order[0], Preempted);
      Inv(next) && Victims(next, t, order[1..]) && (WordSized(s) ==> WordSized(next))
  {
    var next := CreditLease(s, order[0], Preempted);
    CreditKeeps(s, order[0], Preempted);
    CreditShape(s, order[0], Preempted);
    assert s.planes[t].(available := 0) == next.planes[t].(available := 0) by {
      SameLayoutTrans(s.planes, s.planes, next.planes);
    }
  }

  lemma CountFromLoop(s: State, t: nat, required: nat, order: seq<LeaseId>)
    requires Inv(s) && Victims(s, t, order)
    ensures Preempt(s, t, required, order).1 == VictimCount(s, t, required, order)
  {
    var (r, n) := Preempt(s, t, required, order);
    GoodPlanes(s);
    IndexOfUnique(s.planes, t);
    LoopStopsInTime(s, t, required, order);
    ShortestIsLeast(s.planes[t].total, s.planes[t].available, required, order, Sizes(s.leases), r.planes[t].available, n);
  }

  /** The first victim fits exactly when the sums on the planes that carry the loop's leases do. */
  lemma FirstFits(s: State, t: nat, order: seq<LeaseId>)
    requires Inv(s) && Victims(s, t, order) && order != []
    ensures ReturnFits(s, order[0]) <==>
      forall j :: 0 <= j < |s.planes| && Touches(s.planes, t, j) ==> s.planes[j].available + s.leases[order[0]].bytes <= U64_MAX
  {
    GoodPlanes(s);
    IndexOfUnique(s.planes, t);
    assert forall j: nat {:trigger Carries(s, order[0], j)} :: Carries(s, order[0], j) <==> j < |s.planes| && Touches(s.planes, t, j);
  }

  /** What a later victim finds, told from before and after the first. */
  lemma LaterSum(s: State, t: nat, order: seq<LeaseId>, k: nat, j: nat)
    requires Inv(s) && Victims(s, t, order) && 0 < k < |order| && j < |s.planes| && Touches(s.planes, t, j)
    ensures var next := CreditLease(s, order[0], Preempted);
      && |next.planes| == |s.planes| && Touches(next.planes, t, j)
      && order[k] in next.leases && next.leases[order[k]].bytes == s.leases[order[k]].bytes
      && (forall id :: id in order[1..][..k - 1] ==> id in next.leases)
      && Min(next.planes[j].total, next.planes[j].available + SumOver(order[1..][..k - 1], Sizes(next.leases)))
         == Min(s.planes[j].total, s.planes[j].available + SumOver(order[..k], Sizes(s.leases)))
  {
    hide CreditLease, SumOver, Inv, Touches, Distinct;
    GoodPlanes(s);
    IndexOfUnique(s.planes, t);
    OneVictim(s, t, order[0]);
    OneVictimElsewhere(s, t, order[0], j);
    SumOfPrefix(order, k, Sizes(s.leases));
    LaterLeases(s, order, k);
    AvailableWithinTotal(s, j);
  }

  lemma AvailableWithinTotal(s: State, j: nat)
    requires Inv(s) && j < |s.planes|
    ensures s.planes[j].available <= s.planes[j].total
  {
    assert Bounded(s, j);
  }

  /** The table of leases keeps its keys and sizes. */
  lemma LaterLeases(s: State, order: seq<LeaseId>, k: nat)
    requires 0 < k < |order| && forall i {:trigger order[i]} :: 0 <= i < |order| ==> order[i] in s.leases
    ensures var next := CreditLease(s, order[0], Preempted);
      && order[k] in next.leases && next.leases[order[k]].bytes == s.leases[order[k]].bytes
      && (forall id :: id in order[1..][..k - 1] ==> id in next.leases)
  {
    assert forall id :: id in order[1..][..k - 1] ==> id in order;
  }

  /** The loop counts one victim and goes on. */
  lemma CountOneMore(s: State, t: nat, required: nat, order: seq<LeaseId>)
    requires Inv(s) && Victims(s, t, order) && order != [] && s.planes[t].available < required
    ensures var next := CreditLease(s, order[0], Preempted);
      && |next.planes| == |s.planes| && (forall id :: id in order[1..] ==> id in next.leases)
      && VictimCount(s, t, required, order) == VictimCount(next, t, required, order[1..]) + 1
  {
    hide VictimCount, Inv;
    RestOfVictims(s, t, order);
    CountFromLoop(s, t, required, order);
    CountFromLoop(CreditLease(s, order[0], Preempted), t, required, order[1..]);
  }

  lemma LoopFitsOneMore(s: State, t: nat, required: nat, order: seq<LeaseId>)
    requires Inv(s) && Victims(s, t, order) && order != [] && s.planes[t].available < required
    ensures var next := CreditLease(s, order[0], Preempted);
      && |next.planes| == |s.planes| && (forall id :: id in order[1..] ==> id in next.leases)
      && (LoopFits(s, t, required, order) <==> ReturnFits(s, order[0]) && LoopFits(next, t, required, order[1..]))
  {
    hide VictimCount, Inv, CreditLease, SumOver, Touches, Distinct, IndexOf;
    var next, rest := CreditLease(s, order[0], Preempted), order[1..];
    CountOneMore(s, t, required, order);
    FirstFits(s, t, order);
    SumOfNothing(order, Sizes(s.leases));
    TouchesLater(s, t, order);
    if LoopFits(s, t, required, order) {
      forall j | 0 <= j < |s.planes| && Touches(s.planes, t, j) ensures s.planes[j].available + s.leases[order[0]].bytes <= U64_MAX {
        FirstSum(s, t, required, order, j);
      }
      forall k, j | 0 <= k < VictimCount(next, t, required, rest) && 0 <= j < |next.planes| && Touches(next.planes, t, j)
        ensures Min(next.planes[j].total, next.planes[j].available + SumOver(rest[..k], Sizes(next.leases))) + next.leases[rest[k]].bytes <= U64_MAX
      {
        assert order[k + 1] == rest[k];
        LaterSum(s, t, order, k + 1, j);
      }
    }
    if ReturnFits(s, order[0]) && LoopFits(next, t, required, rest) {
      forall k, j | 0 <= k < VictimCount(s, t, required, order) && 0 <= j < |s.planes| && Touches(s.planes, t, j)
        ensures Min(s.planes[j].total, s.planes[j].available + SumOver(order[..k], Sizes(s.leases))) + s.leases[order[k]].bytes <= U64_MAX
      {
        if k > 0 {
          assert order[k] == rest[k - 1];
          LaterSum(s, t, order, k, j);
        }
      }
    }
  }

  lemma TouchesLater(s: State, t: nat, order: seq<LeaseId>)
    requires Inv(s) && Victims(s, t, order) && order != []
    ensures var next := CreditLease(s, order[0], Preempted); forall j :: Touches(next.planes, t, j) <==> Touches(s.planes, t, j)
  {
    forall j: nat ensures Touches(CreditLease(s, order[0], Preempted).planes, t, j) <==> Touches(s.planes, t, j) {
      SameTouches(s.planes, CreditLease(s, order[0], Preempted).planes, t, j);
    }
  }

  lemma FirstSum(s: State, t: nat, required: nat, order: seq<LeaseId>, j: nat)
    requires Inv(s) && Victims(s, t, order) && 0 < VictimCount(s, t, required, order) && LoopFits(s, t, required, order)
    requires j < |s.planes| && Touches(s.planes, t, j)
    ensures s.planes[j].available + s.leases[order[0]].bytes <= U64_MAX
  {
    assert Bounded(s, j);
    SumOfNothing(order, Sizes(s.leases));
    assert order[0] in s.leases;
  }

  lemma LoopAgreesOneMore(s: State, t: nat, required: nat, order: seq<LeaseId>)
    requires Inv(s) && Victims(s, t, order) && order != [] && s.planes[t].available < required
    requires Credit64(s, order[0], Preempted) == CreditLease(s, order[0], Preempted)
    ensures var next := CreditLease(s, order[0], Preempted);
      && |next.planes| == |s.planes| && (forall id :: id in order[1..] ==> id in next.leases)
      && (LoopAgrees(s, t, required, order) <==> LoopAgrees(next, t, required, order[1..]))
  {
    hide CreditLease, Credit64, Inv;
    var next, rest := CreditLease(s, order[0], Preempted), order[1..];
    RestOfVictims(s, t, order);
    forall k | 0 <= k <= |rest|
      ensures Preempt64(s, t, required, order[..k + 1]) == Preempt(s, t, required, order[..k + 1]) <==>
        Preempt64(next, t, required, rest[..k]) == Preempt(next, t, required, rest[..k])
    {
      assert order[..k + 1][1..] == rest[..k];
    }
    if LoopAgrees(next, t, required, rest) {
      forall k | 0 <= k <= |order| ensures Preempt64(s, t, required, order[..k]) == Preempt(s, t, required, order[..k]) {
        if k > 0 {
          assert Preempt64(next, t, required, rest[..k - 1]) == Preempt(next, t, required, rest[..k - 1]);
        }
      }
    }
  }

  /** The machine's loop goes through the intended states exactly when every sum on the way fits. */
  lemma {:induction false} LoopAgreesIff(s: State, t: nat, required: nat, order: seq<LeaseId>)
    requires Inv(s) && WordSized(s) && Victims(s, t, order)
    ensures LoopAgrees(s, t, required, order) <==> LoopFits(s, t, required, order)
    decreases |order|
  {
    hide Inv, CreditLease, Credit64, VictimCount, LoopAgrees, LoopFits;
    if order == [] || required <= s.planes[t].available {
      LoopIdle(s, t, required, order);
    } else {
      var next := CreditLease(s, order[0], Preempted);
      RestOfVictims(s, t, order);
      CreditAgreesIff(s, order[0], Preempted);
      LoopFitsOneMore(s, t, required, order);
      if ReturnFits(s, order[0]) {
        LoopAgreesOneMore(s, t, required, order);
        LoopAgreesIff(next, t, required, order[1..]);
      } else {
        FirstDiffers(s, t, required, order);
      }
    }
  }

  lemma LoopIdle(s: State, t: nat, required: nat, order: seq<LeaseId>)
    requires Inv(s) && Victims(s, t, order) && (order == [] || required <= s.planes[t].available)
    ensures LoopAgrees(s, t, required, order) && LoopFits(s, t, required, order)
  {
    hide Inv;
    CountFromLoop(s, t, required, order);
  }

  lemma FirstDiffers(s: State, t: nat, required: nat, order: seq<LeaseId>)
    requires t < |s.planes| && order != [] && s.planes[t].available < required && forall id :: id in order ==> id in s.leases
    requires Credit64(s, order[0], Preempted) != CreditLease(s, order[0], Preempted)
    ensures !LoopAgrees(s, t, required, order)
  {
    hide Credit64, CreditLease;
    var one := order[..1];
    assert one == [order[0]] && one[1..] == [];
    assert Preempt64(Credit64(s, order[0], Preempted), t, required, []) == (Credit64(s, order[0], Preempted), 0);
    assert Preempt64(s, t, required, one) == (Credit64(s, order[0], Preempted), 1);
    assert Preempt(s, t, required, one) == (CreditLease(s, order[0], Preempted), 1);
  }

  // ----- agreement of operations and runs -----

  /** The plane on which a request is about to look for victims. */
  predicate Works(s: State, critical: bool, req: Request) {
    (critical ==> req.priority.EmergencyTriage?) && SelectPlane(s.planes, req).Ok?
  }

  /** No sum that the operation computes goes beyond 64 bits, as the state before it tells. */
  ghost predicate OpFits(s: State, op: Op)
    requires Enabled(s, op)
  {
    match op
    case AcquireOp(critical, req, order, _) =>
      Works(s, critical, req) ==> LoopFits(s, SelectPlane(s.planes, req).value, req.required, order)
    case ReleaseOp(id) => IsActiveIn(s, id) ==> ReturnFits(s, id)
    case RevokeOp(id) => IsActiveIn(s, id) ==> ReturnFits(s, id)
    case _ => true
  }

  /** The machine does what is intended, a request also on the way. */
  ghost predicate OpAgrees(s: State, op: Op)
    requires Enabled(s, op)
  {
    && Apply64(s, op) == Apply(s, op)
    && (op.AcquireOp? && Works(s, op.critical, op.req) ==>
         LoopAgrees(s, SelectPlane(s.planes, op.req).value, op.req.required, op.order))
  }

  lemma AcquireAgrees(s: State, critical: bool, req: Request, order: seq<LeaseId>, id: LeaseId)
    requires Orders(s, req, order)
    requires Works(s, critical, req) ==> LoopAgrees(s, SelectPlane(s.planes, req).value, req.required, order)
    ensures Acquire64(s, critical, req, order, id) == Acquire(s, critical, req, order, id)
  {
    hide ChargeLease, Collect;
    if Works(s, critical, req) {
      assert order[..|order|] == order;
    }
  }

  lemma OrderIsVictims(s: State, req: Request, order: seq<LeaseId>)
    requires Inv(s) && Orders(s, req, order) && SelectPlane(s.planes, req).Ok?
    ensures Victims(s, SelectPlane(s.planes, req).value, order)
  {
    var t := SelectPlane(s.planes, req).value;
    forall k | 0 <= k < |order| ensures IsActiveIn(s, order[k]) && s.leases[order[k]].plane == s.planes[t].id {
      assert order[k] in Eligible(s, t, req.priority);
    }
  }

  /** An operation of the machine is the intended one at every step exactly when every sum it computes fits. */
  lemma OpAgreesIff(s: State, op: Op)
    requires Inv(s) && WordSized(s) && Enabled(s, op)
    ensures OpAgrees(s, op) <==> OpFits(s, op)
  {
    hide Inv, Credit64, CreditLease, LoopAgrees, LoopFits, WordSized;
    match op
    case AcquireOp(critical, req, order, newId) =>
      if Works(s, critical, req) {
        OrderIsVictims(s, req, order);
        LoopAgreesIff(s, SelectPlane(s.planes, req).value, req.required, order);
      }
      if OpFits(s, op) || OpAgrees(s, op) {
        AcquireAgrees(s, critical, req, order, newId);
      }
    case ReleaseOp(id) => if IsActiveIn(s, id) { CreditAgreesIff(s, id, Expired); }
    case RevokeOp(id) => if IsActiveIn(s, id) { CreditAgreesIff(s, id, LeaseState.Revoked); }
    case _ =>
  }

  /** The sizes in an operation are 64-bit numbers. */
  ghost predicate OpWordSized(op: Op) {
    match op
    case AcquireOp(_, req, _, _) => req.required <= U64_MAX
    case UpdateOp(planes, _) => forall j :: 0 <= j < |planes| ==> planes[j].total <= U64_MAX
    case _ => true
  }

  lemma StepKeepsWordSized(s: State, op: Op)
    requires Inv(s) && WordSized(s) && Enabled(s, op) && OpWordSized(op)
    ensures WordSized(Apply(s, op))
  {
    hide Inv;
    var r := Apply(s, op);
    LayoutAfter(s, op);
    forall id | id in r.leases ensures r.leases[id].bytes <= U64_MAX {
      if id in s.leases {
        StepFaith(s, op, id);
      } else {
        Newcomer(s, op, id);
      }
    }
  }

  /** Every sum on the way fits. */
  ghost predicate RunFits(s: State, ops: seq<Op>)
    requires Legal(s, ops)
    decreases |ops|
  {
    ops == [] || (OpFits(s, ops[0]) && RunFits(Apply(s, ops[0]), ops[1..]))
  }

  /** The machine goes through the same states, also half-way through operations. */
  ghost predicate RunAgrees(s: State, ops: seq<Op>)
    requires Legal(s, ops)
    decreases |ops|
  {
    ops == [] || (OpAgrees(s, ops[0]) && RunAgrees(Apply(s, ops[0]), ops[1..]))
  }

  /** The wrapping machine goes through exactly the intended run if and only if each operation's sums fit, which the state
      before the operation tells. */
  lemma {:induction false} RunAgreesIff(s: State, ops: seq<Op>)
    requires Inv(s) && WordSized(s) && Legal(s, ops) && forall op :: op in ops ==> OpWordSized(op)
    ensures RunAgrees(s, ops) <==> RunFits(s, ops)
    decreases |ops|
  {
    if ops != [] {
      OpAgreesIff(s, ops[0]);
      StepKeeps(s, ops[0]);
      StepKeepsWordSized(s, ops[0]);
      RunAgreesIff(Apply(s, ops[0]), ops[1..]);
    }
  }

  /** Agreement on the way is agreement at the end. */
  lemma {:induction false} SameEnd(s: State, ops: seq<Op>)
    requires Legal(s, ops) && RunAgrees(s, ops)
    ensures Legal64(s, ops) && Exec64(s, ops) == Exec(s, ops)
    decreases |ops|
  {
    if ops != [] {
      SameEnd(Apply(s, ops[0]), ops[1..]);
    }
  }

  /** So whatever was charged and given back before, nothing leaks on the machine along a run whose sums fit. */
  lemma MachineRecovery(planes: seq<Plane>, ops: seq<Op>, j: nat)
    requires GoodTopology(planes) && (forall i :: 0 <= i < |planes| ==> planes[i].total <= U64_MAX)
    requires Legal(Init(planes), ops) && (forall op :: op in ops ==> OpWordSized(op)) && RunFits(Init(planes), ops)
    ensures Legal64(Init(planes), ops)
    ensures var s := Exec64(Init(planes), ops);
      j < |s.planes| && (forall id :: !Carries(s, id, j)) ==>
        |s.installed| == |s.planes| && s.installed[j].available <= s.planes[j].available <= s.planes[j].total
  {
    InitKeeps(planes);
    RunAgreesIff(Init(planes), ops);
    SameEnd(Init(planes), ops);
    RunKeeps(Init(planes), ops);
    var s := Exec(Init(planes), ops);
    if j < |s.planes| && (forall id :: !Carries(s, id, j)) {
      forall id | id in s.leases && s.leases[id].IsActive() ensures !Touches(s.planes, IndexOf(s.planes, s.leases[id].plane), j) {
        assert !Carries(s, id, j);
      }
      RecoveredWhenIdle(s, j);
    }
  }

  // ----- a leak -----

  /** A plane without active leases that has fewer bytes than were installed. */
  ghost predicate Leaked(s: State) {
    && |s.planes| == |s.installed| == 1
    && (forall id :: !IsActiveIn(s, id))
    && s.planes[0].available < s.installed[0].available == s.installed[0].total <= U64_MAX
  }

  /** Four machine steps in a row. */
  lemma Legal64Four(s: State, op1: Op, op2: Op, op3: Op, op4: Op)
    requires Enabled(s, op1) && Enabled(Apply64(s, op1), op2) && Enabled(Apply64(Apply64(s, op1), op2), op3)
    requires Enabled(Apply64(Apply64(Apply64(s, op1), op2), op3), op4)
    ensures Legal64(s, [op1, op2, op3, op4])
    ensures Exec64(s, [op1, op2, op3, op4]) == Apply64(Apply64(Apply64(Apply64(s, op1), op2), op3), op4)
  {
    var s1 := Apply64(s, op1);
    var s2 := Apply64(s1, op2);
    var s3 := Apply64(s2, op3);
    var s4 := Apply64(s3, op4);
    assert [op1, op2, op3, op4][1..] == [op2, op3, op4] && [op2, op3, op4][1..] == [op3, op4];
    assert [op3, op4][1..] == [op4] && [op4][1..] == [];
    assert Legal64(s4, []) && Legal64(s3, [op4]) && Legal64(s2, [op3, op4]) && Legal64(s1, [op2, op3, op4]);
    assert Exec64(s3, [op4]) == Exec64(s4, []);
    assert Exec64(s2, [op3, op4]) == Exec64(s3, [op4]);
    assert Exec64(s1, [op2, op3, op4]) == Exec64(s2, [op3, op4]);
  }

  lemma ForcedGrant64(s: State, bytes: nat, id: LeaseId)
    requires |s.planes| == 1 && s.planes[0].id == "gpu" && s.planes[0].kind.DiscreteGpu? && s.planes[0].total == 8
    requires s.planes[0].available <= bytes && id !in s.issued && |s.leases| <= 1
    requires forall x :: x in s.leases ==> s.leases[x].priority.EmergencyTriage?
    ensures Enabled(s, ForcedOp(bytes, id)) && Apply64(s, ForcedOp(bytes, id)) == Apply(s, ForcedOp(bytes, id))
  {
    ForcedGrant(s, bytes, id);
  }

  /** Returning the small lease and then the huge one: the second sum wraps around to seven. */
  lemma HugeReturn(s: State)
    requires |s.planes| == 1 && s.planes[0] == SMALL_GPU[0].(available := 0) && s.installed == SMALL_GPU
    requires s.leases == map[1 := Lease("gpu", U64_MAX, EmergencyTriage, Active, NOBODY), 2 := Lease("gpu", 8, EmergencyTriage, Active, NOBODY)]
    ensures Leaked(Apply64(Apply64(s, ReleaseOp(2)), ReleaseOp(1)))
  {
    var m := Apply64(s, ReleaseOp(2));
    assert IsActiveIn(s, 2);
    assert Give64(s.planes, 0, 8)[0].available == MachineRestore(0, 8, 8) == 8;
    assert IsActiveIn(m, 1) && !IsActiveIn(m, 2);
    var r := Apply64(m, ReleaseOp(1));
    assert MachineRestore(8, U64_MAX, 8) == 7;
    assert r.planes[0].available == 7;
  }

  /** With forced emergency grants the machine can lose bytes for good: a run of four operations that ends with no active
      lease and a plane one byte short of what it began with. */
  lemma LeakWitness()
    ensures exists planes, ops :: GoodTopology(planes) && Legal64(Init(planes), ops) && Leaked(Exec64(Init(planes), ops))
  {
    hide Acquire, Acquire64, Leaked, Release;
    var s0, s1, s2 := TwoForcedGrants();
    assert |s1.leases| == |s1.leases.Keys| == |{1}|;
    ForcedGrant64(s0, U64_MAX, 1);
    ForcedGrant64(s1, 8, 2);
    HugeReturn(s2);
    Legal64Four(s0, HUGE_OP, SMALL_OP, ReleaseOp(2), ReleaseOp(1));
    assert GoodTopology(SMALL_GPU);
  }
}
