/** The arbiter as a state machine: one function per operation, each an atomic step under the write lock. */
module ArbiterSpec {
  import opened Leases
  import opened Topology
  import opened Sums

  /** One movement of bytes between a plane and a lease; `at` is the plane's position. */
  datatype Entry =
    | Charge(id: LeaseId, at: nat, bytes: nat)
    | Credit(id: LeaseId, at: nat, bytes: nat)

  datatype Journal = Opening | After(before: Journal, last: Entry)

  /** `planes` and `leases` are the arbiter's data. The rest is history that no operation reads: the topology last
      installed, every byte movement since then, and every lease identifier ever handed out. */
  datatype State = State(
    planes: seq<Plane>, leases: map<LeaseId, Lease>,
    installed: seq<Plane>, journal: Journal, issued: set<LeaseId>)

  function Init(planes: seq<Plane>): State {
    State(planes, map[], planes, Opening, {})
  }

  function SetState(s: State, id: LeaseId, st: LeaseState): State
    requires id in s.leases
  {
    s.(leases := s.leases[id := s.leases[id].(state := st)])
  }

  /** Takes the bytes of `lease` from plane `at` and enters the lease in the table. */
  function ChargeLease(s: State, id: LeaseId, lease: Lease, at: nat): State
    requires at < |s.planes|
  {
    s.(planes := Take(s.planes, at, lease.bytes),
       leases := s.leases[id := lease],
       journal := After(s.journal, Charge(id, at, lease.bytes)),
       issued := s.issued + {id})
  }

  /** Moves lease `id` to state `st` and restores its bytes to its plane, if that plane exists. */
  function CreditLease(s: State, id: LeaseId, st: LeaseState): State
    requires id in s.leases
  {
    var lease := s.leases[id];
    var at := IndexOf(s.planes, lease.plane);
    var moved := SetState(s, id, st);
    if at < |s.planes| then
      moved.(planes := Give(s.planes, at, lease.bytes), journal := After(s.journal, Credit(id, at, lease.bytes)))
    else moved
  }

  // ----- acquire_lease -----

  /** The leases that a request for plane `t` may preempt. */
  ghost function Eligible(s: State, t: nat, priority: Priority): set<LeaseId>
    requires t < |s.planes|
  {
    set id | id in s.leases && IsEligible(s, t, priority, id)
  }

  predicate IsEligible(s: State, t: nat, priority: Priority, id: LeaseId)
    requires t < |s.planes| && id in s.leases
  {
    var l := s.leases[id];
    l.plane == s.planes[t].id && l.IsActive() && l.priority.Rank() < priority.Rank()
  }

  /** An order in which the hash map and the stable sort can list the eligible leases: each once, lowest priority
      first, ties in any order. */
  ghost predicate IsVictimOrder(s: State, t: nat, priority: Priority, order: seq<LeaseId>)
    requires t < |s.planes|
  {
    && Distinct(order)
    && (forall id :: id in order <==> id in Eligible(s, t, priority))
    && (forall i, j :: 0 <= i < j < |order| ==>
         order[i] in s.leases && order[j] in s.leases &&
         s.leases[order[i]].priority.Rank() <= s.leases[order[j]].priority.Rank())
  }

  /** Preempts along `order` until plane `t` has `required` bytes; also tells how many leases were preempted. */
  function Preempt(s: State, t: nat, required: nat, order: seq<LeaseId>): (r: (State, nat))
    requires t < |s.planes|
    requires forall id :: id in order ==> id in s.leases
    ensures r.1 <= |order|
    ensures |r.0.planes| == |s.planes| && r.0.leases.Keys == s.leases.Keys
    decreases |order|
  {
    if order == [] || required <= s.planes[t].available then (s, 0)
    else
      var (rest, n) := Preempt(CreditLease(s, order[0], Preempted), t, required, order[1..]);
      (rest, n + 1)
  }

  const TABLE_LIMIT: nat := 128

  /** Forgets finished leases once the table has outgrown its limit. */
  function Collect(s: State): State {
    if |s.leases| > TABLE_LIMIT then
      s.(leases := map id | id in s.leases && s.leases[id].IsLive() :: s.leases[id])
    else s
  }

  /** The lease that a granted request creates on plane `t`. */
  function NewLease(s: State, t: nat, req: Request): Lease
    requires t < |s.planes|
  {
    Lease(s.planes[t].id, req.required, req.priority, Active, req.client)
  }

  /** What `acquire_lease` leaves behind: the new state, its result and the leases whose owners are told to freeze. */
  datatype Acquisition = Acquisition(state: State, result: Result<LeaseId>, signalled: seq<LeaseId>)

  /** The order of victims suits the plane that the request works on. */
  ghost predicate Orders(s: State, req: Request, order: seq<LeaseId>) {
    var t := SelectPlane(s.planes, req);
    t.Ok? ==> IsVictimOrder(s, t.value, req.priority, order)
  }

  function Acquire(s: State, critical: bool, req: Request, order: seq<LeaseId>, id: LeaseId): Acquisition
    requires Orders(s, req, order)
  {
    if critical && !req.priority.EmergencyTriage? then Acquisition(s, Err(BusSaturation), [])
    else
      match SelectPlane(s.planes, req)
      case Err(e) => Acquisition(s, Err(e), [])
      case Ok(t) =>
        var (cleared, n) := Preempt(s, t, req.required, order);
        var left := cleared.planes[t].available;
        if left < req.required && !req.priority.EmergencyTriage? then
          Acquisition(cleared, Err(ResourceExhaustion(s.planes[t].id, req.required, left)), [])
        else
          Acquisition(ChargeLease(Collect(cleared), id, NewLease(s, t, req), t), Ok(id), order[..n])
  }

  // ----- operations on one lease -----

  datatype Status = Done | Failed(error: Error)

  datatype Outcome = Outcome(state: State, status: Status)

  /** Ends a live lease in state `st`, giving its bytes back if it holds any: release and revoke. */
  function End(s: State, id: LeaseId, st: LeaseState): Outcome {
    if id !in s.leases then Outcome(s, Failed(LeaseNotFound(id)))
    else if !s.leases[id].IsLive() then Outcome(s, Done)
    else if s.leases[id].IsActive() then Outcome(CreditLease(s, id, st), Done)
    else Outcome(SetState(s, id, st), Done)
  }

  function Release(s: State, id: LeaseId): Outcome {
    End(s, id, Expired)
  }

  function Revoke(s: State, id: LeaseId): Outcome {
    End(s, id, Revoked)
  }

  /** Moves an active lease to another active state: yield and freeze. */
  function Mark(s: State, id: LeaseId, st: LeaseState): Outcome {
    if id !in s.leases then Outcome(s, Failed(LeaseNotFound(id)))
    else if !s.leases[id].IsActive() then Outcome(s, Done)
    else Outcome(SetState(s, id, st), Done)
  }

  function Yield(s: State, id: LeaseId): Outcome {
    Mark(s, id, Preempting)
  }

  function Freeze(s: State, id: LeaseId): Outcome {
    Mark(s, id, Frozen)
  }

  function Thaw(s: State, id: LeaseId): Outcome {
    if id !in s.leases then Outcome(s, Failed(LeaseNotFound(id)))
    else
      var l := s.leases[id];
      if l.state.Preempted? then
        var at := IndexOf(s.planes, l.plane);
        var cpu := FirstCpu(s.planes);
        if at == |s.planes| then Outcome(s, Failed(PlaneNotFound(Some(l.plane))))
        else if s.planes[at].available < l.bytes then
          Outcome(s, Failed(ResourceExhaustion(l.plane, l.bytes, s.planes[at].available)))
        else if s.planes[at].kind.IntegratedUma? && cpu < |s.planes| && s.planes[cpu].available < l.bytes then
          Outcome(s, Failed(ResourceExhaustion(s.planes[cpu].id, l.bytes, s.planes[cpu].available)))
        else Outcome(ChargeLease(s, id, l.(state := Active), at), Done)
      else if l.state.Frozen? || l.state.Preempting? then Outcome(SetState(s, id, Active), Done)
      else Outcome(s, Done)
  }

  // ----- update_topology -----

  /** Brings one lease over to the new planes: an active lease is charged again, a live one whose plane is gone is
      revoked. */
  function ReattachOne(s: State, id: LeaseId): State
    requires id in s.leases
  {
    var l := s.leases[id];
    var at := IndexOf(s.planes, l.plane);
    if l.IsActive() && at < |s.planes| then ChargeLease(s, id, l, at)
    else if l.IsLive() && at == |s.planes| then SetState(s, id, Revoked)
    else s
  }

  function Reattach(s: State, order: seq<LeaseId>): (r: State)
    requires forall id :: id in order ==> id in s.leases
    ensures r.leases.Keys == s.leases.Keys
    ensures SameLayout(r.planes, s.planes)
    decreases |order|
  {
    if order == [] then s else Reattach(ReattachOne(s, order[0]), order[1..])
  }

  /** The state in which the new planes are in place and no lease has been brought over. */
  function Installed(s: State, planes: seq<Plane>): State {
    s.(planes := planes, installed := planes, journal := Opening)
  }

  /** An order in which the hash map can list all leases. */
  ghost predicate IsListing(s: State, order: seq<LeaseId>) {
    Distinct(order) && forall id :: id in order <==> id in s.leases
  }

  function UpdateTopology(s: State, planes: seq<Plane>, order: seq<LeaseId>): State
    requires IsListing(s, order)
  {
    Reattach(Installed(s, planes), order)
  }

  // ----- runs -----

  datatype Op =
    | AcquireOp(critical: bool, req: Request, order: seq<LeaseId>, newId: LeaseId)
    | ReleaseOp(id: LeaseId)
    | RevokeOp(id: LeaseId)
    | YieldOp(id: LeaseId)
    | FreezeOp(id: LeaseId)
    | ThawOp(id: LeaseId)
    | UpdateOp(planes: seq<Plane>, listing: seq<LeaseId>)

  /** Lease identifiers are never handed out twice, and discovery yields good topologies; everything else about an
      operation is arbitrary. */
  ghost predicate Enabled(s: State, op: Op) {
    match op
    case AcquireOp(_, req, order, newId) => newId !in s.issued && Orders(s, req, order)
    case UpdateOp(planes, listing) => GoodTopology(planes) && IsListing(s, listing)
    case _ => true
  }

  function Apply(s: State, op: Op): State
    requires Enabled(s, op)
  {
    match op
    case AcquireOp(critical, req, order, newId) => Acquire(s, critical, req, order, newId).state
    case ReleaseOp(id) => Release(s, id).state
    case RevokeOp(id) => Revoke(s, id).state
    case YieldOp(id) => Yield(s, id).state
    case FreezeOp(id) => Freeze(s, id).state
    case ThawOp(id) => Thaw(s, id).state
    case UpdateOp(planes, listing) => UpdateTopology(s, planes, listing)
  }

  ghost predicate Legal(s: State, ops: seq<Op>)
    decreases |ops|
  {
    ops == [] || (Enabled(s, ops[0]) && Legal(Apply(s, ops[0]), ops[1..]))
  }

  function Exec(s: State, ops: seq<Op>): State
    requires Legal(s, ops)
    decreases |ops|
  {
    if ops == [] then s else Exec(Apply(s, ops[0]), ops[1..])
  }

  /** `s` ends some run of the arbiter from a good topology. */
  ghost predicate Reachable(s: State) {
    exists planes, ops :: GoodTopology(planes) && Legal(Init(planes), ops) && Exec(Init(planes), ops) == s
  }
}
