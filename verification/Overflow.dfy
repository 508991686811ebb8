/** `restore_plane_memory` adds 64-bit numbers without saturation: when that is safe, and runs that show the limits of
    the ledger. */
module Overflow {
  import opened Numbers
  import opened Leases
  import opened Topology
  import opened ArbiterSpec
  import opened Ledger
  import opened Runs

  /** The restore as a 64-bit machine without overflow checks computes it. */
  function MachineRestore(available: nat, bytes: nat, total: nat): nat {
    Min(WrapAdd(available, bytes), total)
  }

  /** The machine's restore is the intended one exactly when the sum fits in 64 bits. */
  lemma MachineRestoreIff(available: nat, bytes: nat, total: nat)
    requires available <= total <= U64_MAX && bytes <= U64_MAX
    ensures MachineRestore(available, bytes, total) == Min(available + bytes, total) <==> available + bytes <= U64_MAX
  {
    if available + bytes > U64_MAX {
      assert (available + bytes) % (U64_MAX + 1) == available + bytes - (U64_MAX + 1);
    }
  }

  /** The sum computed for plane `j` when lease `id` comes back after all other leases that the plane carries: the largest
      there can be before anything else is charged. */
  ghost function LastSum(s: State, id: LeaseId, j: nat): nat
    requires id in s.leases && j < |s.planes|
  {
    var bytes := s.leases[id].bytes;
    Min(s.planes[j].total, s.planes[j].available + SatSub(Charged(s.planes, s.leases, j), bytes)) + bytes
  }

  /** Active lease `id` is carried by plane `j`, its own or the host plane behind it. */
  predicate Carries(s: State, id: LeaseId, j: nat) {
    IsActiveIn(s, id) && j < |s.planes| && Touches(s.planes, IndexOf(s.planes, s.leases[id].plane), j)
  }

  /** Giving a lease back now computes no more than that. */
  lemma SumAtMostLast(s: State, id: LeaseId, j: nat)
    requires Inv(s) && Carries(s, id, j)
    ensures s.planes[j].available + s.leases[id].bytes <= LastSum(s, id, j)
    ensures LastSum(s, id, j) <= s.planes[j].available + Charged(s.planes, s.leases, j)
  {
    assert Bounded(s, j);
    ChargedAtLeast(s.planes, s.leases, id, j);
  }

  /** Every state that keeps the ledger invariant, also half-way through a preemption loop, restores an active lease
      exactly on every plane where its last sum fits in 64 bits. */
  lemma RestoreFits(s: State, id: LeaseId, j: nat)
    requires Inv(s) && Carries(s, id, j) && LastSum(s, id, j) <= U64_MAX
    ensures MachineRestore(s.planes[j].available, s.leases[id].bytes, s.planes[j].total)
         == Min(s.planes[j].available + s.leases[id].bytes, s.planes[j].total)
  {
    SumAtMostLast(s, id, j);
  }

  const NOBODY := Client(None, None)

  /** A request for a named plane with nothing to preempt. */
  lemma PlainGrant(s: State, t: nat, req: Request, id: LeaseId)
    requires t < |s.planes| && req.preferred == Some(s.planes[t].id) && IndexOf(s.planes, s.planes[t].id) == t
    requires forall x :: x in s.leases ==> !s.leases[x].IsActive() || req.priority.Rank() <= s.leases[x].priority.Rank()
    requires req.required <= s.planes[t].available || req.priority.EmergencyTriage?
    requires |s.leases| <= TABLE_LIMIT
    ensures Orders(s, req, [])
    ensures Acquire(s, false, req, [], id).state == ChargeLease(s, id, NewLease(s, t, req), t)
    ensures Acquire(s, false, req, [], id).result == Ok(id)
  {
    assert Eligible(s, t, req.priority) == {};
  }

  /** All numbers fit in 64 bits, but giving back lease `id` does not. */
  ghost predicate OverflowsOnReturn(s: State, id: LeaseId) {
    && |s.planes| == 1 && id in s.leases && s.leases[id].IsActive() && s.leases[id].plane == s.planes[0].id
    && s.leases[id].bytes <= U64_MAX && s.planes[0].available <= s.planes[0].total <= U64_MAX
    && U64_MAX < s.planes[0].available + s.leases[id].bytes
  }

  const SMALL_GPU := [Plane("gpu", DiscreteGpu, 8, 8, false, false)]

  function ForcedOp(bytes: nat, id: LeaseId): Op {
    AcquireOp(false, Request(EmergencyTriage, bytes, Some("gpu"), NOBODY), [], id)
  }

  /** A forced grant on the small GPU. */
  lemma ForcedGrant(s: State, bytes: nat, id: LeaseId)
    requires |s.planes| == 1 && s.planes[0].id == "gpu" && s.planes[0].kind.DiscreteGpu? && s.planes[0].total == 8
    requires s.planes[0].available <= bytes && id !in s.issued && |s.leases| <= 1
    requires forall x :: x in s.leases ==> s.leases[x].priority.EmergencyTriage?
    ensures var op := ForcedOp(bytes, id);
      Enabled(s, op) && Apply(s, op) == State([s.planes[0].(available := 0)],
        s.leases[id := Lease("gpu", bytes, EmergencyTriage, Active, NOBODY)], s.installed,
        After(s.journal, Entry.Charge(id, 0, bytes)), s.issued + {id})
  {
    PlainGrant(s, 0, Request(EmergencyTriage, bytes, Some("gpu"), NOBODY), id);
    assert Take(s.planes, 0, bytes) == [s.planes[0].(available := 0)];
  }

  /** The release of an eight-byte lease makes the drained GPU full while another lease is still active on it. */
  lemma FullAgain(s: State, id: LeaseId, other: LeaseId)
    requires |s.planes| == 1 && s.planes[0] == SMALL_GPU[0].(available := 0) && other != id
    requires id in s.leases && s.leases[id].IsActive() && s.leases[id].plane == "gpu" && s.leases[id].bytes == U64_MAX
    requires other in s.leases && s.leases[other].IsActive() && s.leases[other].plane == "gpu" && s.leases[other].bytes == 8
    ensures OverflowsOnReturn(Release(s, other).state, id)
  {
    assert Give(s.planes, 0, 8)[0].available == 8;
  }

  const HUGE_OP := ForcedOp(U64_MAX, 1)
  const SMALL_OP := ForcedOp(8, 2)

  /** Two forced grants in a row, the first of the largest size. */
  lemma TwoForcedGrants() returns (s0: State, s1: State, s2: State)
    ensures s0 == Init(SMALL_GPU)
    ensures Enabled(s0, HUGE_OP) && s1 == Apply(s0, HUGE_OP)
    ensures s1.planes == [SMALL_GPU[0].(available := 0)] && s1.installed == SMALL_GPU && s1.issued == {1}
    ensures s1.leases == map[1 := Lease("gpu", U64_MAX, EmergencyTriage, Active, NOBODY)]
    ensures Enabled(s1, SMALL_OP) && s2 == Apply(s1, SMALL_OP)
    ensures s2.planes == s1.planes && s2.installed == SMALL_GPU
    ensures s2.leases == s1.leases[2 := Lease("gpu", 8, EmergencyTriage, Active, NOBODY)]
  {
    hide Acquire;
    s0 := Init(SMALL_GPU);
    ForcedGrant(s0, U64_MAX, 1);
    s1 := Apply(s0, HUGE_OP);
    assert s1.leases.Keys == {1};
    assert |s1.leases| == |s1.leases.Keys|;
    ForcedGrant(s1, 8, 2);
    s2 := Apply(s1, SMALL_OP);
  }

  /** A run in which the sum does overflow: after a forced emergency grant of the largest size, a second forced grant and
      its release, eight bytes are available and the first lease still holds them all on paper. */
  lemma OverflowWitness()
    ensures exists s, id :: ArbiterSpec.Reachable(s) && OverflowsOnReturn(s, id)
  {
    hide Acquire, Release, OverflowsOnReturn;
    var s0, s1, s2 := TwoForcedGrants();
    FullAgain(s2, 1, 2);
    LegalThree(s0, HUGE_OP, SMALL_OP, ReleaseOp(2));
    assert GoodTopology(SMALL_GPU);
    assert ArbiterSpec.Reachable(Apply(s2, ReleaseOp(2)));
  }

  lemma LegalThree(s: State, op1: Op, op2: Op, op3: Op)
    requires Enabled(s, op1) && Enabled(Apply(s, op1), op2) && Enabled(Apply(Apply(s, op1), op2), op3)
    ensures Legal(s, [op1, op2, op3]) && Exec(s, [op1, op2, op3]) == Apply(Apply(Apply(s, op1), op2), op3)
  {
    var s1, s2 := Apply(s, op1), Apply(Apply(s, op1), op2);
    var s3 := Apply(s2, op3);
    assert [op1, op2, op3][1..] == [op2, op3] && [op2, op3][1..] == [op3] && [op3][1..] == [];
    assert Legal(s3, []) && Legal(s2, [op3]) && Legal(s1, [op2, op3]);
    assert Exec(s2, [op3]) == Exec(s3, []);
    assert Exec(s1, [op2, op3]) == Exec(s2, [op3]);
  }

  const UNIFIED := [Plane("uma", IntegratedUma, 8, 8, false, false), Plane("cpu", CpuMatrixExtension, 4, 4, false, false)]

  /** Six bytes are charged to the host plane, which had four. */
  lemma HostShort(r: State)
    requires r.installed == UNIFIED && r.planes == Take(UNIFIED, 0, 6)
    requires r.leases == map[1 := Lease("uma", 6, Interactive, Active, NOBODY)]
    ensures r.planes[1].available == 0 && !Exact(r, 1)
  {
    assert FirstCpu(UNIFIED) == 1;
    SameLayoutLookups(UNIFIED, r.planes);
    ChargedAtLeast(r.planes, r.leases, 1, 1);
  }

  /** An ordinary grant can break conservation too: `acquire_lease` looks only at the unified-memory plane and lets the
      host plane behind it saturate, so that more is charged there than was ever installed. */
  lemma HostOverdraftWitness()
    ensures var op := AcquireOp(false, Request(Interactive, 6, Some("uma"), NOBODY), [], 1);
      && GoodTopology(UNIFIED) && Enabled(Init(UNIFIED), op)
      && var r := Apply(Init(UNIFIED), op);
         |r.planes| == |r.installed| == 2 && 1 in r.leases && r.planes[1].available == 0 && !Exact(r, 1)
  {
    hide Acquire, Exact;
    var req := Request(Interactive, 6, Some("uma"), NOBODY);
    PlainGrant(Init(UNIFIED), 0, req, 1);
    HostShort(ChargeLease(Init(UNIFIED), 1, NewLease(Init(UNIFIED), 0, req), 0));
  }
}
