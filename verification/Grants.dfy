/** What a request gets, under which name, and who can lose a lease to it, over whole runs. */
module Grants {
  import opened Leases
  import opened Topology
  import opened Sums
  import opened ArbiterSpec
  import opened Ledger
  import opened Hotplug
  import opened Runs
  import opened Preemption

  /** The answer to a request, told from the state before it: the new lease, or the first of three reasons to refuse. */
  lemma AnswerKnown(s: State, critical: bool, req: Request, order: seq<LeaseId>, id: LeaseId)
    requires Inv(s) && Orders(s, req, order)
    ensures var selected := SelectPlane(s.planes, req);
      Acquire(s, critical, req, order, id).result ==
        if critical && (req.priority.Batch? || req.priority.Interactive?) then Err(BusSaturation)
        else if selected.Err? then Err(selected.error)
        else if req.priority.EmergencyTriage? || req.required <= Offer(s, selected.value, req.priority) then Ok(id)
        else Err(ResourceExhaustion(s.planes[selected.value].id, req.required, Offer(s, selected.value, req.priority)))
  {
    GoodPlanes(s);
    var selected := SelectPlane(s.planes, req);
    if selected.Ok? {
      LoopClears(s, selected.value, req.required, req.priority, order);
    }
  }

  // ----- names -----

  /** The leases that an operation hands out: what its caller is told, not what the table says. */
  function HandedOut(s: State, op: Op): seq<LeaseId>
    requires Enabled(s, op)
  {
    match op
    case AcquireOp(critical, req, order, newId) =>
      var result := Acquire(s, critical, req, order, newId).result;
      if result.Ok? then [result.value] else []
    case _ => []
  }

  function AllHandedOut(s: State, ops: seq<Op>): seq<LeaseId>
    requires Legal(s, ops)
    decreases |ops|
  {
    if ops == [] then [] else HandedOut(s, ops[0]) + AllHandedOut(Apply(s, ops[0]), ops[1..])
  }

  lemma AcquireHandsOut(s: State, critical: bool, req: Request, order: seq<LeaseId>, id: LeaseId)
    requires Inv(s) && Orders(s, req, order) && id !in s.issued
    ensures var a := Acquire(s, critical, req, order, id);
      if a.result.Ok? then
        a.result.value == id && a.state.issued == s.issued + {id} && id in a.state.leases && a.state.leases.Keys <= s.leases.Keys + {id}
      else a.state.issued == s.issued && a.state.leases.Keys == s.leases.Keys
  {
    var selected := SelectPlane(s.planes, req);
    if selected.Ok? {
      PreemptFrame(s, selected.value, req.required, order);
    }
  }

  /** Exactly the lease handed out by a step is new: it was never issued before, it is in the table, and no other lease
      enters the table or is issued. */
  lemma StepHandsOut(s: State, op: Op)
    requires Inv(s) && Enabled(s, op)
    ensures var r, out := Apply(s, op), HandedOut(s, op);
      && |out| <= 1
      && (forall id :: id in out ==> id !in s.issued && id !in s.leases && id in r.leases)
      && (forall id :: id in r.leases ==> id in s.leases || id in out)
      && (forall id :: id in r.issued <==> id in s.issued || id in out)
  {
    match op
    case AcquireOp(critical, req, order, newId) => AcquireHandsOut(s, critical, req, order, newId);
    case UpdateOp(planes, listing) => UpdateClosedForm(s, planes, listing);
    case _ =>
  }

  lemma DistinctJoin(a: seq<LeaseId>, b: seq<LeaseId>)
    requires Distinct(a) && Distinct(b) && forall id :: id in a ==> id !in b
    ensures Distinct(a + b)
  {
    forall i, j | 0 <= i < j < |a + b| ensures (a + b)[i] != (a + b)[j] {
      if i < |a| <= j {
        assert a[i] in a && b[j - |a|] in b;
      }
    }
  }

  /** Over every run no lease is handed out twice, none that was issued before, every lease that is ever in the table was
      handed out, and nothing else counts as issued. */
  lemma {:induction false} HandedOutOnce(s: State, ops: seq<Op>)
    requires Inv(s) && Legal(s, ops)
    ensures var r, out := Exec(s, ops), AllHandedOut(s, ops);
      && Distinct(out)
      && (forall id :: id in out ==> id !in s.issued)
      && (forall id :: id in r.leases ==> id in s.leases || id in out)
      && (forall id :: id in r.issued <==> id in s.issued || id in out)
    decreases |ops|
  {
    if ops != [] {
      StepHandsOut(s, ops[0]);
      StepKeeps(s, ops[0]);
      HandedOutOnce(Apply(s, ops[0]), ops[1..]);
      DistinctJoin(HandedOut(s, ops[0]), AllHandedOut(Apply(s, ops[0]), ops[1..]));
    }
  }

  // ----- priorities -----

  predicate IsPreemptedIn(s: State, id: LeaseId) {
    id in s.leases && s.leases[id].state.Preempted?
  }

  /** A lease becomes preempted only through a request that works on its plane and that it has to give way to. */
  lemma StepPreempts(s: State, op: Op, id: LeaseId)
    requires Inv(s) && Enabled(s, op) && id in s.leases && !IsPreemptedIn(s, id) && IsPreemptedIn(Apply(s, op), id)
    ensures op.AcquireOp? && Displaces(op.req.priority, s.leases[id].priority)
    ensures SelectPlane(s.planes, op.req).Ok? && s.leases[id].plane == s.planes[SelectPlane(s.planes, op.req).value].id
  {
    match op
    case AcquireOp(critical, req, order, newId) =>
      var selected := SelectPlane(s.planes, req);
      if selected.Ok? {
        AcquirePreempts(s, critical, req, order, newId, id);
        EligibleIff(s, selected.value, req.priority, id);
      }
    case UpdateOp(planes, listing) => UpdateClosedForm(s, planes, listing);
    case _ =>
  }

  lemma AcquirePreempts(s: State, critical: bool, req: Request, order: seq<LeaseId>, newId: LeaseId, id: LeaseId)
    requires Inv(s) && Orders(s, req, order) && newId !in s.issued && SelectPlane(s.planes, req).Ok?
    requires id in s.leases && !IsPreemptedIn(s, id)
    requires IsPreemptedIn(Acquire(s, critical, req, order, newId).state, id)
    ensures id in Eligible(s, SelectPlane(s.planes, req).value, req.priority)
  {
    hide Eligible;
    var t := SelectPlane(s.planes, req).value;
    if critical ==> req.priority.EmergencyTriage? {
      LoopLeases(s, t, req.required, order, id);
    }
  }

  /** So over every run a lease can end up preempted only if somebody asked whom it has to give way to: an emergency lease
      never, an interactive one only after an emergency request, a batch lease only after one of these. */
  lemma {:induction false} PreemptedOnlyBy(s: State, ops: seq<Op>, id: LeaseId)
    requires Inv(s) && Legal(s, ops) && id in s.leases && !IsPreemptedIn(s, id) && IsPreemptedIn(Exec(s, ops), id)
    ensures !s.leases[id].priority.EmergencyTriage?
    ensures s.leases[id].priority.Interactive? ==>
      exists k :: 0 <= k < |ops| && ops[k].AcquireOp? && ops[k].req.priority.EmergencyTriage?
    ensures s.leases[id].priority.Batch? ==>
      exists k :: 0 <= k < |ops| && ops[k].AcquireOp? && (ops[k].req.priority.EmergencyTriage? || ops[k].req.priority.Interactive?)
    decreases |ops|
  {
    if ops != [] {
      var next := Apply(s, ops[0]);
      if IsPreemptedIn(next, id) {
        StepPreempts(s, ops[0], id);
      } else {
        StepKeeps(s, ops[0]);
        StepFaith(s, ops[0], id);
        StepIssues(s, ops[0]);
        if id in next.leases {
          PreemptedOnlyBy(next, ops[1..], id);
          assert forall k :: 0 <= k < |ops| - 1 ==> ops[k + 1] == ops[1..][k];
        } else {
          AbsentForever(next, ops[1..], id);
        }
      }
    }
  }
}
