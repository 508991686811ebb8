/** What a request takes from lower-priority leases, for every order in which the hash map can list them. */
module Preemption {
  import opened Numbers
  import opened Leases
  import opened Topology
  import opened Sums
  import opened ArbiterSpec

  ghost function Sizes(leases: map<LeaseId, Lease>): map<LeaseId, nat> {
    map id | id in leases :: leases[id].bytes
  }

  /** Who has to give way to whom: everybody to an emergency but another emergency, batch work to interactive requests. */
  predicate Displaces(request: Priority, holder: Priority) {
    match request
    case EmergencyTriage => holder.Interactive? || holder.Batch?
    case Interactive => holder.Batch?
    case Batch => false
  }

  /** The leases that a request may preempt are the active ones on its plane that have to give way to it. */
  lemma EligibleIff(s: State, t: nat, priority: Priority, id: LeaseId)
    requires t < |s.planes|
    ensures id in Eligible(s, t, priority) <==>
      id in s.leases && s.leases[id].IsActive() && s.leases[id].plane == s.planes[t].id && Displaces(priority, s.leases[id].priority)
  {
  }

  /** Eligible leases, by the names of their priorities. */
  ghost predicate ByName(s: State, t: nat, priority: Priority)
    requires t < |s.planes|
  {
    forall id :: id in Eligible(s, t, priority) <==>
      id in s.leases && s.leases[id].IsActive() && s.leases[id].plane == s.planes[t].id && Displaces(priority, s.leases[id].priority)
  }

  lemma EligibleByName(s: State, t: nat, priority: Priority)
    requires t < |s.planes|
    ensures ByName(s, t, priority)
  {
    forall id ensures id in Eligible(s, t, priority) <==>
      id in s.leases && s.leases[id].IsActive() && s.leases[id].plane == s.planes[t].id && Displaces(priority, s.leases[id].priority)
    {
      EligibleIff(s, t, priority, id);
    }
  }

  /** The bytes of all leases that a request of this priority may preempt on plane `t`. */
  ghost function EligibleBytes(s: State, t: nat, priority: Priority): nat
    requires t < |s.planes|
  {
    Total(EligibleSizes(s, t, priority))
  }

  ghost function EligibleSizes(s: State, t: nat, priority: Priority): map<LeaseId, nat>
    requires t < |s.planes|
  {
    map id | id in Eligible(s, t, priority) :: s.leases[id].bytes
  }

  /** What plane `t` can offer to a request of this priority. */
  ghost function Offer(s: State, t: nat, priority: Priority): nat
    requires t < |s.planes|
  {
    Min(s.planes[t].total, s.planes[t].available + EligibleBytes(s, t, priority))
  }

  /** `n` is the shortest prefix of `order` whose sizes lift `available`, clamped to `total`, to `required`, or all of
      `order` if none does; `final` is what is available then. */
  ghost predicate ShortestPrefix(total: nat, available: nat, required: nat, order: seq<LeaseId>, sizes: map<LeaseId, nat>, final: nat, n: nat)
    requires forall id :: id in order ==> id in sizes
  {
    && n <= |order|
    && final == Min(total, available + SumOver(order[..n], sizes))
    && (n < |order| ==> required <= final)
    && (n > 0 ==> Min(total, available + SumOver(order[..n - 1], sizes)) < required)
  }

  /** The preemption loop stops as early as it can. */
  ghost predicate StopsInTime(s: State, t: nat, required: nat, order: seq<LeaseId>)
    requires t < |s.planes| && forall id :: id in order ==> id in s.leases
  {
    var (r, n) := Preempt(s, t, required, order);
    ShortestPrefix(s.planes[t].total, s.planes[t].available, required, order, Sizes(s.leases), r.planes[t].available, n)
  }

  /** Every lease of `order` lives on the plane of that name. */
  ghost predicate AllOn(leases: map<LeaseId, Lease>, order: seq<LeaseId>, plane: PlaneId) {
    forall id :: id in order ==> id in leases && leases[id].plane == plane
  }

  lemma RestOn(s: State, order: seq<LeaseId>, plane: PlaneId)
    requires order != [] && AllOn(s.leases, order, plane)
    ensures AllOn(CreditLease(s, order[0], Preempted).leases, order[1..], plane)
  {
  }

  /** One preemption gives the lease's bytes back to plane `t`, up to its total. */
  lemma OneVictim(s: State, t: nat, id: LeaseId)
    requires t < |s.planes| && IndexOf(s.planes, s.planes[t].id) == t
    requires id in s.leases && s.leases[id].plane == s.planes[t].id
    ensures var next := CreditLease(s, id, Preempted);
      && |next.planes| == |s.planes|
      && next.planes[t] == s.planes[t].(available := Min(s.planes[t].available + s.leases[id].bytes, s.planes[t].total))
      && IndexOf(next.planes, s.planes[t].id) == t
      && Sizes(next.leases) == Sizes(s.leases)
  {
    var next := CreditLease(s, id, Preempted);
    SameLayoutLookups(s.planes, next.planes);
    assert s.planes[t].(available := 0) == next.planes[t].(available := 0);
  }

  /** Extends a shortest prefix of the rest of the order by its first element. */
  lemma PrefixGrows(total: nat, available: nat, required: nat, order: seq<LeaseId>, sizes: map<LeaseId, nat>, final: nat, n: nat)
    requires order != [] && available < required && available <= total
    requires forall id :: id in order ==> id in sizes
    requires ShortestPrefix(total, Min(available + sizes[order[0]], total), required, order[1..], sizes, final, n)
    ensures ShortestPrefix(total, available, required, order, sizes, final, n + 1)
  {
    var rest := order[1..];
    assert order[..n + 1][1..] == rest[..n];
    if n > 0 {
      assert order[..n][1..] == rest[..n - 1];
    }
  }

  lemma PrefixEmpty(total: nat, available: nat, required: nat, order: seq<LeaseId>, sizes: map<LeaseId, nat>)
    requires available <= total && (order == [] || required <= available)
    requires forall id :: id in order ==> id in sizes
    ensures ShortestPrefix(total, available, required, order, sizes, available, 0)
  {
    assert order[..0] == [];
  }

  lemma {:induction false} LoopStopsInTime(s: State, t: nat, required: nat, order: seq<LeaseId>)
    requires t < |s.planes| && s.planes[t].available <= s.planes[t].total && IndexOf(s.planes, s.planes[t].id) == t
    requires AllOn(s.leases, order, s.planes[t].id)
    ensures StopsInTime(s, t, required, order)
    decreases |order|
  {
    hide CreditLease, SumOver, ShortestPrefix;
    var p := s.planes[t];
    if order == [] || required <= p.available {
      PrefixEmpty(p.total, p.available, required, order, Sizes(s.leases));
    } else {
      var next := CreditLease(s, order[0], Preempted);
      OneVictim(s, t, order[0]);
      RestOn(s, order, p.id);
      LoopStopsInTime(next, t, required, order[1..]);
      var (r, n) := Preempt(next, t, required, order[1..]);
      PrefixGrows(p.total, p.available, required, order, Sizes(s.leases), r.planes[t].available, n);
    }
  }

  /** The leases after preemption: the first `n` of the order are preempted, the others are as they were. */
  lemma {:induction false} LoopLeases(s: State, t: nat, required: nat, order: seq<LeaseId>, id: LeaseId)
    requires t < |s.planes| && Distinct(order) && (forall x :: x in order ==> x in s.leases) && id in s.leases
    ensures var (r, n) := Preempt(s, t, required, order);
      r.leases[id] == if id in order[..n] then s.leases[id].(state := Preempted) else s.leases[id]
    decreases |order|
  {
    var n := Preempt(s, t, required, order).1;
    if order != [] && s.planes[t].available < required {
      LoopLeases(CreditLease(s, order[0], Preempted), t, required, order[1..], id);
      InPrefix(order, n, id);
    }
  }

  lemma InPrefix(order: seq<LeaseId>, n: nat, id: LeaseId)
    requires 0 < n <= |order| && Distinct(order)
    ensures id in order[..n] <==> id == order[0] || id in order[1..][..n - 1]
    ensures id == order[0] ==> id !in order[1..][..n - 1]
  {
    assert order[..n] == [order[0]] + order[1..][..n - 1];
    assert id in order[1..][..n - 1] ==> id in order[1..];
  }

  /** The whole order carries exactly the eligible bytes. */
  lemma OrderCarriesAll(s: State, t: nat, priority: Priority, order: seq<LeaseId>)
    requires t < |s.planes| && IsVictimOrder(s, t, priority, order)
    ensures forall id :: id in order ==> id in s.leases
    ensures SumOver(order, Sizes(s.leases)) == EligibleBytes(s, t, priority)
  {
    var w := EligibleSizes(s, t, priority);
    SumOverIsTotal(order, w);
    SumOverFrame(order, Sizes(s.leases), w);
  }

  lemma {:induction false} SumOverPrefix(order: seq<LeaseId>, n: nat, w: map<LeaseId, nat>)
    requires n <= |order| && forall id :: id in order ==> id in w
    ensures SumOver(order[..n], w) <= SumOver(order, w)
    decreases n
  {
    if n > 0 {
      assert order[..n][1..] == order[1..][..n - 1];
      SumOverPrefix(order[1..], n - 1, w);
    }
  }

  /** The loop makes enough room exactly when the plane can offer it; otherwise it preempts everyone it may. */
  lemma LoopClears(s: State, t: nat, required: nat, priority: Priority, order: seq<LeaseId>)
    requires GoodTopology(s.planes) && t < |s.planes| && IsVictimOrder(s, t, priority, order)
    ensures StopsInTime(s, t, required, order)
    ensures var (r, n) := Preempt(s, t, required, order);
      && (required <= r.planes[t].available <==> required <= Offer(s, t, priority))
      && (r.planes[t].available < required ==> n == |order| && r.planes[t].available == Offer(s, t, priority))
  {
    IndexOfUnique(s.planes, t);
    LoopStopsInTime(s, t, required, order);
    OrderCarriesAll(s, t, priority, order);
    SumOverPrefix(order, Preempt(s, t, required, order).1, Sizes(s.leases));
    assert order[..|order|] == order;
  }

  /** A request will be granted: the bus is not saturated or it is an emergency, it has a plane, and it is an emergency
      or the plane's available bytes together with all lower-priority leases there, capped by the plane's total, cover
      it. */
  ghost predicate Grantable(s: State, critical: bool, req: Request) {
    var selected := SelectPlane(s.planes, req);
    && (critical ==> req.priority.EmergencyTriage?)
    && selected.Ok?
    && (req.priority.EmergencyTriage? || req.required <= Offer(s, selected.value, req.priority))
  }

  /** The condition is exact, and does not depend on the order of the hash map. */
  lemma GrantedIff(s: State, critical: bool, req: Request, order: seq<LeaseId>, id: LeaseId)
    requires GoodTopology(s.planes) && Orders(s, req, order)
    ensures Acquire(s, critical, req, order, id).result.Ok? <==> Grantable(s, critical, req)
    ensures SelectPlane(s.planes, req).Ok? ==> ByName(s, SelectPlane(s.planes, req).value, req.priority)
  {
    var selected := SelectPlane(s.planes, req);
    if selected.Ok? {
      EligibleByName(s, selected.value, req.priority);
      LoopClears(s, selected.value, req.required, req.priority, order);
    }
  }

  // ----- what every plane has after preemption, told from the state before it -----

  /** The least `n` from `k` on for which the first `n` of `order` lift `available`, clamped, to `required`; `|order|` when
      none does. */
  ghost function LeastPrefix(total: nat, available: nat, required: nat, order: seq<LeaseId>, sizes: map<LeaseId, nat>, k: nat): (n: nat)
    requires k <= |order| && forall id :: id in order ==> id in sizes
    ensures k <= n <= |order|
    ensures n < |order| ==> required <= Min(total, available + SumOver(order[..n], sizes))
    ensures forall m :: k <= m < n ==> Min(total, available + SumOver(order[..m], sizes)) < required
    decreases |order| - k
  {
    if k == |order| || required <= Min(total, available + SumOver(order[..k], sizes)) then k
    else LeastPrefix(total, available, required, order, sizes, k + 1)
  }

  lemma SumOverMonotone(order: seq<LeaseId>, a: nat, b: nat, w: map<LeaseId, nat>)
    requires a <= b <= |order| && forall id :: id in order ==> id in w
    ensures SumOver(order[..a], w) <= SumOver(order[..b], w)
  {
    assert order[..b][..a] == order[..a];
    assert forall id :: id in order[..b] ==> id in order;
    SumOverPrefix(order[..b], a, w);
  }

  /** There is only one shortest prefix. */
  lemma ShortestIsLeast(total: nat, available: nat, required: nat, order: seq<LeaseId>, sizes: map<LeaseId, nat>, final: nat, n: nat)
    requires forall id :: id in order ==> id in sizes
    requires ShortestPrefix(total, available, required, order, sizes, final, n)
    ensures n == LeastPrefix(total, available, required, order, sizes, 0)
  {
    var least := LeastPrefix(total, available, required, order, sizes, 0);
    if least < n {
      SumOverMonotone(order, least, n - 1, sizes);
    }
  }

  /** How many leases of `order` a request preempts on plane `t`. */
  ghost function VictimCount(s: State, t: nat, required: nat, order: seq<LeaseId>): (n: nat)
    requires t < |s.planes| && forall id :: id in order ==> id in s.leases
    ensures n <= |order|
  {
    LeastPrefix(s.planes[t].total, s.planes[t].available, required, order, Sizes(s.leases), 0)
  }

  /** What plane `j` has available once that many are preempted. */
  ghost function Cleared(s: State, t: nat, required: nat, order: seq<LeaseId>, j: nat): nat
    requires t < |s.planes| && j < |s.planes| && forall id :: id in order ==> id in s.leases
  {
    if Touches(s.planes, t, j) then
      Min(s.planes[j].total, s.planes[j].available + SumOver(order[..VictimCount(s, t, required, order)], Sizes(s.leases)))
    else s.planes[j].available
  }

  /** One preemption, as any plane sees it. */
  lemma OneVictimElsewhere(s: State, t: nat, id: LeaseId, j: nat)
    requires t < |s.planes| && j < |s.planes| && IndexOf(s.planes, s.planes[t].id) == t
    requires id in s.leases && s.leases[id].plane == s.planes[t].id
    ensures var next := CreditLease(s, id, Preempted);
      && |next.planes| == |s.planes|
      && (Touches(next.planes, t, j) <==> Touches(s.planes, t, j))
      && next.planes[j].total == s.planes[j].total
      && next.planes[j].available ==
           if Touches(s.planes, t, j) then Min(s.planes[j].available + s.leases[id].bytes, s.planes[j].total)
           else s.planes[j].available
  {
    var next := CreditLease(s, id, Preempted);
    SameTotals(s.planes, next.planes);
    SameLayoutLookups(s.planes, next.planes);
    assert s.planes[t].(available := 0) == next.planes[t].(available := 0);
  }

  lemma SumOfNothing(order: seq<LeaseId>, w: map<LeaseId, nat>)
    requires forall id :: id in order ==> id in w
    ensures SumOver(order[..0], w) == 0
  {
  }

  lemma SumOfPrefix(order: seq<LeaseId>, n: nat, w: map<LeaseId, nat>)
    requires 0 < n <= |order| && forall id :: id in order ==> id in w
    ensures SumOver(order[..n], w) == w[order[0]] + SumOver(order[1..][..n - 1], w)
  {
    assert order[..n][1..] == order[1..][..n - 1];
  }

  lemma {:induction false} LoopGives(s: State, t: nat, required: nat, order: seq<LeaseId>, j: nat)
    requires t < |s.planes| && j < |s.planes| && IndexOf(s.planes, s.planes[t].id) == t
    requires s.planes[j].available <= s.planes[j].total
    requires AllOn(s.leases, order, s.planes[t].id)
    ensures var (r, n) := Preempt(s, t, required, order);
      r.planes[j].available ==
        if Touches(s.planes, t, j) then Min(s.planes[j].total, s.planes[j].available + SumOver(order[..n], Sizes(s.leases)))
        else s.planes[j].available
    decreases |order|
  {
    hide CreditLease, SumOver;
    var n := Preempt(s, t, required, order).1;
    if order == [] || required <= s.planes[t].available {
      SumOfNothing(order, Sizes(s.leases));
    } else {
      OneVictim(s, t, order[0]);
      OneVictimElsewhere(s, t, order[0], j);
      RestOn(s, order, s.planes[t].id);
      LoopGives(CreditLease(s, order[0], Preempted), t, required, order[1..], j);
      SumOfPrefix(order, n, Sizes(s.leases));
    }
  }

  /** The closed form is what the preemption loop leaves, on every plane. */
  lemma LoopAvailability(s: State, t: nat, required: nat, priority: Priority, order: seq<LeaseId>, j: nat)
    requires GoodTopology(s.planes) && t < |s.planes| && j < |s.planes| && IsVictimOrder(s, t, priority, order)
    ensures var (r, n) := Preempt(s, t, required, order);
      n == VictimCount(s, t, required, order) && r.planes[j].available == Cleared(s, t, required, order, j)
  {
    hide Preempt, LeastPrefix, SumOver;
    var (r, n) := Preempt(s, t, required, order);
    IndexOfUnique(s.planes, t);
    LoopStopsInTime(s, t, required, order);
    ShortestIsLeast(s.planes[t].total, s.planes[t].available, required, order, Sizes(s.leases), r.planes[t].available, n);
    LoopGives(s, t, required, order, j);
  }

  /** The bytes by which granting `req` would overdraw plane `j`, told from the state before the call. */
  ghost function Overdraft(s: State, critical: bool, req: Request, order: seq<LeaseId>, j: nat): nat
    requires Orders(s, req, order) && j < |s.planes|
  {
    if Grantable(s, critical, req) && Touches(s.planes, SelectPlane(s.planes, req).value, j) then
      SatSub(req.required, Cleared(s, SelectPlane(s.planes, req).value, req.required, order, j))
    else 0
  }

  /** The plane that serves the request is overdrawn exactly by what its offer lacks, so only by an emergency, whatever the
      order; any other plane only if it is the host plane behind it. */
  lemma OverdraftOnTarget(s: State, critical: bool, req: Request, order: seq<LeaseId>, j: nat)
    requires GoodTopology(s.planes) && Orders(s, req, order) && j < |s.planes| && Grantable(s, critical, req)
    ensures var t := SelectPlane(s.planes, req).value;
      && (j == t ==> Overdraft(s, critical, req, order, j) == SatSub(req.required, Offer(s, t, req.priority)))
      && (j != t && Overdraft(s, critical, req, order, j) > 0 ==> s.planes[t].kind.IntegratedUma? && j == FirstCpu(s.planes))
  {
    var t := SelectPlane(s.planes, req).value;
    LoopClears(s, t, req.required, req.priority, order);
    LoopAvailability(s, t, req.required, req.priority, order, t);
  }

  /** The leases that a granted request preempts form a prefix of the priority order, no longer than needed: without
      the last of them the plane could not have covered the request. No eligible survivor ranks below a victim, exactly
      the victims' owners are told to freeze, and every other live lease is untouched. */
  lemma VictimsOfGrant(s: State, critical: bool, req: Request, order: seq<LeaseId>, id: LeaseId)
    requires GoodTopology(s.planes) && Orders(s, req, order) && id !in s.leases
    requires Acquire(s, critical, req, order, id).result.Ok?
    ensures var t, a := SelectPlane(s.planes, req).value, Acquire(s, critical, req, order, id);
      && (forall x :: x in order ==> x in s.leases)
      && |a.signalled| <= |order| && a.signalled == order[..|a.signalled|]
      && GreedyVictims(s, t, req, order, |a.signalled|)
      && LeavesAlone(s, a.state, a.signalled)
      && a.result == Ok(id) && id in a.state.leases
      && a.state.leases[id] == Lease(s.planes[t].id, req.required, req.priority, Active, req.client)
      && (forall v :: v in a.signalled ==> v in s.leases && Displaces(req.priority, s.leases[v].priority))
      && BatchFirst(s, t, a.signalled)
  {
    var t := SelectPlane(s.planes, req).value;
    LoopClears(s, t, req.required, req.priority, order);
    var (r, n) := Preempt(s, t, req.required, order);
    PrefixIsGreedy(s, t, req, order, r.planes[t].available, n);
    GrantLeavesAlone(s, critical, req, order, id);
    GreedyByName(s, t, req, order, n);
  }

  /** No interactive lease is a victim while an active batch lease of plane `t` is spared. */
  ghost predicate BatchFirst(s: State, t: nat, victims: seq<LeaseId>)
    requires t < |s.planes|
  {
    (exists v :: v in victims && v in s.leases && s.leases[v].priority.Interactive?) ==>
      forall x {:trigger s.leases[x]} ::
        x in s.leases && s.leases[x].IsActive() && s.leases[x].plane == s.planes[t].id && s.leases[x].priority.Batch? ==> x in victims
  }

  /** The victims by the names of their priorities. */
  lemma GreedyByName(s: State, t: nat, req: Request, order: seq<LeaseId>, n: nat)
    requires t < |s.planes| && n <= |order| && (forall id :: id in order ==> id in s.leases)
    requires GreedyVictims(s, t, req, order, n)
    ensures forall v :: v in order[..n] ==> v in s.leases && Displaces(req.priority, s.leases[v].priority)
    ensures BatchFirst(s, t, order[..n])
  {
    forall v | v in order[..n] ensures v in s.leases && Displaces(req.priority, s.leases[v].priority) {
      EligibleIff(s, t, req.priority, v);
    }
    if v :| v in order[..n] && v in s.leases && s.leases[v].priority.Interactive? {
      forall x | x in s.leases && s.leases[x].IsActive() && s.leases[x].plane == s.planes[t].id && s.leases[x].priority.Batch?
        ensures x in order[..n]
      {
        EligibleIff(s, t, req.priority, v);
        EligibleIff(s, t, req.priority, x);
      }
    }
  }

  lemma PrefixIsGreedy(s: State, t: nat, req: Request, order: seq<LeaseId>, final: nat, n: nat)
    requires t < |s.planes| && IsVictimOrder(s, t, req.priority, order) && forall id :: id in order ==> id in s.leases
    requires ShortestPrefix(s.planes[t].total, s.planes[t].available, req.required, order, Sizes(s.leases), final, n)
    ensures GreedyVictims(s, t, req, order, n)
  {
    forall x | x in order[..n] ensures x in Eligible(s, t, req.priority) {
      assert x in order;
    }
    forall v, x | v in order[..n] && x in Eligible(s, t, req.priority) && x !in order[..n]
      ensures s.leases[v].priority.Rank() <= s.leases[x].priority.Rank()
    {
      NoneRanksBelow(s, t, req.priority, order, n, v, x);
    }
  }

  lemma GrantLeavesAlone(s: State, critical: bool, req: Request, order: seq<LeaseId>, id: LeaseId)
    requires Orders(s, req, order) && id !in s.leases
    requires Acquire(s, critical, req, order, id).result.Ok?
    ensures LeavesAlone(s, Acquire(s, critical, req, order, id).state, Acquire(s, critical, req, order, id).signalled)
  {
    var t := SelectPlane(s.planes, req).value;
    var a := Acquire(s, critical, req, order, id);
    forall x | x in s.leases && s.leases[x].IsLive()
      ensures x in a.state.leases && a.state.leases[x] == if x in a.signalled then s.leases[x].(state := Preempted) else s.leases[x]
    {
      LoopLeases(s, t, req.required, order, x);
      assert x in Collect(Preempt(s, t, req.required, order).0).leases;
    }
  }

  /** The first `n` of the priority order, all eligible, are a shortest prefix that makes room. */
  ghost predicate GreedyVictims(s: State, t: nat, req: Request, order: seq<LeaseId>, n: nat)
    requires t < |s.planes| && n <= |order| && forall id :: id in order ==> id in s.leases
  {
    && (forall x :: x in order[..n] ==> x in Eligible(s, t, req.priority))
    && (n > 0 ==>
         Min(s.planes[t].total, s.planes[t].available + SumOver(order[..n - 1], Sizes(s.leases))) < req.required)
    && (forall v, x :: v in order[..n] && x in Eligible(s, t, req.priority) && x !in order[..n] ==>
         s.leases[v].priority.Rank() <= s.leases[x].priority.Rank())
  }

  /** Victims become preempted and every other live lease is as it was. */
  ghost predicate LeavesAlone(s: State, r: State, victims: seq<LeaseId>) {
    forall x :: x in s.leases && s.leases[x].IsLive() ==>
      x in r.leases && r.leases[x] == if x in victims then s.leases[x].(state := Preempted) else s.leases[x]
  }

  lemma NoneRanksBelow(s: State, t: nat, priority: Priority, order: seq<LeaseId>, n: nat, v: LeaseId, x: LeaseId)
    requires t < |s.planes| && IsVictimOrder(s, t, priority, order) && n <= |order|
    requires v in order[..n] && x in Eligible(s, t, priority) && x !in order[..n]
    ensures v in s.leases && s.leases[v].priority.Rank() <= s.leases[x].priority.Rank()
  {
    var i :| 0 <= i < n && order[i] == v;
    assert x in order;
    var j :| 0 <= j < |order| && order[j] == x;
  }

  /** What a refusal for lack of memory leaves behind. */
  ghost predicate Stripped(s: State, a: Acquisition, t: nat, req: Request)
    requires t < |s.planes|
  {
    && a.result == Err(ResourceExhaustion(s.planes[t].id, req.required, Offer(s, t, req.priority)))
    && |a.state.planes| == |s.planes|
    && a.state.planes[t].available == Offer(s, t, req.priority) < req.required
    && a.state.leases.Keys == s.leases.Keys
    && (forall x :: x in s.leases ==>
         a.state.leases[x] == if x in Eligible(s, t, req.priority) then s.leases[x].(state := Preempted) else s.leases[x])
  }

  /** A request that is refused for lack of memory is not rolled back: every lower-priority lease on the plane ends
      preempted although nobody is told to freeze, everything they held is available, and the error reports it. Any
      other refusal changes nothing. */
  lemma VictimsOfRefusal(s: State, critical: bool, req: Request, order: seq<LeaseId>, id: LeaseId)
    requires GoodTopology(s.planes) && Orders(s, req, order)
    requires Acquire(s, critical, req, order, id).result.Err?
    ensures var a := Acquire(s, critical, req, order, id);
      && a.signalled == []
      && if a.result.error.ResourceExhaustion? then
           && SelectPlane(s.planes, req).Ok?
           && Stripped(s, a, SelectPlane(s.planes, req).value, req)
           && ByName(s, SelectPlane(s.planes, req).value, req.priority)
         else a.state == s
  {
    var a := Acquire(s, critical, req, order, id);
    if a.result.error.ResourceExhaustion? {
      var t := SelectPlane(s.planes, req).value;
      EligibleByName(s, t, req.priority);
      LoopClears(s, t, req.required, req.priority, order);
      assert order[..|order|] == order;
      forall x | x in s.leases
        ensures a.state.leases[x] == if x in Eligible(s, t, req.priority) then s.leases[x].(state := Preempted) else s.leases[x]
      {
        LoopLeases(s, t, req.required, order, x);
      }
    }
  }
}
