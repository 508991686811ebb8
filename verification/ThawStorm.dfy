/** Preempted leases that fit come back in any order, and a preemption can be undone to the byte. */
module ThawStorm {
  import opened Leases
  import opened Topology
  import opened Sums
  import opened ArbiterSpec
  import opened Ledger
  import opened Runs
  import opened Preemption

  /** What plane `j` must carry when the leases of `order` become active. */
  ghost function Demand(planes: seq<Plane>, leases: map<LeaseId, Lease>, order: seq<LeaseId>, j: nat): nat
    requires forall id :: id in order ==> id in leases
  {
    if order == [] then 0
    else Weight(planes, leases[order[0]].(state := Active), j) + Demand(planes, leases, order[1..], j)
  }

  lemma {:induction false} DemandFrame(p: seq<Plane>, q: seq<Plane>, before: map<LeaseId, Lease>, after: map<LeaseId, Lease>, order: seq<LeaseId>, j: nat)
    requires SameLayout(p, q)
    requires forall id :: id in order ==> id in before && id in after && after[id] == before[id].(state := after[id].state)
    ensures Demand(p, before, order, j) == Demand(q, after, order, j)
  {
    if order != [] {
      var l := before[order[0]];
      SameLayoutLookups(p, q);
      SameTouches(p, q, IndexOf(p, l.plane), j);
      DemandFrame(p, q, before, after, order[1..], j);
    }
  }

  /** Thaws the leases of `order` one after the other; also tells whether every thaw succeeded. */
  function ThawAll(s: State, order: seq<LeaseId>): (State, bool)
    decreases |order|
  {
    if order == [] then (s, true)
    else
      var first := Thaw(s, order[0]);
      var (rest, ok) := ThawAll(first.state, order[1..]);
      (rest, first.status.Done? && ok)
  }

  /** A storm: preempted leases, each once. */
  ghost predicate Waiting(s: State, order: seq<LeaseId>) {
    Distinct(order) && forall id :: id in order ==> id in s.leases && s.leases[id].state.Preempted?
  }

  /** Every plane has room for all leases of the storm. */
  ghost predicate Fits(s: State, order: seq<LeaseId>)
    requires Waiting(s, order)
  {
    forall j {:trigger s.planes[j]} :: 0 <= j < |s.planes| ==>
      Demand(s.planes, s.leases, order, j) <= s.planes[j].available
  }

  /** The lease thaws exactly when every plane has what it needs there. */
  lemma ThawsWhenFits(s: State, id: LeaseId)
    requires Inv(s) && id in s.leases && s.leases[id].state.Preempted?
    ensures var l := s.leases[id].(state := Active); var at := IndexOf(s.planes, l.plane);
      && at < |s.planes|
      && (Thaw(s, id).status.Done? <==> forall j :: 0 <= j < |s.planes| ==> Weight(s.planes, l, j) <= s.planes[j].available)
      && (Thaw(s, id).status.Done? ==> Thaw(s, id).state == ChargeLease(s, id, l, at))
      && (Thaw(s, id).status.Failed? ==> Thaw(s, id).state == s)
  {
    ThawsIff(s, id);
    assert s.leases[id].IsLive();
    var l, at := s.leases[id].(state := Active), IndexOf(s.planes, s.leases[id].plane);
    forall j | 0 <= j < |s.planes| ensures Weight(s.planes, l, j) == if Touches(s.planes, at, j) then l.bytes else 0 {
    }
  }

  /** `r` is `s` with the leases of `done` active again under the same capacities. */
  ghost predicate Returned(s: State, r: State, done: seq<LeaseId>) {
    && r.installed == s.installed && SameLayout(s.planes, r.planes)
    && r.leases.Keys == s.leases.Keys
    && (forall id :: id in s.leases ==>
         r.leases[id] == if id in done then s.leases[id].(state := Active) else s.leases[id])
  }

  lemma ReturnedThenMore(s: State, m: State, r: State, order: seq<LeaseId>)
    requires order != [] && Returned(s, m, order[..1]) && Returned(m, r, order[1..])
    ensures Returned(s, r, order)
  {
    assert order[..1] == [order[0]];
    SameLayoutTrans(s.planes, m.planes, r.planes);
  }

  /** A thaw that finds room activates its lease and touches no other. */
  lemma ThawReturns(s: State, order: seq<LeaseId>)
    requires Inv(s) && order != [] && Waiting(s, order) && Thaw(s, order[0]).status.Done?
    ensures var r := Thaw(s, order[0]).state; Returned(s, r, order[..1]) && Waiting(r, order[1..])
  {
    assert order[..1] == [order[0]];
  }

  /** A successful thaw takes from every plane what the lease needs there, and the rest of the storm needs what it did. */
  lemma OneThaw(s: State, order: seq<LeaseId>)
    requires Inv(s) && order != [] && Waiting(s, order) && Thaw(s, order[0]).status.Done?
    ensures var r := Thaw(s, order[0]).state;
      && Inv(r) && Returned(s, r, order[..1]) && Waiting(r, order[1..])
      && forall j :: 0 <= j < |s.planes| ==>
           && Weight(s.planes, s.leases[order[0]].(state := Active), j) <= s.planes[j].available
           && r.planes[j].available == s.planes[j].available - Weight(s.planes, s.leases[order[0]].(state := Active), j)
           && Demand(r.planes, r.leases, order[1..], j)
              == Demand(s.planes, s.leases, order, j) - Weight(s.planes, s.leases[order[0]].(state := Active), j)
  {
    hide Inv, FirstCpu, IndexOf;
    var r := Thaw(s, order[0]).state;
    ThawKeeps(s, order[0]);
    ThawsWhenFits(s, order[0]);
    ThawReturns(s, order);
    forall j | 0 <= j < |s.planes|
      ensures Demand(r.planes, r.leases, order[1..], j)
           == Demand(s.planes, s.leases, order, j) - Weight(s.planes, s.leases[order[0]].(state := Active), j)
    {
      DemandFrame(s.planes, r.planes, s.leases, r.leases, order[1..], j);
    }
  }

  /** Thawing the storm one by one, in any order, succeeds for every lease of it exactly when every plane has room for all
      of them. */
  lemma {:induction false} StormDrainsIff(s: State, order: seq<LeaseId>)
    requires Inv(s) && Waiting(s, order)
    ensures ThawAll(s, order).1 <==> Fits(s, order)
    decreases |order|
  {
    if order != [] {
      var w := s.leases[order[0]].(state := Active);
      ThawsWhenFits(s, order[0]);
      if Thaw(s, order[0]).status.Done? {
        var r := Thaw(s, order[0]).state;
        OneThaw(s, order);
        StormDrainsIff(r, order[1..]);
        FitsLater(s, r, order);
      } else {
        var j :| 0 <= j < |s.planes| && s.planes[j].available < Weight(s.planes, w, j);
        assert Demand(s.planes, s.leases, order, j) > s.planes[j].available;
      }
    }
  }

  /** Room for the storm is room for its rest after its first. */
  lemma FitsLater(s: State, r: State, order: seq<LeaseId>)
    requires order != [] && Waiting(s, order) && Waiting(r, order[1..]) && |r.planes| == |s.planes|
    requires forall j :: 0 <= j < |s.planes| ==>
      s.planes[j].available - r.planes[j].available
      == Demand(s.planes, s.leases, order, j) - Demand(r.planes, r.leases, order[1..], j)
    ensures Fits(s, order) <==> Fits(r, order[1..])
  {
    if Fits(s, order) {
      forall j | 0 <= j < |r.planes| ensures Demand(r.planes, r.leases, order[1..], j) <= r.planes[j].available {
        assert s.planes[j].available >= 0;
      }
    }
    if Fits(r, order[1..]) {
      forall j | 0 <= j < |s.planes| ensures Demand(s.planes, s.leases, order, j) <= s.planes[j].available {
        assert r.planes[j].available >= 0;
      }
    }
  }

  /** A storm that fits takes from every plane exactly what it needs, makes its leases active and leaves the others. */
  lemma {:induction false} StormTakes(s: State, order: seq<LeaseId>)
    requires Inv(s) && Waiting(s, order) && Fits(s, order)
    ensures var r := ThawAll(s, order).0;
      && Inv(r) && Returned(s, r, order)
      && (forall j :: 0 <= j < |s.planes| ==>
           r.planes[j].available == s.planes[j].available - Demand(s.planes, s.leases, order, j))
    decreases |order|
  {
    StormDrainsIff(s, order);
    if order != [] {
      var m := Thaw(s, order[0]).state;
      OneThaw(s, order);
      FitsLater(s, m, order);
      StormTakes(m, order[1..]);
      ReturnedThenMore(s, m, ThawAll(m, order[1..]).0, order);
    }
  }

  /** In particular a storm drains, in any order, when the installed capacity of every plane covers it on top of what is
      charged there. */
  lemma StormDrains(s: State, order: seq<LeaseId>)
    requires Inv(s) && Waiting(s, order)
    requires forall j :: 0 <= j < |s.planes| == |s.installed| ==>
      Charged(s.planes, s.leases, j) + Demand(s.planes, s.leases, order, j) <= s.installed[j].available
    ensures ThawAll(s, order).1 && Returned(s, ThawAll(s, order).0, order)
  {
    forall j | 0 <= j < |s.planes| ensures Demand(s.planes, s.leases, order, j) <= s.planes[j].available {
      assert Bounded(s, j);
    }
    StormDrainsIff(s, order);
    StormTakes(s, order);
  }

  // ----- undoing a preemption -----

  lemma CreditDemand(s: State, id: LeaseId, j: nat)
    requires Inv(s) && id in s.leases && s.leases[id].IsActive()
    ensures var next := CreditLease(s, id, Preempted);
      && SameLayout(s.planes, next.planes)
      && next.leases == s.leases[id := s.leases[id].(state := Preempted)]
      && Charged(next.planes, next.leases, j) + Weight(s.planes, s.leases[id].(state := Active), j)
         == Charged(s.planes, s.leases, j)
  {
    var next := CreditLease(s, id, Preempted);
    ChargedPut(s.planes, s.leases, id, next.leases[id], j);
    ChargedLayout(s.planes, next.planes, next.leases, j);
  }

  /** Each victim relieves every plane by exactly what it would need to come back. */
  lemma {:induction false} PreemptDemand(s: State, t: nat, required: nat, order: seq<LeaseId>, j: nat)
    requires Inv(s) && t < |s.planes| && Distinct(order)
    requires forall id :: id in order ==> id in s.leases && s.leases[id].IsActive()
    ensures var (r, n) := Preempt(s, t, required, order);
      Charged(r.planes, r.leases, j) + Demand(s.planes, s.leases, order[..n], j) == Charged(s.planes, s.leases, j)
    decreases |order|
  {
    hide CreditLease, Inv, Weight, Charged;
    var n := Preempt(s, t, required, order).1;
    if order != [] && s.planes[t].available < required {
      CreditKeeps(s, order[0], Preempted);
      CreditDemand(s, order[0], j);
      PreemptDemand(CreditLease(s, order[0], Preempted), t, required, order[1..], j);
      DemandGrows(s.planes, CreditLease(s, order[0], Preempted).planes, s.leases, order, n, j);
    } else {
      assert order[..n] == [];
    }
  }

  lemma DemandGrows(p: seq<Plane>, q: seq<Plane>, leases: map<LeaseId, Lease>, order: seq<LeaseId>, n: nat, j: nat)
    requires 0 < n <= |order| && Distinct(order) && SameLayout(p, q)
    requires forall id :: id in order ==> id in leases
    ensures var after := leases[order[0] := leases[order[0]].(state := Preempted)];
      Demand(p, leases, order[..n], j)
      == Weight(p, leases[order[0]].(state := Active), j) + Demand(q, after, order[1..][..n - 1], j)
  {
    var rest := order[1..][..n - 1];
    assert order[..n][1..] == rest;
    forall id | id in rest ensures id in order[1..] && id != order[0] {
      var k :| 0 <= k < |rest| && rest[k] == id;
      assert order[k + 1] == id;
    }
    DemandFrame(p, q, leases, leases[order[0] := leases[order[0]].(state := Preempted)], rest, j);
  }

  /** Release the lease of a grant and thaw its victims along `comeback`. */
  function Undo(s: State, id: LeaseId, comeback: seq<LeaseId>): (State, bool) {
    var released := Release(s, id);
    var (r, ok) := ThawAll(released.state, comeback);
    (r, released.status.Done? && ok)
  }

  ghost predicate AllExact(s: State) {
    |s.planes| == |s.installed| && forall j {:trigger s.planes[j]} :: 0 <= j < |s.planes| ==> Exact(s, j)
  }

  /** If a conserving state charges every plane what another one did less what some waiting leases need, thawing these in
      any order leads back to the availability of the other. */
  lemma ComebackRestores(s: State, r: State, waiting: seq<LeaseId>, comeback: seq<LeaseId>)
    requires AllExact(s) && Inv(r) && AllExact(r) && r.installed == s.installed && SameLayout(s.planes, r.planes)
    requires Waiting(r, waiting)
    requires Distinct(comeback) && forall x :: x in comeback <==> x in waiting
    requires forall j :: 0 <= j < |s.planes| ==>
      Charged(r.planes, r.leases, j) + Demand(r.planes, r.leases, waiting, j) == Charged(s.planes, s.leases, j)
    ensures ThawAll(r, comeback).1 && ThawAll(r, comeback).0.planes == s.planes
  {
    forall j | 0 <= j < |r.planes|
      ensures r.planes[j].available == s.planes[j].available + Demand(r.planes, r.leases, comeback, j)
    {
      assert s.planes[j].available >= 0;
      DemandOrder(r.planes, r.leases, comeback, waiting, j);
      assert Exact(r, j) && Exact(s, j);
    }
    assert Fits(r, comeback);
    StormDrainsIff(r, comeback);
    StormTakes(r, comeback);
    var q := ThawAll(r, comeback).0;
    forall j | 0 <= j < |s.planes| ensures q.planes[j] == s.planes[j] {
      assert s.planes[j].(available := 0) == r.planes[j].(available := 0) == q.planes[j].(available := 0);
    }
  }

  /** Plane `j` after the grant and its release: exact, and charged what it was without the victims. */
  lemma ReleasedPlane(s: State, critical: bool, req: Request, order: seq<LeaseId>, id: LeaseId, j: nat)
    requires Inv(s) && j < |s.planes| && Exact(s, j) && Orders(s, req, order) && id !in s.issued
    requires Acquire(s, critical, req, order, id).result.Ok?
    requires Overdraft(s, critical, req, order, j) == 0
    ensures var a := Acquire(s, critical, req, order, id); var r := Release(a.state, id).state;
      && |r.planes| == |r.installed| == |s.planes| && Exact(r, j)
      && (forall x :: x in a.signalled ==> x in r.leases)
      && Charged(r.planes, r.leases, j) + Demand(r.planes, r.leases, a.signalled, j) == Charged(s.planes, s.leases, j)
  {
    var a := Acquire(s, critical, req, order, id);
    var r := Release(a.state, id).state;
    AcquireKeeps(s, critical, req, order, id);
    GrantLayout(s, critical, req, order, id);
    VictimsWait(s, critical, req, order, id);
    AcquireConservesIff(s, critical, req, order, id, j);
    CreditExact(a.state, id, Expired, j);
    GrantDemand(s, critical, req, order, id, j);
    CreditReleases(a.state, id, j);
    SameLayoutTrans(s.planes, a.state.planes, r.planes);
    DemandFrame(s.planes, r.planes, s.leases, r.leases, a.signalled, j);
  }

  /** After the grant and its release every plane is exact and charged what it was without the victims. */
  lemma ReleasedGrant(s: State, critical: bool, req: Request, order: seq<LeaseId>, id: LeaseId)
    requires Inv(s) && AllExact(s) && Orders(s, req, order) && id !in s.issued
    requires Acquire(s, critical, req, order, id).result.Ok?
    requires forall j :: 0 <= j < |s.planes| ==> Overdraft(s, critical, req, order, j) == 0
    ensures var a := Acquire(s, critical, req, order, id); var released := Release(a.state, id); var r := released.state;
      && released.status.Done? && Inv(r) && AllExact(r)
      && r.installed == s.installed && SameLayout(s.planes, r.planes)
      && Waiting(r, a.signalled)
      && forall j :: 0 <= j < |s.planes| ==>
           Charged(r.planes, r.leases, j) + Demand(r.planes, r.leases, a.signalled, j) == Charged(s.planes, s.leases, j)
  {
    var a := Acquire(s, critical, req, order, id);
    AcquireKeeps(s, critical, req, order, id);
    EndKeeps(a.state, id, Expired);
    GrantLayout(s, critical, req, order, id);
    VictimsWait(s, critical, req, order, id);
    var r := Release(a.state, id).state;
    SameLayoutTrans(s.planes, a.state.planes, r.planes);
    forall j | 0 <= j < |s.planes|
      ensures Exact(r, j)
      ensures Charged(r.planes, r.leases, j) + Demand(r.planes, r.leases, a.signalled, j) == Charged(s.planes, s.leases, j)
    {
      assert s.planes[j].available >= 0;
      ReleasedPlane(s, critical, req, order, id, j);
    }
    forall j | 0 <= j < |r.planes| ensures Exact(r, j) {
      assert s.planes[j].available >= 0;
    }
  }

  lemma CreditReleases(s: State, id: LeaseId, j: nat)
    requires Inv(s) && id in s.leases && s.leases[id].IsActive()
    ensures var r := CreditLease(s, id, Expired);
      Charged(r.planes, r.leases, j) + Weight(s.planes, s.leases[id], j) == Charged(s.planes, s.leases, j)
  {
    var r := CreditLease(s, id, Expired);
    ChargedPut(s.planes, s.leases, id, r.leases[id], j);
    ChargedLayout(s.planes, r.planes, r.leases, j);
  }

  lemma GrantLayout(s: State, critical: bool, req: Request, order: seq<LeaseId>, id: LeaseId)
    requires Inv(s) && Orders(s, req, order) && id !in s.issued
    requires Acquire(s, critical, req, order, id).result.Ok?
    ensures var r := Acquire(s, critical, req, order, id).state; var t := SelectPlane(s.planes, req).value;
      && r.installed == s.installed && SameLayout(s.planes, r.planes)
      && id in r.leases && r.leases[id] == NewLease(s, t, req) && IndexOf(r.planes, r.leases[id].plane) == t
  {
    var t := SelectPlane(s.planes, req).value;
    GrantPlane(s, t, req, order);
    SameLayoutLookups(s.planes, Acquire(s, critical, req, order, id).state.planes);
  }

  /** Charges after a grant: the newcomer in, the victims out. */
  lemma GrantDemand(s: State, critical: bool, req: Request, order: seq<LeaseId>, id: LeaseId, j: nat)
    requires Inv(s) && Orders(s, req, order) && id !in s.issued
    requires Acquire(s, critical, req, order, id).result.Ok?
    ensures var a := Acquire(s, critical, req, order, id);
      && id in a.state.leases
      && (forall x :: x in a.signalled ==> x in s.leases)
      && Charged(a.state.planes, a.state.leases, j) + Demand(s.planes, s.leases, a.signalled, j)
         == Charged(s.planes, s.leases, j) + Weight(a.state.planes, a.state.leases[id], j)
  {
    var t := SelectPlane(s.planes, req).value;
    var a := Acquire(s, critical, req, order, id);
    var cleared := Preempt(s, t, req.required, order).0;
    GrantLayout(s, critical, req, order, id);
    GrantPlane(s, t, req, order);
    PreemptDemand(s, t, req.required, order, j);
    ChargedCollect(cleared, j);
    ChargedPut(cleared.planes, Collect(cleared).leases, id, NewLease(s, t, req), j);
    ChargedLayout(cleared.planes, a.state.planes, a.state.leases, j);
    SameTouches(cleared.planes, a.state.planes, t, j);
  }

  lemma VictimWaits(s: State, critical: bool, req: Request, order: seq<LeaseId>, id: LeaseId, x: LeaseId)
    requires Inv(s) && Orders(s, req, order) && id !in s.issued
    requires Acquire(s, critical, req, order, id).result.Ok?
    requires x in Acquire(s, critical, req, order, id).signalled
    ensures var a := Acquire(s, critical, req, order, id);
      x in s.leases && x in a.state.leases && x != id && a.state.leases[x] == s.leases[x].(state := Preempted)
  {
    var t := SelectPlane(s.planes, req).value;
    assert x in order;
    LoopLeases(s, t, req.required, order, x);
    assert x in Collect(Preempt(s, t, req.required, order).0).leases;
  }

  /** After the grant is released its victims are still waiting, otherwise unchanged. */
  lemma VictimsWait(s: State, critical: bool, req: Request, order: seq<LeaseId>, id: LeaseId)
    requires Inv(s) && Orders(s, req, order) && id !in s.issued
    requires Acquire(s, critical, req, order, id).result.Ok?
    ensures var a := Acquire(s, critical, req, order, id); var r := Release(a.state, id).state;
      && Distinct(a.signalled)
      && forall x :: x in a.signalled ==>
           x in s.leases && x in r.leases && r.leases[x] == s.leases[x].(state := Preempted)
  {
    var victims := Acquire(s, critical, req, order, id).signalled;
    PrefixDistinct(order, Preempt(s, SelectPlane(s.planes, req).value, req.required, order).1);
    var r := Acquire(s, critical, req, order, id).state;
    forall x | x in victims ensures x in s.leases && x in r.leases && x != id && r.leases[x] == s.leases[x].(state := Preempted) {
      VictimWaits(s, critical, req, order, id, x);
    }
    OthersKept(r, id, victims);
  }

  lemma PrefixDistinct(order: seq<LeaseId>, n: nat)
    requires Distinct(order) && n <= |order|
    ensures Distinct(order[..n])
  {
  }

  lemma OthersKept(s: State, id: LeaseId, others: seq<LeaseId>)
    requires forall x :: x in others ==> x in s.leases && x != id
    ensures forall x :: x in others ==> x in Release(s, id).state.leases && Release(s, id).state.leases[x] == s.leases[x]
  {
  }

  /** Without overdraft a preemption can be undone to the byte: releasing the lease it made room for and thawing its
      victims, in any order, succeeds and restores what every plane had available. */
  lemma PreemptionUndone(s: State, critical: bool, req: Request, order: seq<LeaseId>, id: LeaseId, comeback: seq<LeaseId>)
    requires Inv(s) && AllExact(s) && Orders(s, req, order) && id !in s.issued && Grantable(s, critical, req)
    requires forall j :: 0 <= j < |s.planes| ==> Overdraft(s, critical, req, order, j) == 0
    requires Distinct(comeback) && forall x :: x in comeback <==> x in Acquire(s, critical, req, order, id).signalled
    ensures var (r, ok) := Undo(Acquire(s, critical, req, order, id).state, id, comeback);
      ok && r.planes == s.planes
  {
    GoodPlanes(s);
    GrantedIff(s, critical, req, order, id);
    ReleasedGrant(s, critical, req, order, id);
    var a := Acquire(s, critical, req, order, id);
    ComebackRestores(s, Release(a.state, id).state, a.signalled, comeback);
  }

  /** A refusal for lack of memory is not rolled back, but it can be: from a state that conserves every plane, thawing all
      leases it preempted, in any order, succeeds and restores what every plane had available. */
  lemma RefusalUndone(s: State, critical: bool, req: Request, order: seq<LeaseId>, id: LeaseId, comeback: seq<LeaseId>)
    requires Inv(s) && AllExact(s) && Orders(s, req, order)
    requires var result := Acquire(s, critical, req, order, id).result; result.Err? && result.error.ResourceExhaustion?
    requires Distinct(comeback)
    requires forall x :: x in comeback <==> x in Eligible(s, SelectPlane(s.planes, req).value, req.priority)
    ensures var (r, ok) := ThawAll(Acquire(s, critical, req, order, id).state, comeback);
      ok && r.planes == s.planes
  {
    var t := SelectPlane(s.planes, req).value;
    var r := Acquire(s, critical, req, order, id).state;
    GoodPlanes(s);
    VictimsOfRefusal(s, critical, req, order, id);
    LoopClears(s, t, req.required, req.priority, order);
    PreemptKeeps(s, t, req.required, order);
    PreemptFrame(s, t, req.required, order);
    assert order[..|order|] == order;
    forall j | 0 <= j < |s.planes|
      ensures Exact(r, j)
      ensures Charged(r.planes, r.leases, j) + Demand(r.planes, r.leases, order, j) == Charged(s.planes, s.leases, j)
    {
      assert s.planes[j].available >= 0;
      PreemptExact(s, t, req.required, order, j);
      PreemptDemand(s, t, req.required, order, j);
      DemandFrame(s.planes, r.planes, s.leases, r.leases, order, j);
    }
    forall j | 0 <= j < |r.planes| ensures Exact(r, j) {
      assert s.planes[j].available >= 0;
    }
    ComebackRestores(s, r, order, comeback);
  }

  /** Demand does not depend on the order. */
  lemma DemandOrder(planes: seq<Plane>, leases: map<LeaseId, Lease>, order1: seq<LeaseId>, order2: seq<LeaseId>, j: nat)
    requires Distinct(order1) && Distinct(order2) && (forall id :: id in order1 <==> id in order2)
    requires forall id :: id in order1 ==> id in leases
    ensures Demand(planes, leases, order1, j) == Demand(planes, leases, order2, j)
  {
    var w := map id | id in leases && id in order1 :: Weight(planes, leases[id].(state := Active), j);
    DemandIsSum(planes, leases, order1, w, j);
    DemandIsSum(planes, leases, order2, w, j);
    SumOverIsTotal(order1, w);
    SumOverIsTotal(order2, w);
  }

  lemma {:induction false} DemandIsSum(planes: seq<Plane>, leases: map<LeaseId, Lease>, order: seq<LeaseId>, w: map<LeaseId, nat>, j: nat)
    requires forall id :: id in order ==> id in leases && id in w && w[id] == Weight(planes, leases[id].(state := Active), j)
    ensures Demand(planes, leases, order, j) == SumOver(order, w)
  {
    if order != [] {
      DemandIsSum(planes, leases, order[1..], w, j);
    }
  }
}
