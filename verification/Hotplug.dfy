/** Topology replacement: an order-independent closed form, and the ledger invariant re-established from scratch. */
module Hotplug {
  import opened Numbers
  import opened Leases
  import opened Topology
  import opened Sums
  import opened ArbiterSpec
  import opened Ledger

  /** The lease is active, preempting, frozen or preempted and no plane bears the name of its own. */
  ghost predicate IsStranded(l: Lease, planes: seq<Plane>) {
    && !l.state.Expired? && !l.state.Revoked?
    && forall j :: 0 <= j < |planes| ==> planes[j].id != l.plane
  }

  lemma CarriedIff(l: Lease, planes: seq<Plane>)
    ensures Carried(l, planes) == if IsStranded(l, planes) then l.(state := LeaseState.Revoked) else l
  {
  }

  /** A lease after the planes are replaced: revoked if it was live and its plane is gone. */
  function Carried(l: Lease, planes: seq<Plane>): Lease {
    if l.IsLive() && IndexOf(planes, l.plane) == |planes| then l.(state := LeaseState.Revoked) else l
  }

  /** The lease table after the planes are replaced. */
  function Surviving(leases: map<LeaseId, Lease>, planes: seq<Plane>): map<LeaseId, Lease> {
    map id | id in leases :: Carried(leases[id], planes)
  }

  /** The part of the state that concerns the leases already brought over. */
  ghost function Part(s: State, done: set<LeaseId>): State {
    s.(leases := map id | id in s.leases && id in done :: s.leases[id])
  }

  /** Nothing was given back since the topology was installed, so subtraction saturates at the closed form. */
  ghost predicate Drained(s: State)
    requires |s.planes| == |s.installed|
  {
    forall j {:trigger s.planes[j]} :: 0 <= j < |s.planes| ==>
      && s.planes[j].available == SatSub(s.installed[j].available, Charged(s.planes, s.leases, j))
      && Shortfall(s.installed, s.journal, j) == SatSub(Charged(s.planes, s.leases, j), s.installed[j].available)
  }

  /** What holds half-way through the loop of `update_topology`. */
  ghost predicate Reattaching(s: State, done: set<LeaseId>) {
    && Inv(Part(s, done))
    && Drained(Part(s, done))
    && s.leases.Keys <= s.issued
    && forall id {:trigger Movements(s.journal, id)} :: id !in done ==> Movements(s.journal, id) == []
  }

  lemma DrainedCharge(s: State, id: LeaseId, l: Lease, at: nat)
    requires LedgerShape(s) && Drained(s)
    requires id !in s.leases && l.IsActive() && at < |s.planes| && at == IndexOf(s.planes, l.plane)
    ensures Drained(ChargeLease(s, id, l, at))
  {
    var r := ChargeLease(s, id, l, at);
    forall j | 0 <= j < |r.planes|
      ensures r.planes[j].available == SatSub(r.installed[j].available, Charged(r.planes, r.leases, j))
      ensures Shortfall(r.installed, r.journal, j) == SatSub(Charged(r.planes, r.leases, j), r.installed[j].available)
    {
      assert s.planes[j].available == SatSub(s.installed[j].available, Charged(s.planes, s.leases, j));
      ChargedPut(s.planes, s.leases, id, l, j);
      ChargedLayout(s.planes, r.planes, r.leases, j);
      SameTouches(s.installed, s.planes, at, j);
    }
  }

  /** Entering an inactive lease in the table moves no bytes. */
  lemma EnterKeeps(s: State, id: LeaseId, l: Lease)
    requires Inv(s) && Drained(s)
    requires id !in s.leases && id in s.issued && !l.IsActive() && Movements(s.journal, id) == []
    requires l.IsLive() ==> IndexOf(s.planes, l.plane) < |s.planes|
    ensures Inv(s.(leases := s.leases[id := l])) && Drained(s.(leases := s.leases[id := l]))
  {
    var r := s.(leases := s.leases[id := l]);
    forall j | 0 <= j < |s.planes|
      ensures Charged(r.planes, r.leases, j) == Charged(s.planes, s.leases, j) && Bounded(r, j)
    {
      assert Bounded(s, j);
      ChargedPut(s.planes, s.leases, id, l, j);
    }
    forall x ensures Accounted(r, x) {
      assert Accounted(s, x);
    }
    forall j | 0 <= j < |r.planes|
      ensures r.planes[j].available == SatSub(r.installed[j].available, Charged(r.planes, r.leases, j))
      ensures Shortfall(r.installed, r.journal, j) == SatSub(Charged(r.planes, r.leases, j), r.installed[j].available)
    {
      assert s.planes[j].available == SatSub(s.installed[j].available, Charged(s.planes, s.leases, j));
    }
  }

  lemma PartGrows(s: State, r: State, done: set<LeaseId>, id: LeaseId)
    requires id in s.leases && id !in done && r.leases.Keys == s.leases.Keys
    requires forall x {:trigger r.leases[x]} :: x in s.leases && x != id ==> r.leases[x] == s.leases[x]
    ensures Part(r, done + {id}).leases == Part(s, done).leases[id := r.leases[id]]
  {
  }

  lemma ReattachActive(s: State, done: set<LeaseId>, id: LeaseId, at: nat)
    requires Reattaching(s, done) && id in s.leases && id !in done
    requires s.leases[id].IsActive() && at == IndexOf(s.planes, s.leases[id].plane) < |s.planes|
    ensures Reattaching(ChargeLease(s, id, s.leases[id], at), done + {id})
  {
    var part, l, r := Part(s, done), s.leases[id], ChargeLease(s, id, s.leases[id], at);
    assert Movements(s.journal, id) == [];
    ChargeKeeps(part, id, l, at);
    DrainedCharge(part, id, l, at);
    PartGrows(s, r, done, id);
    assert Part(r, done + {id}) == ChargeLease(part, id, l, at);
    forall x | x !in done + {id} ensures Movements(r.journal, x) == [] {
      assert Movements(s.journal, x) == [];
    }
  }

  lemma ReattachOneKeeps(s: State, done: set<LeaseId>, id: LeaseId)
    requires Reattaching(s, done) && id in s.leases && id !in done
    ensures Reattaching(ReattachOne(s, id), done + {id})
  {
    var l := s.leases[id];
    var at := IndexOf(s.planes, l.plane);
    if l.IsActive() && at < |s.planes| {
      ReattachActive(s, done, id, at);
    } else {
      var part, r := Part(s, done), ReattachOne(s, id);
      assert Movements(s.journal, id) == [];
      EnterKeeps(part, id, r.leases[id]);
      PartGrows(s, r, done, id);
      assert Part(r, done + {id}) == part.(leases := part.leases[id := r.leases[id]]);
    }
  }

  lemma {:induction false} ReattachKeeps(s: State, done: set<LeaseId>, order: seq<LeaseId>)
    requires Reattaching(s, done) && Distinct(order)
    requires forall id :: id in order ==> id in s.leases && id !in done
    ensures Reattaching(Reattach(s, order), done + set id | id in order)
    decreases |order|
  {
    var all := set id | id in order;
    if order == [] {
      assert done + all == done;
    } else {
      ReattachOneKeeps(s, done, order[0]);
      var rest := set id | id in order[1..];
      assert all == {order[0]} + rest;
      ReattachKeeps(ReattachOne(s, order[0]), done + {order[0]}, order[1..]);
      assert done + all == done + {order[0]} + rest;
    }
  }

  lemma ReattachOneLease(s: State, id: LeaseId, x: LeaseId)
    requires id in s.leases && x in s.leases
    ensures var r := ReattachOne(s, id);
      && r.leases.Keys == s.leases.Keys && SameLayout(s.planes, r.planes)
      && r.leases[x] == if x == id then Carried(s.leases[x], s.planes) else s.leases[x]
  {
  }

  /** Bringing leases over changes each at most once, by a rule that looks only at the planes' names. */
  lemma {:induction false} ReattachLease(s: State, order: seq<LeaseId>, x: LeaseId)
    requires Distinct(order) && x in s.leases && forall id :: id in order ==> id in s.leases
    ensures Reattach(s, order).leases[x] == if x in order then Carried(s.leases[x], s.planes) else s.leases[x]
    decreases |order|
  {
    if order != [] {
      hide IndexOf, Take, ReattachOne;
      var next := ReattachOne(s, order[0]);
      ReattachOneLease(s, order[0], x);
      SameLayoutLookups(s.planes, next.planes);
      ReattachLease(next, order[1..], x);
    }
  }

  lemma {:induction false} ReattachHistory(s: State, order: seq<LeaseId>)
    requires s.leases.Keys <= s.issued && forall id :: id in order ==> id in s.leases
    ensures Reattach(s, order).installed == s.installed && Reattach(s, order).issued == s.issued
    decreases |order|
  {
    if order != [] {
      ReattachHistory(ReattachOne(s, order[0]), order[1..]);
    }
  }

  /** Before the first lease is brought over. */
  lemma ReattachStarts(s: State, planes: seq<Plane>)
    requires s.leases.Keys <= s.issued && GoodTopology(planes)
    ensures Reattaching(Installed(s, planes), {})
  {
    InitKeeps(planes);
    assert Part(Installed(s, planes), {}) == Init(planes).(issued := s.issued);
    IssuedOnly(Init(planes), s.issued);
    DrainedAtFirst(planes, s.issued);
  }

  /** After the last. */
  lemma ReattachEnds(s: State, done: set<LeaseId>)
    requires Reattaching(s, done) && s.leases.Keys <= done
    ensures Inv(s) && Drained(s)
  {
    assert Part(s, done) == s;
  }

  lemma ReattachInv(s: State, planes: seq<Plane>, order: seq<LeaseId>)
    requires Inv(s) && GoodTopology(planes) && IsListing(s, order)
    ensures Inv(UpdateTopology(s, planes, order)) && Drained(UpdateTopology(s, planes, order))
  {
    ReattachStarts(s, planes);
    ReattachKeeps(Installed(s, planes), {}, order);
    ReattachEnds(UpdateTopology(s, planes, order), {} + set id | id in order);
  }

  /** For every order in which the leases are visited, the available bytes of each new plane end at what discovery
      found minus what the surviving active leases hold there, exactly the live leases whose plane is gone become
      revoked, and the ledger invariant holds from the new capacities on. */
  lemma UpdateClosedForm(s: State, planes: seq<Plane>, order: seq<LeaseId>)
    requires Inv(s) && GoodTopology(planes) && IsListing(s, order)
    ensures var r := UpdateTopology(s, planes, order);
      && Inv(r)
      && r.installed == planes
      && r.issued == s.issued
      && r.leases == Surviving(s.leases, planes)
    ensures var r := UpdateTopology(s, planes, order);
      forall j :: 0 <= j < |planes| ==>
        && r.planes[j] == planes[j].(available := SatSub(planes[j].available, Charged(planes, Surviving(s.leases, planes), j)))
        && Shortfall(planes, r.journal, j) == SatSub(Charged(planes, Surviving(s.leases, planes), j), planes[j].available)
    ensures var r := UpdateTopology(s, planes, order);
      && r.leases.Keys == s.leases.Keys
      && forall id :: id in s.leases ==> r.leases[id] == if IsStranded(s.leases[id], planes) then s.leases[id].(state := LeaseState.Revoked) else s.leases[id]
  {
    var start, r := Installed(s, planes), UpdateTopology(s, planes, order);
    ReattachInv(s, planes, order);
    ReattachHistory(start, order);
    forall x | x in s.leases ensures r.leases[x] == Surviving(s.leases, planes)[x] {
      ReattachLease(start, order, x);
    }
    assert r.leases == Surviving(s.leases, planes);
    forall x | x in s.leases
      ensures r.leases[x] == if IsStranded(s.leases[x], planes) then s.leases[x].(state := LeaseState.Revoked) else s.leases[x]
    {
      CarriedIff(s.leases[x], planes);
    }
    forall j | 0 <= j < |planes|
      ensures r.planes[j] == planes[j].(available := SatSub(planes[j].available, Charged(planes, r.leases, j)))
      ensures Shortfall(planes, r.journal, j) == SatSub(Charged(planes, r.leases, j), planes[j].available)
    {
      ChargedLayout(planes, r.planes, r.leases, j);
      assert r.planes[j].(available := 0) == planes[j].(available := 0);
    }
  }

  lemma IssuedOnly(s: State, issued: set<LeaseId>)
    requires Inv(s) && s.issued <= issued
    ensures Inv(s.(issued := issued))
  {
    var r := s.(issued := issued);
    forall j | 0 <= j < |s.planes| ensures Bounded(r, j) {
      assert Bounded(s, j);
    }
    forall x ensures Accounted(r, x) {
      assert Accounted(s, x);
    }
  }

  lemma DrainedAtFirst(planes: seq<Plane>, issued: set<LeaseId>)
    ensures Drained(Init(planes).(issued := issued))
  {
    forall j | 0 <= j < |planes| ensures Charged(planes, map[], j) == 0 {
      assert Weights(planes, map[], j) == map[];
    }
  }

  /** Two visits of the same leases in different orders leave the same planes and leases. */
  lemma UpdateOrderIrrelevant(s: State, planes: seq<Plane>, order1: seq<LeaseId>, order2: seq<LeaseId>)
    requires Inv(s) && GoodTopology(planes) && IsListing(s, order1) && IsListing(s, order2)
    ensures UpdateTopology(s, planes, order1).planes == UpdateTopology(s, planes, order2).planes
    ensures UpdateTopology(s, planes, order1).leases == UpdateTopology(s, planes, order2).leases
  {
    UpdateClosedForm(s, planes, order1);
    UpdateClosedForm(s, planes, order2);
    assert |UpdateTopology(s, planes, order1).planes| == |planes| == |UpdateTopology(s, planes, order2).planes|;
  }
}
