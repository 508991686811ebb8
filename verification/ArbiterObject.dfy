/** The arbiter itself: an object whose methods update the planes and the lease table in place, each proved to do what
    the state machine says. */
module ArbiterObject {
  import opened Numbers
  import opened Leases
  import opened Topology
  import opened Sums
  import opened ArbiterSpec

  /** `order` lists `ids` once each, lowest priority first. */
  ghost predicate Lists(leases: map<LeaseId, Lease>, ids: set<LeaseId>, order: seq<LeaseId>) {
    && ids <= leases.Keys
    && Distinct(order)
    && (forall id :: id in order <==> id in ids)
    && forall i, j :: 0 <= i < j < |order| ==>
         order[i] in leases && order[j] in leases &&
         leases[order[i]].priority.Rank() <= leases[order[j]].priority.Rank()
  }

  /** Places `id` behind the elements of no higher priority. */
  function InsertByRank(leases: map<LeaseId, Lease>, order: seq<LeaseId>, id: LeaseId): (r: seq<LeaseId>)
    requires id in leases && forall x :: x in order ==> x in leases
    ensures forall x :: x in r <==> x == id || x in order
  {
    if order == [] || leases[id].priority.Rank() < leases[order[0]].priority.Rank() then [id] + order
    else [order[0]] + InsertByRank(leases, order[1..], id)
  }

  lemma {:induction false} InsertKeepsListing(leases: map<LeaseId, Lease>, ids: set<LeaseId>, order: seq<LeaseId>, id: LeaseId)
    requires Lists(leases, ids, order) && id in leases && id !in ids
    ensures Lists(leases, ids + {id}, InsertByRank(leases, order, id))
    decreases |order|
  {
    var r := InsertByRank(leases, order, id);
    if order == [] || leases[id].priority.Rank() < leases[order[0]].priority.Rank() {
    } else {
      var head, rest := order[0], order[1..];
      forall x ensures x in rest <==> x in ids - {head} {
        if x in ids - {head} {
          var k :| 0 <= k < |order| && order[k] == x;
          assert rest[k - 1] == x;
        }
      }
      InsertKeepsListing(leases, ids - {head}, rest, id);
      var tail := InsertByRank(leases, rest, id);
      forall k | 0 <= k < |tail| ensures tail[k] != head && leases[head].priority.Rank() <= leases[tail[k]].priority.Rank() {
        assert tail[k] in tail;
        if tail[k] != id {
          var m :| 0 <= m < |rest| && rest[m] == tail[k];
          assert order[m + 1] == tail[k];
        }
      }
    }
  }

  lemma {:induction false} ListingExists(leases: map<LeaseId, Lease>, ids: set<LeaseId>)
    requires ids <= leases.Keys
    ensures exists order :: Lists(leases, ids, order)
    decreases |ids|
  {
    if ids == {} {
      assert Lists(leases, ids, []);
    } else {
      var id :| id in ids;
      ListingExists(leases, ids - {id});
      var order :| Lists(leases, ids - {id}, order);
      InsertKeepsListing(leases, ids - {id}, order, id);
      assert ids - {id} + {id} == ids;
    }
  }

  lemma ListingIsVictimOrder(s: State, t: nat, priority: Priority, order: seq<LeaseId>)
    requires t < |s.planes| && Lists(s.leases, Eligible(s, t, priority), order)
    ensures IsVictimOrder(s, t, priority, order)
  {
  }

  lemma {:induction false} ReattachSnoc(s: State, order: seq<LeaseId>, id: LeaseId)
    requires id in s.leases && forall x :: x in order ==> x in s.leases
    ensures Reattach(s, order + [id]) == ReattachOne(Reattach(s, order), id)
    decreases |order|
  {
    if order == [] {
      assert [id][1..] == [];
      assert Reattach(ReattachOne(s, id), []) == ReattachOne(s, id);
      assert order + [id] == [id];
    } else {
      assert (order + [id])[1..] == order[1..] + [id];
      ReattachSnoc(ReattachOne(s, order[0]), order[1..], id);
    }
  }

  /** From `s`, with the first `n` of `order` preempted, the rest of the loop ends at `goal`. */
  ghost predicate HeadsFor(s: State, t: nat, required: nat, order: seq<LeaseId>, n: nat, goal: (State, nat)) {
    && n <= |order| && t < |s.planes|
    && (forall id :: id in order ==> id in s.leases)
    && n <= goal.1
    && Preempt(s, t, required, order[n..]) == (goal.0, goal.1 - n)
  }

  lemma PreemptUnfolds(s: State, t: nat, required: nat, order: seq<LeaseId>)
    requires t < |s.planes| && order != [] && s.planes[t].available < required
    requires forall id :: id in order ==> id in s.leases
    ensures var next := CreditLease(s, order[0], Preempted);
      && |next.planes| == |s.planes| && next.leases.Keys == s.leases.Keys
      && Preempt(s, t, required, order).0 == Preempt(next, t, required, order[1..]).0
      && Preempt(s, t, required, order).1 == Preempt(next, t, required, order[1..]).1 + 1
  {
  }

  lemma PreemptOneMore(s: State, next: State, t: nat, required: nat, order: seq<LeaseId>, n: nat, goal: (State, nat))
    requires HeadsFor(s, t, required, order, n, goal) && n < |order| && s.planes[t].available < required
    requires next == CreditLease(s, order[n], Preempted)
    ensures HeadsFor(next, t, required, order, n + 1, goal)
  {
    var rest := order[n..];
    assert rest[0] == order[n] && rest[1..] == order[n + 1..];
    PreemptUnfolds(s, t, required, rest);
  }

  /** `order` lists once each the leases that are no longer to do. */
  ghost predicate ListsAllBut(s: State, order: seq<LeaseId>, todo: set<LeaseId>) {
    Distinct(order) && forall id :: id in order <==> id in s.leases && id !in todo
  }

  lemma ListOneMore(s: State, order: seq<LeaseId>, todo: set<LeaseId>, id: LeaseId)
    requires ListsAllBut(s, order, todo) && id in todo && id in s.leases
    ensures ListsAllBut(s, order + [id], todo - {id})
  {
  }

  /** One element of the hash map less to look at. */
  lemma OneLessToDo(eligible: set<LeaseId>, todo: set<LeaseId>, id: LeaseId)
    requires id in todo
    ensures eligible - (todo - {id}) == if id in eligible then eligible - todo + {id} else eligible - todo
  {
  }

  class Arbiter {
    var planes: seq<Plane>
    var leases: map<LeaseId, Lease>
    ghost var installed: seq<Plane>
    ghost var journal: Journal
    ghost var issued: set<LeaseId>

    ghost function Model(): State
      reads this
    {
      State(planes, leases, installed, journal, issued)
    }

    constructor (topology: seq<Plane>)
      ensures Model() == Init(topology)
    {
      planes, leases := topology, map[];
      installed, journal, issued := topology, Opening, {};
    }

    /** Adds the bytes back to the named plane, and to the first CPU plane when the named one shares host memory. */
    method RestorePlaneMemory(planeId: PlaneId, bytes: nat)
      modifies this`planes
      ensures planes == var at := IndexOf(old(planes), planeId);
        if at < |old(planes)| then Give(old(planes), at, bytes) else old(planes)
    {
      var at := IndexOf(planes, planeId);
      if at < |planes| {
        var isUma := planes[at].kind.IntegratedUma?;
        planes := planes[at := planes[at].(available := Min(planes[at].available + bytes, planes[at].total))];
        if isUma {
          var cpu := FirstCpu(planes);
          if cpu < |planes| {
            planes := planes[cpu := planes[cpu].(available := Min(planes[cpu].available + bytes, planes[cpu].total))];
          }
        }
      }
    }

    /** Subtracts the bytes from plane `at`, and from the first CPU plane when plane `at` shares host memory. */
    method TakePlaneMemory(at: nat, bytes: nat)
      requires at < |planes|
      modifies this`planes
      ensures planes == Take(old(planes), at, bytes)
    {
      var isUma := planes[at].kind.IntegratedUma?;
      planes := planes[at := planes[at].(available := SatSub(planes[at].available, bytes))];
      if isUma {
        var cpu := FirstCpu(planes);
        if cpu < |planes| {
          planes := planes[cpu := planes[cpu].(available := SatSub(planes[cpu].available, bytes))];
        }
      }
    }

    /** Moves lease `id` to state `st`, then gives its bytes back. */
    method Credit(id: LeaseId, st: LeaseState)
      requires id in leases
      modifies this
      ensures Model() == CreditLease(old(Model()), id, st)
    {
      var lease := leases[id];
      leases := leases[id := lease.(state := st)];
      ghost var at := IndexOf(planes, lease.plane);
      if at < |planes| {
        journal := After(journal, Entry.Credit(id, at, lease.bytes));
      }
      RestorePlaneMemory(lease.plane, lease.bytes);
    }

    /** The active lower-priority leases on plane `t` in some order of the hash map, stably sorted by priority. */
    method ListPreemptable(t: nat, priority: Priority) returns (order: seq<LeaseId>)
      requires t < |planes|
      ensures IsVictimOrder(Model(), t, priority, order)
    {
      order := [];
      var todo := leases.Keys;
      ghost var eligible := Eligible(Model(), t, priority);
      while todo != {}
        invariant todo <= leases.Keys
        invariant Lists(leases, eligible - todo, order)
        decreases |todo|
      {
        var id :| id in todo;
        var l := leases[id];
        OneLessToDo(eligible, todo, id);
        if l.plane == planes[t].id && l.IsActive() && l.priority.Rank() < priority.Rank() {
          InsertKeepsListing(leases, eligible - todo, order, id);
          order := InsertByRank(leases, order, id);
        }
        todo := todo - {id};
      }
      assert eligible - {} == eligible;
      ListingIsVictimOrder(Model(), t, priority, order);
    }

    /** Preempts leases along `order` until plane `t` has room; returns how many. */
    method PreemptUntil(t: nat, required: nat, order: seq<LeaseId>) returns (n: nat)
      requires t < |planes| && forall id :: id in order ==> id in leases
      modifies this
      ensures (Model(), n) == Preempt(old(Model()), t, required, order)
    {
      n := 0;
      ghost var goal := Preempt(Model(), t, required, order);
      assert order[0..] == order;
      while n < |order| && planes[t].available < required
        invariant n <= |order| && t < |planes| && leases.Keys == old(leases.Keys)
        invariant HeadsFor(Model(), t, required, order, n, goal)
        decreases |order| - n
      {
        ghost var before := Model();
        Credit(order[n], Preempted);
        PreemptOneMore(before, Model(), t, required, order, n, goal);
        n := n + 1;
      }
    }

    /** Grants a lease, preempting lower-priority ones if the plane is short; `order` is the order in which the hash map
        and the sort happened to list them. */
    method AcquireLease(critical: bool, req: Request, id: LeaseId)
      returns (result: Result<LeaseId>, signalled: seq<LeaseId>, ghost order: seq<LeaseId>)
      modifies this
      ensures Orders(old(Model()), req, order)
      ensures Acquisition(Model(), result, signalled) == Acquire(old(Model()), critical, req, order, id)
    {
      hide ChargeLease, Collect, SelectPlane;
      order, signalled := [], [];
      var selected := SelectPlane(planes, req);
      if selected.Ok? {
        ListingExists(leases, Eligible(Model(), selected.value, req.priority));
        order :| Lists(leases, Eligible(Model(), selected.value, req.priority), order);
        ListingIsVictimOrder(Model(), selected.value, req.priority, order);
      }
      if critical && !req.priority.EmergencyTriage? {
        return Err(BusSaturation), [], order;
      }
      if selected.Err? {
        return Err(selected.error), [], order;
      }
      var t := selected.value;
      var planeId := planes[t].id;
      var n := 0;
      if planes[t].available < req.required {
        var preemptable := ListPreemptable(t, req.priority);
        order := preemptable;
        n := PreemptUntil(t, req.required, preemptable);
        if planes[t].available < req.required && !req.priority.EmergencyTriage? {
          return Err(ResourceExhaustion(planeId, req.required, planes[t].available)), [], order;
        }
        signalled := preemptable[..n];
      }
      EnterLease(id, Lease(planeId, req.required, req.priority, Active, req.client), t);
      result := Ok(id);
    }

    /** Makes room in the table, takes the bytes of the new lease from plane `at` and enters it. */
    method EnterLease(id: LeaseId, lease: Lease, at: nat)
      requires at < |planes|
      modifies this
      ensures Model() == ChargeLease(Collect(old(Model())), id, lease, at)
    {
      if |leases| > TABLE_LIMIT {
        leases := map x | x in leases && leases[x].IsLive() :: leases[x];
      }
      TakePlaneMemory(at, lease.bytes);
      leases := leases[id := lease];
      journal, issued := After(journal, Charge(id, at, lease.bytes)), issued + {id};
    }

    /** Ends a live lease in state `st`: the common text of `release_lease` and `revoke_lease`. */
    method EndLease(id: LeaseId, st: LeaseState) returns (status: Status)
      modifies this
      ensures Outcome(Model(), status) == End(old(Model()), id, st)
    {
      if id !in leases {
        return Failed(LeaseNotFound(id));
      }
      var lease := leases[id];
      if !lease.IsActive() && !lease.state.Preempted? {
        return Done;
      }
      if lease.IsActive() {
        Credit(id, st);
      } else {
        leases := leases[id := lease.(state := st)];
      }
      status := Done;
    }

    method ReleaseLease(id: LeaseId) returns (status: Status)
      modifies this
      ensures Outcome(Model(), status) == Release(old(Model()), id)
    {
      status := EndLease(id, Expired);
    }

    method RevokeLease(id: LeaseId) returns (status: Status)
      modifies this
      ensures Outcome(Model(), status) == Revoke(old(Model()), id)
    {
      status := EndLease(id, LeaseState.Revoked);
    }

    method YieldLease(id: LeaseId) returns (status: Status)
      modifies this
      ensures Outcome(Model(), status) == Yield(old(Model()), id)
    {
      if id !in leases {
        return Failed(LeaseNotFound(id));
      }
      if leases[id].IsActive() {
        leases := leases[id := leases[id].(state := Preempting)];
      }
      status := Done;
    }

    method FreezeLease(id: LeaseId) returns (status: Status)
      modifies this
      ensures Outcome(Model(), status) == Freeze(old(Model()), id)
    {
      if id !in leases {
        return Failed(LeaseNotFound(id));
      }
      if leases[id].IsActive() {
        leases := leases[id := leases[id].(state := Frozen)];
      }
      status := Done;
    }

    method ThawLease(id: LeaseId) returns (status: Status)
      modifies this
      ensures Outcome(Model(), status) == Thaw(old(Model()), id)
    {
      if id !in leases {
        return Failed(LeaseNotFound(id));
      }
      var lease := leases[id];
      if lease.state.Preempted? {
        var at := IndexOf(planes, lease.plane);
        if at == |planes| {
          return Failed(PlaneNotFound(Some(lease.plane)));
        }
        if planes[at].available < lease.bytes {
          return Failed(ResourceExhaustion(lease.plane, lease.bytes, planes[at].available));
        }
        if planes[at].kind.IntegratedUma? {
          var cpu := FirstCpu(planes);
          if cpu < |planes| && planes[cpu].available < lease.bytes {
            return Failed(ResourceExhaustion(planes[cpu].id, lease.bytes, planes[cpu].available));
          }
        }
        TakePlaneMemory(at, lease.bytes);
        leases := leases[id := lease.(state := Active)];
        journal, issued := After(journal, Charge(id, at, lease.bytes)), issued + {id};
      } else if lease.state.Frozen? || lease.state.Preempting? {
        leases := leases[id := lease.(state := Active)];
      }
      status := Done;
    }

    /** Brings one lease over to the new planes; `s` is the state the machine has reached. */
    method CarryOver(next: seq<Plane>, id: LeaseId, ghost s: State) returns (r: seq<Plane>)
      requires id in leases && s.planes == next && s.leases == leases
      modifies this`leases
      ensures r == ReattachOne(s, id).planes && leases == ReattachOne(s, id).leases
    {
      r := next;
      var lease := leases[id];
      var at := IndexOf(r, lease.plane);
      if lease.IsActive() {
        if at < |r| {
          var isUma := r[at].kind.IntegratedUma?;
          r := r[at := r[at].(available := SatSub(r[at].available, lease.bytes))];
          if isUma {
            var cpu := FirstCpu(r);
            if cpu < |r| {
              r := r[cpu := r[cpu].(available := SatSub(r[cpu].available, lease.bytes))];
            }
          }
        } else {
          leases := leases[id := lease.(state := LeaseState.Revoked)];
        }
      } else if lease.state.Preempted? && at == |r| {
        leases := leases[id := lease.(state := LeaseState.Revoked)];
      }
    }

    /** Puts new planes in place, visiting the leases in whatever order the hash map gives. */
    method UpdateTopology(topology: seq<Plane>) returns (ghost order: seq<LeaseId>)
      modifies this
      ensures IsListing(old(Model()), order)
      ensures Model() == ArbiterSpec.UpdateTopology(old(Model()), topology, order)
    {
      hide ReattachOne;
      var next := topology;
      var todo := leases.Keys;
      order := [];
      ghost var start := Installed(Model(), topology);
      ghost var reached := start;
      while todo != {}
        invariant todo <= leases.Keys == start.leases.Keys
        invariant ListsAllBut(start, order, todo)
        invariant reached == Reattach(start, order)
        invariant next == reached.planes && leases == reached.leases
        decreases |todo|
      {
        var id :| id in todo;
        ReattachSnoc(start, order, id);
        ListOneMore(start, order, todo, id);
        next := CarryOver(next, id, reached);
        reached := ReattachOne(reached, id);
        order := order + [id];
        todo := todo - {id};
      }
      planes := next;
      installed, journal, issued := reached.installed, reached.journal, reached.issued;
    }
  }
}
