/** The memory ledger over whole runs: what every operation keeps, and what follows from it in every reachable state. */
module Ledger {
  import opened Numbers
  import opened Leases
  import opened Topology
  import opened Sums
  import opened ArbiterSpec

  // ----- charges -----

  /** The bytes of `l` that plane `j` carries. */
  function Weight(planes: seq<Plane>, l: Lease, j: nat): nat {
    if l.IsActive() && Touches(planes, IndexOf(planes, l.plane), j) then l.bytes else 0
  }

  ghost function Weights(planes: seq<Plane>, leases: map<LeaseId, Lease>, j: nat): map<LeaseId, nat> {
    map id | id in leases :: Weight(planes, leases[id], j)
  }

  /** The bytes that active leases hold on plane `j`; the first CPU plane also carries unified-memory leases. */
  ghost function Charged(planes: seq<Plane>, leases: map<LeaseId, Lease>, j: nat): nat {
    Total(Weights(planes, leases, j))
  }

  lemma ChargedPut(planes: seq<Plane>, leases: map<LeaseId, Lease>, id: LeaseId, l: Lease, j: nat)
    ensures Charged(planes, leases[id := l], j) + (if id in leases then Weight(planes, leases[id], j) else 0)
         == Charged(planes, leases, j) + Weight(planes, l, j)
  {
    var w := Weights(planes, leases, j);
    assert Weights(planes, leases[id := l], j) == w[id := Weight(planes, l, j)];
    TotalPut(w, id, Weight(planes, l, j));
  }

  lemma ChargedLayout(p: seq<Plane>, q: seq<Plane>, leases: map<LeaseId, Lease>, j: nat)
    requires SameLayout(p, q)
    ensures Charged(p, leases, j) == Charged(q, leases, j)
  {
    SameLayoutLookups(p, q);
    forall id | id in leases ensures Weight(p, leases[id], j) == Weight(q, leases[id], j) {
      var at := IndexOf(p, leases[id].plane);
      assert at < |p| ==> p[at].kind == q[at].kind;
    }
    assert Weights(p, leases, j) == Weights(q, leases, j);
  }

  lemma ChargedAtLeast(planes: seq<Plane>, leases: map<LeaseId, Lease>, id: LeaseId, j: nat)
    requires id in leases
    ensures Weight(planes, leases[id], j) <= Charged(planes, leases, j)
  {
    TotalSplit(Weights(planes, leases, j), id);
  }

  lemma ChargedCollect(s: State, j: nat)
    ensures Charged(s.planes, Collect(s).leases, j) == Charged(s.planes, s.leases, j)
  {
    TotalDropZero(Weights(s.planes, s.leases, j), Weights(s.planes, Collect(s).leases, j));
  }

  // ----- the journal -----

  /** The planes that result from replaying the journal on the installed topology. */
  function Replay(installed: seq<Plane>, journal: Journal): (r: seq<Plane>)
    ensures SameLayout(installed, r)
  {
    match journal
    case Opening => installed
    case After(before, Charge(_, at, bytes)) =>
      var p := Replay(installed, before);
      if at < |p| then Take(p, at, bytes) else p
    case After(before, Credit(_, at, bytes)) =>
      var p := Replay(installed, before);
      if at < |p| then Give(p, at, bytes) else p
  }

  /** The bytes that saturating subtraction swallowed on plane `j` since the topology was installed. */
  function Shortfall(installed: seq<Plane>, journal: Journal, j: nat): nat
    requires j < |installed|
  {
    match journal
    case Opening => 0
    case After(before, Charge(_, at, bytes)) =>
      Shortfall(installed, before, j) +
      if Touches(installed, at, j) then SatSub(bytes, Replay(installed, before)[j].available) else 0
    case After(before, Credit(_, _, _)) => Shortfall(installed, before, j)
  }

  /** The bytes that the clamp of a restore dropped on plane `j` since the topology was installed. */
  function Spilled(installed: seq<Plane>, journal: Journal, j: nat): nat
    requires j < |installed|
  {
    match journal
    case Opening => 0
    case After(before, Charge(_, _, _)) => Spilled(installed, before, j)
    case After(before, Credit(_, at, bytes)) =>
      Spilled(installed, before, j) +
      if Touches(installed, at, j) then SatSub(Replay(installed, before)[j].available + bytes, installed[j].total) else 0
  }

  /** The movements of lease `id`, oldest first. */
  function Movements(journal: Journal, id: LeaseId): seq<Entry> {
    match journal
    case Opening => []
    case After(before, e) => Movements(before, id) + if e.id == id then [e] else []
  }

  /** Charge, credit, charge, ..., always on the same plane and for the same bytes. */
  ghost predicate Alternates(m: seq<Entry>, at: nat, bytes: nat) {
    forall k {:trigger m[k]} :: 0 <= k < |m| ==> m[k].at == at && m[k].bytes == bytes && (m[k].Charge? <==> k % 2 == 0)
  }

  /** The movements of `id` agree with its entry in the table: one more charge than credits exactly while active. */
  ghost predicate Accounted(s: State, id: LeaseId) {
    var m := Movements(s.journal, id);
    if id in s.leases then
      && Alternates(m, IndexOf(s.planes, s.leases[id].plane), s.leases[id].bytes)
      && (s.leases[id].IsActive() <==> |m| % 2 == 1)
    else
      && |m| % 2 == 0
      && exists at, bytes :: Alternates(m, at, bytes)
  }

  // ----- the invariant -----

  /** The ledger of one plane: available, charged and spilled bytes together are the installed ones and the shortfall,
      and no more is ever spilled than fell short. */
  ghost predicate Bounded(s: State, j: nat)
    requires |s.planes| == |s.installed| && j < |s.planes|
  {
    var shortfall, spilled := Shortfall(s.installed, s.journal, j), Spilled(s.installed, s.journal, j);
    && s.planes[j].available + Charged(s.planes, s.leases, j) + spilled == s.installed[j].available + shortfall
    && spilled <= shortfall
    && s.planes[j].available <= s.planes[j].total
  }

  ghost predicate Inv(s: State) {
    && GoodTopology(s.installed)
    && SameLayout(s.installed, s.planes)
    && s.planes == Replay(s.installed, s.journal)
    && (forall j {:trigger Bounded(s, j)} :: 0 <= j < |s.planes| ==> Bounded(s, j))
    && (forall id {:trigger s.leases[id]} :: id in s.leases && s.leases[id].IsLive() ==>
         IndexOf(s.planes, s.leases[id].plane) < |s.planes|)
    && s.leases.Keys <= s.issued
    && (forall id {:trigger Accounted(s, id)} :: Accounted(s, id))
    && (forall id {:trigger Movements(s.journal, id)} :: id !in s.issued ==> Movements(s.journal, id) == [])
  }

  lemma InitKeeps(planes: seq<Plane>)
    requires GoodTopology(planes)
    ensures Inv(Init(planes))
  {
    var s := Init(planes);
    forall j | 0 <= j < |planes| ensures Bounded(s, j) {
      assert Weights(planes, map[], j) == map[];
    }
    forall id ensures Accounted(s, id) {
      assert Alternates([], 0, 0);
    }
  }

  lemma SameTouches(p: seq<Plane>, q: seq<Plane>, i: nat, j: nat)
    requires SameLayout(p, q)
    ensures Touches(p, i, j) <==> Touches(q, i, j)
  {
    SameLayoutLookups(p, q);
    assert i < |p| ==> p[i].(available := 0) == q[i].(available := 0);
  }

  /** The parts of the invariant that a charge or a credit of one lease leaves to check separately. */
  ghost predicate LedgerShape(s: State) {
    && SameLayout(s.installed, s.planes)
    && s.planes == Replay(s.installed, s.journal)
  }

  lemma ChargeBounded(s: State, id: LeaseId, l: Lease, at: nat, j: nat)
    requires LedgerShape(s) && j < |s.planes| && Bounded(s, j)
    requires l.IsActive() && at < |s.planes| && at == IndexOf(s.planes, l.plane)
    requires id in s.leases ==> !s.leases[id].IsActive()
    ensures Bounded(ChargeLease(s, id, l, at), j)
  {
    var r := ChargeLease(s, id, l, at);
    ChargedPut(s.planes, s.leases, id, l, j);
    ChargedLayout(s.planes, r.planes, r.leases, j);
    SameTouches(s.installed, s.planes, at, j);
    assert s.planes[j].(available := 0) == r.planes[j].(available := 0);
  }

  /** The lines of plane `j` after a credit. */
  lemma CreditLines(s: State, id: LeaseId, st: LeaseState, j: nat)
    requires LedgerShape(s) && j < |s.planes| && s.planes[j].available <= s.planes[j].total
    requires id in s.leases && IndexOf(s.planes, s.leases[id].plane) < |s.planes|
    ensures var r := CreditLease(s, id, st);
      var bytes := if Touches(s.planes, IndexOf(s.planes, s.leases[id].plane), j) then s.leases[id].bytes else 0;
      && r.installed == s.installed && |r.planes| == |s.planes| && r.planes[j].total == s.planes[j].total == s.installed[j].total
      && r.planes[j].available == Min(s.planes[j].available + bytes, s.planes[j].total)
      && Shortfall(r.installed, r.journal, j) == Shortfall(s.installed, s.journal, j)
      && Spilled(r.installed, r.journal, j)
         == Spilled(s.installed, s.journal, j) + SatSub(s.planes[j].available + bytes, s.planes[j].total)
  {
    hide Touches, Give;
    var at := IndexOf(s.planes, s.leases[id].plane);
    SameTouches(s.installed, s.planes, at, j);
    SameTotals(s.planes, Give(s.planes, at, s.leases[id].bytes));
    SameTotals(s.installed, s.planes);
  }

  lemma CreditCharged(s: State, id: LeaseId, st: LeaseState, j: nat)
    requires j < |s.planes| && id in s.leases && s.leases[id].IsActive()
    requires st.Preempted? || st.Revoked? || st.Expired?
    ensures var r := CreditLease(s, id, st);
      && |r.planes| == |s.planes|
      && Charged(s.planes, s.leases, j) == Charged(r.planes, r.leases, j)
         + if Touches(s.planes, IndexOf(s.planes, s.leases[id].plane), j) then s.leases[id].bytes else 0
  {
    var r := CreditLease(s, id, st);
    ChargedPut(s.planes, s.leases, id, r.leases[id], j);
    ChargedLayout(s.planes, r.planes, r.leases, j);
  }

  lemma CreditBounded(s: State, id: LeaseId, st: LeaseState, j: nat)
    requires LedgerShape(s) && j < |s.planes| && Bounded(s, j) && s.installed[j].available <= s.installed[j].total
    requires id in s.leases && s.leases[id].IsActive() && IndexOf(s.planes, s.leases[id].plane) < |s.planes|
    requires st.Preempted? || st.Revoked? || st.Expired?
    ensures Bounded(CreditLease(s, id, st), j)
  {
    hide CreditLease, Charged, Shortfall, Spilled, Touches, IndexOf, Replay, SameLayout;
    CreditLines(s, id, st, j);
    CreditCharged(s, id, st, j);
  }

  /** Adding a movement of the opposite kind keeps the alternation. */
  lemma AlternatesSnoc(m: seq<Entry>, e: Entry)
    requires Alternates(m, e.at, e.bytes)
    requires e.Charge? <==> |m| % 2 == 0
    ensures Alternates(m + [e], e.at, e.bytes)
  {
    var n := m + [e];
    forall k | 0 <= k < |n| ensures n[k].at == e.at && n[k].bytes == e.bytes && (n[k].Charge? <==> k % 2 == 0) {
      assert k < |m| ==> n[k] == m[k];
    }
  }

  /** The lease table and the movements of any lease `x` after a charge. */
  lemma ChargeMovements(s: State, id: LeaseId, l: Lease, at: nat, x: LeaseId)
    requires at < |s.planes|
    ensures var r := ChargeLease(s, id, l, at);
      && r.leases == s.leases[id := l]
      && (forall plane :: IndexOf(r.planes, plane) == IndexOf(s.planes, plane))
      && Movements(r.journal, x) == if x == id then Movements(s.journal, x) + [Charge(id, at, l.bytes)] else Movements(s.journal, x)
  {
    SameLayoutLookups(s.planes, ChargeLease(s, id, l, at).planes);
  }

  lemma ChargeAccounted(s: State, id: LeaseId, l: Lease, at: nat, x: LeaseId)
    requires Accounted(s, x)
    requires l.IsActive() && at < |s.planes| && at == IndexOf(s.planes, l.plane)
    requires if id in s.leases then !s.leases[id].IsActive() && s.leases[id].plane == l.plane && s.leases[id].bytes == l.bytes
             else Movements(s.journal, id) == []
    ensures Accounted(ChargeLease(s, id, l, at), x)
  {
    hide ChargeLease, Movements, IndexOf;
    ChargeMovements(s, id, l, at, x);
    if x == id {
      AlternatesSnoc(Movements(s.journal, id), Charge(id, at, l.bytes));
    }
  }

  lemma CreditAccounted(s: State, id: LeaseId, st: LeaseState, x: LeaseId)
    requires Accounted(s, x)
    requires id in s.leases && s.leases[id].IsActive() && IndexOf(s.planes, s.leases[id].plane) < |s.planes|
    requires st.Preempted? || st.Revoked? || st.Expired?
    ensures Accounted(CreditLease(s, id, st), x)
  {
    var r := CreditLease(s, id, st);
    SameLayoutLookups(s.planes, r.planes);
    if x == id {
      AlternatesSnoc(Movements(s.journal, id), Credit(id, IndexOf(s.planes, s.leases[id].plane), s.leases[id].bytes));
    } else {
      assert Movements(r.journal, x) == Movements(s.journal, x);
    }
  }

  /** An inactive or new lease that becomes active is charged to its plane. */
  lemma ChargeKeeps(s: State, id: LeaseId, l: Lease, at: nat)
    requires Inv(s) && l.IsActive() && at < |s.planes| && at == IndexOf(s.planes, l.plane)
    requires if id in s.leases then !s.leases[id].IsActive() && s.leases[id].plane == l.plane && s.leases[id].bytes == l.bytes
             else Movements(s.journal, id) == []
    ensures Inv(ChargeLease(s, id, l, at))
  {
    var r := ChargeLease(s, id, l, at);
    SameLayoutLookups(s.planes, r.planes);
    forall j | 0 <= j < |r.planes| ensures Bounded(r, j) {
      ChargeBounded(s, id, l, at, j);
    }
    forall x ensures Accounted(r, x) {
      ChargeAccounted(s, id, l, at, x);
    }
  }

  lemma CreditShape(s: State, id: LeaseId, st: LeaseState)
    requires Inv(s) && id in s.leases && s.leases[id].IsActive()
    ensures var r := CreditLease(s, id, st);
      && IndexOf(s.planes, s.leases[id].plane) < |s.planes|
      && LedgerShape(r) && r.installed == s.installed && r.issued == s.issued
      && r.leases == s.leases[id := s.leases[id].(state := st)]
      && (forall x :: IndexOf(r.planes, x) == IndexOf(s.planes, x))
      && (forall x :: x != id ==> Movements(r.journal, x) == Movements(s.journal, x))
  {
    assert s.leases[id].IsLive();
    SameLayoutLookups(s.planes, CreditLease(s, id, st).planes);
  }

  /** An active lease that becomes inactive is credited. */
  lemma CreditKeeps(s: State, id: LeaseId, st: LeaseState)
    requires Inv(s) && id in s.leases && s.leases[id].IsActive()
    requires st.Preempted? || st.Revoked? || st.Expired?
    ensures Inv(CreditLease(s, id, st))
  {
    var r := CreditLease(s, id, st);
    CreditShape(s, id, st);
    forall j | 0 <= j < |r.planes| ensures Bounded(r, j) {
      CreditBounded(s, id, st, j);
    }
    forall x ensures Accounted(r, x) {
      CreditAccounted(s, id, st, x);
    }
  }

  /** Changing the state of a lease without changing whether it is active moves no bytes. */
  lemma MarkKeeps(s: State, id: LeaseId, st: LeaseState)
    requires Inv(s) && id in s.leases
    requires s.leases[id].IsActive() <==> s.leases[id].(state := st).IsActive()
    requires s.leases[id].(state := st).IsLive() ==> s.leases[id].IsLive()
    ensures Inv(SetState(s, id, st))
  {
    var r := SetState(s, id, st);
    forall j | 0 <= j < |r.planes| ensures Bounded(r, j) {
      assert Bounded(s, j);
      ChargedPut(s.planes, s.leases, id, r.leases[id], j);
    }
    forall x ensures Accounted(r, x) {
      assert Accounted(s, x);
    }
  }

  lemma CollectKeeps(s: State)
    requires Inv(s)
    ensures Inv(Collect(s))
  {
    var r := Collect(s);
    forall j | 0 <= j < |r.planes| ensures Bounded(r, j) {
      assert Bounded(s, j);
      ChargedCollect(s, j);
    }
    forall x ensures Accounted(r, x) {
      assert Accounted(s, x);
    }
  }

  lemma {:induction false} PreemptKeeps(s: State, t: nat, required: nat, order: seq<LeaseId>)
    requires Inv(s) && t < |s.planes| && Distinct(order)
    requires forall id :: id in order ==> id in s.leases && s.leases[id].IsActive()
    ensures Inv(Preempt(s, t, required, order).0)
    decreases |order|
  {
    if order != [] && s.planes[t].available < required {
      CreditKeeps(s, order[0], Preempted);
      PreemptKeeps(CreditLease(s, order[0], Preempted), t, required, order[1..]);
    }
  }

  lemma AcquireKeeps(s: State, critical: bool, req: Request, order: seq<LeaseId>, id: LeaseId)
    requires Inv(s) && Orders(s, req, order) && id !in s.issued
    ensures Inv(Acquire(s, critical, req, order, id).state)
  {
    var selected := SelectPlane(s.planes, req);
    if !(critical && !req.priority.EmergencyTriage?) && selected.Ok? {
      var t := selected.value;
      PreemptKeeps(s, t, req.required, order);
      PreemptFrame(s, t, req.required, order);
      var (cleared, n) := Preempt(s, t, req.required, order);
      CollectKeeps(cleared);
      if req.required <= cleared.planes[t].available || req.priority.EmergencyTriage? {
        SameLayoutLookups(s.installed, cleared.planes);
        assert s.planes[t].(available := 0) == cleared.planes[t].(available := 0);
        IndexOfUnique(cleared.planes, t);
        ChargeKeeps(Collect(cleared), id, NewLease(s, t, req), t);
      }
    }
  }

  /** Preemption touches neither the layout nor the history of handed-out identifiers. */
  lemma {:induction false} PreemptFrame(s: State, t: nat, required: nat, order: seq<LeaseId>)
    requires t < |s.planes|
    requires forall id :: id in order ==> id in s.leases
    ensures var r := Preempt(s, t, required, order).0;
      SameLayout(s.planes, r.planes) && r.issued == s.issued && r.installed == s.installed
    decreases |order|
  {
    if order != [] && s.planes[t].available < required {
      PreemptFrame(CreditLease(s, order[0], Preempted), t, required, order[1..]);
    }
  }

  lemma EndKeeps(s: State, id: LeaseId, st: LeaseState)
    requires Inv(s) && (st.Revoked? || st.Expired?)
    ensures Inv(End(s, id, st).state)
  {
    if id in s.leases && s.leases[id].IsActive() {
      CreditKeeps(s, id, st);
    } else if id in s.leases && s.leases[id].IsLive() {
      MarkKeeps(s, id, st);
    }
  }

  lemma ThawKeeps(s: State, id: LeaseId)
    requires Inv(s)
    ensures Inv(Thaw(s, id).state)
  {
    if id in s.leases {
      var l := s.leases[id];
      if l.state.Preempted? && Thaw(s, id).status.Done? {
        ChargeKeeps(s, id, l.(state := Active), IndexOf(s.planes, l.plane));
      } else if l.state.Frozen? || l.state.Preempting? {
        MarkKeeps(s, id, Active);
      }
    }
  }
}
