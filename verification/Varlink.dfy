/** Varlink connections on top of the arbiter: each keeps a list of the leases it was granted and gives them back when its
    client goes away, while other connections, gateways and hot-plug events act at any point in between. */
module Varlink {
  import opened Leases
  import opened Topology
  import opened ArbiterSpec
  import opened Ledger
  import opened Runs
  import opened Grants

  /** How far a connection has come; a request is handled in two steps, the arbiter's and the list's. */
  datatype Pc =
    | Serving
    | Granted(id: LeaseId)          // the arbiter granted `id`; it is not listed yet
    | Released(id: LeaseId)         // the arbiter released `id`; the list still has to drop it
    | Reclaiming(rest: seq<LeaseId>)  // the client is gone; `rest` is still to be released

  /** `granted` is history: every lease ever granted on this connection. */
  datatype Connection = Connection(pc: Pc, listed: seq<LeaseId>, granted: set<LeaseId>)

  type ConnId = nat

  datatype Server = Server(s: State, connections: map<ConnId, Connection>)

  datatype Event =
    | Open(c: ConnId)
    | AcquireLease(c: ConnId, critical: bool, req: Request, order: seq<LeaseId>, newId: LeaseId)
    | ListLease(c: ConnId)
    | ReleaseLease(c: ConnId, id: LeaseId)
    | DropLease(c: ConnId)
    | Disconnect(c: ConnId)
    | Reclaim(c: ConnId)
    | Other(op: Op)

  ghost predicate Possible(w: Server, e: Event) {
    match e
    case Open(c) => c !in w.connections
    case AcquireLease(c, critical, req, order, newId) =>
      c in w.connections && w.connections[c].pc.Serving? && Enabled(w.s, AcquireOp(critical, req, order, newId))
    case ListLease(c) => c in w.connections && w.connections[c].pc.Granted?
    case ReleaseLease(c, _) => c in w.connections && w.connections[c].pc.Serving?
    case DropLease(c) => c in w.connections && w.connections[c].pc.Released?
    case Disconnect(c) => c in w.connections && w.connections[c].pc.Serving?
    case Reclaim(c) => c in w.connections && w.connections[c].pc.Reclaiming? && w.connections[c].pc.rest != []
    case Other(op) => Enabled(w.s, op)
  }

  /** `retain(|id| id != gone)`. */
  function Without(list: seq<LeaseId>, gone: LeaseId): (r: seq<LeaseId>)
    ensures forall id :: id in r <==> id in list && id != gone
  {
    if list == [] then []
    else (if list[0] == gone then [] else [list[0]]) + Without(list[1..], gone)
  }

  function Next(w: Server, e: Event): Server
    requires Possible(w, e)
  {
    match e
    case Open(c) => w.(connections := w.connections[c := Connection(Serving, [], {})])
    case AcquireLease(c, critical, req, order, newId) =>
      var k, a := w.connections[c], Acquire(w.s, critical, req, order, newId);
      if a.result.Ok? then
        Server(a.state, w.connections[c := k.(pc := Granted(a.result.value), granted := k.granted + {a.result.value})])
      else w.(s := a.state)
    case ListLease(c) =>
      var k := w.connections[c];
      w.(connections := w.connections[c := k.(pc := Serving, listed := k.listed + [k.pc.id])])
    case ReleaseLease(c, id) =>
      var k, r := w.connections[c], Release(w.s, id);
      Server(r.state, if r.status.Done? then w.connections[c := k.(pc := Released(id))] else w.connections)
    case DropLease(c) =>
      var k := w.connections[c];
      w.(connections := w.connections[c := k.(pc := Serving, listed := Without(k.listed, k.pc.id))])
    case Disconnect(c) =>
      var k := w.connections[c];
      w.(connections := w.connections[c := k.(pc := Reclaiming(k.listed))])
    case Reclaim(c) =>
      var k := w.connections[c];
      Server(Release(w.s, k.pc.rest[0]).state, w.connections[c := k.(pc := Reclaiming(k.pc.rest[1..]))])
    case Other(op) => w.(s := Apply(w.s, op))
  }

  ghost predicate Legal(w: Server, events: seq<Event>)
    decreases |events|
  {
    events == [] || (Possible(w, events[0]) && Legal(Next(w, events[0]), events[1..]))
  }

  function Exec(w: Server, events: seq<Event>): Server
    requires Legal(w, events)
    decreases |events|
  {
    if events == [] then w else Exec(Next(w, events[0]), events[1..])
  }

  /** The connection still knows about lease `id`. */
  predicate Knows(k: Connection, id: LeaseId) {
    match k.pc
    case Reclaiming(rest) => id in rest
    case Granted(newest) => id == newest || id in k.listed
    case _ => id in k.listed
  }

  ghost predicate Faithful(s: State, k: Connection) {
    && k.granted <= s.issued
    && (forall id :: id in k.granted ==> Knows(k, id) || IsDead(s, id))
    && (k.pc.Released? && k.pc.id in k.granted ==> IsDead(s, k.pc.id))
  }

  ghost predicate ServerInv(w: Server) {
    Inv(w.s) && forall c {:trigger w.connections[c]} :: c in w.connections ==> Faithful(w.s, w.connections[c])
  }

  /** Nothing an operation does to the arbiter makes a connection lose sight of a live lease. */
  lemma FaithfulThroughOp(s: State, op: Op, k: Connection)
    requires Inv(s) && Enabled(s, op) && Faithful(s, k)
    ensures Faithful(Apply(s, op), k)
  {
    StepIssues(s, op);
    forall id | IsDead(s, id) ensures IsDead(Apply(s, op), id) {
      StepKeepsDead(s, op, id);
    }
  }

  lemma OpKeeps(w: Server, op: Op)
    requires ServerInv(w) && Enabled(w.s, op)
    ensures ServerInv(w.(s := Apply(w.s, op)))
  {
    StepKeeps(w.s, op);
    forall c | c in w.connections ensures Faithful(Apply(w.s, op), w.connections[c]) {
      FaithfulThroughOp(w.s, op, w.connections[c]);
    }
  }

  lemma ConnectionKeeps(w: Server, c: ConnId, k: Connection)
    requires ServerInv(w) && Faithful(w.s, k)
    ensures ServerInv(w.(connections := w.connections[c := k]))
  {
    var r := w.(connections := w.connections[c := k]);
    forall d | d in r.connections ensures Faithful(r.s, r.connections[d]) {
      assert d != c ==> r.connections[d] == w.connections[d];
    }
  }

  /** A successful release leaves the lease finished. */
  lemma ReleaseFinishes(s: State, id: LeaseId)
    requires Inv(s)
    ensures Release(s, id).status.Done? ==> IsDead(Release(s, id).state, id)
    ensures id in s.issued ==> IsDead(Release(s, id).state, id)
  {
  }

  lemma GrantIssues(s: State, critical: bool, req: Request, order: seq<LeaseId>, id: LeaseId)
    requires Inv(s) && Orders(s, req, order) && id !in s.issued && Acquire(s, critical, req, order, id).result.Ok?
    ensures Acquire(s, critical, req, order, id).result.value == id
    ensures id in Acquire(s, critical, req, order, id).state.issued
  {
    AcquireHandsOut(s, critical, req, order, id);
  }

  lemma EventKeeps(w: Server, e: Event)
    requires ServerInv(w) && Possible(w, e)
    ensures ServerInv(Next(w, e))
  {
    match e
    case Open(c) => ConnectionKeeps(w, c, Connection(Serving, [], {}));
    case AcquireLease(c, critical, req, order, newId) =>
      OpKeeps(w, AcquireOp(critical, req, order, newId));
      var k, a := w.connections[c], Acquire(w.s, critical, req, order, newId);
      if a.result.Ok? {
        GrantIssues(w.s, critical, req, order, newId);
        FaithfulThroughOp(w.s, AcquireOp(critical, req, order, newId), k);
        ConnectionKeeps(w.(s := a.state), c, k.(pc := Granted(newId), granted := k.granted + {newId}));
      }
    case ListLease(c) =>
      var k := w.connections[c];
      assert Faithful(w.s, k);
      ConnectionKeeps(w, c, k.(pc := Serving, listed := k.listed + [k.pc.id]));
    case ReleaseLease(c, id) =>
      OpKeeps(w, ReleaseOp(id));
      ReleaseFinishes(w.s, id);
      var k := w.connections[c];
      FaithfulThroughOp(w.s, ReleaseOp(id), k);
      if Release(w.s, id).status.Done? {
        ConnectionKeeps(w.(s := Release(w.s, id).state), c, k.(pc := Released(id)));
      }
    case DropLease(c) =>
      var k := w.connections[c];
      assert Faithful(w.s, k);
      ConnectionKeeps(w, c, k.(pc := Serving, listed := Without(k.listed, k.pc.id)));
    case Disconnect(c) =>
      var k := w.connections[c];
      assert Faithful(w.s, k);
      ConnectionKeeps(w, c, k.(pc := Reclaiming(k.listed)));
    case Reclaim(c) =>
      var k := w.connections[c];
      ReclaimKeeps(w, c);
    case Other(op) => OpKeeps(w, op);
  }

  lemma ReclaimKeeps(w: Server, c: ConnId)
    requires ServerInv(w) && Possible(w, Reclaim(c))
    ensures ServerInv(Next(w, Reclaim(c)))
  {
    var k := w.connections[c];
    var id := k.pc.rest[0];
    assert Faithful(w.s, k);
    OpKeeps(w, ReleaseOp(id));
    ReleaseFinishes(w.s, id);
    FaithfulThroughOp(w.s, ReleaseOp(id), k);
    assert forall x :: x in k.pc.rest ==> x == id || x in k.pc.rest[1..];
    ConnectionKeeps(w.(s := Release(w.s, id).state), c, k.(pc := Reclaiming(k.pc.rest[1..])));
  }

  lemma {:induction false} RunKeeps(w: Server, events: seq<Event>)
    requires ServerInv(w) && Legal(w, events)
    ensures ServerInv(Exec(w, events))
    decreases |events|
  {
    if events != [] {
      EventKeeps(w, events[0]);
      RunKeeps(Next(w, events[0]), events[1..]);
    }
  }

  // ----- what the arbiter does, and what it grants to whom -----

  /** The operation that an event asks of the arbiter, if any. */
  function OpOf(w: Server, e: Event): seq<Op>
    requires Possible(w, e)
  {
    match e
    case AcquireLease(_, critical, req, order, newId) => [AcquireOp(critical, req, order, newId)]
    case ReleaseLease(_, id) => [ReleaseOp(id)]
    case Reclaim(c) => [ReleaseOp(w.connections[c].pc.rest[0])]
    case Other(op) => [op]
    case _ => []
  }

  function OpsOf(w: Server, events: seq<Event>): seq<Op>
    requires Legal(w, events)
    decreases |events|
  {
    if events == [] then [] else OpOf(w, events[0]) + OpsOf(Next(w, events[0]), events[1..])
  }

  /** For the arbiter a run of the server is the run of the operations that its events ask for, no more and no fewer. */
  lemma {:induction false} ServerIsArbiterRun(w: Server, events: seq<Event>)
    requires Legal(w, events)
    ensures ArbiterSpec.Legal(w.s, OpsOf(w, events)) && Exec(w, events).s == ArbiterSpec.Exec(w.s, OpsOf(w, events))
    decreases |events|
  {
    if events != [] {
      var next := Next(w, events[0]);
      ServerIsArbiterRun(next, events[1..]);
      var first, later := OpOf(w, events[0]), OpsOf(next, events[1..]);
      if first == [] {
        assert first + later == later;
      } else {
        assert (first + later)[1..] == later && (first + later)[0] == first[0];
      }
    }
  }

  /** What a step grants to connection `c`, told from the event and the arbiter's table: a request of `c` was granted when the
      new lease is in the table after it. */
  function GrantOf(w: Server, e: Event, c: ConnId): seq<LeaseId>
    requires Possible(w, e)
  {
    if e.AcquireLease? && e.c == c && e.newId in Next(w, e).s.leases then [e.newId] else []
  }

  /** The leases granted on connection `c` along a run, in the order of the grants. */
  function GrantsOf(w: Server, events: seq<Event>, c: ConnId): seq<LeaseId>
    requires Legal(w, events)
    decreases |events|
  {
    if events == [] then []
    else
      GrantOf(w, events[0], c) + GrantsOf(Next(w, events[0]), events[1..], c)
  }

  function Noted(w: Server, c: ConnId): set<LeaseId> {
    if c in w.connections then w.connections[c].granted else {}
  }

  /** A request on a connection: its own history notes a grant, other connections change nothing. */
  lemma RequestNotes(w: Server, e: Event, c: ConnId)
    requires ServerInv(w) && Possible(w, e) && e.AcquireLease?
    ensures var next := Next(w, e);
      && next.connections.Keys == w.connections.Keys && w.s.issued <= next.s.issued
      && (c in w.connections ==>
           var k := w.connections[c];
           next.connections[c] == if GrantOf(w, e, c) == [] then k else k.(pc := Granted(e.newId), granted := k.granted + {e.newId}))
      && (GrantOf(w, e, c) != [] ==> e.newId !in w.s.issued && e.newId in next.s.issued)
  {
    hide Acquire, Inv;
    AcquireHandsOut(w.s, e.critical, e.req, e.order, e.newId);
    IssuedFirst(w.s);
  }

  lemma IssuedFirst(s: State)
    requires Inv(s)
    ensures s.leases.Keys <= s.issued
  {
  }

  lemma StepNotes(w: Server, e: Event, c: ConnId)
    requires ServerInv(w) && Possible(w, e)
    ensures forall id :: id in Noted(Next(w, e), c) <==> id in Noted(w, c) || id in GrantOf(w, e, c)
    ensures c in w.connections ==> c in Next(w, e).connections
  {
    hide Acquire, Release, Inv;
    if e.AcquireLease? {
      RequestNotes(w, e, c);
    }
  }

  /** A connection's history notes all of its grants and nothing else. */
  lemma {:induction false} NotesGrants(w: Server, events: seq<Event>, c: ConnId)
    requires ServerInv(w) && Legal(w, events)
    ensures forall id :: id in Noted(Exec(w, events), c) <==> id in Noted(w, c) || id in GrantsOf(w, events, c)
    decreases |events|
  {
    if events != [] {
      StepNotes(w, events[0], c);
      EventKeeps(w, events[0]);
      NotesGrants(Next(w, events[0]), events[1..], c);
    }
  }

  /** The server before its first connection. */
  function Start(planes: seq<Plane>): Server {
    Server(Init(planes), map[])
  }

  lemma FromStart(planes: seq<Plane>, events: seq<Event>, c: ConnId)
    requires GoodTopology(planes) && Legal(Start(planes), events)
    ensures ServerInv(Exec(Start(planes), events))
    ensures forall id :: id in Noted(Exec(Start(planes), events), c) <==> id in GrantsOf(Start(planes), events, c)
  {
    InitKeeps(planes);
    RunKeeps(Start(planes), events);
    NotesGrants(Start(planes), events, c);
  }

  /** The connection's client is gone and its cleanup loop is through. */
  predicate IsClosed(w: Server, c: ConnId) {
    c in w.connections && w.connections[c].pc == Reclaiming([])
  }

  /** While a connection is served, every lease granted on it that may still hold memory is in its list, or is the one
      just granted. */
  lemma LiveLeasesAreListed(planes: seq<Plane>, events: seq<Event>, c: ConnId, id: LeaseId)
    requires GoodTopology(planes) && Legal(Start(planes), events) && id in GrantsOf(Start(planes), events, c)
    requires var w := Exec(Start(planes), events);
      && c in w.connections && !w.connections[c].pc.Reclaiming?
      && id in w.s.leases && w.s.leases[id].IsLive()
    ensures var w := Exec(Start(planes), events);
      id in w.connections[c].listed || w.connections[c].pc == Granted(id)
  {
    FromStart(planes, events, c);
    var w := Exec(Start(planes), events);
    assert Faithful(w.s, w.connections[c]);
  }

  lemma {:induction false} ClosedForever(w: Server, events: seq<Event>, c: ConnId)
    requires ServerInv(w) && Legal(w, events) && IsClosed(w, c)
    ensures IsClosed(Exec(w, events), c) && Exec(w, events).connections[c] == w.connections[c]
    decreases |events|
  {
    if events != [] {
      EventKeeps(w, events[0]);
      ClosedForever(Next(w, events[0]), events[1..], c);
    }
  }

  lemma ClosedIsDead(w: Server, c: ConnId, later: seq<Event>, id: LeaseId)
    requires ServerInv(w) && IsClosed(w, c) && Legal(w, later) && id in w.connections[c].granted
    ensures IsDead(Exec(w, later).s, id)
  {
    ClosedForever(w, later, c);
    RunKeeps(w, later);
    var r := Exec(w, later);
    assert Faithful(r.s, r.connections[c]);
  }

  /** No zombie leases: whatever other connections, hot-plug events and table collection do in between, once the cleanup
      of a connection is through, no lease ever granted on it is active, preempting, frozen or preempted, and none ever
      is again in any continuation. */
  lemma NoZombies(planes: seq<Plane>, events: seq<Event>, c: ConnId, later: seq<Event>, id: LeaseId)
    requires GoodTopology(planes) && Legal(Start(planes), events) && id in GrantsOf(Start(planes), events, c)
    requires IsClosed(Exec(Start(planes), events), c) && Legal(Exec(Start(planes), events), later)
    ensures var s := Exec(Exec(Start(planes), events), later).s;
      id in s.leases ==> s.leases[id].state.Revoked? || s.leases[id].state.Expired?
  {
    FromStart(planes, events, c);
    ClosedIsDead(Exec(Start(planes), events), c, later, id);
  }

  /** Once every lease that still holds memory was granted on a closed connection, and so there is none, every plane has at
      least its installed bytes back, and a plane installed full is full; leases of gateways and sentries that were given
      back long ago do not matter. */
  lemma AllClientsGone(planes: seq<Plane>, events: seq<Event>, j: nat)
    requires GoodTopology(planes) && Legal(Start(planes), events)
    requires var w := Exec(Start(planes), events);
      && j < |w.s.planes|
      && forall id :: id in w.s.leases && w.s.leases[id].IsActive() ==>
           exists c :: IsClosed(w, c) && id in GrantsOf(Start(planes), events, c)
    ensures var s := Exec(Start(planes), events).s;
      && |s.installed| == |s.planes|
      && s.installed[j].available <= s.planes[j].available
      && (s.installed[j].available == s.installed[j].total ==> s.planes[j].available == s.planes[j].total)
  {
    var w := Exec(Start(planes), events);
    FromStart(planes, events, 0);
    forall id | id in w.s.leases && w.s.leases[id].IsActive() ensures false {
      var c :| IsClosed(w, c) && id in GrantsOf(Start(planes), events, c);
      assert Exec(w, []) == w;
      NoZombies(planes, events, c, [], id);
    }
    RecoveredWhenIdle(w.s, j);
  }

  // ----- what a list holds -----

  /** What a step of the client of `c` successfully releases on the connection itself, told from the event and the table. */
  function ReleaseOf(w: Server, e: Event, c: ConnId): set<LeaseId> {
    if e.ReleaseLease? && e.c == c && e.id in w.s.leases then {e.id} else {}
  }

  function ReleasesOf(w: Server, events: seq<Event>, c: ConnId): set<LeaseId>
    requires Legal(w, events)
    decreases |events|
  {
    if events == [] then {}
    else
      ReleaseOf(w, events[0], c) + ReleasesOf(Next(w, events[0]), events[1..], c)
  }

  /** The grants that were not released, in the order of the grants. */
  function Kept(granted: seq<LeaseId>, released: set<LeaseId>): (r: seq<LeaseId>)
    ensures forall id :: id in r <==> id in granted && id !in released
  {
    if granted == [] then []
    else (if granted[0] in released then [] else [granted[0]]) + Kept(granted[1..], released)
  }

  lemma {:induction false} KeptSnoc(granted: seq<LeaseId>, released: set<LeaseId>, id: LeaseId)
    ensures Kept(granted + [id], released) == Kept(granted, released) + if id in released then [] else [id]
    decreases |granted|
  {
    if granted == [] {
      assert granted + [id] == [id] && [id][1..] == [];
    } else {
      assert (granted + [id])[1..] == granted[1..] + [id];
      KeptSnoc(granted[1..], released, id);
    }
  }

  lemma {:induction false} KeptWithout(granted: seq<LeaseId>, released: set<LeaseId>, id: LeaseId)
    ensures Without(Kept(granted, released), id) == Kept(granted, released + {id})
    decreases |granted|
  {
    if granted != [] {
      KeptWithout(granted[1..], released, id);
      var rest := Kept(granted[1..], released);
      assert ([granted[0]] + rest)[1..] == rest && [] + rest == rest;
    }
  }

  /** The list of a connection with grants `granted` and releases `released`: between two requests it is the grants that were
      not released, in their order; a cleanup works through it from the front. */
  ghost predicate ListExact(k: Connection, granted: seq<LeaseId>, released: set<LeaseId>) {
    match k.pc
    case Serving => k.listed == Kept(granted, released)
    case Granted(newest) =>
      granted != [] && granted[|granted| - 1] == newest && newest !in released
      && k.listed == Kept(granted[..|granted| - 1], released)
    case Released(gone) => gone in released && Without(k.listed, gone) == Kept(granted, released)
    case Reclaiming(rest) =>
      && k.listed == Kept(granted, released)
      && |rest| <= |k.listed| && rest == k.listed[|k.listed| - |rest|..]
  }

  /** Every connection's list is exact, and only issued leases were released. */
  ghost predicate ListedExactly(w: Server, c: ConnId, granted: seq<LeaseId>, released: set<LeaseId>) {
    && (if c in w.connections then ListExact(w.connections[c], granted, released) else granted == [] && released == {})
    && released <= w.s.issued
  }

  lemma RequestLists(w: Server, e: Event, c: ConnId, granted: seq<LeaseId>, released: set<LeaseId>)
    requires ServerInv(w) && Possible(w, e) && ListedExactly(w, c, granted, released) && e.AcquireLease?
    ensures ListedExactly(Next(w, e), c, granted + GrantOf(w, e, c), released)
  {
    hide Next, Inv, GrantOf;
    RequestNotes(w, e, c);
    RequestOf(w, e, c);
    if GrantOf(w, e, c) == [] {
      assert granted + [] == granted;
    } else {
      assert (granted + [e.newId])[..|granted|] == granted;
    }
  }

  /** Only a served connection can be granted anything. */
  lemma RequestOf(w: Server, e: Event, c: ConnId)
    requires Possible(w, e)
    ensures GrantOf(w, e, c) != [] ==>
      e.AcquireLease? && GrantOf(w, e, c) == [e.newId] && c in w.connections && w.connections[c].pc.Serving?
  {
  }

  /** A release on a connection: the table tells whether it succeeds. */
  lemma ReleaseLists(w: Server, e: Event, c: ConnId, granted: seq<LeaseId>, released: set<LeaseId>)
    requires ServerInv(w) && Possible(w, e) && ListedExactly(w, c, granted, released) && e.ReleaseLease?
    ensures ListedExactly(Next(w, e), c, granted, released + ReleaseOf(w, e, c))
  {
    hide Inv;
    StepIssues(w.s, ReleaseOp(e.id));
    IssuedFirst(w.s);
    KeptWithout(granted, released, e.id);
    assert released + {} == released;
  }

  /** The list takes the lease granted this instant. */
  lemma NewestListed(k: Connection, granted: seq<LeaseId>, released: set<LeaseId>)
    requires k.pc.Granted? && ListExact(k, granted, released)
    ensures k.listed + [k.pc.id] == Kept(granted, released)
  {
    hide Kept;
    var earlier := granted[..|granted| - 1];
    KeptSnoc(earlier, released, k.pc.id);
    assert granted == earlier + [k.pc.id];
  }

  /** The steps that touch the arbiter only, or a list only. */
  lemma OtherLists(w: Server, e: Event, c: ConnId, granted: seq<LeaseId>, released: set<LeaseId>)
    requires ServerInv(w) && Possible(w, e) && ListedExactly(w, c, granted, released) && !e.AcquireLease? && !e.ReleaseLease?
    ensures ListedExactly(Next(w, e), c, granted, released)
  {
    hide Inv, Apply, Release, Without;
    if e.ListLease? && e.c == c {
      NewestListed(w.connections[c], granted, released);
    } else if e.Other? {
      StepIssues(w.s, e.op);
    } else if e.Reclaim? {
      StepIssues(w.s, ReleaseOp(w.connections[e.c].pc.rest[0]));
      ApplyRelease(w.s, w.connections[e.c].pc.rest[0]);
    }
  }

  lemma ApplyRelease(s: State, id: LeaseId)
    ensures Apply(s, ReleaseOp(id)) == Release(s, id).state
  {
  }

  lemma StepLists(w: Server, e: Event, c: ConnId, granted: seq<LeaseId>, released: set<LeaseId>)
    requires ServerInv(w) && Possible(w, e) && ListedExactly(w, c, granted, released)
    ensures ListedExactly(Next(w, e), c, granted + GrantOf(w, e, c), released + ReleaseOf(w, e, c))
  {
    hide ListedExactly, Next, ServerInv;
    if e.AcquireLease? {
      RequestLists(w, e, c, granted, released);
      assert released + {} == released;
    } else {
      assert granted + [] == granted;
      if e.ReleaseLease? {
        ReleaseLists(w, e, c, granted, released);
      } else {
        OtherLists(w, e, c, granted, released);
        assert released + {} == released;
      }
    }
  }

  lemma {:induction false} RunLists(w: Server, events: seq<Event>, c: ConnId, granted: seq<LeaseId>, released: set<LeaseId>)
    requires ServerInv(w) && Legal(w, events) && ListedExactly(w, c, granted, released)
    ensures ListedExactly(Exec(w, events), c, granted + GrantsOf(w, events, c), released + ReleasesOf(w, events, c))
    decreases |events|
  {
    hide ListedExactly, ServerInv, GrantOf, ReleaseOf, Next;
    if events == [] {
      assert granted + [] == granted && released + {} == released;
    } else {
      var e, next := events[0], Next(w, events[0]);
      StepLists(w, e, c, granted, released);
      EventKeeps(w, e);
      RunLists(next, events[1..], c, granted + GrantOf(w, e, c), released + ReleaseOf(w, e, c));
      assert granted + GrantOf(w, e, c) + GrantsOf(next, events[1..], c) == granted + GrantsOf(w, events, c);
      assert released + ReleaseOf(w, e, c) + ReleasesOf(next, events[1..], c) == released + ReleasesOf(w, events, c);
    }
  }

  /** Between two requests the list of a connection is exactly the leases granted on it that its client has not released, in
      the order of the grants, whatever became of them elsewhere; when the client goes, exactly these are given back, in the order of the list. */
  lemma ListIsExact(planes: seq<Plane>, events: seq<Event>, c: ConnId)
    requires GoodTopology(planes) && Legal(Start(planes), events) && c in Exec(Start(planes), events).connections
    ensures ListExact(Exec(Start(planes), events).connections[c],
                      GrantsOf(Start(planes), events, c), ReleasesOf(Start(planes), events, c))
  {
    InitKeeps(planes);
    RunLists(Start(planes), events, c, [], {});
    assert [] + GrantsOf(Start(planes), events, c) == GrantsOf(Start(planes), events, c);
    assert {} + ReleasesOf(Start(planes), events, c) == ReleasesOf(Start(planes), events, c);
  }

  // ----- cleanup -----

  lemma {:induction false} ServedBefore(w: Server, events: seq<Event>, c: ConnId)
    requires Legal(w, events) && (c in w.connections ==> !w.connections[c].pc.Reclaiming?)
    requires c in Exec(w, events).connections && Exec(w, events).connections[c].pc.Reclaiming?
    ensures Disconnect(c) in events
    decreases |events|
  {
    if events != [] {
      var next := Next(w, events[0]);
      if c in next.connections && next.connections[c].pc.Reclaiming? {
        BecomesReclaiming(w, events[0], c);
      } else {
        ServedBefore(next, events[1..], c);
      }
    }
  }

  lemma BecomesReclaiming(w: Server, e: Event, c: ConnId)
    requires Possible(w, e) && (c in w.connections ==> !w.connections[c].pc.Reclaiming?)
    requires c in Next(w, e).connections && Next(w, e).connections[c].pc.Reclaiming?
    ensures e == Disconnect(c)
  {
  }

  /** No lease is reclaimed while the client is there: over every run a connection is in its cleanup, or through it, only
      after its client has gone. */
  lemma ServedUntilGone(planes: seq<Plane>, events: seq<Event>, c: ConnId)
    requires Legal(Start(planes), events) && c in Exec(Start(planes), events).connections
    ensures Exec(Start(planes), events).connections[c].pc.Reclaiming? ==> Disconnect(c) in events
  {
    if Exec(Start(planes), events).connections[c].pc.Reclaiming? {
      ServedBefore(Start(planes), events, c);
    }
  }

  /** How many of the events are steps of the cleanup of connection `c`. */
  function Reclaims(events: seq<Event>, c: ConnId): nat {
    if events == [] then 0 else (if events[0] == Reclaim(c) then 1 else 0) + Reclaims(events[1..], c)
  }

  /** Whatever others do in between, each cleanup step of a connection strikes off the next lease of its list and nobody
      else touches the list, so the cleanup never takes more steps than there are leases, and is through exactly after
      that many. */
  lemma {:induction false} CleanupAdvances(w: Server, events: seq<Event>, c: ConnId)
    requires Legal(w, events) && c in w.connections && w.connections[c].pc.Reclaiming?
    ensures var n, rest := Reclaims(events, c), w.connections[c].pc.rest;
      && n <= |rest|
      && c in Exec(w, events).connections
      && Exec(w, events).connections[c] == w.connections[c].(pc := Reclaiming(rest[n..]))
      && (IsClosed(Exec(w, events), c) <==> n == |rest|)
    decreases |events|
  {
    if events != [] {
      CleanupAdvances(Next(w, events[0]), events[1..], c);
    }
  }

  /** The cleanup on its own: one step for each lease of the list. */
  function Cleanup(c: ConnId, n: nat): (events: seq<Event>)
    ensures |events| == n && forall k :: 0 <= k < n ==> events[k] == Reclaim(c)
  {
    seq(n, k => Reclaim(c))
  }

  /** The cleanup is never stuck: from wherever it stands, whether or not the arbiter still knows the leases that are left,
      one step for each of them is possible, ends it, and leaves every lease ever granted on the connection finished. */
  lemma CleanupCompletes(planes: seq<Plane>, events: seq<Event>, c: ConnId)
    requires GoodTopology(planes) && Legal(Start(planes), events)
    requires var w := Exec(Start(planes), events); c in w.connections && w.connections[c].pc.Reclaiming?
    ensures var w := Exec(Start(planes), events); var steps := Cleanup(c, |w.connections[c].pc.rest|);
      && Legal(w, steps) && IsClosed(Exec(w, steps), c)
      && forall id :: id in GrantsOf(Start(planes), events, c) ==> IsDead(Exec(w, steps).s, id)
  {
    var w := Exec(Start(planes), events);
    var steps := Cleanup(c, |w.connections[c].pc.rest|);
    FromStart(planes, events, c);
    CleanupIsLegal(w, c);
    RunKeeps(w, steps);
    assert Faithful(Exec(w, steps).s, Exec(w, steps).connections[c]);
  }

  lemma {:induction false} CleanupIsLegal(w: Server, c: ConnId)
    requires c in w.connections && w.connections[c].pc.Reclaiming?
    ensures var k := w.connections[c]; var steps := Cleanup(c, |k.pc.rest|);
      && Legal(w, steps)
      && c in Exec(w, steps).connections && Exec(w, steps).connections[c] == k.(pc := Reclaiming([]))
    decreases |w.connections[c].pc.rest|
  {
    var rest := w.connections[c].pc.rest;
    if rest != [] {
      CleanupIsLegal(Next(w, Reclaim(c)), c);
      assert Cleanup(c, |rest|)[1..] == Cleanup(c, |rest| - 1);
    }
  }
}
