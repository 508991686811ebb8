/** The two-tier preemption coordinator: every call runs step by step, and between any two of its steps other clients may
    perform any operations on the arbiter. */
module Coordinator {
  import opened Numbers
  import opened Leases
  import opened Topology
  import opened ArbiterSpec
  import opened Ledger
  import opened Runs
  import opened Hotplug
  import opened Preemption
  import Overflow

  const POLL_MS: nat := 25
  const RECORD_LIMIT: nat := 128

  datatype Tier = Tier1Cooperative | Tier2ForcedFreeze | TierRevoked

  datatype Record = Record(tier: Tier, completed: bool)

  /** How a call found its lease when it last looked. */
  datatype Sight = Unseen | Absent | Seen(state: LeaseState)

  /** Positions of `preempt_lease`; `elapsed` is the time since the deadline was set, in milliseconds. */
  datatype Pc =
    | Fetching
    | Yielding(lease: Lease)
    | Recording(lease: Lease)
    | Polling(lease: Lease, elapsed: nat)
    | Awake(lease: Lease, elapsed: nat)
    | Cooperative
    | Freezing(lease: Lease)
    | Marking(frozen: bool)
    | Returned(status: Status)

  datatype Call = Call(id: LeaseId, deadline: nat, pc: Pc, sight: Sight, polls: nat, steps: nat)

  type CallId = nat

  datatype World = World(s: State, calls: map<CallId, Call>, records: map<LeaseId, Record>)

  function Look(s: State, id: LeaseId): Sight {
    if id in s.leases then Seen(s.leases[id].state) else Absent
  }

  predicate IsActiveSight(sight: Sight) {
    sight.Seen? && (sight.state.Active? || sight.state.Preempting? || sight.state.Frozen?)
  }

  /** Enters the record of a new preemption, dropping completed records once there are too many. */
  function Enter(records: map<LeaseId, Record>, id: LeaseId): map<LeaseId, Record> {
    var kept := if |records| > RECORD_LIMIT then map x | x in records && !records[x].completed :: records[x] else records;
    kept[id := Record(Tier1Cooperative, false)]
  }

  function Amend(records: map<LeaseId, Record>, id: LeaseId, r: Record): map<LeaseId, Record> {
    if id in records then records[id := r] else records
  }

  /** A call, the arbiter and the records, as one step of the call finds and leaves them. */
  datatype Scene = Scene(s: State, records: map<LeaseId, Record>, call: Call)

  /** One step of a call. A sleep lasts `nap` milliseconds; `signalled` tells whether the kernel accepted a freeze or a
      stop signal. */
  function Turn(scene: Scene, nap: nat, signalled: bool): Scene {
    var Scene(s, records, before) := scene;
    var call := before.(steps := before.steps + 1);
    var id := call.id;
    match call.pc
    case Fetching =>
      var pc :=
        if id !in s.leases then Pc.Returned(Failed(LeaseNotFound(id)))
        else if !s.leases[id].IsActive() then Pc.Returned(Done)
        else Yielding(s.leases[id]);
      Scene(s, records, call.(sight := Look(s, id), pc := pc))
    case Yielding(lease) =>
      var r := Yield(s, id);
      Scene(r.state, records, call.(sight := Look(r.state, id), pc := if r.status.Done? then Recording(lease) else Pc.Returned(r.status)))
    case Recording(lease) => Scene(s, Enter(records, id), call.(pc := Polling(lease, 0)))
    case Polling(lease, elapsed) =>
      Scene(s, records, call.(pc := if elapsed < call.deadline then Awake(lease, elapsed + nap) else Freezing(lease)))
    case Awake(lease, elapsed) =>
      var sight := Look(s, id);
      Scene(s, records, call.(sight := sight, polls := call.polls + 1,
                              pc := if IsActiveSight(sight) then Polling(lease, elapsed) else Cooperative))
    case Cooperative =>
      Scene(s, if id in records then records[id := records[id].(completed := true)] else records, call.(pc := Pc.Returned(Done)))
    case Freezing(lease) =>
      var r := Freeze(s, id);
      var frozen := signalled && (lease.client.pid.Some? || lease.client.unit.Some?);
      Scene(r.state, records, call.(sight := Look(r.state, id), pc := if r.status.Done? then Marking(frozen) else Pc.Returned(r.status)))
    case Marking(frozen) =>
      Scene(s, Amend(records, id, Record(Tier2ForcedFreeze, frozen)), call.(pc := Pc.Returned(Done)))
    case Returned(_) => scene
  }

  function Advance(w: World, c: CallId, nap: nat, signalled: bool): World
    requires c in w.calls
  {
    var r := Turn(Scene(w.s, w.records, w.calls[c]), nap, signalled);
    World(r.s, w.calls[c := r.call], r.records)
  }

  datatype Step =
    | Begin(c: CallId, id: LeaseId, deadline: nat)
    | Own(c: CallId, nap: nat, signalled: bool)
    | Other(op: Op)
    | NoteRevoked(id: LeaseId)

  ghost predicate Possible(w: World, step: Step) {
    match step
    case Begin(c, _, _) => c !in w.calls
    case Own(c, nap, _) => c in w.calls && !w.calls[c].pc.Returned? && POLL_MS <= nap
    case Other(op) => Enabled(w.s, op)
    case NoteRevoked(_) => true
  }

  function Next(w: World, step: Step): World
    requires Possible(w, step)
  {
    match step
    case Begin(c, id, deadline) => w.(calls := w.calls[c := Call(id, deadline, Fetching, Unseen, 0, 0)])
    case Own(c, nap, signalled) => Advance(w, c, nap, signalled)
    case Other(op) => w.(s := Apply(w.s, op))
    case NoteRevoked(id) => w.(records := Amend(w.records, id, Record(TierRevoked, true)))
  }

  ghost predicate Legal(w: World, steps: seq<Step>)
    decreases |steps|
  {
    steps == [] || (Possible(w, steps[0]) && Legal(Next(w, steps[0]), steps[1..]))
  }

  function Exec(w: World, steps: seq<Step>): World
    requires Legal(w, steps)
    decreases |steps|
  {
    if steps == [] then w else Exec(Next(w, steps[0]), steps[1..])
  }

  /** The world before the first call. */
  function Start(planes: seq<Plane>): World {
    World(Init(planes), map[], map[])
  }

  ghost predicate Reachable(w: World) {
    exists planes, steps :: GoodTopology(planes) && Legal(Start(planes), steps)
      && Exec(Start(planes), steps) == w
  }

  // ----- non-interference -----

  /** A yield or a freeze leaves planes, journal and charges alone, and every lease too but an active one, which stays
      active. */
  lemma MarkHarmless(s: State, id: LeaseId, st: LeaseState)
    requires st.Preempting? || st.Frozen?
    ensures Harmless(s, Mark(s, id, st).state, id)
  {
    var r := Mark(s, id, st).state;
    forall j ensures Charged(r.planes, r.leases, j) == Charged(s.planes, s.leases, j) {
      assert Weights(r.planes, r.leases, j) == Weights(s.planes, s.leases, j);
    }
  }

  ghost predicate Harmless(s: State, r: State, id: LeaseId) {
    && r.planes == s.planes && r.journal == s.journal && r.installed == s.installed && r.issued == s.issued
    && r.leases.Keys == s.leases.Keys
    && (forall x :: x in s.leases && (x != id || !s.leases[x].IsActive()) ==> r.leases[x] == s.leases[x])
    && (forall x :: x in s.leases && s.leases[x].IsActive() ==> r.leases[x].IsActive())
    && (forall j :: Charged(r.planes, r.leases, j) == Charged(s.planes, s.leases, j))
  }

  /** On the arbiter a call's step is a yield, a freeze or nothing. */
  lemma AdvanceArbiter(w: World, c: CallId, nap: nat, signalled: bool)
    requires c in w.calls
    ensures var s := Advance(w, c, nap, signalled).s; var id := w.calls[c].id;
      s == w.s || s == Yield(w.s, id).state || s == Freeze(w.s, id).state
  {
  }

  lemma AdvanceCalls(w: World, c: CallId, nap: nat, signalled: bool)
    requires c in w.calls
    ensures var r := Advance(w, c, nap, signalled).calls; c in r && r == w.calls[c := r[c]]
  {
  }

  /** A call's own steps move no bytes: planes, journal and charges stay, and so does every lease but its own, and its own
      too unless it is active, in which case it stays active. */
  lemma OwnStepHarmless(w: World, c: CallId, nap: nat, signalled: bool)
    requires c in w.calls
    ensures var s, r, id := w.s, Advance(w, c, nap, signalled).s, w.calls[c].id;
      && r.planes == s.planes && r.journal == s.journal && r.installed == s.installed && r.issued == s.issued
      && r.leases.Keys == s.leases.Keys
      && (forall x :: x in s.leases && (x != id || !s.leases[x].IsActive()) ==> r.leases[x] == s.leases[x])
      && (forall x :: x in s.leases && s.leases[x].IsActive() ==> r.leases[x].IsActive())
      && (forall j :: Charged(r.planes, r.leases, j) == Charged(s.planes, s.leases, j))
  {
    var id := w.calls[c].id;
    AdvanceArbiter(w, c, nap, signalled);
    MarkHarmless(w.s, id, Preempting);
    MarkHarmless(w.s, id, Frozen);
    assert Harmless(w.s, Advance(w, c, nap, signalled).s, id);
  }

  // ----- outcome, time and the invariant behind them -----

  /** How many polls fit before the deadline. */
  function PollsLeft(deadline: nat, elapsed: nat): nat {
    if elapsed < deadline then (deadline - elapsed + POLL_MS - 1) / POLL_MS else 0
  }

  /** An upper bound on the own steps a call still has to make. */
  function Rank(call: Call): nat {
    match call.pc
    case Fetching => 2 * PollsLeft(call.deadline, 0) + 6
    case Yielding(_) => 2 * PollsLeft(call.deadline, 0) + 5
    case Recording(_) => 2 * PollsLeft(call.deadline, 0) + 4
    case Polling(_, elapsed) => 2 * PollsLeft(call.deadline, elapsed) + 3
    case Awake(_, elapsed) => 2 * PollsLeft(call.deadline, elapsed) + 4
    case Freezing(_) => 2
    case Marking(_) => 1
    case Cooperative => 1
    case Returned(_) => 0
  }

  /** The lease was out of the way: frozen, inactive or gone. */
  predicate IsSettled(sight: Sight) {
    sight.Absent? || (sight.Seen? && !sight.state.Active? && !sight.state.Preempting?)
  }

  ghost predicate Sane(call: Call) {
    && call.steps + Rank(call) <= 2 * PollsLeft(call.deadline, 0) + 6
    && match call.pc
       case Fetching => call.polls == 0
       case Yielding(_) => call.polls == 0
       case Recording(_) => call.polls == 0 && call.sight.Seen?
       case Polling(_, elapsed) => call.polls + PollsLeft(call.deadline, elapsed) <= PollsLeft(call.deadline, 0)
       case Awake(_, elapsed) => call.polls + 1 + PollsLeft(call.deadline, elapsed) <= PollsLeft(call.deadline, 0)
       case Cooperative => IsSettled(call.sight) && call.sight != Seen(Frozen) && 0 < call.polls <= PollsLeft(call.deadline, 0)
       case Freezing(_) => call.polls <= PollsLeft(call.deadline, 0)
       case Marking(_) => call.sight.Seen? && IsSettled(call.sight) && call.polls <= PollsLeft(call.deadline, 0)
       case Returned(Done) =>
         && IsSettled(call.sight) && (call.sight.Absent? ==> 0 < call.polls) && call.polls <= PollsLeft(call.deadline, 0)
       case Returned(Failed(error)) =>
         && call.sight.Absent? && error == LeaseNotFound(call.id) && call.polls <= PollsLeft(call.deadline, 0)
  }

  ghost predicate WorldInv(w: World) {
    Ledger.Inv(w.s) && forall c {:trigger w.calls[c]} :: c in w.calls ==> Sane(w.calls[c])
  }

  lemma OneNap(deadline: nat, elapsed: nat, nap: nat)
    requires elapsed < deadline && POLL_MS <= nap
    ensures PollsLeft(deadline, elapsed + nap) + 1 <= PollsLeft(deadline, elapsed)
  {
  }

  /** The steps of the poll loop. */
  lemma LoopTurnSane(scene: Scene, nap: nat, signalled: bool)
    requires Sane(scene.call) && POLL_MS <= nap && (scene.call.pc.Polling? || scene.call.pc.Awake?)
    ensures Sane(Turn(scene, nap, signalled).call)
  {
    hide Yield, Freeze, PollsLeft;
    if scene.call.pc.Polling? && scene.call.pc.elapsed < scene.call.deadline {
      OneNap(scene.call.deadline, scene.call.pc.elapsed, nap);
    }
  }

  /** A call's step keeps its counts of polls and steps within bounds. */
  lemma TurnSane(scene: Scene, nap: nat, signalled: bool)
    requires Sane(scene.call) && POLL_MS <= nap
    ensures Sane(Turn(scene, nap, signalled).call)
  {
    if scene.call.pc.Polling? || scene.call.pc.Awake? {
      LoopTurnSane(scene, nap, signalled);
    } else {
      hide PollsLeft, Enter, Amend;
    }
  }

  lemma AdvanceInv(w: World, c: CallId, nap: nat, signalled: bool)
    requires c in w.calls && Ledger.Inv(w.s)
    ensures Ledger.Inv(Advance(w, c, nap, signalled).s)
    ensures forall x :: IsDead(w.s, x) ==> IsDead(Advance(w, c, nap, signalled).s, x)
  {
    AdvanceArbiter(w, c, nap, signalled);
    StepKeeps(w.s, YieldOp(w.calls[c].id));
    StepKeeps(w.s, FreezeOp(w.calls[c].id));
    forall x | IsDead(w.s, x) ensures IsDead(Advance(w, c, nap, signalled).s, x) {
      StepKeepsDead(w.s, YieldOp(w.calls[c].id), x);
      StepKeepsDead(w.s, FreezeOp(w.calls[c].id), x);
    }
  }

  lemma OwnKeepsWorld(w: World, c: CallId, nap: nat, signalled: bool)
    requires WorldInv(w) && Possible(w, Own(c, nap, signalled))
    ensures WorldInv(Advance(w, c, nap, signalled))
  {
    assert Sane(w.calls[c]);
    TurnSane(Scene(w.s, w.records, w.calls[c]), nap, signalled);
    AdvanceInv(w, c, nap, signalled);
    AdvanceCalls(w, c, nap, signalled);
    var r := Advance(w, c, nap, signalled);
    forall d | d in r.calls ensures Sane(r.calls[d]) {
      assert d != c ==> r.calls[d] == w.calls[d];
    }
  }

  lemma StepKeepsWorld(w: World, step: Step)
    requires WorldInv(w) && Possible(w, step)
    ensures WorldInv(Next(w, step))
  {
    match step
    case Begin(c, id, deadline) =>
    case Own(c, nap, signalled) => OwnKeepsWorld(w, c, nap, signalled);
    case Other(op) => StepKeeps(w.s, op);
    case NoteRevoked(_) =>
  }

  lemma {:induction false} RunKeepsWorld(w: World, steps: seq<Step>)
    requires WorldInv(w) && Legal(w, steps)
    ensures WorldInv(Exec(w, steps))
    decreases |steps|
  {
    if steps != [] {
      StepKeepsWorld(w, steps[0]);
      RunKeepsWorld(Next(w, steps[0]), steps[1..]);
    }
  }

  lemma ReachableWorld(w: World)
    requires Reachable(w)
    ensures WorldInv(w)
  {
    var planes, steps :| GoodTopology(planes) && Legal(Start(planes), steps)
      && Exec(Start(planes), steps) == w;
    InitKeeps(planes);
    RunKeepsWorld(Start(planes), steps);
  }

  // ----- what a call does, told from the run -----

  predicate IsOwn(step: Step, c: CallId) {
    step.Own? && step.c == c
  }

  /** How many steps of the run are the call's own. */
  function OwnSteps(steps: seq<Step>, c: CallId): nat {
    if steps == [] then 0 else (if IsOwn(steps[0], c) then 1 else 0) + OwnSteps(steps[1..], c)
  }

  /** How often the call looks at its lease after a sleep. */
  function Polls(w: World, steps: seq<Step>, c: CallId): nat
    requires Legal(w, steps)
    decreases |steps|
  {
    if steps == [] then 0
    else (if IsOwn(steps[0], c) && w.calls[c].pc.Awake? then 1 else 0) + Polls(Next(w, steps[0]), steps[1..], c)
  }

  /** How the arbiter's table shows the lease of the call at the last of its own steps that reads or marks it; `before` when
      there is none. */
  function LastLook(w: World, steps: seq<Step>, c: CallId, before: Sight): Sight
    requires Legal(w, steps)
    decreases |steps|
  {
    if steps == [] then before
    else
      var next := Next(w, steps[0]);
      var looks := IsOwn(steps[0], c) &&
        var pc := w.calls[c].pc;
        pc.Fetching? || pc.Yielding? || pc.Awake? || pc.Freezing?;
      LastLook(next, steps[1..], c, if looks then Look(next.s, w.calls[c].id) else before)
  }

  /** The history that a call carries is what the run shows: `own` steps and `looks` polls so far, and the last look. */
  ghost predicate Counted(w: World, c: CallId, own: nat, looks: nat, sight: Sight) {
    if c in w.calls then w.calls[c].steps == own && w.calls[c].polls == looks && w.calls[c].sight == sight
    else own == looks == 0 && sight.Unseen?
  }

  lemma StepCounts(w: World, step: Step, c: CallId, own: nat, looks: nat, sight: Sight)
    requires Possible(w, step) && Counted(w, c, own, looks, sight)
    ensures Legal(w, [step])
    ensures Counted(Next(w, step), c, own + OwnSteps([step], c), looks + Polls(w, [step], c), LastLook(w, [step], c, sight))
  {
    assert [step][1..] == [] && Legal(Next(w, step), []);
    if step.Own? {
      AdvanceCalls(w, step.c, step.nap, step.signalled);
    }
  }

  /** A run counts what its first step and the rest of it count. */
  lemma FirstCounts(w: World, steps: seq<Step>, c: CallId, before: Sight)
    requires Legal(w, steps) && steps != []
    ensures Legal(w, steps[..1]) && Legal(Next(w, steps[0]), steps[1..])
    ensures steps[..1] == [steps[0]]
    ensures OwnSteps(steps, c) == OwnSteps(steps[..1], c) + OwnSteps(steps[1..], c)
    ensures Polls(w, steps, c) == Polls(w, steps[..1], c) + Polls(Next(w, steps[0]), steps[1..], c)
    ensures LastLook(w, steps, c, before) == LastLook(Next(w, steps[0]), steps[1..], c, LastLook(w, steps[..1], c, before))
  {
    hide Next, Possible, Look;
    assert steps[..1][1..] == [] && steps[..1][0] == steps[0];
    assert Legal(Next(w, steps[0]), []);
  }

  lemma {:induction false} RunCounts(w: World, steps: seq<Step>, c: CallId, own: nat, looks: nat, sight: Sight)
    requires Legal(w, steps) && Counted(w, c, own, looks, sight)
    ensures Counted(Exec(w, steps), c, own + OwnSteps(steps, c), looks + Polls(w, steps, c), LastLook(w, steps, c, sight))
    decreases |steps|
  {
    if steps != [] {
      hide Counted, Next, Possible, OwnSteps, Polls, LastLook;
      var first := steps[..1];
      FirstCounts(w, steps, c, sight);
      StepCounts(w, steps[0], c, own, looks, sight);
      RunCounts(Next(w, steps[0]), steps[1..], c, own + OwnSteps(first, c), looks + Polls(w, first, c), LastLook(w, first, c, sight));
    }
  }

  lemma SaneOutcome(call: Call)
    requires Sane(call)
    ensures call.pc.Cooperative? ==>
      call.sight.Absent? || (call.sight.Seen? && (call.sight.state.Preempted? || call.sight.state.Revoked? || call.sight.state.Expired?))
    ensures call.pc.Recording? || call.pc.Marking? ==> call.sight.Seen?
    ensures call.pc == Returned(Done) ==>
      (call.sight.Absent? && 0 < call.polls) || (call.sight.Seen? && !call.sight.state.Active? && !call.sight.state.Preempting?)
    ensures call.pc.Returned? && call.pc.status.Failed? ==> call.sight.Absent? && call.pc.status.error == LeaseNotFound(call.id)
    ensures call.polls <= (call.deadline + 24) / 25
    ensures call.steps <= 2 * ((call.deadline + 24) / 25) + 6
  {
  }

  /** Whatever others do in between: a call that returns `Ok` last saw its lease frozen or inactive, or, only after it had
      polled, gone, never active or preempting; it takes its lease as cooperative only when it saw it inactive or gone, not
      frozen; it goes on from its yield and from its freeze only when its lease was there, and fails only because its lease is
      unknown, and says so; it polls at most once per 25 ms of its deadline,
      rounded up; and its own steps, returned or not, are bounded, so it cannot wait for ever. */
  lemma CallOutcome(planes: seq<Plane>, steps: seq<Step>, c: CallId)
    requires GoodTopology(planes) && Legal(Start(planes), steps) && c in Exec(Start(planes), steps).calls
    ensures var call := Exec(Start(planes), steps).calls[c];
      var sight, polls := LastLook(Start(planes), steps, c, Unseen), Polls(Start(planes), steps, c);
      && (call.pc.Cooperative? ==>
           sight.Absent? || (sight.Seen? && (sight.state.Preempted? || sight.state.Revoked? || sight.state.Expired?)))
      && (call.pc.Recording? || call.pc.Marking? ==> sight.Seen?)
      && (call.pc == Returned(Done) ==>
           || (sight.Absent? && 0 < polls)
           || (sight.Seen? && !sight.state.Active? && !sight.state.Preempting?))
      && (call.pc.Returned? && call.pc.status.Failed? ==> sight.Absent? && call.pc.status.error == LeaseNotFound(call.id))
      && polls <= (call.deadline + 24) / 25
      && OwnSteps(steps, c) <= 2 * ((call.deadline + 24) / 25) + 6
  {
    hide Exec, LastLook, Polls, OwnSteps, Inv, Sane, Legal;
    InitKeeps(planes);
    RunKeepsWorld(Start(planes), steps);
    RunCounts(Start(planes), steps, c, 0, 0, Unseen);
    SaneOutcome(Exec(Start(planes), steps).calls[c]);
  }

  // ----- what a call is about -----

  /** The operation that a step asks of the arbiter, if any: a call asks to yield its lease and later to freeze it. */
  function OpOf(w: World, step: Step): seq<Op>
    requires Possible(w, step)
  {
    match step
    case Own(c, _, _) =>
      var call := w.calls[c];
      if call.pc.Yielding? then [YieldOp(call.id)] else if call.pc.Freezing? then [FreezeOp(call.id)] else []
    case Other(op) => [op]
    case _ => []
  }

  function OpsOf(w: World, steps: seq<Step>): seq<Op>
    requires Legal(w, steps)
    decreases |steps|
  {
    if steps == [] then [] else OpOf(w, steps[0]) + OpsOf(Next(w, steps[0]), steps[1..])
  }

  lemma StepOnArbiter(w: World, step: Step)
    requires Possible(w, step)
    ensures var ops := OpOf(w, step);
      if ops == [] then Next(w, step).s == w.s else |ops| == 1 && Enabled(w.s, ops[0]) && Next(w, step).s == Apply(w.s, ops[0])
  {
    hide Yield, Freeze;
  }

  /** For the arbiter a run of calls is the run of the operations they ask for, no more and no fewer. */
  lemma {:induction false} WorldIsArbiterRun(w: World, steps: seq<Step>)
    requires Legal(w, steps)
    ensures ArbiterSpec.Legal(w.s, OpsOf(w, steps)) && Exec(w, steps).s == ArbiterSpec.Exec(w.s, OpsOf(w, steps))
    decreases |steps|
  {
    if steps != [] {
      hide Next, OpOf, Apply, Enabled;
      var next := Next(w, steps[0]);
      StepOnArbiter(w, steps[0]);
      WorldIsArbiterRun(next, steps[1..]);
      var first, later := OpOf(w, steps[0]), OpsOf(next, steps[1..]);
      if first == [] {
        assert first + later == later;
      } else {
        assert (first + later)[1..] == later && (first + later)[0] == first[0];
      }
    }
  }

  /** How long a step lets the call sleep. */
  function Nap(w: World, step: Step, c: CallId): nat
    requires Possible(w, step)
  {
    if step.Own? && step.c == c && w.calls[c].pc.Polling? && Next(w, step).calls[c].pc.Awake? then step.nap else 0
  }

  /** How long call `c` sleeps along a run. */
  function Slept(w: World, steps: seq<Step>, c: CallId): nat
    requires Legal(w, steps)
    decreases |steps|
  {
    if steps == [] then 0 else Nap(w, steps[0], c) + Slept(Next(w, steps[0]), steps[1..], c)
  }

  /** Call `c` began with its lease and deadline in one of the steps `past`, and has slept for `slept`. */
  ghost predicate AsBegun(w: World, c: CallId, past: seq<Step>, slept: nat) {
    if c !in w.calls then slept == 0
    else
      var call := w.calls[c];
      && Begin(c, call.id, call.deadline) in past
      && match call.pc
         case Fetching => slept == 0
         case Yielding(_) => slept == 0
         case Recording(_) => slept == 0
         case Polling(_, elapsed) => elapsed == slept
         case Awake(_, elapsed) => elapsed == slept
         case Freezing(_) => call.deadline <= slept
         case Marking(_) => call.deadline <= slept
         case _ => true
  }

  lemma StepAsBegun(w: World, step: Step, c: CallId, past: seq<Step>, slept: nat)
    requires Possible(w, step) && AsBegun(w, c, past, slept)
    ensures AsBegun(Next(w, step), c, past + [step], slept + Nap(w, step, c))
  {
    if step.Own? {
      AdvanceCalls(w, step.c, step.nap, step.signalled);
    }
  }

  lemma {:induction false} RunAsBegun(w: World, steps: seq<Step>, c: CallId, past: seq<Step>, slept: nat)
    requires Legal(w, steps) && AsBegun(w, c, past, slept)
    ensures AsBegun(Exec(w, steps), c, past + steps, slept + Slept(w, steps, c))
    decreases |steps|
  {
    if steps == [] {
      assert past + steps == past;
    } else {
      StepAsBegun(w, steps[0], c, past, slept);
      RunAsBegun(Next(w, steps[0]), steps[1..], c, past + [steps[0]], slept + Nap(w, steps[0], c));
      assert past + [steps[0]] + steps[1..] == past + steps;
    }
  }

  /** Over every run a call keeps the lease and the deadline it began with, and it never enters the second tier before it has
      slept through its whole deadline. */
  lemma NoEarlyFreeze(planes: seq<Plane>, steps: seq<Step>, c: CallId)
    requires Legal(Start(planes), steps) && c in Exec(Start(planes), steps).calls
    ensures var call := Exec(Start(planes), steps).calls[c];
      && Begin(c, call.id, call.deadline) in steps
      && (InSecondTier(call) ==> call.deadline <= Slept(Start(planes), steps, c))
  {
    RunAsBegun(Start(planes), steps, c, [], 0);
    assert [] + steps == steps;
  }

  function LeaseOf(pc: Pc): Option<Lease> {
    match pc
    case Yielding(lease) => Some(lease)
    case Recording(lease) => Some(lease)
    case Polling(lease, _) => Some(lease)
    case Awake(lease, _) => Some(lease)
    case Freezing(lease) => Some(lease)
    case _ => None
  }

  /** The copy of the lease that the call works with has the terms that the table shows, as long as it shows any. */
  ghost predicate Informed(s: State, call: Call) {
    var lease := LeaseOf(call.pc);
    lease.Some? ==>
      && call.id in s.issued
      && (call.id in s.leases ==> lease.value == s.leases[call.id].(state := lease.value.state))
  }

  ghost predicate AllInformed(w: World) {
    forall c {:trigger w.calls[c]} :: c in w.calls ==> Informed(w.s, w.calls[c])
  }

  lemma InformedThroughOp(s: State, op: Op, call: Call)
    requires Inv(s) && Enabled(s, op) && Informed(s, call)
    ensures Informed(Apply(s, op), call)
  {
    hide Inv, Apply;
    StepIssues(s, op);
    if LeaseOf(call.pc).Some? {
      if call.id in s.leases {
        StepFaith(s, op, call.id);
        if call.id !in Apply(s, op).leases {
          StepIssues(s, op);
        }
      } else {
        StepAddsOnlyNew(s, op, call.id);
      }
    }
  }

  /** What a call's own step makes it know. */
  lemma OwnInformed(w: World, c: CallId, nap: nat, signalled: bool)
    requires Inv(w.s) && c in w.calls && Informed(w.s, w.calls[c])
    ensures var r := Advance(w, c, nap, signalled); c in r.calls && Informed(r.s, r.calls[c])
  {
    hide Enter, Amend, Rank;
    assert w.s.leases.Keys <= w.s.issued;
  }

  lemma OthersInformed(w: World, c: CallId, nap: nat, signalled: bool, call: Call)
    requires Inv(w.s) && c in w.calls && Informed(w.s, call)
    ensures Informed(Advance(w, c, nap, signalled).s, call)
  {
    hide Inv, Advance, Informed, Yield, Freeze;
    AdvanceArbiter(w, c, nap, signalled);
    InformedThroughOp(w.s, YieldOp(w.calls[c].id), call);
    InformedThroughOp(w.s, FreezeOp(w.calls[c].id), call);
  }

  lemma StepInforms(w: World, step: Step)
    requires WorldInv(w) && Possible(w, step) && AllInformed(w)
    ensures AllInformed(Next(w, step))
  {
    hide Inv, Informed, Advance, Sane, Apply, Enabled;
    var r := Next(w, step);
    match step
    case Begin(c, id, deadline) => NewcomerInformed(w.s, id, deadline);
    case NoteRevoked(_) =>
    case Other(op) =>
      forall d | d in r.calls ensures Informed(r.s, r.calls[d]) {
        InformedThroughOp(w.s, op, w.calls[d]);
      }
    case Own(c, nap, signalled) =>
      AdvanceCalls(w, c, nap, signalled);
      OwnInformed(w, c, nap, signalled);
      forall d | d in r.calls ensures Informed(r.s, r.calls[d]) {
        if d != c {
          OthersInformed(w, c, nap, signalled, w.calls[d]);
        }
      }
  }

  lemma NewcomerInformed(s: State, id: LeaseId, deadline: nat)
    ensures Informed(s, Call(id, deadline, Fetching, Unseen, 0, 0))
  {
  }

  lemma {:induction false} RunInforms(w: World, steps: seq<Step>)
    requires WorldInv(w) && Legal(w, steps) && AllInformed(w)
    ensures AllInformed(Exec(w, steps))
    decreases |steps|
  {
    if steps != [] {
      StepInforms(w, steps[0]);
      StepKeepsWorld(w, steps[0]);
      RunInforms(Next(w, steps[0]), steps[1..]);
    }
  }

  /** In every reachable world a call works with the plane, size, priority and client of the very lease it is about. */
  lemma CallKnowsLease(w: World, c: CallId)
    requires Reachable(w) && c in w.calls && LeaseOf(w.calls[c].pc).Some? && w.calls[c].id in w.s.leases
    ensures var lease := LeaseOf(w.calls[c].pc).value; lease == w.s.leases[w.calls[c].id].(state := lease.state)
  {
    var planes, steps :| GoodTopology(planes) && Legal(Start(planes), steps) && Exec(Start(planes), steps) == w;
    InitKeeps(planes);
    RunInforms(Start(planes), steps);
    assert Informed(w.s, w.calls[c]);
  }

  // ----- deadline -----

  /** The call will look at its lease again before it considers the second tier. */
  predicate WillLook(call: Call) {
    match call.pc
    case Fetching => true
    case Yielding(_) => call.deadline > 0
    case Recording(_) => call.deadline > 0
    case Polling(_, elapsed) => elapsed < call.deadline
    case Awake(_, _) => true
    case _ => false
  }

  /** The call has entered the second tier. */
  predicate InSecondTier(call: Call) {
    call.pc.Freezing? || call.pc.Marking?
  }

  /** Once its lease is finished while a poll is still ahead, a call stays out of the second tier. */
  ghost predicate Spared(w: World, c: CallId) {
    && c in w.calls
    && IsDead(w.s, w.calls[c].id)
    && (WillLook(w.calls[c]) || w.calls[c].pc.Cooperative? || w.calls[c].pc.Returned?)
  }

  /** The call's own step takes a finished lease as cooperative. */
  lemma OwnStepSpares(w: World, c: CallId, nap: nat, signalled: bool)
    requires Spared(w, c)
    ensures c in Advance(w, c, nap, signalled).calls
    ensures var call := Advance(w, c, nap, signalled).calls[c];
      call.id == w.calls[c].id && (WillLook(call) || call.pc.Cooperative? || call.pc.Returned?)
  {
  }

  lemma StepSpares(w: World, c: CallId, step: Step)
    requires WorldInv(w) && Possible(w, step) && Spared(w, c)
    ensures Spared(Next(w, step), c)
  {
    match step
    case Other(op) => StepKeepsDead(w.s, op, w.calls[c].id);
    case Own(d, nap, signalled) =>
      AdvanceInv(w, d, nap, signalled);
      AdvanceCalls(w, d, nap, signalled);
      if d == c {
        OwnStepSpares(w, c, nap, signalled);
      }
    case Begin(_, _, _) =>
    case NoteRevoked(_) =>
  }

  /** A lease that is finished while the call still has a look ahead of it, as it has until the deadline when the deadline
      is not zero, is always taken as cooperative: the call never freezes anything, through every continuation. */
  lemma FinishedInTimeIsSpared(w: World, c: CallId, steps: seq<Step>)
    requires Reachable(w) && Legal(w, steps)
    requires c in w.calls && IsDead(w.s, w.calls[c].id) && WillLook(w.calls[c])
    ensures c in Exec(w, steps).calls && !InSecondTier(Exec(w, steps).calls[c])
  {
    ReachableWorld(w);
    SparedForever(w, c, steps);
  }

  lemma {:induction false} SparedForever(w: World, c: CallId, steps: seq<Step>)
    requires WorldInv(w) && Legal(w, steps) && Spared(w, c)
    ensures Spared(Exec(w, steps), c)
    decreases |steps|
  {
    if steps != [] {
      StepKeepsWorld(w, steps[0]);
      StepSpares(w, c, steps[0]);
      SparedForever(Next(w, steps[0]), c, steps[1..]);
    }
  }

  /** The call will not look at its lease again. */
  predicate IsLate(w: World, c: CallId) {
    c in w.calls && !WillLook(w.calls[c]) && !w.calls[c].pc.Cooperative?
  }

  /** Somewhere along the run the call is in its second tier. */
  ghost predicate EntersSecondTier(w: World, steps: seq<Step>, c: CallId)
    requires Legal(w, steps)
    decreases |steps|
  {
    || (c in w.calls && InSecondTier(w.calls[c]))
    || (steps != [] && EntersSecondTier(Next(w, steps[0]), steps[1..], c))
  }

  lemma StepStaysLate(w: World, c: CallId, step: Step)
    requires Possible(w, step) && IsLate(w, c)
    ensures IsLate(Next(w, step), c) && !(IsOwn(step, c) && w.calls[c].pc.Awake?)
    ensures Next(w, step).calls[c].pc == Returned(Done) ==> w.calls[c].pc == Returned(Done) || InSecondTier(w.calls[c])
  {
    if step.Own? {
      AdvanceCalls(w, step.c, step.nap, step.signalled);
    }
  }

  /** A call that has yielded its lease and will not look again, because its deadline is over or was zero from the start,
      never finds the lease cooperative, whatever becomes of the lease and however others act: it polls no more, and in
      every continuation it can return `Ok` only through the second tier. */
  lemma {:induction false} LateNeverCooperative(w: World, c: CallId, steps: seq<Step>)
    requires Legal(w, steps) && IsLate(w, c) && w.calls[c].pc != Returned(Done)
    ensures var r := Exec(w, steps);
      && c in r.calls && !r.calls[c].pc.Cooperative? && Polls(w, steps, c) == 0
      && (r.calls[c].pc == Returned(Done) ==> EntersSecondTier(w, steps, c))
    decreases |steps|
  {
    if steps != [] {
      StepStaysLate(w, c, steps[0]);
      if Next(w, steps[0]).calls[c].pc == Returned(Done) {
        DoneStays(Next(w, steps[0]), c, steps[1..]);
      } else {
        LateNeverCooperative(Next(w, steps[0]), c, steps[1..]);
      }
    }
  }

  lemma {:induction false} DoneStays(w: World, c: CallId, steps: seq<Step>)
    requires Legal(w, steps) && c in w.calls && w.calls[c].pc.Returned?
    ensures c in Exec(w, steps).calls && Exec(w, steps).calls[c] == w.calls[c] && Polls(w, steps, c) == 0
    decreases |steps|
  {
    if steps != [] {
      if steps[0].Own? {
        AdvanceCalls(w, steps[0].c, steps[0].nap, steps[0].signalled);
      }
      DoneStays(Next(w, steps[0]), c, steps[1..]);
    }
  }

  // ----- records -----

  /** Entering a record drops the completed ones, and only when there are more than 128; so the table then holds at most
      129 records or nothing but unfinished ones. */
  lemma EnterKeepsUnfinished(records: map<LeaseId, Record>, id: LeaseId)
    ensures var r := Enter(records, id);
      && id in r && r[id] == Record(Tier1Cooperative, false)
      && (forall x :: x != id ==> (x in r <==> x in records && (|records| <= 128 || !records[x].completed)))
      && (forall x :: x != id && x in r ==> r[x] == records[x])
      && (|r| <= 129 || forall x :: x in r ==> !r[x].completed)
  {
    var kept := if |records| > RECORD_LIMIT then map x | x in records && !records[x].completed :: records[x] else records;
    assert Enter(records, id).Keys == kept.Keys + {id};
    assert |Enter(records, id)| == |Enter(records, id).Keys| && |kept| == |kept.Keys|;
  }

  function Unfinished(records: map<LeaseId, Record>): nat {
    |set x | x in records && !records[x].completed|
  }

  /** The largest number of unfinished records that any world of the run holds. */
  ghost function PeakUnfinished(w: World, steps: seq<Step>): nat
    requires Legal(w, steps)
    decreases |steps|
  {
    if steps == [] then Unfinished(w.records)
    else Max(Unfinished(w.records), PeakUnfinished(Next(w, steps[0]), steps[1..]))
  }

  lemma EnterSize(records: map<LeaseId, Record>, id: LeaseId)
    ensures |Enter(records, id)| <= Max(RECORD_LIMIT + 1, 1 + Unfinished(records))
  {
    var kept := if |records| > RECORD_LIMIT then map x | x in records && !records[x].completed :: records[x] else records;
    assert Enter(records, id).Keys == kept.Keys + {id};
    assert |Enter(records, id)| == |Enter(records, id).Keys| && |kept| == |kept.Keys|;
    if |records| > RECORD_LIMIT {
      assert kept.Keys == set x | x in records && !records[x].completed;
    }
  }

  /** A step enters one record or changes the entries of those there are. */
  lemma StepRecords(w: World, step: Step)
    requires Possible(w, step)
    ensures Next(w, step).records.Keys == w.records.Keys || exists id :: Next(w, step).records == Enter(w.records, id)
  {
  }

  lemma StepSize(w: World, step: Step)
    requires Possible(w, step)
    ensures |Next(w, step).records| <= Max(Max(RECORD_LIMIT + 1, |w.records|), 1 + Unfinished(w.records))
  {
    hide Enter, Next;
    StepRecords(w, step);
    var r := Next(w, step).records;
    if r.Keys == w.records.Keys {
      assert |r| == |r.Keys| == |w.records.Keys| == |w.records|;
    } else {
      var id :| r == Enter(w.records, id);
      EnterSize(w.records, id);
    }
  }

  lemma {:induction false} RunSize(w: World, steps: seq<Step>, bound: nat)
    requires Legal(w, steps) && |w.records| <= bound && RECORD_LIMIT + 1 <= bound && 1 + PeakUnfinished(w, steps) <= bound
    ensures |Exec(w, steps).records| <= bound
    decreases |steps|
  {
    if steps != [] {
      StepSize(w, steps[0]);
      RunSize(Next(w, steps[0]), steps[1..], bound);
    }
  }

  /** Over every run the table of records holds at most one more than its limit, or one more than the largest number of
      unfinished records it ever held. */
  lemma RecordsBound(planes: seq<Plane>, steps: seq<Step>)
    requires Legal(Start(planes), steps)
    ensures var w := Start(planes);
      |Exec(w, steps).records| <= Max(129, 1 + PeakUnfinished(w, steps))
  {
    var w := Start(planes);
    RunSize(w, steps, Max(129, 1 + PeakUnfinished(w, steps)));
  }

  // ----- does the record tell the truth -----

  predicate IsFrozen(s: State, id: LeaseId) {
    id in s.leases && s.leases[id].state.Frozen?
  }

  /** The request works on the plane of lease `id` and preempts it to make room. */
  ghost predicate Takes(s: State, critical: bool, req: Request, order: seq<LeaseId>, id: LeaseId)
    requires Orders(s, req, order)
  {
    var selected := SelectPlane(s.planes, req);
    && (critical ==> req.priority.EmergencyTriage?)
    && selected.Ok?
    && id in order[..VictimCount(s, selected.value, req.required, order)]
  }

  /** The step moves lease `id`, which is frozen, out of that state. */
  ghost predicate Unfreezes(w: World, step: Step, id: LeaseId)
    requires Possible(w, step)
  {
    match step
    case Begin(_, _, _) => false
    case NoteRevoked(_) => false
    case Own(c, _, _) => w.calls[c].id == id && w.calls[c].pc.Yielding?
    case Other(op) =>
      match op
      case AcquireOp(critical, req, order, _) => Takes(w.s, critical, req, order, id)
      case UpdateOp(planes, _) => id in w.s.leases && IndexOf(planes, w.s.leases[id].plane) == |planes|
      case FreezeOp(_) => false
      case _ => op.id == id
  }

  /** The step freezes lease `id`, which is not frozen. */
  ghost predicate Freezes(w: World, step: Step, id: LeaseId)
    requires Possible(w, step)
  {
    && IsActiveIn(w.s, id)
    && ((step.Own? && w.calls[step.c].id == id && w.calls[step.c].pc.Freezing?) || step == Other(FreezeOp(id)))
  }

  /** Lease `id`, frozen or not at first, is frozen after `steps`. */
  ghost predicate EndsFrozen(frozen: bool, w: World, steps: seq<Step>, id: LeaseId)
    requires Legal(w, steps)
    decreases |steps|
  {
    if steps == [] then frozen
    else
      var stays := if frozen then !Unfreezes(w, steps[0], id) else Freezes(w, steps[0], id);
      EndsFrozen(stays, Next(w, steps[0]), steps[1..], id)
  }

  lemma PreemptFreezes(s: State, t: nat, required: nat, priority: Priority, order: seq<LeaseId>, id: LeaseId)
    requires GoodTopology(s.planes) && t < |s.planes| && IsVictimOrder(s, t, priority, order)
    ensures IsFrozen(Preempt(s, t, required, order).0, id) <==>
      IsFrozen(s, id) && id !in order[..VictimCount(s, t, required, order)]
  {
    hide VictimCount, Preempt;
    LoopAvailability(s, t, required, priority, order, t);
    if id in s.leases {
      LoopLeases(s, t, required, order, id);
    }
  }

  lemma GrantFreezes(m: State, newId: LeaseId, l: Lease, at: nat, id: LeaseId)
    requires at < |m.planes| && newId !in m.leases && l.state.Active?
    ensures IsFrozen(ChargeLease(Collect(m), newId, l, at), id) <==> IsFrozen(m, id)
  {
  }

  lemma AcquireFreezes(s: State, critical: bool, req: Request, order: seq<LeaseId>, newId: LeaseId, id: LeaseId)
    requires Inv(s) && Orders(s, req, order) && newId !in s.issued
    ensures IsFrozen(Acquire(s, critical, req, order, newId).state, id) <==> IsFrozen(s, id) && !Takes(s, critical, req, order, id)
  {
    hide VictimCount, IsFrozen, ChargeLease, Collect;
    var selected := SelectPlane(s.planes, req);
    if (critical ==> req.priority.EmergencyTriage?) && selected.Ok? {
      var t := selected.value;
      GoodPlanes(s);
      PreemptFreezes(s, t, req.required, req.priority, order, id);
      GrantFreezes(Preempt(s, t, req.required, order).0, newId, NewLease(s, t, req), t, id);
    }
  }

  lemma OpFreezes(s: State, op: Op, id: LeaseId)
    requires Inv(s) && Enabled(s, op) && !op.AcquireOp? && !op.UpdateOp?
    ensures IsFrozen(Apply(s, op), id) <==>
      if op.FreezeOp? && op.id == id then IsActiveIn(s, id) else IsFrozen(s, id) && op.id != id
  {
    match op
    case ReleaseOp(x) => EndFreezes(s, x, Expired, id);
    case RevokeOp(x) => EndFreezes(s, x, LeaseState.Revoked, id);
    case ThawOp(x) => ThawFreezes(s, x, id);
    case YieldOp(x) =>
    case FreezeOp(x) =>
  }

  lemma EndFreezes(s: State, x: LeaseId, st: LeaseState, id: LeaseId)
    requires st.Expired? || st.Revoked?
    ensures IsFrozen(End(s, x, st).state, id) <==> IsFrozen(s, id) && x != id
  {
  }

  lemma ThawFreezes(s: State, x: LeaseId, id: LeaseId)
    ensures IsFrozen(Thaw(s, x).state, id) <==> IsFrozen(s, id) && x != id
  {
  }

  /** One step freezes a lease or moves it out of that state exactly as told from the world before it. */
  lemma StepFreezes(w: World, step: Step, id: LeaseId)
    requires WorldInv(w) && Possible(w, step)
    ensures IsFrozen(Next(w, step).s, id) <==>
      if IsFrozen(w.s, id) then !Unfreezes(w, step, id) else Freezes(w, step, id)
  {
    match step
    case Begin(_, _, _) =>
    case NoteRevoked(_) =>
    case Own(c, nap, signalled) => OwnFreezes(w, c, nap, signalled, id);
    case Other(op) => OtherFreezes(w, op, id);
  }

  lemma OwnFreezes(w: World, c: CallId, nap: nat, signalled: bool, id: LeaseId)
    requires Possible(w, Own(c, nap, signalled))
    ensures IsFrozen(Advance(w, c, nap, signalled).s, id) <==>
      if IsFrozen(w.s, id) then !Unfreezes(w, Own(c, nap, signalled), id) else Freezes(w, Own(c, nap, signalled), id)
  {
  }

  lemma OtherFreezes(w: World, op: Op, id: LeaseId)
    requires Inv(w.s) && Enabled(w.s, op)
    ensures IsFrozen(Apply(w.s, op), id) <==>
      if IsFrozen(w.s, id) then !Unfreezes(w, Other(op), id) else Freezes(w, Other(op), id)
  {
    match op
    case AcquireOp(critical, req, order, newId) => AcquireFreezes(w.s, critical, req, order, newId, id);
    case UpdateOp(planes, listing) => UpdateFreezes(w.s, planes, listing, id);
    case _ => OpFreezes(w.s, op, id);
  }

  lemma UpdateFreezes(s: State, planes: seq<Plane>, listing: seq<LeaseId>, id: LeaseId)
    requires Inv(s) && Enabled(s, UpdateOp(planes, listing))
    ensures IsFrozen(UpdateTopology(s, planes, listing), id) <==>
      IsFrozen(s, id) && IndexOf(planes, s.leases[id].plane) < |planes|
  {
    UpdateClosedForm(s, planes, listing);
  }

  lemma {:induction false} RunFreezes(w: World, steps: seq<Step>, id: LeaseId)
    requires WorldInv(w) && Legal(w, steps)
    ensures IsFrozen(Exec(w, steps).s, id) <==> EndsFrozen(IsFrozen(w.s, id), w, steps, id)
    decreases |steps|
  {
    if steps != [] {
      StepFreezes(w, steps[0], id);
      StepKeepsWorld(w, steps[0]);
      RunFreezes(Next(w, steps[0]), steps[1..], id);
    }
  }

  /** None of the steps is the call's own. */
  predicate AllByOthers(steps: seq<Step>, c: CallId) {
    forall k :: 0 <= k < |steps| ==> !IsOwn(steps[k], c)
  }

  lemma {:induction false} OthersLeaveCall(w: World, steps: seq<Step>, c: CallId)
    requires Legal(w, steps) && c in w.calls && AllByOthers(steps, c)
    ensures c in Exec(w, steps).calls && Exec(w, steps).calls[c] == w.calls[c]
    decreases |steps|
  {
    if steps != [] {
      if steps[0].Own? {
        AdvanceCalls(w, steps[0].c, steps[0].nap, steps[0].signalled);
      }
      OthersLeaveCall(Next(w, steps[0]), steps[1..], c);
    }
  }

  /** The step changes no record but that of lease `id`, and neither adds nor drops any. */
  ghost predicate OnlyRecord(w: World, r: World, id: LeaseId) {
    r.s == w.s && r.records.Keys == w.records.Keys && forall x :: x in w.records && x != id ==> r.records[x] == w.records[x]
  }

  predicate SaysFrozen(w: World, id: LeaseId) {
    id in w.records && w.records[id] == Record(Tier2ForcedFreeze, true)
  }

  /** A call's two last own steps, with anything others do in between: afterwards the record says that the freeze was
      completed exactly when the kernel accepted a signal to a known process or unit and the record was still there to
      be amended, and the lease is frozen exactly when it was active at the freeze and what others did in between leaves it
      frozen. Nothing ties the two conditions together. */
  lemma RecordAgreesIff(w: World, c: CallId, nap: nat, signalled: bool, between: seq<Step>, last: Step)
    requires Reachable(w) && Possible(w, Own(c, nap, signalled))
    requires w.calls[c].pc.Freezing? && w.calls[c].id in w.s.leases
    requires Legal(Next(w, Own(c, nap, signalled)), between) && AllByOthers(between, c)
    requires var w2 := Exec(Next(w, Own(c, nap, signalled)), between); Possible(w2, last) && last.Own? && last.c == c
    ensures var id := w.calls[c].id; var client := w.s.leases[id].client;
      var w1 := Next(w, Own(c, nap, signalled));
      var w2 := Exec(w1, between);
      var w3 := Next(w2, last);
      && c in w3.calls && w3.calls[c].pc == Returned(Done)
      && (SaysFrozen(w3, id) <==> signalled && (client.pid.Some? || client.unit.Some?) && id in w2.records)
      && OnlyRecord(w2, w3, id)
      && (id in w2.records ==> w3.records[id].tier == Tier2ForcedFreeze)
      && (IsFrozen(w3.s, id) <==> EndsFrozen(w.s.leases[id].IsActive(), w1, between, id))
  {
    CallKnowsLease(w, c);
    hide Turn, Legal, EndsFrozen, AllByOthers, IsFrozen, Inv;
    var id := w.calls[c].id;
    var own := Own(c, nap, signalled);
    ReachableWorld(w);
    StepKeepsWorld(w, own);
    var w1 := Next(w, own);
    FreezingStep(w, c, nap, signalled);
    RunFreezes(w1, between, id);
    OthersLeaveCall(w1, between, c);
    MarkingStep(Exec(w1, between), c, last.nap, last.signalled);
  }

  lemma FreezingStep(w: World, c: CallId, nap: nat, signalled: bool)
    requires c in w.calls && w.calls[c].pc.Freezing? && w.calls[c].id in w.s.leases
    ensures var r, id, client := Advance(w, c, nap, signalled), w.calls[c].id, w.calls[c].pc.lease.client;
      && (IsFrozen(r.s, id) <==> w.s.leases[id].IsActive())
      && c in r.calls && r.calls[c].id == id
      && r.calls[c].pc == Marking(signalled && (client.pid.Some? || client.unit.Some?))
  {
  }

  lemma MarkingStep(w: World, c: CallId, nap: nat, signalled: bool)
    requires c in w.calls && w.calls[c].pc.Marking?
    ensures var r, id := Advance(w, c, nap, signalled), w.calls[c].id;
      && OnlyRecord(w, r, id)
      && c in r.calls && r.calls[c].pc == Returned(Done)
      && (id in w.records ==> r.records[id] == Record(Tier2ForcedFreeze, w.calls[c].pc.frozen))
  {
  }

  /** The other end of a call, after its lease was found to have yielded: whatever others do before its last step, the call
      then returns `Ok`, the record of its lease, if it is still there, is completed with the tier it had, and nothing else
      changes. */
  lemma CooperativeIsRecorded(w: World, c: CallId, between: seq<Step>, last: Step)
    requires c in w.calls && w.calls[c].pc.Cooperative? && Legal(w, between) && AllByOthers(between, c)
    requires Possible(Exec(w, between), last) && last.Own? && last.c == c
    ensures var id, w2 := w.calls[c].id, Exec(w, between);
      var w3 := Next(w2, last);
      && c in w3.calls && w3.calls[c].pc == Returned(Done)
      && (forall d :: d in w2.calls && d != c ==> d in w3.calls && w3.calls[d] == w2.calls[d])
      && OnlyRecord(w2, w3, id)
      && (id in w2.records ==> w3.records[id].completed && w3.records[id].tier == w2.records[id].tier)
  {
    OthersLeaveCall(w, between, c);
    AdvanceCalls(Exec(w, between), c, last.nap, last.signalled);
  }

  /** A revoke through the coordinator is noted in the lease's record, if there is one, and nowhere else. */
  lemma RevokeIsRecorded(w: World, id: LeaseId)
    ensures var r := Next(w, NoteRevoked(id));
      && OnlyRecord(w, r, id) && r.calls == w.calls
      && (id in w.records ==> r.records[id] == Record(TierRevoked, true))
  {
  }

  lemma {:induction false} LegalSnoc(w: World, steps: seq<Step>, step: Step)
    requires Legal(w, steps) && Possible(Exec(w, steps), step)
    ensures Legal(w, steps + [step]) && Exec(w, steps + [step]) == Next(Exec(w, steps), step)
    decreases |steps|
  {
    if steps == [] {
      assert [step][1..] == [];
      assert Legal(Next(w, step), []) && steps + [step] == [step];
    } else {
      LegalSnoc(Next(w, steps[0]), steps[1..], step);
      assert (steps + [step])[1..] == steps[1..] + [step];
    }
  }

  lemma StepReaches(w: World, step: Step)
    requires Reachable(w) && Possible(w, step)
    ensures Reachable(Next(w, step))
  {
    var planes, steps :| GoodTopology(planes) && Legal(Start(planes), steps)
      && Exec(Start(planes), steps) == w;
    LegalSnoc(Start(planes), steps, step);
  }

  const OWNER := Client(Some(1), None)

  /** Call 0 is about to freeze lease 1, which it asked to yield. */
  ghost predicate AboutToFreeze(w: World) {
    && 1 in w.s.leases && w.s.leases[1] == Lease("gpu", 4, Interactive, Preempting, OWNER)
    && 1 in w.records
    && 0 in w.calls && w.calls[0].id == 1 && w.calls[0].pc.Freezing? && w.calls[0].pc.lease.client == OWNER
  }

  /** A client gets lease 1 and a call for it begins. */
  lemma CallBegins(deadline: nat) returns (w: World)
    ensures Reachable(w) && w.s.leases == map[1 := Lease("gpu", 4, Interactive, Active, OWNER)]
    ensures w.calls == map[0 := Call(1, deadline, Fetching, Unseen, 0, 0)] && w.records == map[]
  {
    var planes := Overflow.SMALL_GPU;
    var req := Request(Interactive, 4, Some("gpu"), OWNER);
    var acquire, begin := Other(AcquireOp(false, req, [], 1)), Begin(0, 1, deadline);
    w := Start(planes);
    assert Legal(w, []) && Exec(w, []) == w;
    Overflow.PlainGrant(w.s, 0, req, 1);
    StepReaches(w, acquire);
    w := Next(w, acquire);
    StepReaches(w, begin);
    w := Next(w, begin);
  }

  /** It goes through its first four steps. */
  lemma FreezingReached() returns (w: World)
    ensures Reachable(w) && AboutToFreeze(w)
  {
    w := CallBegins(0);
    var l := w.s.leases[1];
    w := OwnReaches(w, 0);
    assert w.calls[0].id == 1 && w.calls[0].deadline == 0 && w.calls[0].pc == Yielding(l);
    w := OwnReaches(w, 0);
    assert w.calls[0].id == 1 && w.calls[0].deadline == 0 && w.calls[0].pc == Recording(l);
    assert w.s.leases[1] == l.(state := Preempting);
    w := OwnReaches(w, 0);
    assert w.calls[0].id == 1 && w.calls[0].deadline == 0 && w.calls[0].pc == Polling(l, 0) && 1 in w.records;
    w := OwnReaches(w, 0);
  }

  lemma OwnReaches(w: World, c: CallId) returns (r: World)
    requires Reachable(w) && c in w.calls && !w.calls[c].pc.Returned?
    ensures Reachable(r) && r == Advance(w, c, POLL_MS, true)
  {
    StepReaches(w, Own(c, POLL_MS, true));
    r := Advance(w, c, POLL_MS, true);
  }

  /** A call returned `Ok`, its record says that lease `id` was frozen, and the lease is in another state. */
  ghost predicate RecordLies(w: World, c: CallId, id: LeaseId, st: LeaseState) {
    && Reachable(w)
    && c in w.calls && w.calls[c].id == id && w.calls[c].pc == Returned(Done)
    && SaysFrozen(w, id)
    && id in w.s.leases && w.s.leases[id].state == st && !st.Frozen?
  }

  lemma RevokedInTime(w: World) returns (r: World)
    requires Reachable(w) && AboutToFreeze(w)
    ensures RecordLies(r, 0, 1, LeaseState.Revoked)
  {
    StepReaches(w, Other(RevokeOp(1)));
    var revoked := Next(w, Other(RevokeOp(1)));
    assert revoked.s.leases[1].state.Revoked? && revoked.calls == w.calls && revoked.records == w.records;
    r := LastStepsOfRevoked(revoked);
  }

  lemma LastStepsOfRevoked(w: World) returns (r: World)
    requires Reachable(w) && 1 in w.s.leases && w.s.leases[1].state.Revoked? && 1 in w.records
    requires 0 in w.calls && w.calls[0].id == 1 && w.calls[0].pc.Freezing? && w.calls[0].pc.lease.client == OWNER
    ensures RecordLies(r, 0, 1, LeaseState.Revoked)
  {
    r := OwnReaches(w, 0);
    assert r.s == w.s && r.records == w.records && r.calls[0].id == 1 && r.calls[0].pc == Marking(true);
    r := OwnReaches(r, 0);
  }

  lemma ThawedInBetween(w: World) returns (r: World)
    requires Reachable(w) && AboutToFreeze(w)
    ensures RecordLies(r, 0, 1, Active)
  {
    r := OwnReaches(w, 0);
    assert r.s.leases[1].state.Frozen? && r.calls[0].id == 1 && r.calls[0].pc == Marking(true) && r.records == w.records;
    StepReaches(r, Other(ThawOp(1)));
    r := Next(r, Other(ThawOp(1)));
    assert 1 in r.s.leases && r.s.leases[1].state.Active? && r.calls[0].id == 1 && r.calls[0].pc == Marking(true);
    r := OwnReaches(r, 0);
  }

  /** The record can speak of a completed freeze while the lease is not frozen, in two ways: a revoke between
      the last poll and the freeze leaves such a record for a revoked lease, and a thaw between the freeze and the record
      leaves one for an active lease. */
  lemma RecordOutlivesLease()
    ensures exists w, c, id :: RecordLies(w, c, id, LeaseState.Revoked)
    ensures exists w, c, id :: RecordLies(w, c, id, Active)
  {
    var w := FreezingReached();
    var revoked := RevokedInTime(w);
    var thawed := ThawedInBetween(w);
  }

  // ----- the slowest call -----

  /** Call 0 polls on a lease that stays preempting, as slowly as it may. */
  ghost predicate Dragging(w: World, deadline: nat, lease: Lease, elapsed: nat) {
    && Reachable(w)
    && 1 in w.s.leases && w.s.leases[1].state.Preempting?
    && 0 in w.calls
    && var call := w.calls[0];
       && call.id == 1 && call.deadline == deadline && call.pc == Polling(lease, elapsed)
       && call.polls + PollsLeft(deadline, elapsed) == PollsLeft(deadline, 0)
       && call.steps + 2 * PollsLeft(deadline, elapsed) == 2 * PollsLeft(deadline, 0) + 3
  }

  lemma DraggingBegins(deadline: nat) returns (w: World, lease: Lease)
    ensures Dragging(w, deadline, lease, 0)
  {
    w := CallBegins(deadline);
    lease := w.s.leases[1];
    w := OwnReaches(w, 0);
    assert w.calls[0] == Call(1, deadline, Yielding(lease), Seen(Active), 0, 1);
    w := OwnReaches(w, 0);
    assert w.calls[0] == Call(1, deadline, Recording(lease), Seen(Preempting), 0, 2);
    assert 1 in w.s.leases && w.s.leases[1].state.Preempting?;
    w := OwnReaches(w, 0);
  }

  /** One round of the loop, with the shortest sleep. */
  lemma DraggingRound(w: World, deadline: nat, lease: Lease, elapsed: nat) returns (r: World)
    requires Dragging(w, deadline, lease, elapsed) && elapsed < deadline
    ensures Dragging(r, deadline, lease, elapsed + 25)
  {
    hide Reachable;
    r := OwnReaches(w, 0);
    assert r.s == w.s && r.calls[0] == w.calls[0].(pc := Awake(lease, elapsed + 25), steps := w.calls[0].steps + 1);
    r := OwnReaches(r, 0);
    OneShortNap(deadline, elapsed);
  }

  lemma OneShortNap(deadline: nat, elapsed: nat)
    requires elapsed < deadline
    ensures PollsLeft(deadline, elapsed) == PollsLeft(deadline, elapsed + 25) + 1
  {
  }

  lemma {:induction false} DraggingOn(w: World, deadline: nat, lease: Lease, elapsed: nat) returns (r: World, late: nat)
    requires Dragging(w, deadline, lease, elapsed)
    ensures Dragging(r, deadline, lease, late) && deadline <= late
    decreases deadline - elapsed
  {
    if deadline <= elapsed {
      return w, elapsed;
    }
    var next := DraggingRound(w, deadline, lease, elapsed);
    r, late := DraggingOn(next, deadline, lease, elapsed + 25);
  }

  /** The last three steps, through the second tier. */
  lemma DraggingEnds(w: World, deadline: nat, lease: Lease, late: nat) returns (r: World)
    requires Dragging(w, deadline, lease, late) && deadline <= late
    ensures Reachable(r) && 0 in r.calls && r.calls[0].deadline == deadline && r.calls[0].pc == Returned(Done)
    ensures r.calls[0].polls == PollsLeft(deadline, 0) && r.calls[0].steps == 2 * PollsLeft(deadline, 0) + 6
  {
    hide Reachable;
    var call := w.calls[0];
    r := OwnReaches(w, 0);
    assert r.s == w.s && r.calls[0] == call.(pc := Freezing(lease), steps := call.steps + 1);
    r := OwnReaches(r, 0);
    assert r.calls[0].pc.Marking? && r.calls[0].polls == call.polls && r.calls[0].steps == call.steps + 2;
    assert r.calls[0].deadline == deadline;
    r := OwnReaches(r, 0);
  }

  /** A run in which call 0 polls and steps as often as it can. */
  ghost predicate TakesItsTime(planes: seq<Plane>, steps: seq<Step>, deadline: nat) {
    && GoodTopology(planes) && Legal(Start(planes), steps)
    && var r := Exec(Start(planes), steps);
       && 0 in r.calls && r.calls[0].deadline == deadline && r.calls[0].pc == Returned(Done)
       && Polls(Start(planes), steps, 0) == (deadline + 24) / 25
       && OwnSteps(steps, 0) == 2 * ((deadline + 24) / 25) + 6
  }

  /** Both bounds on a call are met, for every deadline: a client that never yields is polled for every 25 ms of it. */
  lemma BoundsAreMet(deadline: nat)
    ensures exists planes, steps :: TakesItsTime(planes, steps, deadline)
  {
    var w, lease := DraggingBegins(deadline);
    var late;
    w, late := DraggingOn(w, deadline, lease, 0);
    w := DraggingEnds(w, deadline, lease, late);
    var planes, steps :| GoodTopology(planes) && Legal(Start(planes), steps) && Exec(Start(planes), steps) == w;
    RunCounts(Start(planes), steps, 0, 0, 0, Unseen);
    assert TakesItsTime(planes, steps, deadline);
  }

  // ----- a table of records that grows -----

  /** Every call has returned, and each left a record of a freeze that was never completed. */
  ghost predicate Littered(w: World, n: nat) {
    && Reachable(w)
    && IndexOf(w.s.planes, "gpu") < |w.s.planes|
    && (forall x :: x in w.s.issued ==> x < n)
    && (forall c :: c in w.calls ==> c < n && w.calls[c].pc == Returned(Done))
    && (forall x :: x in w.records <==> 0 <= x < n)
    && (forall x :: x in w.records ==> w.records[x] == Record(Tier2ForcedFreeze, false))
  }

  /** Half-way through a round: call `n` on the active lease `n` of an unknown client, on top of world `w`. */
  ghost predicate During(w: World, n: nat, r: World, pc: Pc, entered: bool) {
    && Reachable(r)
    && IndexOf(r.s.planes, "gpu") < |r.s.planes| && r.s.issued == w.s.issued + {n}
    && IsActiveIn(r.s, n)
    && n in r.calls && r.calls[n].id == n && r.calls[n].deadline == 0 && r.calls[n].pc == pc
    && r.calls == w.calls[n := r.calls[n]]
    && r.records == if entered then Enter(w.records, n) else w.records
  }

  /** A request for no bytes at the lowest priority takes from nobody and is always granted. */
  lemma SmallGrant(s: State, id: LeaseId)
    requires IndexOf(s.planes, "gpu") < |s.planes|
    ensures var req := Request(Batch, 0, Some("gpu"), Overflow.NOBODY);
      && Orders(s, req, [])
      && var r := Acquire(s, false, req, [], id).state;
         && IndexOf(r.planes, "gpu") < |r.planes| && r.issued == s.issued + {id}
         && id in r.leases && r.leases[id].state.Active? && r.leases[id].client == Overflow.NOBODY
  {
    var req := Request(Batch, 0, Some("gpu"), Overflow.NOBODY);
    var t := IndexOf(s.planes, "gpu");
    assert Eligible(s, t, Batch) == {};
    SameLayoutLookups(s.planes, Acquire(s, false, req, [], id).state.planes);
  }

  lemma RoundGrant(w: World, n: nat) returns (r: World)
    requires Littered(w, n)
    ensures Reachable(r) && r.calls == w.calls && r.records == w.records
    ensures IndexOf(r.s.planes, "gpu") < |r.s.planes| && r.s.issued == w.s.issued + {n}
    ensures IsActiveIn(r.s, n) && r.s.leases[n].client == Overflow.NOBODY
  {
    hide Acquire, Reachable, IndexOf, Orders;
    var op := AcquireOp(false, Request(Batch, 0, Some("gpu"), Overflow.NOBODY), [], n);
    SmallGrant(w.s, n);
    assert Possible(w, Other(op));
    StepReaches(w, Other(op));
    r := w.(s := Apply(w.s, op));
  }

  lemma RoundBegins(w: World, n: nat) returns (r: World, lease: Lease)
    requires Littered(w, n)
    ensures During(w, n, r, Yielding(lease), false) && lease.client == Overflow.NOBODY
  {
    hide Reachable, IndexOf;
    r := RoundGrant(w, n);
    lease := r.s.leases[n];
    StepReaches(r, Begin(n, n, 0));
    r := Next(r, Begin(n, n, 0));
    assert r.calls[n].pc == Fetching && r.calls[n].deadline == 0;
    r := OwnReaches(r, n);
  }

  lemma RoundRecords(w: World, n: nat, p: World, lease: Lease) returns (r: World)
    requires During(w, n, p, Yielding(lease), false)
    ensures During(w, n, r, Polling(lease, 0), true)
  {
    hide Reachable, IndexOf, Enter;
    r := OwnReaches(p, n);
    assert During(w, n, r, Recording(lease), false);
    r := OwnReaches(r, n);
  }

  lemma RoundPolls(w: World, n: nat, p: World, lease: Lease) returns (r: World)
    requires During(w, n, p, Polling(lease, 0), true)
    ensures During(w, n, r, Freezing(lease), true)
  {
    hide Reachable, IndexOf, Enter;
    r := OwnReaches(p, n);
  }

  lemma RoundFreezes(w: World, n: nat, p: World, lease: Lease) returns (r: World)
    requires During(w, n, p, Freezing(lease), true) && lease.client == Overflow.NOBODY
    ensures During(w, n, r, Marking(false), true)
  {
    hide Reachable, IndexOf, Enter;
    r := OwnReaches(p, n);
  }

  /** The table of unfinished records takes one more and drops none. */
  lemma EnterOnTop(w: World, n: nat)
    requires Littered(w, n)
    ensures forall x :: x in Enter(w.records, n) <==> x in w.records || x == n
    ensures forall x :: x in w.records ==> Enter(w.records, n)[x] == w.records[x]
    ensures n !in w.records && |Enter(w.records, n)| == |w.records| + 1
  {
    EnterKeepsUnfinished(w.records, n);
    var r := Enter(w.records, n);
    assert r.Keys == w.records.Keys + {n};
    assert |r| == |r.Keys| && |w.records| == |w.records.Keys|;
  }

  lemma RoundEnds(w: World, n: nat, p: World) returns (r: World)
    requires Littered(w, n) && During(w, n, p, Marking(false), true)
    ensures Littered(r, n + 1) && |r.records| == |w.records| + 1
  {
    hide Reachable, IndexOf, Enter;
    EnterOnTop(w, n);
    r := OwnReaches(p, n);
    var last := Record(Tier2ForcedFreeze, false);
    assert r.s == p.s && r.records == p.records[n := last] && r.calls == p.calls[n := r.calls[n]];
    assert r.records.Keys == p.records.Keys;
    assert |r.records| == |r.records.Keys| == |p.records.Keys| == |p.records|;
  }

  lemma {:induction false} Litter(n: nat) returns (w: World)
    ensures Littered(w, n) && |w.records| == n
  {
    hide During;
    if n == 0 {
      w := Start(Overflow.SMALL_GPU);
      assert Legal(w, []) && Exec(w, []) == w;
      assert w.records == map[];
    } else {
      hide Littered;
      var before := Litter(n - 1);
      var p, lease := RoundBegins(before, n - 1);
      p := RoundRecords(before, n - 1, p, lease);
      p := RoundPolls(before, n - 1, p, lease);
      p := RoundFreezes(before, n - 1, p, lease);
      w := RoundEnds(before, n - 1, p);
    }
  }

  /** The table of records has no bound of its own: for every `n` there is a run after which all calls have returned and `n`
      records of freezes that reached nobody are left, unfinished, so that no later call drops them. */
  lemma RecordsGrow(n: nat)
    ensures exists w :: Littered(w, n) && |w.records| == n
  {
    var w := Litter(n);
  }
}
