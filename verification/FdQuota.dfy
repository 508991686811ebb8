/** The memfd quota under any interleaving of any number of connection handlers: one atomic cell, a compare-exchange
    loop that reserves and a load followed by a subtraction that releases. */
module FdQuota {
  import opened Numbers
  import opened Sums

  /** Where a handler stands between its reservation and its release. */
  datatype Stage = Creating | CreateFailed | Sending | Sent | SendFailed

  datatype Pc =
    | Idle
    | Trying(bytes: nat, current: nat)     // in the loop of `try_reserve`, `current` last seen
    | Denied(wanted: nat, seen: nat)       // `try_reserve` returned `Err(seen)`
    | Holding(amount: nat, stage: Stage)
    | Releasing(amount: nat, loaded: nat)  // in `release`, after its load
    | Finished

  /** A connection handler. Beside its position: what it reserved and subtracted so far, and the position in the cell's
      history of its own reserving write. */
  datatype Handler = Handler(pc: Pc, took: seq<nat>, gave: seq<nat>, wrote: nat)

  type Tid = nat

  /** `past` lists every value the cell has had, the last being its current one. */
  datatype System = System(cell: nat, ceiling: nat, handlers: map<Tid, Handler>, past: seq<nat>)

  function Start(ceiling: nat): System {
    System(0, ceiling, map[], [0])
  }

  datatype Step =
    | Accept(t: Tid)
    | Reject(t: Tid)
    | Load(t: Tid, bytes: nat)
    | Exchange(t: Tid)
    | Create(t: Tid, ok: bool)
    | Send(t: Tid, ok: bool)
    | ReleaseLoad(t: Tid, at: nat)
    | ReleaseSub(t: Tid)

  /** The relaxed load of a release may return any value, `past[at]`, that the cell has had since the handler's own write. */
  predicate Possible(s: System, step: Step) {
    match step
    case Accept(t) => t !in s.handlers
    case Reject(t) => t in s.handlers && s.handlers[t].pc.Idle?
    case Load(t, bytes) => t in s.handlers && s.handlers[t].pc.Idle? && bytes <= U64_MAX
    case Exchange(t) => t in s.handlers && s.handlers[t].pc.Trying?
    case Create(t, _) => t in s.handlers && s.handlers[t].pc.Holding? && s.handlers[t].pc.stage.Creating?
    case Send(t, _) => t in s.handlers && s.handlers[t].pc.Holding? && s.handlers[t].pc.stage.Sending?
    case ReleaseLoad(t, at) =>
      && t in s.handlers && s.handlers[t].pc.Holding? && !s.handlers[t].pc.stage.Creating? && !s.handlers[t].pc.stage.Sending?
      && s.handlers[t].wrote <= at < |s.past|
    case ReleaseSub(t) => t in s.handlers && s.handlers[t].pc.Releasing?
  }

  /** The cell gets a new value from handler `t`. */
  function Write(s: System, t: Tid, value: nat, h: Handler): System {
    s.(cell := value, handlers := s.handlers[t := h], past := s.past + [value])
  }

  function SetHandler(s: System, t: Tid, h: Handler): System {
    s.(handlers := s.handlers[t := h])
  }

  function Next(s: System, step: Step): System
    requires Possible(s, step)
  {
    if step.Accept? then SetHandler(s, step.t, Handler(Idle, [], [], 0))
    else
      var h := s.handlers[step.t];
      match step
      case Accept(_) => s
      case Reject(t) => SetHandler(s, t, h.(pc := Finished))
      case Load(t, bytes) =>
        SetHandler(s, t, h.(pc := Trying(bytes, s.cell)))
      case Exchange(t) =>
        var next := SatAdd(h.pc.current, h.pc.bytes);
        if next > s.ceiling then SetHandler(s, t, h.(pc := Denied(h.pc.bytes, h.pc.current)))
        else if s.cell == h.pc.current then
          Write(s, t, next, h.(pc := Holding(h.pc.bytes, Creating), took := h.took + [h.pc.bytes], wrote := |s.past|))
        else
          SetHandler(s, t, h.(pc := Trying(h.pc.bytes, s.cell)))
      case Create(t, ok) => SetHandler(s, t, h.(pc := Holding(h.pc.amount, if ok then Sending else CreateFailed)))
      case Send(t, ok) => SetHandler(s, t, h.(pc := Holding(h.pc.amount, if ok then Sent else SendFailed)))
      case ReleaseLoad(t, at) => SetHandler(s, t, h.(pc := Releasing(h.pc.amount, s.past[at])))
      case ReleaseSub(t) =>
        var part := Min(h.pc.amount, h.pc.loaded);
        var left := if s.cell <= U64_MAX && part <= U64_MAX then WrapSub(s.cell, part) else 0;
        Write(s, t, left, h.(pc := Finished, gave := h.gave + [part]))
  }

  ghost predicate Runs(s: System, steps: seq<Step>)
    decreases |steps|
  {
    steps == [] || (Possible(s, steps[0]) && Runs(Next(s, steps[0]), steps[1..]))
  }

  function After(s: System, steps: seq<Step>): System
    requires Runs(s, steps)
    decreases |steps|
  {
    if steps == [] then s else After(Next(s, steps[0]), steps[1..])
  }

  ghost predicate Reachable(ceiling: nat, s: System) {
    exists steps :: Runs(Start(ceiling), steps) && After(Start(ceiling), steps) == s
  }

  // ----- the invariant -----

  /** What a handler has reserved and not yet subtracted. */
  function Held(h: Handler): nat {
    match h.pc
    case Holding(amount, _) => amount
    case Releasing(amount, _) => amount
    case _ => 0
  }

  ghost function AllHeld(s: System): map<Tid, nat> {
    map t | t in s.handlers :: Held(s.handlers[t])
  }

  /** The cell holds exactly what the handlers hold, within the ceiling. */
  ghost predicate Conserved(s: System) {
    s.cell == Total(AllHeld(s)) && s.cell <= s.ceiling
  }

  ghost predicate Sane(s: System, h: Handler) {
    match h.pc
    case Idle => h.took == h.gave == []
    case Trying(bytes, current) => h.took == h.gave == [] && bytes <= U64_MAX && current <= s.ceiling
    case Denied(wanted, seen) => h.took == h.gave == [] && wanted + seen > s.ceiling
    case Holding(amount, _) =>
      && h.took == [amount] && h.gave == [] && amount <= U64_MAX
      && h.wrote < |s.past| && (forall k :: h.wrote <= k < |s.past| ==> amount <= s.past[k])
    case Releasing(amount, loaded) => h.took == [amount] && h.gave == [] && amount <= loaded && amount <= U64_MAX
    case Finished => h.took == h.gave && |h.took| <= 1
  }

  ghost predicate Inv(s: System) {
    && s.ceiling < U64_MAX
    && Conserved(s)
    && |s.past| > 0 && s.past[|s.past| - 1] == s.cell
    && forall t {:trigger s.handlers[t]} :: t in s.handlers ==> Sane(s, s.handlers[t])
  }

  lemma HeldAtMost(s: System, t: Tid)
    requires Conserved(s) && t in s.handlers
    ensures Held(s.handlers[t]) <= s.cell
  {
    TotalSplit(AllHeld(s), t);
  }

  /** A step that does not write the cell. */
  lemma SetKeeps(s: System, t: Tid, h: Handler)
    requires Inv(s) && Sane(s, h)
    requires Held(h) == if t in s.handlers then Held(s.handlers[t]) else 0
    ensures Inv(SetHandler(s, t, h))
  {
    var r := SetHandler(s, t, h);
    assert AllHeld(r) == AllHeld(s)[t := Held(h)];
    TotalPut(AllHeld(s), t, Held(h));
    forall x | x in r.handlers ensures Sane(r, r.handlers[x]) {
      SaneFrame(s, r, r.handlers[x]);
    }
  }

  lemma SaneFrame(s: System, r: System, h: Handler)
    requires Sane(s, h) && r == s.(handlers := r.handlers)
    ensures Sane(r, h)
  {
  }

  /** A handler that did not write stays sane when another does and leaves it what it holds. */
  lemma SaneForeign(s: System, r: System, h: Handler)
    requires Sane(s, h) && r.ceiling == s.ceiling && r.past == s.past + [r.cell] && Held(h) <= r.cell
    ensures Sane(r, h)
  {
  }

  lemma WriteKeeps(s: System, t: Tid, value: nat, h: Handler)
    requires Inv(s) && t in s.handlers
    requires value <= s.ceiling && value + Held(s.handlers[t]) == s.cell + Held(h)
    requires Sane(Write(s, t, value, h), h)
    ensures Inv(Write(s, t, value, h))
  {
    var r := Write(s, t, value, h);
    assert AllHeld(r) == AllHeld(s)[t := Held(h)];
    TotalPut(AllHeld(s), t, Held(h));
    forall x | x in r.handlers ensures Sane(r, r.handlers[x]) {
      if x != t {
        TotalSplit(AllHeld(r), x);
        SaneForeign(s, r, s.handlers[x]);
      }
    }
  }

  lemma StepKeeps(s: System, step: Step)
    requires Inv(s) && Possible(s, step)
    ensures Inv(Next(s, step))
  {
    var t := step.t;
    match step
    case Accept(_) => SetKeeps(s, t, Handler(Idle, [], [], 0));
    case Reject(_) => SetKeeps(s, t, s.handlers[t].(pc := Finished));
    case Load(_, bytes) =>
      assert s.past[|s.past| - 1] == s.cell;
      SetKeeps(s, t, Next(s, step).handlers[t]);
    case Exchange(_) => ExchangeKeeps(s, t);
    case Create(_, ok) => SetKeeps(s, t, Next(s, step).handlers[t]);
    case Send(_, ok) => SetKeeps(s, t, Next(s, step).handlers[t]);
    case ReleaseLoad(_, at) =>
      assert Sane(s, s.handlers[t]);
      SetKeeps(s, t, Next(s, step).handlers[t]);
    case ReleaseSub(_) =>
      HeldAtMost(s, t);
      var h := s.handlers[t];
      WriteKeeps(s, t, s.cell - h.pc.amount, h.(pc := Finished, gave := h.gave + [h.pc.amount]));
  }

  lemma DenialKeeps(s: System, t: Tid)
    requires Inv(s) && Possible(s, Exchange(t)) && SatAdd(s.handlers[t].pc.current, s.handlers[t].pc.bytes) > s.ceiling
    ensures Inv(Next(s, Exchange(t)))
  {
    var h := s.handlers[t];
    assert Sane(s, h);
    SetKeeps(s, t, h.(pc := Denied(h.pc.bytes, h.pc.current)));
  }

  lemma GrantKeeps(s: System, t: Tid)
    requires Inv(s) && Possible(s, Exchange(t)) && s.cell == s.handlers[t].pc.current
    requires SatAdd(s.cell, s.handlers[t].pc.bytes) <= s.ceiling
    ensures Inv(Next(s, Exchange(t)))
  {
    var h := s.handlers[t];
    assert Sane(s, h);
    WriteKeeps(s, t, s.cell + h.pc.bytes, Next(s, Exchange(t)).handlers[t]);
  }

  lemma RetryKeeps(s: System, t: Tid)
    requires Inv(s) && Possible(s, Exchange(t)) && s.cell != s.handlers[t].pc.current
    requires SatAdd(s.handlers[t].pc.current, s.handlers[t].pc.bytes) <= s.ceiling
    ensures Inv(Next(s, Exchange(t)))
  {
    var h := s.handlers[t];
    assert Sane(s, h);
    SetKeeps(s, t, h.(pc := Trying(h.pc.bytes, s.cell)));
  }

  lemma ExchangeKeeps(s: System, t: Tid)
    requires Inv(s) && Possible(s, Exchange(t))
    ensures Inv(Next(s, Exchange(t)))
  {
    var h := s.handlers[t];
    assert Sane(s, h);
    if SatAdd(h.pc.current, h.pc.bytes) > s.ceiling {
      DenialKeeps(s, t);
    } else if s.cell == h.pc.current {
      GrantKeeps(s, t);
    } else {
      RetryKeeps(s, t);
    }
  }

  lemma {:induction false} RunKeeps(s: System, steps: seq<Step>)
    requires Inv(s) && Runs(s, steps)
    ensures Inv(After(s, steps)) && After(s, steps).ceiling == s.ceiling
    decreases |steps|
  {
    if steps != [] {
      StepKeeps(s, steps[0]);
      RunKeeps(Next(s, steps[0]), steps[1..]);
    }
  }

  lemma ReachableInv(ceiling: nat, s: System)
    requires ceiling < U64_MAX && Reachable(ceiling, s)
    ensures Inv(s) && s.ceiling == ceiling
  {
    var steps :| Runs(Start(ceiling), steps) && After(Start(ceiling), steps) == s;
    assert AllHeld(Start(ceiling)) == map[];
    RunKeeps(Start(ceiling), steps);
  }

  // ----- main results -----

  /** Under every interleaving the cell equals the sum of the reservations not yet subtracted and stays within the
      ceiling, and no handler gives back anything but what it took, at most once. */
  lemma QuotaConserved(ceiling: nat, s: System, t: Tid)
    requires ceiling < U64_MAX && Reachable(ceiling, s)
    ensures s.cell == Total(AllHeld(s)) <= ceiling
    ensures t in s.handlers ==> var h := s.handlers[t];
      |h.took| <= 1 && h.gave <= h.took && (h.pc.Finished? ==> h.gave == h.took) && Held(h) == (if h.gave == h.took then 0 else h.took[0])
  {
    ReachableInv(ceiling, s);
    assert t in s.handlers ==> Sane(s, s.handlers[t]);
  }

  /** However stale the value that `release` loads, its minimum never bites and its subtraction never wraps around. */
  lemma ReleaseIsExact(ceiling: nat, s: System, t: Tid)
    requires ceiling < U64_MAX && Reachable(ceiling, s) && Possible(s, ReleaseSub(t))
    ensures var pc := s.handlers[t].pc;
      Min(pc.amount, pc.loaded) == pc.amount <= s.cell && Next(s, ReleaseSub(t)).cell == s.cell - pc.amount
  {
    ReachableInv(ceiling, s);
    assert Sane(s, s.handlers[t]);
    HeldAtMost(s, t);
  }

  /** When every handler has left, on whichever path, nothing stays reserved. */
  lemma NothingLeft(ceiling: nat, s: System)
    requires ceiling < U64_MAX && Reachable(ceiling, s)
    requires forall t :: t in s.handlers ==> s.handlers[t].pc.Idle? || s.handlers[t].pc.Denied? || s.handlers[t].pc.Finished?
    ensures s.cell == 0
  {
    ReachableInv(ceiling, s);
    TotalZero(AllHeld(s));
  }

  /** The rest of `handle_connection` once quota is reserved, for given outcomes of creating and sending the memfd. */
  function WayOut(t: Tid, created: bool, sent: bool, at: nat): seq<Step> {
    [Create(t, created)] + ((if created then [Send(t, sent)] else []) + [ReleaseLoad(t, at), ReleaseSub(t)])
  }

  /** On each of the three exit paths, whatever its last load returns, a handler that reserved quota runs to its end and gives
      back exactly that amount. */
  lemma EveryExitReleases(ceiling: nat, s: System, t: Tid, created: bool, sent: bool, at: nat)
    requires ceiling < U64_MAX && Reachable(ceiling, s) && Possible(s, Create(t, created))
    requires s.handlers[t].wrote <= at < |s.past|
    ensures Runs(s, WayOut(t, created, sent, at))
    ensures var h, r := s.handlers[t], After(s, WayOut(t, created, sent, at));
      && t in r.handlers && r.handlers[t].pc.Finished? && r.handlers[t].gave == r.handlers[t].took == [h.pc.amount]
      && r.cell + h.pc.amount == s.cell
  {
    ReachableInv(ceiling, s);
    assert Sane(s, s.handlers[t]);
    var s1 := Next(s, Create(t, created));
    StepKeeps(s, Create(t, created));
    var s2 := if created then Next(s1, Send(t, sent)) else s1;
    if created {
      StepKeeps(s1, Send(t, sent));
    }
    LastTwoSteps(s2, t, at);
    if created {
      RunOne(s1, Send(t, sent), [ReleaseLoad(t, at), ReleaseSub(t)]);
    } else {
      assert [] + [ReleaseLoad(t, at), ReleaseSub(t)] == [ReleaseLoad(t, at), ReleaseSub(t)];
    }
    RunOne(s, Create(t, created), (if created then [Send(t, sent)] else []) + [ReleaseLoad(t, at), ReleaseSub(t)]);
  }

  lemma LastTwoSteps(s: System, t: Tid, at: nat)
    requires Inv(s) && Possible(s, ReleaseLoad(t, at))
    ensures Runs(s, [ReleaseLoad(t, at), ReleaseSub(t)])
    ensures var h, r := s.handlers[t], After(s, [ReleaseLoad(t, at), ReleaseSub(t)]);
      && t in r.handlers && r.handlers[t].pc.Finished? && r.handlers[t].gave == r.handlers[t].took == [h.pc.amount]
      && r.cell + h.pc.amount == s.cell
  {
    assert Sane(s, s.handlers[t]);
    HeldAtMost(s, t);
    var s1 := Next(s, ReleaseLoad(t, at));
    RunOne(s1, ReleaseSub(t), []);
    assert [ReleaseSub(t)] + [] == [ReleaseSub(t)];
    RunOne(s, ReleaseLoad(t, at), [ReleaseSub(t)]);
    assert [ReleaseLoad(t, at)] + [ReleaseSub(t)] == [ReleaseLoad(t, at), ReleaseSub(t)];
  }

  lemma {:induction false} FinishedForever(s: System, steps: seq<Step>, t: Tid)
    requires Runs(s, steps) && t in s.handlers && s.handlers[t].pc.Finished?
    ensures t in After(s, steps).handlers && After(s, steps).handlers[t] == s.handlers[t]
    decreases |steps|
  {
    if steps != [] {
      FinishedForever(Next(s, steps[0]), steps[1..], t);
    }
  }

  /** A connection that is turned away before the quota is asked has left for good and reserved nothing. */
  lemma TurnedAway(ceiling: nat, s: System, t: Tid, later: seq<Step>)
    requires ceiling < U64_MAX && Reachable(ceiling, s) && Possible(s, Reject(t)) && Runs(Next(s, Reject(t)), later)
    ensures Next(s, Reject(t)).cell == s.cell
    ensures var r := After(Next(s, Reject(t)), later); t in r.handlers && r.handlers[t].pc.Finished? && r.handlers[t].took == []
  {
    ReachableInv(ceiling, s);
    assert Sane(s, s.handlers[t]);
    FinishedForever(Next(s, Reject(t)), later, t);
  }

  /** `Ok` means that the request fitted on top of everything reserved at the instant of the exchange. */
  lemma GrantMeans(ceiling: nat, s: System, t: Tid)
    requires ceiling < U64_MAX && Reachable(ceiling, s) && Possible(s, Exchange(t))
    requires Next(s, Exchange(t)).handlers[t].pc.Holding?
    ensures var bytes := s.handlers[t].pc.bytes;
      && Next(s, Exchange(t)).handlers[t].pc.amount == bytes
      && Next(s, Exchange(t)).cell == s.cell + bytes == Total(AllHeld(s)) + bytes <= ceiling
  {
    ReachableInv(ceiling, s);
    assert Sane(s, s.handlers[t]);
  }

  // ----- what happens during a call -----

  /** The cell holds `value` now or after some of the steps. */
  ghost predicate Passes(s: System, steps: seq<Step>, value: nat)
    requires Runs(s, steps)
    decreases |steps|
  {
    s.cell == value || (steps != [] && Passes(Next(s, steps[0]), steps[1..], value))
  }

  /** The cell holds `value` at some instant from the load with which handler `t` begins its reservation on. */
  ghost predicate PassesInCall(s: System, steps: seq<Step>, t: Tid, value: nat)
    requires Runs(s, steps)
    decreases |steps|
  {
    && steps != []
    && if steps[0].Load? && steps[0].t == t then Passes(Next(s, steps[0]), steps[1..], value)
       else PassesInCall(Next(s, steps[0]), steps[1..], t, value)
  }

  lemma SeenIsDenied(s: System, step: Step, t: Tid)
    requires Possible(s, step) && t in s.handlers && step != Exchange(t)
    ensures t in Next(s, step).handlers
    ensures s.handlers[t].pc.Trying? || s.handlers[t].pc.Denied? ==> Next(s, step).handlers[t].pc == s.handlers[t].pc
  {
  }

  /** A call under way is denied because of the value it saw last, or of one that it sees on the way. */
  lemma {:induction false} DeniedOnTheWay(s: System, steps: seq<Step>, t: Tid)
    requires Runs(s, steps) && t in s.handlers && (s.handlers[t].pc.Trying? || s.handlers[t].pc.Denied?)
    requires t in After(s, steps).handlers && After(s, steps).handlers[t].pc.Denied?
    ensures var seen := After(s, steps).handlers[t].pc.seen;
      seen == (if s.handlers[t].pc.Trying? then s.handlers[t].pc.current else s.handlers[t].pc.seen) || Passes(s, steps, seen)
    decreases |steps|
  {
    if steps != [] {
      var next := Next(s, steps[0]);
      if steps[0] != Exchange(t) {
        SeenIsDenied(s, steps[0], t);
        DeniedOnTheWay(next, steps[1..], t);
      } else if next.handlers[t].pc.Holding? {
        NeverDenied(next, steps[1..], t);
      } else {
        DeniedOnTheWay(next, steps[1..], t);
      }
    }
  }

  /** The handler has its reservation behind it, or has left. */
  predicate IsPast(h: Handler) {
    h.pc.Holding? || h.pc.Releasing? || h.pc.Finished?
  }

  lemma {:induction false} NeverDenied(s: System, steps: seq<Step>, t: Tid)
    requires Runs(s, steps) && t in s.handlers && IsPast(s.handlers[t])
    ensures t in After(s, steps).handlers && IsPast(After(s, steps).handlers[t])
    decreases |steps|
  {
    if steps != [] {
      NeverDenied(Next(s, steps[0]), steps[1..], t);
    }
  }

  lemma {:induction false} DeniedInCall(s: System, steps: seq<Step>, t: Tid)
    requires Runs(s, steps) && (t in s.handlers ==> s.handlers[t].pc.Idle?)
    requires t in After(s, steps).handlers && After(s, steps).handlers[t].pc.Denied?
    ensures PassesInCall(s, steps, t, After(s, steps).handlers[t].pc.seen)
    decreases |steps|
  {
    if steps != [] {
      var next := Next(s, steps[0]);
      if steps[0].Load? && steps[0].t == t {
        DeniedOnTheWay(next, steps[1..], t);
      } else if steps[0].Reject? && steps[0].t == t {
        NeverDenied(next, steps[1..], t);
      } else {
        DeniedInCall(next, steps[1..], t);
      }
    }
  }

  /** `Err(seen)` means that `seen` was in the cell at some instant of the call and left no room for the request. */
  lemma DenialMeans(ceiling: nat, steps: seq<Step>, t: Tid)
    requires ceiling < U64_MAX && Runs(Start(ceiling), steps)
    requires t in After(Start(ceiling), steps).handlers && After(Start(ceiling), steps).handlers[t].pc.Denied?
    ensures var pc := After(Start(ceiling), steps).handlers[t].pc;
      pc.seen + pc.wanted > ceiling && PassesInCall(Start(ceiling), steps, t, pc.seen)
  {
    var s := After(Start(ceiling), steps);
    ReachableInv(ceiling, s);
    assert Sane(s, s.handlers[t]);
    DeniedInCall(Start(ceiling), steps, t);
  }

  /** The step is an exchange of handler `t` that fails because the cell has changed. */
  predicate Fails(s: System, step: Step, t: Tid)
    requires Possible(s, step)
  {
    step == Exchange(t) && Next(s, step).handlers[t].pc.Trying?
  }

  /** The step is a write of another handler: a successful exchange or a subtraction. */
  predicate WritesBesides(s: System, step: Step, t: Tid)
    requires Possible(s, step)
  {
    step.t != t && (step.ReleaseSub? || (step.Exchange? && Next(s, step).handlers[step.t].pc.Holding?))
  }

  function Failures(s: System, steps: seq<Step>, t: Tid): nat
    requires Runs(s, steps)
    decreases |steps|
  {
    if steps == [] then 0
    else (if Fails(s, steps[0], t) then 1 else 0) + Failures(Next(s, steps[0]), steps[1..], t)
  }

  function ForeignWrites(s: System, steps: seq<Step>, t: Tid): nat
    requires Runs(s, steps)
    decreases |steps|
  {
    if steps == [] then 0
    else (if WritesBesides(s, steps[0], t) then 1 else 0) + ForeignWrites(Next(s, steps[0]), steps[1..], t)
  }

  /** What a step does to a call under way. */
  lemma CallUnderWay(s: System, step: Step, t: Tid)
    requires Possible(s, step) && t in s.handlers && s.handlers[t].pc.Trying?
    ensures var next := Next(s, step);
      && t in next.handlers && (next.handlers[t].pc.Trying? || next.handlers[t].pc.Denied? || next.handlers[t].pc.Holding?)
      && (Fails(s, step, t) ==> s.cell != s.handlers[t].pc.current && next.handlers[t].pc == Trying(s.handlers[t].pc.bytes, next.cell))
      && (step != Exchange(t) ==> next.handlers[t] == s.handlers[t])
      && (step != Exchange(t) && !WritesBesides(s, step, t) ==> next.cell == s.cell)
  {
  }

  lemma {:induction false} NoMoreFailures(s: System, steps: seq<Step>, t: Tid)
    requires Runs(s, steps) && t in s.handlers && (IsPast(s.handlers[t]) || s.handlers[t].pc.Denied?)
    ensures Failures(s, steps, t) == 0
    decreases |steps|
  {
    if steps != [] {
      NoMoreFailures(Next(s, steps[0]), steps[1..], t);
    }
  }

  /** Every failed exchange is paid for by a write of another handler: from a look at the cell on, the first or any later
      one, an exchange of the call fails no more often than others write, so while they write `k` times at most `k + 1`
      iterations begin. */
  lemma {:induction false} LockFree(s: System, steps: seq<Step>, t: Tid)
    requires Runs(s, steps) && t in s.handlers && s.handlers[t].pc.Trying?
    ensures s.handlers[t].pc.current == s.cell ==> Failures(s, steps, t) <= ForeignWrites(s, steps, t)
    ensures Failures(s, steps, t) <= ForeignWrites(s, steps, t) + 1
    decreases |steps|
  {
    if steps != [] {
      hide Possible, Next, Fails, WritesBesides;
      CallUnderWay(s, steps[0], t);
      StepMakes(s, steps[0], t);
      var next := Next(s, steps[0]);
      if next.handlers[t].pc.Trying? {
        LockFree(next, steps[1..], t);
      } else {
        NoMoreFailures(next, steps[1..], t);
      }
    }
  }

  lemma StepMakes(s: System, step: Step, t: Tid)
    requires Possible(s, step) && t in s.handlers && s.handlers[t].pc.Trying?
    ensures Fails(s, step, t) ==> step == Exchange(t) && !WritesBesides(s, step, t)
    ensures step == Exchange(t) && !Fails(s, step, t) ==> !Next(s, step).handlers[t].pc.Trying?
  {
  }

  lemma RunOne(s: System, step: Step, steps: seq<Step>)
    requires Possible(s, step) && Runs(Next(s, step), steps)
    ensures Runs(s, [step] + steps) && After(s, [step] + steps) == After(Next(s, step), steps)
  {
    assert ([step] + steps)[1..] == steps;
  }

  // ----- requests -----

  /** The handler came with a request for this many bytes. */
  ghost predicate Asked(steps: seq<Step>, t: Tid, bytes: nat) {
    Load(t, bytes) in steps
  }

  /** What the handler tries to reserve, was denied, holds or took is what it asked for. */
  ghost predicate AsAsked(steps: seq<Step>, t: Tid, h: Handler) {
    && (forall k :: 0 <= k < |h.took| ==> Asked(steps, t, h.took[k]))
    && match h.pc
       case Trying(bytes, _) => Asked(steps, t, bytes)
       case Denied(wanted, _) => Asked(steps, t, wanted)
       case Holding(amount, _) => Asked(steps, t, amount)
       case Releasing(amount, _) => Asked(steps, t, amount)
       case _ => true
  }

  ghost predicate AllAsAsked(steps: seq<Step>, s: System) {
    forall t {:trigger s.handlers[t]} :: t in s.handlers ==> AsAsked(steps, t, s.handlers[t])
  }

  lemma StepAsAsked(before: seq<Step>, s: System, step: Step)
    requires AllAsAsked(before, s) && Possible(s, step)
    ensures AllAsAsked(before + [step], Next(s, step))
  {
    var r := Next(s, step);
    forall t | t in r.handlers ensures AsAsked(before + [step], t, r.handlers[t]) {
      if t in s.handlers {
        assert AsAsked(before, t, s.handlers[t]);
      }
    }
  }

  lemma {:induction false} RunAsAsked(before: seq<Step>, s: System, steps: seq<Step>)
    requires AllAsAsked(before, s) && Runs(s, steps)
    ensures AllAsAsked(before + steps, After(s, steps))
    decreases |steps|
  {
    if steps == [] {
      assert before + steps == before;
    } else {
      StepAsAsked(before, s, steps[0]);
      RunAsAsked(before + [steps[0]], Next(s, steps[0]), steps[1..]);
      assert before + [steps[0]] + steps[1..] == before + steps;
    }
  }

  /** Over every run, under any ceiling, a handler takes exactly what its request asks for, and a denial speaks of it. */
  lemma TookWhatWasAsked(ceiling: nat, steps: seq<Step>, t: Tid)
    requires Runs(Start(ceiling), steps) && t in After(Start(ceiling), steps).handlers
    ensures var h := After(Start(ceiling), steps).handlers[t];
      && (forall k :: 0 <= k < |h.took| ==> Load(t, h.took[k]) in steps)
      && (h.pc.Denied? ==> Load(t, h.pc.wanted) in steps)
      && (h.pc.Holding? ==> Load(t, h.pc.amount) in steps)
  {
    RunAsAsked([], Start(ceiling), steps);
    assert [] + steps == steps;
  }

  // ----- the largest ceiling -----

  /** No request of the run asks for more than `bound` bytes. */
  predicate AsksAtMost(steps: seq<Step>, bound: nat) {
    forall k {:trigger steps[k]} :: 0 <= k < |steps| ==> steps[k].Load? ==> steps[k].bytes <= bound
  }

  ghost predicate ReachableWithin(ceiling: nat, bound: nat, s: System) {
    exists steps :: AsksAtMost(steps, bound) && Runs(Start(ceiling), steps) && After(Start(ceiling), steps) == s
  }

  /** A new handler that asks for `bytes` and is at once granted them. */
  function Arrival(t: Tid, bytes: nat): seq<Step> {
    [Accept(t)] + ([Load(t, bytes)] + ([Exchange(t)] + []))
  }

  /** Under the largest ceiling the saturating sum always passes the test. */
  lemma AlwaysGranted(s: System, t: Tid, bytes: nat)
    requires s.ceiling == U64_MAX && t !in s.handlers && bytes <= U64_MAX
    ensures Runs(s, Arrival(t, bytes)) && AsksAtMost(Arrival(t, bytes), bytes)
    ensures var r := After(s, Arrival(t, bytes));
      && r.cell == SatAdd(s.cell, bytes) && r.ceiling == s.ceiling
      && AllHeld(r) == AllHeld(s)[t := bytes] && r.handlers.Keys == s.handlers.Keys + {t}
  {
    var s1 := Next(s, Accept(t));
    var s2 := Next(s1, Load(t, bytes));
    RunOne(s2, Exchange(t), []);
    RunOne(s1, Load(t, bytes), [Exchange(t)] + []);
    RunOne(s, Accept(t), [Load(t, bytes)] + ([Exchange(t)] + []));
    var r := Next(s2, Exchange(t));
    assert r.handlers[t].pc == Holding(bytes, Creating);
  }

  lemma {:induction false} RunsOn(s: System, first: seq<Step>, later: seq<Step>)
    requires Runs(s, first) && Runs(After(s, first), later)
    ensures Runs(s, first + later) && After(s, first + later) == After(After(s, first), later)
    decreases |first|
  {
    if first == [] {
      assert first + later == later;
    } else {
      assert (first + later)[1..] == first[1..] + later;
      RunsOn(Next(s, first[0]), first[1..], later);
    }
  }

  /** So handlers that keep arriving are granted more in the end than the cell can record. */
  lemma {:induction false} Overfill(s: System, t: Tid, bytes: nat) returns (steps: seq<Step>)
    requires 0 < bytes <= U64_MAX && s.ceiling == U64_MAX && Conserved(s) && forall x :: x in s.handlers ==> x < t
    ensures AsksAtMost(steps, bytes) && Runs(s, steps) && !Conserved(After(s, steps))
    decreases U64_MAX - s.cell
  {
    steps := Arrival(t, bytes);
    AlwaysGranted(s, t, bytes);
    TotalPut(AllHeld(s), t, bytes);
    if s.cell + bytes <= U64_MAX {
      var r := After(s, steps);
      var more := Overfill(r, t + 1, bytes);
      RunsOn(s, steps, more);
      steps := steps + more;
    }
  }

  lemma SaturationWitness(bound: nat)
    requires 0 < bound
    ensures exists s :: ReachableWithin(U64_MAX, bound, s) && !Conserved(s)
  {
    assert AllHeld(Start(U64_MAX)) == map[];
    var steps := Overfill(Start(U64_MAX), 0, Min(bound, U64_MAX));
    assert ReachableWithin(U64_MAX, bound, After(Start(U64_MAX), steps));
  }

  /** However small the largest request, the quota conserves under every interleaving exactly when its ceiling is not the
      largest 64-bit number. */
  lemma ConservesIff(ceiling: nat, bound: nat)
    requires ceiling <= U64_MAX && 0 < bound
    ensures (forall s :: ReachableWithin(ceiling, bound, s) ==> Conserved(s)) <==> ceiling < U64_MAX
  {
    if ceiling < U64_MAX {
      forall s | ReachableWithin(ceiling, bound, s) ensures Conserved(s) {
        assert Reachable(ceiling, s);
        ReachableInv(ceiling, s);
      }
    } else {
      SaturationWitness(bound);
    }
  }
}
