/** The bounded model registry, whose eviction never touches models pinned for triage. */
module Registry {
  import opened Numbers
  import opened Leases

  type ModelId = string

  datatype Placement = Dormant | Staged | Resident | PinnedTriage

  datatype Model = Model(id: ModelId, placement: Placement, residentPlane: Option<PlaneId>, accessCount: nat, lastAccessed: nat)

  const CAPACITY: nat := 256

  /** The lexicographic order on use count and last use. */
  predicate NoFresher(a: Model, b: Model) {
    a.accessCount < b.accessCount || (a.accessCount == b.accessCount && a.lastAccessed <= b.lastAccessed)
  }

  predicate IsPinned(models: map<ModelId, Model>, id: ModelId) {
    id in models && models[id].placement.PinnedTriage?
  }

  /** A model that eviction may pick: not pinned, and least among those. */
  ghost predicate IsVictim(models: map<ModelId, Model>, id: ModelId) {
    && id in models && !IsPinned(models, id)
    && forall x :: x in models && !IsPinned(models, x) ==> NoFresher(models[id], models[x])
  }

  /** `evicted` is what a registration of `m` may evict, for some order of the hash map. */
  ghost predicate MayEvict(models: map<ModelId, Model>, m: Model, evicted: Option<ModelId>) {
    if m.id in models || |models| < CAPACITY then evicted.None?
    else if forall x :: x in models ==> IsPinned(models, x) then evicted.None?
    else evicted.Some? && IsVictim(models, evicted.value)
  }

  function Registered(models: map<ModelId, Model>, m: Model, evicted: Option<ModelId>): map<ModelId, Model> {
    (if evicted.Some? then models - {evicted.value} else models)[m.id := m]
  }

  function Pinned(models: map<ModelId, Model>, id: ModelId, plane: PlaneId): map<ModelId, Model> {
    if id in models then models[id := models[id].(placement := PinnedTriage, residentPlane := Some(plane))] else models
  }

  class ModelRegistry {
    var models: map<ModelId, Model>

    constructor ()
      ensures models == map[]
    {
      models := map[];
    }

    /** A least unpinned model, if there is one. */
    method PickVictim() returns (victim: Option<ModelId>)
      ensures victim.Some? ==> IsVictim(models, victim.value)
      ensures victim.None? ==> forall x :: x in models ==> IsPinned(models, x)
    {
      victim := None;
      var todo := models.Keys;
      while todo != {}
        invariant todo <= models.Keys
        invariant victim.None? ==> forall x :: x in models && x !in todo ==> IsPinned(models, x)
        invariant victim.Some? ==> victim.value in models && !IsPinned(models, victim.value)
        invariant victim.Some? ==> forall x :: x in models && x !in todo && !IsPinned(models, x) ==>
          NoFresher(models[victim.value], models[x])
        decreases |todo|
      {
        var id :| id in todo;
        if !IsPinned(models, id) && (victim.None? || !NoFresher(models[victim.value], models[id])) {
          victim := Some(id);
        }
        todo := todo - {id};
      }
    }

    method Register(m: Model) returns (ghost evicted: Option<ModelId>)
      modifies this
      ensures MayEvict(old(models), m, evicted)
      ensures models == Registered(old(models), m, evicted)
    {
      evicted := None;
      if m.id !in models && |models| >= CAPACITY {
        var victim := PickVictim();
        evicted := victim;
        if victim.Some? {
          models := models - {victim.value};
        }
      }
      models := models[m.id := m];
    }

    method Remove(id: ModelId) returns (m: Option<Model>)
      modifies this
      ensures models == old(models) - {id}
      ensures m == if id in old(models) then Some(old(models)[id]) else None
    {
      m := if id in models then Some(models[id]) else None;
      models := models - {id};
    }

    method PinForTriage(id: ModelId, plane: PlaneId) returns (found: bool)
      modifies this
      ensures models == Pinned(old(models), id, plane)
      ensures found <==> id in old(models)
    {
      found := id in models;
      if found {
        models := models[id := models[id].(placement := PinnedTriage, residentPlane := Some(plane))];
      }
    }
  }

  /** An unpinned model that no other unpinned one was used less often than, nor, when used as often, earlier than. */
  ghost predicate IsLeastUsed(models: map<ModelId, Model>, id: ModelId) {
    && id in models && !models[id].placement.PinnedTriage?
    && forall x :: x in models && !models[x].placement.PinnedTriage? ==>
         && models[id].accessCount <= models[x].accessCount
         && (models[id].accessCount == models[x].accessCount ==> models[id].lastAccessed <= models[x].lastAccessed)
  }

  /** A registration evicts at most one model, the least used that is not pinned, and only to make room for a new one; it lets the
      registry grow past its capacity exactly when every model in it is pinned. */
  lemma RegistrationEffect(models: map<ModelId, Model>, m: Model, evicted: Option<ModelId>)
    requires MayEvict(models, m, evicted)
    ensures var r := Registered(models, m, evicted);
      && m.id in r && r[m.id] == m
      && (forall x :: x in r && x != m.id ==> x in models)
      && (forall x :: x in models && x != m.id && Some(x) != evicted ==> x in r && r[x] == models[x])
      && (m.id in models || |models| < 256 ==> r == models[m.id := m])
      && (evicted.Some? ==> evicted.value in models && evicted.value !in r && IsLeastUsed(models, evicted.value))
      && (forall x :: IsPinned(models, x) && x != m.id ==> IsPinned(r, x))
      && (m.id !in models && |models| >= 256 ==>
           (|r| == |models| + 1 <==> forall x :: x in models ==> IsPinned(models, x)) && |models| <= |r|)
      && (m.id in models ==> r.Keys == models.Keys)
  {
    var kept := if evicted.Some? then models - {evicted.value} else models;
    var r := Registered(models, m, evicted);
    assert r.Keys == kept.Keys + {m.id};
    assert |r| == |r.Keys| && |kept| == |kept.Keys| && |models| == |models.Keys|;
    if evicted.Some? {
      assert kept.Keys == models.Keys - {evicted.value};
    }
  }

  // ----- size over whole runs -----

  datatype Op =
    | RegisterOp(m: Model, evicted: Option<ModelId>)
    | RemoveOp(id: ModelId)
    | PinOp(id: ModelId, plane: PlaneId)

  ghost predicate Enabled(models: map<ModelId, Model>, op: Op) {
    op.RegisterOp? ==> MayEvict(models, op.m, op.evicted)
  }

  function Apply(models: map<ModelId, Model>, op: Op): map<ModelId, Model> {
    match op
    case RegisterOp(m, evicted) => Registered(models, m, evicted)
    case RemoveOp(id) => models - {id}
    case PinOp(id, plane) => Pinned(models, id, plane)
  }

  ghost predicate Legal(models: map<ModelId, Model>, ops: seq<Op>)
    decreases |ops|
  {
    ops == [] || (Enabled(models, ops[0]) && Legal(Apply(models, ops[0]), ops[1..]))
  }

  function Exec(models: map<ModelId, Model>, ops: seq<Op>): map<ModelId, Model>
    decreases |ops|
  {
    if ops == [] then models else Exec(Apply(models, ops[0]), ops[1..])
  }

  function PinnedCount(models: map<ModelId, Model>): nat {
    |set id | id in models && IsPinned(models, id)|
  }

  /** The largest number of pinned models that any state of the run holds. */
  function PeakPinned(models: map<ModelId, Model>, ops: seq<Op>): nat
    decreases |ops|
  {
    if ops == [] then PinnedCount(models)
    else Max(PinnedCount(models), PeakPinned(Apply(models, ops[0]), ops[1..]))
  }

  lemma RegistrationSize(models: map<ModelId, Model>, m: Model, evicted: Option<ModelId>)
    requires MayEvict(models, m, evicted)
    ensures |Registered(models, m, evicted)| <= Max(Max(CAPACITY, |models|), 1 + PinnedCount(models))
  {
    var kept := if evicted.Some? then models - {evicted.value} else models;
    var r := Registered(models, m, evicted);
    assert r.Keys == kept.Keys + {m.id};
    assert |r| == |r.Keys| && |models| == |models.Keys|;
    if m.id in models {
      assert r.Keys == models.Keys;
    } else if evicted.Some? {
      assert kept.Keys == models.Keys - {evicted.value};
      assert |kept.Keys| == |models| - 1;
    } else if |models| >= CAPACITY {
      assert (set id | id in models && IsPinned(models, id)) == models.Keys;
    }
  }

  lemma StepSize(models: map<ModelId, Model>, op: Op)
    requires Enabled(models, op)
    ensures |Apply(models, op)| <= Max(Max(CAPACITY, |models|), 1 + PinnedCount(models))
  {
    match op
    case RegisterOp(m, evicted) => RegistrationSize(models, m, evicted);
    case RemoveOp(id) =>
      assert (models - {id}).Keys == models.Keys - {id};
      assert |(models - {id}).Keys| <= |models.Keys|;
    case PinOp(id, plane) => assert Pinned(models, id, plane).Keys == models.Keys;
  }

  lemma {:induction false} RunSize(models: map<ModelId, Model>, ops: seq<Op>, bound: nat)
    requires Legal(models, ops) && |models| <= bound && CAPACITY <= bound && 1 + PeakPinned(models, ops) <= bound
    ensures |Exec(models, ops)| <= bound
    decreases |ops|
  {
    if ops != [] {
      StepSize(models, ops[0]);
      RunSize(Apply(models, ops[0]), ops[1..], bound);
    }
  }

  /** Starting empty, the registry never holds more than its capacity, or one more than the largest number of pinned
      models it ever had. */
  lemma SizeBound(ops: seq<Op>)
    requires Legal(map[], ops)
    ensures |Exec(map[], ops)| <= Max(256, 1 + PeakPinned(map[], ops))
  {
    RunSize(map[], ops, Max(CAPACITY, 1 + PeakPinned(map[], ops)));
  }

  // ----- pinning -----

  /** A known model becomes pinned on the plane and keeps everything else; no other model changes, and an unknown one changes
      nothing. */
  lemma PinningEffect(models: map<ModelId, Model>, id: ModelId, plane: PlaneId)
    ensures var r := Pinned(models, id, plane);
      && r.Keys == models.Keys
      && (forall x :: x in models && x != id ==> r[x] == models[x])
      && (id in models ==>
           && r[id].placement.PinnedTriage? && r[id].residentPlane == Some(plane)
           && r[id].id == models[id].id
           && r[id].accessCount == models[id].accessCount && r[id].lastAccessed == models[id].lastAccessed
           && IsPinned(r, id) && !IsVictim(r, id))
  {
  }

  /** The operation pins, removes or replaces this very model. */
  predicate Concerns(op: Op, id: ModelId) {
    match op
    case RegisterOp(m, _) => m.id == id
    case RemoveOp(x) => x == id
    case PinOp(x, _) => x == id
  }

  lemma StepKeepsPinned(models: map<ModelId, Model>, op: Op, id: ModelId)
    requires Enabled(models, op) && IsPinned(models, id)
    ensures !Concerns(op, id) ==> id in Apply(models, op) && Apply(models, op)[id] == models[id]
    ensures op.PinOp? ==> IsPinned(Apply(models, op), id)
  {
  }

  /** Whatever else is registered, removed and pinned, however full the registry: a pinned model is not evicted. It stays, and
      stays pinned, until it is itself removed or registered anew, and all of it stays as it is until it is pinned again. */
  lemma {:induction false} PinnedStays(models: map<ModelId, Model>, ops: seq<Op>, id: ModelId)
    requires Legal(models, ops) && IsPinned(models, id)
    requires forall k :: 0 <= k < |ops| && Concerns(ops[k], id) ==> ops[k].PinOp?
    ensures var r := Exec(models, ops);
      && id in r && r[id].placement.PinnedTriage?
      && ((forall k :: 0 <= k < |ops| ==> !Concerns(ops[k], id)) ==> r[id] == models[id])
    decreases |ops|
  {
    if ops != [] {
      StepKeepsPinned(models, ops[0], id);
      assert Concerns(ops[0], id) ==> ops[0].PinOp?;
      forall k | 0 <= k < |ops| - 1 ensures ops[1..][k] == ops[k + 1] {
      }
      PinnedStays(Apply(models, ops[0]), ops[1..], id);
    }
  }
}
