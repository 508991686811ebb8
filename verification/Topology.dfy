/** Compute planes: lookup, the double charge of unified-memory planes, plane selection and the triage enclave. */
module Topology {
  import opened Numbers
  import opened Leases

  datatype Kind = DiscreteGpu | IntegratedUma | NpuAccelerator | CpuMatrixExtension

  datatype Plane = Plane(
    id: PlaneId, kind: Kind, total: nat, available: nat, triageReserved: bool, quarantined: bool)

  /** The first plane named `id`, or `|planes|` when there is none. */
  function IndexOf(planes: seq<Plane>, id: PlaneId): (i: nat)
    ensures i <= |planes|
    ensures i < |planes| ==> planes[i].id == id
    ensures forall k :: 0 <= k < i ==> planes[k].id != id
  {
    if planes == [] || planes[0].id == id then 0 else 1 + IndexOf(planes[1..], id)
  }

  /** The first CPU plane, or `|planes|` when there is none. */
  function FirstCpu(planes: seq<Plane>): (i: nat)
    ensures i <= |planes|
    ensures i < |planes| ==> planes[i].kind.CpuMatrixExtension?
    ensures forall k :: 0 <= k < i ==> !planes[k].kind.CpuMatrixExtension?
  {
    if planes == [] || planes[0].kind.CpuMatrixExtension? then 0 else 1 + FirstCpu(planes[1..])
  }

  /** The first plane reserved for triage, or `|planes|` when there is none. */
  function FirstReserved(planes: seq<Plane>): (i: nat)
    ensures i <= |planes|
    ensures i < |planes| ==> planes[i].triageReserved
    ensures forall k :: 0 <= k < i ==> !planes[k].triageReserved
  {
    if planes == [] || planes[0].triageReserved then 0 else 1 + FirstReserved(planes[1..])
  }

  ghost predicate UniqueIds(planes: seq<Plane>) {
    forall i, j :: 0 <= i < j < |planes| ==> planes[i].id != planes[j].id
  }

  ghost predicate WithinTotals(planes: seq<Plane>) {
    forall i :: 0 <= i < |planes| ==> planes[i].available <= planes[i].total
  }

  /** What discovery hands to the arbiter. */
  ghost predicate GoodTopology(planes: seq<Plane>) {
    UniqueIds(planes) && WithinTotals(planes)
  }

  /** Equal but for the available bytes. */
  ghost predicate SameLayout(p: seq<Plane>, q: seq<Plane>) {
    && |p| == |q|
    && forall i :: 0 <= i < |p| ==> p[i].(available := 0) == q[i].(available := 0)
  }

  lemma SameLayoutLookups(p: seq<Plane>, q: seq<Plane>)
    requires SameLayout(p, q)
    ensures forall id :: IndexOf(p, id) == IndexOf(q, id)
    ensures FirstCpu(p) == FirstCpu(q)
    ensures UniqueIds(p) <==> UniqueIds(q)
  {
    forall i | 0 <= i < |p| ensures p[i].id == q[i].id && p[i].kind == q[i].kind {
      assert p[i].(available := 0) == q[i].(available := 0);
    }
    forall id ensures IndexOf(p, id) == IndexOf(q, id) {
      var i, j := IndexOf(p, id), IndexOf(q, id);
      assert i < |p| ==> p[i].id == q[i].id;
      assert j < |q| ==> p[j].id == q[j].id;
    }
    var i, j := FirstCpu(p), FirstCpu(q);
    assert i < |p| ==> p[i].kind == q[i].kind;
    assert j < |q| ==> p[j].kind == q[j].kind;
  }

  lemma IndexOfUnique(planes: seq<Plane>, i: nat)
    requires UniqueIds(planes) && i < |planes|
    ensures IndexOf(planes, planes[i].id) == i
  {
  }

  /** A charge on plane `i` is felt by plane `j`: its own plane and, for unified memory, the first CPU plane. */
  predicate Touches(planes: seq<Plane>, i: nat, j: nat) {
    i < |planes| && (j == i || (planes[i].kind.IntegratedUma? && j == FirstCpu(planes)))
  }

  function TakeAt(planes: seq<Plane>, i: nat, bytes: nat): (r: seq<Plane>)
    ensures SameLayout(planes, r)
    ensures forall j :: 0 <= j < |planes| ==>
      r[j].available == if j == i then SatSub(planes[j].available, bytes) else planes[j].available
  {
    if i < |planes| then planes[i := planes[i].(available := SatSub(planes[i].available, bytes))] else planes
  }

  function GiveAt(planes: seq<Plane>, i: nat, bytes: nat): (r: seq<Plane>)
    ensures SameLayout(planes, r)
    ensures forall j :: 0 <= j < |planes| ==>
      r[j].available == if j == i then Min(planes[j].available + bytes, planes[j].total) else planes[j].available
  {
    if i < |planes| then planes[i := planes[i].(available := Min(planes[i].available + bytes, planes[i].total))] else planes
  }

  /** Writing available bytes does not move the first CPU plane, nor make it the unified-memory plane written. */
  lemma SameCpu(p: seq<Plane>, q: seq<Plane>, i: nat)
    requires SameLayout(p, q) && i < |p| && p[i].kind.IntegratedUma?
    ensures FirstCpu(p) == FirstCpu(q) != i
  {
    var c, d := FirstCpu(p), FirstCpu(q);
    assert c < |p| ==> p[c].(available := 0) == q[c].(available := 0);
    assert d < |p| ==> p[d].(available := 0) == q[d].(available := 0);
  }

  lemma SameLayoutTrans(p: seq<Plane>, q: seq<Plane>, r: seq<Plane>)
    requires SameLayout(p, q) && SameLayout(q, r)
    ensures SameLayout(p, r)
  {
  }

  lemma SameTotals(p: seq<Plane>, q: seq<Plane>)
    requires SameLayout(p, q)
    ensures forall j :: 0 <= j < |p| ==> p[j].total == q[j].total
  {
    forall j | 0 <= j < |p| ensures p[j].total == q[j].total {
      assert p[j].(available := 0) == q[j].(available := 0);
    }
  }

  /** Subtracts a grant from plane `i`, and from the first CPU plane when `i` shares host memory. */
  function Take(planes: seq<Plane>, i: nat, bytes: nat): (r: seq<Plane>)
    requires i < |planes|
    ensures SameLayout(planes, r)
    ensures forall j :: 0 <= j < |planes| ==>
      r[j].available == if Touches(planes, i, j) then SatSub(planes[j].available, bytes) else planes[j].available
  {
    var own := TakeAt(planes, i, bytes);
    if planes[i].kind.IntegratedUma? then
      var both := TakeAt(own, FirstCpu(own), bytes);
      SameCpu(planes, own, i);
      SameLayoutTrans(planes, own, both);
      both
    else own
  }

  /** `restore_plane_memory`: adds the bytes back, clamped to the plane's total. */
  function Give(planes: seq<Plane>, i: nat, bytes: nat): (r: seq<Plane>)
    requires i < |planes|
    ensures SameLayout(planes, r)
    ensures forall j :: 0 <= j < |planes| ==>
      r[j].available == if Touches(planes, i, j) then Min(planes[j].available + bytes, planes[j].total) else planes[j].available
  {
    var own := GiveAt(planes, i, bytes);
    if planes[i].kind.IntegratedUma? then
      var both := GiveAt(own, FirstCpu(own), bytes);
      SameCpu(planes, own, i);
      SameLayoutTrans(planes, own, both);
      SameTotals(planes, own);
      both
    else own
  }

  /** `max_by_key` after a `filter`: the last index of a largest key, `|keys|` when every entry was filtered out. */
  function LastMax(keys: seq<Option<nat>>): (i: nat)
    ensures i <= |keys|
    ensures i == |keys| <==> forall k :: 0 <= k < |keys| ==> keys[k].None?
    ensures i < |keys| ==> keys[i].Some?
    ensures i < |keys| ==> forall k :: 0 <= k < |keys| && keys[k].Some? ==> keys[k].value <= keys[i].value
    ensures i < |keys| ==> forall k :: i < k < |keys| && keys[k].Some? ==> keys[k].value < keys[i].value
  {
    if keys == [] then 0
    else
      var n := |keys| - 1;
      var best := LastMax(keys[..n]);
      assert forall k :: 0 <= k < n ==> keys[..n][k] == keys[k];
      if keys[n].Some? && (best == n || keys[best].value <= keys[n].value) then n
      else if best == n then n + 1
      else best
  }

  /** A plane that a request naming no plane may be given. */
  predicate Open(p: Plane) {
    !p.quarantined && !p.triageReserved
  }

  function OpenKeys(planes: seq<Plane>): seq<Option<nat>> {
    seq(|planes|, i requires 0 <= i < |planes| => if Open(planes[i]) then Some(planes[i].available) else None)
  }

  function TotalKeys(planes: seq<Plane>): seq<Option<nat>> {
    seq(|planes|, i requires 0 <= i < |planes| => Some(planes[i].total))
  }

  /** The plane that `acquire_lease` works on. */
  function SelectPlane(planes: seq<Plane>, req: Request): (r: Result<nat>)
    ensures r.Ok? ==> r.value < |planes|
    ensures r.Err? ==> r.error.PlaneNotFound?
  {
    if req.preferred.Some? then
      var i := IndexOf(planes, req.preferred.value);
      if i < |planes| then Ok(i) else Err(PlaneNotFound(req.preferred))
    else if req.priority.EmergencyTriage? then
      var reserved := FirstReserved(planes);
      var cpu := FirstCpu(planes);
      var biggest := LastMax(TotalKeys(planes));
      if reserved < |planes| then Ok(reserved)
      else if cpu < |planes| then Ok(cpu)
      else if biggest < |planes| then Ok(biggest)
      else Err(PlaneNotFound(None))
    else
      var best := LastMax(OpenKeys(planes));
      if best < |planes| then Ok(best) else Err(PlaneNotFound(None))
  }

  /** A request that names no plane and is not an emergency gets a roomiest open plane; it fails only when none is open. */
  lemma OrdinarySelection(planes: seq<Plane>, req: Request)
    requires req.preferred.None? && (req.priority.Batch? || req.priority.Interactive?)
    ensures SelectPlane(planes, req).Ok? <==> exists k :: 0 <= k < |planes| && !planes[k].quarantined && !planes[k].triageReserved
    ensures SelectPlane(planes, req).Err? ==> SelectPlane(planes, req).error == PlaneNotFound(None)
    ensures SelectPlane(planes, req).Ok? ==>
      var t := SelectPlane(planes, req).value;
      && !planes[t].quarantined && !planes[t].triageReserved
      && (forall k :: 0 <= k < |planes| && !planes[k].quarantined && !planes[k].triageReserved ==>
           planes[k].available <= planes[t].available && (t < k ==> planes[k].available < planes[t].available))
  {
    var keys := OpenKeys(planes);
    assert forall k :: 0 <= k < |planes| ==> (keys[k].Some? <==> Open(planes[k]));
    if k :| 0 <= k < |planes| && !planes[k].quarantined && !planes[k].triageReserved {
      assert keys[k].Some?;
    }
    if SelectPlane(planes, req).Ok? {
      var t := SelectPlane(planes, req).value;
      assert keys[t].Some?;
      forall k | 0 <= k < |planes| && !planes[k].quarantined && !planes[k].triageReserved
        ensures planes[k].available <= planes[t].available
        ensures t < k ==> planes[k].available < planes[t].available
      {
        assert keys[k].Some?;
      }
    }
  }

  /** An emergency request that names no plane gets the first plane reserved for triage, else the first CPU plane, else
      the last of the largest planes, quarantined or not; only an empty topology turns it away. */
  lemma EmergencySelection(planes: seq<Plane>, req: Request)
    requires req.preferred.None? && req.priority.EmergencyTriage?
    ensures SelectPlane(planes, req).Ok? <==> planes != []
    ensures SelectPlane(planes, req).Err? ==> SelectPlane(planes, req).error == PlaneNotFound(None)
    ensures SelectPlane(planes, req).Ok? ==>
      var t := SelectPlane(planes, req).value;
      if exists k :: 0 <= k < |planes| && planes[k].triageReserved then
        planes[t].triageReserved && forall k :: 0 <= k < t ==> !planes[k].triageReserved
      else if exists k :: 0 <= k < |planes| && planes[k].kind.CpuMatrixExtension? then
        planes[t].kind.CpuMatrixExtension? && forall k :: 0 <= k < t ==> !planes[k].kind.CpuMatrixExtension?
      else
        && (forall k :: 0 <= k < |planes| ==> planes[k].total <= planes[t].total)
        && (forall k :: t < k < |planes| ==> planes[k].total < planes[t].total)
  {
    var keys := TotalKeys(planes);
    assert forall k :: 0 <= k < |planes| ==> keys[k] == Some(planes[k].total);
  }

  /** A request that names a plane gets it, quarantined, reserved or full, and fails only when no plane bears the name. */
  lemma PreferredSelection(planes: seq<Plane>, req: Request)
    requires req.preferred.Some?
    ensures SelectPlane(planes, req).Ok? <==> exists k :: 0 <= k < |planes| && planes[k].id == req.preferred.value
    ensures SelectPlane(planes, req).Ok? ==>
      var t := SelectPlane(planes, req).value;
      planes[t].id == req.preferred.value && forall k :: 0 <= k < t ==> planes[k].id != req.preferred.value
    ensures SelectPlane(planes, req).Err? ==> SelectPlane(planes, req).error == PlaneNotFound(req.preferred)
  {
    if k :| 0 <= k < |planes| && planes[k].id == req.preferred.value {
      assert IndexOf(planes, req.preferred.value) <= k;
    }
  }

  const CPU_TRIAGE_RESERVED_BYTES: nat := 2 * 1024 * 1024 * 1024

  /** The index of the first plane of kind `kind` that is not quarantined, `|planes|` when there is none. */
  function FirstHealthy(planes: seq<Plane>, kind: Kind): (i: nat)
    ensures i <= |planes|
    ensures i < |planes| ==> planes[i].kind == kind && !planes[i].quarantined
    ensures forall k :: 0 <= k < i ==> planes[k].kind != kind || planes[k].quarantined
  {
    if planes == [] || (planes[0].kind == kind && !planes[0].quarantined) then 0
    else 1 + FirstHealthy(planes[1..], kind)
  }

  /** `after` is `before` with plane `e` turned into the triage enclave: a healthy NPU is reserved; otherwise, when no
      NPU is healthy, a healthy CPU plane sets the same number of bytes aside from what it has available and in total,
      at most 2 GiB and at most a quarter of what was available. */
  ghost predicate IsEnclave(before: seq<Plane>, after: seq<Plane>, e: nat) {
    && e < |before| == |after|
    && !before[e].quarantined
    && (forall k :: 0 <= k < e && before[k].kind == before[e].kind ==> before[k].quarantined)
    && (forall k :: 0 <= k < |before| && k != e ==> after[k] == before[k])
    && if before[e].kind.NpuAccelerator? then after[e] == before[e].(triageReserved := true)
       else
         && before[e].kind.CpuMatrixExtension?
         && (forall k :: 0 <= k < |before| && before[k].kind.NpuAccelerator? ==> before[k].quarantined)
         && before[e].available - after[e].available == Min(2147483648, before[e].available / 4)
         && after[e] == before[e].(triageReserved := false, available := after[e].available, total := after[e].total)
         && 3 * before[e].available <= 4 * after[e].available
         && (before[e].available <= before[e].total ==>
             before[e].total - after[e].total == before[e].available - after[e].available)
  }

  /** Picks the triage enclave in place; a good topology stays good, and nothing changes when every NPU and CPU plane
      is quarantined. */
  method AssignTriageEnclave(planes: array<Plane>) returns (chosen: Option<PlaneId>)
    modifies planes
    ensures old(GoodTopology(planes[..])) ==> GoodTopology(planes[..])
    ensures chosen.None? ==> planes[..] == old(planes[..])
    ensures chosen.None? <==> forall k :: 0 <= k < planes.Length && !old(planes[k]).quarantined ==>
      !old(planes[k]).kind.NpuAccelerator? && !old(planes[k]).kind.CpuMatrixExtension?
    ensures chosen.Some? ==> exists e ::
      0 <= e < planes.Length && chosen == Some(old(planes[e]).id) && IsEnclave(old(planes[..]), planes[..], e)
  {
    ghost var was := planes[..];
    var npu := FirstHealthy(planes[..], NpuAccelerator);
    if npu < planes.Length {
      planes[npu] := planes[npu].(triageReserved := true);
      assert forall k :: 0 <= k < planes.Length ==> planes[..][k].id == was[k].id;
      assert IsEnclave(was, planes[..], npu);
      return Some(planes[npu].id);
    }
    var cpu := FirstHealthy(planes[..], CpuMatrixExtension);
    if cpu < planes.Length {
      var p := planes[cpu].(triageReserved := false);
      var quota := Min(CPU_TRIAGE_RESERVED_BYTES, p.available / 4);
      p := p.(available := SatSub(p.available, quota));
      p := p.(total := SatSub(p.total, quota));
      planes[cpu] := p;
      assert forall k :: 0 <= k < planes.Length ==> planes[..][k].id == was[k].id;
      assert IsEnclave(was, planes[..], cpu);
      return Some(p.id);
    }
    return None;
  }
}
