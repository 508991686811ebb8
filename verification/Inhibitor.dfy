/** The sleep inhibitor: a counter driven by sampled lease counts and a handle taken when it leaves zero. */
module Inhibitor {
  import opened Leases

  const USIZE_MAX: nat := 0xFFFF_FFFF_FFFF_FFFF

  datatype Handle = SystemdInhibit | FileLock | BusSocket

  /** Which of the three mechanisms would work right now. */
  datatype Host = Host(spawns: bool, locks: bool, connects: bool)

  /** The first mechanism that works, in the order in which they are tried. */
  function Attempt(preferStandalone: bool, host: Host): Option<Handle> {
    if !preferStandalone && host.spawns then Some(SystemdInhibit)
    else if host.locks then Some(FileLock)
    else if host.connects then Some(BusSocket)
    else None
  }

  class InhibitorManager {
    var activeLeases: nat
    var isInhibited: bool
    var activeHandle: Option<Handle>
    const preferStandalone: bool

    ghost predicate Valid()
      reads this
    {
      && activeLeases <= USIZE_MAX
      && (isInhibited <==> activeHandle.Some?)
      && (activeLeases == 0 ==> activeHandle.None?)
    }

    constructor (preferStandalone: bool)
      ensures Valid() && activeLeases == 0 && this.preferStandalone == preferStandalone
    {
      this.preferStandalone := preferStandalone;
      activeLeases, isInhibited, activeHandle := 0, false, None;
    }

    method AcquireInhibitLock(host: Host)
      modifies this`isInhibited, this`activeHandle
      ensures activeHandle == if old(activeHandle).Some? then old(activeHandle) else Attempt(preferStandalone, host)
      ensures isInhibited == (old(isInhibited) || (old(activeHandle).None? && activeHandle.Some?))
    {
      if activeHandle.Some? {
        return;
      }
      if !preferStandalone && host.spawns {
        activeHandle, isInhibited := Some(SystemdInhibit), true;
        return;
      }
      if host.locks {
        activeHandle, isInhibited := Some(FileLock), true;
        return;
      }
      if host.connects {
        activeHandle, isInhibited := Some(BusSocket), true;
      }
    }

    method ReleaseInhibitLock()
      modifies this`isInhibited, this`activeHandle
      ensures activeHandle.None?
      ensures isInhibited == (old(isInhibited) && old(activeHandle).None?)
    {
      if activeHandle.Some? {
        activeHandle, isInhibited := None, false;
      }
    }

    method OnLeaseAcquired(host: Host)
      requires Valid() && activeLeases < USIZE_MAX
      modifies this
      ensures Valid() && activeLeases == old(activeLeases) + 1
      ensures activeHandle == if old(activeLeases) == 0 then Attempt(preferStandalone, host) else old(activeHandle)
    {
      var before := activeLeases;
      activeLeases := activeLeases + 1;
      if before == 0 {
        AcquireInhibitLock(host);
      }
    }

    /** `fetch_sub` on zero would wrap around; the monitor never lets that happen. */
    method OnLeaseReleased()
      requires Valid() && activeLeases > 0
      modifies this
      ensures Valid() && activeLeases == old(activeLeases) - 1
      ensures activeHandle == if activeLeases == 0 then None else old(activeHandle)
    {
      var before := activeLeases;
      activeLeases := activeLeases - 1;
      if before == 1 {
        ReleaseInhibitLock();
      }
    }

    /** One round of the monitor loop: moves the counter from the previous sample to the new one, a call at a time. */
    method Tick(prevCount: nat, count: nat, host: Host)
      requires Valid() && activeLeases == prevCount && count <= USIZE_MAX
      modifies this
      ensures Valid() && activeLeases == count
      ensures Watched(count, activeHandle) == Watch(preferStandalone, Watched(prevCount, old(activeHandle)), Sample(count, host))
    {
      if count > prevCount {
        for i := 0 to count - prevCount
          invariant Valid() && activeLeases == prevCount + i
          invariant activeHandle ==
            if i == 0 then old(activeHandle) else if prevCount == 0 then Attempt(preferStandalone, host) else old(activeHandle)
        {
          OnLeaseAcquired(host);
        }
      } else if count < prevCount {
        for i := 0 to prevCount - count
          invariant Valid() && activeLeases == prevCount - i
          invariant activeHandle == if activeLeases == 0 then None else old(activeHandle)
        {
          OnLeaseReleased();
        }
      }
    }

    /** The monitor loop over a sequence of samples. */
    method Monitor(samples: seq<Sample>)
      requires Valid() && activeLeases == 0 && forall i :: 0 <= i < |samples| ==> samples[i].count <= USIZE_MAX
      modifies this
      ensures Valid()
      ensures Watched(activeLeases, activeHandle) == WatchAll(preferStandalone, samples)
    {
      var prevCount := 0;
      for i := 0 to |samples|
        invariant Valid() && activeLeases == prevCount
        invariant Watched(activeLeases, activeHandle) == WatchAll(preferStandalone, samples[..i])
      {
        assert samples[..i + 1][..i] == samples[..i];
        Tick(prevCount, samples[i].count, samples[i].host);
        prevCount := samples[i].count;
      }
      assert samples[..|samples|] == samples;
    }
  }

  /** How many active leases the arbiter lists at a tick, and which mechanisms work then. */
  datatype Sample = Sample(count: nat, host: Host)

  datatype Watched = Watched(count: nat, handle: Option<Handle>)

  function Watch(preferStandalone: bool, w: Watched, next: Sample): Watched {
    Watched(next.count,
            if next.count == 0 then None
            else if w.count == 0 then Attempt(preferStandalone, next.host)
            else w.handle)
  }

  function WatchAll(preferStandalone: bool, samples: seq<Sample>): Watched {
    if samples == [] then Watched(0, None)
    else Watch(preferStandalone, WatchAll(preferStandalone, samples[..|samples| - 1]), samples[|samples| - 1])
  }

  /** The sample at which the current busy period began, `|samples|` when there is none. */
  function BusySince(samples: seq<Sample>): (r: nat)
    ensures r <= |samples|
    ensures r == |samples| <==> samples == [] || samples[|samples| - 1].count == 0
    ensures forall i :: r <= i < |samples| ==> samples[i].count > 0
    ensures 0 < r < |samples| ==> samples[r - 1].count == 0
  {
    if samples == [] || samples[|samples| - 1].count == 0 then |samples| else BusySince(samples[..|samples| - 1])
  }

  lemma {:induction false} SinceBegin(preferStandalone: bool, samples: seq<Sample>)
    ensures var w := WatchAll(preferStandalone, samples); var r := BusySince(samples);
      && w.count == (if samples == [] then 0 else samples[|samples| - 1].count)
      && w.handle == if r < |samples| then Attempt(preferStandalone, samples[r].host) else None
    decreases |samples|
  {
    if samples != [] {
      SinceBegin(preferStandalone, samples[..|samples| - 1]);
    }
  }

  /** Sleep is inhibited exactly while the last sample shows active leases and one of the mechanisms worked at the tick at
      which the current busy period began, and by the first that worked then: systemd-inhibit unless standalone mode is
      preferred, else the lock file, else the bus socket. A failed attempt is not repeated until the leases have been gone
      once. */
  lemma InhibitedSince(preferStandalone: bool, samples: seq<Sample>)
    ensures var w, r := WatchAll(preferStandalone, samples), BusySince(samples);
      && w.count == (if samples == [] then 0 else samples[|samples| - 1].count)
      && (w.count == 0 ==> w.handle.None?)
      && (w.count > 0 ==>
           && r < |samples|
           && var host := samples[r].host; var forked := !preferStandalone && host.spawns;
              && (w.handle == Some(SystemdInhibit) <==> forked)
              && (w.handle == Some(FileLock) <==> !forked && host.locks)
              && (w.handle == Some(BusSocket) <==> !forked && !host.locks && host.connects))
  {
    SinceBegin(preferStandalone, samples);
  }
}
