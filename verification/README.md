# A verified model of systemd-inferenced

This project models the compute broker of systemd-inferenced and proves what it keeps over whole runs: the memory ledger
and lease life cycle of the arbiter, the memfd quota and request reader of the FD server, the two-tier preemption
coordinator, the reclaim of Varlink sessions, the model registry and the sleep inhibitor.

`dafny verify dfyconfig.toml` checks everything.

## How it is laid out

- `Leases`, `Topology`: leases, priorities, planes, lookups, plane selection, the double charge of unified-memory planes,
  and the triage enclave, which is assigned in place on an array.
- `ArbiterSpec`: the arbiter as a state machine, one function per operation. Every operation of the original runs under
  one write lock, so each is one atomic step. The state also carries history that no operation reads: the topology last
  installed, a journal of every byte charged or credited since then, and all lease identifiers handed out.
- `ArbiterObject`: the arbiter as a class whose methods update `planes` and `leases` in place, each proved equal to the state
  machine's step.
- `Ledger`, `Hotplug`, `Runs`, `Preemption`, `Grants`, `ThawStorm`, `Lockstep`, `Overflow`: the results about the arbiter,
  over natural numbers. `Machine` is the arbiter again with the 64-bit restore, which wraps around, and says when the two agree;
  `Returns` says from which states on everything can be given back on that machine.
- `FdQuota`, `FdQuotaObject`, `FramedReader`: the FD server. `FdQuota` interleaves any number of handlers over one atomic
  cell; `FdQuotaObject` is the quota's own loop with other threads writing between its accesses.
- `Coordinator`, `Varlink`: step machines of asynchronous functions. Between any two steps of a call, any operations of
  anyone else may happen; this is what the await points allow.
- `Registry`, `Inhibitor`: classes, with the monitor loop that drives the inhibitor.
- `Numbers`, `Sums`: 64-bit arithmetic and finite sums.

The order in which a hash map yields its entries is a parameter of the operations that depend on it, constrained only as
the code constrains it; results hold for every order. Lease identifiers are fresh: `Uuid::new_v4` is taken not to repeat.
Topologies have distinct plane names and no plane with more available than its total, which is what discovery builds
(crates/inferenced-core/src/topology/mod.rs:14-53). The pressure level, signals to processes, memfd creation and sending
are arbitrary inputs.

## What holds, and what does not

- The ledger balances exactly: available bytes, bytes of active leases and bytes dropped by the clamp of restores are
  together the installed bytes plus the shortfall, the bytes that saturating subtraction swallowed at grants and topology
  updates; never more is dropped than fell short (`LedgerBalances`). Plain conservation is false: a forced emergency grant,
  or an ordinary grant on a unified-memory plane whose host plane is short, subtracts less than it later restores. From a
  state that conserves a plane, an operation conserves it exactly when it does not overdraw it. For a request the overdraft
  is told from the state before the call: the request, if it can be granted, minus what the plane has once the shortest
  sufficient prefix of victims is given back (`AcquireConservesIff`, `LoopAvailability`, `OverdraftOnTarget`,
  `LeaseOpsConserve`, `UpdateConservesIff`; `HostOverdraftWitness` is a concrete ordinary grant).
- Over natural numbers nothing leaks: a plane that no active lease burdens has at least its installed bytes available again.
  On the wrapping machine this holds of every run whose sums fit in 64 bits (`MachineRecovery`), and not of all runs: four
  operations with overlapping forced emergency grants lose a byte for good (`LeakWitness`).
- A granted request is told a lease that nobody was told before, and that is the one that entered the table
  (`HandedOutOnce`). Whoever asks for what, an emergency lease is never preempted, an interactive one only after an
  emergency request, and no interactive lease makes room while an active batch lease of the plane is spared
  (`PreemptedOnlyBy`, `VictimsOfGrant`).
- A request refused for lack of memory has already preempted every lower-priority lease of the plane, whose owners are not
  told (`VictimsOfRefusal`). Nothing rolls this back; on a conserving state, thawing the victims in any order would
  (`RefusalUndone`).
- `restore_plane_memory` adds 64-bit numbers without saturation, and a short run of forced emergency grants makes the sum
  overflow (`OverflowWitness`). The machine goes through the intended run, also half-way through preemption loops, exactly
  when every sum of every operation fits, which the state before the operation tells (`OpAgreesIff`, `RunAgreesIff`). From a
  given state, everything can be given back in every order exactly when each active lease can be the last to come back to
  each plane that carries it: the smaller of the plane's total and of its available bytes plus all it carries besides the
  lease, plus the lease, fits in 64 bits (`ReturnsAgreeIff`). This condition reads the present planes and leases only, so
  that an idle arbiter meets it whatever was charged before; in a state that meets it no operation overflows
  (`SafeOpFits`), and a plane whose available and charged bytes fit in 64 bits together meets it (`RoomyIsSafe`).
- The quota conserves its bytes under every interleaving exactly when its ceiling is below the largest 64-bit number, however
  small the largest request; the value that `release` loads may be any the cell has had since the caller's own reservation.
- Unified memory and host memory are one resource shown on two planes. Equal planes stay equal (`LockstepForever`);
  discovery, which reserves part of host memory (crates/inferenced-core/src/topology/cpu.rs:90-98), makes them unequal, and
  then their gap stays what was installed but for what fell short and spilled on each (`GapForever`).
- A coordinator record that says the lease was force-frozen does not mean the lease is frozen: a revoke may come between
  the last poll and the freeze, or a thaw between the freeze and the record (`RecordOutlivesLease`, two reachable worlds).
  The record and the lease follow two independent conditions, both exact (`RecordAgreesIff`): the record depends on the
  accepted signal, the lease on its state at the freeze and on what others do until the record is made.
- The coordinator drops completed records only, and a freeze whose signals all failed stays unfinished. The table holds at
  most 129 records or one more than it ever held unfinished (`RecordsBound`), and for every number there is a run that
  leaves that many behind although every call has returned (`RecordsGrow`).
- The request reader accepts a NUL up to offset 65536 and refuses one from offset 69632 on, for every way the stream is
  cut; in between, although the error text speaks of 64 KiB, the verdict depends on the cut (`BoundsAreTight`).
- A failed attempt to inhibit sleep is not repeated until the leases have been gone once (`InhibitedSince`).

## Model

| member | source | states |
|---|---|---|
| Topology.Take | crates/inferenced-core/src/arbiter.rs:135-142 | a grant is subtracted, saturating, from its plane and from the first CPU plane if it shares host memory, and from no other; nothing else about any plane changes |
| Topology.Give | crates/inferenced-core/src/arbiter.rs:236-246 | bytes come back, clamped to the total, on exactly the planes a grant is taken from |
| Topology.OrdinarySelection | crates/inferenced-core/src/arbiter.rs:87-93 | a request without a named plane gets the last of the roomiest planes that are neither quarantined nor reserved, and fails exactly when there is none |
| Topology.EmergencySelection | crates/inferenced-core/src/arbiter.rs:82-86 | an emergency gets the first reserved plane, else the first CPU plane, else the last of the largest, and fails exactly on an empty topology |
| Topology.PreferredSelection | crates/inferenced-core/src/arbiter.rs:79-81 | a named plane is used whatever its flags, and only an unknown name fails |
| Topology.AssignTriageEnclave | crates/inferenced-core/src/topology/triage.rs:8-31 | the enclave is a healthy NPU, else a healthy CPU plane that sets aside 2 GiB or a quarter of its available bytes from both counts; good topologies stay good; no healthy plane means no change |
| Hotplug.UpdateClosedForm | crates/inferenced-core/src/arbiter.rs:29-50 | for every visiting order, available ends at what was discovered minus what surviving active leases hold, exactly the live leases without a plane become revoked and all others stay as they are, and the ledger invariant holds from the new capacities |
| Hotplug.UpdateOrderIrrelevant | crates/inferenced-core/src/arbiter.rs:31-48 | planes and leases after an update do not depend on hash-map order |
| Runs.StepKeeps | crates/inferenced-core/src/arbiter.rs:29-233 | every operation keeps the ledger invariant: bounds on every plane, journal and table in agreement, live leases naming existing planes |
| Runs.LedgerBalances | crates/inferenced-core/src/arbiter.rs:96-142 | in every reachable state available, charged and spilled bytes are together exactly the installed ones and the shortfall, and no more is spilled than fell short |
| Runs.LedgerBound | crates/inferenced-core/src/arbiter.rs:96-142 | so available plus charged lies between installed and installed plus shortfall, and available never exceeds the total |
| Runs.FullRecovery | crates/inferenced-core/src/arbiter.rs:236-246 | over natural numbers, a plane no active lease burdens has at least its installed bytes available; one installed full is exactly full |
| Runs.ExactWithoutShortfall | crates/inferenced-core/src/arbiter.rs:236-240 | without shortfall the ledger is exact and the clamp of a restore never bites |
| Runs.ShortfallFixed | crates/inferenced-core/src/arbiter.rs:160-233 | release, revoke, yield, freeze and thaw never add to any plane's shortfall |
| Runs.ShortfallOfAcquire | crates/inferenced-core/src/arbiter.rs:96-142 | a request adds to the shortfall of each plane exactly its overdraft there, which is given in terms of the state before the call |
| Runs.AcquireConservesIff | crates/inferenced-core/src/arbiter.rs:96-147 | a request conserves a conserved plane if and only if, as the state before the call tells, it does not overdraw it |
| Runs.LeaseOpsConserve | crates/inferenced-core/src/arbiter.rs:160-233 | every operation on one lease conserves a conserved plane |
| Runs.UpdateConservesIff | crates/inferenced-core/src/arbiter.rs:29-50 | a topology update conserves a plane if and only if the leases carried over fit in it |
| Runs.CreditedOnce | crates/inferenced-core/src/arbiter.rs:105-113 | since the topology was installed, the movements of each lease alternate charge and credit for one plane and amount, end in a charge exactly while the lease is active, and replaying all movements gives the planes |
| Runs.StepMovesOnce | crates/inferenced-core/src/arbiter.rs:160-233 | a step records one charge when a lease becomes active, one credit when it stops, nothing otherwise |
| Runs.EndIsFinal | crates/inferenced-core/src/arbiter.rs:160-186 | a release ends a live lease expired and a revoke revoked, giving back what it holds; every further operation on it succeeds and changes nothing |
| Runs.NothingToDo | crates/inferenced-core/src/arbiter.rs:160-233 | all five operations report an unknown lease by name and change nothing; a preempted lease is not marked, a finished one and the thaw of an active one are left alone |
| Runs.MarksAreUndone | crates/inferenced-core/src/arbiter.rs:188-202 | yield and freeze mark an active lease without moving bytes, and a thaw restores the unmarked state exactly |
| Runs.ThawsIff | crates/inferenced-core/src/arbiter.rs:204-233 | a preempted lease thaws if and only if every plane that would carry it has room; a failed thaw changes nothing and names a plane that is short, its own first, with what is available there |
| Runs.StepFaith | crates/inferenced-core/src/arbiter.rs:29-233 | no step changes a lease's plane, size, priority or owner, or leaves expired or revoked, and only finished leases leave the table |
| Runs.TermsNeverChange | crates/inferenced-core/src/lease.rs:53-72 | over every run a lease's terms are the same whenever it is in the table |
| Runs.DeadForever | crates/inferenced-core/src/arbiter.rs:160-186 | expired, revoked and forgotten leases stay so through every continuation |
| Runs.ReferencesResolve | crates/inferenced-core/src/arbiter.rs:204-214 | every live lease names a current plane, so a thaw never reports a missing plane |
| Runs.TableAfterGrant | crates/inferenced-core/src/arbiter.rs:131-145 | after a grant the table has at most 129 entries or live leases only, and only finished leases were dropped |
| Preemption.GrantedIff | crates/inferenced-core/src/arbiter.rs:70-129 | a request is granted exactly when the state before the call says so, for every hash-map order: enough available bytes together with all leases of the plane that have to give way, capped by its total, or an emergency; who has to give way is spelled out by the names of the priorities |
| Preemption.LoopAvailability | crates/inferenced-core/src/arbiter.rs:96-114 | the preemption loop takes the shortest sufficient prefix of the order, and leaves every plane that carries the victims with their bytes, clamped, and any other plane as it was |
| Preemption.OverdraftOnTarget | crates/inferenced-core/src/arbiter.rs:115-142 | a grant overdraws its own plane by exactly what the plane's offer lacks, whatever the order, and otherwise only the host plane behind a unified-memory plane |
| Preemption.VictimsOfGrant | crates/inferenced-core/src/arbiter.rs:95-147 | the answer names the new lease with the requested terms; victims are a prefix of the priority order, none in vain, each of a lower priority by name, no interactive one while an active batch lease of the plane is spared; exactly they are signalled, and every other live lease is untouched |
| Preemption.VictimsOfRefusal | crates/inferenced-core/src/arbiter.rs:115-121 | a refusal for lack of memory leaves every eligible lease preempted, nobody signalled and the freed bytes reported; any other refusal changes nothing |
| Grants.AnswerKnown | crates/inferenced-core/src/arbiter.rs:66-147 | the exact answer to a request, told from the state before it: saturation, no plane, not enough memory with the bytes asked for and offered, or the new lease |
| Grants.StepHandsOut | crates/inferenced-core/src/arbiter.rs:66-148 | the lease that a step hands out was never issued before and is the one that enters the table; no other enters it |
| Grants.HandedOutOnce | crates/inferenced-core/src/arbiter.rs:144-147 | over every run no lease is handed out twice, and every lease ever in the table was handed out |
| Grants.StepPreempts | crates/inferenced-core/src/arbiter.rs:95-113 | a lease becomes preempted only through a request that works on its plane and that it has to give way to |
| Grants.PreemptedOnlyBy | crates/inferenced-core/src/lease.rs:19-27 | over every run an emergency lease is never preempted, an interactive one only after an emergency request, a batch one only after an emergency or interactive request |
| ThawStorm.StormDrainsIff | crates/inferenced-core/src/arbiter.rs:204-233 | preempted leases all thaw one after the other, in any order, if and only if every plane has room for all of them together |
| ThawStorm.StormDrains | crates/inferenced-core/src/arbiter.rs:204-233 | they do whenever they fit under the installed capacity together with the active leases |
| ThawStorm.PreemptionUndone | crates/inferenced-core/src/arbiter.rs:95-147 | when the state before the call shows no overdraft, releasing a grant and thawing its victims in any order succeeds and restores every plane to the byte |
| ThawStorm.RefusalUndone | crates/inferenced-core/src/arbiter.rs:115-121 | thawing everyone a refused request preempted, in any order, succeeds and restores every plane to the byte |
| Lockstep.LockstepForever | crates/inferenced-core/src/arbiter.rs:33-40 | over every run in which no request is served by the CPU plane itself, the one unified-memory plane and the first CPU plane show equal availability |
| Lockstep.StartsInLockstep | crates/inferenced-core/src/arbiter.rs:22-26 | an arbiter whose one unified-memory plane and first CPU plane start equal starts in lockstep |
| Lockstep.TakeKeepsTwinsIff | crates/inferenced-core/src/arbiter.rs:135-142 | a grant keeps the two planes equal if and only if it is not on the CPU plane or takes nothing |
| Lockstep.GapForever | crates/inferenced-core/src/arbiter.rs:33-40 | for planes of any size and fill, over every run in which no request is served by the CPU plane itself, the gap between the one unified-memory plane and the first CPU plane is the installed gap plus the difference of what fell short and spilled, and exactly the installed one without shortfall |
| Lockstep.StartsSharing | crates/inferenced-core/src/arbiter.rs:22-26 | an arbiter whose planes are one unified-memory plane, a CPU plane and any others starts where that law begins |
| Overflow.MachineRestoreIff | crates/inferenced-core/src/arbiter.rs:239-243 | the 64-bit restore is the intended one if and only if the sum fits |
| Overflow.RestoreFits | crates/inferenced-core/src/arbiter.rs:236-246 | in every state that keeps the ledger invariant, half-way through a preemption loop too, a restore is exact on every plane where the sum fits even if the lease comes back last |
| Overflow.OverflowWitness | crates/inferenced-core/src/arbiter.rs:115-123 | a reachable state in which returning an active lease overflows |
| Overflow.HostOverdraftWitness | crates/inferenced-core/src/arbiter.rs:135-142 | an ordinary grant on a unified-memory plane that breaks conservation on the host plane |
| Machine.GiveAgreesIff | crates/inferenced-core/src/arbiter.rs:236-246 | the wrapping restore of both planes is the intended one if and only if the sum fits on every plane the bytes return to |
| Machine.LoopAgreesIff | crates/inferenced-core/src/arbiter.rs:105-113 | the machine's preemption loop goes through the intended states, wherever it is cut off, if and only if the sum of every victim fits, told from the state before the loop |
| Machine.OpAgreesIff | crates/inferenced-core/src/arbiter.rs:29-246 | an operation of the machine is the intended one at every step if and only if every sum it computes fits, told from the state before it |
| Machine.RunAgreesIff | crates/inferenced-core/src/arbiter.rs:29-246 | the wrapping machine goes through exactly the intended run, also within operations, if and only if the sums of each operation fit |
| Machine.SameEnd | crates/inferenced-core/src/arbiter.rs:29-246 | a run on which the machine agrees is possible on the machine and ends in the intended state |
| Machine.MachineRecovery | crates/inferenced-core/src/arbiter.rs:236-246 | whatever the shortfall, nothing leaks on the machine along a run whose sums fit |
| Machine.LeakWitness | crates/inferenced-core/src/arbiter.rs:236-246 | a machine run that ends without active leases and with less than was installed |
| Returns.LastSumStays | crates/inferenced-core/src/arbiter.rs:236-246 | the largest sum that returning a lease can compute does not change when others are returned before it |
| Returns.SafeOpFits | crates/inferenced-core/src/arbiter.rs:29-246 | where each active lease can come back last, no operation computes a sum that does not fit, whole preemption loops included |
| Returns.RoomyIsSafe | crates/inferenced-core/src/arbiter.rs:236-246 | each active lease can come back last when available and charged bytes, or installed bytes and shortfall, fit in 64 bits on every plane |
| Returns.ReturnsAgreeIff | crates/inferenced-core/src/arbiter.rs:160-186 | from a given state the machine is exact along all runs of releases, revokes, yields and freezes, in every order, if and only if each active lease can come back last to each plane that carries it, a condition on the present planes and leases |
| ArbiterObject.Arbiter.constructor | crates/inferenced-core/src/arbiter.rs:22-26 | a new arbiter is the machine's initial state |
| ArbiterObject.Arbiter.RestorePlaneMemory | crates/inferenced-core/src/arbiter.rs:236-246 | the in-place restore gives back as specified, and does nothing for an unknown plane |
| ArbiterObject.Arbiter.ListPreemptable | crates/inferenced-core/src/arbiter.rs:97-101 | the collected list is a priority order of exactly the eligible leases |
| ArbiterObject.Arbiter.PreemptUntil | crates/inferenced-core/src/arbiter.rs:105-113 | the loop ends in the specified state with the specified number of victims |
| ArbiterObject.Arbiter.AcquireLease | crates/inferenced-core/src/arbiter.rs:66-148 | the in-place operation does the machine's step for some order the hash map can give |
| ArbiterObject.Arbiter.ReleaseLease | crates/inferenced-core/src/arbiter.rs:160-172 | the in-place operation does the machine's step |
| ArbiterObject.Arbiter.RevokeLease | crates/inferenced-core/src/arbiter.rs:174-186 | the in-place operation does the machine's step |
| ArbiterObject.Arbiter.YieldLease | crates/inferenced-core/src/arbiter.rs:188-194 | the in-place operation does the machine's step |
| ArbiterObject.Arbiter.FreezeLease | crates/inferenced-core/src/arbiter.rs:196-202 | the in-place operation does the machine's step |
| ArbiterObject.Arbiter.ThawLease | crates/inferenced-core/src/arbiter.rs:204-233 | the in-place operation does the machine's step |
| ArbiterObject.Arbiter.UpdateTopology | crates/inferenced-core/src/arbiter.rs:29-50 | the in-place loop does the machine's step for some listing of the leases |
| FdQuota.QuotaConserved | crates/inferenced-daemon/src/fd_quota.rs:51-76 | under every interleaving the cell is the sum of reservations not yet subtracted, within the ceiling, and each handler gives back what it took, once |
| FdQuota.ReleaseIsExact | crates/inferenced-daemon/src/fd_quota.rs:72-76 | however stale the value that release loads, as long as the handler's own write came before, the minimum never clamps and the subtraction never wraps |
| FdQuota.NothingLeft | crates/inferenced-daemon/src/fd_server.rs:90-155 | once every handler has left, on whichever exit path, nothing is reserved |
| FdQuota.EveryExitReleases | crates/inferenced-daemon/src/fd_server.rs:107-154 | on each exit path, memfd creation failed, sent or not sent, a handler runs to its end and gives back exactly what it reserved |
| FdQuota.TurnedAway | crates/inferenced-daemon/src/fd_server.rs:59-88 | a connection turned away before the quota is asked has left for good and reserved nothing |
| FdQuota.TookWhatWasAsked | crates/inferenced-daemon/src/fd_quota.rs:51-60 | over every run a handler reserves exactly the bytes its request asks for, and a denial speaks of that request |
| FdQuota.GrantMeans | crates/inferenced-daemon/src/fd_quota.rs:58-64 | a successful exchange adds the request to all current reservations, within the ceiling |
| FdQuota.DenialMeans | crates/inferenced-daemon/src/fd_quota.rs:54-57 | a refusal reports a value that was in the cell at some instant from the call's load on, told from the run, and left no room |
| FdQuota.LockFree | crates/inferenced-daemon/src/fd_quota.rs:58-66 | from any look at the cell on, a call's failed exchanges, counted in the run, never outnumber the writes of others |
| FdQuota.ConservesIff | crates/inferenced-daemon/src/fd_quota.rs:54-57 | for every positive bound on the size of a request, all interleavings conserve if and only if the ceiling is below the largest 64-bit number |
| FdQuotaObject.Quota.TryReserve | crates/inferenced-daemon/src/fd_quota.rs:51-68 | for every script of foreign writes: a grant makes one write, within the ceiling, that adds exactly the request to what the cell held just before, unless the ceiling is the largest 64-bit number; a refusal makes none and reports a value without room, and iterations exceed foreign writes by at most one |
| FdQuotaObject.Quota.Release | crates/inferenced-daemon/src/fd_quota.rs:72-76 | for every script of foreign writes: the one write takes from what the cell held just before the smaller of the amount and what was loaded, exactly the amount when both hold it; alone it stops at zero |
| FramedReader.ReadFramedRequest | crates/inferenced-daemon/src/fd_server.rs:158-181 | the loop computes the specified reading and its buffer never exceeds 69632 bytes |
| FramedReader.ReadExactly | crates/inferenced-daemon/src/fd_server.rs:163-180 | the exact verdict for every split: payload before the first NUL if at most 64 KiB came before its chunk |
| FramedReader.ChunkingIrrelevant | crates/inferenced-daemon/src/fd_server.rs:163-180 | a NUL at offset 65536 or below, one at 69632 or above, and none at all are treated alike for every split |
| FramedReader.BoundsAreTight | crates/inferenced-daemon/src/fd_server.rs:175-179 | between those bounds every stream has an accepted and a refused split |
| Coordinator.OwnStepHarmless | crates/inferenced-core/src/preempt.rs:62-166 | a call's own steps change no plane, journal or charge, and no lease but its own while active |
| Coordinator.CallOutcome | crates/inferenced-core/src/preempt.rs:62-166 | in every interleaving a call that returns Ok last saw its lease frozen or inactive, or, after a poll, absent; it takes only inactive or absent leases as cooperative; it goes on from its yield and its freeze only if the lease was there, and fails only with the name of an unknown lease; polls and own steps, counted in the run, are at most the deadline over 25 ms rounded up, and twice that plus six |
| Coordinator.BoundsAreMet | crates/inferenced-core/src/preempt.rs:103-155 | for every deadline there is a run in which a call polls and steps exactly as often as those bounds allow |
| Coordinator.WorldIsArbiterRun | crates/inferenced-core/src/preempt.rs:62-166 | for the arbiter a run of calls is exactly the run of their one yield and one freeze each and of what others ask |
| Coordinator.NoEarlyFreeze | crates/inferenced-core/src/preempt.rs:103-132 | over every run a call keeps its lease and deadline, and enters the second tier only after it slept through the whole deadline |
| Coordinator.CallKnowsLease | crates/inferenced-core/src/preempt.rs:63-67 | in every reachable world a call works with the terms of the very lease it is about |
| Coordinator.FinishedInTimeIsSpared | crates/inferenced-core/src/preempt.rs:103-132 | a lease finished while a look is still ahead never meets the second tier |
| Coordinator.LateNeverCooperative | crates/inferenced-core/src/preempt.rs:103-155 | a call past its yield that has no look left, whatever becomes of its lease, never takes it as cooperative, polls no more, and returns Ok only through the second tier, in every continuation |
| Coordinator.RecordAgreesIff | crates/inferenced-core/src/preempt.rs:136-163 | for all operations of others between freeze and record: the record says completed if and only if a signal to a known process or unit of the lease was accepted and the record was still there, it names the second tier, no other record changes, and the lease is frozen if and only if it was active at the freeze and the operations in between leave it frozen |
| Coordinator.RecordOutlivesLease | crates/inferenced-core/src/preempt.rs:155-163 | reachable worlds in which a returned call's record says frozen while its lease is revoked, and while it is active |
| Coordinator.CooperativeIsRecorded | crates/inferenced-core/src/preempt.rs:124-132 | whatever others do before a cooperative call's last step, the call returns Ok, the record of its lease, if still there, is completed with the tier it had, and nothing else changes |
| Coordinator.RevokeIsRecorded | crates/inferenced-core/src/preempt.rs:187-195 | a revoke through the coordinator marks the lease's record, if there is one, revoked and completed, and changes nothing else |
| Coordinator.EnterKeepsUnfinished | crates/inferenced-core/src/preempt.rs:84-101 | entering a record drops exactly the completed ones and only beyond 128, and leaves at most 129 or unfinished ones only |
| Coordinator.RecordsBound | crates/inferenced-core/src/preempt.rs:84-101 | over every run the table of records holds at most 129, or one more than the largest number of unfinished ones it ever held |
| Coordinator.RecordsGrow | crates/inferenced-core/src/preempt.rs:155-163 | for every n a reachable world in which all calls have returned and n records of freezes that reached nobody are left unfinished |
| Varlink.ServerIsArbiterRun | crates/inferenced-daemon/src/varlink/leases.rs:58-93 | for the arbiter a run of the server is exactly the run of the operations its requests, releases and cleanups ask for |
| Varlink.NotesGrants | crates/inferenced-daemon/src/varlink/leases.rs:62-68 | a connection's history is exactly the leases that its requests put in the arbiter's table |
| Varlink.ListIsExact | crates/inferenced-daemon/src/varlink/leases.rs:62-93 | between two requests a connection's list is exactly the leases granted on it, told from events and table, that its client has not released, in the order of the grants; a cleanup works through this list from the front |
| Varlink.ServedUntilGone | crates/inferenced-daemon/src/varlink/mod.rs:96-103 | over every run a connection's cleanup begins only after its client has gone |
| Varlink.LiveLeasesAreListed | crates/inferenced-daemon/src/varlink/leases.rs:62-93 | every live lease granted on an open connection, told from events and table, is in its list or was granted this instant |
| Varlink.NoZombies | crates/inferenced-daemon/src/varlink/mod.rs:96-103 | once a connection's cleanup is through, no lease granted on it, told from events and table, is live, ever again |
| Varlink.AllClientsGone | crates/inferenced-daemon/src/varlink/mod.rs:96-103 | once no lease outside closed connections is active, every plane has its installed bytes back |
| Varlink.CleanupAdvances | crates/inferenced-daemon/src/varlink/mod.rs:97-103 | whatever others do in between, k cleanup steps leave exactly all but the first k leases of the list, and the cleanup is through exactly after as many steps as there were leases |
| Varlink.CleanupCompletes | crates/inferenced-daemon/src/varlink/mod.rs:97-103 | from every point of a cleanup the remaining steps are possible and end it, with every lease of the connection finished |
| Registry.RegistrationEffect | crates/inferenced-core/src/model.rs:43-56 | a registration evicts at most one model, the least used and then least recently used that is not pinned, none below 256 models or for a known one, and grows a full registry exactly when all are pinned |
| Registry.SizeBound | crates/inferenced-core/src/model.rs:43-82 | over every run from empty, size is at most 256 or one more than the largest pinned count |
| Registry.PinningEffect | crates/inferenced-core/src/model.rs:74-82 | a known model becomes pinned on the plane, keeps its identity and counts and can no longer be evicted; nothing else changes |
| Registry.PinnedStays | crates/inferenced-core/src/model.rs:43-82 | over every run a pinned model stays in the registry and pinned until it is itself removed or registered anew |
| Registry.ModelRegistry.PickVictim | crates/inferenced-core/src/model.rs:45-50 | the victim is a least unpinned model by use count and last use; none means all are pinned |
| Registry.ModelRegistry.Register | crates/inferenced-core/src/model.rs:43-56 | the in-place registration evicts what it may and inserts |
| Registry.ModelRegistry.Remove | crates/inferenced-core/src/model.rs:70-72 | removal hands out the model that was registered, if any, and leaves all others |
| Registry.ModelRegistry.PinForTriage | crates/inferenced-core/src/model.rs:74-82 | a known model becomes pinned on the plane, an unknown one changes nothing |
| Inhibitor.InhibitorManager.Tick | crates/inferenced-daemon/src/main.rs:209-217 | one round of the monitor moves the counter to the sample, never below zero, and the handle as specified |
| Inhibitor.InhibitorManager.Monitor | crates/inferenced-daemon/src/main.rs:203-219 | over any samples the counter and handle are the fold of the samples |
| Inhibitor.InhibitedSince | crates/inferenced-daemon/src/inhibit.rs:63-107 | sleep is inhibited exactly while leases are active and a mechanism worked when the busy period began, by the first of systemd-inhibit, unless standalone is preferred, lock file and bus socket that worked then |

## Left out

- Sockets, netlink, service-manager notification, socket activation, the HTTP gateway, the CLI and credentials.
- memfd creation, seals, descriptor passing, memory advice, cgroup files and signals: they appear as arbitrary successes or
  failures.
- JSON, UUID and method decoding, including default arguments and peer attribution; requests enter decoded.
- Pressure sampling: the critical level is an input.
- Hardware discovery itself; only the shape of its result is used, and that the triage assignment keeps it.
- Lease timestamps, the unused expiry time, panics and cancelled futures.
- The FD handler's own 16 GiB limit per request: the quota machine admits any 64-bit request, so its results cover the
  smaller range too; `ConservesIff` holds for every limit separately.
- `get_mut` of the registry, which can rewrite any field of a model and is not called by the daemon.
- Weak memory effects beyond interleavings of one atomic cell, except that the load of a release may be stale.
- Coordinator.FinishedInTimeIsSpared: time passes only in the sleeps of the poll loop, each of at least 25 ms; delays between
  steps are not measured.
- The coordinator and the Varlink connections are step machines on values, not classes: each method of theirs spans several
  atomic steps between which others act, so no single before-and-after contract describes it.
