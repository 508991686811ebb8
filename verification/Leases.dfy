/** Leases, their priorities and states, and the error values of the arbiter. */
module Leases {

  datatype Option<+T> = None | Some(value: T)

  /** A lease identifier: a random 128-bit number, of which only equality is used. */
  type LeaseId = nat

  type PlaneId = string

  datatype Priority = Batch | Interactive | EmergencyTriage {
    /** The discriminant that the derived order compares. */
    function Rank(): nat {
      match this
      case Batch => 0
      case Interactive => 10
      case EmergencyTriage => 100
    }
  }

  datatype LeaseState = Active | Preempting | Frozen | Preempted | Revoked | Expired

  /** Who asked for the lease: the process and the systemd unit, when known. */
  datatype Client = Client(pid: Option<nat>, unit: Option<string>)

  datatype Lease = Lease(plane: PlaneId, bytes: nat, priority: Priority, state: LeaseState, client: Client) {
    /** The lease holds memory on its plane. */
    predicate IsActive() {
      state.Active? || state.Preempting? || state.Frozen?
    }

    /** The lease can still hold memory, now or after a thaw. */
    predicate IsLive() {
      IsActive() || state.Preempted?
    }
  }

  datatype Error =
    | BusSaturation
    | PlaneNotFound(wanted: Option<PlaneId>)
    | ResourceExhaustion(plane: PlaneId, requested: nat, available: nat)
    | LeaseNotFound(id: LeaseId)

  datatype Result<+T> = Ok(value: T) | Err(error: Error)

  datatype Request = Request(priority: Priority, required: nat, preferred: Option<PlaneId>, client: Client)
}
