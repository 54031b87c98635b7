/** The services that claim a packet for a worker or put it back to work by hand. */
module PacketServices {
  import opened Sequences
  import opened PacketStates
  import opened Database

  /** How a service call ends; every ending but `Done` is an exception that rolls the transaction back. */
  datatype ServiceOutcome = Done | UnknownPacket | WrongState | AlreadyLeased

  /** The states a claim accepts; from all but READY it passes through READY first. */
  const CLAIMABLE_STATES: set<PacketState> := {Ready, Draft, Rejected, BlockedRecoverable}

  /** The states a manual retry accepts. */
  const RETRYABLE_STATES: set<PacketState> := {BlockedRecoverable, Rejected}

  predicate LeasedNow(leases: map<Id, Lease>, id: Id, now: int) {
    id in leases && leases[id].expiresAt > now
  }

  predicate Claimable(db: Rows, id: Id, now: int) {
    id in db.packets && db.packets[id].state in CLAIMABLE_STATES && !LeasedNow(db.leases, id, now)
  }

  /** A claim starts the packet, counts an attempt, replaces the lease and makes the worker busy. */
  function Claimed(db: Rows, id: Id, worker: Id, now: int, expiresAt: int): Rows {
    if Claimable(db, id, now) then
      var p := db.packets[id];
      db.(packets := db.packets[id := p.(state := Running, attemptCount := p.attemptCount + 1)],
          leases := db.leases[id := Lease(worker, expiresAt)],
          workers :=
            if worker in db.workers
            then db.workers[worker := db.workers[worker].(currentPacketId := Some(id), status := "busy")]
            else db.workers)
    else db
  }

  /** A manual retry puts the packet back to READY and counts an attempt. */
  function ManuallyRetried(db: Rows, id: Id): Rows {
    if id in db.packets && db.packets[id].state in RETRYABLE_STATES then
      var p := db.packets[id];
      db.(packets := db.packets[id := p.(state := Ready, attemptCount := p.attemptCount + 1)])
    else db
  }

  /** The state after a stage is run again: READY where the table leads there from an allowed state. */
  function StateForRerun(s: PacketState): PacketState {
    if s in {Draft, BlockedRecoverable, Rejected} then Ready else s
  }

  /** Running a stage again counts an attempt in every state. */
  function Rerun(db: Rows, id: Id): Rows {
    if id in db.packets then
      var p := db.packets[id];
      db.(packets := db.packets[id := p.(state := StateForRerun(p.state), attemptCount := p.attemptCount + 1)])
    else db
  }

  method Claim(db: Store, id: Id, worker: Id, now: int, expiresAt: int) returns (outcome: ServiceOutcome)
    modifies db
    ensures db.Now() == Claimed(old(db.Now()), id, worker, now, expiresAt)
    ensures outcome == Done <==> Claimable(old(db.Now()), id, now)
    ensures outcome == UnknownPacket <==> id !in old(db.packets)
    ensures outcome == WrongState <==>
      id in old(db.packets) && old(db.packets)[id].state !in {Ready, Draft, Rejected, BlockedRecoverable}
    ensures outcome == AlreadyLeased ==> id in old(db.leases) && old(db.leases)[id].expiresAt > now
    ensures outcome == Done ==> !(id in old(db.leases) && old(db.leases)[id].expiresAt > now)
    ensures outcome == Done ==>
      && db.packets ==
           (var was := old(db.packets)[id];
            old(db.packets)[id := was.(state := Running, attemptCount := was.attemptCount + 1)])
      && db.leases == old(db.leases)[id := Lease(worker, expiresAt)]
      && db.workers.Keys == old(db.workers).Keys
      && (worker in db.workers ==>
            db.workers[worker] == old(db.workers)[worker].(currentPacketId := Some(id), status := "busy"))
      && forall w :: w in db.workers && w != worker ==> db.workers[w] == old(db.workers)[w]
    ensures outcome != Done ==>
      db.packets == old(db.packets) && db.leases == old(db.leases) && db.workers == old(db.workers)
  {
    if id !in db.packets {
      return UnknownPacket;
    }
    if db.packets[id].state !in CLAIMABLE_STATES {
      return WrongState;
    }
    if LeasedNow(db.leases, id, now) {
      return AlreadyLeased;
    }
    StartClaimed(db, id);
    ReplaceLease(db, id, Lease(worker, expiresAt));
    if worker in db.workers {
      db.workers := db.workers[worker := db.workers[worker].(currentPacketId := Some(id), status := "busy")];
    }
    return Done;
  }

  /** READY first if need be, then RUNNING, and one more attempt. */
  method StartClaimed(db: Store, id: Id)
    requires id in db.packets && db.packets[id].state in CLAIMABLE_STATES
    modifies db`packets
    ensures
      var p := old(db.packets)[id];
      db.packets == old(db.packets)[id := p.(state := Running, attemptCount := p.attemptCount + 1)]
  {
    if db.packets[id].state != Ready {
      db.SetPacketState(id, Ready);
    }
    db.SetPacketState(id, Running);
    db.packets := db.packets[id := db.packets[id].(attemptCount := db.packets[id].attemptCount + 1)];
  }

  method ReplaceLease(db: Store, id: Id, lease: Lease)
    modifies db`leases
    ensures db.leases == old(db.leases)[id := lease]
  {
    if id in db.leases {
      db.DeleteLease(id);
    }
    db.leases := db.leases[id := lease];
  }

  method ManualRetry(db: Store, id: Id) returns (outcome: ServiceOutcome)
    modifies db`packets
    ensures db.Now() == ManuallyRetried(old(db.Now()), id)
    ensures outcome == Done <==> id in old(db.packets) && old(db.packets)[id].state in {Rejected, BlockedRecoverable}
    ensures outcome == UnknownPacket <==> id !in old(db.packets)
    ensures outcome != AlreadyLeased
    ensures outcome == Done ==>
      && db.packets ==
           (var was := old(db.packets)[id];
            old(db.packets)[id := was.(state := Ready, attemptCount := was.attemptCount + 1)])
    ensures outcome != Done ==> db.packets == old(db.packets)
  {
    if id !in db.packets {
      return UnknownPacket;
    }
    if db.packets[id].state !in RETRYABLE_STATES {
      return WrongState;
    }
    db.SetPacketState(id, Ready);
    db.packets := db.packets[id := db.packets[id].(attemptCount := db.packets[id].attemptCount + 1)];
    return Done;
  }

  /** The packet part of running a stage again; where the table forbids READY the state is kept. */
  method RerunStage(db: Store, id: Id)
    modifies db`packets
    ensures db.Now() == Rerun(old(db.Now()), id)
    ensures db.packets.Keys == old(db.packets).Keys
    ensures id in db.packets ==>
      var was := old(db.packets)[id];
      db.packets[id] ==
        was.(state := if was.state in {Draft, BlockedRecoverable, Rejected} then Ready else was.state,
             attemptCount := was.attemptCount + 1)
    ensures forall p :: p in db.packets && p != id ==> db.packets[p] == old(db.packets)[p]
  {
    if id in db.packets {
      var current := db.packets[id].state;
      if current in {Running, Ready, BlockedRecoverable, Rejected, Accepted, Draft} && current != Ready {
        if CanTransition(current, Ready) {
          db.SetPacketState(id, Ready);
        }
      }
      db.packets := db.packets[id := db.packets[id].(attemptCount := db.packets[id].attemptCount + 1)];
    }
  }
}
