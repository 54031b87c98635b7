/** Packet operations: checked state changes of one packet. */
module PacketOperations {
  import opened PacketStates
  import opened Database

  /** How an operation ends; every ending but `Moved` is an exception that rolls the transaction back. */
  datatype Outcome = Moved | NotFound | InvalidTransition | AttemptsExhausted

  /** The rows after a table transition of one packet, if there is such a packet and transition. */
  function Transitioned(db: Rows, id: Id, to: PacketState): Rows {
    if id in db.packets && CanTransition(db.packets[id].state, to)
    then db.(packets := db.packets[id := db.packets[id].(state := to)])
    else db
  }

  /** Claiming also counts an attempt. */
  function Started(db: Rows, id: Id): Rows {
    if id in db.packets && CanTransition(db.packets[id].state, Running) then
      var p := db.packets[id];
      db.(packets := db.packets[id := p.(state := Running, attemptCount := p.attemptCount + 1)])
    else db
  }

  /** A retry needs a REJECTED packet with attempts left. */
  function Retried(db: Rows, id: Id): Rows {
    if id in db.packets && db.packets[id].state == Rejected && db.packets[id].attemptCount < db.packets[id].maxAttempts
    then db.(packets := db.packets[id := db.packets[id].(state := Ready)])
    else db
  }

  /** The shared part of the operations: look up, check the table, write the state. */
  method Transition(db: Store, id: Id, to: PacketState) returns (outcome: Outcome)
    modifies db`packets
    ensures db.Now() == Transitioned(old(db.Now()), id, to)
    ensures outcome == NotFound <==> id !in old(db.packets)
    ensures outcome == InvalidTransition <==> id in old(db.packets) && !CanTransition(old(db.packets)[id].state, to)
    ensures outcome == Moved <==> id in old(db.packets) && CanTransition(old(db.packets)[id].state, to)
    ensures outcome != AttemptsExhausted
    ensures db.packets ==
      if outcome == Moved then old(db.packets)[id := old(db.packets)[id].(state := to)] else old(db.packets)
  {
    if id !in db.packets {
      return NotFound;
    }
    if !CanTransition(db.packets[id].state, to) {
      return InvalidTransition;
    }
    db.SetPacketState(id, to);
    return Moved;
  }

  method MarkReady(db: Store, id: Id) returns (outcome: Outcome)
    modifies db`packets
    ensures db.Now() == Transitioned(old(db.Now()), id, Ready)
    ensures outcome == Moved <==>
      id in old(db.packets) && old(db.packets)[id].state in {Draft, Rejected, Blocked, BlockedRecoverable}
    ensures outcome == NotFound <==> id !in old(db.packets)
    ensures outcome != AttemptsExhausted
    ensures db.packets ==
      if outcome == Moved then old(db.packets)[id := old(db.packets)[id].(state := Ready)] else old(db.packets)
  {
    outcome := Transition(db, id, Ready);
  }

  method MarkRunning(db: Store, id: Id) returns (outcome: Outcome)
    modifies db`packets
    ensures db.Now() == Started(old(db.Now()), id)
    ensures outcome == Moved <==> id in old(db.packets) && old(db.packets)[id].state == Ready
    ensures outcome == NotFound <==> id !in old(db.packets)
    ensures outcome != AttemptsExhausted
    ensures
      var was := old(db.packets);
      db.packets ==
      if outcome == Moved then was[id := was[id].(state := Running, attemptCount := was[id].attemptCount + 1)] else was
  {
    outcome := Transition(db, id, Running);
    if outcome == Moved {
      db.packets := db.packets[id := db.packets[id].(attemptCount := db.packets[id].attemptCount + 1)];
    }
  }

  method MarkAccepted(db: Store, id: Id) returns (outcome: Outcome)
    modifies db`packets
    ensures db.Now() == Transitioned(old(db.Now()), id, Accepted)
    ensures outcome == Moved <==> id in old(db.packets) && old(db.packets)[id].state == Running
    ensures outcome == NotFound <==> id !in old(db.packets)
    ensures outcome != AttemptsExhausted
    ensures db.packets ==
      if outcome == Moved then old(db.packets)[id := old(db.packets)[id].(state := Accepted)] else old(db.packets)
  {
    outcome := Transition(db, id, Accepted);
  }

  method MarkRejected(db: Store, id: Id) returns (outcome: Outcome)
    modifies db`packets
    ensures db.Now() == Transitioned(old(db.Now()), id, Rejected)
    ensures outcome == Moved <==> id in old(db.packets) && old(db.packets)[id].state == Running
    ensures outcome == NotFound <==> id !in old(db.packets)
    ensures outcome != AttemptsExhausted
    ensures db.packets ==
      if outcome == Moved then old(db.packets)[id := old(db.packets)[id].(state := Rejected)] else old(db.packets)
  {
    outcome := Transition(db, id, Rejected);
  }

  method MarkFailed(db: Store, id: Id) returns (outcome: Outcome)
    modifies db`packets
    ensures db.Now() == Transitioned(old(db.Now()), id, Failed)
    ensures outcome == Moved <==> id in old(db.packets) && old(db.packets)[id].state in {Running, Rejected}
    ensures outcome == NotFound <==> id !in old(db.packets)
    ensures outcome != AttemptsExhausted
    ensures db.packets ==
      if outcome == Moved then old(db.packets)[id := old(db.packets)[id].(state := Failed)] else old(db.packets)
  {
    outcome := Transition(db, id, Failed);
  }

  method RetryPacket(db: Store, id: Id) returns (outcome: Outcome)
    modifies db`packets
    ensures db.Now() == Retried(old(db.Now()), id)
    ensures outcome == Moved <==>
      id in old(db.packets) && old(db.packets)[id].state == Rejected
      && old(db.packets)[id].attemptCount < old(db.packets)[id].maxAttempts
    ensures outcome == NotFound <==> id !in old(db.packets)
    ensures outcome == InvalidTransition <==> id in old(db.packets) && old(db.packets)[id].state != Rejected
    ensures db.packets ==
      if outcome == Moved then old(db.packets)[id := old(db.packets)[id].(state := Ready)] else old(db.packets)
  {
    if id !in db.packets {
      return NotFound;
    }
    if db.packets[id].state != Rejected {
      return InvalidTransition;
    }
    if db.packets[id].attemptCount >= db.packets[id].maxAttempts {
      return AttemptsExhausted;
    }
    outcome := Transition(db, id, Ready);
  }

  /**
   * The documented contracts "raises unless in DRAFT" of mark_ready and "raises unless in RUNNING" of
   * mark_failed are not what the table enforces. They hold exactly when the packet is in none of the
   * extra states the table admits.
   */
  lemma DocumentedGuardsExact(s: PacketState)
    ensures (CanTransition(s, Ready) ==> s == Draft) <==> s !in {Rejected, Blocked, BlockedRecoverable}
    ensures (CanTransition(s, Failed) ==> s == Running) <==> s != Rejected
    ensures CanTransition(s, Running) <==> s == Ready
    ensures CanTransition(s, Accepted) <==> s == Running
    ensures CanTransition(s, Rejected) <==> s == Running
  {
  }
}
