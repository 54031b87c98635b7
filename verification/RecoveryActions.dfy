/** The packet changes that recovery decisions apply. */
module RecoveryActions {
  import opened PacketStates
  import opened Database
  import opened PacketOperations

  function Max(a: int, b: int): int {
    if a >= b then a else b
  }

  /** Back to READY with room for one more attempt. */
  function CoderRetried(db: Rows, id: Id): Rows {
    if id in db.packets && CanTransition(db.packets[id].state, Ready)
    then
      var p := db.packets[id];
      db.(packets := db.packets[id := p.(state := Ready, maxAttempts := Max(p.maxAttempts, p.attemptCount + 1))])
    else db
  }

  /** READY with the same attempts, and a limit that is neither below the old one nor used up. */
  predicate IsRetried(was: Packet, now: Packet) {
    && now.state == Ready && now.attemptCount == was.attemptCount
    && now.maxAttempts >= was.maxAttempts && now.maxAttempts > was.attemptCount
    && (now.maxAttempts == was.maxAttempts || now.maxAttempts == was.attemptCount + 1)
    && now.featureId == was.featureId && now.waveId == was.waveId
  }

  /** Retrying the same coder and switching coders change the packet in the same way. A missing packet is skipped. */
  method ApplyCoderRetry(db: Store, id: Id) returns (outcome: Outcome)
    modifies db`packets
    ensures db.Now() == CoderRetried(old(db.Now()), id)
    ensures outcome == NotFound <==> id !in old(db.packets)
    ensures outcome == InvalidTransition <==> id in old(db.packets) && !CanTransition(old(db.packets)[id].state, Ready)
    ensures outcome != AttemptsExhausted
    ensures outcome == Moved <==>
      id in old(db.packets) && old(db.packets)[id].state in {Draft, Rejected, Blocked, BlockedRecoverable}
    ensures outcome == Moved ==>
      && db.packets == old(db.packets)[id := db.packets[id]]
      && IsRetried(old(db.packets)[id], db.packets[id])
    ensures outcome != Moved ==> db.packets == old(db.packets)
  {
    outcome := Transition(db, id, Ready);
    if outcome == Moved {
      var p := db.packets[id];
      db.packets := db.packets[id := p.(maxAttempts := Max(p.maxAttempts, p.attemptCount + 1))];
    }
  }

  /** Returning to the architect never raises: where the table forbids BLOCKED_FINAL the state is kept. */
  method ApplyReturnToArchitect(db: Store, id: Id) returns (outcome: Outcome)
    modifies db`packets
    ensures db.Now() == Transitioned(old(db.Now()), id, BlockedFinal)
    ensures outcome == if id in old(db.packets) then Moved else NotFound
    ensures db.packets ==
      if id in old(db.packets) && old(db.packets)[id].state in {Running, Rejected, BlockedRecoverable}
      then old(db.packets)[id := old(db.packets)[id].(state := BlockedFinal)] else old(db.packets)
  {
    if id !in db.packets {
      return NotFound;
    }
    if CanTransition(db.packets[id].state, BlockedFinal) {
      db.SetPacketState(id, BlockedFinal);
    }
    return Moved;
  }

  method ApplyBlockFeature(db: Store, id: Id) returns (outcome: Outcome)
    modifies db`packets
    ensures db.Now() == Transitioned(old(db.Now()), id, BlockedFinal)
    ensures outcome == InvalidTransition <==>
      id in old(db.packets) && !CanTransition(old(db.packets)[id].state, BlockedFinal)
    ensures outcome == Moved <==>
      id in old(db.packets) && old(db.packets)[id].state in {Running, Rejected, BlockedRecoverable}
    ensures db.packets ==
      if outcome == Moved then old(db.packets)[id := old(db.packets)[id].(state := BlockedFinal)] else old(db.packets)
    ensures outcome == NotFound <==> id !in old(db.packets)
    ensures outcome != AttemptsExhausted
  {
    outcome := Transition(db, id, BlockedFinal);
  }

  method ApplyRetryMerge(db: Store, id: Id) returns (outcome: Outcome)
    modifies db`packets
    ensures db.Now() == Transitioned(old(db.Now()), id, Accepted)
    ensures outcome == Moved <==> id in old(db.packets) && old(db.packets)[id].state == Running
    ensures db.packets ==
      if outcome == Moved then old(db.packets)[id := old(db.packets)[id].(state := Accepted)] else old(db.packets)
    ensures outcome == NotFound <==> id !in old(db.packets)
    ensures outcome != AttemptsExhausted
  {
    outcome := Transition(db, id, Accepted);
  }
}
