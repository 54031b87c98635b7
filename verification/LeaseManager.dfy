/** Expiry of leases: the first of the two background loops. */
module LeaseManager {
  import opened PacketStates
  import opened Database

  /** The packets whose lease ended before the cutoff. */
  function ExpiredLeases(leases: map<Id, Lease>, cutoff: int): set<Id> {
    set p | p in leases && leases[p].expiresAt < cutoff
  }

  /** What one pass does to the rows. */
  function ExpireLeases(db: Rows, cutoff: int): Rows {
    Reclaim(db, ExpiredLeases(db.leases, cutoff))
  }

  /** One round of the loop. */
  method ReclaimOne(db: Store, id: Id)
    requires id in db.leases
    modifies db
    ensures db.Now() == Reclaim(old(db.Now()), {id})
  {
    var lease := db.leases[id];
    assert Holders(db.leases, {id}) == {lease.workerId};
    if id in db.packets && db.packets[id].state == Running {
      assert RunningAmong(db.packets, {id}) == {id};
      db.SetPacketState(id, Ready);
    } else {
      assert RunningAmong(db.packets, {id}) == {};
    }
    assert db.packets == WithState(old(db.packets), RunningAmong(old(db.packets), {id}), Ready);
    db.ClearWorker(lease.workerId);
    db.DeleteLease(id);
  }

  /** The pass itself, over the expired leases in any order. */
  method CheckExpiredLeases(db: Store, cutoff: int) returns (count: nat)
    modifies db
    ensures db.Now() == ExpireLeases(old(db.Now()), cutoff)
    ensures
      var expired := set p | p in old(db.leases) && old(db.leases)[p].expiresAt < cutoff;
      count == |expired| && IsReclaimed(old(db.Now()), expired, db.Now())
  {
    ReclaimByRow(db.Now(), ExpiredLeases(db.leases, cutoff));
    var expired := ExpiredLeases(db.leases, cutoff);
    var todo := expired;
    count := 0;
    ReclaimNone(db.Now());
    while todo != {}
      invariant todo <= expired && count == |expired| - |todo|
      invariant db.Now() == Reclaim(old(db.Now()), expired - todo)
      decreases todo
    {
      var id :| id in todo;
      ReclaimMore(old(db.Now()), expired - todo, {id});
      assert expired - (todo - {id}) == (expired - todo) + {id};
      ReclaimOne(db, id);
      todo := todo - {id};
      count := count + 1;
    }
    assert expired - todo == expired;
  }
}
