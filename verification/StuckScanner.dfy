/** The stuck scanner: the second background loop, four passes over the same rows. */
module StuckScanner {
  import opened Sequences
  import opened PacketStates
  import opened Database

  datatype Counts = Counts(stuckRunning: nat, staleWorkers: nat, mismatches: nat, orphanLeases: nat)

  /** RUNNING packets without a lease, or with one that ended before the cutoff. */
  function StuckPackets(db: Rows, cutoff: int): set<Id> {
    set p | p in db.packets && db.packets[p].state == Running
      && (p !in db.leases || db.leases[p].expiresAt < cutoff)
  }

  /** Active workers whose last heartbeat is known and too old. */
  function StaleWorkers(workers: map<Id, Worker>, threshold: int): set<Id> {
    set w | w in workers && workers[w].status == "active"
      && workers[w].lastHeartbeat.Some? && workers[w].lastHeartbeat.value < threshold
  }

  function Deactivated(workers: map<Id, Worker>, ids: set<Id>): map<Id, Worker> {
    map w | w in workers :: if w in ids then workers[w].(status := "inactive") else workers[w]
  }

  /** The worker is active and names a packet that is not leased to it. */
  predicate LostLease(leases: map<Id, Lease>, w: Id, worker: Worker) {
    && worker.status == "active" && worker.currentPacketId.Some?
    && var p := worker.currentPacketId.value;
       !(p in leases && leases[p].workerId == w)
  }

  function MismatchedWorkers(leases: map<Id, Lease>, workers: map<Id, Worker>): set<Id> {
    set w | w in workers && LostLease(leases, w, workers[w])
  }

  /** Active workers that name a packet. */
  function BusyWorkers(workers: map<Id, Worker>): set<Id> {
    set w | w in workers && workers[w].status == "active" && workers[w].currentPacketId.Some?
  }

  /** Leases of packets that exist and are not RUNNING. */
  function OrphanLeases(db: Rows): set<Id> {
    set p | p in db.leases && p in db.packets && db.packets[p].state != Running
  }

  // ----- What each pass does to the rows

  function RecoverStuck(db: Rows, cutoff: int): Rows {
    Reclaim(db, StuckPackets(db, cutoff))
  }

  function DeactivateStale(db: Rows, threshold: int): Rows {
    db.(workers := Deactivated(db.workers, StaleWorkers(db.workers, threshold)))
  }

  function ClearMismatches(db: Rows): Rows {
    db.(workers := Cleared(db.workers, MismatchedWorkers(db.leases, db.workers)))
  }

  function CleanOrphans(db: Rows): Rows {
    Reclaim(db, OrphanLeases(db))
  }

  /** One sweep: the four passes in order. */
  function Sweep(db: Rows, cutoff: int, threshold: int): Rows {
    CleanOrphans(ClearMismatches(DeactivateStale(RecoverStuck(db, cutoff), threshold)))
  }

  /** What the sweep reports: how many rows each pass acted on. */
  function SweepCounts(db: Rows, cutoff: int, threshold: int): Counts {
    var recovered := RecoverStuck(db, cutoff);
    var deactivated := DeactivateStale(recovered, threshold);
    Counts(|StuckPackets(db, cutoff)|, |StaleWorkers(recovered.workers, threshold)|,
           |MismatchedWorkers(deactivated.leases, deactivated.workers)|,
           |OrphanLeases(ClearMismatches(deactivated))|)
  }

  // ----- The same row by row, in terms of the fields

  /** The first pass reclaims exactly the RUNNING packets whose lease is missing or past the cutoff. */
  lemma RecoverStuckByRow(db: Rows, cutoff: int)
    ensures
      var stuck := set p | p in db.packets && db.packets[p].state == Running
        && !(p in db.leases && db.leases[p].expiresAt >= cutoff);
      StuckPackets(db, cutoff) == stuck && IsReclaimed(db, stuck, RecoverStuck(db, cutoff))
  {
    ReclaimByRow(db, StuckPackets(db, cutoff));
    assert StuckPackets(db, cutoff) == set p | p in db.packets && db.packets[p].state == Running
        && !(p in db.leases && db.leases[p].expiresAt >= cutoff);
  }

  /** The second pass makes inactive exactly the active workers with a known heartbeat before the threshold. */
  lemma DeactivateStaleByRow(db: Rows, threshold: int)
    ensures
      var after := DeactivateStale(db, threshold);
      && after == db.(workers := after.workers) && after.workers.Keys == db.workers.Keys
      && forall w :: w in db.workers ==>
           var was := db.workers[w];
           if was.status == "active" && was.lastHeartbeat != None && was.lastHeartbeat.value < threshold
           then w in StaleWorkers(db.workers, threshold) && after.workers[w] == was.(status := "inactive")
           else w !in StaleWorkers(db.workers, threshold) && after.workers[w] == was
  {
  }

  /** The third pass clears exactly the active workers whose packet has no lease of theirs. */
  lemma ClearMismatchesByRow(db: Rows)
    ensures
      var after := ClearMismatches(db);
      && after == db.(workers := after.workers) && after.workers.Keys == db.workers.Keys
      && forall w :: w in db.workers ==>
           var was := db.workers[w];
           if was.status == "active"
             && exists p :: was.currentPacketId == Some(p) && (p in db.leases ==> db.leases[p].workerId != w)
           then w in MismatchedWorkers(db.leases, db.workers) && after.workers[w] == was.(currentPacketId := None)
           else w !in MismatchedWorkers(db.leases, db.workers) && after.workers[w] == was
  {
  }

  /** The last pass reclaims exactly the leases of packets that exist in another state than RUNNING. */
  lemma CleanOrphansByRow(db: Rows)
    ensures
      var orphans := set p | p in db.leases && p in db.packets && db.packets[p].state != Running;
      OrphanLeases(db) == orphans && IsReclaimed(db, orphans, CleanOrphans(db))
  {
    ReclaimByRow(db, OrphanLeases(db));
    assert OrphanLeases(db) == set p | p in db.leases && p in db.packets && db.packets[p].state != Running;
  }

  // ----- The passes

  method ScanStuckRunning(db: Store, cutoff: int) returns (count: nat)
    modifies db
    ensures db.Now() == RecoverStuck(old(db.Now()), cutoff)
    ensures count == |StuckPackets(old(db.Now()), cutoff)|
  {
    ghost var before := db.Now();
    ghost var stuck := StuckPackets(before, cutoff);
    var todo := set p | p in db.packets && db.packets[p].state == Running;
    ghost var running := todo;
    count := 0;
    ghost var done: set<Id> := {};
    ReclaimNone(before);
    while todo != {}
      invariant todo <= running && done !! todo && done <= stuck <= done + todo
      invariant db.Now() == Reclaim(before, done) && count == |done|
      decreases todo
    {
      var id :| id in todo;
      assert id !in done;
      ReclaimElsewhere(before, done, id);
      var recovered := RecoverIfStuck(db, id, cutoff);
      if recovered {
        ReclaimMore(before, done, {id});
        AddOne(done, id);
        count, done := count + 1, done + {id};
      }
      todo := todo - {id};
    }
    assert done == stuck;
  }

  /** One round of the loop over the RUNNING packets. */
  method RecoverIfStuck(db: Store, id: Id, cutoff: int) returns (recovered: bool)
    requires id in db.packets && db.packets[id].state == Running
    modifies db
    ensures recovered <==> id !in old(db.leases) || old(db.leases)[id].expiresAt < cutoff
    ensures db.Now() == if recovered then Reclaim(old(db.Now()), {id}) else old(db.Now())
  {
    recovered := id !in db.leases || db.leases[id].expiresAt < cutoff;
    if recovered {
      assert RunningAmong(db.packets, {id}) == {id};
      db.SetPacketState(id, Ready);
      assert db.packets == WithState(old(db.packets), {id}, Ready);
      if id in db.leases {
        assert Holders(db.leases, {id}) == {db.leases[id].workerId};
        db.ClearWorker(db.leases[id].workerId);
        db.DeleteLease(id);
      } else {
        assert Cleared(db.workers, Holders(db.leases, {id})) == db.workers;
        assert db.leases - {id} == db.leases;
      }
    }
  }

  method ScanStaleWorkers(db: Store, threshold: int) returns (count: nat)
    modifies db`workers
    ensures db.workers == Deactivated(old(db.workers), StaleWorkers(old(db.workers), threshold))
    ensures count == |StaleWorkers(old(db.workers), threshold)|
  {
    ghost var before := db.workers;
    var stale := StaleWorkers(db.workers, threshold);
    var todo := stale;
    count := 0;
    ghost var done: set<Id> := {};
    assert Deactivated(before, {}) == before;
    while todo != {}
      invariant done !! todo && done + todo == stale
      invariant db.workers == Deactivated(before, done) && count == |done|
      decreases todo
    {
      var id :| id in todo;
      assert id !in done;
      DeactivatedMore(before, done, id);
      db.workers := db.workers[id := db.workers[id].(status := "inactive")];
      count, done, todo := count + 1, done + {id}, todo - {id};
    }
  }

  lemma DeactivatedMore(workers: map<Id, Worker>, ids: set<Id>, id: Id)
    requires id in workers && id !in ids
    ensures Deactivated(workers, ids + {id}) ==
      Deactivated(workers, ids)[id := workers[id].(status := "inactive")]
  {
  }

  method ScanWorkerPacketMismatches(db: Store) returns (count: nat)
    modifies db`workers
    ensures db.workers == Cleared(old(db.workers), MismatchedWorkers(db.leases, old(db.workers)))
    ensures count == |MismatchedWorkers(db.leases, old(db.workers))|
  {
    ghost var before := db.workers;
    ghost var leases := db.leases;
    ghost var mismatched := MismatchedWorkers(leases, before);
    var todo := BusyWorkers(db.workers);
    count := 0;
    ghost var done: set<Id> := {};
    assert Cleared(before, {}) == before;
    while todo != {}
      invariant todo <= before.Keys && done !! todo && done <= mismatched <= done + todo
      invariant db.workers == Cleared(before, done) && db.leases == leases && count == |done|
      decreases todo
    {
      var id :| id in todo;
      ClearedElsewhere(before, done, id);
      var cleared := ClearIfMismatched(db, id);
      assert cleared <==> LostLease(leases, id, before[id]);
      if cleared {
        FreedMore(before, done, id);
        AddOne(done, id);
        count, done := count + 1, done + {id};
      }
      todo := todo - {id};
    }
    assert done == mismatched;
  }

  /** One round of the loop over the active workers that name a packet. */
  method ClearIfMismatched(db: Store, id: Id) returns (cleared: bool)
    requires id in db.workers
    modifies db`workers
    ensures cleared <==> LostLease(db.leases, id, old(db.workers)[id])
    ensures db.workers == if cleared then Freed(old(db.workers), id) else old(db.workers)
  {
    cleared := LostLease(db.leases, id, db.workers[id]);
    if cleared {
      db.ClearWorker(id);
    }
  }

  method ScanOrphanLeases(db: Store) returns (count: nat)
    modifies db
    ensures db.Now() == CleanOrphans(old(db.Now()))
    ensures count == |OrphanLeases(old(db.Now()))|
  {
    ghost var before := db.Now();
    ghost var orphans := OrphanLeases(before);
    var todo := db.leases.Keys;
    count := 0;
    ghost var done: set<Id> := {};
    ReclaimNone(before);
    while todo != {}
      invariant todo <= before.leases.Keys && done !! todo && done <= orphans <= done + todo
      invariant db.Now() == Reclaim(before, done) && count == |done|
      decreases todo
    {
      var id :| id in todo;
      assert id !in done;
      ReclaimElsewhere(before, done, id);
      var cleaned := CleanIfOrphan(db, id);
      if cleaned {
        ReclaimMore(before, done, {id});
        AddOne(done, id);
        count, done := count + 1, done + {id};
      }
      todo := todo - {id};
    }
    assert done == orphans;
  }

  /** One round of the loop over the leases. */
  method CleanIfOrphan(db: Store, id: Id) returns (cleaned: bool)
    requires id in db.leases
    modifies db
    ensures cleaned <==> id in old(db.packets) && old(db.packets)[id].state != Running
    ensures db.Now() == if cleaned then Reclaim(old(db.Now()), {id}) else old(db.Now())
  {
    cleaned := id in db.packets && db.packets[id].state != Running;
    if cleaned {
      assert RunningAmong(db.packets, {id}) == {};
      assert WithState(db.packets, {}, Ready) == db.packets;
      assert Holders(db.leases, {id}) == {db.leases[id].workerId};
      db.ClearWorker(db.leases[id].workerId);
      db.DeleteLease(id);
    }
  }

  method RunStuckScan(db: Store, cutoff: int, threshold: int) returns (counts: Counts)
    modifies db
    ensures db.Now() == Sweep(old(db.Now()), cutoff, threshold)
    ensures counts == SweepCounts(old(db.Now()), cutoff, threshold)
  {
    var stuckRunning := ScanStuckRunning(db, cutoff);
    var staleWorkers := ScanStaleWorkers(db, threshold);
    var mismatches := ScanWorkerPacketMismatches(db);
    var orphanLeases := ScanOrphanLeases(db);
    counts := Counts(stuckRunning, staleWorkers, mismatches, orphanLeases);
  }
}
