/** What one sweep of the scanner achieves from any rows, and why the two background loops commute. */
module Stabilisation {
  import opened Sequences
  import opened PacketStates
  import opened Database
  import opened LeaseManager
  import opened StuckScanner
  import opened PacketServices

  /** RUNNING packets, leases and active workers agree, and no active worker is stale. */
  ghost predicate Consistent(db: Rows, cutoff: int, threshold: int) {
    && (forall p :: p in db.packets && db.packets[p].state == Running ==>
          p in db.leases && db.leases[p].expiresAt >= cutoff)
    && (forall p :: p in db.leases && p in db.packets ==> db.packets[p].state == Running)
    && (forall w :: w in db.workers && db.workers[w].status == "active" ==>
          && (db.workers[w].lastHeartbeat.Some? ==> db.workers[w].lastHeartbeat.value >= threshold)
          && (db.workers[w].currentPacketId.Some? ==>
                var p := db.workers[w].currentPacketId.value;
                p in db.leases && db.leases[p].workerId == w))
  }

  // ----- The tables after a sweep, in closed form

  predicate IsStale(worker: Worker, threshold: int) {
    worker.status == "active" && worker.lastHeartbeat.Some? && worker.lastHeartbeat.value < threshold
  }

  /** The worker after deactivation. */
  function Judged(worker: Worker, threshold: int): Worker {
    if IsStale(worker, threshold) then worker.(status := "inactive") else worker
  }

  /** Some lease among `ids` belongs to the worker. */
  ghost predicate Holds(leases: map<Id, Lease>, ids: set<Id>, w: Id) {
    exists p :: p in ids && p in leases && leases[p].workerId == w
  }

  ghost function SweptWorker(db: Rows, cutoff: int, threshold: int, w: Id): Worker
    requires w in db.workers
  {
    var stuck := StuckPackets(db, cutoff);
    var judged := Judged(db.workers[w], threshold);
    if Holds(db.leases, stuck, w) || Holds(db.leases, OrphanLeases(db), w) || LostLease(db.leases - stuck, w, judged)
    then judged.(currentPacketId := None)
    else judged
  }

  /** `after` is what a sweep makes of `db`. */
  ghost predicate IsSwept(db: Rows, cutoff: int, threshold: int, after: Rows) {
    && after.packets == WithState(db.packets, StuckPackets(db, cutoff), Ready)
    && after.leases == db.leases - StuckPackets(db, cutoff) - OrphanLeases(db)
    && after.workers.Keys == db.workers.Keys
    && (forall w :: w in db.workers ==> after.workers[w] == SweptWorker(db, cutoff, threshold, w))
    && after.features == db.features && after.waves == db.waves
  }

  /** `after` is what an expiry pass makes of `db`. */
  ghost predicate IsExpired(db: Rows, expiry: int, after: Rows) {
    var expired := ExpiredLeases(db.leases, expiry);
    && after.packets == WithState(db.packets, RunningAmong(db.packets, expired), Ready)
    && after.leases == db.leases - expired
    && after.workers.Keys == db.workers.Keys
    && (forall w :: w in db.workers ==>
          after.workers[w] ==
            if Holds(db.leases, expired, w) then db.workers[w].(currentPacketId := None) else db.workers[w])
    && after.features == db.features && after.waves == db.waves
  }

  lemma ExpireIsExpired(db: Rows, expiry: int)
    ensures IsExpired(db, expiry, ExpireLeases(db, expiry))
  {
  }

  /** The rows after the first three passes. */
  ghost predicate IsJudged(db: Rows, cutoff: int, threshold: int, mid: Rows) {
    var stuck := StuckPackets(db, cutoff);
    && mid.packets == WithState(db.packets, stuck, Ready)
    && mid.leases == db.leases - stuck
    && mid.workers.Keys == db.workers.Keys
    && (forall w :: w in db.workers ==>
          var judged := Judged(db.workers[w], threshold);
          mid.workers[w] ==
            if Holds(db.leases, stuck, w) || LostLease(db.leases - stuck, w, judged)
            then judged.(currentPacketId := None) else judged)
    && mid.features == db.features && mid.waves == db.waves
  }

  lemma ThreePasses(db: Rows, cutoff: int, threshold: int)
    ensures IsJudged(db, cutoff, threshold, ClearMismatches(DeactivateStale(RecoverStuck(db, cutoff), threshold)))
  {
    var stuck := StuckPackets(db, cutoff);
    assert RunningAmong(db.packets, stuck) == stuck;
  }

  lemma LastPass(db: Rows, cutoff: int, threshold: int, mid: Rows)
    requires IsJudged(db, cutoff, threshold, mid)
    ensures IsSwept(db, cutoff, threshold, CleanOrphans(mid))
  {
    var orphans := OrphanLeases(mid);
    assert orphans == OrphanLeases(db);
    assert RunningAmong(mid.packets, orphans) == {};
    assert WithState(mid.packets, {}, Ready) == mid.packets;
    forall w | w in db.workers ensures w in Holders(mid.leases, orphans) <==> Holds(db.leases, orphans, w) {
    }
  }

  /** The four passes amount to the closed form. */
  lemma SweepIsSwept(db: Rows, cutoff: int, threshold: int)
    ensures IsSwept(db, cutoff, threshold, Sweep(db, cutoff, threshold))
  {
    ThreePasses(db, cutoff, threshold);
    LastPass(db, cutoff, threshold, ClearMismatches(DeactivateStale(RecoverStuck(db, cutoff), threshold)));
  }

  /** The rows that passes 2 and 4 act on are the same before the sweep; pass 3 sees the leases pass 1 leaves. */
  lemma SweptRows(db: Rows, cutoff: int, threshold: int)
    ensures
      var recovered := RecoverStuck(db, cutoff);
      var deactivated := DeactivateStale(recovered, threshold);
      && StaleWorkers(recovered.workers, threshold) == StaleWorkers(db.workers, threshold)
      && OrphanLeases(ClearMismatches(deactivated)) == OrphanLeases(db)
  {
    assert StaleWorkers(RecoverStuck(db, cutoff).workers, threshold) == StaleWorkers(db.workers, threshold);
    ThreePasses(db, cutoff, threshold);
    var mid := ClearMismatches(DeactivateStale(RecoverStuck(db, cutoff), threshold));
    assert OrphanLeases(mid) == OrphanLeases(db);
  }

  function SentBack(before: Rows, after: Rows): set<Id> {
    set p | p in before.packets && before.packets[p].state == Running
      && p in after.packets && after.packets[p].state == Ready
  }

  function MadeInactive(before: Rows, after: Rows): set<Id> {
    set w | w in before.workers && before.workers[w].status == "active"
      && w in after.workers && after.workers[w].status == "inactive"
  }

  function DroppedIdle(before: Rows, after: Rows): set<Id> {
    set p | p in before.leases && p !in after.leases && p in before.packets && before.packets[p].state != Running
  }

  lemma SweptPacketsAndLeases(db: Rows, cutoff: int, threshold: int, after: Rows)
    requires IsSwept(db, cutoff, threshold, after)
    ensures StuckPackets(db, cutoff) == SentBack(db, after) && OrphanLeases(db) == DroppedIdle(db, after)
  {
  }

  lemma SweptStatuses(db: Rows, cutoff: int, threshold: int, after: Rows)
    requires IsSwept(db, cutoff, threshold, after)
    ensures StaleWorkers(db.workers, threshold) == MadeInactive(db, after)
  {
    forall w | w in db.workers ensures w in StaleWorkers(db.workers, threshold) <==> w in MadeInactive(db, after) {
      assert after.workers[w] == SweptWorker(db, cutoff, threshold, w);
    }
  }

  /**
   * Each number of the report, read off the rows before and after the sweep: the packets sent back from
   * RUNNING to READY, the workers that became inactive, and the leases dropped of packets that did not run.
   */
  lemma ReportByRows(db: Rows, cutoff: int, threshold: int)
    ensures
      var counts, after := SweepCounts(db, cutoff, threshold), Sweep(db, cutoff, threshold);
      && counts.stuckRunning == |SentBack(db, after)|
      && counts.staleWorkers == |MadeInactive(db, after)|
      && counts.orphanLeases == |DroppedIdle(db, after)|
  {
    var after := Sweep(db, cutoff, threshold);
    SweepIsSwept(db, cutoff, threshold);
    SweptRows(db, cutoff, threshold);
    SweptPacketsAndLeases(db, cutoff, threshold, after);
    SweptStatuses(db, cutoff, threshold, after);
  }

  /** The fourth number: the active workers that pass 3 finds naming a packet that is not leased to them any more. */
  lemma MismatchesByRows(db: Rows, cutoff: int, threshold: int)
    ensures
      var left := db.leases - StuckPackets(db, cutoff);
      SweepCounts(db, cutoff, threshold).mismatches ==
        |set w | w in db.workers && db.workers[w].status == "active" && !IsStale(db.workers[w], threshold)
           && db.workers[w].currentPacketId.Some? && !Holds(db.leases, StuckPackets(db, cutoff), w)
           && !(db.workers[w].currentPacketId.value in left && left[db.workers[w].currentPacketId.value].workerId == w)|
  {
    var left := db.leases - StuckPackets(db, cutoff);
    var deactivated := DeactivateStale(RecoverStuck(db, cutoff), threshold);
    assert MismatchedWorkers(deactivated.leases, deactivated.workers) ==
      set w | w in db.workers && db.workers[w].status == "active" && !IsStale(db.workers[w], threshold)
        && db.workers[w].currentPacketId.Some? && !Holds(db.leases, StuckPackets(db, cutoff), w)
        && !(db.workers[w].currentPacketId.value in left && left[db.workers[w].currentPacketId.value].workerId == w);
  }

  // ----- Self-stabilisation

  lemma SweptIsConsistent(db: Rows, cutoff: int, threshold: int, after: Rows)
    requires IsSwept(db, cutoff, threshold, after)
    ensures Consistent(after, cutoff, threshold)
  {
    forall w | w in after.workers && after.workers[w].status == "active" && after.workers[w].currentPacketId.Some?
      ensures
        var p := after.workers[w].currentPacketId.value;
        p in after.leases && after.leases[p].workerId == w
    {
      var p := after.workers[w].currentPacketId.value;
      assert after.workers[w] == SweptWorker(db, cutoff, threshold, w);
      assert p in db.leases && db.leases[p].workerId == w;
    }
  }

  lemma SweptOfConsistent(db: Rows, cutoff: int, threshold: int, after: Rows)
    requires IsSwept(db, cutoff, threshold, after) && Consistent(db, cutoff, threshold)
    ensures after == db
  {
    assert StuckPackets(db, cutoff) == {} && OrphanLeases(db) == {};
    assert after.leases == db.leases && after.packets == db.packets;
    assert db.leases - {} == db.leases;
    forall w | w in db.workers ensures after.workers[w] == db.workers[w] {
      assert after.workers[w] == SweptWorker(db, cutoff, threshold, w);
    }
    assert after.workers == db.workers;
  }

  /** From any rows at all, one sweep makes them consistent. */
  lemma SweepStabilises(db: Rows, cutoff: int, threshold: int)
    ensures Consistent(Sweep(db, cutoff, threshold), cutoff, threshold)
  {
    SweepIsSwept(db, cutoff, threshold);
    SweptIsConsistent(db, cutoff, threshold, Sweep(db, cutoff, threshold));
  }

  /** The consistent rows are exactly the rows a sweep leaves alone. */
  lemma ConsistentIffFixed(db: Rows, cutoff: int, threshold: int)
    ensures Sweep(db, cutoff, threshold) == db <==> Consistent(db, cutoff, threshold)
  {
    SweepStabilises(db, cutoff, threshold);
    if Consistent(db, cutoff, threshold) {
      SweepIsSwept(db, cutoff, threshold);
      SweptOfConsistent(db, cutoff, threshold, Sweep(db, cutoff, threshold));
    }
  }

  /** A second sweep at the same moment changes nothing. */
  lemma SweepIdempotent(db: Rows, cutoff: int, threshold: int)
    ensures Sweep(Sweep(db, cutoff, threshold), cutoff, threshold) == Sweep(db, cutoff, threshold)
  {
    SweepStabilises(db, cutoff, threshold);
    ConsistentIffFixed(Sweep(db, cutoff, threshold), cutoff, threshold);
  }

  /** A sweep only ever moves RUNNING packets back to READY; it never counts an attempt or adds a lease. */
  lemma SweepOnlyReclaims(db: Rows, cutoff: int, threshold: int)
    ensures
      var after := Sweep(db, cutoff, threshold);
      && after.packets.Keys == db.packets.Keys
      && (forall p :: p in db.packets ==>
            after.packets[p] == db.packets[p]
            || (db.packets[p].state == Running && after.packets[p] == db.packets[p].(state := Ready)))
      && after.leases.Keys <= db.leases.Keys
      && (forall p :: p in after.leases ==> after.leases[p] == db.leases[p])
  {
    SweepIsSwept(db, cutoff, threshold);
  }

  /** A claim keeps consistent rows consistent, provided the new lease outlasts the scanner's cutoff. */
  lemma ClaimKeepsConsistent(db: Rows, cutoff: int, threshold: int, id: Id, worker: Id, now: int, expiresAt: int)
    requires Consistent(db, cutoff, threshold)
    ensures Consistent(Claimed(db, id, worker, now, expiresAt), cutoff, threshold) <==>
      Claimable(db, id, now) ==> expiresAt >= cutoff
  {
    var after := Claimed(db, id, worker, now, expiresAt);
    if Claimable(db, id, now) {
      assert after.packets[id].state == Running && id !in db.leases;
    }
  }

  // ----- Commutation

  /** Expiry commutes with each pass of the scanner: the passes are transactions of their own. */
  lemma ExpiryCommutesWithRecovery(db: Rows, expiry: int, cutoff: int)
    ensures RecoverStuck(ExpireLeases(db, expiry), cutoff) == ExpireLeases(RecoverStuck(db, cutoff), expiry)
  {
    var expired, stuck := ExpiredLeases(db.leases, expiry), StuckPackets(db, cutoff);
    var first, second := ExpireLeases(db, expiry), RecoverStuck(db, cutoff);
    assert StuckPackets(first, cutoff) == stuck - expired;
    assert ExpiredLeases(second.leases, expiry) == expired - stuck;
    ReclaimMore(db, expired, stuck - expired);
    ReclaimMore(db, stuck, expired - stuck);
    assert expired + (stuck - expired) == stuck + (expired - stuck);
  }

  lemma ExpiryCommutesWithDeactivation(db: Rows, expiry: int, threshold: int)
    ensures DeactivateStale(ExpireLeases(db, expiry), threshold) == ExpireLeases(DeactivateStale(db, threshold), expiry)
  {
    var first := ExpireLeases(db, expiry);
    assert StaleWorkers(first.workers, threshold) == StaleWorkers(db.workers, threshold);
    assert DeactivateStale(first, threshold).workers == ExpireLeases(DeactivateStale(db, threshold), expiry).workers;
  }

  lemma ExpiryCommutesWithMismatches(db: Rows, expiry: int)
    ensures ClearMismatches(ExpireLeases(db, expiry)) == ExpireLeases(ClearMismatches(db), expiry)
  {
    var expired := ExpiredLeases(db.leases, expiry);
    var holders := Holders(db.leases, expired);
    var first := ExpireLeases(db, expiry);
    forall w | w in db.workers && w !in holders
      ensures LostLease(first.leases, w, db.workers[w]) <==> LostLease(db.leases, w, db.workers[w])
    {
    }
    assert ClearMismatches(first).workers == ExpireLeases(ClearMismatches(db), expiry).workers;
  }

  lemma ExpiryCommutesWithOrphans(db: Rows, expiry: int)
    ensures CleanOrphans(ExpireLeases(db, expiry)) == ExpireLeases(CleanOrphans(db), expiry)
  {
    var expired, orphans := ExpiredLeases(db.leases, expiry), OrphanLeases(db);
    var first, second := ExpireLeases(db, expiry), CleanOrphans(db);
    assert OrphanLeases(first) == orphans - expired;
    assert ExpiredLeases(second.leases, expiry) == expired - orphans;
    ReclaimMore(db, expired, orphans - expired);
    ReclaimMore(db, orphans, expired - orphans);
    assert expired + (orphans - expired) == orphans + (expired - orphans);
  }

  /** Pass k of a sweep. */
  function Pass(db: Rows, cutoff: int, threshold: int, k: nat): Rows
    requires 1 <= k <= 4
  {
    if k == 1 then RecoverStuck(db, cutoff)
    else if k == 2 then DeactivateStale(db, threshold)
    else if k == 3 then ClearMismatches(db)
    else CleanOrphans(db)
  }

  /** The rows when the passes after pass i and up to pass k are done. */
  function Passes(db: Rows, cutoff: int, threshold: int, i: nat, k: nat): Rows
    requires i <= k <= 4
  {
    if i == k then db else Pass(Passes(db, cutoff, threshold, i, k - 1), cutoff, threshold, k)
  }

  lemma ExpiryCommutesWithPass(db: Rows, expiry: int, cutoff: int, threshold: int, k: nat)
    requires 1 <= k <= 4
    ensures Pass(ExpireLeases(db, expiry), cutoff, threshold, k) == ExpireLeases(Pass(db, cutoff, threshold, k), expiry)
  {
    if k == 1 {
      ExpiryCommutesWithRecovery(db, expiry, cutoff);
    } else if k == 2 {
      ExpiryCommutesWithDeactivation(db, expiry, threshold);
    } else if k == 3 {
      ExpiryCommutesWithMismatches(db, expiry);
    } else {
      ExpiryCommutesWithOrphans(db, expiry);
    }
  }

  lemma {:induction false} ExpiryCommutesWithPasses(db: Rows, expiry: int, cutoff: int, threshold: int, i: nat, k: nat)
    requires i <= k <= 4
    ensures Passes(ExpireLeases(db, expiry), cutoff, threshold, i, k)
      == ExpireLeases(Passes(db, cutoff, threshold, i, k), expiry)
  {
    if i < k {
      ExpiryCommutesWithPasses(db, expiry, cutoff, threshold, i, k - 1);
      ExpiryCommutesWithPass(Passes(db, cutoff, threshold, i, k - 1), expiry, cutoff, threshold, k);
    }
  }

  lemma {:induction false} PassesInTwoGoes(db: Rows, cutoff: int, threshold: int, i: nat, k: nat)
    requires i <= k <= 4
    ensures Passes(Passes(db, cutoff, threshold, 0, i), cutoff, threshold, i, k) == Passes(db, cutoff, threshold, 0, k)
    decreases k
  {
    if i < k {
      PassesInTwoGoes(db, cutoff, threshold, i, k - 1);
    }
  }

  lemma FourPassesAreASweep(db: Rows, cutoff: int, threshold: int)
    ensures Passes(db, cutoff, threshold, 0, 4) == Sweep(db, cutoff, threshold)
  {
    assert Passes(db, cutoff, threshold, 0, 1) == RecoverStuck(db, cutoff);
    assert Passes(db, cutoff, threshold, 0, 2) == DeactivateStale(RecoverStuck(db, cutoff), threshold);
  }

  /** Expiry may run before, after or between the passes of a sweep: the rows in the end are the same. */
  lemma ExpiryAnywhere(db: Rows, expiry: int, cutoff: int, threshold: int, i: nat)
    requires i <= 4
    ensures Passes(ExpireLeases(Passes(db, cutoff, threshold, 0, i), expiry), cutoff, threshold, i, 4)
      == ExpireLeases(Sweep(db, cutoff, threshold), expiry)
  {
    ExpiryCommutesWithPasses(Passes(db, cutoff, threshold, 0, i), expiry, cutoff, threshold, i, 4);
    PassesInTwoGoes(db, cutoff, threshold, i, 4);
    FourPassesAreASweep(db, cutoff, threshold);
  }

  /** The two loops commute on any rows, whatever cutoffs they use. */
  lemma LoopsCommute(db: Rows, expiry: int, cutoff: int, threshold: int)
    ensures Sweep(ExpireLeases(db, expiry), cutoff, threshold) == ExpireLeases(Sweep(db, cutoff, threshold), expiry)
  {
    ExpiryAnywhere(db, expiry, cutoff, threshold, 0);
    FourPassesAreASweep(ExpireLeases(db, expiry), cutoff, threshold);
  }

  // ----- The rows after both loops

  /** The lease goes in either order: expired, or of a RUNNING packet and past the scanner's cutoff, or orphaned. */
  ghost predicate Goes(db: Rows, expiry: int, cutoff: int, p: Id)
    requires p in db.leases
  {
    || db.leases[p].expiresAt < expiry
    || (p in db.packets && db.packets[p].state == Running && db.leases[p].expiresAt < cutoff)
    || (p in db.packets && db.packets[p].state != Running)
  }

  ghost predicate LosesALease(db: Rows, expiry: int, cutoff: int, w: Id) {
    exists p :: p in db.leases && db.leases[p].workerId == w && Goes(db, expiry, cutoff, p)
  }

  ghost function FinalWorker(db: Rows, expiry: int, cutoff: int, threshold: int, w: Id): Worker
    requires w in db.workers
  {
    var judged := Judged(db.workers[w], threshold);
    if LosesALease(db, expiry, cutoff, w) || LostLease(db.leases, w, judged)
    then judged.(currentPacketId := None)
    else judged
  }

  /** The rows after both loops, in either order. */
  ghost predicate BothDone(db: Rows, expiry: int, cutoff: int, threshold: int, after: Rows) {
    && after.packets.Keys == db.packets.Keys
    && (forall p :: p in db.packets ==>
          after.packets[p] ==
            if db.packets[p].state == Running && (p !in db.leases || Goes(db, expiry, cutoff, p))
            then db.packets[p].(state := Ready) else db.packets[p])
    && after.leases == (map p | p in db.leases && !Goes(db, expiry, cutoff, p) :: db.leases[p])
    && after.workers.Keys == db.workers.Keys
    && (forall w :: w in db.workers ==> after.workers[w] == FinalWorker(db, expiry, cutoff, threshold, w))
    && after.features == db.features && after.waves == db.waves
  }

  lemma ExpireThenSweep(db: Rows, expiry: int, cutoff: int, threshold: int, mid: Rows, after: Rows)
    requires IsExpired(db, expiry, mid) && IsSwept(mid, cutoff, threshold, after)
    ensures BothDone(db, expiry, cutoff, threshold, after)
  {
    forall p | p in db.leases ensures p in after.leases <==> !Goes(db, expiry, cutoff, p) {
    }
    forall w | w in db.workers ensures after.workers[w] == FinalWorker(db, expiry, cutoff, threshold, w) {
      assert after.workers[w] == SweptWorker(mid, cutoff, threshold, w);
      ExpireThenSweepWorker(db, expiry, cutoff, threshold, mid, w);
    }
  }

  lemma ExpireThenSweepWorker(db: Rows, expiry: int, cutoff: int, threshold: int, mid: Rows, w: Id)
    requires IsExpired(db, expiry, mid) && w in db.workers
    ensures SweptWorker(mid, cutoff, threshold, w) == FinalWorker(db, expiry, cutoff, threshold, w)
  {
    var expired, stuck := ExpiredLeases(db.leases, expiry), StuckPackets(mid, cutoff);
    if LosesALease(db, expiry, cutoff, w) {
      var p :| p in db.leases && db.leases[p].workerId == w && Goes(db, expiry, cutoff, p);
      assert p in expired || (p in mid.leases && (p in stuck || p in OrphanLeases(mid)));
    } else {
      assert !Holds(db.leases, expired, w);
      assert !Holds(mid.leases, stuck, w) && !Holds(mid.leases, OrphanLeases(mid), w);
      assert forall p :: p in db.leases && db.leases[p].workerId == w ==> p in mid.leases - stuck;
    }
  }

  /** Both loops in closed form, whichever comes first. */
  lemma BothLoopsEffect(db: Rows, expiry: int, cutoff: int, threshold: int)
    ensures BothDone(db, expiry, cutoff, threshold, Sweep(ExpireLeases(db, expiry), cutoff, threshold))
    ensures BothDone(db, expiry, cutoff, threshold, ExpireLeases(Sweep(db, cutoff, threshold), expiry))
  {
    var expired := ExpireLeases(db, expiry);
    ExpireIsExpired(db, expiry);
    SweepIsSwept(expired, cutoff, threshold);
    ExpireThenSweep(db, expiry, cutoff, threshold, expired, Sweep(expired, cutoff, threshold));
    LoopsCommute(db, expiry, cutoff, threshold);
  }

  /** After both loops no lease is past the expiry cutoff, and the rows are still consistent for the scanner. */
  lemma BothLoopsStabilise(db: Rows, expiry: int, cutoff: int, threshold: int)
    ensures
      var after := ExpireLeases(Sweep(db, cutoff, threshold), expiry);
      && Consistent(after, cutoff, threshold)
      && forall p :: p in after.leases ==> after.leases[p].expiresAt >= expiry
  {
    LoopsCommute(db, expiry, cutoff, threshold);
    SweepStabilises(ExpireLeases(db, expiry), cutoff, threshold);
  }
}
