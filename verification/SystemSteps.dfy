/** The steps of the runs, carried out by the services themselves. */
module SystemSteps {
  import opened PacketStates
  import opened Database
  import LeaseManager
  import StuckScanner
  import PacketOperations
  import PacketServices
  import RecoveryActions
  import WaveGate
  import FeatureGate
  import opened SystemRuns

  /** One transaction: every step of a run is what its service does to the rows. */
  method Perform(db: Store, step: Step)
    requires StepOk(step)
    requires step.OpenWaves? ==> forall f :: f in step.featureIds <==> f in db.waves
    modifies db
    ensures db.Now() == Apply(old(db.Now()), step)
  {
    if IsPacketStep(step) {
      PerformOnPacket(db, step);
    } else {
      PerformOnTables(db, step);
    }
  }

  predicate IsPacketStep(step: Step) {
    step.MarkReady? || step.MarkRunning? || step.MarkAccepted? || step.MarkRejected? || step.MarkFailed?
    || step.RetryPacket? || step.CoderRetry? || step.ReturnToArchitect? || step.BlockFeature? || step.RetryMerge?
    || step.Claim? || step.ManualRetry? || step.RerunStage? || step.Serve?
  }

  method PerformOnPacket(db: Store, step: Step)
    requires IsPacketStep(step)
    modifies db
    ensures db.Now() == Apply(old(db.Now()), step)
  {
    match step
    case MarkReady(id) => var _ := PacketOperations.MarkReady(db, id);
    case MarkRunning(id) => var _ := PacketOperations.MarkRunning(db, id);
    case MarkAccepted(id) => var _ := PacketOperations.MarkAccepted(db, id);
    case MarkRejected(id) => var _ := PacketOperations.MarkRejected(db, id);
    case MarkFailed(id) => var _ := PacketOperations.MarkFailed(db, id);
    case RetryPacket(id) => var _ := PacketOperations.RetryPacket(db, id);
    case CoderRetry(id) => var _ := RecoveryActions.ApplyCoderRetry(db, id);
    case ReturnToArchitect(id) => var _ := RecoveryActions.ApplyReturnToArchitect(db, id);
    case BlockFeature(id) => var _ := RecoveryActions.ApplyBlockFeature(db, id);
    case RetryMerge(id) => var _ := RecoveryActions.ApplyRetryMerge(db, id);
    case Claim(id, worker, now, expiresAt) => var _ := PacketServices.Claim(db, id, worker, now, expiresAt);
    case ManualRetry(id) => var _ := PacketServices.ManualRetry(db, id);
    case RerunStage(id) => PacketServices.RerunStage(db, id);
    case Serve(id, to) => var _ := PacketOperations.Transition(db, id, to);
  }

  method PerformOnTables(db: Store, step: Step)
    requires StepOk(step) && !IsPacketStep(step)
    requires step.OpenWaves? ==> forall f :: f in step.featureIds <==> f in db.waves
    modifies db
    ensures db.Now() == Apply(old(db.Now()), step)
  {
    match step
    case ReclaimOne(id) => ReclaimPacket(db, id);
    case OpenWaves(featureIds) => PassTheGate(db, featureIds);
    case CompleteFeature => CompleteFeatures(db);
    case Expire(_) => PerformPass(db, step);
    case ScanStuck(_) => PerformPass(db, step);
    case ScanStale(_) => PerformPass(db, step);
    case ScanMismatches => PerformPass(db, step);
    case ScanOrphans => PerformPass(db, step);
    case Bookkeep(leases, workers) => db.leases, db.workers := leases, workers;
  }

  /** One pass of a background loop. */
  method PerformPass(db: Store, step: Step)
    requires step.Expire? || step.ScanStuck? || step.ScanStale? || step.ScanMismatches? || step.ScanOrphans?
    modifies db
    ensures db.Now() == Apply(old(db.Now()), step)
  {
    match step
    case Expire(cutoff) => var _ := LeaseManager.CheckExpiredLeases(db, cutoff);
    case ScanStuck(cutoff) => var _ := StuckScanner.ScanStuckRunning(db, cutoff);
    case ScanStale(threshold) => var _ := StuckScanner.ScanStaleWorkers(db, threshold);
    case ScanMismatches => var _ := StuckScanner.ScanWorkerPacketMismatches(db);
    case ScanOrphans => var _ := StuckScanner.ScanOrphanLeases(db);
  }

  method PassTheGate(db: Store, featureIds: seq<Id>)
    requires StepOk(OpenWaves(featureIds)) && forall f :: f in featureIds <==> f in db.waves
    modifies db
    ensures db.Now() == WaveGate.GateAll(old(db.Now()), featureIds)
  {
    var _ := WaveGate.CheckWaveGates(db, featureIds);
  }

  method CompleteFeatures(db: Store)
    modifies db
    ensures db.Now() == FeatureGate.CompleteFeatures(old(db.Now()))
  {
    var _ := FeatureGate.CheckFeatureCompletion(db);
  }

  /** The health check's reclaim: the packet may have lost its lease already. */
  method ReclaimPacket(db: Store, id: Id)
    modifies db
    ensures db.Now() == Reclaim(old(db.Now()), {id})
  {
    if id in db.leases {
      LeaseManager.ReclaimOne(db, id);
    } else {
      assert Holders(db.leases, {id}) == {} && Cleared(db.workers, {}) == db.workers;
      assert db.leases - {id} == db.leases;
      if id in db.packets && db.packets[id].state == Running {
        assert RunningAmong(db.packets, {id}) == {id};
        db.SetPacketState(id, Ready);
        assert db.packets == WithState(old(db.packets), {id}, Ready);
      } else {
        assert RunningAmong(db.packets, {id}) == {};
        assert WithState(db.packets, {}, Ready) == db.packets;
      }
    }
  }
}
