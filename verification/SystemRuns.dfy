/** Runs of the whole system: operations, recovery, the two background loops and the gates in any order. */
module SystemRuns {
  import opened PacketStates
  import opened Database
  import opened LeaseManager
  import opened StuckScanner
  import opened PacketOperations
  import opened PacketServices
  import opened RecoveryActions
  import opened WaveGate
  import opened FeatureGate

  /** One transaction. */
  datatype Step =
    | MarkReady(id: Id)
    | MarkRunning(id: Id)
    | MarkAccepted(id: Id)
    | MarkRejected(id: Id)
    | MarkFailed(id: Id)
    | RetryPacket(id: Id)
    | CoderRetry(id: Id)
    | ReturnToArchitect(id: Id)
    | BlockFeature(id: Id)
    | RetryMerge(id: Id)
    | Claim(id: Id, worker: Id, now: int, expiresAt: int)
    | ManualRetry(id: Id)
    | RerunStage(id: Id)
    | Serve(id: Id, to: PacketState)  // any other service: any move along the table
    | ReclaimOne(id: Id)  // the health check, for the packet of a dead worker
    | Expire(cutoff: int)
    | ScanStuck(cutoff: int)
    | ScanStale(threshold: int)
    | ScanMismatches
    | ScanOrphans
    | OpenWaves(featureIds: seq<Id>)
    | CompleteFeature
    | Bookkeep(leases: map<Id, Lease>, workers: map<Id, Worker>)  // renewals and heartbeats: any lease and worker rows

  /** The gate visits every feature once. */
  predicate StepOk(step: Step) {
    step.OpenWaves? ==> forall i, j :: 0 <= i < j < |step.featureIds| ==> step.featureIds[i] != step.featureIds[j]
  }

  function Apply(db: Rows, step: Step): Rows {
    match step
    case MarkReady(id) => Transitioned(db, id, Ready)
    case MarkRunning(id) => Started(db, id)
    case MarkAccepted(id) => Transitioned(db, id, Accepted)
    case MarkRejected(id) => Transitioned(db, id, Rejected)
    case MarkFailed(id) => Transitioned(db, id, Failed)
    case RetryPacket(id) => Retried(db, id)
    case CoderRetry(id) => CoderRetried(db, id)
    case ReturnToArchitect(id) => Transitioned(db, id, BlockedFinal)
    case BlockFeature(id) => Transitioned(db, id, BlockedFinal)
    case RetryMerge(id) => Transitioned(db, id, Accepted)
    case Claim(id, worker, now, expiresAt) => Claimed(db, id, worker, now, expiresAt)
    case ManualRetry(id) => ManuallyRetried(db, id)
    case RerunStage(id) => Rerun(db, id)
    case Serve(id, to) => Transitioned(db, id, to)
    case ReclaimOne(id) => Reclaim(db, {id})
    case Expire(cutoff) => ExpireLeases(db, cutoff)
    case ScanStuck(cutoff) => RecoverStuck(db, cutoff)
    case ScanStale(threshold) => DeactivateStale(db, threshold)
    case ScanMismatches => ClearMismatches(db)
    case ScanOrphans => CleanOrphans(db)
    case OpenWaves(fs) => GateAll(db, fs)
    case CompleteFeature => CompleteFeatures(db)
    case Bookkeep(leases, workers) => db.(leases := leases, workers := workers)
  }

  ghost predicate StepAt(run: seq<Rows>, steps: seq<Step>, i: nat)
    requires |run| == |steps| + 1 && i < |steps|
  {
    StepOk(steps[i]) && run[i + 1] == Apply(run[i], steps[i])
  }

  /** `run` lists the rows before, between and after the steps. */
  ghost predicate IsRun(run: seq<Rows>, steps: seq<Step>) {
    |run| == |steps| + 1 && forall i :: 0 <= i < |steps| ==> StepAt(run, steps, i)
  }

  lemma RunPrefix(run: seq<Rows>, steps: seq<Step>, i: nat)
    requires IsRun(run, steps) && i < |run|
    ensures IsRun(run[..i + 1], steps[..i])
  {
    var r, s := run[..i + 1], steps[..i];
    forall k | 0 <= k < |s| ensures StepAt(r, s, k) {
      assert StepAt(run, steps, k);
    }
  }

  // ----- What one step does to one packet

  /** The step acts on this packet alone. */
  predicate ActsOn(step: Step, p: Id) {
    match step
    case MarkReady(id) => id == p
    case MarkRunning(id) => id == p
    case MarkAccepted(id) => id == p
    case MarkRejected(id) => id == p
    case MarkFailed(id) => id == p
    case RetryPacket(id) => id == p
    case CoderRetry(id) => id == p
    case ReturnToArchitect(id) => id == p
    case BlockFeature(id) => id == p
    case RetryMerge(id) => id == p
    case Claim(id, _, _, _) => id == p
    case ManualRetry(id) => id == p
    case RerunStage(id) => id == p
    case Serve(id, _) => id == p
    case _ => false
  }

  /**
   * The step sends the packet back to work without asking how many attempts are left: READY or RUNNING by
   * hand from a state after an attempt, or a rerun, which counts an attempt in any state.
   */
  predicate Unchecked(db: Rows, step: Step, p: Id) {
    && p in db.packets
    && match step
       case MarkReady(id) => id == p && db.packets[p].state in {Rejected, Blocked, BlockedRecoverable}
       case Serve(id, to) => id == p && to == Ready && db.packets[p].state in {Rejected, Blocked, BlockedRecoverable}
       case Claim(id, _, now, _) =>
         id == p && Claimable(db, p, now) && db.packets[p].state in {Rejected, BlockedRecoverable}
       case ManualRetry(id) => id == p && db.packets[p].state in RETRYABLE_STATES
       case RerunStage(id) => id == p
       case _ => false
  }

  /** What an unchecked step does to the packet. */
  predicate UncheckedEffect(q: Packet, r: Packet) {
    || (q.state in {Rejected, Blocked, BlockedRecoverable} && r == q.(state := Ready))
    || (q.state in {Rejected, BlockedRecoverable} && r == q.(state := Running, attemptCount := q.attemptCount + 1))
    || (q.state in {Rejected, BlockedRecoverable} && r == q.(state := Ready, attemptCount := q.attemptCount + 1))
    || r == q.(state := StateForRerun(q.state), attemptCount := q.attemptCount + 1)
  }

  /** What any other step can do to a packet row. */
  predicate CheckedEffect(q: Packet, r: Packet) {
    || r == q
    || (q.state in {Draft, Ready} && r == q.(state := Running, attemptCount := q.attemptCount + 1))
    || (q.state == Running && r == q.(state := Ready))
    || (CanTransition(q.state, r.state) && r.state != Ready && r == q.(state := r.state))
    || (q.state == Draft && r == q.(state := Ready))
    || (q.state == Rejected && q.attemptCount < q.maxAttempts && r == q.(state := Ready))
    || (CanTransition(q.state, Ready) && r == q.(state := Ready, maxAttempts := Max(q.maxAttempts, q.attemptCount + 1)))
  }

  predicate PacketEffect(q: Packet, r: Packet, unchecked: bool) {
    && r.featureId == q.featureId && r.waveId == q.waveId
    && if unchecked then UncheckedEffect(q, r) else CheckedEffect(q, r)
  }

  lemma StepKeepsPackets(db: Rows, step: Step)
    requires StepOk(step)
    ensures Apply(db, step).packets.Keys == db.packets.Keys
  {
    if step.OpenWaves? {
      GateAllIsGated(db, step.featureIds);
    }
  }

  /** Every step treats each packet in one of the listed ways. */
  lemma StepEffect(db: Rows, step: Step, p: Id)
    requires StepOk(step) && p in db.packets
    ensures p in Apply(db, step).packets
    ensures PacketEffect(db.packets[p], Apply(db, step).packets[p], Unchecked(db, step, p))
  {
    match step
    case OpenWaves(fs) => GateEffect(db, fs, p);
    case Expire(_) => LoopEffect(db, step, p);
    case ScanStuck(_) => LoopEffect(db, step, p);
    case ScanOrphans => LoopEffect(db, step, p);
    case ReclaimOne(_) => LoopEffect(db, step, p);
    case ScanStale(_) => TablesEffect(db, step, p);
    case ScanMismatches => TablesEffect(db, step, p);
    case CompleteFeature => TablesEffect(db, step, p);
    case Bookkeep(_, _) => TablesEffect(db, step, p);
    case MarkReady(id) => MoveEffect(db, step, id, Ready, p);
    case MarkAccepted(id) => MoveEffect(db, step, id, Accepted, p);
    case MarkRejected(id) => MoveEffect(db, step, id, Rejected, p);
    case MarkFailed(id) => MoveEffect(db, step, id, Failed, p);
    case ReturnToArchitect(id) => MoveEffect(db, step, id, BlockedFinal, p);
    case BlockFeature(id) => MoveEffect(db, step, id, BlockedFinal, p);
    case RetryMerge(id) => MoveEffect(db, step, id, Accepted, p);
    case Serve(id, to) => MoveEffect(db, step, id, to, p);
    case MarkRunning(_) => OperationEffect(db, step, p);
    case RetryPacket(_) => OperationEffect(db, step, p);
    case CoderRetry(_) => OperationEffect(db, step, p);
    case Claim(_, _, _, _) => ServiceEffect(db, step, p);
    case ManualRetry(_) => ServiceEffect(db, step, p);
    case RerunStage(_) => ServiceEffect(db, step, p);
  }

  /** The reclaims of the two loops and of the health check. */
  lemma LoopEffect(db: Rows, step: Step, p: Id)
    requires StepOk(step) && p in db.packets
    requires step.Expire? || step.ScanStuck? || step.ScanOrphans? || step.ReclaimOne?
    ensures p in Apply(db, step).packets
    ensures PacketEffect(db.packets[p], Apply(db, step).packets[p], false)
  {
    match step
    case Expire(cutoff) => ReclaimEffect(db, ExpiredLeases(db.leases, cutoff), p);
    case ScanStuck(cutoff) => ReclaimEffect(db, StuckPackets(db, cutoff), p);
    case ScanOrphans => ReclaimEffect(db, OrphanLeases(db), p);
    case ReclaimOne(id) => ReclaimEffect(db, {id}, p);
  }

  /** The steps that touch no packet. */
  lemma TablesEffect(db: Rows, step: Step, p: Id)
    requires step.ScanStale? || step.ScanMismatches? || step.CompleteFeature? || step.Bookkeep?
    ensures Apply(db, step).packets == db.packets
  {
  }

  /** A move along the table. */
  lemma MoveEffect(db: Rows, step: Step, id: Id, to: PacketState, p: Id)
    requires p in db.packets
    requires to == Ready ==> step == MarkReady(id) || step == Serve(id, Ready)
    requires to != Ready ==> !Unchecked(db, step, p)
    ensures p in Transitioned(db, id, to).packets
    ensures PacketEffect(db.packets[p], Transitioned(db, id, to).packets[p], Unchecked(db, step, p))
  {
  }

  lemma OperationEffect(db: Rows, step: Step, p: Id)
    requires p in db.packets
    requires step.MarkRunning? || step.RetryPacket? || step.CoderRetry?
    ensures p in Apply(db, step).packets
    ensures PacketEffect(db.packets[p], Apply(db, step).packets[p], false)
  {
  }

  lemma ServiceEffect(db: Rows, step: Step, p: Id)
    requires p in db.packets && (step.Claim? || step.ManualRetry? || step.RerunStage?)
    ensures p in Apply(db, step).packets
    ensures PacketEffect(db.packets[p], Apply(db, step).packets[p], Unchecked(db, step, p))
  {
  }

  lemma ReclaimEffect(db: Rows, ids: set<Id>, p: Id)
    requires p in db.packets
    ensures p in Reclaim(db, ids).packets
    ensures Reclaim(db, ids).packets[p] == db.packets[p]
      || (db.packets[p].state == Running && Reclaim(db, ids).packets[p] == db.packets[p].(state := Ready))
  {
  }

  lemma GateEffect(db: Rows, fs: seq<Id>, p: Id)
    requires StepOk(OpenWaves(fs)) && p in db.packets
    ensures p in GateAll(db, fs).packets
    ensures PacketEffect(db.packets[p], GateAll(db, fs).packets[p], false)
  {
    GateAllIsGated(db, fs);
    GatedEffect(db, fs, GateAll(db, fs), p);
  }

  lemma GatedEffect(db: Rows, fs: seq<Id>, after: Rows, p: Id)
    requires AllPacketsGated(db, fs, after) && p in db.packets
    ensures after.packets[p] == db.packets[p]
      || (db.packets[p].state == Draft && after.packets[p] == db.packets[p].(state := Ready))
  {
  }

  /** A step for one packet leaves the others alone. */
  lemma StepElsewhere(db: Rows, step: Step, p: Id, q: Id)
    requires ActsOn(step, p) && q != p && q in db.packets
    ensures q in Apply(db, step).packets && Apply(db, step).packets[q] == db.packets[q]
  {
  }

  /** Every step keeps the waves of every feature, in order; only their statuses change. */
  lemma StepKeepsWaves(db: Rows, step: Step, f: Id)
    requires StepOk(step) && f in db.waves
    ensures
      var after := Apply(db, step);
      && after.waves.Keys == db.waves.Keys
      && |after.waves[f]| == |db.waves[f]|
      && forall i :: 0 <= i < |db.waves[f]| ==> after.waves[f][i].id == db.waves[f][i].id
  {
    if step.OpenWaves? {
      GateAllIsGated(db, step.featureIds);
    }
  }

  lemma StepKeepsWaveKeys(db: Rows, step: Step)
    requires StepOk(step)
    ensures Apply(db, step).waves.Keys == db.waves.Keys
  {
  }

  /**
   * A packet's states along a run follow the table and the reclaim edge; a claim may make two moves of the
   * table, into READY and into RUNNING, in one transaction.
   */
  lemma StepFollowsTable(db: Rows, step: Step, p: Id)
    requires StepOk(step) && p in db.packets
    ensures p in Apply(db, step).packets
    ensures
      var before, after := db.packets[p].state, Apply(db, step).packets[p].state;
      after == before || PacketStep(before, after) || (PacketStep(before, Ready) && after == Running)
  {
    StepEffect(db, step, p);
  }

  lemma {:induction false} RunKeepsPackets(run: seq<Rows>, steps: seq<Step>, i: nat)
    requires IsRun(run, steps) && i < |run|
    ensures run[i].packets.Keys == run[0].packets.Keys
  {
    if i > 0 {
      RunKeepsPackets(run, steps, i - 1);
      assert StepAt(run, steps, i - 1);
      StepKeepsPackets(run[i - 1], steps[i - 1]);
    }
  }
}
