/** What the gates guarantee over all runs: waves run one after the other, completed features stay complete. */
module WaveSafety {
  import opened PacketStates
  import opened Database
  import opened PacketServices
  import opened WaveGate
  import opened FeatureGate
  import opened SystemRuns

  /** Packet p belongs to wave j of feature f. */
  ghost predicate InWave(db: Rows, f: Id, j: nat, p: Id) {
    && f in db.waves && j < |db.waves[f]|
    && p in db.packets && db.packets[p].featureId == f && db.packets[p].waveId == db.waves[f][j].id
  }

  /** Wave ids are primary keys. */
  ghost predicate WaveIdsUnique(db: Rows, f: Id) {
    f in db.waves ==> forall i, j :: 0 <= i < j < |db.waves[f]| ==> db.waves[f][i].id != db.waves[f][j].id
  }

  /** Every packet of a wave of f before a wave of p is MERGED or CANCELLED. */
  ghost predicate EarlierWavesDone(db: Rows, f: Id, p: Id) {
    forall i, j, q :: i < j && InWave(db, f, j, p) && InWave(db, f, i, q) ==> IsDone(db.packets[q].state)
  }

  /** Once a packet of the feature has left DRAFT, all packets of earlier waves are MERGED or CANCELLED. */
  ghost predicate WavesInTurn(db: Rows, f: Id) {
    forall p :: p in db.packets && db.packets[p].state != Draft ==> EarlierWavesDone(db, f, p)
  }

  /** The step takes the draft p out of DRAFT without consulting the gate. */
  predicate ReadiesByHand(db: Rows, step: Step, p: Id) {
    && p in db.packets && db.packets[p].state == Draft
    && match step
       case MarkReady(id) => id == p
       case CoderRetry(id) => id == p
       case RerunStage(id) => id == p
       case Serve(id, to) => id == p && to == Ready
       case Claim(id, _, now, _) => id == p && !LeasedNow(db.leases, p, now)
       case _ => false
  }

  /** A draft is taken out of DRAFT by hand only when the earlier waves of its feature are done. */
  ghost predicate RespectsTurn(db: Rows, step: Step, f: Id) {
    forall p :: ReadiesByHand(db, step, p) ==> EarlierWavesDone(db, f, p)
  }

  /** Every step keeps the wave of every packet and every finished packet finished. */
  lemma StepKeepsInWave(db: Rows, step: Step, f: Id, j: nat, p: Id)
    requires StepOk(step)
    ensures InWave(Apply(db, step), f, j, p) <==> InWave(db, f, j, p)
    ensures p in db.packets && IsDone(db.packets[p].state) ==>
      p in Apply(db, step).packets && IsDone(Apply(db, step).packets[p].state)
  {
    StepKeepsPackets(db, step);
    StepKeepsWaveKeys(db, step);
    if p in db.packets {
      StepEffect(db, step, p);
    }
    if f in db.waves {
      StepKeepsWaves(db, step, f);
    }
  }

  lemma StepKeepsWaveIds(db: Rows, step: Step, f: Id)
    requires StepOk(step) && WaveIdsUnique(db, f)
    ensures WaveIdsUnique(Apply(db, step), f)
  {
    StepKeepsWaveKeys(db, step);
    if f in db.waves {
      StepKeepsWaves(db, step, f);
    }
  }

  /** The wave before an open one is complete, and by turn so are all waves before that. */
  lemma ReleasedAfterEarlierWaves(db: Rows, f: Id, p: Id)
    requires WaveIdsUnique(db, f) && WavesInTurn(db, f) && p in db.packets && Released(db, p)
    ensures EarlierWavesDone(db, f, p)
  {
    forall i, j, q | i < j && InWave(db, f, j, p) && InWave(db, f, i, q) ensures IsDone(db.packets[q].state) {
      var k :| 0 <= k < |db.waves[f]| - 1 && OpensAt(db, f, k, p);
      assert k + 1 == j;
      if i == k {
        assert q in WavePackets(db.packets, f, db.waves[f][k].id);
      } else {
        var r :| r in WavePackets(db.packets, f, db.waves[f][k].id);
        assert InWave(db, f, k, r) && IsDone(db.packets[r].state);
        assert EarlierWavesDone(db, f, r);
      }
    }
  }

  /** A draft leaves DRAFT only by hand or because the gate releases it. */
  lemma OnlyByHandOrGate(db: Rows, step: Step, p: Id)
    requires StepOk(step) && p in db.packets && db.packets[p].state == Draft
    requires p in Apply(db, step).packets && Apply(db, step).packets[p].state != Draft
    ensures ReadiesByHand(db, step, p) || Released(db, p)
  {
    StepEffect(db, step, p);
    if step.OpenWaves? {
      GateAllIsGated(db, step.featureIds);
      GateOpensReleased(db, step.featureIds, GateAll(db, step.featureIds), p);
    }
  }

  lemma GateOpensReleased(db: Rows, fs: seq<Id>, after: Rows, p: Id)
    requires AllPacketsGated(db, fs, after) && p in db.packets && after.packets[p] != db.packets[p]
    ensures Released(db, p)
  {
  }

  /** What was done before a step is done after it. */
  lemma StepKeepsEarlierDone(db: Rows, step: Step, f: Id, p: Id)
    requires StepOk(step) && EarlierWavesDone(db, f, p)
    ensures EarlierWavesDone(Apply(db, step), f, p)
  {
    var after := Apply(db, step);
    forall i, j, q | i < j && InWave(after, f, j, p) && InWave(after, f, i, q) ensures IsDone(after.packets[q].state) {
      StepKeepsInWave(db, step, f, j, p);
      StepKeepsInWave(db, step, f, i, q);
    }
  }

  lemma HandTouchesOne(db: Rows, step: Step, p: Id)
    requires ReadiesByHand(db, step, p)
    ensures ActsOn(step, p) && p in Apply(db, step).packets && Apply(db, step).packets[p].state != Draft
  {
  }

  /** Taking a packet out of DRAFT by hand finishes no packet of another wave. */
  lemma HandKeepsEarlier(db: Rows, step: Step, f: Id, p: Id)
    requires StepOk(step) && WaveIdsUnique(db, f)
    requires ReadiesByHand(db, step, p) && EarlierWavesDone(Apply(db, step), f, p)
    ensures EarlierWavesDone(db, f, p)
  {
    var after := Apply(db, step);
    forall i, j, q | i < j && InWave(db, f, j, p) && InWave(db, f, i, q) ensures IsDone(db.packets[q].state) {
      StepKeepsInWave(db, step, f, j, p);
      StepKeepsInWave(db, step, f, i, q);
      HandTouchesOne(db, step, p);
      StepElsewhere(db, step, p, q);
      assert IsDone(after.packets[q].state);
    }
  }

  /** Every step of the system keeps the waves of a feature in turn exactly when it respects them. */
  lemma StepKeepsTurnExactly(db: Rows, step: Step, f: Id)
    requires StepOk(step) && WaveIdsUnique(db, f) && WavesInTurn(db, f)
    ensures WavesInTurn(Apply(db, step), f) <==> RespectsTurn(db, step, f)
  {
    var after := Apply(db, step);
    StepKeepsPackets(db, step);
    if RespectsTurn(db, step, f) {
      forall p | p in after.packets && after.packets[p].state != Draft ensures EarlierWavesDone(after, f, p) {
        if db.packets[p].state == Draft {
          OnlyByHandOrGate(db, step, p);
          if !ReadiesByHand(db, step, p) {
            ReleasedAfterEarlierWaves(db, f, p);
          }
        }
        StepKeepsEarlierDone(db, step, f, p);
      }
    }
    if WavesInTurn(after, f) {
      forall p | ReadiesByHand(db, step, p) ensures EarlierWavesDone(db, f, p) {
        HandTouchesOne(db, step, p);
        HandKeepsEarlier(db, step, f, p);
      }
    }
  }

  ghost predicate RespectsTurnAt(run: seq<Rows>, steps: seq<Step>, f: Id, i: nat)
    requires |run| == |steps| + 1 && i < |steps|
  {
    RespectsTurn(run[i], steps[i], f)
  }

  lemma {:induction false} RunKeepsWaveIds(run: seq<Rows>, steps: seq<Step>, f: Id, i: nat)
    requires IsRun(run, steps) && i < |run| && WaveIdsUnique(run[0], f)
    ensures WaveIdsUnique(run[i], f)
  {
    if i > 0 {
      RunKeepsWaveIds(run, steps, f, i - 1);
      assert StepAt(run, steps, i - 1);
      StepKeepsWaveIds(run[i - 1], steps[i - 1], f);
    }
  }

  /** As long as the steps respect the turn of a feature, its waves take their turns. */
  lemma WaveSafetyOverRuns(run: seq<Rows>, steps: seq<Step>, f: Id, i: nat)
    requires IsRun(run, steps) && i < |run|
    requires WaveIdsUnique(run[0], f) && WavesInTurn(run[0], f)
    requires forall k :: 0 <= k < i ==> RespectsTurnAt(run, steps, f, k)
    ensures WavesInTurn(run[i], f)
  {
    for k := 0 to i
      invariant WavesInTurn(run[k], f)
    {
      RunKeepsWaveIds(run, steps, f, k);
      assert StepAt(run, steps, k) && RespectsTurnAt(run, steps, f, k);
      StepKeepsTurnExactly(run[k], steps[k], f);
    }
  }

  /**
   * The waves of a feature take their turns in every state of a run exactly when every step that takes a
   * draft out of DRAFT by hand does so after the earlier waves are done.
   */
  lemma WaveSafetyExact(run: seq<Rows>, steps: seq<Step>, f: Id)
    requires IsRun(run, steps) && WaveIdsUnique(run[0], f) && WavesInTurn(run[0], f)
    ensures (forall i :: 0 <= i < |run| ==> WavesInTurn(run[i], f)) <==>
            (forall k :: 0 <= k < |steps| ==> RespectsTurnAt(run, steps, f, k))
  {
    if forall i :: 0 <= i < |run| ==> WavesInTurn(run[i], f) {
      forall k | 0 <= k < |steps| ensures RespectsTurnAt(run, steps, f, k) {
        RunKeepsWaveIds(run, steps, f, k);
        assert StepAt(run, steps, k) && WavesInTurn(run[k], f) && WavesInTurn(run[k + 1], f);
        StepKeepsTurnExactly(run[k], steps[k], f);
      }
    }
    if forall k :: 0 <= k < |steps| ==> RespectsTurnAt(run, steps, f, k) {
      forall i | 0 <= i < |run| ensures WavesInTurn(run[i], f) {
        WaveSafetyOverRuns(run, steps, f, i);
      }
    }
  }

  /** If all packets of later waves are drafts, the waves are in turn to begin with. */
  lemma AllLaterDrafts(db: Rows, f: Id)
    requires forall j, p :: 0 < j && InWave(db, f, j, p) ==> db.packets[p].state == Draft
    ensures WavesInTurn(db, f)
  {
  }

  /** Two waves of one packet each, both waves in turn: the second is a draft, the first is not done. */
  function TwoWaves(): Rows {
    Rows(map["p" := Packet("f", "u", Ready, 0, 3), "q" := Packet("f", "v", Draft, 0, 3)], map[], map[], map[],
         map["f" := [Wave("u", "NOT_STARTED"), Wave("v", "NOT_STARTED")]])
  }

  /** On these rows mark_ready, the coder retry and a claim each start the second wave out of turn. */
  lemma TurnBrokenByHand(step: Step)
    requires step == MarkReady("q") || step == CoderRetry("q") || step == Claim("q", "w", 0, 1)
    ensures WaveIdsUnique(TwoWaves(), "f") && WavesInTurn(TwoWaves(), "f") && !WavesInTurn(Apply(TwoWaves(), step), "f")
  {
    var db := TwoWaves();
    assert InWave(db, "f", 0, "p") && InWave(db, "f", 1, "q");
    assert forall j, p :: 0 < j && InWave(db, "f", j, p) ==> p == "q";
    AllLaterDrafts(db, "f");
    assert ReadiesByHand(db, step, "q") && !EarlierWavesDone(db, "f", "q");
    StepKeepsTurnExactly(db, step, "f");
  }

  // ----- Features

  predicate IsCompleted(db: Rows, f: Id) {
    f in db.features && db.features[f].status == "COMPLETED"
  }

  /** A feature marked COMPLETED has only MERGED and CANCELLED packets. */
  ghost predicate CompletedAreDone(db: Rows) {
    forall f, p :: IsCompleted(db, f) && p in db.packets && db.packets[p].featureId == f ==> IsDone(db.packets[p].state)
  }

  lemma StepKeepsCompleted(db: Rows, step: Step)
    requires StepOk(step) && CompletedAreDone(db)
    ensures CompletedAreDone(Apply(db, step))
  {
    var after := Apply(db, step);
    StepKeepsPackets(db, step);
    forall f, p | IsCompleted(after, f) && p in after.packets && after.packets[p].featureId == f
      ensures IsDone(after.packets[p].state)
    {
      CompletedStaysDone(db, step, f, p);
    }
  }

  lemma EffectKeepsDone(q: Packet, r: Packet, unchecked: bool)
    requires PacketEffect(q, r, unchecked)
    ensures r.featureId == q.featureId && (IsDone(q.state) ==> IsDone(r.state))
  {
  }

  lemma CompletedStaysDone(db: Rows, step: Step, f: Id, p: Id)
    requires StepOk(step) && CompletedAreDone(db) && IsCompleted(Apply(db, step), f)
    requires p in db.packets && p in Apply(db, step).packets && Apply(db, step).packets[p].featureId == f
    ensures IsDone(Apply(db, step).packets[p].state)
  {
    StepEffect(db, step, p);
    EffectKeepsDone(db.packets[p], Apply(db, step).packets[p], Unchecked(db, step, p));
    StepFeatureStatus(db, step, f);
    if !IsCompleted(db, f) {
      assert p in FeaturePackets(db.packets, f);
    }
  }

  /** A feature becomes COMPLETED only through the feature gate, when all its packets are done. */
  lemma StepFeatureStatus(db: Rows, step: Step, f: Id)
    requires StepOk(step) && f in Apply(db, step).features
    ensures f in db.features
    ensures Apply(db, step).features[f].status == db.features[f].status
      || (step == CompleteFeature && AllPacketsDone(db.packets, f) && Apply(db, step).packets == db.packets)
  {
    if step.OpenWaves? {
      GateAllIsGated(db, step.featureIds);
    }
  }

  /** A feature that is COMPLETED at some point keeps all its packets MERGED or CANCELLED ever after. */
  lemma {:induction false} CompletedOverRuns(run: seq<Rows>, steps: seq<Step>, i: nat)
    requires IsRun(run, steps) && i < |run| && CompletedAreDone(run[0])
    ensures CompletedAreDone(run[i])
  {
    if i > 0 {
      CompletedOverRuns(run, steps, i - 1);
      assert StepAt(run, steps, i - 1);
      StepKeepsCompleted(run[i - 1], steps[i - 1]);
    }
  }

  /** Neither MERGED nor CANCELLED is ever left. */
  lemma {:induction false} DoneForGood(run: seq<Rows>, steps: seq<Step>, i: nat, j: nat, p: Id)
    requires IsRun(run, steps) && i <= j < |run| && p in run[i].packets && IsDone(run[i].packets[p].state)
    ensures p in run[j].packets && run[j].packets[p].state == run[i].packets[p].state
    decreases j - i
  {
    if i < j {
      assert StepAt(run, steps, i);
      StepFollowsTable(run[i], steps[i], p);
      DoneForGood(run, steps, i + 1, j, p);
    }
  }
}
