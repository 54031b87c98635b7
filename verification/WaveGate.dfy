/** The wave gate: a wave opens when the wave before it is finished. */
module WaveGate {
  import opened Sequences
  import opened PacketStates
  import opened Database

  predicate IsDegraded(s: PacketState) {
    s in {Failed, Rejected, Blocked, BlockedRecoverable, BlockedFinal}
  }

  /** The packets of one wave of a feature. */
  function WavePackets(packets: map<Id, Packet>, f: Id, w: Id): set<Id> {
    set p | p in packets && packets[p].featureId == f && packets[p].waveId == w
  }

  /** The wave has packets and all of them are MERGED or CANCELLED. */
  predicate WaveComplete(packets: map<Id, Packet>, f: Id, w: Id) {
    WavePackets(packets, f, w) != {} && forall p :: p in WavePackets(packets, f, w) ==> IsDone(packets[p].state)
  }

  function DegradedPackets(packets: map<Id, Packet>, f: Id, w: Id): set<Id> {
    set p | p in WavePackets(packets, f, w) && IsDegraded(packets[p].state)
  }

  function Drafts(packets: map<Id, Packet>, f: Id, w: Id): set<Id> {
    set p | p in packets && packets[p].featureId == f && packets[p].waveId == w && packets[p].state == Draft
  }

  function WithStatus(waves: map<Id, seq<Wave>>, f: Id, i: nat, status: string): map<Id, seq<Wave>>
    requires f in waves && i < |waves[f]|
  {
    waves[f := waves[f][i := waves[f][i].(status := status)]]
  }

  /** One round for the neighbouring waves i and i + 1 of a feature. */
  function GatePair(db: Rows, f: Id, i: nat): (r: Rows)
    requires f in db.waves && i + 1 < |db.waves[f]|
    ensures r.waves.Keys == db.waves.Keys && |r.waves[f]| == |db.waves[f]|
  {
    var w := db.waves[f][i].id;
    var degraded := DegradedPackets(db.packets, f, w);
    if WaveComplete(db.packets, f, w) then
      db.(packets := WithState(db.packets, Drafts(db.packets, f, db.waves[f][i + 1].id), Ready),
          waves := WithStatus(WithStatus(db.waves, f, i, "COMPLETED"), f, i + 1, "IN_PROGRESS"))
    else if degraded != {} then
      db.(features :=
            if f in db.features then db.features[f := db.features[f].(degradedReason := Some((w, |degraded|)))]
            else db.features,
          waves := WithStatus(db.waves, f, i, "DEGRADED"))
    else db
  }

  /** The first n rounds for a feature. */
  function GateFeature(db: Rows, f: Id, n: nat): (r: Rows)
    requires f in db.waves && n < |db.waves[f]|
    ensures r.waves.Keys == db.waves.Keys && |r.waves[f]| == |db.waves[f]|
  {
    if n == 0 then db else GatePair(GateFeature(db, f, n - 1), f, n - 1)
  }

  /** All rounds for a feature. */
  function GateWhole(db: Rows, f: Id): (r: Rows)
    ensures r.waves.Keys == db.waves.Keys
  {
    if f in db.waves && db.waves[f] != [] then GateFeature(db, f, |db.waves[f]| - 1) else db
  }

  function GateAll(db: Rows, features: seq<Id>): (r: Rows)
    ensures r.waves.Keys == db.waves.Keys
  {
    if features == [] then db else GateWhole(GateAll(db, features[..|features| - 1]), features[|features| - 1])
  }

  // ----- What the rounds amount to

  /** Packet `p` is a draft of a wave that one of the first n rounds finds open. */
  ghost predicate Opens(db: Rows, f: Id, n: nat, p: Id)
    requires f in db.waves && n < |db.waves[f]|
  {
    && p in db.packets && db.packets[p].featureId == f && db.packets[p].state == Draft
    && exists i :: 0 <= i < n && OpensAt(db, f, i, p)
  }

  ghost predicate OpensAt(db: Rows, f: Id, i: nat, p: Id)
    requires f in db.waves && i + 1 < |db.waves[f]| && p in db.packets
  {
    db.waves[f][i + 1].id == db.packets[p].waveId && WaveComplete(db.packets, f, db.waves[f][i].id)
  }

  /** The status of wave i after n rounds: set by its own round if that wrote one, else by the round before. */
  ghost function StatusAfter(db: Rows, f: Id, n: nat, i: nat): string
    requires f in db.waves && n < |db.waves[f]| && i < |db.waves[f]|
  {
    var waves := db.waves[f];
    if i < n && WaveComplete(db.packets, f, waves[i].id) then "COMPLETED"
    else if i < n && DegradedPackets(db.packets, f, waves[i].id) != {} then "DEGRADED"
    else if 0 < i <= n && WaveComplete(db.packets, f, waves[i - 1].id) then "IN_PROGRESS"
    else waves[i].status
  }

  /** The reason a feature is degraded after n rounds: the last degraded wave that is not complete. */
  ghost function ReasonAfter(db: Rows, f: Id, n: nat): Option<(Id, nat)>
    requires f in db.waves && n < |db.waves[f]| && f in db.features
  {
    if n == 0 then db.features[f].degradedReason
    else
      var w := db.waves[f][n - 1].id;
      var degraded := DegradedPackets(db.packets, f, w);
      if !WaveComplete(db.packets, f, w) && degraded != {} then Some((w, |degraded|))
      else ReasonAfter(db, f, n - 1)
  }

  ghost predicate PacketsGated(db: Rows, f: Id, n: nat, after: Rows)
    requires f in db.waves && n < |db.waves[f]|
  {
    && after.packets.Keys == db.packets.Keys
    && forall p :: p in db.packets ==>
         after.packets[p] == if Opens(db, f, n, p) then db.packets[p].(state := Ready) else db.packets[p]
  }

  ghost predicate WavesGated(db: Rows, f: Id, n: nat, after: Rows)
    requires f in db.waves && n < |db.waves[f]|
  {
    && after.waves.Keys == db.waves.Keys && |after.waves[f]| == |db.waves[f]|
    && (forall i :: 0 <= i < |db.waves[f]| ==>
          after.waves[f][i] == Wave(db.waves[f][i].id, StatusAfter(db, f, n, i)))
    && forall f' :: f' in db.waves && f' != f ==> after.waves[f'] == db.waves[f']
  }

  ghost predicate FeaturesGated(db: Rows, f: Id, n: nat, after: Rows)
    requires f in db.waves && n < |db.waves[f]|
  {
    && after.features.Keys == db.features.Keys
    && (f in db.features ==> after.features[f] == db.features[f].(degradedReason := ReasonAfter(db, f, n)))
    && forall f' :: f' in db.features && f' != f ==> after.features[f'] == db.features[f']
  }

  /** `after` differs from `db` only in the packets, wave statuses and reason of feature f that n rounds write. */
  ghost predicate IsGated(db: Rows, f: Id, n: nat, after: Rows)
    requires f in db.waves && n < |db.waves[f]|
  {
    && PacketsGated(db, f, n, after) && WavesGated(db, f, n, after) && FeaturesGated(db, f, n, after)
    && after.leases == db.leases && after.workers == db.workers
  }

  /** Opening drafts changes neither which waves are complete nor which packets are degraded. */
  lemma GatedReadsTheSame(db: Rows, f: Id, n: nat, mid: Rows, g: Id, w: Id)
    requires f in db.waves && n < |db.waves[f]| && IsGated(db, f, n, mid)
    ensures WavePackets(mid.packets, g, w) == WavePackets(db.packets, g, w)
    ensures WaveComplete(mid.packets, g, w) == WaveComplete(db.packets, g, w)
    ensures DegradedPackets(mid.packets, g, w) == DegradedPackets(db.packets, g, w)
  {
  }

  lemma OneMoreRoundPackets(db: Rows, f: Id, n: nat, mid: Rows, after: Rows)
    requires f in db.waves && n + 1 < |db.waves[f]| && IsGated(db, f, n, mid) && after == GatePair(mid, f, n)
    ensures PacketsGated(db, f, n + 1, after)
  {
    var w, next := db.waves[f][n].id, db.waves[f][n + 1].id;
    GatedReadsTheSame(db, f, n, mid, f, w);
    assert mid.waves[f][n].id == w && mid.waves[f][n + 1].id == next;
    assert after.packets ==
      if WaveComplete(db.packets, f, w) then WithState(mid.packets, Drafts(mid.packets, f, next), Ready)
      else mid.packets;
    forall p | p in db.packets
      ensures after.packets[p] == if Opens(db, f, n + 1, p) then db.packets[p].(state := Ready) else db.packets[p]
    {
      OpensOneMore(db, f, n, p);
    }
  }

  lemma OpensOneMore(db: Rows, f: Id, n: nat, p: Id)
    requires f in db.waves && n + 1 < |db.waves[f]| && p in db.packets
    ensures Opens(db, f, n + 1, p) <==>
      Opens(db, f, n, p)
      || (db.packets[p].featureId == f && db.packets[p].state == Draft && OpensAt(db, f, n, p))
  {
    if Opens(db, f, n, p) {
      var i :| 0 <= i < n && OpensAt(db, f, i, p);
      assert 0 <= i < n + 1 && OpensAt(db, f, i, p);
    }
  }

  lemma OneMoreRoundWaves(db: Rows, f: Id, n: nat, mid: Rows, after: Rows)
    requires f in db.waves && n + 1 < |db.waves[f]| && IsGated(db, f, n, mid) && after == GatePair(mid, f, n)
    ensures WavesGated(db, f, n + 1, after)
  {
    var waves, w := db.waves[f], db.waves[f][n].id;
    GatedReadsTheSame(db, f, n, mid, f, w);
    assert mid.waves[f][n].id == w;
    assert after.waves ==
      if WaveComplete(db.packets, f, w)
      then WithStatus(WithStatus(mid.waves, f, n, "COMPLETED"), f, n + 1, "IN_PROGRESS")
      else if DegradedPackets(db.packets, f, w) != {} then WithStatus(mid.waves, f, n, "DEGRADED")
      else mid.waves;
    forall i | 0 <= i < |waves| ensures after.waves[f][i] == Wave(waves[i].id, StatusAfter(db, f, n + 1, i)) {
      assert mid.waves[f][i] == Wave(waves[i].id, StatusAfter(db, f, n, i));
      if i < n {
        assert StatusAfter(db, f, n + 1, i) == StatusAfter(db, f, n, i);
      }
    }
  }

  lemma OneMoreRoundFeatures(db: Rows, f: Id, n: nat, mid: Rows, after: Rows)
    requires f in db.waves && n + 1 < |db.waves[f]| && IsGated(db, f, n, mid) && after == GatePair(mid, f, n)
    ensures FeaturesGated(db, f, n + 1, after) && after.leases == db.leases && after.workers == db.workers
  {
    GatedReadsTheSame(db, f, n, mid, f, db.waves[f][n].id);
    assert mid.waves[f][n].id == db.waves[f][n].id;
  }

  lemma OneMoreRound(db: Rows, f: Id, n: nat, mid: Rows, after: Rows)
    requires f in db.waves && n + 1 < |db.waves[f]| && IsGated(db, f, n, mid) && after == GatePair(mid, f, n)
    ensures IsGated(db, f, n + 1, after)
  {
    OneMoreRoundPackets(db, f, n, mid, after);
    OneMoreRoundWaves(db, f, n, mid, after);
    OneMoreRoundFeatures(db, f, n, mid, after);
  }

  lemma NoRoundYet(db: Rows, f: Id, n: nat, after: Rows)
    requires f in db.waves && db.waves[f] != [] && n == 0 && after == db
    ensures IsGated(db, f, n, after)
  {
    forall i | 0 <= i < |db.waves[f]| ensures db.waves[f][i] == Wave(db.waves[f][i].id, StatusAfter(db, f, n, i)) {
    }
  }

  lemma LastRound(db: Rows, f: Id, n: nat, mid: Rows, after: Rows)
    requires f in db.waves && n + 1 < |db.waves[f]|
    requires mid == GateFeature(db, f, n) && after == GateFeature(db, f, n + 1)
    ensures f in mid.waves && |mid.waves[f]| == |db.waves[f]| && after == GatePair(mid, f, n)
  {
  }

  lemma GateFeatureIsGated(db: Rows, f: Id, n: nat, after: Rows)
    requires f in db.waves && n < |db.waves[f]| && after == GateFeature(db, f, n)
    ensures IsGated(db, f, n, after)
  {
    var mid := db;
    NoRoundYet(db, f, 0, mid);
    for m := 0 to n
      invariant mid == GateFeature(db, f, m) && IsGated(db, f, m, mid)
    {
      var next := GateFeature(db, f, m + 1);
      LastRound(db, f, m, mid, next);
      OneMoreRound(db, f, m, mid, next);
      mid := next;
    }
  }

  /** The gate finds `p` in a wave of its feature that follows a complete wave. */
  ghost predicate Released(db: Rows, p: Id)
    requires p in db.packets
  {
    var f := db.packets[p].featureId;
    f in db.waves && db.waves[f] != [] && Opens(db, f, |db.waves[f]| - 1, p)
  }

  ghost predicate AllPacketsGated(db: Rows, fs: seq<Id>, after: Rows) {
    && after.packets.Keys == db.packets.Keys
    && forall p :: p in db.packets ==>
         after.packets[p] ==
           if db.packets[p].featureId in fs && Released(db, p) then db.packets[p].(state := Ready) else db.packets[p]
  }

  ghost predicate AllWavesGated(db: Rows, fs: seq<Id>, after: Rows) {
    && after.waves.Keys == db.waves.Keys
    && forall f :: f in db.waves ==>
         if f in fs && db.waves[f] != [] then
           && |after.waves[f]| == |db.waves[f]|
           && forall i :: 0 <= i < |db.waves[f]| ==>
                after.waves[f][i] == Wave(db.waves[f][i].id, StatusAfter(db, f, |db.waves[f]| - 1, i))
         else after.waves[f] == db.waves[f]
  }

  ghost predicate AllFeaturesGated(db: Rows, fs: seq<Id>, after: Rows) {
    && after.features.Keys == db.features.Keys
    && forall f :: f in db.features ==>
         after.features[f] ==
           if f in fs && f in db.waves && db.waves[f] != []
           then db.features[f].(degradedReason := ReasonAfter(db, f, |db.waves[f]| - 1)) else db.features[f]
  }

  /** The rows after the gate has visited the features `fs`. */
  ghost predicate AllGated(db: Rows, fs: seq<Id>, after: Rows) {
    && AllPacketsGated(db, fs, after) && AllWavesGated(db, fs, after) && AllFeaturesGated(db, fs, after)
    && after.leases == db.leases && after.workers == db.workers
  }

  /** Two databases that agree on the packets, waves and row of a feature. */
  ghost predicate AgreeOn(db: Rows, mid: Rows, f: Id) {
    && mid.packets.Keys == db.packets.Keys
    && (forall p :: p in db.packets ==> mid.packets[p].featureId == db.packets[p].featureId)
    && (forall p :: p in db.packets && db.packets[p].featureId == f ==> mid.packets[p] == db.packets[p])
    && f in db.waves && f in mid.waves && mid.waves[f] == db.waves[f]
    && (f in mid.features <==> f in db.features)
    && (f in db.features ==> mid.features[f] == db.features[f])
  }

  lemma AgreeingWavePackets(db: Rows, mid: Rows, f: Id, w: Id)
    requires AgreeOn(db, mid, f)
    ensures WavePackets(mid.packets, f, w) == WavePackets(db.packets, f, w)
    ensures WaveComplete(mid.packets, f, w) == WaveComplete(db.packets, f, w)
    ensures DegradedPackets(mid.packets, f, w) == DegradedPackets(db.packets, f, w)
  {
    assert WavePackets(mid.packets, f, w) == WavePackets(db.packets, f, w);
  }

  lemma AgreeingOpens(db: Rows, mid: Rows, f: Id, n: nat, p: Id)
    requires AgreeOn(db, mid, f) && n < |db.waves[f]|
    ensures Opens(mid, f, n, p) <==> Opens(db, f, n, p)
  {
    if p in db.packets && db.packets[p].featureId == f {
      forall i | 0 <= i < n ensures OpensAt(mid, f, i, p) <==> OpensAt(db, f, i, p) {
        AgreeingWavePackets(db, mid, f, db.waves[f][i].id);
      }
    }
  }

  lemma AgreeingStatus(db: Rows, mid: Rows, f: Id, n: nat, i: nat)
    requires AgreeOn(db, mid, f) && n < |db.waves[f]| && i < |db.waves[f]|
    ensures StatusAfter(mid, f, n, i) == StatusAfter(db, f, n, i)
  {
    AgreeingWavePackets(db, mid, f, db.waves[f][i].id);
    if i > 0 {
      AgreeingWavePackets(db, mid, f, db.waves[f][i - 1].id);
    }
  }

  lemma {:induction false} AgreeingReason(db: Rows, mid: Rows, f: Id, n: nat)
    requires AgreeOn(db, mid, f) && n < |db.waves[f]| && f in db.features
    ensures ReasonAfter(mid, f, n) == ReasonAfter(db, f, n)
  {
    if n > 0 {
      AgreeingWavePackets(db, mid, f, db.waves[f][n - 1].id);
      AgreeingReason(db, mid, f, n - 1);
    }
  }

  lemma OneMoreFeature(db: Rows, fs: seq<Id>, mid: Rows, f: Id, after: Rows)
    requires AllGated(db, fs, mid) && f !in fs && f in db.waves && db.waves[f] != []
    requires IsGated(mid, f, |db.waves[f]| - 1, after)
    ensures AllGated(db, fs + [f], after)
  {
    assert AgreeOn(db, mid, f);
    OneMoreFeaturePackets(db, fs, mid, f, after);
    OneMoreFeatureWaves(db, fs, mid, f, after);
    OneMoreFeatureRow(db, fs, mid, f, after);
  }

  lemma OneMoreFeaturePackets(db: Rows, fs: seq<Id>, mid: Rows, f: Id, after: Rows)
    requires AllPacketsGated(db, fs, mid) && f !in fs && AgreeOn(db, mid, f) && db.waves[f] != []
    requires PacketsGated(mid, f, |db.waves[f]| - 1, after)
    ensures AllPacketsGated(db, fs + [f], after)
  {
    var n := |db.waves[f]| - 1;
    forall p | p in db.packets
      ensures after.packets[p] ==
        if db.packets[p].featureId in fs + [f] && Released(db, p) then db.packets[p].(state := Ready) else db.packets[p]
    {
      AgreeingOpens(db, mid, f, n, p);
      assert after.packets[p] == if Opens(mid, f, n, p) then mid.packets[p].(state := Ready) else mid.packets[p];
    }
  }

  lemma OneMoreFeatureWaves(db: Rows, fs: seq<Id>, mid: Rows, f: Id, after: Rows)
    requires AllWavesGated(db, fs, mid) && f !in fs && AgreeOn(db, mid, f) && db.waves[f] != []
    requires WavesGated(mid, f, |db.waves[f]| - 1, after)
    ensures AllWavesGated(db, fs + [f], after)
  {
    forall i | 0 <= i < |db.waves[f]|
      ensures after.waves[f][i] == Wave(db.waves[f][i].id, StatusAfter(db, f, |db.waves[f]| - 1, i))
    {
      AgreeingStatus(db, mid, f, |db.waves[f]| - 1, i);
    }
  }

  lemma OneMoreFeatureRow(db: Rows, fs: seq<Id>, mid: Rows, f: Id, after: Rows)
    requires AllFeaturesGated(db, fs, mid) && f !in fs && AgreeOn(db, mid, f) && db.waves[f] != []
    requires FeaturesGated(mid, f, |db.waves[f]| - 1, after)
    ensures AllFeaturesGated(db, fs + [f], after)
  {
    if f in db.features {
      AgreeingReason(db, mid, f, |db.waves[f]| - 1);
    }
  }

  lemma SkippedFeature(db: Rows, fs: seq<Id>, mid: Rows, f: Id)
    requires AllGated(db, fs, mid) && !(f in db.waves && db.waves[f] != [])
    ensures AllGated(db, fs + [f], mid)
  {
    assert forall g :: g in fs + [f] <==> g in fs || g == f;
  }

  lemma FeatureStep(db: Rows, fs: seq<Id>, mid: Rows, f: Id, after: Rows)
    requires AllGated(db, fs, mid) && f !in fs && f in db.waves && db.waves[f] != [] && after == GateWhole(mid, f)
    ensures AllGated(db, fs + [f], after)
  {
    assert mid.waves[f] == db.waves[f];
    GateFeatureIsGated(mid, f, |mid.waves[f]| - 1, after);
    OneMoreFeature(db, fs, mid, f, after);
  }

  lemma GateWholeStep(db: Rows, fs: seq<Id>, mid: Rows, f: Id, after: Rows)
    requires AllGated(db, fs, mid) && f !in fs && after == GateWhole(mid, f)
    ensures AllGated(db, fs + [f], after)
  {
    if f in db.waves && db.waves[f] != [] {
      FeatureStep(db, fs, mid, f, after);
    } else {
      SkippedFeature(db, fs, mid, f);
    }
  }

  /** The gate's whole effect: exactly the released drafts become READY, whatever the order of the features. */
  lemma {:induction false} GateAllIsGated(db: Rows, fs: seq<Id>)
    requires Distinct(fs)
    ensures AllGated(db, fs, GateAll(db, fs))
  {
    if fs != [] {
      var init, f := fs[..|fs| - 1], fs[|fs| - 1];
      GateAllIsGated(db, init);
      assert f !in init;
      GateWholeStep(db, init, GateAll(db, init), f, GateAll(db, fs));
      assert fs == init + [f];
    }
  }

  // ----- The same row by row, in terms of the fields

  /** Degraded is every state that is neither on the way nor done. */
  lemma DegradedExact(s: PacketState)
    ensures IsDegraded(s) <==> s !in {Draft, Ready, Running, Accepted, Merged, Cancelled}
  {
  }

  predicate IsMember(packets: map<Id, Packet>, f: Id, w: Id, p: Id) {
    p in packets && packets[p].featureId == f && packets[p].waveId == w
  }

  /** Some packet is in the wave, and every packet that is in it is MERGED or CANCELLED. */
  ghost predicate IsFinishedWave(packets: map<Id, Packet>, f: Id, w: Id) {
    && (exists p :: IsMember(packets, f, w, p))
    && forall p :: IsMember(packets, f, w, p) ==> packets[p].state in {Merged, Cancelled}
  }

  /** Some packet of the wave is in a state that needs help. */
  ghost predicate NeedsHelp(packets: map<Id, Packet>, f: Id, w: Id) {
    exists p :: IsMember(packets, f, w, p)
      && packets[p].state !in {Draft, Ready, Running, Accepted, Merged, Cancelled}
  }

  lemma WaveByRow(packets: map<Id, Packet>, f: Id, w: Id)
    ensures WaveComplete(packets, f, w) <==> IsFinishedWave(packets, f, w)
    ensures DegradedPackets(packets, f, w) != {} <==> NeedsHelp(packets, f, w)
  {
    assert forall p :: p in WavePackets(packets, f, w) <==> IsMember(packets, f, w, p);
    assert forall p ::
      p in DegradedPackets(packets, f, w) <==> p in WavePackets(packets, f, w) && IsDegraded(packets[p].state);
    if WavePackets(packets, f, w) != {} {
      var p :| p in WavePackets(packets, f, w);
      assert IsMember(packets, f, w, p);
    }
    if DegradedPackets(packets, f, w) != {} {
      var p :| p in DegradedPackets(packets, f, w);
      assert IsMember(packets, f, w, p);
    }
    if p :| IsMember(packets, f, w, p) && packets[p].state !in {Draft, Ready, Running, Accepted, Merged, Cancelled} {
      DegradedExact(packets[p].state);
      assert p in DegradedPackets(packets, f, w);
    }
  }

  /** The packet is a draft of a wave that follows a finished wave of its feature. */
  ghost predicate IsNext(db: Rows, p: Id)
    requires p in db.packets
  {
    var f := db.packets[p].featureId;
    && db.packets[p].state == Draft && f in db.waves
    && exists i :: 0 <= i < |db.waves[f]| - 1 && PrecedesFinished(db, f, i, db.packets[p].waveId)
  }

  ghost predicate PrecedesFinished(db: Rows, f: Id, i: nat, next: Id)
    requires f in db.waves && i < |db.waves[f]| - 1
  {
    db.waves[f][i + 1].id == next && IsFinishedWave(db.packets, f, db.waves[f][i].id)
  }

  /** One pass over the features makes READY exactly the packets that are next, and leaves the others alone. */
  lemma GateByRow(db: Rows, fs: seq<Id>, p: Id)
    requires Distinct(fs) && p in db.packets
    ensures p in GateAll(db, fs).packets
    ensures GateAll(db, fs).packets[p] ==
      if db.packets[p].featureId in fs && IsNext(db, p) then db.packets[p].(state := Ready) else db.packets[p]
  {
    var f := db.packets[p].featureId;
    GateAllIsGated(db, fs);
    assert AllPacketsGated(db, fs, GateAll(db, fs));
    if f in db.waves && db.waves[f] != [] {
      var n := |db.waves[f]| - 1;
      forall i | 0 <= i < n
        ensures OpensAt(db, f, i, p) <==> PrecedesFinished(db, f, i, db.packets[p].waveId)
      {
        WaveByRow(db.packets, f, db.waves[f][i].id);
      }
      assert Opens(db, f, n, p) <==> IsNext(db, p);
    }
  }

  /** The statuses the pass leaves: by the wave itself if it is not the last, else by the wave before it. */
  lemma StatusByRow(db: Rows, fs: seq<Id>, f: Id, i: nat)
    requires Distinct(fs) && f in fs && f in db.waves && i < |db.waves[f]|
    ensures f in GateAll(db, fs).waves && |GateAll(db, fs).waves[f]| == |db.waves[f]|
    ensures
      var waves := db.waves[f];
      GateAll(db, fs).waves[f][i] == Wave(waves[i].id,
        if i < |waves| - 1 && IsFinishedWave(db.packets, f, waves[i].id) then "COMPLETED"
        else if i < |waves| - 1 && NeedsHelp(db.packets, f, waves[i].id) then "DEGRADED"
        else if i > 0 && IsFinishedWave(db.packets, f, waves[i - 1].id) then "IN_PROGRESS"
        else waves[i].status)
  {
    GateAllIsGated(db, fs);
    assert AllWavesGated(db, fs, GateAll(db, fs));
    WaveByRow(db.packets, f, db.waves[f][i].id);
    if i > 0 {
      WaveByRow(db.packets, f, db.waves[f][i - 1].id);
    }
  }

  /** Wave i, which is not the very last, is the last wave of the feature that needs help and is not finished. */
  ghost predicate IsLastIll(db: Rows, f: Id, i: nat, n: nat)
    requires f in db.waves && n < |db.waves[f]|
  {
    && i < n && IsIll(db, f, i)
    && forall j :: i < j < n ==> !IsIll(db, f, j)
  }

  ghost predicate IsIll(db: Rows, f: Id, i: nat)
    requires f in db.waves && i < |db.waves[f]|
  {
    NeedsHelp(db.packets, f, db.waves[f][i].id) && !IsFinishedWave(db.packets, f, db.waves[f][i].id)
  }

  ghost function InNeed(packets: map<Id, Packet>, f: Id, w: Id): set<Id> {
    set p | p in packets && packets[p].featureId == f && packets[p].waveId == w
      && packets[p].state !in {Draft, Ready, Running, Accepted, Merged, Cancelled}
  }

  lemma DegradedAreInNeed(packets: map<Id, Packet>, f: Id, w: Id)
    ensures DegradedPackets(packets, f, w) == InNeed(packets, f, w)
  {
    forall s: PacketState ensures IsDegraded(s) <==> s !in {Draft, Ready, Running, Accepted, Merged, Cancelled} {
      DegradedExact(s);
    }
  }

  /** The reason of a feature names its last wave that is ill, and how many packets of it need help. */
  lemma ReasonByRow(db: Rows, fs: seq<Id>, f: Id, i: nat)
    requires Distinct(fs) && f in fs && f in db.waves && f in db.features && |db.waves[f]| > 0
    requires IsLastIll(db, f, i, |db.waves[f]| - 1)
    ensures f in GateAll(db, fs).features
    ensures
      var w := db.waves[f][i].id;
      GateAll(db, fs).features[f] == db.features[f].(degradedReason := Some((w, |InNeed(db.packets, f, w)|)))
  {
    DegradedAreInNeed(db.packets, f, db.waves[f][i].id);
    GateAllIsGated(db, fs);
    ReasonFromLast(db, f, i, |db.waves[f]| - 1);
    ReasonOfGated(db, fs, f, GateAll(db, fs));
  }

  lemma ReasonOfGated(db: Rows, fs: seq<Id>, f: Id, after: Rows)
    requires AllFeaturesGated(db, fs, after) && f in fs && f in db.waves && f in db.features && db.waves[f] != []
    ensures f in after.features
    ensures after.features[f] == db.features[f].(degradedReason := ReasonAfter(db, f, |db.waves[f]| - 1))
  {
  }

  lemma {:induction false} ReasonFromLast(db: Rows, f: Id, i: nat, n: nat)
    requires f in db.waves && f in db.features && n < |db.waves[f]| && IsLastIll(db, f, i, n)
    ensures
      var w := db.waves[f][i].id;
      ReasonAfter(db, f, n) == Some((w, |DegradedPackets(db.packets, f, w)|))
  {
    WaveByRow(db.packets, f, db.waves[f][n - 1].id);
    assert IsIll(db, f, n - 1) <==> i == n - 1;
    if i < n - 1 {
      ReasonFromLast(db, f, i, n - 1);
    }
  }

  // ----- The gate

  function AllDrafts(packets: map<Id, Packet>): set<Id> {
    set p | p in packets && packets[p].state == Draft
  }

  method GateRound(db: Store, f: Id, i: nat) returns (gated: nat)
    requires f in db.waves && i + 1 < |db.waves[f]|
    modifies db
    ensures db.Now() == GatePair(old(db.Now()), f, i)
    ensures |AllDrafts(db.packets)| + gated == |AllDrafts(old(db.packets))|
  {
    gated := 0;
    var w, next := db.waves[f][i].id, db.waves[f][i + 1].id;
    if WavePackets(db.packets, f, w) == {} {
      return;
    }
    var allDone := WaveComplete(db.packets, f, w);
    var degraded := DegradedPackets(db.packets, f, w);
    if degraded != {} && !allDone {
      if f in db.features {
        db.features := db.features[f := db.features[f].(degradedReason := Some((w, |degraded|)))];
      }
      db.waves := WithStatus(db.waves, f, i, "DEGRADED");
    }
    if allDone {
      db.waves := WithStatus(db.waves, f, i, "COMPLETED");
      gated := OpenDrafts(db, f, next);
      db.waves := WithStatus(db.waves, f, i + 1, "IN_PROGRESS");
    }
  }

  /** Releases the drafts of a wave one by one. */
  method OpenDrafts(db: Store, f: Id, w: Id) returns (gated: nat)
    modifies db`packets
    ensures db.packets == WithState(old(db.packets), Drafts(old(db.packets), f, w), Ready)
    ensures |AllDrafts(db.packets)| + gated == |AllDrafts(old(db.packets))|
  {
    ghost var before := db.packets;
    var drafts := Drafts(db.packets, f, w);
    var todo := drafts;
    ghost var done: set<Id> := {};
    gated := 0;
    assert WithState(before, {}, Ready) == before;
    while todo != {}
      invariant done !! todo && done + todo == drafts && gated == |done|
      invariant db.packets == WithState(before, done, Ready)
      decreases todo
    {
      var p :| p in todo;
      WithStateMore(before, done, p);
      AddOne(done, p);
      db.SetPacketState(p, Ready);
      gated, done, todo := gated + 1, done + {p}, todo - {p};
    }
    assert done == drafts;
    FewerDrafts(before, done);
  }

  lemma FewerDrafts(packets: map<Id, Packet>, ids: set<Id>)
    requires ids <= AllDrafts(packets)
    ensures |AllDrafts(WithState(packets, ids, Ready))| + |ids| == |AllDrafts(packets)|
  {
    assert AllDrafts(packets) == AllDrafts(WithState(packets, ids, Ready)) + ids;
  }

  lemma WithStateMore(packets: map<Id, Packet>, ids: set<Id>, p: Id)
    requires p in packets && p !in ids
    ensures WithState(packets, ids + {p}, Ready) == WithState(packets, ids, Ready)[p := packets[p].(state := Ready)]
  {
  }

  /**
   * One pass of the gate over the features that have waves. The drafts that are left and the packets
   * gated add up to the drafts there were.
   */
  method CheckWaveGates(db: Store, featureIds: seq<Id>) returns (gated: nat)
    requires Distinct(featureIds) && forall f :: f in featureIds <==> f in db.waves
    modifies db
    ensures db.Now() == GateAll(old(db.Now()), featureIds)
    ensures |AllDrafts(db.packets)| + gated == |AllDrafts(old(db.packets))|
    ensures AllGated(old(db.Now()), featureIds, db.Now())
  {
    ghost var before := db.Now();
    gated := 0;
    for k := 0 to |featureIds|
      invariant db.Now() == GateAll(before, featureIds[..k])
      invariant |AllDrafts(db.packets)| + gated == |AllDrafts(before.packets)|
    {
      var released := GateOneFeature(db, featureIds[k]);
      gated := gated + released;
      assert featureIds[..k + 1][..k] == featureIds[..k];
    }
    assert featureIds[..|featureIds|] == featureIds;
    GateAllIsGated(before, featureIds);
  }

  method GateOneFeature(db: Store, f: Id) returns (gated: nat)
    requires f in db.waves
    modifies db
    ensures db.Now() == GateWhole(old(db.Now()), f)
    ensures |AllDrafts(db.packets)| + gated == |AllDrafts(old(db.packets))|
  {
    ghost var before := db.Now();
    ghost var drafts := |AllDrafts(db.packets)|;
    gated := 0;
    if db.waves[f] == [] {
      return;
    }
    for i := 0 to |db.waves[f]| - 1
      invariant db.Now() == GateFeature(before, f, i)
      invariant |AllDrafts(db.packets)| + gated == drafts
    {
      var released := GateRound(db, f, i);
      gated := gated + released;
    }
  }
}
