/** From an accepted plan to all runs: dependent and overlapping packets never run together. */
module EndToEnd {
  import opened Sequences
  import opened PacketStates
  import opened Database
  import opened Graphs
  import opened ScopeConflicts
  import opened PlanValidator
  import opened SystemRuns
  import opened WaveSafety
  import Text

  const DEFAULT_MAX_ATTEMPTS := 3

  /**
   * The rows hold the approved plan `ps` as feature f: one wave row per wave index in order, and packet
   * `pids[k]` for plan packet k, READY in the first wave and a draft in the others. Nothing is asked of the
   * rows of other features.
   */
  ghost predicate Materialized(ps: seq<PlanPacket>, f: Id, pids: seq<Id>, db: Rows) {
    && |pids| == |ps| && Distinct(pids)
    && f in db.waves
    && (forall k :: 0 <= k < |ps| ==>
          && ps[k].waveIndex.Some? && 0 <= ps[k].waveIndex.value < |db.waves[f]|
          && pids[k] in db.packets
          && db.packets[pids[k]] ==
               Packet(f, db.waves[f][ps[k].waveIndex.value].id, if ps[k].waveIndex.value == 0 then Ready else Draft,
                      0, DEFAULT_MAX_ATTEMPTS))
    && (forall p :: p in db.packets && db.packets[p].featureId == f ==> p in pids)
    && WaveIdsUnique(db, f)
  }

  lemma MaterializedInTurn(ps: seq<PlanPacket>, f: Id, pids: seq<Id>, db: Rows)
    requires Materialized(ps, f, pids, db)
    ensures WavesInTurn(db, f)
  {
    forall j, p | 0 < j && InWave(db, f, j, p) ensures db.packets[p].state == Draft {
      var k :| 0 <= k < |pids| && pids[k] == p;
      assert db.waves[f][j].id == db.waves[f][ps[k].waveIndex.value].id;
    }
    AllLaterDrafts(db, f);
  }

  lemma {:induction false} PacketsStayInWaves(run: seq<Rows>, steps: seq<Step>, i: nat, f: Id, j: nat, p: Id)
    requires IsRun(run, steps) && i < |run| && InWave(run[0], f, j, p)
    ensures InWave(run[i], f, j, p)
  {
    if i > 0 {
      PacketsStayInWaves(run, steps, i - 1, f, j, p);
      assert StepAt(run, steps, i - 1);
      StepKeepsInWave(run[i - 1], steps[i - 1], f, j, p);
    }
  }

  /** The run starts from the approved plan, and up to state i its steps respect the turn of the feature. */
  ghost predicate PlanRuns(ps: seq<PlanPacket>, f: Id, pids: seq<Id>, run: seq<Rows>, steps: seq<Step>, i: nat) {
    && IsRun(run, steps) && i < |run| && Materialized(ps, f, pids, run[0])
    && forall k :: 0 <= k < i ==> RespectsTurnAt(run, steps, f, k)
  }

  /** A packet of a plan that has left DRAFT has every packet of an earlier wave behind it. */
  lemma WavesBehind(ps: seq<PlanPacket>, f: Id, pids: seq<Id>, run: seq<Rows>, steps: seq<Step>, i: nat,
                    a: nat, b: nat)
    requires PlanRuns(ps, f, pids, run, steps, i)
    requires a < |ps| && b < |ps| && ps[b].waveIndex.value < ps[a].waveIndex.value
    ensures pids[a] in run[i].packets && pids[b] in run[i].packets
    ensures run[i].packets[pids[a]].state != Draft ==> IsDone(run[i].packets[pids[b]].state)
  {
    MaterializedInTurn(ps, f, pids, run[0]);
    WaveSafetyOverRuns(run, steps, f, i);
    assert InWave(run[0], f, ps[a].waveIndex.value, pids[a]) && InWave(run[0], f, ps[b].waveIndex.value, pids[b]);
    PacketsStayInWaves(run, steps, i, f, ps[a].waveIndex.value, pids[a]);
    PacketsStayInWaves(run, steps, i, f, ps[b].waveIndex.value, pids[b]);
    if run[i].packets[pids[a]].state != Draft {
      assert EarlierWavesDone(run[i], f, pids[a]);
    }
  }

  /**
   * Plan validation, the wave gate and the state machine together: in every state of every run, all
   * transitive dependencies of a RUNNING packet are MERGED or CANCELLED.
   */
  lemma DependenciesFirst(ps: seq<PlanPacket>, g: Graph, f: Id, pids: seq<Id>, run: seq<Rows>, steps: seq<Step>,
                          i: nat, a: nat, b: nat)
    requires PlanOk(ps, true, g) && PlanRuns(ps, f, pids, run, steps, i)
    requires a < |ps| && b < |ps| && Depends(g, Pid(ps[a]), Pid(ps[b]))
    ensures pids[a] in run[i].packets && pids[b] in run[i].packets
    ensures run[i].packets[pids[a]].state == Running ==> IsDone(run[i].packets[pids[b]].state)
  {
    DependencyInEarlierWave(ps, g, a, b);
    WavesBehind(ps, f, pids, run, steps, i, a, b);
  }

  /** And two packets that run at the same time share no significant file. */
  lemma NoOverlapAtOnce(ps: seq<PlanPacket>, g: Graph, f: Id, pids: seq<Id>, run: seq<Rows>, steps: seq<Step>,
                        i: nat, a: nat, b: nat)
    requires PlanOk(ps, true, g) && PlanRuns(ps, f, pids, run, steps, i)
    requires a < |ps| && b < |ps| && a != b
    ensures pids[a] in run[i].packets && pids[b] in run[i].packets
    ensures run[i].packets[pids[a]].state == Running && run[i].packets[pids[b]].state == Running ==>
      !SharesFile(ScopeOf(ps[a]), ScopeOf(ps[b]))
  {
    RunKeepsPackets(run, steps, i);
    assert pids[a] in run[0].packets && pids[b] in run[0].packets;
    if ps[a].waveIndex.value == ps[b].waveIndex.value {
      SameWaveSharesNothing(ps, g, a, b);
    } else if ps[a].waveIndex.value < ps[b].waveIndex.value {
      WavesBehind(ps, f, pids, run, steps, i, b, a);
    } else {
      WavesBehind(ps, f, pids, run, steps, i, a, b);
    }
  }

  // ----- The hypotheses can be met

  function SmallPacket(id: string, deps: seq<DepItem>, wave: int): PlanPacket {
    PlanPacket(id, "", "", Items(deps), None, None, Some(wave), false)
  }

  predicate IsSmall(ps: seq<PlanPacket>, g: Graph) {
    && |ps| == 2 && ps[0] == SmallPacket("a", [], 0) && ps[1] == SmallPacket("b", [Ref("a")], 1)
    && g == Graph(["a", "b"], map["a" := [], "b" := ["a"]])
  }

  lemma SmallReferences(ps: seq<PlanPacket>)
    requires |ps| == 2 && ps[0] == SmallPacket("a", [], 0) && ps[1] == SmallPacket("b", [Ref("a")], 1)
    ensures ResolveAll(ps, DepNames(ps[0].dependsOn)) == [] && ResolveAll(ps, DepNames(ps[1].dependsOn)) == ["a"]
  {
    assert Text.Strip("a") == "a";
    assert DepNames(ps[1].dependsOn) == ["a"];
    assert Resolve(ps, "a") == "a";
  }

  lemma SmallGraph(ps: seq<PlanPacket>, g: Graph)
    requires IsSmall(ps, g)
    ensures NamesOk(ps) && IsPlanGraph(ps, g)
  {
    SmallReferences(ps);
  }

  lemma SmallWaves(ps: seq<PlanPacket>, g: Graph)
    requires IsSmall(ps, g)
    ensures g.Closed() && WavesOk(ps, g) && forall k :: 0 <= k < |ps| ==> ps[k].waveIndex.Some?
  {
    assert Pid(ps[0]) == "a" && Pid(ps[1]) == "b";
    assert g.Get("a") == [] && g.Get("b") == ["a"];
  }

  lemma SmallPlanOk(ps: seq<PlanPacket>, g: Graph)
    requires IsSmall(ps, g)
    ensures PlanOk(ps, true, g)
  {
    SmallGraph(ps, g);
    SmallWaves(ps, g);
    WaveOrderIsAcyclic(ps, g);
    assert ScopesOk(ps, g) by {
      assert ScopeOf(ps[0]) == [] && ScopeOf(ps[1]) == [];
    }
  }

  lemma SmallRows(ps: seq<PlanPacket>, f: Id, pids: seq<Id>, waves: seq<Wave>, db: Rows)
    requires |ps| == 2 && ps[0].waveIndex == Some(0) && ps[1].waveIndex == Some(1)
    requires |pids| == 2 && pids[0] != pids[1] && |waves| == 2 && waves[0].id != waves[1].id
    requires db.waves == map[f := waves] && db.packets == map[
      pids[0] := Packet(f, waves[0].id, Ready, 0, DEFAULT_MAX_ATTEMPTS),
      pids[1] := Packet(f, waves[1].id, Draft, 0, DEFAULT_MAX_ATTEMPTS)]
    ensures Materialized(ps, f, pids, db)
  {
  }

  /** A valid plan with a dependency between its two waves, and rows that hold it. */
  lemma DependentPlanExists()
    ensures exists ps, g, f, pids, db ::
      |ps| == 2 && PlanOk(ps, true, g) && Depends(g, Pid(ps[1]), Pid(ps[0])) && Materialized(ps, f, pids, db)
  {
    var ps := [SmallPacket("a", [], 0), SmallPacket("b", [Ref("a")], 1)];
    var g := Graph(["a", "b"], map["a" := [], "b" := ["a"]]);
    SmallPlanOk(ps, g);
    EdgeDepends(g, "b", "a");
    var waves := [Wave("u", ""), Wave("v", "")];
    var first := Packet("f", "u", Ready, 0, DEFAULT_MAX_ATTEMPTS);
    var second := Packet("f", "v", Draft, 0, DEFAULT_MAX_ATTEMPTS);
    var db := Rows(map["p" := first, "q" := second], map[], map[], map[], map["f" := waves]);
    SmallRows(ps, "f", ["p", "q"], waves, db);
  }
}
