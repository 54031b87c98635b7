/** How long a packet's life can be and how many attempts it can spend, over all runs of the system. */
module AttemptBounds {
  import opened PacketStates
  import opened Database
  import opened PacketServices
  import opened SystemRuns

  ghost predicate InRun(run: seq<Rows>, p: Id) {
    forall i :: 0 <= i < |run| ==> p in run[i].packets
  }

  lemma RunHasPacket(run: seq<Rows>, steps: seq<Step>, p: Id)
    requires IsRun(run, steps) && p in run[0].packets
    ensures InRun(run, p)
  {
    forall i | 0 <= i < |run| ensures p in run[i].packets {
      RunKeepsPackets(run, steps, i);
    }
  }

  /** State changes of the packet along the run. */
  ghost function Changes(run: seq<Rows>, p: Id): nat
    requires InRun(run, p)
  {
    if |run| <= 1 then 0
    else
      Changes(run[..|run| - 1], p)
      + if run[|run| - 2].packets[p].state != run[|run| - 1].packets[p].state then 1 else 0
  }

  /** Times the packet is started. */
  ghost function Attempts(run: seq<Rows>, p: Id): nat
    requires InRun(run, p)
  {
    if |run| <= 1 then 0
    else
      Attempts(run[..|run| - 1], p)
      + if run[|run| - 2].packets[p].state != Running && run[|run| - 1].packets[p].state == Running then 1 else 0
  }

  /** Times a background loop puts the running packet back to READY. */
  ghost function Reclaims(run: seq<Rows>, p: Id): nat
    requires InRun(run, p)
  {
    if |run| <= 1 then 0
    else
      Reclaims(run[..|run| - 1], p)
      + if run[|run| - 2].packets[p].state == Running && run[|run| - 1].packets[p].state == Ready then 1 else 0
  }

  /** The attempts an unchecked step needs to be left so that the packet stays within its limit. */
  function Needs(db: Rows, step: Step, p: Id): nat
    requires p in db.packets
  {
    if step.ManualRetry? then 2
    else if step.RerunStage? && Waits(StateForRerun(db.packets[p].state)) then 2
    else 1
  }

  /** What the unchecked steps for the packet need, added up. */
  ghost function UncheckedNeeds(run: seq<Rows>, steps: seq<Step>, p: Id): nat
    requires |run| == |steps| + 1
  {
    if steps == [] then 0
    else
      var n := |steps| - 1;
      UncheckedNeeds(run[..|steps|], steps[..n], p)
      + if Unchecked(run[n], steps[n], p) then Needs(run[n], steps[n], p) else 0
  }

  /** In every run of the system a packet changes state at most four times per attempt, plus twice. */
  lemma {:induction false} LifeLength(run: seq<Rows>, steps: seq<Step>, p: Id)
    requires IsRun(run, steps) && InRun(run, p)
    ensures Changes(run, p) + Slack(run[|steps|].packets[p].state)
      <= 4 * Attempts(run, p) + Slack(run[0].packets[p].state)
    decreases |steps|
  {
    if steps != [] {
      RunPrefix(run, steps, |steps| - 1);
      LifeLength(run[..|steps|], steps[..|steps| - 1], p);
      assert StepAt(run, steps, |steps| - 1);
      StepFollowsTable(run[|steps| - 1], steps[|steps| - 1], p);
    }
  }

  lemma LifeLengthFromDraft(run: seq<Rows>, steps: seq<Step>, p: Id)
    requires IsRun(run, steps) && p in run[0].packets && run[0].packets[p].state == Draft
    ensures InRun(run, p) && Changes(run, p) <= 2 + 4 * Attempts(run, p)
  {
    RunHasPacket(run, steps, p);
    LifeLength(run, steps, p);
  }

  predicate Waits(s: PacketState) {
    s == Draft || s == Ready
  }

  /** The attempts stay within the limit plus `extra`, with one to spare while the packet waits. */
  predicate WithinLimit(q: Packet, extra: nat) {
    && q.attemptCount <= q.maxAttempts + extra
    && (Waits(q.state) ==> q.attemptCount < q.maxAttempts + extra)
  }

  predicate IsFreshDraft(q: Packet) {
    q.state == Draft && q.attemptCount == 0 && q.maxAttempts >= 1
  }

  /** As many attempts are left as the step needs. */
  predicate Affordable(db: Rows, step: Step, p: Id, extra: nat)
    requires p in db.packets
  {
    db.packets[p].attemptCount + Needs(db, step, p) <= db.packets[p].maxAttempts + extra
  }

  predicate IsReclaim(before: Packet, after: Packet) {
    before.state == Running && after.state == Ready
  }

  /**
   * One step from within the limit: a reclaim adds one to it, and the packet stays within it exactly when
   * the step is not an unchecked one or is affordable.
   */
  lemma StepWithinLimit(db: Rows, step: Step, p: Id, extra: nat)
    requires StepOk(step) && p in db.packets && WithinLimit(db.packets[p], extra)
    ensures p in Apply(db, step).packets
    ensures
      var before, after := db.packets[p], Apply(db, step).packets[p];
      && WithinLimit(after, extra + (if Unchecked(db, step, p) then Needs(db, step, p) else 0)
                              + (if IsReclaim(before, after) then 1 else 0))
      && (WithinLimit(after, extra + if IsReclaim(before, after) then 1 else 0) <==>
          (Unchecked(db, step, p) ==> Affordable(db, step, p, extra)))
  {
    StepEffect(db, step, p);
    if Unchecked(db, step, p) {
      UncheckedExactly(db, step, p);
    }
  }

  lemma UncheckedExactly(db: Rows, step: Step, p: Id)
    requires Unchecked(db, step, p)
    ensures
      var q := db.packets[p];
      p in Apply(db, step).packets && Apply(db, step).packets[p] == match step
        case Claim(_, _, _, _) => q.(state := Running, attemptCount := q.attemptCount + 1)
        case ManualRetry(_) => q.(state := Ready, attemptCount := q.attemptCount + 1)
        case RerunStage(_) => q.(state := StateForRerun(q.state), attemptCount := q.attemptCount + 1)
        case _ => q.(state := Ready)
  {
  }

  /**
   * In every run, a packet that starts as a fresh draft spends at most its maximal attempts, plus one for
   * every reclaim and what the unchecked steps need; while READY it has one to spare.
   */
  lemma {:induction false} AttemptBound(run: seq<Rows>, steps: seq<Step>, p: Id)
    requires IsRun(run, steps) && InRun(run, p)
    requires IsFreshDraft(run[0].packets[p])
    ensures WithinLimit(run[|steps|].packets[p], Reclaims(run, p) + UncheckedNeeds(run, steps, p))
    decreases |steps|
  {
    if steps != [] {
      var n := |steps| - 1;
      RunPrefix(run, steps, n);
      AttemptBound(run[..|steps|], steps[..n], p);
      assert StepAt(run, steps, n);
      StepWithinLimit(run[n], steps[n], p, Reclaims(run[..|steps|], p) + UncheckedNeeds(run[..|steps|], steps[..n], p));
    }
  }

  ghost predicate WithinLimitAt(run: seq<Rows>, p: Id, i: nat)
    requires InRun(run, p) && i < |run|
  {
    WithinLimit(run[i].packets[p], Reclaims(run[..i + 1], p))
  }

  ghost predicate AffordableAt(run: seq<Rows>, steps: seq<Step>, p: Id, i: nat)
    requires |run| == |steps| + 1 && InRun(run, p) && i < |steps|
  {
    Unchecked(run[i], steps[i], p) ==> Affordable(run[i], steps[i], p, Reclaims(run[..i + 1], p))
  }

  lemma LimitAfterOneMore(run: seq<Rows>, steps: seq<Step>, p: Id, i: nat)
    requires IsRun(run, steps) && InRun(run, p) && i < |steps| && WithinLimitAt(run, p, i)
    ensures WithinLimitAt(run, p, i + 1) <==> AffordableAt(run, steps, p, i)
  {
    assert StepAt(run, steps, i);
    assert run[..i + 2][..i + 1] == run[..i + 1];
    StepWithinLimit(run[i], steps[i], p, Reclaims(run[..i + 1], p));
  }

  /**
   * Reclaims are the only way past the limit, in every state of the run of a fresh draft, exactly when
   * every unchecked step happens with enough attempts left. retry_packet and the coder retry have such a
   * guard; mark_ready and the services for claims, manual retries and reruns do not.
   */
  lemma AttemptLimitExact(run: seq<Rows>, steps: seq<Step>, p: Id)
    requires IsRun(run, steps) && p in run[0].packets && IsFreshDraft(run[0].packets[p])
    ensures InRun(run, p)
    ensures (forall i :: 0 <= i < |run| ==> WithinLimitAt(run, p, i)) <==>
            (forall i :: 0 <= i < |steps| ==> AffordableAt(run, steps, p, i))
  {
    RunHasPacket(run, steps, p);
    if forall i :: 0 <= i < |run| ==> WithinLimitAt(run, p, i) {
      forall i | 0 <= i < |steps| ensures AffordableAt(run, steps, p, i) {
        assert WithinLimitAt(run, p, i) && WithinLimitAt(run, p, i + 1);
        LimitAfterOneMore(run, steps, p, i);
      }
    }
    if forall i :: 0 <= i < |steps| ==> AffordableAt(run, steps, p, i) {
      for n := 0 to |steps|
        invariant forall i :: 0 <= i <= n ==> WithinLimitAt(run, p, i)
      {
        assert AffordableAt(run, steps, p, n);
        LimitAfterOneMore(run, steps, p, n);
      }
    }
  }

  /** When no step is unchecked, as with mark_ready on drafts only, reclaims are the only way past the limit. */
  lemma AttemptBoundAsDocumented(run: seq<Rows>, steps: seq<Step>, p: Id)
    requires IsRun(run, steps) && p in run[0].packets && IsFreshDraft(run[0].packets[p])
    requires forall i :: 0 <= i < |steps| ==> !Unchecked(run[i], steps[i], p)
    ensures InRun(run, p) && WithinLimit(run[|steps|].packets[p], Reclaims(run, p))
  {
    AttemptLimitExact(run, steps, p);
    forall i | 0 <= i < |steps| ensures AffordableAt(run, steps, p, i) {
      assert !Unchecked(run[i], steps[i], p);
    }
    assert WithinLimitAt(run, p, |steps|) && run[..|steps| + 1] == run;
  }

  /** A packet with one attempt allowed, rejected once, is started again after mark_ready. */
  lemma LimitBrokenByMarkReady(p: Id, row: Packet)
    requires row.state == Draft && row.attemptCount == 0 && row.maxAttempts == 1
    ensures exists run: seq<Rows>, steps: seq<Step> ::
      && IsRun(run, steps) && InRun(run, p) && run[0] == OnePacket(p, row) && Reclaims(run, p) == 0
      && run[|steps|].packets[p].attemptCount > run[|steps|].packets[p].maxAttempts
  {
    var run, steps := [OnePacket(p, row)], [];
    run, steps := OnePacketMoves(run, steps, MarkReady(p), p, row, Ready);
    run, steps := OnePacketStarts(run, steps, p, row.(state := Ready));
    var once := row.(state := Running, attemptCount := 1);
    run, steps := OnePacketMoves(run, steps, MarkRejected(p), p, once, Rejected);
    run, steps := OnePacketMoves(run, steps, MarkReady(p), p, once.(state := Rejected), Ready);
    run, steps := OnePacketStarts(run, steps, p, once.(state := Ready));
    assert run[|steps|].packets[p].attemptCount == 2;
  }

  lemma OnePacketMoves(run: seq<Rows>, steps: seq<Step>, step: Step, p: Id, row: Packet, to: PacketState)
    returns (run': seq<Rows>, steps': seq<Step>)
    requires IsRun(run, steps) && InRun(run, p) && run[|steps|] == OnePacket(p, row)
    requires (step == MarkReady(p) && to == Ready) || (step == MarkRejected(p) && to == Rejected)
    requires CanTransition(row.state, to) && !(row.state == Running && to == Ready)
    ensures IsRun(run', steps') && InRun(run', p) && run'[0] == run[0]
    ensures run'[|steps'|] == OnePacket(p, row.(state := to)) && Reclaims(run', p) == Reclaims(run, p)
  {
    run', steps' := ExtendSystemRun(run, steps, step, p);
  }

  lemma OnePacketStarts(run: seq<Rows>, steps: seq<Step>, p: Id, row: Packet)
    returns (run': seq<Rows>, steps': seq<Step>)
    requires IsRun(run, steps) && InRun(run, p) && run[|steps|] == OnePacket(p, row) && row.state == Ready
    ensures IsRun(run', steps') && InRun(run', p) && run'[0] == run[0]
    ensures run'[|steps'|] == OnePacket(p, row.(state := Running, attemptCount := row.attemptCount + 1))
    ensures Reclaims(run', p) == Reclaims(run, p)
  {
    run', steps' := ExtendSystemRun(run, steps, MarkRunning(p), p);
  }

  function OnePacket(p: Id, row: Packet): Rows {
    Rows(map[p := row], map[], map[], map[], map[])
  }

  lemma ExtendSystemRun(run: seq<Rows>, steps: seq<Step>, step: Step, p: Id)
    returns (run': seq<Rows>, steps': seq<Step>)
    requires IsRun(run, steps) && InRun(run, p) && StepOk(step)
    ensures run' == run + [Apply(run[|steps|], step)] && steps' == steps + [step]
    ensures IsRun(run', steps') && InRun(run', p)
    ensures Reclaims(run', p) == Reclaims(run, p)
      + if run[|steps|].packets[p].state == Running && run'[|steps'|].packets[p].state == Ready then 1 else 0
  {
    run', steps' := run + [Apply(run[|steps|], step)], steps + [step];
    StepKeepsPackets(run[|steps|], step);
    forall i | 0 <= i < |steps'| ensures StepAt(run', steps', i) {
      if i < |steps| {
        assert StepAt(run, steps, i);
      }
    }
    assert run'[..|run|] == run;
  }
}
