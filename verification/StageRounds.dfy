/** Numbering of the rounds of a pipeline stage. */
module StageRounds {
  import opened Sequences

  type Id = string

  /** A row of the stage run table; rows are kept in the order of their creation. */
  datatype StageRun = StageRun(packetId: Id, stageKey: string, status: string, loopRound: int)

  predicate IsFor(r: StageRun, packetId: Id, stageKey: string) {
    r.packetId == packetId && r.stageKey == stageKey
  }

  /** The rounds of one stage of one packet, in creation order. */
  function Rounds(rows: seq<StageRun>, packetId: Id, stageKey: string): seq<int> {
    if rows == [] then []
    else
      var last := rows[|rows| - 1];
      Rounds(rows[..|rows| - 1], packetId, stageKey) + if IsFor(last, packetId, stageKey) then [last.loopRound] else []
  }

  /** 1, 2, ..., n. */
  ghost predicate GapFree(rounds: seq<int>) {
    forall i :: 0 <= i < |rounds| ==> rounds[i] == i + 1
  }

  ghost predicate AllGapFree(rows: seq<StageRun>) {
    forall packetId, stageKey :: GapFree(Rounds(rows, packetId, stageKey))
  }

  function MaxRound(rounds: seq<int>): int
    requires rounds != []
  {
    if |rounds| == 1 then rounds[0]
    else
      var m := MaxRound(rounds[..|rounds| - 1]);
      if rounds[|rounds| - 1] > m then rounds[|rounds| - 1] else m
  }

  /** One more than the largest round so far; the first round is 1. */
  function NextRound(rows: seq<StageRun>, packetId: Id, stageKey: string): int {
    var rounds := Rounds(rows, packetId, stageKey);
    if rounds == [] then 1 else MaxRound(rounds) + 1
  }

  predicate IsPending(r: StageRun, packetId: Id, stageKey: string) {
    r.packetId == packetId && r.stageKey == stageKey && r.status == "pending"
  }

  /** `next` is 1 for a stage without runs, and otherwise one more than the largest round of its runs. */
  ghost predicate Follows(rows: seq<StageRun>, packetId: Id, stageKey: string, next: int) {
    && (forall r :: r in rows && r.packetId == packetId && r.stageKey == stageKey ==> r.loopRound < next)
    && if exists r :: r in rows && r.packetId == packetId && r.stageKey == stageKey
       then exists r :: r in rows && r.packetId == packetId && r.stageKey == stageKey && r.loopRound == next - 1
       else next == 1
  }

  lemma {:induction false} RoundsByRow(rows: seq<StageRun>, packetId: Id, stageKey: string)
    ensures forall x :: x in Rounds(rows, packetId, stageKey) <==>
      exists r :: r in rows && r.packetId == packetId && r.stageKey == stageKey && r.loopRound == x
  {
    if rows != [] {
      var init, last := rows[..|rows| - 1], rows[|rows| - 1];
      RoundsByRow(init, packetId, stageKey);
      assert rows == init + [last];
      assert forall r :: r in rows <==> r in init || r == last;
    }
  }

  lemma {:induction false} MaxRoundIsMax(rounds: seq<int>)
    requires rounds != []
    ensures MaxRound(rounds) in rounds && forall x :: x in rounds ==> x <= MaxRound(rounds)
  {
    if |rounds| > 1 {
      var init := rounds[..|rounds| - 1];
      MaxRoundIsMax(init);
      assert rounds == init + [rounds[|rounds| - 1]];
    }
  }

  lemma NextRoundFollows(rows: seq<StageRun>, packetId: Id, stageKey: string)
    ensures Follows(rows, packetId, stageKey, NextRound(rows, packetId, stageKey))
  {
    var rounds := Rounds(rows, packetId, stageKey);
    RoundsByRow(rows, packetId, stageKey);
    if rounds != [] {
      MaxRoundIsMax(rounds);
    }
    forall r | r in rows && r.packetId == packetId && r.stageKey == stageKey ensures r.loopRound in rounds {
    }
  }

  /** Position of the newest pending run of the stage. */
  function NewestPending(rows: seq<StageRun>, packetId: Id, stageKey: string): (r: Option<nat>)
    ensures r.Some? ==> r.value < |rows| && IsPending(rows[r.value], packetId, stageKey)
    ensures r.Some? ==> forall i :: r.value < i < |rows| ==> !IsPending(rows[i], packetId, stageKey)
    ensures r.None? ==> forall i :: 0 <= i < |rows| ==> !IsPending(rows[i], packetId, stageKey)
  {
    if rows == [] then None
    else
      var last := rows[|rows| - 1];
      if IsPending(last, packetId, stageKey) then Some(|rows| - 1)
      else NewestPending(rows[..|rows| - 1], packetId, stageKey)
  }

  /** Starting a stage: the newest pending run becomes running, or a new running run is added. */
  function Started(rows: seq<StageRun>, packetId: Id, stageKey: string): seq<StageRun> {
    var pending := NewestPending(rows, packetId, stageKey);
    if pending.Some? then rows[pending.value := rows[pending.value].(status := "running")]
    else rows + [StageRun(packetId, stageKey, "running", NextRound(rows, packetId, stageKey))]
  }

  /** A recovery return adds a pending run. */
  function Returned(rows: seq<StageRun>, packetId: Id, stageKey: string): seq<StageRun> {
    rows + [StageRun(packetId, stageKey, "pending", NextRound(rows, packetId, stageKey))]
  }

  /** Finishing a run writes its status and nothing else that is modelled. */
  function Finished(rows: seq<StageRun>, at: nat, status: string): seq<StageRun>
    requires at < |rows|
  {
    rows[at := rows[at].(status := status)]
  }

  class StageTable {
    var rows: seq<StageRun>

    /** The prologue of an instrumented stage; returns the position of its run. */
    method SetupStageRun(packetId: Id, stageKey: string) returns (at: nat)
      modifies this
      ensures rows == Started(old(rows), packetId, stageKey)
      ensures at < |rows| && IsFor(rows[at], packetId, stageKey) && rows[at].status == "running"
      ensures
        var pending := NewestPending(old(rows), packetId, stageKey);
        at == if pending.Some? then pending.value else |old(rows)|
      ensures at < |old(rows)| ==>
        && old(rows)[at].status == "pending" && rows == old(rows)[at := old(rows)[at].(status := "running")]
        && forall i :: at < i < |old(rows)| ==> !IsPending(old(rows)[i], packetId, stageKey)
      ensures at >= |old(rows)| ==>
        && rows == old(rows) + [StageRun(packetId, stageKey, "running", rows[at].loopRound)]
        && Follows(old(rows), packetId, stageKey, rows[at].loopRound)
        && forall r :: r in old(rows) ==> !IsPending(r, packetId, stageKey)
    {
      var pending := NewestPending(rows, packetId, stageKey);
      if pending.Some? {
        at := pending.value;
        rows := rows[at := rows[at].(status := "running")];
        return;
      }
      var loopRound := LoopRound(packetId, stageKey);
      at := |rows|;
      rows := rows + [StageRun(packetId, stageKey, "running", loopRound)];
    }

    /** Creates the pending run of a recovery return, unless the packet is unknown. */
    method CreateForReturn(packetExists: bool, packetId: Id, toStage: string) returns (created: bool)
      modifies this
      ensures created == packetExists
      ensures rows == if packetExists then Returned(old(rows), packetId, toStage) else old(rows)
      ensures packetExists ==>
        && |rows| == |old(rows)| + 1
        && rows == old(rows) + [StageRun(packetId, toStage, "pending", rows[|old(rows)|].loopRound)]
        && Follows(old(rows), packetId, toStage, rows[|old(rows)|].loopRound)
    {
      if !packetExists {
        return false;
      }
      var loopRound := LoopRound(packetId, toStage);
      rows := rows + [StageRun(packetId, toStage, "pending", loopRound)];
      return true;
    }

    /** The query for the earlier runs of the stage, and the largest round among them plus one. */
    method LoopRound(packetId: Id, stageKey: string) returns (next: int)
      ensures next == NextRound(rows, packetId, stageKey) && Follows(rows, packetId, stageKey, next)
    {
      NextRoundFollows(rows, packetId, stageKey);
      var previous := Rounds(rows, packetId, stageKey);
      next := 1;
      if previous != [] {
        var highest := previous[0];
        for i := 1 to |previous|
          invariant highest == MaxRound(previous[..i])
        {
          assert previous[..i + 1][..i] == previous[..i];
          if previous[i] > highest {
            highest := previous[i];
          }
        }
        assert previous[..|previous|] == previous;
        next := highest + 1;
      }
    }
  }

  // ----- Runs of starts, returns and finishes, one at a time

  datatype Event =
    | Start(packetId: Id, stageKey: string)
    | Return(packetId: Id, stageKey: string)
    | Finish(at: nat, status: string)

  function Apply(rows: seq<StageRun>, e: Event): seq<StageRun> {
    match e
    case Start(p, s) => Started(rows, p, s)
    case Return(p, s) => Returned(rows, p, s)
    case Finish(at, status) => if at < |rows| then Finished(rows, at, status) else rows
  }

  function ApplyAll(rows: seq<StageRun>, events: seq<Event>): seq<StageRun> {
    if events == [] then rows else Apply(ApplyAll(rows, events[..|events| - 1]), events[|events| - 1])
  }

  lemma {:induction false} MaxOfGapFree(rounds: seq<int>)
    requires GapFree(rounds) && rounds != []
    ensures MaxRound(rounds) == |rounds|
  {
    if |rounds| > 1 {
      MaxOfGapFree(rounds[..|rounds| - 1]);
    }
  }

  /** Writing a status changes no rounds. */
  lemma {:induction false} StatusKeepsRounds(rows: seq<StageRun>, at: nat, status: string, packetId: Id,
                                             stageKey: string)
    requires at < |rows|
    ensures Rounds(Finished(rows, at, status), packetId, stageKey) == Rounds(rows, packetId, stageKey)
  {
    var after := Finished(rows, at, status);
    if at < |rows| - 1 {
      StatusKeepsRounds(rows[..|rows| - 1], at, status, packetId, stageKey);
      assert after[..|rows| - 1] == Finished(rows[..|rows| - 1], at, status);
    } else {
      assert after[..|rows| - 1] == rows[..|rows| - 1];
    }
  }

  lemma AddedRunKeepsGapFree(rows: seq<StageRun>, packetId: Id, stageKey: string, status: string)
    requires AllGapFree(rows)
    ensures AllGapFree(rows + [StageRun(packetId, stageKey, status, NextRound(rows, packetId, stageKey))])
  {
    var after := rows + [StageRun(packetId, stageKey, status, NextRound(rows, packetId, stageKey))];
    assert after[..|rows|] == rows;
    forall p, s ensures GapFree(Rounds(after, p, s)) {
      assert GapFree(Rounds(rows, p, s));
      if p == packetId && s == stageKey && Rounds(rows, p, s) != [] {
        MaxOfGapFree(Rounds(rows, p, s));
      }
    }
  }

  lemma EventKeepsGapFree(rows: seq<StageRun>, e: Event)
    requires AllGapFree(rows)
    ensures AllGapFree(Apply(rows, e))
  {
    match e
    case Start(p, s) =>
      var pending := NewestPending(rows, p, s);
      if pending.Some? {
        forall p', s' ensures GapFree(Rounds(Apply(rows, e), p', s')) {
          StatusKeepsRounds(rows, pending.value, "running", p', s');
        }
      } else {
        AddedRunKeepsGapFree(rows, p, s, "running");
      }
    case Return(p, s) => AddedRunKeepsGapFree(rows, p, s, "pending");
    case Finish(at, status) =>
      if at < |rows| {
        forall p', s' ensures GapFree(Rounds(Apply(rows, e), p', s')) {
          StatusKeepsRounds(rows, at, status, p', s');
        }
      }
  }

  /** Over any sequence of events from an empty table every stage of every packet has the rounds 1 to n, in order. */
  lemma {:induction false} RoundsAreGapFree(events: seq<Event>)
    ensures AllGapFree(ApplyAll([], events))
  {
    if events != [] {
      RoundsAreGapFree(events[..|events| - 1]);
      EventKeepsGapFree(ApplyAll([], events[..|events| - 1]), events[|events| - 1]);
    }
  }

  function PendingCount(rows: seq<StageRun>, packetId: Id, stageKey: string): nat {
    if rows == [] then 0
    else
      var last := rows[|rows| - 1];
      PendingCount(rows[..|rows| - 1], packetId, stageKey)
      + if IsPending(last, packetId, stageKey) then 1 else 0
  }

  lemma {:induction false} UsedPendingCount(rows: seq<StageRun>, at: nat, packetId: Id, stageKey: string)
    requires at < |rows| && IsPending(rows[at], packetId, stageKey)
    ensures PendingCount(Finished(rows, at, "running"), packetId, stageKey)
      == PendingCount(rows, packetId, stageKey) - 1
  {
    var after := Finished(rows, at, "running");
    if at < |rows| - 1 {
      UsedPendingCount(rows[..|rows| - 1], at, packetId, stageKey);
      assert after[..|rows| - 1] == Finished(rows[..|rows| - 1], at, "running");
    } else {
      assert after[..|rows| - 1] == rows[..|rows| - 1];
    }
  }

  lemma {:induction false} NoPendingCount(rows: seq<StageRun>, packetId: Id, stageKey: string)
    ensures PendingCount(rows, packetId, stageKey) == 0 <==> NewestPending(rows, packetId, stageKey).None?
  {
    if rows != [] {
      NoPendingCount(rows[..|rows| - 1], packetId, stageKey);
    }
  }

  /** A start uses up exactly one pending run and adds no row if there is one, and adds exactly one row otherwise. */
  lemma StartConsumesOnePending(rows: seq<StageRun>, packetId: Id, stageKey: string)
    ensures
      var before, after := PendingCount(rows, packetId, stageKey), Started(rows, packetId, stageKey);
      if before > 0 then |after| == |rows| && PendingCount(after, packetId, stageKey) == before - 1
      else |after| == |rows| + 1 && PendingCount(after, packetId, stageKey) == 0
  {
    NoPendingCount(rows, packetId, stageKey);
    var pending := NewestPending(rows, packetId, stageKey);
    if pending.Some? {
      UsedPendingCount(rows, pending.value, packetId, stageKey);
    } else {
      assert Started(rows, packetId, stageKey)[..|rows|] == rows;
    }
  }

  // ----- Starts that are not one at a time

  /** The event adds a row for the stage: a return, or a start that finds no pending run. */
  predicate AddsRun(rows: seq<StageRun>, e: Event, packetId: Id, stageKey: string) {
    e == Return(packetId, stageKey) || (e == Start(packetId, stageKey) && NewestPending(rows, packetId, stageKey).None?)
  }

  ghost predicate AddsRunAt(rows: seq<StageRun>, events: seq<Event>, k: nat, packetId: Id, stageKey: string)
    requires k < |events|
  {
    AddsRun(ApplyAll(rows, events[..k]), events[k], packetId, stageKey)
  }

  /** Some event, when its turn comes, adds a row for the stage. */
  ghost predicate SomeAddsRun(rows: seq<StageRun>, events: seq<Event>, packetId: Id, stageKey: string) {
    exists k :: 0 <= k < |events| && AddsRunAt(rows, events, k, packetId, stageKey)
  }

  lemma EventAddsRound(rows: seq<StageRun>, e: Event, packetId: Id, stageKey: string)
    ensures |Rounds(Apply(rows, e), packetId, stageKey)| ==
      |Rounds(rows, packetId, stageKey)| + if AddsRun(rows, e, packetId, stageKey) then 1 else 0
  {
    match e
    case Start(p, s) =>
      var pending := NewestPending(rows, p, s);
      if pending.Some? {
        StatusKeepsRounds(rows, pending.value, "running", packetId, stageKey);
      } else {
        assert Apply(rows, e)[..|rows|] == rows;
      }
    case Return(p, s) => assert Apply(rows, e)[..|rows|] == rows;
    case Finish(at, status) =>
      if at < |rows| {
        StatusKeepsRounds(rows, at, status, packetId, stageKey);
      }
  }

  lemma {:induction false} EventsAddRounds(rows: seq<StageRun>, events: seq<Event>, packetId: Id, stageKey: string)
    requires AllGapFree(rows)
    ensures AllGapFree(ApplyAll(rows, events))
    ensures
      var before, after := Rounds(rows, packetId, stageKey), Rounds(ApplyAll(rows, events), packetId, stageKey);
      if SomeAddsRun(rows, events, packetId, stageKey) then |after| > |before| else |after| == |before|
  {
    if events != [] {
      var n := |events| - 1;
      var init := events[..n];
      EventsAddRounds(rows, init, packetId, stageKey);
      EventKeepsGapFree(ApplyAll(rows, init), events[n]);
      EventAddsRound(ApplyAll(rows, init), events[n], packetId, stageKey);
      assert AddsRunAt(rows, events, n, packetId, stageKey) <==>
        AddsRun(ApplyAll(rows, init), events[n], packetId, stageKey);
      forall k | 0 <= k < n
        ensures AddsRunAt(rows, events, k, packetId, stageKey) <==> AddsRunAt(rows, init, k, packetId, stageKey)
      {
        assert init[..k] == events[..k];
      }
    }
  }

  /** In a table without gaps a row fits exactly when its round is the next one. */
  lemma RowFitsExactly(rows: seq<StageRun>, packetId: Id, stageKey: string, status: string, loopRound: int)
    requires AllGapFree(rows)
    ensures NextRound(rows, packetId, stageKey) == |Rounds(rows, packetId, stageKey)| + 1
    ensures AllGapFree(rows + [StageRun(packetId, stageKey, status, loopRound)]) <==>
      loopRound == |Rounds(rows, packetId, stageKey)| + 1
  {
    var after := rows + [StageRun(packetId, stageKey, status, loopRound)];
    assert after[..|rows|] == rows;
    var rounds := Rounds(rows, packetId, stageKey);
    assert GapFree(rounds);
    if rounds != [] {
      MaxOfGapFree(rounds);
    }
    if loopRound == NextRound(rows, packetId, stageKey) {
      AddedRunKeepsGapFree(rows, packetId, stageKey, status);
    } else {
      assert Rounds(after, packetId, stageKey)[|rounds|] == loopRound;
      assert !GapFree(Rounds(after, packetId, stageKey));
    }
  }

  /**
   * A start reads the next round in one transaction and inserts its row in another. Whatever happens in
   * between, the rounds stay gap-free exactly when none of it adds a row for the same stage.
   */
  lemma LateInsertExact(rows: seq<StageRun>, between: seq<Event>, packetId: Id, stageKey: string)
    requires AllGapFree(rows)
    ensures
      var read := NextRound(rows, packetId, stageKey);
      AllGapFree(ApplyAll(rows, between) + [StageRun(packetId, stageKey, "running", read)]) <==>
      !SomeAddsRun(rows, between, packetId, stageKey)
  {
    EventsAddRounds(rows, between, packetId, stageKey);
    RowFitsExactly(rows, packetId, stageKey, "running", NextRound(rows, packetId, stageKey));
    RowFitsExactly(ApplyAll(rows, between), packetId, stageKey, "running", NextRound(rows, packetId, stageKey));
  }

  /** Two first starts of a stage that overlap both take round 1. */
  lemma OverlappingStarts(packetId: Id, stageKey: string)
    ensures
      var after := ApplyAll([], [Start(packetId, stageKey)])
        + [StageRun(packetId, stageKey, "running", NextRound([], packetId, stageKey))];
      Rounds(after, packetId, stageKey) == [1, 1] && !AllGapFree(after)
  {
    var first := StageRun(packetId, stageKey, "running", 1);
    var events := [Start(packetId, stageKey)];
    assert events[..0] == [];
    assert ApplyAll([], events) == Started([], packetId, stageKey) == [] + [first] == [first];
    RoundsExtend([], first, packetId, stageKey);
    RoundsExtend([first], first, packetId, stageKey);
    assert Rounds([first] + [first], packetId, stageKey)[1] == 1;
    assert !GapFree(Rounds([first] + [first], packetId, stageKey));
  }

  lemma RoundsExtend(rows: seq<StageRun>, r: StageRun, packetId: Id, stageKey: string)
    ensures Rounds(rows + [r], packetId, stageKey) ==
      Rounds(rows, packetId, stageKey) + if IsFor(r, packetId, stageKey) then [r.loopRound] else []
  {
    assert (rows + [r])[..|rows|] == rows;
  }
}
