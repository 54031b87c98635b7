/** The packet state machine and the length of the runs it allows. */
module PacketStates {

  datatype PacketState =
    | Draft | Ready | Running | Accepted | Merged | Rejected | Blocked | Failed | Cancelled
    | BlockedRecoverable | BlockedFinal

  /** The transition table. */
  function ValidTransitions(s: PacketState): set<PacketState> {
    match s
    case Draft => {Ready}
    case Ready => {Running, Cancelled}
    case Running => {Accepted, Rejected, BlockedRecoverable, BlockedFinal, Failed, Cancelled}
    case Rejected => {Ready, Failed, BlockedRecoverable, BlockedFinal, Cancelled}
    case Blocked => {Ready}
    case BlockedRecoverable => {Ready, BlockedFinal, Cancelled}
    case BlockedFinal => {Cancelled}
    case Accepted => {Merged, BlockedRecoverable}
    case Merged => {}
    case Failed => {Cancelled}
    case Cancelled => {}
  }

  /** The table the other way round: from which states each state can be entered. */
  lemma EnteredFrom(s: PacketState)
    ensures !CanTransition(s, Draft) && !CanTransition(s, Blocked)
    ensures CanTransition(s, Ready) <==> s in {Draft, Rejected, Blocked, BlockedRecoverable}
    ensures CanTransition(s, Running) <==> s == Ready
    ensures CanTransition(s, Accepted) <==> s == Running
    ensures CanTransition(s, Merged) <==> s == Accepted
    ensures CanTransition(s, Rejected) <==> s == Running
    ensures CanTransition(s, Failed) <==> s in {Running, Rejected}
    ensures CanTransition(s, Cancelled) <==>
      s in {Ready, Running, Rejected, BlockedRecoverable, BlockedFinal, Failed}
    ensures CanTransition(s, BlockedRecoverable) <==> s in {Running, Rejected, Accepted}
    ensures CanTransition(s, BlockedFinal) <==> s in {Running, Rejected, BlockedRecoverable}
  {
  }

  /** Terminal states are those from which neither an attempt nor a merge can be reached: only cancelling is left. */
  lemma TerminalExact(s: PacketState)
    ensures IsTerminal(s) <==> forall t :: CanTransition(s, t) ==> t == Cancelled
  {
    if !IsTerminal(s) {
      assert CanTransition(s, Ready) || CanTransition(s, Running) || CanTransition(s, Accepted)
        || CanTransition(s, Merged);
    }
  }

  const TERMINAL_STATES: set<PacketState> := {Merged, Failed, BlockedFinal, Cancelled}

  predicate CanTransition(from: PacketState, to: PacketState) {
    to in ValidTransitions(from)
  }

  predicate IsTerminal(s: PacketState) {
    s in TERMINAL_STATES
  }

  /** Finished for good: no rule of the system moves a packet out of these states. */
  predicate IsDone(s: PacketState) {
    s == Merged || s == Cancelled
  }

  /** A step of a single packet: the table, or a reclaim, which writes READY over RUNNING directly. */
  predicate PacketStep(from: PacketState, to: PacketState) {
    CanTransition(from, to) || (from == Running && to == Ready)
  }

  /** Consecutive states of one packet, every neighbour pair a step. */
  ghost predicate IsStateRun(run: seq<PacketState>) {
    && run != []
    && forall i :: 0 <= i < |run| - 1 ==> PacketStep(run[i], run[i + 1])
  }

  /** How often the run enters RUNNING. */
  ghost function Starts(run: seq<PacketState>): nat {
    if |run| <= 1 then 0
    else Starts(run[..|run| - 1]) + if run[|run| - 1] == Running then 1 else 0
  }

  /** The most steps still possible from a state without entering RUNNING again. */
  ghost function Slack(s: PacketState): nat {
    match s
    case Draft => 2
    case Ready => 1
    case Running => 4
    case Accepted => 3
    case Rejected => 3
    case Blocked => 2
    case BlockedRecoverable => 2
    case BlockedFinal => 1
    case Failed => 1
    case Merged => 0
    case Cancelled => 0
  }

  /** A run spends at most four steps per entry into RUNNING, plus what its first state had in reserve. */
  lemma {:induction false} RunLength(run: seq<PacketState>)
    requires IsStateRun(run)
    ensures |run| - 1 + Slack(run[|run| - 1]) <= 4 * Starts(run) + Slack(run[0])
  {
    if |run| > 1 {
      var init := run[..|run| - 1];
      RunLength(init);
      assert PacketStep(run[|run| - 2], run[|run| - 1]);
    }
  }

  /** A run from DRAFT with k entries into RUNNING has at most 2 + 4k steps. */
  lemma RunFromDraftLength(run: seq<PacketState>)
    requires IsStateRun(run) && run[0] == Draft
    ensures |run| - 1 <= 2 + 4 * Starts(run)
  {
    RunLength(run);
  }

  /** A run that spends exactly four steps on each of k attempts. */
  ghost function LongRunToReady(k: nat): seq<PacketState> {
    if k == 0 then [Draft, Ready] else LongRunToReady(k - 1) + [Running, Accepted, BlockedRecoverable, Ready]
  }

  lemma {:induction false} LongRunToReadyIsRun(k: nat)
    ensures
      var run := LongRunToReady(k);
      IsStateRun(run) && run[0] == Draft && run[|run| - 1] == Ready && |run| == 2 + 4 * k && Starts(run) == k
  {
    if k > 0 {
      LongRunToReadyIsRun(k - 1);
      FourMoreSteps(LongRunToReady(k - 1));
    } else {
      assert [Draft, Ready][..1] == [Draft];
    }
  }

  lemma ExtendRun(run: seq<PacketState>, s: PacketState)
    requires IsStateRun(run) && PacketStep(run[|run| - 1], s)
    ensures IsStateRun(run + [s]) && Starts(run + [s]) == Starts(run) + if s == Running then 1 else 0
  {
    var more := run + [s];
    assert more[..|run|] == run;
    forall i | 0 <= i < |more| - 1 ensures PacketStep(more[i], more[i + 1]) {
      if i < |run| - 1 {
        assert more[i] == run[i] && more[i + 1] == run[i + 1];
      }
    }
  }

  lemma FourMoreSteps(run: seq<PacketState>)
    requires IsStateRun(run) && run[|run| - 1] == Ready
    ensures
      var more := run + [Running, Accepted, BlockedRecoverable, Ready];
      IsStateRun(more) && Starts(more) == Starts(run) + 1
  {
    var a := run + [Running];
    var b := a + [Accepted];
    var c := b + [BlockedRecoverable];
    ExtendRun(run, Running);
    ExtendRun(a, Accepted);
    ExtendRun(b, BlockedRecoverable);
    ExtendRun(c, Ready);
    assert run + [Running, Accepted, BlockedRecoverable, Ready] == c + [Ready];
  }

  /** The bound is reached for every number of attempts. */
  lemma LengthBoundReached(k: nat)
    ensures exists run :: IsStateRun(run) && run[0] == Draft && Starts(run) == k && |run| - 1 == 2 + 4 * k
  {
    LongRunToReadyIsRun(k);
    var run := LongRunToReady(k);
    ExtendRun(run, Cancelled);
    assert |run + [Cancelled]| - 1 == 2 + 4 * k;
  }

  /** Terminal states are never left for a non-terminal one, and MERGED and CANCELLED are never left at all. */
  lemma {:induction false} TerminalForGood(run: seq<PacketState>, i: nat, j: nat)
    requires IsStateRun(run) && i <= j < |run| && IsTerminal(run[i])
    ensures IsTerminal(run[j])
    ensures IsDone(run[i]) ==> i == |run| - 1
    decreases j - i
  {
    if i < |run| - 1 {
      assert PacketStep(run[i], run[i + 1]);
    }
    if i < j {
      TerminalForGood(run, i + 1, j);
    }
  }
}
