/** Building the failure signal from a packet's run history, deciding, and applying the decision. */
module RecoveryController {
  import opened Sequences
  import opened PacketStates
  import opened Database
  import opened PacketOperations
  import RecoveryActions
  import opened RecoveryPolicies
  import opened Text

  /**
   * A report field of a run result: a dictionary of texts, or a value of another type. A missing field is the
   * empty dictionary.
   */
  datatype Report = Dict(fields: map<string, string>) | OtherValue

  /** One run of a packet. `evidenceExecutor` is the executor named in the evidence of the legacy result. */
  datatype PacketRun = PacketRun(status: string, reason: string, domainStatus: string, mergeError: string,
                                 executorId: string, legacy: Report, evidenceExecutor: string,
                                 verifier: Report, reviewer: Report)

  datatype BuildResult = Built(signal: Signal, executors: seq<string>) | NoRuns

  const HISTORY_LIMIT := 10

  function Lookup(d: map<string, string>, key: string): string {
    if key in d then d[key] else ""
  }

  function AsDict(r: Report): map<string, string> {
    if r.Dict? then r.fields else map[]
  }

  function FirstNonEmpty(texts: seq<string>): string {
    if texts == [] then "" else if texts[0] != "" then texts[0] else FirstNonEmpty(texts[1..])
  }

  /** The first text that is not empty. */
  lemma {:induction false} FirstOf(texts: seq<string>, i: nat)
    requires i < |texts| && texts[i] != "" && forall j :: 0 <= j < i ==> texts[j] == ""
    ensures FirstNonEmpty(texts) == texts[i]
  {
    if i > 0 {
      FirstOf(texts[1..], i - 1);
    }
  }

  lemma {:induction false} AllEmpty(texts: seq<string>)
    requires forall i :: 0 <= i < |texts| ==> texts[i] == ""
    ensures FirstNonEmpty(texts) == ""
  {
    if texts != [] {
      AllEmpty(texts[1..]);
    }
  }

  predicate IsReturn(r: Report) {
    Lookup(AsDict(r), "verdict") == RETURN
  }

  // ----- The history, newest run first

  /** The newest report that is a non-empty dictionary. */
  function Newest(reports: seq<Report>): map<string, string> {
    if reports == [] then map[]
    else if AsDict(reports[0]) != map[] then AsDict(reports[0])
    else Newest(reports[1..])
  }

  /** The newest report that returns the packet to the architect. */
  function NewestReturn(reports: seq<Report>): map<string, string> {
    if reports == [] then map[]
    else if IsReturn(reports[0]) then AsDict(reports[0])
    else NewestReturn(reports[1..])
  }

  function Reviews(runs: seq<PacketRun>): seq<Report> {
    seq(|runs|, i requires 0 <= i < |runs| => runs[i].reviewer)
  }

  function Verifications(runs: seq<PacketRun>): seq<Report> {
    seq(|runs|, i requires 0 <= i < |runs| => runs[i].verifier)
  }

  predicate IsCoderFailure(run: PacketRun) {
    run.status == "rejected" || run.status == "failed" || run.status == "blocked"
  }

  /** The positions of the runs in which the coder failed. */
  function Failures(runs: seq<PacketRun>): set<nat> {
    set i | 0 <= i < |runs| && IsCoderFailure(runs[i])
  }

  /** The positions of the runs whose domain status mentions the part of the pipeline. */
  function Mentioning(runs: seq<PacketRun>, part: string): set<nat> {
    set i | 0 <= i < |runs| && Contains(runs[i].domainStatus, part)
  }

  /** The counters of the history loop. */
  datatype Tally = Tally(coder: nat, verifierRejects: nat, reviewerRejects: nat, merges: nat, repairs: nat)

  function TallyOf(runs: seq<PacketRun>): Tally {
    Tally(|Failures(runs)|, |Mentioning(runs, "verifier")|, |Mentioning(runs, "reviewer")|,
          |Mentioning(runs, "merge")|, |Mentioning(runs, "architect")|)
  }

  function CountIf(b: bool): nat {
    if b then 1 else 0
  }

  lemma FailuresExtend(runs: seq<PacketRun>, run: PacketRun)
    ensures |Failures(runs + [run])| == |Failures(runs)| + CountIf(IsCoderFailure(run))
  {
    assert Failures(runs + [run]) == Failures(runs) + if IsCoderFailure(run) then {|runs|} else {};
  }

  lemma MentioningExtend(runs: seq<PacketRun>, run: PacketRun, part: string)
    ensures |Mentioning(runs + [run], part)| == |Mentioning(runs, part)| + CountIf(Contains(run.domainStatus, part))
  {
    var mentions := Contains(run.domainStatus, part);
    assert Mentioning(runs + [run], part) == Mentioning(runs, part) + if mentions then {|runs|} else {};
  }

  function ExecutorOf(run: PacketRun): string {
    FirstNonEmpty([run.executorId, Lookup(AsDict(run.legacy), "executor_id"), run.evidenceExecutor])
  }

  function Executors(runs: seq<PacketRun>): seq<string> {
    seq(|runs|, i requires 0 <= i < |runs| => ExecutorOf(runs[i]))
  }

  /** The reviewer report the signal uses: an unresolved return outlives everything but a newer PASS. */
  function EffectiveReview(runs: seq<PacketRun>): map<string, string> {
    var newest, carried := Newest(Reviews(runs)), NewestReturn(Reviews(runs));
    if Lookup(newest, "verdict") != PASS && carried != map[] then carried else newest
  }

  /** The verifier report the signal uses; its unresolved return is carried only if no review was. */
  function EffectiveVerification(runs: seq<PacketRun>): map<string, string> {
    var review, carriedReview := Newest(Reviews(runs)), NewestReturn(Reviews(runs));
    var newest, carried := Newest(Verifications(runs)), NewestReturn(Verifications(runs));
    if Lookup(review, "verdict") != PASS && carriedReview != map[] then newest
    else if Lookup(newest, "verdict") != PASS && carried != map[] then carried
    else newest
  }

  /** The signal for a non-empty window of runs, newest first. */
  function SignalOf(packetState: string, attemptCount: int, runs: seq<PacketRun>): Signal
    requires runs != []
  {
    var review, verification := EffectiveReview(runs), EffectiveVerification(runs);
    var legacy := AsDict(runs[0].legacy);
    Signal(
      packetState,
      Lookup(legacy, "domain_status"),
      FirstNonEmpty([
        if Lookup(review, "verdict") == RETURN then Lookup(review, "summary") else "",
        runs[0].reason, Lookup(review, "summary"), Lookup(verification, "summary"),
        Lookup(legacy, "reason"), Lookup(legacy, "error")]),
      runs[0].mergeError,
      Lookup(verification, "verdict"),
      Lookup(review, "verdict"),
      attemptCount,
      TallyOf(runs).coder, TallyOf(runs).repairs, TallyOf(runs).verifierRejects, TallyOf(runs).reviewerRejects,
      TallyOf(runs).merges)
  }

  /** The runs that are looked at. */
  function Window(history: seq<PacketRun>): (r: seq<PacketRun>)
    ensures r <= history
    ensures |history| <= 10 ==> |r| == |history|
    ensures |history| > 10 ==> |r| == 10
  {
    if |history| <= HISTORY_LIMIT then history else history[..HISTORY_LIMIT]
  }

  lemma {:induction false} NewestExtend(reports: seq<Report>, r: Report)
    ensures Newest(reports + [r]) == if Newest(reports) != map[] then Newest(reports) else AsDict(r)
  {
    if reports != [] {
      assert (reports + [r])[1..] == reports[1..] + [r];
      NewestExtend(reports[1..], r);
    }
  }

  lemma {:induction false} NewestReturnExtend(reports: seq<Report>, r: Report)
    ensures NewestReturn(reports + [r]) ==
      if NewestReturn(reports) != map[] then NewestReturn(reports) else if IsReturn(r) then AsDict(r) else map[]
  {
    if reports != [] {
      assert (reports + [r])[1..] == reports[1..] + [r];
      NewestReturnExtend(reports[1..], r);
    }
  }

  /** The loop over the newest ten runs, carrying unresolved returns forward. */
  method BuildSignal(packetState: string, attemptCount: int, history: seq<PacketRun>) returns (result: BuildResult)
    ensures result == NoRuns <==> history == []
    ensures history != [] ==>
      result == Built(SignalOf(packetState, attemptCount, Window(history)), Executors(Window(history)))
  {
    var runs := Window(history);
    if runs == [] {
      return NoRuns;
    }
    var latest := runs[0];
    var legacy := AsDict(latest.legacy);
    var tally, executors := CountHistory(runs);
    var ev, carriedEv := NewestReports(Verifications(runs));
    var rv, carriedRv := NewestReports(Reviews(runs));
    if Lookup(rv, "verdict") != PASS && carriedRv != map[] {
      rv := carriedRv;
    } else if Lookup(ev, "verdict") != PASS && carriedEv != map[] {
      ev := carriedEv;
    }
    var reason := FirstNonEmpty([
      if Lookup(rv, "verdict") == RETURN then Lookup(rv, "summary") else "",
      latest.reason, Lookup(rv, "summary"), Lookup(ev, "summary"), Lookup(legacy, "reason"), Lookup(legacy, "error")]);
    var signal := Signal(packetState, Lookup(legacy, "domain_status"), reason, latest.mergeError,
                         Lookup(ev, "verdict"), Lookup(rv, "verdict"), attemptCount,
                         tally.coder, tally.repairs, tally.verifierRejects, tally.reviewerRejects, tally.merges);
    return Built(signal, executors);
  }

  /** The part of the history loop that carries the reports of one kind. */
  method NewestReports(reports: seq<Report>) returns (newest: map<string, string>, carried: map<string, string>)
    requires reports != []
    ensures newest == Newest(reports) && carried == NewestReturn(reports)
  {
    newest, carried := AsDict(reports[0]), map[];
    for i := 0 to |reports|
      invariant carried == NewestReturn(reports[..i])
      invariant newest == if i == 0 then AsDict(reports[0]) else Newest(reports[..i])
    {
      assert reports[..i + 1] == reports[..i] + [reports[i]];
      NewestReturnExtend(reports[..i], reports[i]);
      NewestExtend(reports[..i], reports[i]);
      if carried == map[] && IsReturn(reports[i]) {
        carried := AsDict(reports[i]);
      }
      if newest == map[] && reports[i].Dict? {
        newest := reports[i].fields;
      }
    }
    assert reports[..|reports|] == reports;
  }

  /**
   * The part of the history loop that counts and lists the executors: each counter is the number of runs
   * of its kind, and the list has the executor of every run.
   */
  method CountHistory(runs: seq<PacketRun>) returns (tally: Tally, executors: seq<string>)
    ensures tally.coder == |Failures(runs)|
    ensures tally.verifierRejects == |Mentioning(runs, "verifier")|
    ensures tally.reviewerRejects == |Mentioning(runs, "reviewer")|
    ensures tally.merges == |Mentioning(runs, "merge")| && tally.repairs == |Mentioning(runs, "architect")|
    ensures executors == Executors(runs)
  {
    tally, executors := Tally(0, 0, 0, 0, 0), [];
    for i := 0 to |runs|
      invariant tally == TallyOf(runs[..i]) && executors == Executors(runs[..i])
    {
      var run := runs[i];
      assert runs[..i + 1] == runs[..i] + [run];
      FailuresExtend(runs[..i], run);
      MentioningExtend(runs[..i], run, "verifier");
      MentioningExtend(runs[..i], run, "reviewer");
      MentioningExtend(runs[..i], run, "merge");
      MentioningExtend(runs[..i], run, "architect");
      tally := Tally(tally.coder + CountIf(IsCoderFailure(run)),
                     tally.verifierRejects + CountIf(Contains(run.domainStatus, "verifier")),
                     tally.reviewerRejects + CountIf(Contains(run.domainStatus, "reviewer")),
                     tally.merges + CountIf(Contains(run.domainStatus, "merge")),
                     tally.repairs + CountIf(Contains(run.domainStatus, "architect")));
      executors := executors + [ExecutorOf(run)];
    }
    assert runs[..|runs|] == runs;
  }

  // ----- Unresolved returns to the architect

  ghost predicate HasReturn(reports: seq<Report>) {
    exists i :: 0 <= i < |reports| && IsReturn(reports[i])
  }

  /** The carried report is there exactly when some report in the window is a return, and then it is one. */
  lemma {:induction false} CarriedIsReturn(reports: seq<Report>)
    ensures NewestReturn(reports) != map[] <==> HasReturn(reports)
    ensures HasReturn(reports) ==> Lookup(NewestReturn(reports), "verdict") == RETURN
  {
    if reports != [] && !IsReturn(reports[0]) {
      CarriedIsReturn(reports[1..]);
      if HasReturn(reports) {
        var i :| 0 <= i < |reports| && IsReturn(reports[i]);
        assert IsReturn(reports[1..][i - 1]);
      }
      if HasReturn(reports[1..]) {
        var i :| 0 <= i < |reports[1..]| && IsReturn(reports[1..][i]);
        assert IsReturn(reports[i + 1]);
      }
    }
  }

  /** What `BuildSignal` followed by `Decide` does. */
  function DecideFor(packetState: string, attemptCount: int, history: seq<PacketRun>, policy: Policy): Decision
    requires history != []
  {
    Decide(SignalOf(packetState, attemptCount, Window(history)), policy)
  }

  /**
   * A reviewer's return to the architect within the last ten runs stays in force until a newer PASS: for
   * every history and policy the decision is one for the architect, and which one is fully determined.
   */
  lemma ReviewerReturnSticks(packetState: string, attemptCount: int, history: seq<PacketRun>, policy: Policy)
    requires history != [] && HasReturn(Reviews(Window(history)))
    requires Lookup(Newest(Reviews(Window(history))), "verdict") != PASS
    ensures
      var s := SignalOf(packetState, attemptCount, Window(history));
      var action := DecideFor(packetState, attemptCount, history, policy).action;
      && IsArchitectAction(action)
      && action ==
           if IsBlocker(s) then BlockFeature
           else if TallyOf(Window(history)).repairs >= policy.maxArchitectRepairs then EscalateArchitect
           else ReturnToArchitect
  {
    CarriedIsReturn(Reviews(Window(history)));
  }

  /** A PASS that is the newest review supersedes every older return of the reviewer. */
  lemma PassSupersedesReturn(packetState: string, attemptCount: int, history: seq<PacketRun>)
    requires history != [] && Lookup(Newest(Reviews(Window(history))), "verdict") == PASS
    ensures SignalOf(packetState, attemptCount, Window(history)).reviewerVerdict == PASS
  {
  }

  /**
   * The exact fate of a reviewer's return within the last ten runs. Unless the newest review is a PASS the
   * architect gets it; under a PASS only a blocker or the verifier can still send the packet there.
   */
  lemma ReviewerReturnExact(packetState: string, attemptCount: int, history: seq<PacketRun>, policy: Policy)
    requires history != [] && HasReturn(Reviews(Window(history)))
    ensures
      var s := SignalOf(packetState, attemptCount, Window(history));
      var verdict := Lookup(EffectiveVerification(Window(history)), "verdict");
      IsArchitectAction(DecideFor(packetState, attemptCount, history, policy).action) <==>
        || Lookup(Newest(Reviews(Window(history))), "verdict") != PASS
        || IsBlocker(s)
        || verdict == RETURN
        || (verdict == REWORK && |Failures(Window(history))| >= policy.maxTotalCoder)
        || (verdict !in {"", PASS, RETURN, REWORK}
            && |Mentioning(Window(history), "verifier")| >= policy.maxVerifierRetries)
  {
    if Lookup(Newest(Reviews(Window(history))), "verdict") == PASS {
      PassSupersedesReturn(packetState, attemptCount, history);
      assert |RETURN| == 19 && |REWORK| == 15 && |PASS| == 4;
    } else {
      ReviewerReturnSticks(packetState, attemptCount, history, policy);
    }
  }

  /**
   * A verifier's unresolved return is weaker. Where no review is carried, it leads to the architect
   * exactly when a blocker was found, the newest review is absent or a PASS, or the ladder that the
   * newest review starts is exhausted.
   */
  lemma VerifierReturnExact(packetState: string, attemptCount: int, history: seq<PacketRun>, policy: Policy)
    requires history != [] && HasReturn(Verifications(Window(history)))
    requires Lookup(Newest(Verifications(Window(history))), "verdict") != PASS
    requires Lookup(Newest(Reviews(Window(history))), "verdict") == PASS || !HasReturn(Reviews(Window(history)))
    ensures
      var s := SignalOf(packetState, attemptCount, Window(history));
      var review := Lookup(Newest(Reviews(Window(history))), "verdict");
      IsArchitectAction(DecideFor(packetState, attemptCount, history, policy).action) <==>
        || IsBlocker(s)
        || review == "" || review == PASS
        || (review == REWORK && s.coderAttempts >= policy.maxTotalCoder)
        || (review != REWORK && s.reviewerRejects >= policy.maxReviewerRetries)
  {
    var runs := Window(history);
    CarriedIsReturn(Verifications(runs));
    CarriedIsReturn(Reviews(runs));
    var review := Lookup(Newest(Reviews(runs)), "verdict");
    if review == RETURN {
      NewestIsAmong(Reviews(runs));
      assert false;
    }
  }

  lemma {:induction false} NewestIsAmong(reports: seq<Report>)
    requires Lookup(Newest(reports), "verdict") == RETURN
    ensures HasReturn(reports)
  {
    if AsDict(reports[0]) != map[] {
      assert IsReturn(reports[0]);
    } else {
      NewestIsAmong(reports[1..]);
      var i :| 0 <= i < |reports[1..]| && IsReturn(reports[1..][i]);
      assert IsReturn(reports[i + 1]);
    }
  }

  /** The weakness is real: a verifier return under a reviewer's REWORK goes back to the coder. */
  lemma VerifierReturnOverruled(policy: Policy)
    requires policy.maxTotalCoder > 1
    ensures exists history: seq<PacketRun> ::
      && history != [] && HasReturn(Verifications(Window(history)))
      && Lookup(Newest(Verifications(Window(history))), "verdict") != PASS
      && IsCoderAction(DecideFor("rejected", 1, history, policy).action)
  {
    var run := RejectedRun(RETURN, REWORK);
    var history := [run];
    var s := SignalOf("rejected", 1, history);
    assert Window(history) == history && Failures(history) == {0};
    OneRunReports(history, run);
    SilentSignal("rejected", 1, history);
    SilentIsNoBlocker(s);
    CoderActionExact(s, policy);
    assert IsCoderAction(DecideFor("rejected", 1, history, policy).action);
  }

  lemma OneRunReports(runs: seq<PacketRun>, run: PacketRun)
    requires runs == [run] && run == RejectedRun(RETURN, REWORK)
    ensures HasReturn(Verifications(runs)) && Lookup(Newest(Verifications(runs)), "verdict") != PASS
    ensures EffectiveReview(runs) == map["verdict" := REWORK]
    ensures EffectiveVerification(runs) == map["verdict" := RETURN]
  {
    assert |RETURN| == 19 && |REWORK| == 15 && |PASS| == 4;
    assert Reviews(runs) == [run.reviewer] && Verifications(runs) == [run.verifier];
    assert IsReturn(Verifications(runs)[0]);
    SameReports(Reviews(runs), run.reviewer);
  }

  // ----- Where the signal comes from, in terms of the runs alone

  /** The report is a dictionary with this text under the key; a missing key is the empty text. */
  predicate Says(r: Report, key: string, text: string) {
    r.Dict? && text == if key in r.fields then r.fields[key] else ""
  }

  /** Report i is the newest that is a dictionary and not empty. */
  ghost predicate IsNewest(reports: seq<Report>, i: nat) {
    && i < |reports| && reports[i].Dict? && reports[i].fields != map[]
    && forall j :: 0 <= j < i ==> reports[j].OtherValue? || reports[j].fields == map[]
  }

  /** Report i is the newest that returns the packet to the architect. */
  ghost predicate IsNewestReturn(reports: seq<Report>, i: nat) {
    && i < |reports| && Says(reports[i], "verdict", "RETURN_TO_ARCHITECT")
    && forall j :: 0 <= j < i ==> !Says(reports[j], "verdict", "RETURN_TO_ARCHITECT")
  }

  lemma {:induction false} NewestByPosition(reports: seq<Report>)
    ensures forall i: nat :: IsNewest(reports, i) ==> Newest(reports) == reports[i].fields
    ensures (forall i: nat :: !IsNewest(reports, i)) ==> Newest(reports) == map[]
  {
    if reports != [] {
      var tail := reports[1..];
      NewestByPosition(tail);
      if AsDict(reports[0]) != map[] {
        assert IsNewest(reports, 0);
      } else {
        forall i: nat ensures IsNewest(reports, i) <==> i > 0 && IsNewest(tail, i - 1) {
          if i > 0 && IsNewest(tail, i - 1) {
            forall j | 0 <= j < i ensures reports[j].OtherValue? || reports[j].fields == map[] {
              assert j > 0 ==> reports[j] == tail[j - 1];
            }
          }
          if IsNewest(reports, i) && i > 0 {
            forall j | 0 <= j < i - 1 ensures tail[j].OtherValue? || tail[j].fields == map[] {
              assert tail[j] == reports[j + 1];
            }
          }
        }
        assert forall i: nat :: IsNewest(tail, i) ==> IsNewest(reports, i + 1);
      }
    }
  }

  lemma {:induction false} NewestReturnByPosition(reports: seq<Report>)
    ensures forall i: nat :: IsNewestReturn(reports, i) ==> NewestReturn(reports) == reports[i].fields
    ensures (forall i: nat :: !IsNewestReturn(reports, i)) ==> NewestReturn(reports) == map[]
  {
    if reports != [] {
      var tail := reports[1..];
      NewestReturnByPosition(tail);
      if IsReturn(reports[0]) {
        assert IsNewestReturn(reports, 0);
      } else {
        forall i: nat ensures IsNewestReturn(reports, i) <==> i > 0 && IsNewestReturn(tail, i - 1) {
          if i > 0 && IsNewestReturn(tail, i - 1) {
            forall j | 0 <= j < i ensures !Says(reports[j], "verdict", "RETURN_TO_ARCHITECT") {
              assert j > 0 ==> reports[j] == tail[j - 1];
            }
          }
          if IsNewestReturn(reports, i) && i > 0 {
            forall j | 0 <= j < i - 1 ensures !Says(tail[j], "verdict", "RETURN_TO_ARCHITECT") {
              assert tail[j] == reports[j + 1];
            }
          }
        }
        assert forall i: nat :: IsNewestReturn(tail, i) ==> IsNewestReturn(reports, i + 1);
      }
    }
  }

  /** `d` is the newest non-empty dictionary among the reports, or empty if there is none. */
  ghost predicate IsNewestDict(reports: seq<Report>, d: map<string, string>) {
    || (exists i: nat :: IsNewest(reports, i) && d == reports[i].fields)
    || ((forall i: nat :: !IsNewest(reports, i)) && d == map[])
  }

  ghost predicate HasPass(d: map<string, string>) {
    "verdict" in d && d["verdict"] == "PASS"
  }

  /** A return of this kind is in force: there is one, and the newest report of the kind is no PASS. */
  ghost predicate InForce(reports: seq<Report>) {
    && (exists i: nat :: IsNewestReturn(reports, i))
    && forall d :: IsNewestDict(reports, d) ==> !HasPass(d)
  }

  /** The report of a kind that counts: the newest return while it is in force, else the newest report. */
  ghost predicate Counts(reports: seq<Report>, carries: bool, d: map<string, string>) {
    if carries && InForce(reports) then exists i: nat :: IsNewestReturn(reports, i) && d == reports[i].fields
    else IsNewestDict(reports, d)
  }

  lemma NewestIsNewestDict(reports: seq<Report>)
    ensures IsNewestDict(reports, Newest(reports))
    ensures forall d :: IsNewestDict(reports, d) ==> d == Newest(reports)
  {
    NewestByPosition(reports);
  }

  lemma InForceExact(reports: seq<Report>)
    ensures InForce(reports) <==> Lookup(Newest(reports), "verdict") != PASS && NewestReturn(reports) != map[]
    ensures InForce(reports) ==>
      exists i: nat :: IsNewestReturn(reports, i) && NewestReturn(reports) == reports[i].fields
  {
    NewestIsNewestDict(reports);
    NewestReturnByPosition(reports);
    if i: nat :| IsNewestReturn(reports, i) {
      assert NewestReturn(reports) == reports[i].fields;
      assert "verdict" in reports[i].fields;
    }
  }

  /**
   * Which reports the signal reads: the reviewer's newest return while it is in force, else the newest
   * review; for the verifier the same, except that a return is not carried while one of the reviewer is.
   */
  lemma ReportsThatCount(runs: seq<PacketRun>)
    ensures Counts(Reviews(runs), true, EffectiveReview(runs))
    ensures Counts(Verifications(runs), !InForce(Reviews(runs)), EffectiveVerification(runs))
  {
    InForceExact(Reviews(runs));
    InForceExact(Verifications(runs));
    NewestIsNewestDict(Reviews(runs));
    NewestIsNewestDict(Verifications(runs));
  }

  /** The reason of a signal: the first of six texts that is not empty. */
  predicate IsReason(reason: string, returned: string, own: string, review: string, verification: string,
                     legacyReason: string, legacyError: string)
  {
    if returned != "" then reason == returned
    else if own != "" then reason == own
    else if review != "" then reason == review
    else if verification != "" then reason == verification
    else if legacyReason != "" then reason == legacyReason
    else reason == legacyError
  }

  lemma FirstOfSix(a: string, b: string, c: string, d: string, e: string, f: string)
    ensures IsReason(FirstNonEmpty([a, b, c, d, e, f]), a, b, c, d, e, f)
  {
    var texts := [a, b, c, d, e, f];
    if a != "" {
      FirstOf(texts, 0);
    } else if b != "" {
      FirstOf(texts, 1);
    } else if c != "" {
      FirstOf(texts, 2);
    } else if d != "" {
      FirstOf(texts, 3);
    } else if e != "" {
      FirstOf(texts, 4);
    } else if f != "" {
      FirstOf(texts, 5);
    } else {
      AllEmpty(texts);
    }
  }

  function TextAt(d: map<string, string>, key: string): string {
    if key in d then d[key] else ""
  }

  /**
   * Every field of the signal for a non-empty history. The reason is, in this order: the summary of a return
   * of the reviewer, the newest run's own reason, the summary of the review, the summary of the
   * verification, the reason and the error of the newest run's legacy result.
   */
  lemma SignalByFields(packetState: string, attemptCount: int, history: seq<PacketRun>)
    requires history != []
    ensures
      var window := Window(history);
      var s := SignalOf(packetState, attemptCount, window);
      var review, verification := EffectiveReview(window), EffectiveVerification(window);
      var legacy := if history[0].legacy.Dict? then history[0].legacy.fields else map[];
      && s.packetState == packetState && s.attemptCount == attemptCount
      && s.mergeError == history[0].mergeError
      && s.domainStatus == TextAt(legacy, "domain_status")
      && s.reviewerVerdict == TextAt(review, "verdict") && s.verifierVerdict == TextAt(verification, "verdict")
      && IsReason(s.reason,
           if TextAt(review, "verdict") == "RETURN_TO_ARCHITECT" then TextAt(review, "summary") else "",
           history[0].reason, TextAt(review, "summary"), TextAt(verification, "summary"),
           TextAt(legacy, "reason"), TextAt(legacy, "error"))
      && s.coderAttempts == |Failures(window)|
      && s.verifierRejects == |Mentioning(window, "verifier")|
      && s.reviewerRejects == |Mentioning(window, "reviewer")|
      && s.mergeAttempts == |Mentioning(window, "merge")|
      && s.architectRepairs == |Mentioning(window, "architect")|
  {
    var window := Window(history);
    var review, verification := EffectiveReview(window), EffectiveVerification(window);
    var legacy := AsDict(window[0].legacy);
    FirstOfSix(if Lookup(review, "verdict") == RETURN then Lookup(review, "summary") else "", window[0].reason,
               Lookup(review, "summary"), Lookup(verification, "summary"), Lookup(legacy, "reason"),
               Lookup(legacy, "error"));
  }

  /** While no return of the reviewer is in force, the reason is the newest run's own, if it gives one. */
  lemma OwnReasonCounts(packetState: string, attemptCount: int, history: seq<PacketRun>)
    requires history != [] && !InForce(Reviews(Window(history))) && history[0].reason != ""
    ensures SignalOf(packetState, attemptCount, Window(history)).reason == history[0].reason
  {
    var window := Window(history);
    SignalByFields(packetState, attemptCount, history);
    InForceExact(Reviews(window));
    CarriedIsReturn(Reviews(window));
    if Lookup(Newest(Reviews(window)), "verdict") == RETURN {
      NewestIsAmong(Reviews(window));
      VerdictsDiffer();
    }
  }

  /**
   * While no return of the reviewer is in force, a newest run whose reason mentions one of the phrases for
   * missing access or a missing decision blocks the feature, for every history and policy.
   */
  lemma BlockingReasonBlocks(packetState: string, attemptCount: int, history: seq<PacketRun>, policy: Policy,
                             phrase: string)
    requires history != [] && !InForce(Reviews(Window(history)))
    requires phrase in {
      "missing cli", "missing api key", "auth failed", "quota exceeded", "permission denied",
      "repository inaccessible", "user decision required", "user approval required", "security required",
      "billing required", "data-loss approval"}
    requires Contains(Lower(history[0].reason), phrase)
    ensures DecideFor(packetState, attemptCount, history, policy).action == BlockFeature
  {
    var s := SignalOf(packetState, attemptCount, Window(history));
    assert history[0].reason != "" by {
      EmptyContainsNothing();
      assert Lower("") == "" && phrase != "";
    }
    OwnReasonCounts(packetState, attemptCount, history);
    BlockerPhrases(s);
    ActionTable(s, policy);
  }

  /** A newest run with a merge conflict blocks the feature, whatever else the history holds. */
  lemma MergeConflictBlocks(packetState: string, attemptCount: int, history: seq<PacketRun>, policy: Policy)
    requires history != []
    requires exists word :: word in {"dirty_target_repo", "conflict"} && Contains(Lower(history[0].mergeError), word)
    ensures DecideFor(packetState, attemptCount, history, policy).action == BlockFeature
  {
    var s := SignalOf(packetState, attemptCount, Window(history));
    SignalByFields(packetState, attemptCount, history);
    BlockerPhrases(s);
    ActionTable(s, policy);
  }

  /** Which runs count as failures of the coder, and which executor a run is listed with. */
  lemma RunsByField(run: PacketRun)
    ensures IsCoderFailure(run) <==> run.status in {"rejected", "failed", "blocked"}
    ensures
      var legacy := if run.legacy.Dict? then TextAt(run.legacy.fields, "executor_id") else "";
      && (run.executorId != "" ==> ExecutorOf(run) == run.executorId)
      && (run.executorId == "" && legacy != "" ==> ExecutorOf(run) == legacy)
      && (run.executorId == "" && legacy == "" ==> ExecutorOf(run) == run.evidenceExecutor)
  {
    var texts := [run.executorId, Lookup(AsDict(run.legacy), "executor_id"), run.evidenceExecutor];
    if texts[0] != "" {
      FirstOf(texts, 0);
    } else if texts[1] != "" {
      FirstOf(texts, 1);
    } else if texts[2] != "" {
      FirstOf(texts, 2);
    } else {
      AllEmpty(texts);
    }
  }

  // ----- The limit on coder attempts

  /** Of the whole history the signal sees at most ten failures. */
  lemma FailuresSeen(packetState: string, attemptCount: int, history: seq<PacketRun>)
    requires history != []
    ensures
      var seen := SignalOf(packetState, attemptCount, Window(history)).coderAttempts;
      seen == |Failures(Window(history))| <= HISTORY_LIMIT && seen <= |Failures(history)|
  {
    var window := Window(history);
    SubsetSize(Failures(window), Positions(|window|));
    SubsetSize(Failures(window), Failures(history));
  }

  ghost function Positions(n: nat): (r: set<nat>)
    ensures |r| == n && forall i: nat :: i in r <==> i < n
  {
    if n == 0 then {} else Positions(n - 1) + {n - 1}
  }

  /**
   * The limit promises that a packet whose coder failed often enough is not sent to a coder again. For a
   * history of any length the promise is kept exactly when the failure is not one that is retried without
   * limit and, if the coder is at fault, the newest ten runs alone hold enough failures.
   */
  lemma CoderLimitExact(packetState: string, attemptCount: int, history: seq<PacketRun>, policy: Policy)
    requires history != [] && |Failures(history)| >= policy.maxTotalCoder
    ensures
      var s := SignalOf(packetState, attemptCount, Window(history));
      !IsCoderAction(DecideFor(packetState, attemptCount, history, policy).action) <==>
        && !RetriedWithoutLimit(s)
        && (CoderFault(s) ==> |Failures(Window(history))| >= policy.maxTotalCoder)
  {
    CoderActionExact(SignalOf(packetState, attemptCount, Window(history)), policy);
  }

  /** A limit above ten binds no history, however many failures it has. */
  lemma LimitAboveWindowNeverBinds(packetState: string, attemptCount: int, history: seq<PacketRun>, policy: Policy)
    requires history != [] && policy.maxTotalCoder > HISTORY_LIMIT
    ensures
      var s := SignalOf(packetState, attemptCount, Window(history));
      IsCoderAction(DecideFor(packetState, attemptCount, history, policy).action) <==>
        RetriedWithoutLimit(s) || CoderFault(s)
  {
    FailuresSeen(packetState, attemptCount, history);
    CoderActionExact(SignalOf(packetState, attemptCount, Window(history)), policy);
  }

  /** A run that was rejected with the two verdicts and says nothing else. */
  function RejectedRun(verifier: string, reviewer: string): PacketRun {
    PacketRun("rejected", "", "", "", "", Dict(map[]), "",
              Dict(if verifier == "" then map[] else map["verdict" := verifier]),
              Dict(if reviewer == "" then map[] else map["verdict" := reviewer]))
  }

  function Repeated(run: PacketRun, n: nat): seq<PacketRun> {
    seq(n, i => run)
  }

  /** The signal of a packet that was rejected n times in the same way. */
  lemma RepeatedSignal(packetState: string, attemptCount: int, n: nat, verifier: string, reviewer: string)
    requires n > 0 && verifier != RETURN && reviewer != RETURN
    ensures
      var history := Repeated(RejectedRun(verifier, reviewer), n);
      var s := SignalOf(packetState, attemptCount, Window(history));
      && |Failures(history)| == n
      && s.verifierVerdict == verifier && s.reviewerVerdict == reviewer && !IsBlocker(s)
  {
    var run := RejectedRun(verifier, reviewer);
    var history := Repeated(run, n);
    assert Failures(history) == Positions(n);
    SameRunsReports(Window(history), run);
    SilentSignal(packetState, attemptCount, Window(history));
    SilentIsNoBlocker(SignalOf(packetState, attemptCount, Window(history)));
  }

  lemma SameRunsReports(runs: seq<PacketRun>, run: PacketRun)
    requires runs != [] && forall i :: 0 <= i < |runs| ==> runs[i] == run
    requires run.verifier.Dict? && run.reviewer.Dict? && !IsReturn(run.verifier) && !IsReturn(run.reviewer)
    ensures EffectiveReview(runs) == run.reviewer.fields && EffectiveVerification(runs) == run.verifier.fields
  {
    SameReports(Reviews(runs), run.reviewer);
    SameReports(Verifications(runs), run.verifier);
  }

  /** Runs and reports that say nothing give a signal without a reason. */
  lemma SilentSignal(packetState: string, attemptCount: int, runs: seq<PacketRun>)
    requires runs != [] && runs[0].reason == "" && runs[0].legacy == Dict(map[])
    requires "summary" !in EffectiveReview(runs) && "summary" !in EffectiveVerification(runs)
    ensures SignalOf(packetState, attemptCount, runs).reason == ""
  {
    AllEmpty(["", "", "", "", "", ""]);
  }

  lemma {:induction false} SameReports(reports: seq<Report>, r: Report)
    requires reports != [] && r.Dict? && !IsReturn(r) && forall i :: 0 <= i < |reports| ==> reports[i] == r
    ensures Newest(reports) == r.fields && NewestReturn(reports) == map[]
  {
    if |reports| > 1 {
      SameReports(reports[1..], r);
    } else {
      assert reports[1..] == [];
    }
  }

  /** After any number of failures: a packet whose verifier passed goes back to the same coder. */
  lemma PassedVerifierRetriesForever(attemptCount: int, policy: Policy, n: nat)
    requires n > 0
    ensures exists history: seq<PacketRun> ::
      && |history| == n && |Failures(history)| == n
      && DecideFor("rejected", attemptCount, history, policy) == Decision(RetrySameCoder, UnknownRetryable, false)
  {
    RepeatedSignal("rejected", attemptCount, n, PASS, "");
    var history := Repeated(RejectedRun(PASS, ""), n);
    assert |RETURN| == 19 && |REWORK| == 15 && |PASS| == 4;
    assert DecideFor("rejected", attemptCount, history, policy) == Decision(RetrySameCoder, UnknownRetryable, false);
  }

  /** And so does, under a limit above ten, a packet whose reviewer found the coder at fault every time. */
  lemma ReworkRetriesForever(attemptCount: int, policy: Policy, n: nat)
    requires n > 0 && policy.maxTotalCoder > HISTORY_LIMIT
    ensures exists history: seq<PacketRun> ::
      && |history| == n && |Failures(history)| == n && CoderFault(SignalOf("rejected", attemptCount, Window(history)))
      && IsCoderAction(DecideFor("rejected", attemptCount, history, policy).action)
  {
    assert |RETURN| == 19 && |REWORK| == 15 && |PASS| == 4;
    RepeatedSignal("rejected", attemptCount, n, "", REWORK);
    var history := Repeated(RejectedRun("", REWORK), n);
    LimitAboveWindowNeverBinds("rejected", attemptCount, history, policy);
  }

  // ----- Applying a decision

  /** The packet change of each action. */
  function Applied(db: Rows, id: Id, action: Action): Rows {
    match action
    case RetrySameCoder => RecoveryActions.CoderRetried(db, id)
    case SwitchCoder => RecoveryActions.CoderRetried(db, id)
    case ReturnToArchitect => Transitioned(db, id, BlockedFinal)
    case EscalateArchitect => Transitioned(db, id, BlockedFinal)
    case BlockFeature => Transitioned(db, id, BlockedFinal)
    case RetryMerge => Transitioned(db, id, Accepted)
    case RetryVerifier => db
    case RetryReviewer => db
  }

  /** The state an action asks for. */
  function TargetState(action: Action): Option<PacketState> {
    match action
    case RetrySameCoder => Some(Ready)
    case SwitchCoder => Some(Ready)
    case ReturnToArchitect => Some(BlockedFinal)
    case EscalateArchitect => Some(BlockedFinal)
    case BlockFeature => Some(BlockedFinal)
    case RetryMerge => Some(Accepted)
    case RetryVerifier => None
    case RetryReviewer => None
  }

  /** What each action does to the row of its packet. */
  predicate ActionDone(action: Action, was: Packet, now: Packet) {
    match action
    case RetrySameCoder => CoderSent(was, now)
    case SwitchCoder => CoderSent(was, now)
    case ReturnToArchitect => Stopped(was, now)
    case EscalateArchitect => Stopped(was, now)
    case BlockFeature => Stopped(was, now)
    case RetryMerge => now == if was.state == Running then was.(state := Accepted) else was
    case RetryVerifier => now == was
    case RetryReviewer => now == was
  }

  predicate CoderSent(was: Packet, now: Packet) {
    if was.state in {Draft, Rejected, Blocked, BlockedRecoverable} then RecoveryActions.IsRetried(was, now)
    else now == was
  }

  predicate Stopped(was: Packet, now: Packet) {
    now == if was.state in {Running, Rejected, BlockedRecoverable} then was.(state := BlockedFinal) else was
  }

  /**
   * Applies an action. A missing packet is skipped; a packet the table forbids to move is an error, except
   * on a return to the architect, which then keeps the state.
   */
  method ApplyDecision(db: Store, id: Id, action: Action) returns (outcome: Outcome)
    modifies db`packets
    ensures db.Now() == Applied(old(db.Now()), id, action)
    ensures outcome == NotFound <==> id !in old(db.packets)
    ensures outcome == InvalidTransition <==>
      && TargetState(action).Some? && action != ReturnToArchitect && id in old(db.packets)
      && !CanTransition(old(db.packets)[id].state, TargetState(action).value)
    ensures outcome != AttemptsExhausted
    ensures db.packets.Keys == old(db.packets).Keys
    ensures forall p :: p in db.packets && p != id ==> db.packets[p] == old(db.packets)[p]
    ensures id in old(db.packets) ==> ActionDone(action, old(db.packets)[id], db.packets[id])
  {
    outcome := if id in db.packets then Moved else NotFound;
    match action
    case RetrySameCoder => outcome := RecoveryActions.ApplyCoderRetry(db, id);
    case SwitchCoder => outcome := RecoveryActions.ApplyCoderRetry(db, id);
    case ReturnToArchitect => outcome := RecoveryActions.ApplyReturnToArchitect(db, id);
    case EscalateArchitect => outcome := RecoveryActions.ApplyBlockFeature(db, id);
    case BlockFeature => outcome := RecoveryActions.ApplyBlockFeature(db, id);
    case RetryMerge => outcome := RecoveryActions.ApplyRetryMerge(db, id);
    case RetryVerifier =>
    case RetryReviewer =>
  }

  lemma ArchitectActionBlocks(db: Rows, id: Id, action: Action)
    requires IsArchitectAction(action)
    ensures Applied(db, id, action) == Transitioned(db, id, BlockedFinal)
  {
  }

  /**
   * From history to packet row: while a reviewer's return is unresolved, recovery never makes the packet
   * claimable again. It is set to BLOCKED_FINAL or left as it is, and no attempt is granted.
   */
  lemma UnresolvedReturnNeverReruns(db: Rows, id: Id, packetState: string, attemptCount: int, history: seq<PacketRun>,
                                    policy: Policy)
    requires history != [] && HasReturn(Reviews(Window(history))) && id in db.packets
    requires Lookup(Newest(Reviews(Window(history))), "verdict") != PASS
    ensures
      var after := Applied(db, id, DecideFor(packetState, attemptCount, history, policy).action);
      && id in after.packets
      && after.packets[id] ==
           if CanTransition(db.packets[id].state, BlockedFinal) then db.packets[id].(state := BlockedFinal)
           else db.packets[id]
  {
    ReviewerReturnSticks(packetState, attemptCount, history, policy);
    ArchitectActionBlocks(db, id, DecideFor(packetState, attemptCount, history, policy).action);
  }
}
