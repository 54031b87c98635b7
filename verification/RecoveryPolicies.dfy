/** Classification of failures and the recovery ladder. */
module RecoveryPolicies {
  import opened Text

  datatype FailureClass =
    | RetryableCoder | RetryableVerifier | RetryableReviewer | ArchitectRepackNeeded | ArchitectEscalationNeeded
    | MergeRetryable | TrueBlocker | UnknownRetryable

  datatype Action =
    | RetrySameCoder | SwitchCoder | ReturnToArchitect | EscalateArchitect | RetryVerifier | RetryReviewer
    | RetryMerge | BlockFeature

  /** What is known of a failure. Absent texts are empty. */
  datatype Signal = Signal(packetState: string, domainStatus: string, reason: string, mergeError: string,
                           verifierVerdict: string, reviewerVerdict: string, attemptCount: int,
                           coderAttempts: nat, architectRepairs: nat, verifierRejects: nat, reviewerRejects: nat,
                           mergeAttempts: nat)

  datatype Policy = Policy(maxSameCoder: int, maxTotalCoder: int, maxArchitectRepairs: int, maxReviewerRetries: int,
                           maxVerifierRetries: int, maxMergeRetries: int, allowModelSwitch: bool)

  datatype Decision = Decision(action: Action, failureClass: FailureClass, maxAttemptsReached: bool)

  const RETURN := "RETURN_TO_ARCHITECT"
  const REWORK := "REWORK_TO_CODER"
  const PASS := "PASS"

  const BLOCKING_REASONS: seq<string> := [
    "missing cli", "missing api key", "auth failed", "quota exceeded", "permission denied", "repository inaccessible",
    "user decision required", "user approval required", "security required", "billing required", "data-loss approval"]

  predicate MentionsAny(text: string, parts: seq<string>) {
    exists k :: 0 <= k < |parts| && Contains(text, parts[k])
  }

  /** The tests that come before any verdict is looked at. */
  predicate IsBlocker(s: Signal) {
    || Contains(Lower(s.mergeError), "dirty_target_repo")
    || Contains(Lower(s.mergeError), "conflict")
    || MentionsAny(Lower(s.reason), BLOCKING_REASONS)
  }

  /**
   * The tests that remain when no verdict decides. Every sub-case of a rejected or failed packet with a
   * rejected or runner_error domain is retryable by the coder, so the sub-cases are one branch here.
   */
  function ClassifyByState(s: Signal): FailureClass {
    var reason, state := Lower(s.reason), Lower(s.packetState);
    var domain, mergeError := Lower(s.domainStatus), Lower(s.mergeError);
    var failed := state == "rejected" || state == "failed";
    if state == "blocked" then
      if Contains(reason, "scope impossible") || Contains(reason, "cannot be done") then ArchitectRepackNeeded
      else TrueBlocker
    else if mergeError != "" then
      if MentionsAny(mergeError, ["branch", "worktree", "timeout", "connection", "transient"]) then MergeRetryable
      else TrueBlocker
    else if failed && Contains(reason, "scope") then
      if Contains(reason, "impossible") || Contains(reason, "cannot") then ArchitectRepackNeeded else RetryableCoder
    else if Contains(reason, "timed out") || Contains(reason, "timeout") then RetryableCoder
    else if failed && (domain == "rejected" || domain == "runner_error") then RetryableCoder
    else if s.attemptCount <= 1 then UnknownRetryable
    else ArchitectEscalationNeeded
  }

  /** The branch ladder: blockers, then the reviewer, then the verifier, then the state. */
  function Classify(s: Signal): FailureClass {
    if IsBlocker(s) then TrueBlocker
    else if s.reviewerVerdict == RETURN then ArchitectRepackNeeded
    else if s.reviewerVerdict == REWORK then RetryableCoder
    else if s.reviewerVerdict != "" && s.reviewerVerdict != PASS then RetryableReviewer
    else if s.verifierVerdict == RETURN then ArchitectRepackNeeded
    else if s.verifierVerdict == REWORK then RetryableCoder
    else if s.verifierVerdict == PASS then UnknownRetryable
    else if s.verifierVerdict != "" then RetryableVerifier
    else if s.reviewerVerdict == PASS then UnknownRetryable
    else ClassifyByState(s)
  }

  const ESCALATION := Decision(EscalateArchitect, ArchitectEscalationNeeded, true)

  function Decide(s: Signal, policy: Policy): Decision {
    var fc := Classify(s);
    match fc
    case TrueBlocker => Decision(BlockFeature, fc, true)
    case ArchitectEscalationNeeded => Decision(EscalateArchitect, fc, false)
    case ArchitectRepackNeeded =>
      if s.architectRepairs >= policy.maxArchitectRepairs then ESCALATION
      else Decision(ReturnToArchitect, fc, false)
    case RetryableCoder =>
      if s.coderAttempts >= policy.maxTotalCoder then Decision(ReturnToArchitect, ArchitectRepackNeeded, true)
      else if s.coderAttempts >= policy.maxSameCoder && policy.allowModelSwitch then Decision(SwitchCoder, fc, false)
      else Decision(RetrySameCoder, fc, false)
    case RetryableVerifier =>
      if s.verifierRejects >= policy.maxVerifierRetries then ESCALATION
      else Decision(RetryVerifier, fc, false)
    case RetryableReviewer =>
      if s.reviewerRejects >= policy.maxReviewerRetries then ESCALATION
      else Decision(RetryReviewer, fc, false)
    case MergeRetryable =>
      if s.mergeAttempts >= policy.maxMergeRetries then Decision(BlockFeature, TrueBlocker, true)
      else Decision(RetryMerge, fc, false)
    case UnknownRetryable => Decision(RetrySameCoder, fc, false)
  }

  predicate IsCoderAction(a: Action) {
    a == RetrySameCoder || a == SwitchCoder
  }

  predicate IsArchitectAction(a: Action) {
    a == ReturnToArchitect || a == EscalateArchitect || a == BlockFeature
  }

  // ----- When a coder is sent again, read off the fields of the signal

  predicate IsOneOf(text: string, options: seq<string>) {
    exists k :: 0 <= k < |options| && text == options[k]
  }

  /** The packet was rejected or failed with the given kind of domain status. */
  predicate Failed(s: Signal) {
    IsOneOf(Lower(s.packetState), ["rejected", "failed"])
  }

  /** The reason gives a fault the coder can mend: a scope slip, a timeout, or a plain rejection. */
  predicate CoderCause(s: Signal) {
    var reason := Lower(s.reason);
    && Lower(s.packetState) != "blocked" && s.mergeError == ""
    && (if Failed(s) && Contains(reason, "scope") then !MentionsAny(reason, ["impossible", "cannot"])
        else
          || MentionsAny(reason, ["timed out", "timeout"])
          || (Failed(s) && IsOneOf(Lower(s.domainStatus), ["rejected", "runner_error"])))
  }

  /** Nothing explains the failure of a first attempt. */
  predicate Unexplained(s: Signal) {
    && Lower(s.packetState) != "blocked" && s.mergeError == "" && s.attemptCount <= 1
    && !MentionsAny(Lower(s.reason), ["timed out", "timeout"])
    && (Failed(s) ==>
          !Contains(Lower(s.reason), "scope") && !IsOneOf(Lower(s.domainStatus), ["rejected", "runner_error"]))
  }

  /** The coder is at fault: by the reviewer, else by the verifier, else by the reason. */
  predicate CoderFault(s: Signal) {
    && !IsBlocker(s)
    && (|| s.reviewerVerdict == REWORK
        || (ReviewerSilent(s) && s.verifierVerdict == REWORK)
        || (NoVerdict(s) && CoderCause(s)))
  }

  /** The failure is retried whatever the number of attempts: every gate passed, or nothing explains it. */
  predicate RetriedWithoutLimit(s: Signal) {
    && !IsBlocker(s)
    && ReviewerSilent(s)
    && (|| s.verifierVerdict == PASS
        || (s.verifierVerdict == "" && (s.reviewerVerdict == PASS || Unexplained(s))))
  }

  predicate NoVerdict(s: Signal) {
    s.reviewerVerdict == "" && s.verifierVerdict == ""
  }

  /** The reviewer did not object. */
  predicate ReviewerSilent(s: Signal) {
    s.reviewerVerdict == "" || s.reviewerVerdict == PASS
  }

  predicate IsUnusual(verdict: string) {
    verdict != "" && verdict != PASS && verdict != RETURN && verdict != REWORK
  }

  predicate IsTransient(mergeError: string) {
    MentionsAny(Lower(mergeError), ["branch", "worktree", "timeout", "connection", "transient"])
  }

  /** The packet has to be packed anew: by the reviewer, else by the verifier, else by the reason. */
  predicate RepackCause(s: Signal) {
    var reason := Lower(s.reason);
    && !IsBlocker(s)
    && (|| s.reviewerVerdict == RETURN
        || (ReviewerSilent(s) && s.verifierVerdict == RETURN)
        || (NoVerdict(s) && Lower(s.packetState) == "blocked"
            && MentionsAny(reason, ["scope impossible", "cannot be done"]))
        || (NoVerdict(s) && Failed(s) && s.mergeError == "" && Contains(reason, "scope")
            && MentionsAny(reason, ["impossible", "cannot"])))
  }

  /** Without a verdict: a blocked packet, or a merge error that will not go away, unless it has to be packed anew. */
  predicate StateBlocks(s: Signal) {
    && NoVerdict(s)
    && if Lower(s.packetState) == "blocked" then !MentionsAny(Lower(s.reason), ["scope impossible", "cannot be done"])
       else s.mergeError != "" && !IsTransient(s.mergeError)
  }

  predicate MergeCause(s: Signal) {
    && !IsBlocker(s) && NoVerdict(s)
    && Lower(s.packetState) != "blocked" && s.mergeError != "" && IsTransient(s.mergeError)
  }

  predicate ReviewerCause(s: Signal) {
    !IsBlocker(s) && IsUnusual(s.reviewerVerdict)
  }

  predicate VerifierCause(s: Signal) {
    !IsBlocker(s) && ReviewerSilent(s) && IsUnusual(s.verifierVerdict)
  }

  /** Nothing explains the failure of a later attempt. */
  predicate UnexplainedAgain(s: Signal) {
    !IsBlocker(s) && NoVerdict(s) && s.attemptCount > 1 && Unexplained(s.(attemptCount := 1))
  }

  lemma MentionsEither(text: string, a: string, b: string)
    ensures MentionsAny(text, [a, b]) <==> Contains(text, a) || Contains(text, b)
  {
    assert [a, b][0] == a && [a, b][1] == b;
  }

  lemma IsEither(text: string, a: string, b: string)
    ensures IsOneOf(text, [a, b]) <==> text == a || text == b
  {
    assert [a, b][0] == a && [a, b][1] == b;
  }

  lemma CausesByState(s: Signal)
    ensures ClassifyByState(s) == RetryableCoder <==> CoderCause(s)
    ensures ClassifyByState(s) == UnknownRetryable <==> Unexplained(s)
  {
    assert |Lower(s.mergeError)| == |s.mergeError|;
    IsEither(Lower(s.packetState), "rejected", "failed");
    IsEither(Lower(s.domainStatus), "rejected", "runner_error");
    MentionsEither(Lower(s.reason), "timed out", "timeout");
    MentionsEither(Lower(s.reason), "impossible", "cannot");
  }

  lemma OtherCausesByState(s: Signal)
    requires NoVerdict(s) && !IsBlocker(s)
    ensures ClassifyByState(s) == ArchitectRepackNeeded <==> RepackCause(s)
    ensures ClassifyByState(s) == TrueBlocker <==> StateBlocks(s)
    ensures ClassifyByState(s) == MergeRetryable <==> MergeCause(s)
    ensures ClassifyByState(s) == ArchitectEscalationNeeded <==> UnexplainedAgain(s)
    ensures ClassifyByState(s) !in {RetryableVerifier, RetryableReviewer}
  {
    IsEither(Lower(s.packetState), "rejected", "failed");
    IsEither(Lower(s.domainStatus), "rejected", "runner_error");
    MentionsEither(Lower(s.reason), "timed out", "timeout");
    MentionsEither(Lower(s.reason), "impossible", "cannot");
    MentionsEither(Lower(s.reason), "scope impossible", "cannot be done");
  }

  lemma VerdictsDiffer()
    ensures RETURN != REWORK && REWORK != PASS && RETURN != PASS && RETURN != "" && REWORK != "" && PASS != ""
  {
    assert |RETURN| == 19 && |REWORK| == 15 && |PASS| == 4;
  }

  /** Every class of failure, read off the fields. */
  lemma ClassExact(s: Signal)
    ensures Classify(s) == TrueBlocker <==> IsBlocker(s) || StateBlocks(s)
    ensures Classify(s) == ArchitectRepackNeeded <==> RepackCause(s)
    ensures Classify(s) == RetryableCoder <==> CoderFault(s)
    ensures Classify(s) == RetryableReviewer <==> ReviewerCause(s)
    ensures Classify(s) == RetryableVerifier <==> VerifierCause(s)
    ensures Classify(s) == MergeRetryable <==> MergeCause(s)
    ensures Classify(s) == UnknownRetryable <==> RetriedWithoutLimit(s)
    ensures Classify(s) == ArchitectEscalationNeeded <==> UnexplainedAgain(s)
  {
    VerdictsDiffer();
    CausesByState(s);
    if NoVerdict(s) && !IsBlocker(s) {
      OtherCausesByState(s);
    }
  }

  /** The whole decision, read off the fields: exactly when each action is chosen. */
  lemma ActionTable(s: Signal, policy: Policy)
    ensures
      var action := Decide(s, policy).action;
      && (action == BlockFeature <==>
            IsBlocker(s) || StateBlocks(s) || (MergeCause(s) && s.mergeAttempts >= policy.maxMergeRetries))
      && (action == RetryMerge <==> MergeCause(s) && s.mergeAttempts < policy.maxMergeRetries)
      && (action == RetryReviewer <==> ReviewerCause(s) && s.reviewerRejects < policy.maxReviewerRetries)
      && (action == RetryVerifier <==> VerifierCause(s) && s.verifierRejects < policy.maxVerifierRetries)
      && (action == SwitchCoder <==>
            CoderFault(s) && policy.maxSameCoder <= s.coderAttempts < policy.maxTotalCoder && policy.allowModelSwitch)
      && (action == RetrySameCoder <==>
            || RetriedWithoutLimit(s)
            || (CoderFault(s) && s.coderAttempts < policy.maxTotalCoder
                && (s.coderAttempts < policy.maxSameCoder || !policy.allowModelSwitch)))
      && (action == ReturnToArchitect <==>
            || (RepackCause(s) && s.architectRepairs < policy.maxArchitectRepairs)
            || (CoderFault(s) && s.coderAttempts >= policy.maxTotalCoder))
      && (action == EscalateArchitect <==>
            || UnexplainedAgain(s)
            || (RepackCause(s) && s.architectRepairs >= policy.maxArchitectRepairs)
            || (ReviewerCause(s) && s.reviewerRejects >= policy.maxReviewerRetries)
            || (VerifierCause(s) && s.verifierRejects >= policy.maxVerifierRetries))
  {
    ClassExact(s);
  }

  /** The flag for spent attempts is set exactly when a limit turned the decision, or the failure is a blocker. */
  lemma SpentExact(s: Signal, policy: Policy)
    ensures
      var d := Decide(s, policy);
      && (d.maxAttemptsReached <==>
            || d.action == BlockFeature
            || (d.action == ReturnToArchitect && CoderFault(s))
            || (d.action == EscalateArchitect && !UnexplainedAgain(s)))
      && (d.action == BlockFeature <==> d.failureClass == TrueBlocker)
      && (d.action == ReturnToArchitect <==> d.failureClass == ArchitectRepackNeeded)
      && (d.action == EscalateArchitect <==> d.failureClass == ArchitectEscalationNeeded)
      && (d.failureClass == UnknownRetryable <==> RetriedWithoutLimit(s))
  {
    ClassExact(s);
  }

  /** A merge error with a conflict, or a reason that asks for something only a person can give, is a blocker. */
  lemma BlockerPhrases(s: Signal)
    ensures IsBlocker(s) <==>
      || (exists word :: word in {"dirty_target_repo", "conflict"} && Contains(Lower(s.mergeError), word))
      || (exists phrase :: phrase in {
            "missing cli", "missing api key", "auth failed", "quota exceeded", "permission denied",
            "repository inaccessible", "user decision required", "user approval required", "security required",
            "billing required", "data-loss approval"} && Contains(Lower(s.reason), phrase))
  {
    if phrase :| phrase in BLOCKING_REASONS && Contains(Lower(s.reason), phrase) {
      var k :| 0 <= k < |BLOCKING_REASONS| && BLOCKING_REASONS[k] == phrase;
    }
    if MentionsAny(Lower(s.reason), BLOCKING_REASONS) {
      var k :| 0 <= k < |BLOCKING_REASONS| && Contains(Lower(s.reason), BLOCKING_REASONS[k]);
      assert BLOCKING_REASONS[k] in BLOCKING_REASONS;
    }
  }

  /** A coder is sent again exactly for a fault of the coder within the limit, or for a failure without limit. */
  lemma CoderActionExact(s: Signal, policy: Policy)
    ensures IsCoderAction(Decide(s, policy).action) <==>
      RetriedWithoutLimit(s) || (CoderFault(s) && s.coderAttempts < policy.maxTotalCoder)
  {
    ActionTable(s, policy);
  }

  lemma SilentIsNoBlocker(s: Signal)
    requires s.reason == "" && s.mergeError == ""
    ensures !IsBlocker(s)
  {
    assert Lower("") == "";
    EmptyContainsNothing();
  }

  lemma EmptyContainsNothing()
    ensures forall part: string :: part != "" ==> !Contains("", part)
    ensures !MentionsAny("", BLOCKING_REASONS)
  {
    forall k | 0 <= k < |BLOCKING_REASONS| ensures BLOCKING_REASONS[k] != "" {
    }
  }

  function Rank(a: Action): nat {
    match a
    case RetrySameCoder => 0
    case SwitchCoder => 1
    case _ => 2
  }

  /** More failed coder attempts never lead back down the coder ladder. */
  lemma CoderLadderMonotone(s: Signal, more: nat, policy: Policy)
    requires more >= s.coderAttempts && Classify(s) == RetryableCoder
    ensures Rank(Decide(s, policy).action) <= Rank(Decide(s.(coderAttempts := more), policy).action)
  {
    var t := s.(coderAttempts := more);
    assert IsBlocker(t) == IsBlocker(s);
    assert ClassifyByState(t) == ClassifyByState(s);
  }
}
