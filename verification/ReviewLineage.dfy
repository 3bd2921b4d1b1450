/** A later review may name one prior review; what that check replays and what it protects. */
module ReviewLineage {
  import opened Prelude
  import opened Text
  import opened CaptureModel
  import opened Edit
  import opened ReviewCore

  const REVIEW_PREFIX := "review_"
  const DIGEST_HEX_LENGTH := 64

  predicate IsHexDigit(c: char) {
    '0' <= c <= '9' || 'a' <= c <= 'f' || 'A' <= c <= 'F'
  }

  /** `valid_capture_identity(value, "review")`. */
  predicate ValidReviewId(id: string) {
    && REVIEW_PREFIX <= id
    && |id| == |REVIEW_PREFIX| + DIGEST_HEX_LENGTH
    && forall i :: |REVIEW_PREFIX| <= i < |id| ==> IsHexDigit(id[i])
  }

  /** The identity hash renders as a well-formed review identity. */
  ghost predicate RendersReviewIds(env: Env) {
    forall r :: ValidReviewId(env.reviewId(r))
  }

  predicate HasItsCandidate(d: ReviewDecision) {
    match d.outcome
    case Accept | Edit => d.reviewedCandidate.Some?
    case Reject | Defer => d.reviewedCandidate.None?
  }

  predicate RepeatsDecision(ds: seq<ReviewDecision>) {
    exists i, j :: 0 <= i < j < |ds| && ds[i].candidateId == ds[j].candidateId
  }

  /** `validate_review_identity`. */
  predicate ValidReview(env: Env, r: Review) {
    && Trim(r.planId) != "" && Trim(r.reviewedBy) != "" && r.decisions != []
    && (r.priorReviewId.Some? ==> ValidReviewId(r.priorReviewId.value) && r.priorReviewId.value != r.reviewId)
    && env.validTimestamp(Trim(r.reviewedAt))
    && !RepeatsDecision(r.decisions)
    && (forall i :: 0 <= i < |r.decisions| ==>
          ValidReason(env, r.decisions[i].reasonCode) && HasItsCandidate(r.decisions[i]))
    && r == Identified(env, r)
  }

  function AsInputs(ds: seq<ReviewDecision>): (r: seq<DecisionInput>)
    ensures |r| == |ds| && forall i :: 0 <= i < |ds| ==> r[i] == AsInput(ds[i])
  {
    seq(|ds|, i requires 0 <= i < |ds| => AsInput(ds[i]))
  }

  function ReplayInput(plan: Plan, prior: Review): ReviewInput {
    ReviewInput(plan.planId, None, AsInputs(prior.decisions))
  }

  /** `normalized_review_decision_input`. */
  function WithTrimmedReason(d: DecisionInput): DecisionInput {
    d.(reasonCode := TrimReason(d.reasonCode))
  }

  /** Every prior decision that is not deferred must be repeated. */
  function TerminalError(prior: seq<ReviewDecision>, next: map<string, DecisionInput>): Option<ReviewError> {
    if prior == [] then None
    else if prior[0].outcome == Defer then TerminalError(prior[1..], next)
    else if prior[0].candidateId !in next then Some(PriorDecisionOmitted)
    else if WithTrimmedReason(next[prior[0].candidateId]) != WithTrimmedReason(AsInput(prior[0])) then
      Some(TerminalDecisionChanged)
    else TerminalError(prior[1..], next)
  }

  ghost predicate Replayable(env: Env, world: World, plan: Plan, prior: Review) {
    var replay := BuiltCore(env, world, plan, ReplayInput(plan, prior), prior.reviewedBy, prior.reviewedAt);
    replay.Success? && replay.value.decisions == prior.decisions && replay.value.dataClass == prior.dataClass
  }

  /** `validate_prior_review_lineage`. */
  ghost function LineageError(env: Env, world: World, plan: Plan, input: ReviewInput, prior: Option<Review>)
    : Option<ReviewError>
  {
    if input.priorReviewId.Some? && !ValidReviewId(input.priorReviewId.value) then Some(InvalidPriorId)
    else if prior.None? then
      if input.priorReviewId.Some? then Some(MissingPriorReview) else None
    else
      var p := prior.value;
      if !ValidReview(env, p) then Some(InvalidPriorReview)
      else if input.priorReviewId != Some(p.reviewId) then Some(PriorIdMismatch)
      else if p.planId != plan.planId then Some(PriorOfAnotherPlan)
      else if p.priorReviewId.Some? then Some(LineageTooLong)
      else if !Replayable(env, world, plan, p) then Some(PriorNotReplayable)
      else TerminalError(p.decisions, InputMap(input.decisions))
  }

  /** `build_capture_review_inner`. */
  ghost function BuiltReview(
    env: Env, world: World, plan: Plan, input: ReviewInput, prior: Option<Review>, reviewer: string, time: string)
    : Result<Review, ReviewError>
  {
    if plan.status != Ready then Failure(PlanNotReviewable)
    else if input.planId != plan.planId then Failure(InputForAnotherPlan)
    else
      match LineageError(env, world, plan, input, prior)
      case Some(e) => Failure(e)
      case None => BuiltCore(env, world, plan, input, reviewer, time)
  }

  method CheckTerminal(
    prior: seq<ReviewDecision>, next: map<string, DecisionInput>) returns (error: Option<ReviewError>)
    ensures error == TerminalError(prior, next)
  {
    hide WithTrimmedReason, AsInput;
    for i := 0 to |prior|
      invariant TerminalError(prior, next) == TerminalError(prior[i..], next)
    {
      assert prior[i..][0] == prior[i] && prior[i..][1..] == prior[i + 1..];
      if prior[i].outcome == Defer {
        continue;
      }
      if prior[i].candidateId !in next {
        return Some(PriorDecisionOmitted);
      }
      if WithTrimmedReason(next[prior[i].candidateId]) != WithTrimmedReason(AsInput(prior[i])) {
        return Some(TerminalDecisionChanged);
      }
    }
    error := None;
  }

  method BuildCaptureReview(
    env: Env, world: World, plan: Plan, input: ReviewInput, prior: Option<Review>, reviewer: string, time: string)
    returns (r: Result<Review, ReviewError>)
    ensures r == BuiltReview(env, world, plan, input, prior, reviewer, time)
  {
    hide BuiltCore, ValidReview, ReplayInput, InputMap, TerminalError, ValidReviewId;
    if plan.status != Ready {
      return Failure(PlanNotReviewable);
    }
    if input.planId != plan.planId {
      return Failure(InputForAnotherPlan);
    }
    if input.priorReviewId.Some? && !ValidReviewId(input.priorReviewId.value) {
      return Failure(InvalidPriorId);
    }
    if prior.None? {
      if input.priorReviewId.Some? {
        return Failure(MissingPriorReview);
      }
    } else {
      var p := prior.value;
      if !ValidReview(env, p) {
        return Failure(InvalidPriorReview);
      }
      if input.priorReviewId != Some(p.reviewId) {
        return Failure(PriorIdMismatch);
      }
      if p.planId != plan.planId {
        return Failure(PriorOfAnotherPlan);
      }
      if p.priorReviewId.Some? {
        return Failure(LineageTooLong);
      }
      var replay := BuildCore(env, world, plan, ReplayInput(plan, p), p.reviewedBy, p.reviewedAt);
      if replay.Failure? || replay.value.decisions != p.decisions || replay.value.dataClass != p.dataClass {
        return Failure(PriorNotReplayable);
      }
      var changed := CheckTerminal(p.decisions, InputMap(input.decisions));
      if changed.Some? {
        return Failure(changed.value);
      }
    }
    r := BuildCore(env, world, plan, input, reviewer, time);
  }
}
