/** Exactly when a review is built. */
module ReviewLiveness {
  import opened Prelude
  import opened Text
  import opened CaptureModel
  import opened Normalize
  import opened Classify
  import opened Edit
  import opened ReviewCore
  import opened ReviewLineage
  import opened ReviewTheorems

  // ------------------------------------------------------------- what a review needs

  ghost predicate CandidateIdsDistinct(cs: seq<Candidate>) {
    forall i, j :: 0 <= i < j < |cs| ==> cs[i].candidateId != cs[j].candidateId
  }

  ghost predicate AllDecidable(env: Env, inv: Inventory, inputs: map<string, DecisionInput>, cs: seq<Candidate>) {
    forall i :: 0 <= i < |cs| ==>
      cs[i].candidateId in inputs && Decidable(env, inv, cs[i], inputs[cs[i].candidateId])
  }

  /** The memory a decision selects, known before it is made. */
  function Foreseen(c: Candidate, d: DecisionInput): seq<Memory> {
    match d.outcome
    case Accept => [c.memory]
    case Edit => if d.memory.Some? then [CanonicalMemory(d.memory.value)] else []
    case Reject | Defer => []
  }

  function ForeseenMemories(inputs: map<string, DecisionInput>, cs: seq<Candidate>): seq<Memory> {
    if cs == [] then []
    else
      var n := |cs| - 1;
      ForeseenMemories(inputs, cs[..n])
      + (if cs[n].candidateId in inputs then Foreseen(cs[n], inputs[cs[n].candidateId]) else [])
  }

  lemma LastIdDiffers(cs: seq<Candidate>)
    requires cs != []
    ensures var n := |cs| - 1;
            CandidateIdsDistinct(cs) <==> CandidateIdsDistinct(cs[..n]) && cs[n].candidateId !in IdsOf(cs[..n])
  {
    var n := |cs| - 1;
    assert forall i :: 0 <= i < n ==> cs[..n][i] == cs[i] && cs[i] in cs[..n];
  }

  lemma {:induction false} DecidedAllIff(
    env: Env, inv: Inventory, base: set<string>, inputs: map<string, DecisionInput>, cs: seq<Candidate>)
    ensures DecidedAll(env, inv, base, inputs, cs).Success?
            <==> CandidateIdsDistinct(cs) && AllDecidable(env, inv, inputs, cs)
  {
    hide Decided, Decidable, SelectedIds;
    if cs != [] {
      var n := |cs| - 1;
      DecidedAllIff(env, inv, base, inputs, cs[..n]);
      assert forall i :: 0 <= i < n ==> cs[..n][i] == cs[i];
      assert CandidateIdsDistinct(cs) <==> CandidateIdsDistinct(cs[..n]) && cs[n].candidateId !in IdsOf(cs[..n]) by {
        LastIdDiffers(cs);
      }
      if DecidedAll(env, inv, base, inputs, cs[..n]).Success? && cs[n].candidateId in inputs {
        var done := DecidedAll(env, inv, base, inputs, cs[..n]).value;
        DecidableIff(env, inv, base + SelectedIds(done), cs[n], inputs[cs[n].candidateId]);
      }
    }
  }

  lemma SelectsForeseen(env: Env, inv: Inventory, used: set<string>, c: Candidate, d: DecisionInput)
    requires Decided(env, inv, used, c, d).Success?
    ensures var r := Decided(env, inv, used, c, d).value;
            (if r.reviewedCandidate.Some? then [r.reviewedCandidate.value.memory] else []) == Foreseen(c, d)
  {
    hide Rebuilt, ValidReason, CanonicalMemory, DraftError;
    if d.outcome == Edit {
      EditMeaning(env, inv, used, c, d.memory.value, RequestedDestination(c, d), d.contentClass);
    }
  }

  lemma {:induction false} SelectedAreForeseen(
    env: Env, inv: Inventory, base: set<string>, inputs: map<string, DecisionInput>, cs: seq<Candidate>)
    requires DecidedAll(env, inv, base, inputs, cs).Success?
    ensures SelectedMemories(DecidedAll(env, inv, base, inputs, cs).value) == ForeseenMemories(inputs, cs)
  {
    hide Decided, DecidedAll, SelectedIds, Foreseen;
    if cs != [] {
      var n := |cs| - 1;
      DecidedAt(env, inv, base, inputs, cs, n);
      SelectedAreForeseen(env, inv, base, inputs, cs[..n]);
      var ds := DecidedAll(env, inv, base, inputs, cs).value;
      SelectsForeseen(env, inv, base + SelectedIds(ds[..n]), cs[n], inputs[cs[n].candidateId]);
    } else {
      NothingDecided(env, inv, base, inputs);
    }
  }

  /** What the decisions need, told from the plan, the inventory and the inputs alone. */
  ghost predicate CoreBuildable(env: Env, world: World, plan: Plan, inputs: map<string, DecisionInput>) {
    && ReservationsHold(world.inventory.reservedIds, AcceptedIds(inputs, plan.candidates))
    && CandidateIdsDistinct(plan.candidates)
    && AllDecidable(env, world.inventory, inputs, plan.candidates)
    && SubjectsDistinct(env, ForeseenMemories(inputs, plan.candidates))
  }

  lemma CoreBuiltIff(env: Env, world: World, plan: Plan, inputs: map<string, DecisionInput>)
    ensures CoreDecisions(env, world, plan, inputs).Success? <==> CoreBuildable(env, world, plan, inputs)
  {
    hide DecidedAll, AcceptedIds, SelectedMemories, ForeseenMemories, CandidateIdsDistinct, AllDecidable,
      SubjectsDistinct, SelectedError, ReservationsHold;
    var inv, cs := world.inventory, plan.candidates;
    var base := BaseIds(inv, inputs, cs);
    DecidedAllIff(env, inv, base, inputs, cs);
    if DecidedAll(env, inv, base, inputs, cs).Success? {
      SelectedAreForeseen(env, inv, base, inputs, cs);
      SelectedErrorMeaning(env, ForeseenMemories(inputs, cs));
    }
  }

  /** A review is built if and only if its input passes the checks on actor, time, plan and numbers, the
      accepted ids are still free, every candidate can be decided as asked, and no two selected memories
      share a subject. */
  lemma ReviewBuiltIff(env: Env, world: World, plan: Plan, input: ReviewInput, reviewer: string, time: string)
    ensures BuiltCore(env, world, plan, input, reviewer, time).Success? <==>
            && InputError(env, world, plan, input, reviewer, time).None?
            && CoreBuildable(env, world, plan, InputMap(input.decisions))
  {
    hide CoreDecisions, CoreBuildable, InputError, InputMap, ReviewOf;
    CoreBuiltIff(env, world, plan, InputMap(input.decisions));
  }

  /** The later inputs repeat every prior decision that was not deferred, up to blanks around the reason. */
  ghost predicate TerminalsRepeated(prior: seq<ReviewDecision>, next: map<string, DecisionInput>) {
    forall i :: 0 <= i < |prior| && prior[i].outcome != Defer ==>
      && prior[i].candidateId in next
      && WithTrimmedReason(next[prior[i].candidateId]) == WithTrimmedReason(AsInput(prior[i]))
  }

  /** A later review naming a first one is built if and only if the plan has a candidate, the terminal
      decisions are repeated, and the review would be built on its own. */
  lemma LaterReviewBuiltIff(
    env: Env, world: World, plan: Plan, first: ReviewInput, reviewer: string, time: string, later: ReviewInput,
    laterReviewer: string, laterTime: string)
    requires RendersReviewIds(env) && Trim(plan.planId) != ""
    requires BuiltReview(env, world, plan, first, None, reviewer, time).Success?
    requires later.priorReviewId == Some(BuiltReview(env, world, plan, first, None, reviewer, time).value.reviewId)
    ensures var prior := BuiltReview(env, world, plan, first, None, reviewer, time).value;
            BuiltReview(env, world, plan, later, Some(prior), laterReviewer, laterTime).Success? <==>
            && later.planId == plan.planId && plan.candidates != []
            && TerminalsRepeated(prior.decisions, InputMap(later.decisions))
            && InputError(env, world, plan, later, laterReviewer, laterTime).None?
            && CoreBuildable(env, world, plan, InputMap(later.decisions))
  {
    hide BuiltCore, CoreBuildable, InputError, InputMap, LineageError, TerminalError, Trim, AsInput,
      WithTrimmedReason, RendersReviewIds;
    var prior := BuiltReview(env, world, plan, first, None, reviewer, time).value;
    FirstReviewIsAValidPrior(env, world, plan, first, reviewer, time, later);
    TerminalErrorMeaning(prior.decisions, InputMap(later.decisions));
    ReviewBuiltIff(env, world, plan, later, laterReviewer, laterTime);
  }

  // ------------------------------------------------------------- accepting what a plan offers

  /** Decisions that edit nothing and accept only what can be accepted: routeable candidates and replays. */
  ghost predicate AcceptsAcceptable(env: Env, inputs: map<string, DecisionInput>, cs: seq<Candidate>) {
    forall i :: 0 <= i < |cs| ==>
      && cs[i].candidateId in inputs
      && var d := inputs[cs[i].candidateId];
         && ValidReason(env, TrimReason(d.reasonCode)) && !HasEdits(d) && d.outcome != Edit
         && (d.outcome == Accept ==> cs[i].action.Routeable() || cs[i].action.Replay?)
  }

  predicate Accepted(inputs: map<string, DecisionInput>, c: Candidate) {
    c.candidateId in inputs && inputs[c.candidateId].outcome == Accept
  }

  ghost predicate AcceptsNoReplay(inputs: map<string, DecisionInput>, cs: seq<Candidate>) {
    forall i :: 0 <= i < |cs| && Accepted(inputs, cs[i]) ==> !cs[i].action.Replay?
  }

  ghost predicate AcceptedSubjectsDistinct(env: Env, inputs: map<string, DecisionInput>, cs: seq<Candidate>) {
    forall i, j :: 0 <= i < j < |cs| && Accepted(inputs, cs[i]) && Accepted(inputs, cs[j]) ==>
      ConflictKeyOf(env, cs[i].memory) != ConflictKeyOf(env, cs[j].memory)
  }

  lemma {:induction false} AcceptedIdsOfPlan(
    inputs: map<string, DecisionInput>, cs: seq<Candidate>, k: nat) returns (i: nat)
    requires k < |AcceptedIds(inputs, cs)|
    ensures i < |cs| && AcceptsProposal(inputs, cs[i]) && cs[i].action.proposalId == AcceptedIds(inputs, cs)[k]
    ensures k == |AcceptedIds(inputs, cs[..i])|
  {
    var n := |cs| - 1;
    if k < |AcceptedIds(inputs, cs[..n])| {
      i := AcceptedIdsOfPlan(inputs, cs[..n], k);
      assert cs[..n][..i] == cs[..i];
    } else {
      i := n;
    }
  }

  lemma {:induction false} AcceptedCountGrows(inputs: map<string, DecisionInput>, cs: seq<Candidate>, i: nat, j: nat)
    requires i <= j <= |cs|
    ensures |AcceptedIds(inputs, cs[..i])| <= |AcceptedIds(inputs, cs[..j])|
  {
    assert cs[..j][..i] == cs[..i];
    AcceptedIdsPrefix(inputs, cs[..j], i);
  }

  /** The stale-reservation check cannot trip on the plan's own classification. */
  lemma PlanReservationsHold(env: Env, inv: Inventory, inputs: map<string, DecisionInput>, extracted: seq<Candidate>)
    ensures ReservationsHold(inv.reservedIds, AcceptedIds(inputs, ClassifiedAll(env, inv, extracted)))
  {
    hide ClassifiedAll, AcceptedIds;
    var cs := ClassifiedAll(env, inv, extracted);
    var ids := AcceptedIds(inputs, cs);
    forall k | 0 <= k < |ids|
      ensures ids[k] !in inv.reservedIds
    {
      var i := AcceptedIdsOfPlan(inputs, cs, k);
      ProposalIdsAreFresh(env, inv, extracted, i);
    }
    forall k, l | 0 <= k < l < |ids|
      ensures ids[k] != ids[l]
    {
      var i := AcceptedIdsOfPlan(inputs, cs, k);
      var j := AcceptedIdsOfPlan(inputs, cs, l);
      if j <= i {
        AcceptedCountGrows(inputs, cs, j, i);
      }
      ProposalIdsAreFresh(env, inv, extracted, j);
    }
  }

  ghost predicate EditsNothing(inputs: map<string, DecisionInput>, cs: seq<Candidate>) {
    forall i :: 0 <= i < |cs| && cs[i].candidateId in inputs ==> inputs[cs[i].candidateId].outcome != Edit
  }

  lemma {:induction false} ForeseenAreAccepted(inputs: map<string, DecisionInput>, cs: seq<Candidate>)
    requires EditsNothing(inputs, cs)
    ensures forall m :: m in ForeseenMemories(inputs, cs) <==>
      exists i :: 0 <= i < |cs| && Accepted(inputs, cs[i]) && m == cs[i].memory
  {
    if cs != [] {
      var n := |cs| - 1;
      assert forall i :: 0 <= i < n ==> cs[..n][i] == cs[i];
      ForeseenAreAccepted(inputs, cs[..n]);
    }
  }

  lemma OneMoreSubject(env: Env, ms: seq<Memory>, m: Memory)
    ensures SubjectsDistinct(env, ms + [m]) <==>
            SubjectsDistinct(env, ms) && forall x :: x in ms ==> ConflictKeyOf(env, x) != ConflictKeyOf(env, m)
  {
    hide ConflictKeyOf;
    var all := ms + [m];
    if SubjectsDistinct(env, all) {
      assert forall i :: 0 <= i < |ms| ==> ms[i] == all[i];
      assert all[|ms|] == m;
    }
  }

  lemma {:induction false} ForeseenDistinct(env: Env, inputs: map<string, DecisionInput>, cs: seq<Candidate>)
    requires EditsNothing(inputs, cs)
    ensures SubjectsDistinct(env, ForeseenMemories(inputs, cs)) <==> AcceptedSubjectsDistinct(env, inputs, cs)
  {
    hide ConflictKeyOf, CanonicalMemory;
    if cs != [] {
      var n := |cs| - 1;
      assert forall i :: 0 <= i < n ==> cs[..n][i] == cs[i];
      ForeseenDistinct(env, inputs, cs[..n]);
      ForeseenAreAccepted(inputs, cs[..n]);
      var before := ForeseenMemories(inputs, cs[..n]);
      if Accepted(inputs, cs[n]) {
        OneMoreSubject(env, before, cs[n].memory);
        assert ForeseenMemories(inputs, cs) == before + [cs[n].memory];
      } else {
        assert ForeseenMemories(inputs, cs) == before + [];
        assert before + [] == before;
      }
    }
  }

  /** Accepting what a plan offers, on the inventory it was classified against, is a review if and only if
      no two accepted candidates share a subject; neither a stale reservation nor anything else stands in
      the way. */
  lemma AcceptingIff(
    env: Env, world: World, plan: Plan, extracted: seq<Candidate>, input: ReviewInput, reviewer: string, time: string)
    requires plan.candidates == ClassifiedAll(env, world.inventory, extracted)
    requires CandidateIdsDistinct(plan.candidates)
    requires InputError(env, world, plan, input, reviewer, time).None?
    requires AcceptsAcceptable(env, InputMap(input.decisions), plan.candidates)
    ensures BuiltCore(env, world, plan, input, reviewer, time).Success?
            <==> AcceptedSubjectsDistinct(env, InputMap(input.decisions), plan.candidates)
  {
    hide BuiltCore, ClassifiedAll, AcceptedIds, InputError, InputMap, ReservationsHold, SubjectsDistinct,
      ForeseenMemories, AcceptedSubjectsDistinct, CandidateIdsDistinct, ConflictKeyOf, EditGranted, ValidReason,
      TrimReason;
    var inputs := InputMap(input.decisions);
    PlanReservationsHold(env, world.inventory, inputs, extracted);
    ForeseenDistinct(env, inputs, plan.candidates);
    ReviewBuiltIff(env, world, plan, input, reviewer, time);
  }

  /** Routeable candidates of one classification never share a subject. */
  lemma RouteableSubjectsDistinct(
    env: Env, inv: Inventory, extracted: seq<Candidate>, inputs: map<string, DecisionInput>)
    requires var cs := ClassifiedAll(env, inv, extracted);
             AcceptsAcceptable(env, inputs, cs) && AcceptsNoReplay(inputs, cs)
    ensures AcceptedSubjectsDistinct(env, inputs, ClassifiedAll(env, inv, extracted))
  {
    hide ClassifiedAll, ConflictKeyOf, ValidReason, TrimReason, SameSubject, ClassifiedNext;
    var cs := ClassifiedAll(env, inv, extracted);
    forall i, j | 0 <= i < j < |cs| && Accepted(inputs, cs[i]) && Accepted(inputs, cs[j])
      ensures ConflictKeyOf(env, cs[i].memory) != ConflictKeyOf(env, cs[j].memory)
    {
      ClassifiedAt(env, inv, extracted, j);
      ReplayStays(env, inv, cs[..j], extracted[j]);
      RouteableIsFirstOfItsSubject(env, inv, extracted, j);
    }
  }

  /** Accepting any routeable candidates of a plan always yields a review. */
  lemma AcceptingRouteableSucceeds(
    env: Env, world: World, plan: Plan, extracted: seq<Candidate>, input: ReviewInput, reviewer: string, time: string)
    requires plan.candidates == ClassifiedAll(env, world.inventory, extracted)
    requires CandidateIdsDistinct(plan.candidates)
    requires InputError(env, world, plan, input, reviewer, time).None?
    requires AcceptsAcceptable(env, InputMap(input.decisions), plan.candidates)
    requires AcceptsNoReplay(InputMap(input.decisions), plan.candidates)
    ensures BuiltCore(env, world, plan, input, reviewer, time).Success?
  {
    hide BuiltCore, ClassifiedAll, InputError, InputMap, AcceptedSubjectsDistinct, CandidateIdsDistinct,
      AcceptsAcceptable, AcceptsNoReplay;
    AcceptingIff(env, world, plan, extracted, input, reviewer, time);
    RouteableSubjectsDistinct(env, world.inventory, extracted, InputMap(input.decisions));
  }

  function Deferrals(cs: seq<Candidate>): (r: seq<DecisionInput>)
    ensures |r| == |cs|
    ensures forall i :: 0 <= i < |cs| ==> r[i] == DecisionInput(cs[i].candidateId, Defer, None, None, None, None)
  {
    seq(|cs|, i requires 0 <= i < |cs| => DecisionInput(cs[i].candidateId, Defer, None, None, None, None))
  }

  lemma {:induction false} DeferralsSelectNothing(inputs: map<string, DecisionInput>, cs: seq<Candidate>)
    requires forall i :: 0 <= i < |cs| && cs[i].candidateId in inputs ==> inputs[cs[i].candidateId].outcome == Defer
    ensures ForeseenMemories(inputs, cs) == [] && AcceptedIds(inputs, cs) == []
  {
    if cs != [] {
      var n := |cs| - 1;
      assert forall i :: 0 <= i < n ==> cs[..n][i] == cs[i];
      DeferralsSelectNothing(inputs, cs[..n]);
    }
  }

  /** Every live plan with distinct candidate ids, whatever its candidates became, can be reviewed. */
  lemma DeferringEverythingSucceeds(env: Env, world: World, plan: Plan, reviewer: string, time: string)
    requires CandidateIdsDistinct(plan.candidates) && world.planIsLive
    requires ValidActor(env, Trim(reviewer)) && env.validTimestamp(Trim(time))
    ensures var input := ReviewInput(plan.planId, None, Deferrals(plan.candidates));
            BuiltCore(env, world, plan, input, reviewer, time).Success?
  {
    hide BuiltCore, AcceptedIds, ForeseenMemories, InputMap, ValidActor, Trim;
    var input := ReviewInput(plan.planId, None, Deferrals(plan.candidates));
    var cs, ds := plan.candidates, input.decisions;
    var inputs := InputMap(ds);
    forall i | 0 <= i < |cs|
      ensures cs[i].candidateId in inputs && inputs[cs[i].candidateId] == ds[i]
    {
      InputMapLookup(ds, i);
    }
    DeferralsSelectNothing(inputs, cs);
    ReviewBuiltIff(env, world, plan, input, reviewer, time);
  }
}
