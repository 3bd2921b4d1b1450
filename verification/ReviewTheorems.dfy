/** What holds of every built capture review. */
module ReviewTheorems {
  import opened Prelude
  import opened Text
  import opened CaptureModel
  import opened ProposalIds
  import opened Normalize
  import opened Classify
  import opened Edit
  import opened ReviewCore
  import opened ReviewLineage
  import opened Sorting

  // ------------------------------------------------------------- shape of the decisions

  /** What a successful decision says and what it demanded of the candidate. */
  lemma DecidedFields(env: Env, inv: Inventory, used: set<string>, c: Candidate, d: DecisionInput)
    requires Decided(env, inv, used, c, d).Success?
    ensures var r := Decided(env, inv, used, c, d).value;
            && r.candidateId == c.candidateId && r.outcome == d.outcome && r.reasonCode == TrimReason(d.reasonCode)
            && ValidReason(env, r.reasonCode) && HasItsCandidate(r)
            && (r.outcome == Accept ==> r.reviewedCandidate == Some(c) && (c.action.Replay? || c.action.Routeable()))
            && (r.outcome == Edit ==> !c.action.Duplicate? && !c.action.Conflict?)
            && (r.outcome != Edit ==> !HasEdits(d))
  {
    hide Rebuilt, ValidReason;
  }

  /** One decision per candidate, in plan order, with the requested outcome and the trimmed reason. */
  lemma DecisionShape(
    env: Env, inv: Inventory, base: set<string>, inputs: map<string, DecisionInput>, cs: seq<Candidate>, i: nat)
    requires i < |cs| && DecidedAll(env, inv, base, inputs, cs).Success?
    ensures var ds := DecidedAll(env, inv, base, inputs, cs).value; var id := cs[i].candidateId;
            && id in inputs && id !in IdsOf(cs[..i])
            && Decided(env, inv, base + SelectedIds(ds[..i]), cs[i], inputs[id]) == Success(ds[i])
            && ds[i].candidateId == id && ds[i].outcome == inputs[id].outcome
            && ds[i].reasonCode == TrimReason(inputs[id].reasonCode)
            && ValidReason(env, ds[i].reasonCode)
            && HasItsCandidate(ds[i])
            && (ds[i].outcome == Accept ==> ds[i].reviewedCandidate == Some(cs[i]))
  {
    hide Decided, ValidReason, DecidedAll, TrimReason, HasItsCandidate, SelectedIds;
    DecidedAt(env, inv, base, inputs, cs, i);
    var ds := DecidedAll(env, inv, base, inputs, cs).value;
    DecidedFields(env, inv, base + SelectedIds(ds[..i]), cs[i], inputs[cs[i].candidateId]);
  }

  lemma AsInputKeepsId(d: ReviewDecision)
    ensures AsInput(d).candidateId == d.candidateId && AsInput(d).outcome == d.outcome
    ensures AsInput(d).reasonCode == d.reasonCode
  {
  }

  lemma DecisionIdsDistinct(
    env: Env, inv: Inventory, base: set<string>, inputs: map<string, DecisionInput>, cs: seq<Candidate>)
    requires DecidedAll(env, inv, base, inputs, cs).Success?
    ensures var ds := DecidedAll(env, inv, base, inputs, cs).value;
            !RepeatsDecision(ds) && !RepeatsId(AsInputs(ds))
  {
    hide Decided, DecidedAll, AsInput;
    var ds := DecidedAll(env, inv, base, inputs, cs).value;
    forall i, j | 0 <= i < j < |ds|
      ensures ds[i].candidateId != ds[j].candidateId
      ensures AsInputs(ds)[i].candidateId != AsInputs(ds)[j].candidateId
    {
      DecisionShape(env, inv, base, inputs, cs, i);
      DecisionShape(env, inv, base, inputs, cs, j);
      assert cs[i] in cs[..j];
      AsInputKeepsId(ds[i]);
      AsInputKeepsId(ds[j]);
    }
  }

  // ------------------------------------------------------------- replay

  ghost predicate SameOutcomes(a: map<string, DecisionInput>, b: map<string, DecisionInput>, cs: seq<Candidate>) {
    forall i :: 0 <= i < |cs| ==>
      && cs[i].candidateId in a && cs[i].candidateId in b
      && a[cs[i].candidateId].outcome == b[cs[i].candidateId].outcome
  }

  lemma {:induction false} SameAccepted(
    a: map<string, DecisionInput>, b: map<string, DecisionInput>, cs: seq<Candidate>)
    requires SameOutcomes(a, b, cs)
    ensures AcceptedIds(a, cs) == AcceptedIds(b, cs)
  {
    if cs != [] {
      var n := |cs| - 1;
      assert forall i :: 0 <= i < n ==> cs[..n][i] == cs[i];
      SameAccepted(a, b, cs[..n]);
    }
  }

  ghost predicate Replays(inputs: map<string, DecisionInput>, cs: seq<Candidate>, ds: seq<ReviewDecision>) {
    && |ds| == |cs|
    && forall i :: 0 <= i < |cs| ==>
         cs[i].candidateId in inputs && inputs[cs[i].candidateId] == AsInput(ds[i])
  }

  lemma NextReplays(
    env: Env, inv: Inventory, base: set<string>, inputs: map<string, DecisionInput>, replay: map<string, DecisionInput>,
    before: seq<Candidate>, done: seq<ReviewDecision>, c: Candidate)
    requires DecidedNext(env, inv, base, inputs, before, done, c).Success?
    requires c.candidateId in replay
    requires replay[c.candidateId] == AsInput(DecidedNext(env, inv, base, inputs, before, done, c).value)
    ensures DecidedNext(env, inv, base, replay, before, done, c) == DecidedNext(env, inv, base, inputs, before, done, c)
  {
    hide Decided, AsInput, SelectedIds, IdsOf;
    DecisionReplays(env, inv, base + SelectedIds(done), c, inputs[c.candidateId]);
  }

  /** The loop over the candidates, fed with its own decisions, makes them again. */
  lemma {:induction false} DecisionsReplay(
    env: Env, inv: Inventory, base: set<string>, inputs: map<string, DecisionInput>, replay: map<string, DecisionInput>,
    cs: seq<Candidate>)
    requires DecidedAll(env, inv, base, inputs, cs).Success?
    requires Replays(replay, cs, DecidedAll(env, inv, base, inputs, cs).value)
    ensures DecidedAll(env, inv, base, replay, cs) == DecidedAll(env, inv, base, inputs, cs)
  {
    hide DecidedNext, AsInput;
    if cs != [] {
      var n := |cs| - 1;
      var ds := DecidedAll(env, inv, base, inputs, cs).value;
      DecidedAt(env, inv, base, inputs, cs, n);
      assert cs[..n][..n] == cs[..n] && forall i :: 0 <= i < n ==> cs[..n][i] == cs[i] && ds[..n][i] == ds[i];
      DecisionsReplay(env, inv, base, inputs, replay, cs[..n]);
      NextReplays(env, inv, base, inputs, replay, cs[..n], ds[..n], cs[n]);
    }
  }

  lemma CoreReplays(env: Env, world: World, plan: Plan, inputs: map<string, DecisionInput>)
    requires CoreDecisions(env, world, plan, inputs).Success?
    ensures var ds := CoreDecisions(env, world, plan, inputs).value;
            CoreDecisions(env, world, plan, InputMap(AsInputs(ds))) == Success(ds)
  {
    hide Decided, DecidedAll, AsInput, SelectedError, AcceptedIds, InputMap, ReservationsHold;
    var cs, base := plan.candidates, BaseIds(world.inventory, inputs, plan.candidates);
    var ds := CoreDecisions(env, world, plan, inputs).value;
    var replay := InputMap(AsInputs(ds));
    DecisionIdsDistinct(env, world.inventory, base, inputs, cs);
    forall i | 0 <= i < |cs|
      ensures cs[i].candidateId in replay && replay[cs[i].candidateId] == AsInput(ds[i])
      ensures cs[i].candidateId in inputs && inputs[cs[i].candidateId].outcome == AsInput(ds[i]).outcome
    {
      DecisionShape(env, world.inventory, base, inputs, cs, i);
      AsInputKeepsId(ds[i]);
      InputMapLookup(AsInputs(ds), i);
    }
    SameAccepted(inputs, replay, cs);
    DecisionsReplay(env, world.inventory, base, inputs, replay, cs);
  }

  lemma CoreShape(env: Env, world: World, plan: Plan, inputs: map<string, DecisionInput>)
    requires CoreDecisions(env, world, plan, inputs).Success?
    ensures var ds := CoreDecisions(env, world, plan, inputs).value;
            && |ds| == |plan.candidates| && !RepeatsDecision(ds) && !RepeatsId(AsInputs(ds))
            && DecidedAll(env, world.inventory, BaseIds(world.inventory, inputs, plan.candidates), inputs,
                          plan.candidates)
               == Success(ds)
            && SubjectsDistinct(env, SelectedMemories(ds))
            && ReservationsHold(world.inventory.reservedIds, AcceptedIds(inputs, plan.candidates))
  {
    hide Decided, DecidedAll, AsInput, SelectedError, AcceptedIds;
    DecisionIdsDistinct(env, world.inventory, BaseIds(world.inventory, inputs, plan.candidates), inputs,
                        plan.candidates);
    SelectedErrorMeaning(env, SelectedMemories(CoreDecisions(env, world, plan, inputs).value));
  }

  /** Turning a review's decisions back into inputs and rebuilding against the same plan and inventory
      gives the same review, apart from the prior review it names. */
  lemma ReviewReplays(env: Env, world: World, plan: Plan, input: ReviewInput, reviewer: string, time: string)
    requires BuiltCore(env, world, plan, input, reviewer, time).Success?
    ensures var r := BuiltCore(env, world, plan, input, reviewer, time).value;
            BuiltCore(env, world, plan, ReplayInput(plan, r), r.reviewedBy, r.reviewedAt)
            == Success(Identified(env, r.(priorReviewId := None)))
  {
    hide Decided, CoreDecisions, AsInput, InputMap, ReviewDataClass, ValidActor, Trim, RepeatsId;
    var r := BuiltCore(env, world, plan, input, reviewer, time).value;
    var inputs := InputMap(input.decisions);
    CoreReplays(env, world, plan, inputs);
    CoreShape(env, world, plan, inputs);
    TrimFixed(Trim(reviewer));
    TrimFixed(Trim(time));
  }

  /** Every review built without a prior passes the prior-review check of a later one, exactly when the
      plan has a candidate: an empty review is called incomplete. */
  lemma FirstReviewIsAValidPrior(
    env: Env, world: World, plan: Plan, input: ReviewInput, reviewer: string, time: string, later: ReviewInput)
    requires RendersReviewIds(env) && Trim(plan.planId) != ""
    requires BuiltReview(env, world, plan, input, None, reviewer, time).Success?
    requires later.priorReviewId == Some(BuiltReview(env, world, plan, input, None, reviewer, time).value.reviewId)
    ensures var r := BuiltReview(env, world, plan, input, None, reviewer, time).value;
            LineageError(env, world, plan, later, Some(r))
            == if plan.candidates == [] then Some(InvalidPriorReview)
               else TerminalError(r.decisions, InputMap(later.decisions))
  {
    hide CoreDecisions, AsInput, InputMap, TerminalError, Trim, RepeatsId, RepeatsDecision, ReplayInput, ValidReason;
    var r := BuiltReview(env, world, plan, input, None, reviewer, time).value;
    var inputs := InputMap(input.decisions);
    CoreShape(env, world, plan, inputs);
    ReviewReplays(env, world, plan, input, reviewer, time);
    TrimFixed(Trim(reviewer));
    TrimFixed(Trim(time));
    forall i | 0 <= i < |r.decisions|
      ensures ValidReason(env, r.decisions[i].reasonCode) && HasItsCandidate(r.decisions[i])
    {
      DecisionShape(env, world.inventory, BaseIds(world.inventory, inputs, plan.candidates), inputs, plan.candidates,
                    i);
    }
    assert ValidReview(env, r) <==> plan.candidates != [];
  }

  // ------------------------------------------------------------- terminal decisions

  /** Equal but for the reserved proposal id and the candidate id that hashes it. */
  ghost predicate SameUpToProposalId(a: Candidate, b: Candidate) {
    && b == a.(action := b.action, candidateId := b.candidateId)
    && (a.action == b.action || (a.action.CreateProposal? && b.action.CreateProposal?))
  }

  /** The used ids influence an edit through its reserved proposal id only. */
  lemma RebuiltUpToReservation(
    env: Env, inv: Inventory, u: set<string>, v: set<string>, original: Candidate, memory: Memory,
    destination: MemoryDestination, contentClass: Option<ContentClass>)
    requires Rebuilt(env, inv, u, original, memory, destination, contentClass).Success?
    ensures var a := Rebuilt(env, inv, u, original, memory, destination, contentClass);
            var b := Rebuilt(env, inv, v, original, memory, destination, contentClass);
            && b.Success? && SameUpToProposalId(a.value, b.value)
            && (a.value.action == b.value.action ==> a == b)
  {
    hide Normalized, ReservedId, Matches, RouteOfEdit, Sort, DefaultContentClass;
  }

  ghost predicate Survives(prior: ReviewDecision, now: ReviewDecision) {
    && now == prior.(reviewedCandidate := now.reviewedCandidate)
    && now.reviewedCandidate.Some? == prior.reviewedCandidate.Some?
    && (prior.reviewedCandidate.Some? ==>
          SameUpToProposalId(prior.reviewedCandidate.value, now.reviewedCandidate.value))
    && (prior.outcome != Edit ==> now == prior)
  }

  lemma DecidedUpToReservation(
    env: Env, inv: Inventory, u: set<string>, v: set<string>, c: Candidate, a: DecisionInput, b: DecisionInput)
    requires Decided(env, inv, u, c, a).Success? && Decided(env, inv, v, c, b).Success?
    requires WithTrimmedReason(a) == WithTrimmedReason(b)
    ensures Survives(Decided(env, inv, u, c, a).value, Decided(env, inv, v, c, b).value)
  {
    hide Rebuilt, ValidReason, Trim;
    assert a == b.(reasonCode := a.reasonCode);
    if a.outcome == Edit {
      RebuiltUpToReservation(env, inv, u, v, c, a.memory.value, RequestedDestination(c, a), a.contentClass);
    }
  }

  lemma {:induction false} TerminalErrorMeaning(prior: seq<ReviewDecision>, next: map<string, DecisionInput>)
    ensures TerminalError(prior, next).None? <==>
            forall i :: 0 <= i < |prior| && prior[i].outcome != Defer ==>
              && prior[i].candidateId in next
              && WithTrimmedReason(next[prior[i].candidateId]) == WithTrimmedReason(AsInput(prior[i]))
  {
    hide WithTrimmedReason, AsInput;
    if prior != [] {
      TerminalErrorMeaning(prior[1..], next);
      assert forall i :: 0 < i < |prior| ==> prior[i] == prior[1..][i - 1];
    }
  }

  /** The inputs that built the later review and the replayed prior, candidate by candidate. */
  ghost predicate BuiltOnPrior(
    env: Env, world: World, plan: Plan, input: ReviewInput, prior: Review, reviewer: string, time: string)
  {
    BuiltReview(env, world, plan, input, Some(prior), reviewer, time).Success?
  }

  lemma CoreOfReview(env: Env, world: World, plan: Plan, input: ReviewInput, reviewer: string, time: string)
    requires BuiltCore(env, world, plan, input, reviewer, time).Success?
    ensures CoreDecisions(env, world, plan, InputMap(input.decisions))
            == Success(BuiltCore(env, world, plan, input, reviewer, time).value.decisions)
  {
    hide CoreDecisions, InputMap, InputError, ReviewDataClass;
  }

  /** A prior that passes the check is exactly the replay of its own decisions. */
  lemma PriorIsReplay(
    env: Env, world: World, plan: Plan, input: ReviewInput, prior: Review, reviewer: string, time: string)
    requires BuiltOnPrior(env, world, plan, input, prior, reviewer, time)
    ensures CoreDecisions(env, world, plan, InputMap(AsInputs(prior.decisions))) == Success(prior.decisions)
    ensures CoreDecisions(env, world, plan, InputMap(input.decisions))
            == Success(BuiltReview(env, world, plan, input, Some(prior), reviewer, time).value.decisions)
    ensures TerminalError(prior.decisions, InputMap(input.decisions)).None?
  {
    hide BuiltCore, CoreDecisions, InputMap, TerminalError, ValidReview, ValidReviewId, AsInput;
    CoreOfReview(env, world, plan, input, reviewer, time);
    CoreOfReview(env, world, plan, ReplayInput(plan, prior), prior.reviewedBy, prior.reviewedAt);
  }

  /** Terminal decisions survive a later review: each prior accept, reject or edit keeps its outcome,
      reason, draft, evidence and whole classification; an edit may only move to another proposal id. */
  lemma TerminalDecisionsSurvive(
    env: Env, world: World, plan: Plan, input: ReviewInput, prior: Review, reviewer: string, time: string)
    requires BuiltOnPrior(env, world, plan, input, prior, reviewer, time)
    ensures var now := BuiltReview(env, world, plan, input, Some(prior), reviewer, time).value.decisions;
            && |now| == |prior.decisions|
            && forall i :: 0 <= i < |now| && prior.decisions[i].outcome != Defer ==>
                 Survives(prior.decisions[i], now[i])
  {
    hide CoreDecisions, Decided, InputMap, TerminalError, DecidedAll, BuiltReview, AcceptedIds, AsInput, Survives,
      BaseIds, ValidReason, WithTrimmedReason;
    var now := BuiltReview(env, world, plan, input, Some(prior), reviewer, time).value.decisions;
    var before := prior.decisions;
    var inputs, replay, cs := InputMap(input.decisions), InputMap(AsInputs(before)), plan.candidates;
    PriorIsReplay(env, world, plan, input, prior, reviewer, time);
    CoreShape(env, world, plan, inputs);
    CoreShape(env, world, plan, replay);
    TerminalErrorMeaning(before, inputs);
    forall i | 0 <= i < |now| && before[i].outcome != Defer
      ensures Survives(before[i], now[i])
    {
      var inv := world.inventory;
      var base0, base1 := BaseIds(inv, replay, cs), BaseIds(inv, inputs, cs);
      DecisionShape(env, inv, base0, replay, cs, i);
      DecisionShape(env, inv, base1, inputs, cs, i);
      InputMapLookup(AsInputs(before), i);
      AsInputKeepsId(before[i]);
      DecidedUpToReservation(env, inv, base0 + SelectedIds(before[..i]), base1 + SelectedIds(now[..i]), cs[i],
                             replay[cs[i].candidateId], inputs[cs[i].candidateId]);
    }
  }

  // ------------------------------------------------------------- distinct selections

  predicate SelectsProposal(d: ReviewDecision) {
    d.reviewedCandidate.Some? && d.reviewedCandidate.value.action.CreateProposal?
  }

  /** Where a selected candidate's proposal id comes from: the plan's reservation, or a fresh one. */
  lemma SelectedIdSource(
    env: Env, inv: Inventory, inputs: map<string, DecisionInput>, cs: seq<Candidate>, ds: seq<ReviewDecision>, i: nat)
    requires DecidedAll(env, inv, BaseIds(inv, inputs, cs), inputs, cs) == Success(ds)
    requires i < |ds| && SelectsProposal(ds[i])
    ensures var id := ds[i].reviewedCandidate.value.action.proposalId;
            if ds[i].outcome == Accept then AcceptsProposal(inputs, cs[i]) && id == cs[i].action.proposalId
            else id !in BaseIds(inv, inputs, cs) + SelectedIds(ds[..i])
  {
    hide Rebuilt, ValidReason, BaseIds, DecidedAll, AcceptedIds, SelectedIds;
    DecisionShape(env, inv, BaseIds(inv, inputs, cs), inputs, cs, i);
    var d := inputs[cs[i].candidateId];
    if d.outcome == Edit {
      EditMeaning(env, inv, BaseIds(inv, inputs, cs) + SelectedIds(ds[..i]), cs[i], d.memory.value,
                  RequestedDestination(cs[i], d), d.contentClass);
    }
  }

  lemma {:induction false} SelectedIdsContain(ds: seq<ReviewDecision>, i: nat)
    requires i < |ds| && SelectsProposal(ds[i])
    ensures ds[i].reviewedCandidate.value.action.proposalId in SelectedIds(ds)
  {
    var n := |ds| - 1;
    if i < n {
      assert ds[..n][i] == ds[i];
      SelectedIdsContain(ds[..n], i);
    }
  }

  lemma {:induction false} AcceptedIdsContain(inputs: map<string, DecisionInput>, cs: seq<Candidate>, i: nat)
    requires i < |cs| && AcceptsProposal(inputs, cs[i])
    ensures cs[i].action.proposalId in AcceptedIds(inputs, cs)
  {
    var n := |cs| - 1;
    if i < n {
      assert cs[..n][i] == cs[i];
      AcceptedIdsContain(inputs, cs[..n], i);
    }
  }

  lemma AcceptedIdsDiffer(inputs: map<string, DecisionInput>, cs: seq<Candidate>, i: nat, j: nat)
    requires i < j < |cs| && AcceptsProposal(inputs, cs[i]) && AcceptsProposal(inputs, cs[j])
    requires Distinct(AcceptedIds(inputs, cs))
    ensures cs[i].action.proposalId != cs[j].action.proposalId
  {
    var prefix, all := AcceptedIds(inputs, cs[..j]), AcceptedIds(inputs, cs);
    assert cs[..j][i] == cs[i] && cs[..j + 1][..j] == cs[..j];
    AcceptedIdsContain(inputs, cs[..j], i);
    AcceptedIdsPrefix(inputs, cs, j + 1);
    assert prefix + [cs[j].action.proposalId] <= all;
    var k :| 0 <= k < |prefix| && prefix[k] == cs[i].action.proposalId;
    assert all[k] == (prefix + [cs[j].action.proposalId])[k]
           && all[|prefix|] == (prefix + [cs[j].action.proposalId])[|prefix|];
  }

  /** Whatever the mix of accepts and edits, no selected proposal id is reserved in the inventory and no
      two selected candidates share one. */
  lemma SelectedProposalIdsDistinct(
    env: Env, world: World, plan: Plan, input: ReviewInput, reviewer: string, time: string)
    requires BuiltCore(env, world, plan, input, reviewer, time).Success?
    ensures var ds := BuiltCore(env, world, plan, input, reviewer, time).value.decisions;
            && (forall i :: 0 <= i < |ds| && SelectsProposal(ds[i]) ==>
                  ds[i].reviewedCandidate.value.action.proposalId !in world.inventory.reservedIds)
            && (forall i, j :: 0 <= i < j < |ds| && SelectsProposal(ds[i]) && SelectsProposal(ds[j]) ==>
                  ds[i].reviewedCandidate.value.action.proposalId != ds[j].reviewedCandidate.value.action.proposalId)
  {
    hide BuiltCore, DecidedAll, AcceptedIds, CoreDecisions, SelectedIds, InputMap;
    var ds := BuiltCore(env, world, plan, input, reviewer, time).value.decisions;
    var inv, cs, inputs := world.inventory, plan.candidates, InputMap(input.decisions);
    CoreOfReview(env, world, plan, input, reviewer, time);
    CoreShape(env, world, plan, inputs);
    forall i | 0 <= i < |ds| && SelectsProposal(ds[i])
      ensures ds[i].reviewedCandidate.value.action.proposalId !in inv.reservedIds
      ensures ds[i].outcome == Accept ==> AcceptsProposal(inputs, cs[i])
                                          && cs[i].action.proposalId in AcceptedIds(inputs, cs)
                                          && ds[i].reviewedCandidate.value.action.proposalId == cs[i].action.proposalId
    {
      SelectedIdSource(env, inv, inputs, cs, ds, i);
      if ds[i].outcome == Accept {
        AcceptedIdsContain(inputs, cs, i);
      }
    }
    forall i, j | 0 <= i < j < |ds| && SelectsProposal(ds[i]) && SelectsProposal(ds[j])
      ensures ds[i].reviewedCandidate.value.action.proposalId != ds[j].reviewedCandidate.value.action.proposalId
    {
      SelectedIdSource(env, inv, inputs, cs, ds, i);
      SelectedIdSource(env, inv, inputs, cs, ds, j);
      assert ds[..j][i] == ds[i];
      SelectedIdsContain(ds[..j], i);
      if ds[i].outcome == Accept && ds[j].outcome == Accept {
        AcceptedIdsDiffer(inputs, cs, i, j);
      }
    }
  }

  lemma {:induction false} SelectedPosition(ds: seq<ReviewDecision>, i: nat) returns (p: nat)
    requires i < |ds| && ds[i].reviewedCandidate.Some?
    ensures p == |SelectedMemories(ds[..i])| < |SelectedMemories(ds)|
    ensures SelectedMemories(ds)[p] == ds[i].reviewedCandidate.value.memory
  {
    var n := |ds| - 1;
    if i < n {
      assert ds[..n][..i] == ds[..i];
      p := SelectedPosition(ds[..n], i);
    } else {
      p := |SelectedMemories(ds[..i])|;
    }
  }

  lemma SelectedPositions(ds: seq<ReviewDecision>, i: nat, j: nat) returns (p: nat, q: nat)
    requires i < j < |ds| && ds[i].reviewedCandidate.Some? && ds[j].reviewedCandidate.Some?
    ensures p < q < |SelectedMemories(ds)|
    ensures SelectedMemories(ds)[p] == ds[i].reviewedCandidate.value.memory
    ensures SelectedMemories(ds)[q] == ds[j].reviewedCandidate.value.memory
  {
    q := SelectedPosition(ds, j);
    assert ds[..j][i] == ds[i] && ds[..j][..i] == ds[..i];
    p := SelectedPosition(ds[..j], i);
    p := SelectedPosition(ds, i);
  }

  /** No two selected candidates share a subject, and so no two are the same draft. */
  lemma SelectedSubjectsDistinct(env: Env, world: World, plan: Plan, input: ReviewInput, reviewer: string, time: string)
    requires BuiltCore(env, world, plan, input, reviewer, time).Success?
    ensures var ds := BuiltCore(env, world, plan, input, reviewer, time).value.decisions;
            forall i, j :: 0 <= i < j < |ds| && ds[i].reviewedCandidate.Some? && ds[j].reviewedCandidate.Some? ==>
              var a, b := ds[i].reviewedCandidate.value.memory, ds[j].reviewedCandidate.value.memory;
              ConflictKeyOf(env, a) != ConflictKeyOf(env, b) && DraftKeyOf(env, a) != DraftKeyOf(env, b)
  {
    hide BuiltCore, CoreDecisions, ConflictKeyOf, DraftKeyOf;
    var ds := BuiltCore(env, world, plan, input, reviewer, time).value.decisions;
    CoreOfReview(env, world, plan, input, reviewer, time);
    CoreShape(env, world, plan, InputMap(input.decisions));
    forall i, j | 0 <= i < j < |ds| && ds[i].reviewedCandidate.Some? && ds[j].reviewedCandidate.Some?
      ensures ConflictKeyOf(env, ds[i].reviewedCandidate.value.memory)
              != ConflictKeyOf(env, ds[j].reviewedCandidate.value.memory)
      ensures DraftKeyOf(env, ds[i].reviewedCandidate.value.memory)
              != DraftKeyOf(env, ds[j].reviewedCandidate.value.memory)
    {
      var p, q := SelectedPositions(ds, i, j);
      var a, b := ds[i].reviewedCandidate.value.memory, ds[j].reviewedCandidate.value.memory;
      if DraftKeyOf(env, a) == DraftKeyOf(env, b) {
        ExactKeyRefinesConflictKey(env, a, b);
      }
    }
  }
}
