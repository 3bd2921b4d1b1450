/** When a later review keeps an edit's proposal id. */
module EditIds {
  import opened Prelude
  import opened Text
  import opened CaptureModel
  import opened ProposalIds
  import opened Normalize
  import opened Classify
  import opened Edit
  import opened ReviewCore
  import opened ReviewLineage
  import opened ReviewTheorems

  /** Taking more ids away changes a rebuilt edit exactly when its own id is among them. */
  lemma RebuiltStable(
    env: Env, inv: Inventory, u: set<string>, more: set<string>, original: Candidate, memory: Memory,
    destination: MemoryDestination, contentClass: Option<ContentClass>)
    requires Rebuilt(env, inv, u, original, memory, destination, contentClass).Success?
    ensures var a := Rebuilt(env, inv, u, original, memory, destination, contentClass);
            Rebuilt(env, inv, u + more, original, memory, destination, contentClass) == a
            <==> OwnProposalId(a.value) !! more
  {
    hide Rebuilt, ReservedId;
    EditMeaning(env, inv, u, original, memory, destination, contentClass);
    RebuiltUpToReservation(env, inv, u, u + more, original, memory, destination, contentClass);
    EditMeaning(env, inv, u + more, original, memory, destination, contentClass);
    var k := Rebuilt(env, inv, u, original, memory, destination, contentClass).value;
    ReservationStable(k.memory.title, u, more);
  }

  lemma DecidedStable(
    env: Env, inv: Inventory, u: set<string>, more: set<string>, c: Candidate, a: DecisionInput, b: DecisionInput)
    requires Decided(env, inv, u, c, a).Success? && Decided(env, inv, u + more, c, b).Success?
    requires WithTrimmedReason(a) == WithTrimmedReason(b)
    ensures var before, now := Decided(env, inv, u, c, a).value, Decided(env, inv, u + more, c, b).value;
            now == before <==> before.outcome != Edit || DecisionIds(before) !! more
  {
    hide Rebuilt, ValidReason, Trim, OwnProposalId;
    assert a == b.(reasonCode := a.reasonCode);
    if a.outcome == Edit {
      RebuiltStable(env, inv, u, more, c, a.memory.value, RequestedDestination(c, a), a.contentClass);
    }
  }

  ghost predicate TerminalKept(prior: seq<ReviewDecision>, now: seq<ReviewDecision>, n: nat)
    requires n <= |prior| == |now|
  {
    forall i :: 0 <= i < n && prior[i].outcome != Defer ==> now[i] == prior[i]
  }

  /** The id that editing this candidate now takes, if the prior review had deferred it. */
  ghost function NewlyTaken(
    inputs: map<string, DecisionInput>, used: set<string>, c: Candidate, prior: ReviewDecision): set<string>
  {
    if prior.outcome != Defer || c.candidateId !in inputs then {}
    else
      var d := inputs[c.candidateId];
      if d.outcome == Edit && d.memory.Some? && RequestedDestination(c, d) == Repo
      then {ReservedId(Trim(d.memory.value.title), used)} else {}
  }

  /** Ids taken by new edits among the first `n` candidates, from the inventory, the prior review and the
      inputs alone. */
  ghost function NewlyTakenIds(
    inv: Inventory, inputs: map<string, DecisionInput>, cs: seq<Candidate>, prior: seq<ReviewDecision>, n: nat)
    : set<string>
    requires n <= |cs| == |prior|
  {
    if n == 0 then {}
    else
      var before := NewlyTakenIds(inv, inputs, cs, prior, n - 1);
      var used := BaseIds(inv, inputs, cs) + SelectedIds(prior[..n - 1]) + before;
      before + NewlyTaken(inputs, used, cs[n - 1], prior[n - 1])
  }

  /** No prior edit's own id is accepted by the inputs, or taken by a new edit in front of it. */
  ghost predicate EditIdsUntouched(
    inv: Inventory, inputs: map<string, DecisionInput>, cs: seq<Candidate>, prior: seq<ReviewDecision>, n: nat)
    requires n <= |cs| == |prior|
  {
    forall i :: 0 <= i < n && prior[i].outcome == Edit ==>
      DecisionIds(prior[i]) !! SetOf(AcceptedIds(inputs, cs)) + NewlyTakenIds(inv, inputs, cs, prior, i)
  }

  /** Ids the later review gives, among its first `n` decisions, to what the prior one had deferred. */
  ghost function NewIds(prior: seq<ReviewDecision>, now: seq<ReviewDecision>, n: nat): set<string>
    requires n <= |prior| == |now|
  {
    if n == 0 then {}
    else NewIds(prior, now, n - 1) + (if prior[n - 1].outcome == Defer then DecisionIds(now[n - 1]) else {})
  }

  lemma {:induction false} UsedIdsGrow(
    prior: seq<ReviewDecision>, now: seq<ReviewDecision>, base: set<string>, accepted: set<string>, n: nat)
    requires n <= |prior| == |now| && TerminalKept(prior, now, n)
    requires forall i :: 0 <= i < n && prior[i].outcome == Defer ==> DecisionIds(prior[i]) == {}
    ensures base + accepted + SelectedIds(now[..n])
            == base + SelectedIds(prior[..n]) + (accepted + NewIds(prior, now, n))
  {
    hide DecisionIds;
    if n > 0 {
      UsedIdsGrow(prior, now, base, accepted, n - 1);
      assert prior[..n][..n - 1] == prior[..n - 1] && now[..n][..n - 1] == now[..n - 1];
    }
  }

  lemma SameUsed(
    reserved: set<string>, before: set<string>, accepted: set<string>, selected: set<string>, new_: set<string>,
    taken: set<string>)
    requires before <= accepted && accepted + new_ == accepted + taken
    ensures reserved + before + selected + (accepted + new_) == reserved + accepted + selected + taken
  {
    assert reserved + before + selected + (accepted + taken) == reserved + accepted + selected + taken;
  }

  lemma TitleIsTrimmed(env: Env, m: Memory)
    requires Normalized(env, m).Success?
    ensures Normalized(env, m).value.title == Trim(m.title)
  {
    hide DraftError, Trim;
  }

  /** The id a successful edit takes. */
  lemma EditTakes(env: Env, inv: Inventory, used: set<string>, c: Candidate, d: DecisionInput)
    requires d.outcome == Edit && Decided(env, inv, used, c, d).Success?
    ensures d.memory.Some?
    ensures DecisionIds(Decided(env, inv, used, c, d).value)
            == if RequestedDestination(c, d) == Repo then {ReservedId(Trim(d.memory.value.title), used)} else {}
  {
    hide Rebuilt, Trim, ValidReason, ReservedId, Normalized;
    EditMeaning(env, inv, used, c, d.memory.value, RequestedDestination(c, d), d.contentClass);
    TitleIsTrimmed(env, d.memory.value);
  }

  lemma TrimmedOutcome(a: DecisionInput, b: DecisionInput)
    requires WithTrimmedReason(a) == WithTrimmedReason(b)
    ensures a.outcome == b.outcome
  {
    hide TrimReason;
    assert WithTrimmedReason(a).outcome == a.outcome;
  }

  lemma CandidateOnPrior(
    env: Env, world: World, plan: Plan, inputs: map<string, DecisionInput>, prior: seq<ReviewDecision>,
    now: seq<ReviewDecision>, i: nat)
    requires i < |plan.candidates| == |prior| == |now|
    requires CoreDecisions(env, world, plan, InputMap(AsInputs(prior))) == Success(prior)
    requires CoreDecisions(env, world, plan, inputs) == Success(now)
    requires TerminalError(prior, inputs).None?
    ensures var id, replay := plan.candidates[i].candidateId, InputMap(AsInputs(prior));
            && id in inputs && id in replay
            && (replay[id].outcome == Accept ==> inputs[id].outcome == Accept)
            && (prior[i].outcome == Defer ==> DecisionIds(prior[i]) == {})
  {
    hide CoreDecisions, Decided, InputMap, TerminalError, DecidedAll, AcceptedIds, AsInput, ValidReason,
      WithTrimmedReason, SelectedIds, SetOf, BaseIds;
    var inv, cs, replay := world.inventory, plan.candidates, InputMap(AsInputs(prior));
    CoreShape(env, world, plan, inputs);
    CoreShape(env, world, plan, replay);
    DecisionShape(env, inv, BaseIds(inv, replay, cs), replay, cs, i);
    DecisionShape(env, inv, BaseIds(inv, inputs, cs), inputs, cs, i);
    if prior[i].outcome != Defer {
      TerminalErrorMeaning(prior, inputs);
      AsInputKeepsId(prior[i]);
      TrimmedOutcome(inputs[cs[i].candidateId], AsInput(prior[i]));
    }
  }

  lemma {:induction false} AcceptedIdsMonotone(
    a: map<string, DecisionInput>, b: map<string, DecisionInput>, cs: seq<Candidate>)
    requires forall i :: 0 <= i < |cs| ==>
      && cs[i].candidateId in a && cs[i].candidateId in b
      && (a[cs[i].candidateId].outcome == Accept ==> b[cs[i].candidateId].outcome == Accept)
    ensures SetOf(AcceptedIds(a, cs)) <= SetOf(AcceptedIds(b, cs))
  {
    if cs != [] {
      var n := |cs| - 1;
      assert forall i :: 0 <= i < n ==> cs[..n][i] == cs[i];
      AcceptedIdsMonotone(a, b, cs[..n]);
      var id := if cs[n].action.CreateProposal? then cs[n].action.proposalId else "";
      assert SetOf(AcceptedIds(a, cs[..n]) + [id]) == SetOf(AcceptedIds(a, cs[..n])) + {id};
      assert SetOf(AcceptedIds(b, cs[..n]) + [id]) == SetOf(AcceptedIds(b, cs[..n])) + {id};
      assert AcceptedIds(a, cs[..n]) + [] == AcceptedIds(a, cs[..n])
             && AcceptedIds(b, cs[..n]) + [] == AcceptedIds(b, cs[..n]);
    }
  }

  /** A later review accepts at least what the prior one did. */
  lemma AcceptedMonotone(
    env: Env, world: World, plan: Plan, inputs: map<string, DecisionInput>, prior: seq<ReviewDecision>,
    now: seq<ReviewDecision>)
    requires |prior| == |now|
    requires CoreDecisions(env, world, plan, InputMap(AsInputs(prior))) == Success(prior)
    requires CoreDecisions(env, world, plan, inputs) == Success(now)
    requires TerminalError(prior, inputs).None?
    ensures SetOf(AcceptedIds(InputMap(AsInputs(prior)), plan.candidates))
            <= SetOf(AcceptedIds(inputs, plan.candidates))
  {
    hide CoreDecisions, DecidedAll, InputMap, TerminalError, AcceptedIds, AsInput, DecisionIds, SetOf;
    var cs, replay := plan.candidates, InputMap(AsInputs(prior));
    CoreShape(env, world, plan, inputs);
    CoreShape(env, world, plan, replay);
    forall i | 0 <= i < |cs|
      ensures cs[i].candidateId in inputs && cs[i].candidateId in replay
      ensures replay[cs[i].candidateId].outcome == Accept ==> inputs[cs[i].candidateId].outcome == Accept
    {
      CandidateOnPrior(env, world, plan, inputs, prior, now, i);
    }
    AcceptedIdsMonotone(replay, inputs, cs);
  }

  /** Up to here the later review has used what the prior one had, and the ids it accepts or
      gives to new edits. */
  lemma UsedIdsAtStep(
    env: Env, world: World, plan: Plan, inputs: map<string, DecisionInput>, prior: seq<ReviewDecision>,
    now: seq<ReviewDecision>, n: nat)
    requires n <= |prior| == |now|
    requires CoreDecisions(env, world, plan, InputMap(AsInputs(prior))) == Success(prior)
    requires CoreDecisions(env, world, plan, inputs) == Success(now)
    requires TerminalError(prior, inputs).None?
    requires TerminalKept(prior, now, n)
    ensures var inv, cs, replay := world.inventory, plan.candidates, InputMap(AsInputs(prior));
            BaseIds(inv, inputs, cs) + SelectedIds(now[..n])
            == BaseIds(inv, replay, cs) + SelectedIds(prior[..n])
               + (SetOf(AcceptedIds(inputs, cs)) + NewIds(prior, now, n))
  {
    hide CoreDecisions, TerminalKept, DecidedAll, InputMap, TerminalError, AcceptedIds, AsInput, SelectedIds,
      DecisionIds, SetOf;
    var cs, replay := plan.candidates, InputMap(AsInputs(prior));
    CoreShape(env, world, plan, inputs);
    CoreShape(env, world, plan, replay);
    forall i | 0 <= i < |cs|
      ensures prior[i].outcome == Defer ==> DecisionIds(prior[i]) == {}
    {
      CandidateOnPrior(env, world, plan, inputs, prior, now, i);
    }
    AcceptedMonotone(env, world, plan, inputs, prior, now);
    UsedIdsGrow(prior, now, world.inventory.reservedIds, SetOf(AcceptedIds(inputs, cs)), n);
  }

  lemma NewIdForeseen(
    env: Env, world: World, plan: Plan, inputs: map<string, DecisionInput>, prior: seq<ReviewDecision>,
    now: seq<ReviewDecision>, i: nat)
    requires i < |prior| == |now| == |plan.candidates|
    requires CoreDecisions(env, world, plan, InputMap(AsInputs(prior))) == Success(prior)
    requires CoreDecisions(env, world, plan, inputs) == Success(now)
    requires TerminalError(prior, inputs).None? && TerminalKept(prior, now, i)
    requires var accepted := SetOf(AcceptedIds(inputs, plan.candidates));
             accepted + NewIds(prior, now, i)
             == accepted + NewlyTakenIds(world.inventory, inputs, plan.candidates, prior, i)
    ensures var accepted := SetOf(AcceptedIds(inputs, plan.candidates));
            var taken := NewlyTakenIds(world.inventory, inputs, plan.candidates, prior, i);
            var used := BaseIds(world.inventory, inputs, plan.candidates) + SelectedIds(prior[..i]) + taken;
            accepted + NewlyTaken(inputs, used, plan.candidates[i], prior[i])
            == accepted + (if prior[i].outcome == Defer then DecisionIds(now[i]) else {})
  {
    hide CoreDecisions, Decided, InputMap, TerminalError, DecidedAll, AcceptedIds, AsInput, SelectedIds, SetOf,
      ReservedId, NewIds, NewlyTakenIds, TerminalKept, Rebuilt, Trim, ValidReason;
    var inv, cs := world.inventory, plan.candidates;
    CoreShape(env, world, plan, inputs);
    DecisionShape(env, inv, BaseIds(inv, inputs, cs), inputs, cs, i);
    if prior[i].outcome == Defer {
      UsedIdsAtStep(env, world, plan, inputs, prior, now, i);
      AcceptedMonotone(env, world, plan, inputs, prior, now);
      AcceptedAlreadyReserved(env, inv, BaseIds(inv, inputs, cs) + SelectedIds(now[..i]), inputs, cs, i);
      var used := BaseIds(inv, inputs, cs) + SelectedIds(prior[..i]) + NewlyTakenIds(inv, inputs, cs, prior, i);
      assert BaseIds(inv, inputs, cs) + SelectedIds(now[..i]) == used by {
        SameUsed(inv.reservedIds, SetOf(AcceptedIds(InputMap(AsInputs(prior)), cs)), SetOf(AcceptedIds(inputs, cs)),
                 SelectedIds(prior[..i]), NewIds(prior, now, i), NewlyTakenIds(inv, inputs, cs, prior, i));
      }
      var d := inputs[cs[i].candidateId];
      if d.outcome == Edit {
        EditTakes(env, inv, used, cs[i], d);
      }
    }
  }

  /** As long as the terminal decisions are kept, the new ids are the foreseen ones, beside accepted ids. */
  lemma {:induction false} NewIdsForeseen(
    env: Env, world: World, plan: Plan, inputs: map<string, DecisionInput>, prior: seq<ReviewDecision>,
    now: seq<ReviewDecision>, n: nat)
    requires n <= |prior| == |now| == |plan.candidates|
    requires CoreDecisions(env, world, plan, InputMap(AsInputs(prior))) == Success(prior)
    requires CoreDecisions(env, world, plan, inputs) == Success(now)
    requires TerminalError(prior, inputs).None? && TerminalKept(prior, now, n)
    ensures var accepted := SetOf(AcceptedIds(inputs, plan.candidates));
            accepted + NewIds(prior, now, n)
            == accepted + NewlyTakenIds(world.inventory, inputs, plan.candidates, prior, n)
  {
    hide CoreDecisions, Decided, InputMap, TerminalError, DecidedAll, AcceptedIds, AsInput, SelectedIds, DecisionIds,
      SetOf, NewlyTaken;
    if n > 0 {
      NewIdsForeseen(env, world, plan, inputs, prior, now, n - 1);
      NewIdForeseen(env, world, plan, inputs, prior, now, n - 1);
    }
  }

  lemma OneMoreKept(
    env: Env, world: World, plan: Plan, inputs: map<string, DecisionInput>, prior: seq<ReviewDecision>,
    now: seq<ReviewDecision>, i: nat)
    requires i < |prior| == |now|
    requires CoreDecisions(env, world, plan, InputMap(AsInputs(prior))) == Success(prior)
    requires CoreDecisions(env, world, plan, inputs) == Success(now)
    requires TerminalError(prior, inputs).None?
    requires TerminalKept(prior, now, i)
    ensures var accepted := SetOf(AcceptedIds(inputs, plan.candidates));
            (prior[i].outcome != Defer ==> now[i] == prior[i])
            <==> (prior[i].outcome == Edit ==> DecisionIds(prior[i]) !! accepted + NewIds(prior, now, i))
  {
    hide CoreDecisions, Decided, InputMap, TerminalError, DecidedAll, AcceptedIds, AsInput, ValidReason,
      WithTrimmedReason, SelectedIds, DecisionIds, SetOf, BaseIds;
    if prior[i].outcome != Defer {
      var inv, cs, replay := world.inventory, plan.candidates, InputMap(AsInputs(prior));
      CoreShape(env, world, plan, inputs);
      CoreShape(env, world, plan, replay);
      TerminalErrorMeaning(prior, inputs);
      DecisionShape(env, inv, BaseIds(inv, replay, cs), replay, cs, i);
      DecisionShape(env, inv, BaseIds(inv, inputs, cs), inputs, cs, i);
      InputMapLookup(AsInputs(prior), i);
      AsInputKeepsId(prior[i]);
      UsedIdsAtStep(env, world, plan, inputs, prior, now, i);
      DecidedStable(env, inv, BaseIds(inv, replay, cs) + SelectedIds(prior[..i]),
                    SetOf(AcceptedIds(inputs, cs)) + NewIds(prior, now, i), cs[i], replay[cs[i].candidateId],
                    inputs[cs[i].candidateId]);
    }
  }

  lemma {:induction false} PrefixKept(
    env: Env, world: World, plan: Plan, inputs: map<string, DecisionInput>, prior: seq<ReviewDecision>,
    now: seq<ReviewDecision>, n: nat)
    requires n <= |prior| == |now|
    requires CoreDecisions(env, world, plan, InputMap(AsInputs(prior))) == Success(prior)
    requires CoreDecisions(env, world, plan, inputs) == Success(now)
    requires TerminalError(prior, inputs).None? && |plan.candidates| == |prior|
    ensures TerminalKept(prior, now, n) <==> EditIdsUntouched(world.inventory, inputs, plan.candidates, prior, n)
  {
    hide CoreDecisions, Decided, InputMap, TerminalError, DecidedAll, AcceptedIds, AsInput, ValidReason,
      WithTrimmedReason, SelectedIds, DecisionIds, SetOf;
    if n > 0 {
      PrefixKept(env, world, plan, inputs, prior, now, n - 1);
      if TerminalKept(prior, now, n - 1) {
        OneMoreKept(env, world, plan, inputs, prior, now, n - 1);
        NewIdsForeseen(env, world, plan, inputs, prior, now, n - 1);
      }
    }
  }

  /** A later review keeps every terminal decision entirely, proposal ids included, exactly when no id a
      prior edit had reserved is among the planned ids the inputs accept or the ids their new edits take
      first. The right-hand side can be worked out before the review is built. */
  lemma EditsKeepTheirIds(
    env: Env, world: World, plan: Plan, input: ReviewInput, prior: Review, reviewer: string, time: string)
    requires BuiltOnPrior(env, world, plan, input, prior, reviewer, time)
    ensures var now := BuiltReview(env, world, plan, input, Some(prior), reviewer, time).value.decisions;
            && |now| == |prior.decisions| == |plan.candidates|
            && (TerminalKept(prior.decisions, now, |now|) <==>
                EditIdsUntouched(world.inventory, InputMap(input.decisions), plan.candidates, prior.decisions, |now|))
  {
    hide CoreDecisions, Decided, InputMap, TerminalError, DecidedAll, BuiltReview, AcceptedIds, AsInput, BaseIds,
      ValidReason, WithTrimmedReason, TerminalKept, EditIdsUntouched;
    var now := BuiltReview(env, world, plan, input, Some(prior), reviewer, time).value.decisions;
    var before := prior.decisions;
    PriorIsReplay(env, world, plan, input, prior, reviewer, time);
    CoreShape(env, world, plan, InputMap(input.decisions));
    CoreShape(env, world, plan, InputMap(AsInputs(before)));
    PrefixKept(env, world, plan, InputMap(input.decisions), before, now, |now|);
  }
}
