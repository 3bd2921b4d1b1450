/** `build_capture_review_inner` without its lineage check: every plan candidate is decided once. */
module ReviewCore {
  import opened Prelude
  import opened Text
  import opened Utf8
  import opened CaptureModel
  import opened ProposalIds
  import opened Classify
  import opened Edit

  const MAX_ACTOR_BYTES := 256

  /** What the review is evaluated against; `planIsLive` is the outcome of the plan's live-state check. */
  datatype World = World(inventory: Inventory, planIsLive: bool)

  predicate ValidActor(env: Env, actor: string) {
    actor != "" && ByteLen(actor) <= MAX_ACTOR_BYTES && !HasControl(actor) && !env.prohibited(actor)
  }

  // ------------------------------------------------------------- inputs

  predicate RepeatsId(ds: seq<DecisionInput>) {
    exists i, j :: 0 <= i < j < |ds| && ds[i].candidateId == ds[j].candidateId
  }

  /** Keyed by candidate id; the last decision of a repeated id wins. */
  function InputMap(ds: seq<DecisionInput>): map<string, DecisionInput> {
    if ds == [] then map[]
    else
      var n := |ds| - 1;
      InputMap(ds[..n])[ds[n].candidateId := ds[n]]
  }

  lemma {:induction false} InputMapKeys(ds: seq<DecisionInput>)
    ensures forall id :: id in InputMap(ds) <==> exists i :: 0 <= i < |ds| && ds[i].candidateId == id
  {
    if ds != [] {
      var n := |ds| - 1;
      InputMapKeys(ds[..n]);
      assert forall i :: 0 <= i < n ==> ds[..n][i] == ds[i];
    }
  }

  lemma {:induction false} InputMapSize(ds: seq<DecisionInput>)
    requires !RepeatsId(ds)
    ensures |InputMap(ds)| == |ds|
  {
    if ds != [] {
      var n := |ds| - 1;
      assert forall i :: 0 <= i < n ==> ds[..n][i] == ds[i];
      InputMapSize(ds[..n]);
      InputMapKeys(ds[..n]);
    }
  }

  lemma {:induction false} InputMapLookup(ds: seq<DecisionInput>, i: nat)
    requires !RepeatsId(ds) && i < |ds|
    ensures ds[i].candidateId in InputMap(ds) && InputMap(ds)[ds[i].candidateId] == ds[i]
  {
    var n := |ds| - 1;
    if i < n {
      assert forall k :: 0 <= k < n ==> ds[..n][k] == ds[k];
      InputMapLookup(ds[..n], i);
    }
  }

  function IdsOf(cs: seq<Candidate>): set<string> {
    set c | c in cs :: c.candidateId
  }

  predicate AcceptsProposal(inputs: map<string, DecisionInput>, c: Candidate) {
    c.candidateId in inputs && inputs[c.candidateId].outcome == Accept && c.action.CreateProposal?
  }

  /** Planned proposal ids of the accepted candidates, in plan order. */
  function AcceptedIds(inputs: map<string, DecisionInput>, cs: seq<Candidate>): seq<string> {
    if cs == [] then []
    else
      var n := |cs| - 1;
      AcceptedIds(inputs, cs[..n]) + (if AcceptsProposal(inputs, cs[n]) then [cs[n].action.proposalId] else [])
  }

  ghost predicate ReservationsHold(used: set<string>, ids: seq<string>) {
    Distinct(ids) && forall i :: 0 <= i < |ids| ==> ids[i] !in used
  }

  // ------------------------------------------------------------- decisions

  function DecisionIds(d: ReviewDecision): set<string> {
    if d.reviewedCandidate.Some? then OwnProposalId(d.reviewedCandidate.value) else {}
  }

  /** Proposal ids held by the decisions' candidates. */
  function SelectedIds(ds: seq<ReviewDecision>): set<string> {
    if ds == [] then {}
    else
      var n := |ds| - 1;
      SelectedIds(ds[..n]) + DecisionIds(ds[n])
  }

  ghost function DecidedNext(
    env: Env, inv: Inventory, base: set<string>, inputs: map<string, DecisionInput>, before: seq<Candidate>,
    done: seq<ReviewDecision>, c: Candidate): Result<ReviewDecision, ReviewError>
  {
    if c.candidateId !in inputs || c.candidateId in IdsOf(before) then Failure(OmittedCandidate)
    else Decided(env, inv, base + SelectedIds(done), c, inputs[c.candidateId])
  }

  /** The decisions in plan order; the first failing one fails the review. */
  ghost function DecidedAll(
    env: Env, inv: Inventory, base: set<string>, inputs: map<string, DecisionInput>, cs: seq<Candidate>)
    : (r: Result<seq<ReviewDecision>, ReviewError>)
    ensures r.Success? ==> |r.value| == |cs|
  {
    if cs == [] then Success([])
    else
      var n := |cs| - 1;
      match DecidedAll(env, inv, base, inputs, cs[..n])
      case Failure(e) => Failure(e)
      case Success(done) =>
        match DecidedNext(env, inv, base, inputs, cs[..n], done, cs[n])
        case Failure(e) => Failure(e)
        case Success(d) => Success(done + [d])
  }

  lemma {:induction false} DecidedAt(
    env: Env, inv: Inventory, base: set<string>, inputs: map<string, DecisionInput>, cs: seq<Candidate>, i: nat)
    requires i < |cs| && DecidedAll(env, inv, base, inputs, cs).Success?
    ensures var ds := DecidedAll(env, inv, base, inputs, cs).value;
            && DecidedAll(env, inv, base, inputs, cs[..i]) == Success(ds[..i])
            && DecidedNext(env, inv, base, inputs, cs[..i], ds[..i], cs[i]) == Success(ds[i])
  {
    hide DecidedNext;
    var n := |cs| - 1;
    var ds := DecidedAll(env, inv, base, inputs, cs).value;
    if i < n {
      DecidedAt(env, inv, base, inputs, cs[..n], i);
      assert cs[..n][..i] == cs[..i] && ds[..n][..i] == ds[..i] && cs[..n][i] == cs[i];
    }
  }

  // ------------------------------------------------------------- selected candidates

  function SelectedMemories(ds: seq<ReviewDecision>): seq<Memory> {
    if ds == [] then []
    else
      var n := |ds| - 1;
      SelectedMemories(ds[..n])
      + (if ds[n].reviewedCandidate.Some? then [ds[n].reviewedCandidate.value.memory] else [])
  }

  function FirstClash(env: Env, earlier: seq<Memory>, m: Memory): Option<ReviewError> {
    if earlier == [] then None
    else if DraftKeyOf(env, earlier[0]) == DraftKeyOf(env, m) then Some(SelectedDuplicate)
    else if ConflictKeyOf(env, earlier[0]) == ConflictKeyOf(env, m) then Some(SelectedConflict)
    else FirstClash(env, earlier[1..], m)
  }

  /** `validate_selected_review_matches`. */
  function SelectedError(env: Env, ms: seq<Memory>): Option<ReviewError> {
    if ms == [] then None
    else
      var n := |ms| - 1;
      var e := SelectedError(env, ms[..n]);
      if e.Some? then e else FirstClash(env, ms[..n], ms[n])
  }

  ghost predicate SubjectsDistinct(env: Env, ms: seq<Memory>) {
    forall i, j :: 0 <= i < j < |ms| ==> ConflictKeyOf(env, ms[i]) != ConflictKeyOf(env, ms[j])
  }

  lemma {:induction false} NoClashMeaning(env: Env, earlier: seq<Memory>, m: Memory)
    ensures FirstClash(env, earlier, m).None? <==>
            forall i :: 0 <= i < |earlier| ==> ConflictKeyOf(env, earlier[i]) != ConflictKeyOf(env, m)
  {
    hide ConflictKeyOf, DraftKeyOf;
    if earlier != [] {
      NoClashMeaning(env, earlier[1..], m);
      assert forall i :: 0 < i < |earlier| ==> earlier[i] == earlier[1..][i - 1];
      if DraftKeyOf(env, earlier[0]) == DraftKeyOf(env, m) {
        ExactKeyRefinesConflictKey(env, earlier[0], m);
      }
    }
  }

  /** The scan accepts exactly the selections with pairwise different subjects; since an exact duplicate
      has the same subject, the duplicate check only decides which error is reported. */
  lemma {:induction false} SelectedErrorMeaning(env: Env, ms: seq<Memory>)
    ensures SelectedError(env, ms).None? <==> SubjectsDistinct(env, ms)
  {
    hide ConflictKeyOf, FirstClash;
    if ms != [] {
      var n := |ms| - 1;
      SelectedErrorMeaning(env, ms[..n]);
      NoClashMeaning(env, ms[..n], ms[n]);
    }
  }

  // ------------------------------------------------------------- the review

  predicate NeedsPrivacy(d: ReviewDecision) {
    d.reviewedCandidate.Some? &&
    var k := d.reviewedCandidate.value;
    k.classification.destination != Repo || k.classification.sensitivity != RepoSafe
  }

  /** `review_data_class`. */
  function ReviewDataClass(planClass: DataClass, ds: seq<ReviewDecision>): DataClass {
    if planClass == BlockedData then BlockedData
    else if planClass == PrivateData || exists i :: 0 <= i < |ds| && NeedsPrivacy(ds[i]) then PrivateData
    else RepoSafeData
  }

  function Identified(env: Env, r: Review): Review {
    r.(reviewId := env.reviewId(r.(reviewId := "")))
  }

  ghost function BaseIds(inv: Inventory, inputs: map<string, DecisionInput>, cs: seq<Candidate>): set<string> {
    inv.reservedIds + SetOf(AcceptedIds(inputs, cs))
  }

  function InputError(
    env: Env, world: World, plan: Plan, input: ReviewInput, reviewer: string, time: string): Option<ReviewError>
  {
    if !ValidActor(env, Trim(reviewer)) then Some(InvalidActor)
    else if !env.validTimestamp(Trim(time)) then Some(InvalidTimestamp)
    else if !world.planIsLive then Some(StalePlan)
    else if RepeatsId(input.decisions) then Some(DuplicateDecision)
    else if |input.decisions| != |plan.candidates| then Some(DecisionCountMismatch)
    else None
  }

  ghost function CoreDecisions(env: Env, world: World, plan: Plan, inputs: map<string, DecisionInput>)
    : Result<seq<ReviewDecision>, ReviewError>
  {
    var inv := world.inventory;
    if !ReservationsHold(inv.reservedIds, AcceptedIds(inputs, plan.candidates)) then Failure(StaleReservation)
    else
      match DecidedAll(env, inv, BaseIds(inv, inputs, plan.candidates), inputs, plan.candidates)
      case Failure(e) => Failure(e)
      case Success(ds) =>
        match SelectedError(env, SelectedMemories(ds))
        case Some(e) => Failure(e)
        case None => Success(ds)
  }

  function ReviewOf(
    env: Env, plan: Plan, input: ReviewInput, reviewer: string, time: string, ds: seq<ReviewDecision>): Review
  {
    var class_ := ReviewDataClass(plan.dataClass, ds);
    Identified(env, Review("", plan.planId, input.priorReviewId, class_, Trim(reviewer), Trim(time), ds))
  }

  ghost function BuiltCore(env: Env, world: World, plan: Plan, input: ReviewInput, reviewer: string, time: string)
    : Result<Review, ReviewError>
  {
    match InputError(env, world, plan, input, reviewer, time)
    case Some(e) => Failure(e)
    case None =>
      match CoreDecisions(env, world, plan, InputMap(input.decisions))
      case Failure(e) => Failure(e)
      case Success(ds) => Success(ReviewOf(env, plan, input, reviewer, time, ds))
  }

  // ------------------------------------------------------------- the loops of the source

  method CollectInputs(ds: seq<DecisionInput>) returns (inputs: map<string, DecisionInput>, repeated: bool)
    ensures repeated == RepeatsId(ds)
    ensures !repeated ==> inputs == InputMap(ds)
  {
    inputs := map[];
    for i := 0 to |ds|
      invariant inputs == InputMap(ds[..i]) && !RepeatsId(ds[..i])
    {
      assert ds[..i + 1][..i] == ds[..i];
      InputMapKeys(ds[..i]);
      if ds[i].candidateId in inputs {
        var j :| 0 <= j < i && ds[..i][j].candidateId == ds[i].candidateId;
        assert ds[j].candidateId == ds[i].candidateId;
        return inputs, true;
      }
      inputs := inputs[ds[i].candidateId := ds[i]];
    }
    assert ds[..|ds|] == ds;
    repeated := false;
  }

  lemma {:induction false} AcceptedIdsPrefix(inputs: map<string, DecisionInput>, cs: seq<Candidate>, i: nat)
    requires i <= |cs|
    ensures AcceptedIds(inputs, cs[..i]) <= AcceptedIds(inputs, cs)
  {
    if i < |cs| {
      var n := |cs| - 1;
      assert cs[..n][..i] == cs[..i];
      AcceptedIdsPrefix(inputs, cs[..n], i);
    } else {
      assert cs[..i] == cs;
    }
  }

  lemma ReservationsStayBroken(used: set<string>, inputs: map<string, DecisionInput>, cs: seq<Candidate>, i: nat)
    requires i < |cs| && AcceptsProposal(inputs, cs[i])
    requires cs[i].action.proposalId in used + SetOf(AcceptedIds(inputs, cs[..i]))
    ensures !ReservationsHold(used, AcceptedIds(inputs, cs))
  {
    var prefix, all := AcceptedIds(inputs, cs[..i]), AcceptedIds(inputs, cs);
    assert cs[..i + 1][..i] == cs[..i];
    AcceptedIdsPrefix(inputs, cs, i + 1);
    var id, n := cs[i].action.proposalId, |prefix|;
    assert all[n] == (prefix + [id])[n] == id;
    if id !in used {
      var k :| 0 <= k < n && prefix[k] == id;
      assert all[k] == (prefix + [id])[k] == id;
    }
  }

  method ReserveAccepted(ids: Reservations, inputs: map<string, DecisionInput>, cs: seq<Candidate>) returns (ok: bool)
    modifies ids
    ensures ok == ReservationsHold(old(ids.used), AcceptedIds(inputs, cs))
    ensures ok ==> ids.used == old(ids.used) + SetOf(AcceptedIds(inputs, cs))
  {
    ghost var start := ids.used;
    for i := 0 to |cs|
      invariant ReservationsHold(start, AcceptedIds(inputs, cs[..i]))
      invariant ids.used == start + SetOf(AcceptedIds(inputs, cs[..i]))
    {
      assert cs[..i + 1][..i] == cs[..i];
      if AcceptsProposal(inputs, cs[i]) {
        var fresh_ := ids.Insert(cs[i].action.proposalId);
        if !fresh_ {
          ReservationsStayBroken(start, inputs, cs, i);
          return false;
        }
      }
    }
    assert cs[..|cs|] == cs;
    ok := true;
  }

  method DecideOne(env: Env, inv: Inventory, ids: Reservations, c: Candidate, d: DecisionInput)
    returns (r: Result<ReviewDecision, ReviewError>)
    modifies ids
    ensures r == Decided(env, inv, old(ids.used), c, d)
    ensures r.Success? ==> ids.used == old(ids.used) + (if d.outcome == Edit then DecisionIds(r.value) else {})
  {
    hide Rebuilt, ValidReason, OwnProposalId;
    var error := DecisionError(env, c, d);
    if error.Some? {
      return Failure(error.value);
    }
    var reviewed := None;
    match d.outcome {
      case Accept => reviewed := Some(c);
      case Reject | Defer =>
      case Edit =>
        var k := RebuildEditedCandidate(env, inv, ids, c, d.memory.value, RequestedDestination(c, d), d.contentClass);
        if k.Failure? {
          return Failure(k.error);
        }
        reviewed := Some(k.value);
    }
    r := Success(ReviewDecision(c.candidateId, d.outcome, TrimReason(d.reasonCode), reviewed));
  }

  lemma {:induction false} FailureSticks(
    env: Env, inv: Inventory, base: set<string>, inputs: map<string, DecisionInput>, cs: seq<Candidate>, i: nat)
    requires i <= |cs| && DecidedAll(env, inv, base, inputs, cs[..i]).Failure?
    ensures DecidedAll(env, inv, base, inputs, cs) == DecidedAll(env, inv, base, inputs, cs[..i])
  {
    hide DecidedNext;
    if i < |cs| {
      var n := |cs| - 1;
      assert cs[..n][..i] == cs[..i];
      FailureSticks(env, inv, base, inputs, cs[..n], i);
    } else {
      assert cs[..i] == cs;
    }
  }

  /** One more decision, in terms of the set of ids and of inputs the loop keeps. */
  lemma OneMoreDecision(
    env: Env, inv: Inventory, base: set<string>, inputs: map<string, DecisionInput>, cs: seq<Candidate>, i: nat,
    done: seq<ReviewDecision>, next: Result<ReviewDecision, ReviewError>)
    requires i < |cs| && DecidedAll(env, inv, base, inputs, cs[..i]) == Success(done)
    requires next == DecidedNext(env, inv, base, inputs, cs[..i], done, cs[i])
    ensures next.Failure? ==> DecidedAll(env, inv, base, inputs, cs) == Failure(next.error)
    ensures next.Success? ==> DecidedAll(env, inv, base, inputs, cs[..i + 1]) == Success(done + [next.value])
    ensures next.Success? ==> SelectedIds(done + [next.value]) == SelectedIds(done) + DecisionIds(next.value)
    ensures IdsOf(cs[..i + 1]) == IdsOf(cs[..i]) + {cs[i].candidateId}
  {
    hide DecidedNext, DecisionIds;
    assert cs[..i + 1][..i] == cs[..i] && cs[..i + 1] == cs[..i] + [cs[i]];
    if next.Failure? {
      FailureSticks(env, inv, base, inputs, cs, i + 1);
    } else {
      assert (done + [next.value])[..|done|] == done;
    }
  }

  /** An accepted candidate's id was reserved before the decisions, so deciding it adds nothing. */
  lemma AcceptedAlreadyReserved(
    env: Env, inv: Inventory, used: set<string>, inputs: map<string, DecisionInput>, cs: seq<Candidate>, i: nat)
    requires i < |cs| && cs[i].candidateId in inputs
    requires Decided(env, inv, used, cs[i], inputs[cs[i].candidateId]).Success?
    ensures var r := Decided(env, inv, used, cs[i], inputs[cs[i].candidateId]).value;
            r.outcome == inputs[cs[i].candidateId].outcome &&
            (r.outcome != Edit ==> DecisionIds(r) <= SetOf(AcceptedIds(inputs, cs)))
  {
    hide Rebuilt, ValidReason;
    AcceptedIdsPrefix(inputs, cs, i + 1);
    var prefix := AcceptedIds(inputs, cs[..i + 1]);
    assert forall id :: id in prefix ==> id in AcceptedIds(inputs, cs) by {
      assert AcceptedIds(inputs, cs) == prefix + AcceptedIds(inputs, cs)[|prefix|..];
    }
  }

  lemma NothingDecided(env: Env, inv: Inventory, base: set<string>, inputs: map<string, DecisionInput>)
    ensures DecidedAll(env, inv, base, inputs, []) == Success([])
    ensures SelectedIds([]) == {} && IdsOf([]) == {}
  {
  }

  method DecideAll(env: Env, inv: Inventory, ids: Reservations, inputs: map<string, DecisionInput>, cs: seq<Candidate>)
    returns (r: Result<seq<ReviewDecision>, ReviewError>)
    requires SetOf(AcceptedIds(inputs, cs)) <= ids.used
    modifies ids
    ensures r == DecidedAll(env, inv, old(ids.used), inputs, cs)
  {
    hide Decided, DecidedAll, IdsOf, SelectedIds, DecisionIds, AcceptedIds, SetOf;
    ghost var base := ids.used;
    var remaining := inputs;
    var decisions: seq<ReviewDecision> := [];
    NothingDecided(env, inv, base, inputs);
    for i := 0 to |cs|
      invariant DecidedAll(env, inv, base, inputs, cs[..i]) == Success(decisions)
      invariant ids.used == base + SelectedIds(decisions)
      invariant remaining == inputs - IdsOf(cs[..i])
    {
      var c := cs[i];
      ghost var next := DecidedNext(env, inv, base, inputs, cs[..i], decisions, c);
      OneMoreDecision(env, inv, base, inputs, cs, i, decisions, next);
      if c.candidateId !in remaining {
        return Failure(OmittedCandidate);
      }
      ghost var used := ids.used;
      var d := DecideOne(env, inv, ids, c, remaining[c.candidateId]);
      assert d == next;
      if d.Failure? {
        return Failure(d.error);
      }
      AcceptedAlreadyReserved(env, inv, used, inputs, cs, i);
      remaining := remaining - {c.candidateId};
      decisions := decisions + [d.value];
    }
    assert cs[..|cs|] == cs;
    r := Success(decisions);
  }

  lemma {:induction false} ClashSticks(env: Env, ds: seq<ReviewDecision>, i: nat)
    requires i <= |ds| && SelectedError(env, SelectedMemories(ds[..i])).Some?
    ensures SelectedError(env, SelectedMemories(ds)) == SelectedError(env, SelectedMemories(ds[..i]))
  {
    hide FirstClash;
    if i < |ds| {
      var n := |ds| - 1;
      assert ds[..n][..i] == ds[..i];
      ClashSticks(env, ds[..n], i);
      var ms := SelectedMemories(ds[..n]);
      if ds[n].reviewedCandidate.Some? {
        assert (ms + [ds[n].reviewedCandidate.value.memory])[..|ms|] == ms;
      } else {
        assert ms + [] == ms;
      }
    } else {
      assert ds[..i] == ds;
    }
  }

  method ValidateSelected(env: Env, ds: seq<ReviewDecision>) returns (error: Option<ReviewError>)
    ensures error == SelectedError(env, SelectedMemories(ds))
  {
    hide DraftKeyOf, ConflictKeyOf;
    var earlier: seq<Memory> := [];
    for i := 0 to |ds|
      invariant earlier == SelectedMemories(ds[..i])
      invariant SelectedError(env, earlier).None?
    {
      assert ds[..i + 1][..i] == ds[..i];
      if ds[i].reviewedCandidate.Some? {
        var m := ds[i].reviewedCandidate.value.memory;
        assert (earlier + [m])[..|earlier|] == earlier;
        for k := 0 to |earlier|
          invariant FirstClash(env, earlier, m) == FirstClash(env, earlier[k..], m)
        {
          assert earlier[k..][0] == earlier[k] && earlier[k..][1..] == earlier[k + 1..];
          if DraftKeyOf(env, earlier[k]) == DraftKeyOf(env, m) {
            ClashSticks(env, ds, i + 1);
            return Some(SelectedDuplicate);
          }
          if ConflictKeyOf(env, earlier[k]) == ConflictKeyOf(env, m) {
            ClashSticks(env, ds, i + 1);
            return Some(SelectedConflict);
          }
        }
        earlier := earlier + [m];
      }
    }
    assert ds[..|ds|] == ds;
    error := None;
  }

  /** The source's review builder below the lineage check. */
  method BuildCore(env: Env, world: World, plan: Plan, input: ReviewInput, reviewer: string, time: string)
    returns (r: Result<Review, ReviewError>)
    ensures r == BuiltCore(env, world, plan, input, reviewer, time)
  {
    hide DecidedAll, AcceptedIds, InputMap, SelectedError, SelectedMemories, SetOf, RepeatsId, ReviewDataClass, Trim,
      ValidActor, ReservationsHold;
    if !ValidActor(env, Trim(reviewer)) {
      return Failure(InvalidActor);
    }
    if !env.validTimestamp(Trim(time)) {
      return Failure(InvalidTimestamp);
    }
    if !world.planIsLive {
      return Failure(StalePlan);
    }
    var inputs, repeated := CollectInputs(input.decisions);
    if repeated {
      return Failure(DuplicateDecision);
    }
    InputMapSize(input.decisions);
    if |inputs| != |plan.candidates| {
      return Failure(DecisionCountMismatch);
    }
    var ids := new Reservations(world.inventory.reservedIds);
    var reserved := ReserveAccepted(ids, inputs, plan.candidates);
    if !reserved {
      return Failure(StaleReservation);
    }
    var decisions := DecideAll(env, world.inventory, ids, inputs, plan.candidates);
    if decisions.Failure? {
      return Failure(decisions.error);
    }
    var clash := ValidateSelected(env, decisions.value);
    if clash.Some? {
      return Failure(clash.value);
    }
    return Success(ReviewOf(env, plan, input, reviewer, time, decisions.value));
  }
}
