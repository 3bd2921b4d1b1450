/** One reviewer decision: accept, reject, defer, or rebuild an edited candidate. */
module Edit {
  import opened Prelude
  import opened Text
  import opened Utf8
  import opened CaptureModel
  import opened Normalize
  import opened Sorting
  import opened ProposalIds
  import opened Classify

  const MAX_REASON_BYTES := 128

  // ------------------------------------------------------------- edited candidates

  predicate IsSupersession(e: Evidence) {
    e.semanticLocation.Some? && e.semanticLocation.value.Adr? && e.semanticLocation.value.field == "supersession"
  }

  datatype EditRoute = EditRoute(sensitivity: Sensitivity, destinationReason: Reason, sensitivityReason: Reason)

  /** Which destinations an edit may request, and the sensitivity it then carries. */
  function RouteOfEdit(original: Candidate, destination: MemoryDestination, contentClass: Option<ContentClass>)
    : Result<EditRoute, ReviewError>
  {
    match destination
    case Repo =>
      if contentClass != Some(GeneralRepoKnowledge) then Failure(RepoNeedsGeneralKnowledge)
      else if exists i :: 0 <= i < |original.evidence| && IsSupersession(original.evidence[i]) then
        Failure(SupersessionNeedsLifecycle)
      else if original.classification.sensitivity !in {RepoSafe, Sensitivity.Unknown} then Failure(EvidenceNotRepoSafe)
      else
        Success(EditRoute(RepoSafe, ReviewerRequestedRepoAfterSafeguards,
                          if original.classification.sensitivity == RepoSafe then RetainedEvidenceWasAlreadyRepoSafe
                          else RetainedEvidencePassedProhibitedContentSafeguards))
    case Local => Success(EditRoute(LocalOnly, ReviewerRequestedPrivateLocalRoute, ReviewedContentIsLocalOnly))
    case Session =>
      Success(EditRoute(TemporaryState, ReviewerRequestedPrivateSessionRoute, ReviewedContentIsTemporaryState))
    case Discard =>
      Success(EditRoute(original.classification.sensitivity, ReviewerRequestedDiscard,
                        ReviewPreservedOriginalSensitivity))
    case NeedsReview => Failure(EditMustRoute)
  }

  function EditedDraft(
    env: Env, original: Candidate, memory: Memory, destination: MemoryDestination, contentClass: Option<ContentClass>,
    route: EditRoute): Candidate
  {
    var cls := if contentClass.Some? then contentClass.value else DefaultContentClass(destination, route.sensitivity);
    NewCandidate(env, memory, original.evidence, original.extraction, destination, route.sensitivity, cls,
                 route.destinationReason, route.sensitivityReason)
  }

  /** The last check of `rebuild_edited_candidate`: the action must be the one the destination asks for. */
  function RouteGranted(c: Candidate, destination: MemoryDestination): Result<Candidate, ReviewError> {
    if || (c.action.CreateProposal? && destination == Repo)
       || (c.action.CreateRuntime? && destination in {Local, MemoryDestination.Session})
       || (c.action.NoWrite? && destination == Discard) then Success(c)
    else if c.action.Duplicate? then Failure(EditDuplicatesMemory)
    else if c.action.Conflict? then Failure(EditConflictsWithMemory)
    else Failure(UnsafeRoute)
  }

  ghost function Rebuilt(
    env: Env, inv: Inventory, used: set<string>, original: Candidate, memory: Memory, destination: MemoryDestination,
    contentClass: Option<ContentClass>): Result<Candidate, ReviewError>
  {
    match Normalized(env, memory)
    case Failure(e) => Failure(e)
    case Success(m) =>
      if env.prohibited(m.title + "\n" + m.body) then Failure(ProhibitedContent)
      else
        match RouteOfEdit(original, destination, contentClass)
        case Failure(e) => Failure(e)
        case Success(route) =>
          var draft := EditedDraft(env, original, m, destination, contentClass, route);
          RouteGranted(Classified(env, inv.runtimeAvailable, inv.entries, used, draft), destination)
  }

  method RebuildEditedCandidate(
    env: Env, inv: Inventory, ids: Reservations, original: Candidate, memory: Memory, destination: MemoryDestination,
    contentClass: Option<ContentClass>) returns (r: Result<Candidate, ReviewError>)
    modifies ids
    ensures r == Rebuilt(env, inv, old(ids.used), original, memory, destination, contentClass)
    ensures r.Success? ==> ids.used == old(ids.used) + OwnProposalId(r.value)
  {
    hide Normalized, Classified, RouteOfEdit;
    var normal := NormalizeReviewedMemory(env, memory);
    if normal.Failure? {
      return Failure(normal.error);
    }
    if env.prohibited(normal.value.title + "\n" + normal.value.body) {
      return Failure(ProhibitedContent);
    }
    var route := RouteOfEdit(original, destination, contentClass);
    if route.Failure? {
      return Failure(route.error);
    }
    var draft := EditedDraft(env, original, normal.value, destination, contentClass, route.value);
    var reviewed := ClassifyCandidate(env, inv.entries, draft, ids, inv.runtimeAvailable);
    r := RouteGranted(reviewed, destination);
  }

  /** What an edit needs to be granted: a draft that normalises, passes the scan and may take the route, a
      subject no inventory entry has, and the runtime for a private route. The ids in use play no part. */
  ghost predicate EditGranted(
    env: Env, inv: Inventory, original: Candidate, memory: Memory, destination: MemoryDestination,
    contentClass: Option<ContentClass>)
  {
    && Normalized(env, memory).Success?
    && var m := Normalized(env, memory).value;
       && !env.prohibited(m.title + "\n" + m.body)
       && RouteOfEdit(original, destination, contentClass).Success?
       && (destination in {Local, MemoryDestination.Session} ==> inv.runtimeAvailable)
       && forall e :: e in inv.entries ==> !SameSubject(env, m, e)
  }

  /** An edit is granted if and only if those conditions hold. */
  lemma EditGrantedIff(
    env: Env, inv: Inventory, used: set<string>, original: Candidate, memory: Memory, destination: MemoryDestination,
    contentClass: Option<ContentClass>)
    ensures Rebuilt(env, inv, used, original, memory, destination, contentClass).Success?
            <==> EditGranted(env, inv, original, memory, destination, contentClass)
  {
    hide Normalized, ReservedId, Matches, SameSubject, SameDraft, IsSupersession, Sort;
    if Normalized(env, memory).Success? {
      var m := Normalized(env, memory).value;
      MatchesMeaning(env, ExactDraft, inv.entries, m);
      MatchesMeaning(env, SubjectOnly, inv.entries, m);
      DraftMatchIsSubjectMatch(env, inv.entries, m);
    }
  }

  /** What a granted edit is: the normalised draft on the original evidence, at the requested destination
      and class, colliding with no inventory entry, with a fresh proposal id or an available runtime. */
  lemma EditMeaning(
    env: Env, inv: Inventory, used: set<string>, original: Candidate, memory: Memory, destination: MemoryDestination,
    contentClass: Option<ContentClass>)
    requires Rebuilt(env, inv, used, original, memory, destination, contentClass).Success?
    ensures var k := Rebuilt(env, inv, used, original, memory, destination, contentClass).value;
            && Normalized(env, memory) == Success(k.memory)
            && k.evidence == original.evidence && k.extraction == original.extraction
            && k.classification.destination == destination != NeedsReview
            && k.classification.policy == Policy(destination)
            && (contentClass.Some? ==> k.classification.contentClass == contentClass.value)
            && (destination == Repo ==>
                  && k.action == CreateProposal(ReservedId(k.memory.title, used))
                  && k.classification.contentClass == GeneralRepoKnowledge
                  && k.classification.sensitivity == RepoSafe)
            && (destination == Local ==> k.action == CreateRuntime(RuntimeLocal) && inv.runtimeAvailable)
            && (destination == MemoryDestination.Session ==>
                  k.action == CreateRuntime(RuntimeSession) && inv.runtimeAvailable)
            && (destination == Discard ==> k.action == NoWrite(NeedsReviewReason))
            && (forall e :: e in inv.entries ==> !SameSubject(env, k.memory, e))
  {
    hide Normalized, ReservedId, Matches, SameSubject, SameDraft, IsSupersession;
    var m := Normalized(env, memory).value;
    var draft := EditedDraft(env, original, m, destination, contentClass,
                             RouteOfEdit(original, destination, contentClass).value);
    MatchesMeaning(env, ExactDraft, inv.entries, m);
    MatchesMeaning(env, SubjectOnly, inv.entries, m);
  }

  /** Rebuilding from the rebuilt candidate's own draft, destination and class gives it again. */
  lemma RebuildReplays(
    env: Env, inv: Inventory, used: set<string>, original: Candidate, memory: Memory, destination: MemoryDestination,
    contentClass: Option<ContentClass>)
    requires Rebuilt(env, inv, used, original, memory, destination, contentClass).Success?
    ensures var r := Rebuilt(env, inv, used, original, memory, destination, contentClass);
            Rebuilt(env, inv, used, original, r.value.memory, r.value.classification.destination,
                    Some(r.value.classification.contentClass)) == r
  {
    hide Normalized, ReservedId, Matches, SameSubject, IsSupersession;
    EditMeaning(env, inv, used, original, memory, destination, contentClass);
    NormalizeIdempotent(env, memory);
    var k := Rebuilt(env, inv, used, original, memory, destination, contentClass).value;
    assert RouteOfEdit(original, destination, Some(k.classification.contentClass))
           == RouteOfEdit(original, destination, contentClass);
  }

  // ------------------------------------------------------------- one decision

  predicate IsReasonChar(c: char) {
    IsAsciiAlphanumeric(c) || c in {'-', '_', '.'}
  }

  /** `validate_reason_code`, which trims on its own. */
  predicate ValidReason(env: Env, reason: Option<string>) {
    reason.None? ||
    var r := Trim(reason.value);
    && r != "" && ByteLen(r) <= MAX_REASON_BYTES
    && (forall i :: 0 <= i < |r| ==> IsReasonChar(r[i]))
    && !env.prohibited(r)
  }

  function TrimReason(reason: Option<string>): Option<string> {
    if reason.Some? then Some(Trim(reason.value)) else None
  }

  lemma TrimReasonTwice(reason: Option<string>)
    ensures TrimReason(TrimReason(reason)) == TrimReason(reason)
  {
    if reason.Some? {
      TrimFixed(Trim(reason.value));
    }
  }

  predicate HasEdits(d: DecisionInput) {
    d.memory.Some? || d.requestedDestination.Some? || d.contentClass.Some?
  }

  function RequestedDestination(c: Candidate, d: DecisionInput): MemoryDestination {
    if d.requestedDestination.Some? then d.requestedDestination.value else c.classification.destination
  }

  /** Everything but the rebuilding of an edit. */
  function DecisionError(env: Env, c: Candidate, d: DecisionInput): Option<ReviewError> {
    if !ValidReason(env, TrimReason(d.reasonCode)) then Some(InvalidReasonCode)
    else
      match d.outcome
      case Accept =>
        if HasEdits(d) then Some(AcceptCannotEdit)
        else if !c.action.Replay? && !c.action.Routeable() then Some(NotRouteable)
        else None
      case Reject | Defer => if HasEdits(d) then Some(RejectCannotEdit) else None
      case Edit =>
        if c.action.Duplicate? then Some(EditOfDuplicate)
        else if c.action.Conflict? then Some(EditOfConflict)
        else if d.memory.None? then Some(EditNeedsMemory)
        else None
  }

  ghost function Decided(env: Env, inv: Inventory, used: set<string>, c: Candidate, d: DecisionInput)
    : Result<ReviewDecision, ReviewError>
  {
    var reason := TrimReason(d.reasonCode);
    match DecisionError(env, c, d)
    case Some(e) => Failure(e)
    case None =>
      match d.outcome
      case Accept => Success(ReviewDecision(c.candidateId, Accept, reason, Some(c)))
      case Reject | Defer => Success(ReviewDecision(c.candidateId, d.outcome, reason, None))
      case Edit =>
        match Rebuilt(env, inv, used, c, d.memory.value, RequestedDestination(c, d), d.contentClass)
        case Failure(e) => Failure(e)
        case Success(k) => Success(ReviewDecision(c.candidateId, Edit, reason, Some(k)))
  }

  /** `review_decision_as_input`; its error case, an edit without a candidate, is excluded by the caller. */
  function AsInput(d: ReviewDecision): DecisionInput {
    if d.outcome == Edit && d.reviewedCandidate.Some? then
      var k := d.reviewedCandidate.value;
      DecisionInput(d.candidateId, Edit, d.reasonCode, Some(k.memory), Some(k.classification.destination),
                    Some(k.classification.contentClass))
    else DecisionInput(d.candidateId, d.outcome, d.reasonCode, None, None, None)
  }

  /** What a decision needs to succeed; again independent of the ids in use. */
  ghost predicate Decidable(env: Env, inv: Inventory, c: Candidate, d: DecisionInput) {
    && DecisionError(env, c, d).None?
    && (d.outcome == Edit ==> EditGranted(env, inv, c, d.memory.value, RequestedDestination(c, d), d.contentClass))
  }

  lemma DecidableIff(env: Env, inv: Inventory, used: set<string>, c: Candidate, d: DecisionInput)
    ensures Decided(env, inv, used, c, d).Success? <==> Decidable(env, inv, c, d)
  {
    hide Rebuilt, EditGranted, ValidReason;
    if DecisionError(env, c, d).None? && d.outcome == Edit {
      EditGrantedIff(env, inv, used, c, d.memory.value, RequestedDestination(c, d), d.contentClass);
    }
  }

  /** A decision turned back into an input is decided the same way again. */
  lemma DecisionReplays(env: Env, inv: Inventory, used: set<string>, c: Candidate, d: DecisionInput)
    requires Decided(env, inv, used, c, d).Success?
    ensures var r := Decided(env, inv, used, c, d);
            Decided(env, inv, used, c, AsInput(r.value)) == r
  {
    hide Rebuilt, Trim, IsReasonChar;
    TrimReasonTwice(d.reasonCode);
    if d.outcome == Edit {
      RebuildReplays(env, inv, used, c, d.memory.value, RequestedDestination(c, d), d.contentClass);
    }
  }
}
