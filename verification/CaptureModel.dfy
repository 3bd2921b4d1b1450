/** The entities of the capture pipeline, and the outside functions it calls. */
module CaptureModel {
  import opened Prelude
  import opened Utf8

  datatype MemoryType =
    | Fact | Preference | Decision | Procedure | Episode
    | Relationship | Warning | FailedAttempt | Risk | InstructionProjection

  datatype MemoryLane = Session | Semantic | Episodic | Procedural

  datatype MemoryDestination = Repo | Local | Session | Discard | NeedsReview

  datatype MemoryPlane = Git | Runtime

  datatype WriteRoute = FileBackedProposal | RuntimeLocal | RuntimeSession | NoWriteRoute

  datatype ReviewRequirement = ProposalReview | NoReview | HumanDecision

  datatype DestinationPolicy = DestinationPolicy(
    destination: MemoryDestination, plane: Option<MemoryPlane>, writeRoute: WriteRoute, review: ReviewRequirement)

  datatype Sensitivity =
    | RepoSafe | LocalOnly | Sensitive | Secret | RawTranscript | PrivatePersonalData | TemporaryState | Unknown

  datatype ContentClass =
    | GeneralRepoKnowledge | RawTranscript | PrivatePersonalData | ScreenOrActivityHistory | PrivateEndpoint
    | UndisclosedVulnerability | UnminimizedPrivateEvidence | TemporaryTaskState | LocalOnlyState | Unknown

  datatype ScopeKind = Personal | RepoScope | Project | Team | Org | Agent | ImportedUntrusted

  datatype Scope = Scope(kind: ScopeKind, id: Option<string>, paths: seq<string>)

  datatype Memory = Memory(
    memoryType: MemoryType, lane: MemoryLane, title: string, body: string, scope: Scope, tags: seq<string>)

  datatype Locator =
    | ProjectPath(path: string)
    | ProjectDirectory(path: string)
    | SuppliedBytes(displayName: string)
    | GitRange(repository: string, base: string, head: string)
  {
    function ProjectPathOf(): Option<string> {
      if ProjectPath? || ProjectDirectory? then Some(path) else None
    }
  }

  /** A loaded source: what was asked for, and the hash of its bytes. */
  datatype Source = Source(sourceId: string, locator: Locator, contentHash: string)

  datatype SemanticLocation =
    | Instruction
    | Adr(field: string, status: string)
    | GitChange(hunk: string, side: string)

  /** The section kinds of typed headings; each constructor stands for the source's kind string. */
  datatype SectionKind =
    | FactSection | PreferenceSection | DecisionSection | ProcedureSection | EpisodeSection | WarningSection
    | FailedAttemptSection | RiskSection | Unclassified | OtherSection(name: string)

  datatype Span = Span(byteStart: nat, byteEnd: nat, lineStart: nat, lineEnd: nat)

  datatype Evidence = Evidence(
    sourceId: string, locator: Locator, sourceContentHash: string, span: Span, contentHash: string,
    text: Option<string>, headingPath: seq<string>, sectionKind: SectionKind,
    semanticLocation: Option<SemanticLocation>)

  datatype Extractor = Extractor(kind: string, id: string, implementationDigest: string)

  /** The fixed reason codes the pipeline writes; each constructor stands for the source's code string. */
  datatype Reason =
    | NeedsReviewReason | RuntimeInventoryUnavailable
    | PossibleConflictRequiresLifecycleResolution | RuntimeInventoryUnavailableRequiresReview
    | UnrecognizedMarkdownRequiresReview | UnrecognizedMarkdownSensitivityUnknown
    | GenericMarkdownRequiresContextualReview | GenericMarkdownSensitivityUnknown
    | DeterministicTypedMarkdownSection | DeterministicTypedMarkdownProfile
    | ReviewerRequestedRepoAfterSafeguards | RetainedEvidenceWasAlreadyRepoSafe
    | RetainedEvidencePassedProhibitedContentSafeguards
    | ReviewerRequestedPrivateLocalRoute | ReviewedContentIsLocalOnly
    | ReviewerRequestedPrivateSessionRoute | ReviewedContentIsTemporaryState
    | ReviewerRequestedDiscard | ReviewPreservedOriginalSensitivity
    | OtherReason(code: string)

  datatype Classification = Classification(
    destination: MemoryDestination, destinationReason: Reason, sensitivity: Sensitivity, sensitivityReason: Reason,
    contentClass: ContentClass, policy: DestinationPolicy)

  /** The tuple hashed by `draft_key`; tags are not part of it. */
  datatype DraftKey = DraftKey(memoryType: MemoryType, lane: MemoryLane, title: string, body: string, scope: Scope)

  datatype ConflictKey = ConflictKey(
    memoryType: MemoryType, title: string, scopeKind: ScopeKind, scopeId: Option<string>)

  datatype MatchKind = CanonicalRecord | PendingProposal | RuntimeRecord | EarlierCandidate

  datatype Match = Match(
    kind: MatchKind, id: string, destination: Option<MemoryDestination>, contentKey: DraftKey,
    status: string, updatedAt: Option<string>)

  /** A proposal's file path is a fixed function of its id and is left implicit. */
  datatype Action =
    | Replay(recordId: Option<string>)
    | CreateProposal(proposalId: string)
    | CreateRuntime(route: WriteRoute)
    | Duplicate(matches: seq<Match>)
    | Conflict(matches: seq<Match>)
    | NoWrite(reasonCode: Reason)
    | Blocked(code: string)
  {
    predicate Routeable() {
      CreateProposal? || CreateRuntime?
    }
  }

  datatype Candidate = Candidate(
    claimId: string, candidateId: string, memory: Memory, evidence: seq<Evidence>, extraction: Extractor,
    confidence: real, classification: Classification, action: Action)

  datatype InventoryEntry = InventoryEntry(
    kind: MatchKind, id: string, destination: MemoryDestination, memoryType: MemoryType, lane: MemoryLane,
    title: string, body: string, scope: Scope, status: string, updatedAt: Option<string>)

  datatype Inventory = Inventory(entries: seq<InventoryEntry>, reservedIds: set<string>, runtimeAvailable: bool)

  /** Content the extractor does not support, at a line; or the plan-wide note of a missing runtime. */
  datatype Diagnostic = Unsupported(line: nat) | RuntimeInventoryMissing

  datatype PlanStatus = Ready | PlanBlocked

  datatype DataClass = RepoSafeData | PrivateData | BlockedData

  datatype Plan = Plan(planId: string, status: PlanStatus, dataClass: DataClass, candidates: seq<Candidate>)

  datatype Outcome = Accept | Reject | Edit | Defer

  datatype DecisionInput = DecisionInput(
    candidateId: string, outcome: Outcome, reasonCode: Option<string>, memory: Option<Memory>,
    requestedDestination: Option<MemoryDestination>, contentClass: Option<ContentClass>)

  datatype ReviewInput = ReviewInput(planId: string, priorReviewId: Option<string>, decisions: seq<DecisionInput>)

  datatype ReviewDecision = ReviewDecision(
    candidateId: string, outcome: Outcome, reasonCode: Option<string>, reviewedCandidate: Option<Candidate>)

  datatype Review = Review(
    reviewId: string, planId: string, priorReviewId: Option<string>, dataClass: DataClass,
    reviewedBy: string, reviewedAt: string, decisions: seq<ReviewDecision>)

  datatype ReviewError =
    | PlanNotReviewable | InputForAnotherPlan | InvalidActor | InvalidTimestamp | StalePlan
    | DuplicateDecision | DecisionCountMismatch | StaleReservation | OmittedCandidate | InvalidReasonCode
    | AcceptCannotEdit | NotRouteable | RejectCannotEdit | EditOfDuplicate | EditOfConflict | EditNeedsMemory
    | TitleAndBodyRequired | ControlCharacterInTitle | InvalidScopeId | InvalidScopePath | InvalidTag
    | ProhibitedContent
    | RepoNeedsGeneralKnowledge | SupersessionNeedsLifecycle | EvidenceNotRepoSafe | EditMustRoute
    | EditDuplicatesMemory | EditConflictsWithMemory | UnsafeRoute
    | SelectedDuplicate | SelectedConflict
    | InvalidPriorId | MissingPriorReview | InvalidPriorReview | PriorIdMismatch | PriorOfAnotherPlan
    | LineageTooLong | PriorNotReplayable | PriorDecisionOmitted | TerminalDecisionChanged

  /** Functions the pipeline calls but does not define: Unicode lower-casing, the prohibited-content
      detectors, the identity hashes, the content hash and RFC 3339 parsing. Every result below holds
      for all of them. */
  datatype Env = Env(
    lowercase: string -> string,
    prohibited: string -> bool,
    claimId: (Memory, seq<Evidence>, Extractor) -> string,
    candidateId: (string, real, Classification, Action) -> string,
    reviewId: Review -> string,
    contentHash: seq<Byte> -> string,
    validTimestamp: string -> bool)

  /** `MemoryDestination::policy`. */
  function Policy(d: MemoryDestination): DestinationPolicy {
    match d
    case Repo => DestinationPolicy(d, Some(Git), FileBackedProposal, ProposalReview)
    case Local => DestinationPolicy(d, Some(Runtime), RuntimeLocal, NoReview)
    case Session => DestinationPolicy(d, Some(Runtime), RuntimeSession, NoReview)
    case Discard => DestinationPolicy(d, None, NoWriteRoute, NoReview)
    case NeedsReview => DestinationPolicy(d, None, NoWriteRoute, HumanDecision)
  }

  /** `capture_content_class`. */
  function DefaultContentClass(d: MemoryDestination, s: Sensitivity): ContentClass {
    match s
    case RawTranscript => ContentClass.RawTranscript
    case PrivatePersonalData => ContentClass.PrivatePersonalData
    case TemporaryState => TemporaryTaskState
    case LocalOnly => LocalOnlyState
    case RepoSafe => if d == Repo then GeneralRepoKnowledge else ContentClass.Unknown
    case _ => ContentClass.Unknown
  }

  /** `preliminary_action`. */
  function PreliminaryAction(c: Classification): Action {
    match c.policy.writeRoute
    case FileBackedProposal => CreateProposal("")
    case RuntimeLocal => CreateRuntime(RuntimeLocal)
    case RuntimeSession => CreateRuntime(RuntimeSession)
    case NoWriteRoute => NoWrite(NeedsReviewReason)
  }

  /** `candidate`: a fresh candidate with its identities and preliminary action. */
  function NewCandidate(
    env: Env, memory: Memory, evidence: seq<Evidence>, extraction: Extractor, d: MemoryDestination, s: Sensitivity,
    contentClass: ContentClass, destinationReason: Reason, sensitivityReason: Reason): Candidate
  {
    var claim := env.claimId(memory, evidence, extraction);
    var classification := Classification(d, destinationReason, s, sensitivityReason, contentClass, Policy(d));
    var action := PreliminaryAction(classification);
    Candidate(claim, env.candidateId(claim, 1.0, classification, action), memory, evidence, extraction, 1.0,
              classification, action)
  }
}
