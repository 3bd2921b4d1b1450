/** Concrete reviews: two promises cannot be stronger than stated, and the theorems' hypotheses can be met. */
module ReviewExamples {
  import opened Prelude
  import opened Text
  import opened Utf8
  import opened CaptureModel
  import opened ProposalIds
  import opened Normalize
  import opened CanonicalForm
  import opened Classify
  import opened Edit
  import opened ReviewCore
  import opened ReviewLineage
  import opened ReviewTheorems
  import opened ReviewLiveness
  import opened Markdown
  import opened Extract
  import opened TypedNotes
  import opened Request
  import opened LivePlan
  import opened MarkdownReview

  const ACTOR := "a"
  const TIME := "t"

  /** Nothing is prohibited, the time parses, and lower-casing does not merge the titles below. */
  ghost predicate Permissive(env: Env) {
    && RendersReviewIds(env) && (forall s :: !env.prohibited(s)) && env.validTimestamp(TIME)
    && env.lowercase("T") != env.lowercase("T!") && env.lowercase("A") != env.lowercase("B")
  }

  function EmptyWorld(): World {
    World(Inventory([], {}, true), true)
  }

  // ------------------------------------------------------------- an empty plan

  lemma NoPriorNoError(env: Env, world: World, plan: Plan, input: ReviewInput)
    requires input.priorReviewId.None?
    ensures LineageError(env, world, plan, input, None).None?
  {
  }

  lemma LetterTrim(s: string)
    requires |s| == 1 && 'A' <= s[0] <= 'z'
    ensures Trim(s) == s
  {
    WhitespaceBelow(s[0]);
    TrimFixed(s);
  }

  lemma ActorIsValid(env: Env)
    requires Permissive(env)
    ensures ValidActor(env, Trim(ACTOR)) && env.validTimestamp(Trim(TIME))
  {
    LetterTrim(ACTOR);
    LetterTrim(TIME);
    assert !HasControl(ACTOR);
  }

  /** A plan without candidates has a review, and that review is no valid prior for any later one. */
  lemma EmptyReviewIsNoPrior(env: Env, later: ReviewInput)
    requires Permissive(env)
    ensures var plan := Plan("p", Ready, RepoSafeData, []); var input := ReviewInput("p", None, []);
            var first := BuiltReview(env, EmptyWorld(), plan, input, None, ACTOR, TIME);
            && first.Success?
            && (later.priorReviewId == Some(first.value.reviewId) ==>
                  LineageError(env, EmptyWorld(), plan, later, Some(first.value)) == Some(InvalidPriorReview))
  {
    hide BuiltCore, LineageError, Trim, ValidActor, RendersReviewIds;
    var plan := Plan("p", Ready, RepoSafeData, []);
    var input := ReviewInput("p", None, []);
    ActorIsValid(env);
    assert Deferrals([]) == [];
    DeferringEverythingSucceeds(env, EmptyWorld(), plan, ACTOR, TIME);
    NoPriorNoError(env, EmptyWorld(), plan, input);
    if later.priorReviewId == Some(BuiltReview(env, EmptyWorld(), plan, input, None, ACTOR, TIME).value.reviewId) {
      assert Trim("p") != "" by { LetterTrim("p"); }
      FirstReviewIsAValidPrior(env, EmptyWorld(), plan, input, ACTOR, TIME, later);
    }
  }

  // ------------------------------------------------------------- an edit that moves

  function Draft(title: string): Memory {
    Memory(Fact, Semantic, title, "b", Scope(RepoScope, None, []), [])
  }

  /** A candidate that waits for a reviewer, as generic Markdown does. */
  ghost predicate Waits(c: Candidate) {
    && c.classification.sensitivity == Sensitivity.Unknown && c.action == NoWrite(NeedsReviewReason)
    && forall i :: 0 <= i < |c.evidence| ==> !IsSupersession(c.evidence[i])
  }

  /** A live plan of two waiting candidates over an empty inventory. */
  ghost predicate TwoWaiting(world: World, plan: Plan) {
    && world == EmptyWorld() && plan.planId == "p" && plan.status == Ready
    && |plan.candidates| == 2 && Waits(plan.candidates[0]) && Waits(plan.candidates[1])
    && plan.candidates[0].candidateId != plan.candidates[1].candidateId
  }

  function EditTo(id: string, title: string): DecisionInput {
    DecisionInput(id, Edit, None, Some(Draft(title)), Some(Repo), Some(GeneralRepoKnowledge))
  }

  function DeferOf(id: string): DecisionInput {
    DecisionInput(id, Defer, None, None, None, None)
  }

  function FirstInput(plan: Plan): ReviewInput
    requires |plan.candidates| == 2
  {
    ReviewInput("p", None, [DeferOf(plan.candidates[0].candidateId), EditTo(plan.candidates[1].candidateId, "T")])
  }

  /** The deferred first candidate is edited now; the second decision is repeated. */
  function LaterInput(plan: Plan, prior: string): ReviewInput
    requires |plan.candidates| == 2
  {
    ReviewInput("p", Some(prior),
                [EditTo(plan.candidates[0].candidateId, "T!"), EditTo(plan.candidates[1].candidateId, "T")])
  }

  lemma TitleTrim(title: string)
    requires title in {"T", "T!"}
    ensures Trim(title) == title && !HasControl(title)
  {
    hide IsWhitespace;
    WhitespaceBelow('T');
    WhitespaceBelow('!');
    assert Trimmed("T") && Trimmed("T!");
    TrimFixed(title);
  }

  lemma DraftIsNormal(env: Env, title: string)
    requires Permissive(env) && title in {"T", "T!"}
    ensures Normalized(env, Draft(title)) == Success(Draft(title))
  {
    hide Trim, HasControl;
    TitleTrim(title);
    LetterTrim("b");
    NoneIsCanonical();
    assert TrimEach([]) == [];
  }

  lemma CharsOfTitle(title: string)
    requires title in {"T", "T!"}
    ensures SlugChars(title) == if title == "T" then "t" else "t-"
  {
    var chars := SlugChars(title);
    assert chars[0] == SlugChar('T') && (title == "T!" ==> chars[1] == SlugChar('!'));
  }

  lemma SqueezeOfTitle(chars: string)
    requires chars in {"t", "t-"}
    ensures Squeeze(chars) == chars
  {
    assert "t-"[1..] == "-" && Squeeze("-") == "-";
  }

  lemma TrimOfTitle(chars: string)
    requires chars in {"t", "t-"}
    ensures TrimDashes(chars) == "t"
  {
    assert DropLeadingDashes(chars) == chars;
    assert "t-"[..1] == "t" && DropTrailingDashes("t") == "t";
    assert DropTrailingDashes("t-") == DropTrailingDashes("t-"[..1]);
  }

  /** Both titles have the slug `t`. */
  lemma SlugIsT(title: string)
    requires title in {"T", "T!"}
    ensures Slug(title) == "t"
  {
    hide SlugChars, Squeeze, TrimDashes;
    CharsOfTitle(title);
    SqueezeOfTitle(SlugChars(title));
    TrimOfTitle(SlugChars(title));
  }

  lemma Reserved(title: string)
    requires title in {"T", "T!"}
    ensures ReservedId(title, {}) == ID_PREFIX + "t"
    ensures ReservedId(title, {ID_PREFIX + "t"}) == ID_PREFIX + "t" + "-" + "2"
  {
    hide Slug;
    SlugIsT(title);
    var base := ID_PREFIX + "t";
    assert IsLeastFree(base, {}, 1);
    LeastFreeUnique(base, {}, 1, FirstFreeFrom(base, {}, 1));
    assert Decimal(2) == "2";
    assert Numbered(base, 1) == base && Numbered(base, 2) == base + "-" + "2";
    assert |Numbered(base, 2)| != |base|;
    assert IsLeastFree(base, {base}, 2);
    LeastFreeUnique(base, {base}, 2, FirstFreeFrom(base, {base}, 1));
  }

  lemma EditIsGranted(env: Env, used: set<string>, c: Candidate, title: string)
    requires Permissive(env) && Waits(c) && title in {"T", "T!"}
    ensures var r := Decided(env, EmptyWorld().inventory, used, c, EditTo(c.candidateId, title));
            && r.Success? && r.value.candidateId == c.candidateId
            && r.value.outcome == Edit && r.value.reasonCode == None
            && r.value.reviewedCandidate.Some?
            && r.value.reviewedCandidate.value.memory == Draft(title)
            && r.value.reviewedCandidate.value.action == CreateProposal(ReservedId(title, used))
            && r.value.reviewedCandidate.value.classification.destination == Repo
            && r.value.reviewedCandidate.value.classification.contentClass == GeneralRepoKnowledge
  {
    hide Normalized, ReservedId, Trim, IsSupersession;
    DraftIsNormal(env, title);
  }

  lemma TwoDecided(
    env: Env, inv: Inventory, inputs: map<string, DecisionInput>, a: Candidate, b: Candidate, d: ReviewDecision,
    e: ReviewDecision)
    requires a.candidateId in inputs && b.candidateId in inputs && a.candidateId != b.candidateId
    requires Decided(env, inv, {}, a, inputs[a.candidateId]) == Success(d)
    requires Decided(env, inv, DecisionIds(d), b, inputs[b.candidateId]) == Success(e)
    ensures DecidedAll(env, inv, {}, inputs, [a, b]) == Success([d, e])
  {
    hide Decided, DecisionIds;
    assert [a, b][..1] == [a] && [a][..0] == [];
    assert SelectedIds([]) == {} && [d][..0] == [];
    assert SelectedIds([d]) == DecisionIds(d);
    assert {} + SelectedIds([]) == {} && {} + SelectedIds([d]) == DecisionIds(d);
    assert [a][..0] == [] && IdsOf([]) == {} && DecidedAll(env, inv, {}, inputs, []) == Success([]);
    assert DecidedNext(env, inv, {}, inputs, [], [], a) == Success(d);
    assert [] + [d] == [d] && [d] + [e] == [d, e];
    assert DecidedAll(env, inv, {}, inputs, [a]) == Success([d]);
    assert IdsOf([a]) == {a.candidateId};
    assert DecidedNext(env, inv, {}, inputs, [a], [d], b) == Success(e);
  }

  lemma TwoInputs(a: DecisionInput, b: DecisionInput)
    requires a.candidateId != b.candidateId
    ensures !RepeatsId([a, b]) && InputMap([a, b]) == map[a.candidateId := a, b.candidateId := b]
  {
    assert [a, b][..1] == [a] && [a][..0] == [];
    assert InputMap([a]) == map[a.candidateId := a];
  }

  lemma NothingAccepted(inputs: map<string, DecisionInput>, a: Candidate, b: Candidate)
    requires !AcceptsProposal(inputs, a) && !AcceptsProposal(inputs, b)
    ensures AcceptedIds(inputs, [a, b]) == [] && SetOf([]) == {}
  {
    assert [a, b][..1] == [a] && [a][..0] == [];
    assert AcceptedIds(inputs, [a]) == [];
  }

  /** The decisions on the two waiting candidates, from what each is decided to be. */
  lemma CoreOfTwo(env: Env, plan: Plan, input: ReviewInput, d: ReviewDecision, e: ReviewDecision)
    requires Permissive(env) && TwoWaiting(EmptyWorld(), plan) && |input.decisions| == 2
    requires input.decisions[0].candidateId == plan.candidates[0].candidateId
    requires input.decisions[1].candidateId == plan.candidates[1].candidateId
    requires input.decisions[0].outcome != Accept && input.decisions[1].outcome == Edit
    requires Decided(env, EmptyWorld().inventory, {}, plan.candidates[0], input.decisions[0]) == Success(d)
    requires Decided(env, EmptyWorld().inventory, DecisionIds(d), plan.candidates[1], input.decisions[1]) == Success(e)
    requires SelectedError(env, SelectedMemories([d, e])).None?
    ensures var r := BuiltCore(env, EmptyWorld(), plan, input, ACTOR, TIME);
            r.Success? && r.value.decisions == [d, e]
  {
    hide Decided, DecisionIds, DecidedAll, InputMap, ValidActor, Trim, AcceptedIds, SelectedError, SelectedMemories,
      ReviewDataClass, Waits;
    var inv, inputs, cs := EmptyWorld().inventory, InputMap(input.decisions), plan.candidates;
    var a, b := input.decisions[0], input.decisions[1];
    assert input.decisions == [a, b] && cs == [cs[0], cs[1]];
    TwoInputs(a, b);
    NothingAccepted(inputs, cs[0], cs[1]);
    assert BaseIds(inv, inputs, cs) == {};
    TwoDecided(env, inv, inputs, cs[0], cs[1], d, e);
    ActorIsValid(env);
  }

  lemma TwoSubjects(env: Env, d: ReviewDecision, e: ReviewDecision)
    requires Permissive(env)
    requires e.reviewedCandidate.Some? && e.reviewedCandidate.value.memory == Draft("T")
    requires d.reviewedCandidate.Some? ==> d.reviewedCandidate.value.memory == Draft("T!")
    ensures SelectedError(env, SelectedMemories([d, e])).None?
  {
    hide Trim;
    assert [d, e][..1] == [d] && [d][..0] == [];
    assert SelectedMemories([d]) == if d.reviewedCandidate.Some? then [Draft("T!")] else [];
    var ms := SelectedMemories([d, e]);
    assert ms == if d.reviewedCandidate.Some? then [Draft("T!"), Draft("T")] else [Draft("T")];
    TitleTrim("T");
    TitleTrim("T!");
    assert ConflictKeyOf(env, Draft("T")) != ConflictKeyOf(env, Draft("T!"));
    SelectedErrorMeaning(env, ms);
  }

  /** A later review moves an edit: the prior one edits the second candidate to the title `T`; the later one
      repeats that, and edits the first, until then deferred, to `T!`, which has the same slug. */
  ghost predicate Moved(env: Env, world: World, plan: Plan, prior: Review, later: Review)
    requires |plan.candidates| == 2
  {
    && BuiltReview(env, world, plan, FirstInput(plan), None, ACTOR, TIME) == Success(prior)
    && BuiltReview(env, world, plan, LaterInput(plan, prior.reviewId), Some(prior), ACTOR, TIME) == Success(later)
    && |prior.decisions| == |later.decisions| == 2
    && prior.decisions[1].outcome == later.decisions[1].outcome == Edit
    && SelectsProposal(prior.decisions[1]) && SelectsProposal(later.decisions[1])
    && prior.decisions[1].reviewedCandidate.value.action.proposalId == ID_PREFIX + "t"
    && later.decisions[1].reviewedCandidate.value.action.proposalId == ID_PREFIX + "t" + "-" + "2"
  }

  lemma PermissiveRenders(env: Env)
    requires Permissive(env)
    ensures RendersReviewIds(env)
  {
  }

  lemma DeferIsDecided(env: Env, c: Candidate)
    ensures Decided(env, EmptyWorld().inventory, {}, c, DeferOf(c.candidateId))
            == Success(ReviewDecision(c.candidateId, Defer, None, None))
    ensures DecisionIds(ReviewDecision(c.candidateId, Defer, None, None)) == {}
  {
    hide Rebuilt, Trim;
  }

  lemma RepeatedIsTerminal(deferred: ReviewDecision, edited: ReviewDecision, first: string, next: ReviewInput)
    requires deferred.outcome == Defer && edited.outcome == Edit && edited.candidateId != first
    requires edited.reasonCode == None && edited.reviewedCandidate.Some?
    requires var k := edited.reviewedCandidate.value;
             && k.memory == Draft("T") && k.classification.destination == Repo
             && k.classification.contentClass == GeneralRepoKnowledge
    requires next.decisions == [EditTo(first, "T!"), EditTo(edited.candidateId, "T")]
    ensures TerminalError([deferred, edited], InputMap(next.decisions)).None?
  {
    hide Trim;
    TwoInputs(EditTo(first, "T!"), EditTo(edited.candidateId, "T"));
    assert [deferred, edited][1..] == [edited] && [edited][1..] == [];
    assert AsInput(edited) == EditTo(edited.candidateId, "T");
    var inputs := InputMap(next.decisions);
    assert inputs[edited.candidateId] == EditTo(edited.candidateId, "T");
    assert TerminalError([], inputs).None?;
    assert TerminalError([edited], inputs).None?;
  }

  lemma EditMoves(env: Env, plan: Plan) returns (prior: Review, later: Review)
    requires Permissive(env) && TwoWaiting(EmptyWorld(), plan)
    ensures Moved(env, EmptyWorld(), plan, prior, later)
  {
    hide Decided, BuiltCore, LineageError, Trim, ReservedId, Permissive, InputMap, RendersReviewIds, TerminalError,
      Waits;
    assert RendersReviewIds(env) by { PermissiveRenders(env); }
    var inv, a, b, first := EmptyWorld().inventory, plan.candidates[0], plan.candidates[1], FirstInput(plan);
    Reserved("T");
    Reserved("T!");
    DeferIsDecided(env, a);
    var deferred := Decided(env, inv, {}, a, DeferOf(a.candidateId)).value;
    EditIsGranted(env, {}, b, "T");
    var edited := Decided(env, inv, {}, b, EditTo(b.candidateId, "T")).value;
    TwoSubjects(env, deferred, edited);
    CoreOfTwo(env, plan, first, deferred, edited);
    NoPriorNoError(env, EmptyWorld(), plan, first);
    prior := BuiltReview(env, EmptyWorld(), plan, first, None, ACTOR, TIME).value;
    var next := LaterInput(plan, prior.reviewId);
    EditIsGranted(env, {}, a, "T!");
    var newly := Decided(env, inv, {}, a, EditTo(a.candidateId, "T!")).value;
    assert DecisionIds(newly) == {ID_PREFIX + "t"};
    EditIsGranted(env, {ID_PREFIX + "t"}, b, "T");
    var moved := Decided(env, inv, {ID_PREFIX + "t"}, b, EditTo(b.candidateId, "T")).value;
    TwoSubjects(env, newly, moved);
    CoreOfTwo(env, plan, next, newly, moved);
    assert Trim("p") != "" by { LetterTrim("p"); }
    FirstReviewIsAValidPrior(env, EmptyWorld(), plan, first, ACTOR, TIME, next);
    RepeatedIsTerminal(deferred, edited, a.candidateId, next);
    later := BuiltReview(env, EmptyWorld(), plan, next, Some(prior), ACTOR, TIME).value;
  }

  // ------------------------------------------------------------- on a plan of a file

  const NOTES_PATH := "n.md"

  function NotesRequest(): SourceRequest {
    SourceRequest("s", ProjectPath(NOTES_PATH), MARKDOWN_MEDIA, false)
  }

  /** A file of two facts, titled `A` and `B`, nothing in the inventory, and no origin known. */
  function NotesState(): State {
    State(EmptyWorld().inventory, Some(TwoFacts("A", "B")), Extractor("", "", ""), _ => Unseen)
  }

  ghost function NotesPlan(env: Env): Option<MarkdownPlan> {
    Planned(env, NotesState(), NotesRequest(), "p")
  }

  lemma NotesTitles()
    ensures CleanTitle("A") && CleanTitle("B") && !HasControl("A") && !HasControl("B")
    ensures Trim("A") == "A" && Trim("B") == "B"
  {
    hide IsWhitespace;
    WhitespaceBelow('A');
    WhitespaceBelow('B');
    TrimFixed("A");
    TrimFixed("B");
  }

  lemma NotesAreSafe(env: Env)
    requires Permissive(env)
    ensures SafeText(env, TwoFacts("A", "B"))
  {
    assert '\0' !in Hashes(1);
    assert '\0' !in FactHead("A") && '\0' !in FactHead("B");
  }

  lemma NotesAdmitted(env: Env)
    requires Permissive(env)
    ensures MarkdownRequestError(env, NotesRequest()).None? && !BeginsBlank(NotesRequest())
  {
    assert NOTES_PATH == "n" + ".md";
    SimplePathIsAdmitted(env, "n");
    WhitespaceBelow('n');
  }

  /** Two facts with different subjects still wait when they are classified. */
  lemma FactsStillWait(env: Env, source: Source, cs: seq<Candidate>)
    requires Permissive(env) && |cs| == 2 && WaitingFact(source, "A", cs[0]) && WaitingFact(source, "B", cs[1])
    ensures var out := ClassifiedAll(env, EmptyWorld().inventory, cs);
            && |out| == 2 && Waits(out[0]) && Waits(out[1])
            && out[0].memory == cs[0].memory && out[1].memory == cs[1].memory
            && out[0].evidence == cs[0].evidence && out[1].evidence == cs[1].evidence
  {
    hide ClassifiedAll, MatchOf, Trim, DefaultScope;
    var inv := EmptyWorld().inventory;
    var out := ClassifiedAll(env, inv, cs);
    NotesTitles();
    ClassifiedMeaning(env, inv, cs, 0);
    assert forall e :: !SeenBefore(inv, out, 0, e);
    ClassifiedMeaning(env, inv, cs, 1);
    forall e | SeenBefore(inv, out, 1, e)
      ensures !SameSubject(env, cs[1].memory, e) && !SameDraft(env, cs[1].memory, e)
    {
      assert e == EarlierEntry(out[0]) && out[0].memory == cs[0].memory;
    }
    assert Waits(out[0]) && Waits(out[1]);
  }

  lemma NotesReviewable(env: Env, m: Memory, title: string)
    requires Permissive(env) && m.title == title && m.body == "x" && title in {"A", "B"}
    ensures m.title != "" && m.body != "" && !HasControl(m.title) && !env.prohibited(m.title + "\n" + m.body)
  {
    NotesTitles();
  }

  lemma PlannedIdentity(env: Env, st: State, request: SourceRequest, planId: string)
    requires Planned(env, st, request, planId).Some?
    ensures var p := Planned(env, st, request, planId).value; p.plan.planId == planId && p.plan.status == Ready
  {
    hide DerivedFrom, MarkdownRequestError, SafeText;
  }

  /** The file is planned as two waiting candidates, and its plan is live. */
  lemma NotesAreLive(env: Env)
    requires Permissive(env)
    ensures NotesPlan(env).Some?
    ensures var p := NotesPlan(env).value;
            && IsLive(env, NotesState(), p) && p.plan.planId == "p" && p.plan.status == Ready
            && |p.plan.candidates| == 2 && Waits(p.plan.candidates[0]) && Waits(p.plan.candidates[1])
  {
    hide Extracted, MarkdownRequestError, SafeText, ClassifiedAll, IsLive, TwoFacts, Permissive, Waits, HasControl,
      Encode, BeginsBlank, WithOrigins, DerivedFrom;
    var st, request, text := NotesState(), NotesRequest(), TwoFacts("A", "B");
    var source := LoadedSource(env, request, text);
    NotesTitles();
    NotesAreSafe(env);
    NotesAdmitted(env);
    TwoFactsExtracted(env, source, st.extractor, "A", "B");
    var x := Extracted(env, source, text, st.extractor).value;
    assert NothingSeen(env, st, request);
    PlanOfUnseen(env, st, request, "p");
    FactsStillWait(env, source, x.candidates);
    var p := NotesPlan(env).value;
    PlannedIdentity(env, st, request, "p");
    NotesReviewable(env, p.plan.candidates[0].memory, "A");
    NotesReviewable(env, p.plan.candidates[1].memory, "B");
    FreshPlanIsLive(env, st, request, "p");
  }

  /** A later review may move an edit: on the plan of a two-fact file, live and made by the planner. */
  lemma EditMayMove(env: Env) returns (prior: Review, later: Review)
    requires Permissive(env)
    requires NotesPlan(env).Some? && CollisionFree(env, NotesPlan(env).value.plan.candidates)
    ensures |NotesPlan(env).value.plan.candidates| == 2
    ensures var p := NotesPlan(env).value; Moved(env, WorldOf(env, NotesState(), p), p.plan, prior, later)
  {
    hide Planned, IsLive, Waits, Permissive, Moved, CollisionFree, TwoFacts;
    NotesAreLive(env);
    PlannedIdsDistinct(env, NotesState(), NotesRequest(), "p");
    prior, later := EditMoves(env, NotesPlan(env).value.plan);
  }

  lemma NotesCollisionFree(env: Env)
    requires Permissive(env) && NotesPlan(env).Some? && |NotesPlan(env).value.plan.candidates| == 2
    requires forall m, e: seq<Evidence>, x :: e != [] ==> env.claimId(m, e, x) == Decimal(e[0].span.byteStart)
    requires forall c, r, k, a :: env.candidateId(c, r, k, a) == c
    ensures CollisionFree(env, NotesPlan(env).value.plan.candidates)
  {
    hide Planned, Extracted, ClassifiedAll, WithOrigins, DerivedFrom, SafeText, MarkdownRequestError, Encode, TwoFacts;
    var st, request := NotesState(), NotesRequest();
    var x := PlannedParts(env, st, request, "p");
    var source := LoadedSource(env, request, st.text.value);
    var cs := NotesPlan(env).value.plan.candidates;
    PlannedContent(env, st, x.candidates, 0);
    PlannedContent(env, st, x.candidates, 1);
    ExtractedBy(env, source, st.text.value, st.extractor, x.candidates[0]);
    ExtractedBy(env, source, st.text.value, st.extractor, x.candidates[1]);
    ExtractedStartsDiffer(env, source, st.text.value, st.extractor, 0, 1);
    if Decimal(cs[0].evidence[0].span.byteStart) == Decimal(cs[1].evidence[0].span.byteStart) {
      DecimalInjective(cs[0].evidence[0].span.byteStart, cs[1].evidence[0].span.byteStart);
    }
  }

  /** Those hypotheses can be met: with an identity hash that writes out where the evidence starts. */
  lemma EnvironmentExists() returns (env: Env)
    ensures Permissive(env) && NotesPlan(env).Some? && CollisionFree(env, NotesPlan(env).value.plan.candidates)
  {
    hide Planned, ClassifiedAll, Waits, IsLive;
    var id := REVIEW_PREFIX + seq(DIGEST_HEX_LENGTH, _ => '0');
    var claim := (m: Memory, e: seq<Evidence>, x: Extractor) => if e == [] then "" else Decimal(e[0].span.byteStart);
    env := Env(s => s, _ => false, claim, (c, _, _, _) => c, _ => id, _ => "", _ => true);
    assert ValidReviewId(id);
    assert |"T"| != |"T!"| && "A"[0] != "B"[0];
    NotesAreLive(env);
    NotesCollisionFree(env);
  }
}
