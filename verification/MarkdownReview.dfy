/** Reviews of Markdown plans, with the live check made and not assumed. */
module MarkdownReview {
  import opened Prelude
  import opened Text
  import opened Utf8
  import opened CaptureModel
  import opened Markdown
  import opened Sections
  import opened Extract
  import opened Request
  import opened Classify
  import opened CanonicalForm
  import opened TypedNotes
  import opened ReviewCore
  import opened ReviewLineage
  import opened ReviewLiveness
  import opened Validate
  import opened LivePlan

  ghost function WorldOf(env: Env, st: State, p: MarkdownPlan): World {
    World(st.inventory, IsLive(env, st, p))
  }

  /** The review builder on a Markdown plan, live check included. */
  method ReviewMarkdown(
    env: Env, st: State, p: MarkdownPlan, input: ReviewInput, prior: Option<Review>, reviewer: string, time: string)
    returns (r: Result<Review, ReviewError>)
    ensures r == BuiltReview(env, WorldOf(env, st, p), p.plan, input, prior, reviewer, time)
  {
    hide IsLive, BuiltReview;
    var live := CheckLive(env, st, p);
    r := BuildCaptureReview(env, World(st.inventory, live), p.plan, input, prior, reviewer, time);
  }

  // ------------------------------------------------------------- candidate ids of a fresh plan

  /** What a candidate's claim id hashes. */
  predicate SameClaim(c: Candidate, d: Candidate) {
    c.memory == d.memory && c.evidence == d.evidence && c.extraction == d.extraction
  }

  /** What its candidate id hashes. */
  predicate SameIdentity(c: Candidate, d: Candidate) {
    && c.claimId == d.claimId && c.confidence == d.confidence
    && c.classification == d.classification && c.action == d.action
  }

  function ClaimIdOf(env: Env, c: Candidate): string {
    env.claimId(c.memory, c.evidence, c.extraction)
  }

  function CandidateIdOf(env: Env, c: Candidate): string {
    env.candidateId(c.claimId, c.confidence, c.classification, c.action)
  }

  /** The identity hashes do not collide on these candidates. */
  ghost predicate CollisionFree(env: Env, cs: seq<Candidate>) {
    forall i, j :: 0 <= i < j < |cs| ==>
      && (ClaimIdOf(env, cs[i]) == ClaimIdOf(env, cs[j]) ==> SameClaim(cs[i], cs[j]))
      && (CandidateIdOf(env, cs[i]) == CandidateIdOf(env, cs[j]) ==> SameIdentity(cs[i], cs[j]))
  }

  lemma {:induction false} ByteLenGrows(text: string, i: nat, j: nat)
    requires i < j <= |text|
    ensures ByteLen(text[..i]) < ByteLen(text[..j])
  {
    assert text[..j] == text[..i] + text[i..j];
    EncodeConcat(text[..i], text[i..j]);
  }

  /** The section behind the `a`-th candidate. */
  lemma {:induction false} SectionOfCandidate(
    env: Env, source: Source, text: string, extractor: Extractor, ss: seq<Section>, n: nat, a: nat) returns (i: nat)
    requires AllInText(text, ss) && n <= |ss| && a < |SectionCandidates(env, source, text, extractor, ss, n)|
    ensures i < n && InText(text, ss[i])
    ensures SectionCandidate(env, source, text, extractor, ss[i])
            == [SectionCandidates(env, source, text, extractor, ss, n)[a]]
    ensures a == |SectionCandidates(env, source, text, extractor, ss, i)|
  {
    hide SectionCandidate, InText;
    if a < |SectionCandidates(env, source, text, extractor, ss, n - 1)| {
      i := SectionOfCandidate(env, source, text, extractor, ss, n - 1, a);
    } else {
      i := n - 1;
    }
  }

  lemma {:induction false} CandidateCountGrows(
    env: Env, source: Source, text: string, extractor: Extractor, ss: seq<Section>, i: nat, j: nat)
    requires AllInText(text, ss) && i <= j <= |ss|
    ensures |SectionCandidates(env, source, text, extractor, ss, i)|
            <= |SectionCandidates(env, source, text, extractor, ss, j)|
    decreases j
  {
    hide SectionCandidate, InText;
    if i < j {
      CandidateCountGrows(env, source, text, extractor, ss, i, j - 1);
    }
  }

  lemma CandidateStart(env: Env, source: Source, text: string, extractor: Extractor, s: Section, c: Candidate)
    requires InText(text, s) && SectionCandidate(env, source, text, extractor, s) == [c]
    ensures c.evidence != [] && c.evidence[0].span.byteStart == ByteLen(text[..s.start])
  {
    hide Trim, DefaultScope, RoutingOf, BodyStart, Encode;
  }

  lemma SpanEnds(text: string, s: Section)
    requires InText(text, s)
    ensures s.start < |text|
  {
  }

  /** No two extracted candidates start at the same byte. */
  lemma ExtractedStartsDiffer(env: Env, source: Source, text: string, extractor: Extractor, a: nat, b: nat)
    requires Extracted(env, source, text, extractor).Success?
    requires a < b < |Extracted(env, source, text, extractor).value.candidates|
    ensures var cs := Extracted(env, source, text, extractor).value.candidates;
            && cs[a].evidence != [] && cs[b].evidence != []
            && cs[a].evidence[0].span.byteStart < cs[b].evidence[0].span.byteStart
  {
    hide SectionsOf, SectionCandidate, SectionCandidates, UnclassifiedCandidate, DiagnosticsUpTo, Recognized, InText,
      Encode;
    var ss := SectionsOf(text);
    SectionsInText(text);
    var cs := Extracted(env, source, text, extractor).value.candidates;
    assert Recognized(ss);
    var i := SectionOfCandidate(env, source, text, extractor, ss, |ss|, a);
    var j := SectionOfCandidate(env, source, text, extractor, ss, |ss|, b);
    if j <= i {
      CandidateCountGrows(env, source, text, extractor, ss, j, i);
      assert false;
    }
    CandidateStart(env, source, text, extractor, ss[i], cs[a]);
    CandidateStart(env, source, text, extractor, ss[j], cs[b]);
    NestedOrDisjoint(text, i, j);
    SpanEnds(text, ss[j]);
    ByteLenGrows(text, ss[i].start, ss[j].start);
  }

  /** Unless the identity hashes collide on them, the candidates of a fresh Markdown plan have pairwise
      different ids. */
  lemma PlannedIdsDistinct(env: Env, st: State, request: SourceRequest, planId: string)
    requires Planned(env, st, request, planId).Some?
    requires CollisionFree(env, Planned(env, st, request, planId).value.plan.candidates)
    ensures CandidateIdsDistinct(Planned(env, st, request, planId).value.plan.candidates)
  {
    hide Extracted, Planned, ClassifiedAll, WithOrigins, DerivedFrom, SafeText, MarkdownRequestError, Encode;
    var x := PlannedParts(env, st, request, planId);
    var cs := Planned(env, st, request, planId).value.plan.candidates;
    var source := LoadedSource(env, request, st.text.value);
    forall a, b | 0 <= a < b < |cs|
      ensures cs[a].candidateId != cs[b].candidateId
    {
      PlannedContent(env, st, x.candidates, a);
      PlannedContent(env, st, x.candidates, b);
      ExtractedBy(env, source, st.text.value, st.extractor, x.candidates[a]);
      ExtractedBy(env, source, st.text.value, st.extractor, x.candidates[b]);
      ExtractedStartsDiffer(env, source, st.text.value, st.extractor, a, b);
      assert cs[a].claimId == ClaimIdOf(env, cs[a]) && cs[b].claimId == ClaimIdOf(env, cs[b]);
      assert cs[a].candidateId == CandidateIdOf(env, cs[a]) && cs[b].candidateId == CandidateIdOf(env, cs[b]);
    }
  }

  // ------------------------------------------------------------- reviews of a fresh plan

  /** What a reviewer has to send for a plan: an actor, a time, and each candidate decided once. */
  predicate WellFormedInput(env: Env, plan: Plan, input: ReviewInput, reviewer: string, time: string) {
    && ValidActor(env, Trim(reviewer)) && env.validTimestamp(Trim(time))
    && !RepeatsId(input.decisions) && |input.decisions| == |plan.candidates|
  }

  /** The origin registry knows none of the extracted candidates. */
  ghost predicate NothingSeen(env: Env, st: State, request: SourceRequest) {
    st.text.Some? &&
    match Extracted(env, LoadedSource(env, request, st.text.value), st.text.value, st.extractor)
    case Failure(_) => true
    case Success(x) => forall i :: 0 <= i < |x.candidates| ==> st.origins(x.candidates[i]) == Unseen
  }

  lemma {:induction false} UnseenStay(origins: Candidate -> Origin, cs: seq<Candidate>)
    requires forall i :: 0 <= i < |cs| ==> origins(cs[i]) == Unseen
    ensures WithOrigins(origins, cs) == Some(cs)
  {
    if cs != [] {
      var n := |cs| - 1;
      UnseenStay(origins, cs[..n]);
      assert cs == cs[..n] + [cs[n]];
    }
  }

  /** Reviewing a fresh Markdown plan in the state it was made in: if its candidates are reviewable, accepting
      what it offers is a review if and only if no two accepted candidates share a subject, which only
      replays can. Neither liveness nor distinct ids are assumed. */
  lemma FreshPlanReviewIff(
    env: Env, st: State, request: SourceRequest, planId: string, input: ReviewInput, reviewer: string, time: string)
    requires Planned(env, st, request, planId).Some?
    requires CollisionFree(env, Planned(env, st, request, planId).value.plan.candidates)
    requires var p := Planned(env, st, request, planId).value;
             && AllReviewable(env, p.plan.candidates) && !BeginsBlank(request)
             && WellFormedInput(env, p.plan, input, reviewer, time)
             && AcceptsAcceptable(env, InputMap(input.decisions), p.plan.candidates)
    ensures var p := Planned(env, st, request, planId).value; var inputs := InputMap(input.decisions);
            && (BuiltCore(env, WorldOf(env, st, p), p.plan, input, reviewer, time).Success?
                <==> AcceptedSubjectsDistinct(env, inputs, p.plan.candidates))
            && (AcceptsNoReplay(inputs, p.plan.candidates) ==>
                  AcceptedSubjectsDistinct(env, inputs, p.plan.candidates))
  {
    hide Extracted, Planned, ClassifiedAll, WithOrigins, DerivedFrom, SafeText, MarkdownRequestError, Encode, IsLive,
      BuiltCore, ValidActor, Trim, InputMap, AcceptsAcceptable, CandidateIdsDistinct, IsWhitespace, AcceptsNoReplay,
      AcceptedSubjectsDistinct, CollisionFree;
    var p := Planned(env, st, request, planId).value;
    var x := PlannedParts(env, st, request, planId);
    FreshPlanIsLive(env, st, request, planId);
    PlannedIdsDistinct(env, st, request, planId);
    var marked := WithOrigins(st.origins, x.candidates).value;
    AcceptingIff(env, WorldOf(env, st, p), p.plan, marked, input, reviewer, time);
    if AcceptsNoReplay(InputMap(input.decisions), p.plan.candidates) {
      RouteableSubjectsDistinct(env, st.inventory, marked, InputMap(input.decisions));
    }
  }

  // ------------------------------------------------------------- plans that can never be reviewed

  lemma PlanOfUnseen(env: Env, st: State, request: SourceRequest, planId: string)
    requires MarkdownRequestError(env, request).None? && st.text.Some? && SafeText(env, st.text.value)
    requires NothingSeen(env, st, request)
    requires Extracted(env, LoadedSource(env, request, st.text.value), st.text.value, st.extractor).Success?
    ensures Planned(env, st, request, planId).Some?
    ensures var x := Extracted(env, LoadedSource(env, request, st.text.value), st.text.value, st.extractor).value;
            Planned(env, st, request, planId).value.plan.candidates == ClassifiedAll(env, st.inventory, x.candidates)
  {
    hide Extracted, MarkdownRequestError, SafeText, ClassifiedAll, WithOrigins, Encode;
    var x := Extracted(env, LoadedSource(env, request, st.text.value), st.text.value, st.extractor).value;
    UnseenStay(st.origins, x.candidates);
  }

  /** One candidate outside the canonical form makes the plan fail its own live check. */
  lemma RefusedWhenOutOfForm(env: Env, st: State, request: SourceRequest, planId: string, i: nat)
    requires MarkdownRequestError(env, request).None? && st.text.Some? && SafeText(env, st.text.value)
    requires NothingSeen(env, st, request)
    requires var r := Extracted(env, LoadedSource(env, request, st.text.value), st.text.value, st.extractor);
             && r.Success? && i < |r.value.candidates| && !InCanonicalForm(env, r.value.candidates[i].memory)
    ensures Planned(env, st, request, planId).Some? && !IsLive(env, st, Planned(env, st, request, planId).value)
  {
    hide Extracted, MarkdownRequestError, SafeText, ClassifiedAll, WithOrigins, Encode, InCanonicalForm, Planned,
      MarkdownPolicy, DerivedFrom, EvidenceHolds;
    var x := Extracted(env, LoadedSource(env, request, st.text.value), st.text.value, st.extractor).value;
    PlanOfUnseen(env, st, request, planId);
    UnseenStay(st.origins, x.candidates);
    PlannedContent(env, st, x.candidates, i);
    var p := Planned(env, st, request, planId).value;
    assert !PolicyHolds(env, p.plan.candidates[i]);
  }

  /** Every blank file is planned, and its plan can never be reviewed. */
  lemma BlankFileIsNeverLive(env: Env, st: State, request: SourceRequest, planId: string)
    requires st.text.Some? && Blank(st.text.value) && st.text.value != "" && SafeText(env, st.text.value)
    requires MarkdownRequestError(env, request).None? && NothingSeen(env, st, request)
    ensures Planned(env, st, request, planId).Some? && !IsLive(env, st, Planned(env, st, request, planId).value)
  {
    hide Extracted, MarkdownRequestError, SafeText, InCanonicalForm, Planned, IsLive, Encode, Blank;
    var text := st.text.value;
    var source := LoadedSource(env, request, text);
    BlankSourceIsPlannedButRefused(env, source, text, st.extractor);
    SomeCandidate(env, source, text, st.extractor);
    RefusedWhenOutOfForm(env, st, request, planId, 0);
  }

  /** Neither can the plan of a file whose only heading has a control character inside its title. */
  lemma ControlHeadingIsNeverLive(
    env: Env, st: State, request: SourceRequest, planId: string, row: (string, TypedKind), level: nat, title: string)
    requires row in TypedTable() && 1 <= level <= 6 && CleanTitle(title) && HasControl(title)
    requires st.text == Some(TypedNote(row, level, title)) && SafeText(env, st.text.value)
    requires MarkdownRequestError(env, request).None? && NothingSeen(env, st, request)
    ensures Planned(env, st, request, planId).Some? && !IsLive(env, st, Planned(env, st, request, planId).value)
  {
    hide Extracted, MarkdownRequestError, SafeText, InCanonicalForm, Planned, IsLive, Encode, TypedNote, TypedTable,
      HasControl, CleanTitle;
    ControlHeadingIsPlannedButRefused(env, LoadedSource(env, request, st.text.value), st.extractor, row, level, title);
    RefusedWhenOutOfForm(env, st, request, planId, 0);
  }

  const BLANK_PATH := " notes.md"

  /** A path that begins with a blank is admitted, and no plan of that file can be reviewed. */
  lemma BlankPathIsNeverLive(env: Env, st: State, planId: string)
    requires !env.prohibited("s") && !env.prohibited(BLANK_PATH)
    ensures var request := SourceRequest("s", ProjectPath(BLANK_PATH), MARKDOWN_MEDIA, false);
            && MarkdownRequestError(env, request).None?
            && (Planned(env, st, request, planId).Some? ==> !IsLive(env, st, Planned(env, st, request, planId).value))
  {
    hide Planned, IsLive, IsWhitespace;
    var request := SourceRequest("s", ProjectPath(BLANK_PATH), MARKDOWN_MEDIA, false);
    assert BLANK_PATH == " notes" + ".md";
    SimplePathIsAdmitted(env, " notes");
    WhitespaceBelow(' ');
    if Planned(env, st, request, planId).Some? {
      FreshPlanIsLive(env, st, request, planId);
    }
  }
}
