/** The plan validator, written apart from the extractor: it works on bytes and on its own policy table. */
module Validate {
  import opened Prelude
  import opened Text
  import opened Utf8
  import opened CaptureModel
  import opened Markdown
  import opened Sections
  import opened Extract
  import opened Classify
  import opened Request

  datatype Document = Document(sourceId: string, locator: Locator, contentHash: string, bytes: seq<Byte>)

  datatype EvidenceError =
    | EvidenceSourceChanged | SpanChanged | ContentChanged | LineLocationChanged | SemanticLocationInconsistent

  // ------------------------------------------------------------- evidence

  /** `validate_plan_evidence` for one evidence item of a Markdown plan and the document it names. */
  function EvidenceProblem(env: Env, document: Document, e: Evidence): Option<EvidenceError> {
    var start, end := e.span.byteStart, e.span.byteEnd;
    if || document.sourceId != e.sourceId || document.locator != e.locator
       || document.contentHash != e.sourceContentHash then
      Some(EvidenceSourceChanged)
    else if start >= end || end > |document.bytes| || !IsCharBoundary(document.bytes, start)
            || !IsCharBoundary(document.bytes, end) then Some(SpanChanged)
    else
      var excerpt := document.bytes[start..end];
      if || env.contentHash(excerpt) != e.contentHash || e.text.None?
         || Encode(e.text.value) != excerpt then Some(ContentChanged)
      else
        var lineStart := 1 + NewlineBytes(document.bytes[..start]);
        if e.span.lineStart != lineStart || e.span.lineEnd != lineStart + NewlineBytes(excerpt[..|excerpt| - 1]) then
          Some(LineLocationChanged)
        else if e.semanticLocation.Some? then Some(SemanticLocationInconsistent)
        else None
  }

  function DocumentOf(source: Source, text: string): Document {
    Document(source.sourceId, source.locator, source.contentHash, Encode(text))
  }

  lemma {:induction false} NewlineBytesOfText(s: string)
    ensures NewlineBytes(Encode(s)) == Newlines(s)
  {
    if s != [] {
      var n := |s| - 1;
      NewlineBytesOfText(s[..n]);
      EncodeConcat(s[..n], [s[n]]);
      assert s[..n] + [s[n]] == s;
      assert Encode([s[n]]) == EncodeChar(s[n]) by {
        assert [s[n]][1..] == [];
      }
      NewlineBytesConcat(Encode(s[..n]), EncodeChar(s[n]));
      CharNewlineBytes(s[n]);
    }
  }

  lemma {:induction false} NonEmptyEncoding(s: string)
    requires s != []
    ensures Encode(s) != []
  {
  }

  /** Evidence cut by character positions passes every byte check: span, boundaries, text, hash, lines. */
  lemma EvidencePasses(
    env: Env, source: Source, text: string, start: nat, end: nat, line: nat, kind: SectionKind, path: seq<string>)
    requires start < end <= |text| && line == 1 + Newlines(text[..start])
    ensures var e := EvidenceOf(env, source, text, start, end, line, kind, path);
            EvidenceProblem(env, DocumentOf(source, text), e).None?
  {
    hide Encode, NewlineBytes, Newlines;
    OffsetIsBoundary(text, start);
    OffsetIsBoundary(text, end);
    EncodeSlice(text, start, end);
    NonEmptyEncoding(text[start..end]);
    NewlineBytesOfText(text[..start]);
  }

  lemma SectionLine(text: string, i: nat)
    requires i < |SectionsOf(text)|
    ensures SectionsOf(text)[i].start < |text|
    ensures SectionsOf(text)[i].line == 1 + Newlines(text[..SectionsOf(text)[i].start])
  {
    hide Headings, TypedHeading, Ancestors, EndOf, Newlines;
    HeadingsMeaning(text);
    assert HeadingIn(text, Headings(text)[i]);
  }

  /** Every candidate the extractor emits carries evidence the validator accepts. */
  lemma ExtractedEvidencePasses(env: Env, source: Source, text: string, extractor: Extractor, c: Candidate, e: Evidence)
    requires Extracted(env, source, text, extractor).Success?
    requires c in Extracted(env, source, text, extractor).value.candidates && e in c.evidence
    ensures EvidenceProblem(env, DocumentOf(source, text), e).None?
  {
    hide EvidenceProblem, SectionsOf, EvidenceOf, Lines, Trim, Newlines;
    var ss := SectionsOf(text);
    SectionsInText(text);
    if !Recognized(ss) {
      assert text[..0] == [];
      NoNewlines(text[..0]);
      EvidencePasses(env, source, text, 0, |text|, 1, Unclassified, []);
    } else {
      var i := SectionCandidatesSource(env, source, text, extractor, ss, |ss|, c);
      SectionLine(text, i);
      EvidencePasses(env, source, text, ss[i].start, ss[i].end, ss[i].line, ss[i].kind.value.section,
                     ss[i].headingPath);
    }
  }

  // ------------------------------------------------------------- policy

  datatype PolicyError =
    | ProjectPathMissing | ScopeMismatch | InconsistentSectionKinds | InvalidSectionKind | HeadingMissing
    | HeadingInvalid
    | HeadingNotTyped | HeadingMismatch

  datatype CorePolicy = CorePolicy(memoryType: MemoryType, lane: MemoryLane, routing: Routing)

  /** `typed_section_policy`: the validator's own table, keyed by the section kind. */
  function TypedSectionPolicy(kind: SectionKind): Option<CorePolicy> {
    match kind
    case FactSection => Some(CorePolicy(Fact, Semantic, RoutingOf(Repo, RepoSafe)))
    case PreferenceSection => Some(CorePolicy(Preference, Semantic, RoutingOf(Local, LocalOnly)))
    case DecisionSection => Some(CorePolicy(Decision, Semantic, RoutingOf(Repo, RepoSafe)))
    case ProcedureSection => Some(CorePolicy(Procedure, Procedural, RoutingOf(Repo, RepoSafe)))
    case EpisodeSection =>
      Some(CorePolicy(Episode, MemoryLane.Session, RoutingOf(MemoryDestination.Session, TemporaryState)))
    case WarningSection => Some(CorePolicy(Warning, Semantic, RoutingOf(Repo, RepoSafe)))
    case FailedAttemptSection => Some(CorePolicy(FailedAttempt, Episodic, RoutingOf(Repo, RepoSafe)))
    case RiskSection => Some(CorePolicy(Risk, Semantic, RoutingOf(Repo, RepoSafe)))
    case Unclassified => None
    case OtherSection(_) => None
  }

  predicate HasPath(e: Evidence) {
    e.locator.ProjectPathOf().Some?
  }

  /** `validate_project_evidence_scope`. */
  function ScopeProblem(c: Candidate): Option<PolicyError> {
    if exists i :: 0 <= i < |c.evidence| && !HasPath(c.evidence[i]) then Some(ProjectPathMissing)
    else if || c.memory.scope.kind != RepoScope || c.memory.scope.id.Some?
            || (set p | p in c.memory.scope.paths)
               != (set e | e in c.evidence && HasPath(e) :: e.locator.ProjectPathOf().value)
    then Some(ScopeMismatch)
    else None
  }

  /** `validate_typed_evidence_heading`, reading the heading back out of the evidence text. */
  function HeadingProblem(c: Candidate, kind: SectionKind): Option<PolicyError> {
    if c.evidence == [] || c.evidence[0].text.None? || c.evidence[0].text.value == "" then Some(HeadingMissing)
    else
      var excerpt := c.evidence[0].text.value;
      var heading := ParseAtx(LineContent(excerpt[..LineLength(excerpt)]));
      if heading.None? then Some(HeadingInvalid)
      else
        var typed := TypedHeading(heading.value.title);
        if typed.0.None? then Some(HeadingNotTyped)
        else if typed.0.value.section != kind || typed.1 != c.memory.title then Some(HeadingMismatch)
        else None
  }

  /** `one_section_kind` fails. */
  predicate MixedKinds(c: Candidate) {
    c.evidence == [] || exists i :: 0 <= i < |c.evidence| && c.evidence[i].sectionKind != c.evidence[0].sectionKind
  }

  /** `markdown_candidate_policy`. */
  function MarkdownPolicy(c: Candidate): Result<CorePolicy, PolicyError> {
    if ScopeProblem(c).Some? then Failure(ScopeProblem(c).value)
    else if MixedKinds(c) then
      Failure(InconsistentSectionKinds)
    else
      var kind := c.evidence[0].sectionKind;
      if kind == Unclassified then Success(CorePolicy(Fact, Semantic, UNCLASSIFIED_ROUTING))
      else if TypedSectionPolicy(kind).None? then Failure(InvalidSectionKind)
      else if HeadingProblem(c, kind).Some? then Failure(HeadingProblem(c, kind).value)
      else Success(TypedSectionPolicy(kind).value)
  }

  /** What the candidate itself claims. */
  function ClaimedPolicy(c: Candidate): CorePolicy {
    var k := c.classification;
    CorePolicy(c.memory.memoryType, c.memory.lane,
               Routing(k.destination, k.sensitivity, k.destinationReason, k.sensitivityReason))
  }

  /** The validator's table gives a kind what the extractor's table gave it. */
  predicate SamePolicy(k: TypedKind) {
    TypedSectionPolicy(k.section) == Some(CorePolicy(k.memoryType, k.lane, RoutingOf(k.destination, k.sensitivity)))
  }

  lemma {:induction false} TypedTablesAgree(table: seq<(string, TypedKind)>, heading: string)
    requires forall i :: 0 <= i < |table| ==> SamePolicy(table[i].1)
    ensures var k := TypedHeadingIn(table, heading).0; k.Some? ==> SamePolicy(k.value)
  {
    hide SamePolicy;
    if table != [] && !(table[0].0 <= heading) {
      TypedTablesAgree(table[1..], heading);
    }
  }

  /** The extractor's prefix table and the validator's kind table say the same. */
  lemma TypedHeadingPolicy(heading: string)
    ensures var k := TypedHeading(heading).0; k.Some? ==> SamePolicy(k.value)
  {
    TypedTablesAgree(TypedTable(), heading);
  }

  lemma FirstLineOfSlice(s: string, n: nat)
    requires n <= |s| && LineLength(s[..n]) < n
    ensures LineLength(s) == LineLength(s[..n])
    ensures s[..LineLength(s)] == s[..n][..LineLength(s)]
    ensures s[LineLength(s) - 1] == '\n'
  {
    var a, b := LineLength(s[..n]), LineLength(s);
    assert s[..n][a - 1] == s[a - 1] == '\n';
    assert forall i :: 0 <= i < a - 1 ==> s[i] == s[..n][i] != '\n';
  }

  lemma SpanInText(text: string, s: Section)
    requires InText(text, s)
    ensures s.start < s.end <= |text|
  {
  }

  /** The heading line of a section with a body is read back from its excerpt unchanged. */
  lemma HeadingReadBack(text: string, i: nat)
    requires i < |SectionsOf(text)| && InText(text, SectionsOf(text)[i])
    requires BodyStart(text, SectionsOf(text)[i].start, SectionsOf(text)[i].end) < SectionsOf(text)[i].end
    ensures var s := SectionsOf(text)[i]; var excerpt := text[s.start..s.end];
            && excerpt != [] && LineLength(excerpt) <= |excerpt|
            && ParseAtx(LineContent(excerpt[..LineLength(excerpt)])).Some?
            && TypedHeading(ParseAtx(LineContent(excerpt[..LineLength(excerpt)])).value.title) == (s.kind, s.title)
  {
    hide Headings, TypedHeading, Ancestors, EndOf, Newlines, ParseAtx, StripSuffix, LineLength, InText;
    assert InText(text, SectionsOf(text)[i]);
    var s := SectionsOf(text)[i];
    HeadingsMeaning(text);
    assert HeadingIn(text, Headings(text)[i]);
    var rest := text[s.start..];
    assert s.end <= |text| by { SpanInText(text, s); }
    assert text[s.start..s.end] == rest[..s.end - s.start];
    FirstLineOfSlice(rest, s.end - s.start);
    assert text[s.start..s.start + LineLength(rest)] == rest[..LineLength(rest)];
  }

  /** One evidence item of the source, in the default scope. */
  ghost predicate OneEvidence(source: Source, c: Candidate, kind: SectionKind) {
    && |c.evidence| == 1 && c.evidence[0].locator == source.locator && c.evidence[0].sectionKind == kind
    && c.memory.scope == DefaultScope(source)
  }

  lemma ScopePasses(source: Source, c: Candidate, kind: SectionKind)
    requires OneEvidence(source, c, kind)
    ensures ScopeProblem(c) == if source.locator.ProjectPathOf().Some? then None else Some(ProjectPathMissing)
  {
    if source.locator.ProjectPathOf().Some? {
      var p := source.locator.ProjectPathOf().value;
      assert (set q | q in c.memory.scope.paths) == {p};
      assert c.evidence[0] in c.evidence;
      assert (set e | e in c.evidence && HasPath(e) :: e.locator.ProjectPathOf().value) == {p};
    } else {
      assert !HasPath(c.evidence[0]);
    }
  }

  lemma UnclassifiedShape(env: Env, source: Source, text: string, extractor: Extractor)
    requires text != []
    ensures var c := UnclassifiedCandidate(env, source, text, extractor);
            && OneEvidence(source, c, Unclassified)
            && ClaimedPolicy(c) == CorePolicy(Fact, Semantic, UNCLASSIFIED_ROUTING)
  {
    hide Lines, FirstHeading, Trim, Encode;
  }

  lemma UnclassifiedPolicy(env: Env, source: Source, text: string, extractor: Extractor)
    requires text != [] && source.locator.ProjectPathOf().Some?
    ensures var c := UnclassifiedCandidate(env, source, text, extractor);
            MarkdownPolicy(c) == Success(ClaimedPolicy(c))
  {
    hide UnclassifiedCandidate, ScopeProblem, ClaimedPolicy, HeadingProblem;
    var c := UnclassifiedCandidate(env, source, text, extractor);
    UnclassifiedShape(env, source, text, extractor);
    ScopePasses(source, c, Unclassified);
  }

  lemma PolicyOfOne(c: Candidate, kind: SectionKind)
    requires |c.evidence| == 1 && c.evidence[0].sectionKind == kind != Unclassified
    requires TypedSectionPolicy(kind).Some? && HeadingProblem(c, kind).None?
    ensures MarkdownPolicy(c) ==
            if ScopeProblem(c).Some? then Failure(ScopeProblem(c).value) else Success(TypedSectionPolicy(kind).value)
  {
    hide ScopeProblem, HeadingProblem, TypedSectionPolicy;
  }

  lemma TrimNonEmpty(s: string)
    requires Trim(s) != ""
    ensures s != ""
  {
  }

  lemma SectionShape(env: Env, source: Source, text: string, extractor: Extractor, i: nat, c: Candidate)
    requires i < |SectionsOf(text)| && InText(text, SectionsOf(text)[i])
    requires SectionCandidate(env, source, text, extractor, SectionsOf(text)[i]) == [c]
    ensures var s := SectionsOf(text)[i];
            && s.kind.Some? && OneEvidence(source, c, s.kind.value.section)
            && c.memory.title == Trim(s.title) && c.evidence[0].text == Some(text[s.start..s.end])
            && ClaimedPolicy(c) == CorePolicy(s.kind.value.memoryType, s.kind.value.lane,
                                              RoutingOf(s.kind.value.destination, s.kind.value.sensitivity))
            && BodyStart(text, s.start, s.end) < s.end
  {
    hide SectionsOf, Trim, Encode, RoutingOf, LineLength;
    var s := SectionsOf(text)[i];
    TrimNonEmpty(text[BodyStart(text, s.start, s.end)..s.end]);
  }

  lemma UnclassifiedHasNoPolicy()
    ensures TypedSectionPolicy(Unclassified).None?
  {
  }

  lemma TypedTitleTrimmed(heading: string)
    ensures TypedHeading(heading).0.Some? ==> Trimmed(TypedHeading(heading).1)
  {
    hide TypedHeadingIn;
  }

  lemma HeadingPasses(env: Env, source: Source, text: string, extractor: Extractor, i: nat, c: Candidate)
    requires i < |SectionsOf(text)| && InText(text, SectionsOf(text)[i])
    requires SectionCandidate(env, source, text, extractor, SectionsOf(text)[i]) == [c]
    ensures var s := SectionsOf(text)[i];
            && s.kind.Some? && HeadingProblem(c, s.kind.value.section).None?
            && s.kind.value.section != Unclassified
            && TypedSectionPolicy(s.kind.value.section) == Some(ClaimedPolicy(c))
  {
    hide SectionsOf, Trim, RoutingOf, LineLength, LineContent, ParseAtx, TypedHeading, SectionCandidate,
      TypedSectionPolicy, BodyStart, InText;
    var s := SectionsOf(text)[i];
    SectionShape(env, source, text, extractor, i, c);
    HeadingReadBack(text, i);
    SpanInText(text, s);
    var excerpt := text[s.start..s.end];
    var title := ParseAtx(LineContent(excerpt[..LineLength(excerpt)])).value.title;
    TypedHeadingPolicy(title);
    UnclassifiedHasNoPolicy();
    TypedTitleTrimmed(title);
    TrimFixed(s.title);
  }

  lemma SectionPolicy(env: Env, source: Source, text: string, extractor: Extractor, i: nat, c: Candidate)
    requires i < |SectionsOf(text)| && InText(text, SectionsOf(text)[i])
    requires SectionCandidate(env, source, text, extractor, SectionsOf(text)[i]) == [c]
    requires source.locator.ProjectPathOf().Some?
    ensures MarkdownPolicy(c) == Success(ClaimedPolicy(c))
  {
    hide SectionsOf, SectionCandidate, ScopeProblem, ClaimedPolicy, HeadingProblem, TypedSectionPolicy, InText,
      BodyStart, Trim, MarkdownPolicy, RoutingOf;
    SectionShape(env, source, text, extractor, i, c);
    ScopePasses(source, c, SectionsOf(text)[i].kind.value.section);
    HeadingPasses(env, source, text, extractor, i, c);
    PolicyOfOne(c, SectionsOf(text)[i].kind.value.section);
  }

  lemma PolicyOfExtracted(env: Env, source: Source, text: string, extractor: Extractor, c: Candidate)
    requires source.locator.ProjectPathOf().Some?
    requires Extracted(env, source, text, extractor).Success?
    requires c in Extracted(env, source, text, extractor).value.candidates
    ensures MarkdownPolicy(c) == Success(ClaimedPolicy(c))
  {
    hide SectionsOf, UnclassifiedCandidate, SectionCandidate, Recognized, MarkdownPolicy, ClaimedPolicy;
    var ss := SectionsOf(text);
    SectionsInText(text);
    if !Recognized(ss) {
      UnclassifiedPolicy(env, source, text, extractor);
    } else {
      var i := SectionCandidatesSource(env, source, text, extractor, ss, |ss|, c);
      SectionPolicy(env, source, text, extractor, i, c);
    }
  }

  /** The validator re-derives exactly the type, lane, destination, sensitivity and reasons of every candidate
      extracted for an accepted Markdown request. */
  lemma PolicyRederives(
    env: Env, request: SourceRequest, hash: string, text: string, extractor: Extractor, c: Candidate)
    requires MarkdownRequestError(env, request).None?
    requires Extracted(env, SourceOf(request, hash), text, extractor).Success?
    requires c in Extracted(env, SourceOf(request, hash), text, extractor).value.candidates
    ensures MarkdownPolicy(c) == Success(ClaimedPolicy(c))
  {
    hide Extracted, MarkdownPolicy, ClaimedPolicy, ManagedComponent;
    PolicyOfExtracted(env, SourceOf(request, hash), text, extractor, c);
  }

  // ------------------------------------------------------------- the plan as a whole

  /** The candidate the validator rebuilds from a planned one and the policy it derived. */
  function RebuiltFromPolicy(env: Env, planned: Candidate, extractor: Extractor, p: CorePolicy): Candidate {
    NewCandidate(env, planned.memory, planned.evidence, extractor, p.routing.destination, p.routing.sensitivity,
                 DefaultContentClass(p.routing.destination, p.routing.sensitivity), p.routing.destinationReason,
                 p.routing.sensitivityReason)
  }

  lemma PolicyIgnoresClassification(a: Candidate, b: Candidate)
    requires a.memory == b.memory && a.evidence == b.evidence
    ensures MarkdownPolicy(a) == MarkdownPolicy(b)
  {
    hide ParseAtx, TypedHeading, LineContent, LineLength;
  }

  /** The policy only reads the memory and the evidence, which classification keeps; so the validator,
      starting from the classified plan, rebuilds exactly the extracted candidate. */
  lemma PlannedCandidateRebuilds(
    env: Env, source: Source, text: string, extractor: Extractor, c: Candidate, planned: Candidate)
    requires Extracted(env, source, text, extractor).Success?
    requires c in Extracted(env, source, text, extractor).value.candidates
    requires source.locator.ProjectPathOf().Some?
    requires planned.memory == c.memory && planned.evidence == c.evidence
    ensures MarkdownPolicy(planned).Success?
    ensures RebuiltFromPolicy(env, planned, extractor, MarkdownPolicy(planned).value) == c
  {
    hide SectionsOf, Lines, Trim, EvidenceOf, HeadingProblem, MarkdownPolicy, Recognized, ScopeProblem;
    PolicyOfExtracted(env, source, text, extractor, c);
    PolicyIgnoresClassification(c, planned);
    var ss := SectionsOf(text);
    SectionsInText(text);
    if Recognized(ss) {
      var i := SectionCandidatesSource(env, source, text, extractor, ss, |ss|, c);
    }
  }

  lemma ClassificationKeepsContent(env: Env, inv: Inventory, cs: seq<Candidate>, i: nat)
    requires i < |cs|
    ensures ClassifiedAll(env, inv, cs)[i].memory == cs[i].memory
    ensures ClassifiedAll(env, inv, cs)[i].evidence == cs[i].evidence
  {
    hide ClassifiedAll, Matches;
    ClassifiedAt(env, inv, cs, i);
  }

  /** Planner and validator agree on a whole Markdown plan: re-deriving every candidate from the planned
      one and classifying again gives the plan's candidates. */
  lemma ValidatorReproducesPlan(
    env: Env, inv: Inventory, source: Source, text: string, extractor: Extractor, rebuilt: seq<Candidate>)
    requires Extracted(env, source, text, extractor).Success? && source.locator.ProjectPathOf().Some?
    requires var planned := ClassifiedAll(env, inv, Extracted(env, source, text, extractor).value.candidates);
             && |rebuilt| == |planned|
             && forall i :: 0 <= i < |planned| ==>
                  && MarkdownPolicy(planned[i]).Success?
                  && rebuilt[i] == RebuiltFromPolicy(env, planned[i], extractor, MarkdownPolicy(planned[i]).value)
    ensures ClassifiedAll(env, inv, rebuilt)
            == ClassifiedAll(env, inv, Extracted(env, source, text, extractor).value.candidates)
  {
    hide Extracted, ClassifiedAll, MarkdownPolicy, RebuiltFromPolicy;
    var extracted := Extracted(env, source, text, extractor).value.candidates;
    var planned := ClassifiedAll(env, inv, extracted);
    forall i | 0 <= i < |extracted|
      ensures rebuilt[i] == extracted[i]
    {
      ClassificationKeepsContent(env, inv, extracted, i);
      PlannedCandidateRebuilds(env, source, text, extractor, extracted[i], planned[i]);
    }
    assert rebuilt == extracted;
  }
}
