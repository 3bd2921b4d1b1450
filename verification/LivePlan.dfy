/** Planning a Markdown source, and the live check that a plan must pass again before every review. */
module LivePlan {
  import opened Prelude
  import opened Text
  import opened Utf8
  import opened CaptureModel
  import opened ProposalIds
  import opened Markdown
  import opened Sections
  import opened Extract
  import opened Request
  import opened Classify
  import opened Normalize
  import opened Validate
  import opened CanonicalForm

  /** What the origin registry says of a freshly extracted candidate. */
  datatype Origin = Unseen | Pending | Outcome(recordId: Option<string>)

  /** The state a plan is made from and checked against; `text` is missing when the source cannot be loaded
      as UTF-8. */
  datatype State = State(
    inventory: Inventory, text: Option<string>, extractor: Extractor, origins: Candidate -> Origin)

  datatype MarkdownPlan = MarkdownPlan(
    plan: Plan, request: SourceRequest, sourceHash: string, extractor: Extractor, diagnostics: seq<Diagnostic>)

  // ------------------------------------------------------------- origins

  /** `apply_capture_origin_replays`; a pending origin stops it. */
  function WithOrigins(origins: Candidate -> Origin, cs: seq<Candidate>): (r: Option<seq<Candidate>>)
    ensures r.Some? ==> |r.value| == |cs|
  {
    if cs == [] then Some([])
    else
      var n := |cs| - 1;
      match WithOrigins(origins, cs[..n])
      case None => None
      case Some(done) =>
        match origins(cs[n])
        case Pending => None
        case Unseen => Some(done + [cs[n]])
        case Outcome(id) => Some(done + [cs[n].(action := Replay(id))])
  }

  lemma {:induction false} OriginsKeepContent(origins: Candidate -> Origin, cs: seq<Candidate>, i: nat)
    requires WithOrigins(origins, cs).Some? && i < |cs|
    ensures var c := WithOrigins(origins, cs).value[i];
            && c == cs[i].(action := c.action)
            && (c.action == cs[i].action || c.action.Replay?)
            && (origins(cs[i]) == Unseen ==> c == cs[i])
  {
    var n := |cs| - 1;
    if i < n {
      OriginsKeepContent(origins, cs[..n], i);
    }
  }

  lemma {:induction false} PendingSticks(origins: Candidate -> Origin, cs: seq<Candidate>, i: nat)
    requires i <= |cs| && WithOrigins(origins, cs[..i]).None?
    ensures WithOrigins(origins, cs).None?
  {
    if i < |cs| {
      var n := |cs| - 1;
      assert cs[..n][..i] == cs[..i];
      PendingSticks(origins, cs[..n], i);
    } else {
      assert cs[..i] == cs;
    }
  }

  /** The source's loop, which changes the candidates in place. */
  method ApplyOrigins(origins: Candidate -> Origin, candidates: array<Candidate>) returns (ok: bool)
    modifies candidates
    ensures ok == WithOrigins(origins, old(candidates[..])).Some?
    ensures ok ==> candidates[..] == WithOrigins(origins, old(candidates[..])).value
  {
    ghost var cs := candidates[..];
    for i := 0 to candidates.Length
      invariant WithOrigins(origins, cs[..i]) == Some(candidates[..i])
      invariant forall j :: i <= j < |cs| ==> candidates[j] == cs[j]
    {
      ghost var done := candidates[..i];
      assert cs[..i + 1][..i] == cs[..i] && cs[..i + 1][i] == cs[i];
      match origins(candidates[i]) {
        case Pending =>
          PendingSticks(origins, cs, i + 1);
          return false;
        case Unseen =>
        case Outcome(id) => candidates[i] := candidates[i].(action := Replay(id));
      }
      assert candidates[..i + 1] == done + [candidates[i]];
    }
    assert cs[..candidates.Length] == cs && candidates[..candidates.Length] == candidates[..];
    ok := true;
  }

  // ------------------------------------------------------------- planning

  predicate MatchesRuntime(a: Action) {
    match a
    case Duplicate(ms) => exists i :: 0 <= i < |ms| && ms[i].kind == RuntimeRecord
    case Conflict(ms) => exists i :: 0 <= i < |ms| && ms[i].kind == RuntimeRecord
    case _ => false
  }

  /** `candidate_is_repo_safe_for_plan`. */
  predicate RepoSafeForPlan(c: Candidate) {
    c.classification.sensitivity == RepoSafe && c.classification.destination == Repo && !MatchesRuntime(c.action)
  }

  function PlanDataClass(cs: seq<Candidate>): DataClass {
    if forall i :: 0 <= i < |cs| ==> RepoSafeForPlan(cs[i]) then RepoSafeData else PrivateData
  }

  function RuntimeNote(cs: seq<Candidate>): seq<Diagnostic> {
    if exists i :: 0 <= i < |cs| && Downgraded(cs[i]) then [RuntimeInventoryMissing] else []
  }

  /** The scan of the loaded bytes, which planning and the live check share. */
  predicate SafeText(env: Env, text: string) {
    !env.prohibited(text) && '\0' !in text
  }

  function LoadedSource(env: Env, request: SourceRequest, text: string): Source {
    SourceOf(request, env.contentHash(Encode(text)))
  }

  datatype Derived = Derived(candidates: seq<Candidate>, diagnostics: seq<Diagnostic>)

  /** Extraction, origins and classification: what planning makes and the live check makes again. */
  ghost function DerivedFrom(env: Env, st: State, request: SourceRequest, text: string): Option<Derived> {
    match Extracted(env, LoadedSource(env, request, text), text, st.extractor)
    case Failure(_) => None
    case Success(x) =>
      match WithOrigins(st.origins, x.candidates)
      case None => None
      case Some(cs) =>
        var out := ClassifiedAll(env, st.inventory, cs);
        Some(Derived(out, x.diagnostics + RuntimeNote(out)))
  }

  /** `plan_capture_inner` for the Markdown profile; `None` is a blocked plan. */
  ghost function Planned(env: Env, st: State, request: SourceRequest, planId: string): Option<MarkdownPlan> {
    if MarkdownRequestError(env, request).Some? || st.text.None? || !SafeText(env, st.text.value) then None
    else
      match DerivedFrom(env, st, request, st.text.value)
      case None => None
      case Some(d) =>
        Some(MarkdownPlan(Plan(planId, Ready, PlanDataClass(d.candidates), d.candidates), request,
                          env.contentHash(Encode(st.text.value)), st.extractor, d.diagnostics))
  }

  /** Origins, then classification, in place on a copy of the candidates. */
  method MarkAndClassify(env: Env, st: State, cs: seq<Candidate>) returns (out: Option<seq<Candidate>>)
    ensures out == match WithOrigins(st.origins, cs)
                   case None => None
                   case Some(marked) => Some(ClassifiedAll(env, st.inventory, marked))
  {
    hide WithOrigins, ClassifiedAll;
    var candidates := new Candidate[|cs|](i requires 0 <= i < |cs| => cs[i]);
    assert candidates[..] == cs;
    var ok := ApplyOrigins(st.origins, candidates);
    if !ok {
      return None;
    }
    var ids := new Reservations(st.inventory.reservedIds);
    ClassifyInPlace(env, st.inventory.entries, candidates, ids, st.inventory.runtimeAvailable);
    out := Some(candidates[..]);
  }

  method Derive(env: Env, st: State, request: SourceRequest, text: string) returns (r: Option<Derived>)
    ensures r == DerivedFrom(env, st, request, text)
  {
    hide Extracted, ClassifiedAll, WithOrigins;
    var extracted := ExtractCandidates(env, LoadedSource(env, request, text), text, st.extractor);
    if extracted.Failure? {
      return None;
    }
    var out := MarkAndClassify(env, st, extracted.value.candidates);
    if out.None? {
      return None;
    }
    r := Some(Derived(out.value, extracted.value.diagnostics + RuntimeNote(out.value)));
  }

  method PlanMarkdown(env: Env, st: State, request: SourceRequest, planId: string) returns (r: Option<MarkdownPlan>)
    ensures r == Planned(env, st, request, planId)
  {
    hide DerivedFrom, MarkdownRequestError;
    if MarkdownRequestError(env, request).Some? || st.text.None? || !SafeText(env, st.text.value) {
      return None;
    }
    var d := Derive(env, st, request, st.text.value);
    if d.None? {
      return None;
    }
    var plan := Plan(planId, Ready, PlanDataClass(d.value.candidates), d.value.candidates);
    r := Some(MarkdownPlan(plan, request, env.contentHash(Encode(st.text.value)), st.extractor, d.value.diagnostics));
  }

  // ------------------------------------------------------------- the live check

  /** `validate_plan_evidence` for one candidate. */
  predicate EvidenceHolds(env: Env, document: Document, extractor: Extractor, c: Candidate) {
    && c.extraction == extractor && c.evidence != []
    && !env.prohibited(c.memory.title + "\n" + c.memory.body)
    && forall i :: 0 <= i < |c.evidence| ==> EvidenceProblem(env, document, c.evidence[i]).None?
  }

  /** The policy and form demands on one planned candidate. */
  predicate PolicyHolds(env: Env, c: Candidate) {
    && MarkdownPolicy(c).Success?
    && c.memory.memoryType == MarkdownPolicy(c).value.memoryType && c.memory.lane == MarkdownPolicy(c).value.lane
    && InCanonicalForm(env, c.memory)
  }

  function RebuiltPlan(env: Env, extractor: Extractor, cs: seq<Candidate>): (r: seq<Candidate>)
    requires forall i :: 0 <= i < |cs| ==> MarkdownPolicy(cs[i]).Success?
    ensures |r| == |cs|
    ensures forall i :: 0 <= i < |cs| ==> r[i] == RebuiltFromPolicy(env, cs[i], extractor, MarkdownPolicy(cs[i]).value)
  {
    seq(|cs|, i requires 0 <= i < |cs| => RebuiltFromPolicy(env, cs[i], extractor, MarkdownPolicy(cs[i]).value))
  }

  ghost predicate AllEvidenceHolds(env: Env, document: Document, extractor: Extractor, cs: seq<Candidate>) {
    forall i :: 0 <= i < |cs| ==> EvidenceHolds(env, document, extractor, cs[i])
  }

  ghost predicate AllPoliciesHold(env: Env, cs: seq<Candidate>) {
    forall i :: 0 <= i < |cs| ==> PolicyHolds(env, cs[i])
  }

  ghost predicate RebuildsItself(env: Env, st: State, cs: seq<Candidate>)
    requires AllPoliciesHold(env, cs)
  {
    var marked := WithOrigins(st.origins, RebuiltPlan(env, st.extractor, cs));
    marked.Some? && ClassifiedAll(env, st.inventory, marked.value) == cs
  }

  /** `validate_plan_identity` and `validate_capture_plan_live_state` for a Markdown plan. */
  ghost predicate IsLive(env: Env, st: State, p: MarkdownPlan) {
    && MarkdownRequestError(env, p.request).None?
    && p.plan.status == Ready && p.extractor == st.extractor
    && st.text.Some? && p.sourceHash == env.contentHash(Encode(st.text.value)) && SafeText(env, st.text.value)
    && AllEvidenceHolds(env, DocumentOf(LoadedSource(env, p.request, st.text.value), st.text.value), p.extractor,
                        p.plan.candidates)
    && DerivedFrom(env, st, p.request, st.text.value) == Some(Derived(p.plan.candidates, p.diagnostics))
    && AllPoliciesHold(env, p.plan.candidates)
    && RebuildsItself(env, st, p.plan.candidates)
    && p.plan.dataClass == PlanDataClass(p.plan.candidates)
  }

  lemma PolicyDerives(env: Env, c: Candidate)
    requires PolicyHolds(env, c)
    ensures MarkdownPolicy(c).Success?
  {
  }

  /** The live check, loop by loop. */
  method CheckLive(env: Env, st: State, p: MarkdownPlan) returns (live: bool)
    ensures live == IsLive(env, st, p)
  {
    hide DerivedFrom, MarkdownRequestError, EvidenceHolds, PolicyHolds, WithOrigins, ClassifiedAll, SafeText;
    var cs := p.plan.candidates;
    if || MarkdownRequestError(env, p.request).Some? || p.plan.status != Ready || p.extractor != st.extractor
       || st.text.None? || p.sourceHash != env.contentHash(Encode(st.text.value)) || !SafeText(env, st.text.value) {
      return false;
    }
    var document := DocumentOf(LoadedSource(env, p.request, st.text.value), st.text.value);
    for i := 0 to |cs|
      invariant forall k :: 0 <= k < i ==> EvidenceHolds(env, document, p.extractor, cs[k])
    {
      if !EvidenceHolds(env, document, p.extractor, cs[i]) {
        return false;
      }
    }
    var derived := Derive(env, st, p.request, st.text.value);
    if derived != Some(Derived(cs, p.diagnostics)) {
      return false;
    }
    var expected: seq<Candidate> := [];
    for i := 0 to |cs|
      invariant |expected| == i
      invariant forall k :: 0 <= k < i ==>
        PolicyHolds(env, cs[k]) && MarkdownPolicy(cs[k]).Success?
        && expected[k] == RebuiltFromPolicy(env, cs[k], st.extractor, MarkdownPolicy(cs[k]).value)
    {
      if !PolicyHolds(env, cs[i]) {
        return false;
      }
      PolicyDerives(env, cs[i]);
      expected := expected + [RebuiltFromPolicy(env, cs[i], p.extractor, MarkdownPolicy(cs[i]).value)];
    }
    assert expected == RebuiltPlan(env, st.extractor, cs);
    var out := MarkAndClassify(env, st, expected);
    live := out == Some(cs) && p.plan.dataClass == PlanDataClass(cs);
  }

  // ------------------------------------------------------------- a fresh plan

  /** What planning does not ask of a candidate and the live check does. */
  predicate Reviewable(env: Env, c: Candidate) {
    && c.memory.title != "" && c.memory.body != "" && !HasControl(c.memory.title)
    && !env.prohibited(c.memory.title + "\n" + c.memory.body)
  }

  predicate BeginsBlank(request: SourceRequest) {
    request.locator.ProjectPath? && request.locator.path != "" && IsWhitespace(request.locator.path[0])
  }

  ghost predicate AllReviewable(env: Env, cs: seq<Candidate>) {
    forall i :: 0 <= i < |cs| ==> Reviewable(env, cs[i])
  }

  lemma PlannedParts(env: Env, st: State, request: SourceRequest, planId: string) returns (x: Extraction)
    requires Planned(env, st, request, planId).Some?
    ensures MarkdownRequestError(env, request).None? && st.text.Some? && SafeText(env, st.text.value)
    ensures var p := Planned(env, st, request, planId).value;
            && Extracted(env, LoadedSource(env, request, st.text.value), st.text.value, st.extractor) == Success(x)
            && WithOrigins(st.origins, x.candidates).Some?
            && p.plan.candidates == ClassifiedAll(env, st.inventory, WithOrigins(st.origins, x.candidates).value)
            && |p.plan.candidates| == |x.candidates|
            && DerivedFrom(env, st, request, st.text.value) == Some(Derived(p.plan.candidates, p.diagnostics))
  {
    hide Extracted, MarkdownRequestError, SafeText, ClassifiedAll, WithOrigins;
    x := Extracted(env, LoadedSource(env, request, st.text.value), st.text.value, st.extractor).value;
  }

  /** Classification and origins leave the content of an extracted candidate alone. */
  lemma PlannedContent(env: Env, st: State, cs: seq<Candidate>, i: nat)
    requires WithOrigins(st.origins, cs).Some? && i < |cs|
    ensures var c := ClassifiedAll(env, st.inventory, WithOrigins(st.origins, cs).value)[i];
            && c.memory == cs[i].memory && c.evidence == cs[i].evidence && c.extraction == cs[i].extraction
            && c.claimId == cs[i].claimId && c.confidence == cs[i].confidence
            && c.candidateId == env.candidateId(c.claimId, c.confidence, c.classification, c.action)
  {
    hide ClassifiedAll, Matches, WithOrigins;
    OriginsKeepContent(st.origins, cs, i);
    ClassifiedAt(env, st.inventory, WithOrigins(st.origins, cs).value, i);
  }

  /** As the extractor makes it: with its evidence, its claim id, and no origin looked up. */
  predicate IsNew(env: Env, extractor: Extractor, c: Candidate) {
    && c.extraction == extractor && c.evidence != [] && !c.action.Replay?
    && c.claimId == env.claimId(c.memory, c.evidence, extractor)
  }

  lemma SectionCandidateIsNew(env: Env, source: Source, text: string, extractor: Extractor, s: Section, c: Candidate)
    requires InText(text, s) && SectionCandidate(env, source, text, extractor, s) == [c]
    ensures IsNew(env, extractor, c)
  {
    hide Trim, EvidenceOf, DefaultScope, RoutingOf, BodyStart;
  }

  lemma UnclassifiedIsNew(env: Env, source: Source, text: string, extractor: Extractor)
    requires text != []
    ensures IsNew(env, extractor, UnclassifiedCandidate(env, source, text, extractor))
  {
    hide Trim, EvidenceOf, Lines, DefaultScope, FirstHeading;
  }

  lemma ExtractedBy(env: Env, source: Source, text: string, extractor: Extractor, c: Candidate)
    requires Extracted(env, source, text, extractor).Success?
    requires c in Extracted(env, source, text, extractor).value.candidates
    ensures IsNew(env, extractor, c)
  {
    hide SectionsOf, DiagnosticsUpTo, SectionCandidate, UnclassifiedCandidate, InText, Recognized, IsNew;
    var ss := SectionsOf(text);
    SectionsInText(text);
    if Recognized(ss) {
      var i := SectionCandidatesSource(env, source, text, extractor, ss, |ss|, c);
      SectionCandidateIsNew(env, source, text, extractor, ss[i], c);
    } else {
      UnclassifiedIsNew(env, source, text, extractor);
    }
  }

  /** One candidate of a fresh plan: every evidence and policy demand holds of itself, and the rest is
      what `Reviewable` and the path ask. */
  lemma FreshCandidate(
    env: Env, st: State, request: SourceRequest, text: string, extracted: Candidate, planned: Candidate)
    requires MarkdownRequestError(env, request).None?
    requires Extracted(env, LoadedSource(env, request, text), text, st.extractor).Success?
    requires extracted in Extracted(env, LoadedSource(env, request, text), text, st.extractor).value.candidates
    requires planned.memory == extracted.memory && planned.evidence == extracted.evidence
    requires planned.extraction == extracted.extraction
    ensures var document := DocumentOf(LoadedSource(env, request, text), text);
            EvidenceHolds(env, document, st.extractor, planned)
            <==> !env.prohibited(planned.memory.title + "\n" + planned.memory.body)
    ensures PolicyHolds(env, planned) <==>
            && planned.memory.title != "" && planned.memory.body != "" && !HasControl(planned.memory.title)
            && request.locator.ProjectPath? && request.locator.path != "" && !IsWhitespace(request.locator.path[0])
    ensures MarkdownPolicy(planned).Success?
    ensures RebuiltFromPolicy(env, planned, st.extractor, MarkdownPolicy(planned).value) == extracted
  {
    hide Extracted, MarkdownRequestError, EvidenceProblem, MarkdownPolicy, InCanonicalForm, HasControl, IsWhitespace,
      RebuiltFromPolicy, Encode, ElementError, Trim;
    var source := LoadedSource(env, request, text);
    AcceptedPath(env, request);
    assert source.locator.ProjectPathOf() == Some(request.locator.path);
    forall i | 0 <= i < |planned.evidence|
      ensures EvidenceProblem(env, DocumentOf(source, text), planned.evidence[i]).None?
    {
      assert planned.evidence[i] in extracted.evidence;
      ExtractedEvidencePasses(env, source, text, st.extractor, extracted, planned.evidence[i]);
    }
    ExtractedBy(env, source, text, st.extractor, extracted);
    PolicyOfExtracted(env, source, text, st.extractor, extracted);
    PolicyIgnoresClassification(extracted, planned);
    PlannedCandidateRebuilds(env, source, text, st.extractor, extracted, planned);
    ExtractedMemory(env, source, text, st.extractor, extracted);
    ExtractedFormIff(env, source, extracted.memory);
  }

  lemma SomeCandidate(env: Env, source: Source, text: string, extractor: Extractor)
    requires Extracted(env, source, text, extractor).Success?
    ensures Extracted(env, source, text, extractor).value.candidates != []
  {
    hide SectionsOf, SectionCandidates, DiagnosticsUpTo, UnclassifiedCandidate;
  }

  /** A fresh plan passes its own live check exactly when every candidate is reviewable and the file's path
      does not begin with a blank: extractor and validator agree on everything else. */
  lemma FreshPlanIsLive(env: Env, st: State, request: SourceRequest, planId: string)
    requires Planned(env, st, request, planId).Some?
    ensures var p := Planned(env, st, request, planId).value;
            IsLive(env, st, p) <==> AllReviewable(env, p.plan.candidates) && !BeginsBlank(request)
  {
    hide Extracted, MarkdownRequestError, MarkdownPolicy, HasControl, IsWhitespace, RebuiltFromPolicy, Encode,
      DerivedFrom, ClassifiedAll, WithOrigins, EvidenceHolds, PolicyHolds, SafeText, PlanDataClass;
    var p := Planned(env, st, request, planId).value;
    var x := PlannedParts(env, st, request, planId);
    AcceptedPath(env, request);
    var cs := p.plan.candidates;
    var text := st.text.value;
    var document := DocumentOf(LoadedSource(env, request, text), text);
    forall i | 0 <= i < |cs|
      ensures EvidenceHolds(env, document, st.extractor, cs[i])
              <==> !env.prohibited(cs[i].memory.title + "\n" + cs[i].memory.body)
      ensures PolicyHolds(env, cs[i]) <==>
              && cs[i].memory.title != "" && cs[i].memory.body != "" && !HasControl(cs[i].memory.title)
              && !IsWhitespace(request.locator.path[0])
      ensures MarkdownPolicy(cs[i]).Success?
      ensures RebuiltFromPolicy(env, cs[i], st.extractor, MarkdownPolicy(cs[i]).value) == x.candidates[i]
    {
      PlannedContent(env, st, x.candidates, i);
      FreshCandidate(env, st, request, text, x.candidates[i], cs[i]);
    }
    SomeCandidate(env, LoadedSource(env, request, text), text, st.extractor);
    assert RebuiltPlan(env, st.extractor, cs) == x.candidates;
    assert AllPoliciesHold(env, cs) ==> RebuildsItself(env, st, cs);
    assert p.plan.dataClass == PlanDataClass(cs) && p.plan.status == Ready;
    if IsLive(env, st, p) {
      assert PolicyHolds(env, cs[0]);
    }
  }
}
