/** Candidates and diagnostics extracted from a Markdown source. */
module Extract {
  import opened Prelude
  import opened Text
  import opened Utf8
  import opened CaptureModel
  import opened Markdown
  import opened Sections

  const UNCLASSIFIED_TITLE := "Unclassified Markdown source"

  datatype ExtractError = InvalidSpan | NoNonEmptySections

  datatype Extraction = Extraction(candidates: seq<Candidate>, diagnostics: seq<Diagnostic>)

  // ------------------------------------------------------------- diagnostics

  function PreambleEnd(text: string, ss: seq<Section>): nat {
    if ss == [] then |text| else ss[0].start
  }

  predicate InText(text: string, s: Section) {
    s.start < s.directEnd <= s.end <= |text|
  }

  /** The position after the heading line, within `[start, end)`. */
  function BodyStart(text: string, start: nat, end: nat): (r: nat)
    requires start <= end <= |text|
    ensures start <= r <= end
  {
    start + LineLength(text[start..end])
  }

  predicate HasDirectContent(text: string, s: Section)
    requires InText(text, s)
  {
    Trim(text[BodyStart(text, s.start, s.directEnd)..s.directEnd]) != ""
  }

  predicate HasDescendant(ss: seq<Section>, i: nat)
    requires i < |ss|
  {
    i + 1 < |ss| && ss[i + 1].start < ss[i].end
  }

  function DiagnosticOf(text: string, ss: seq<Section>, i: nat): seq<Diagnostic>
    requires i < |ss| && InText(text, ss[i])
  {
    if ss[i].kind.None? && (HasDirectContent(text, ss[i]) || !HasDescendant(ss, i))
    then [Unsupported(ss[i].line)] else []
  }

  function PreambleDiagnostic(text: string, ss: seq<Section>): seq<Diagnostic>
    requires PreambleEnd(text, ss) <= |text|
  {
    if Trim(text[..PreambleEnd(text, ss)]) != "" then [Unsupported(1)] else []
  }

  ghost predicate AllInText(text: string, ss: seq<Section>) {
    PreambleEnd(text, ss) <= |text| && forall i :: 0 <= i < |ss| ==> InText(text, ss[i])
  }

  function DiagnosticsUpTo(text: string, ss: seq<Section>, n: nat): seq<Diagnostic>
    requires AllInText(text, ss) && n <= |ss|
  {
    if n == 0 then PreambleDiagnostic(text, ss)
    else DiagnosticsUpTo(text, ss, n - 1) + DiagnosticOf(text, ss, n - 1)
  }

  lemma SectionInText(text: string, i: nat)
    requires i < |SectionsOf(text)|
    ensures InText(text, SectionsOf(text)[i])
  {
    hide HeadingsOf, TypedHeading, Ancestors, HeadingIn;
    var hs := Headings(text);
    HeadingsMeaning(text);
    HeadingsInText(text, i);
    var c := Closer(hs, i, i + 1);
    if c < |hs| {
      HeadingsInText(text, c);
    }
    if i + 1 < |hs| {
      HeadingsInText(text, i + 1);
    }
  }

  lemma SectionsInText(text: string)
    ensures AllInText(text, SectionsOf(text))
  {
    hide Headings, SectionAt;
    var ss := SectionsOf(text);
    forall i | 0 <= i < |ss|
      ensures InText(text, ss[i])
    {
      SectionInText(text, i);
    }
  }

  method CollectDiagnostics(text: string, ss: seq<Section>) returns (ds: seq<Diagnostic>)
    requires AllInText(text, ss)
    ensures ds == DiagnosticsUpTo(text, ss, |ss|)
  {
    hide HasDirectContent, HasDescendant, Trim;
    ds := PreambleDiagnostic(text, ss);
    for i := 0 to |ss|
      invariant ds == DiagnosticsUpTo(text, ss, i)
    {
      ds := ds + DiagnosticOf(text, ss, i);
    }
  }

  lemma {:induction false} DiagnosticsContain(text: string, ss: seq<Section>, n: nat, i: nat)
    requires AllInText(text, ss) && i < n <= |ss|
    ensures forall d :: d in PreambleDiagnostic(text, ss) || d in DiagnosticOf(text, ss, i) ==>
              d in DiagnosticsUpTo(text, ss, n)
  {
    hide HasDirectContent, HasDescendant, Trim, DiagnosticOf, PreambleDiagnostic;
    if i < n - 1 {
      DiagnosticsContain(text, ss, n - 1, i);
    } else if n > 1 {
      DiagnosticsContain(text, ss, n - 1, 0);
    }
  }

  // ------------------------------------------------------------- tiling

  lemma SpansMeet(text: string, i: nat)
    requires i < |SectionsOf(text)|
    ensures SectionsOf(text)[i].directEnd ==
            if i + 1 < |SectionsOf(text)| then SectionsOf(text)[i + 1].start else |text|
  {
    hide Headings, TypedHeading, Ancestors, EndOf;
  }

  lemma SpansOrdered(text: string, i: nat, k: nat)
    requires i < k < |SectionsOf(text)|
    ensures SectionsOf(text)[i].directEnd <= SectionsOf(text)[k].start
  {
    hide Headings, SectionAt;
    SpansMeet(text, i);
    if i + 1 < k {
      NestedOrDisjoint(text, i + 1, k);
    }
  }

  /** The preamble and the direct spans tile the text: every later position lies in exactly one of them. */
  lemma {:induction false} DirectSpansTile(text: string, p: nat, n: nat) returns (i: nat)
    requires p < |text| && n < |SectionsOf(text)| && SectionsOf(text)[0].start <= p < SectionsOf(text)[n].directEnd
    ensures i <= n && SectionsOf(text)[i].start <= p < SectionsOf(text)[i].directEnd
    ensures forall k :: 0 <= k < |SectionsOf(text)| ==>
              SectionsOf(text)[k].start <= p < SectionsOf(text)[k].directEnd ==> k == i
    decreases n
  {
    hide Headings, SectionAt;
    var ss := SectionsOf(text);
    if ss[n].start <= p {
      i := n;
    } else {
      SpansMeet(text, n - 1);
      i := DirectSpansTile(text, p, n - 1);
    }
    forall k | 0 <= k < |ss| && ss[k].start <= p < ss[k].directEnd
      ensures k == i
    {
      if k < i {
        SpansOrdered(text, k, i);
      } else if i < k {
        SpansOrdered(text, i, k);
      }
    }
  }

  // ------------------------------------------------------------- candidates

  function ByteOffset(text: string, i: nat): nat
    requires i <= |text|
  {
    ByteLen(text[..i])
  }

  /** Lines spanned by an excerpt: its newlines, without a final one. */
  function LinesWithin(bytes: seq<Byte>): nat
    requires bytes != []
  {
    NewlineBytes(bytes[..|bytes| - 1])
  }

  function EvidenceOf(
    env: Env, source: Source, text: string, start: nat, end: nat, line: nat, kind: SectionKind,
    path: seq<string>): Evidence
    requires start < end <= |text|
  {
    var excerpt := text[start..end];
    var bytes := Encode(excerpt);
    Evidence(source.sourceId, source.locator, source.contentHash,
             Span(ByteOffset(text, start), ByteOffset(text, end), line, line + LinesWithin(bytes)),
             env.contentHash(bytes), Some(excerpt), path, kind, None)
  }

  function DefaultScope(source: Source): Scope {
    var path := source.locator.ProjectPathOf();
    Scope(RepoScope, None, if path.Some? then [path.value] else [])
  }

  datatype Routing = Routing(
    destination: MemoryDestination, sensitivity: Sensitivity, destinationReason: Reason, sensitivityReason: Reason)

  /** Repo-bound kinds are only proposed for review; private kinds keep their own route. */
  function RoutingOf(destination: MemoryDestination, sensitivity: Sensitivity): Routing {
    if destination == Repo then
      Routing(NeedsReview, Sensitivity.Unknown, GenericMarkdownRequiresContextualReview,
        GenericMarkdownSensitivityUnknown)
    else Routing(destination, sensitivity, DeterministicTypedMarkdownSection, DeterministicTypedMarkdownProfile)
  }

  const UNCLASSIFIED_ROUTING :=
    Routing(NeedsReview, Sensitivity.Unknown, UnrecognizedMarkdownRequiresReview,
      UnrecognizedMarkdownSensitivityUnknown)

  function CandidateOf(env: Env, memory: Memory, evidence: Evidence, extractor: Extractor, r: Routing): Candidate {
    NewCandidate(env, memory, [evidence], extractor, r.destination, r.sensitivity,
                 DefaultContentClass(r.destination, r.sensitivity), r.destinationReason, r.sensitivityReason)
  }

  function SectionBody(text: string, s: Section): string
    requires InText(text, s)
  {
    Trim(text[BodyStart(text, s.start, s.end)..s.end])
  }

  /** Typed sections with an empty title or body are skipped. */
  function SectionCandidate(env: Env, source: Source, text: string, extractor: Extractor, s: Section)
    : (r: seq<Candidate>)
    requires InText(text, s)
    ensures |r| <= 1
  {
    if s.kind.None? || Trim(s.title) == "" || SectionBody(text, s) == "" then []
    else
      var k := s.kind.value;
      var memory := Memory(k.memoryType, k.lane, Trim(s.title), SectionBody(text, s), DefaultScope(source), []);
      var evidence := EvidenceOf(env, source, text, s.start, s.end, s.line, k.section, s.headingPath);
      [CandidateOf(env, memory, evidence, extractor, RoutingOf(k.destination, k.sensitivity))]
  }

  function SectionCandidates(env: Env, source: Source, text: string, extractor: Extractor, ss: seq<Section>, n: nat)
    : seq<Candidate>
    requires AllInText(text, ss) && n <= |ss|
  {
    if n == 0 then []
    else
      SectionCandidates(env, source, text, extractor, ss, n - 1)
        + SectionCandidate(env, source, text, extractor, ss[n - 1])
  }

  function UnclassifiedCandidate(env: Env, source: Source, text: string, extractor: Extractor): Candidate
    requires text != []
  {
    var heading := FirstHeading(Lines(text));
    var title := if heading.Some? then heading.value else UNCLASSIFIED_TITLE;
    CandidateOf(env, Memory(Fact, Semantic, title, Trim(text), DefaultScope(source), []),
                EvidenceOf(env, source, text, 0, |text|, 1, Unclassified, []), extractor, UNCLASSIFIED_ROUTING)
  }

  predicate Recognized(ss: seq<Section>) {
    exists i :: 0 <= i < |ss| && ss[i].kind.Some?
  }

  ghost function Extracted(
    env: Env, source: Source, text: string, extractor: Extractor): Result<Extraction, ExtractError>
  {
    var ss := SectionsOf(text);
    SectionsInText(text);
    if !Recognized(ss) then
      if text == [] then Failure(InvalidSpan)
      else Success(Extraction([UnclassifiedCandidate(env, source, text, extractor)], []))
    else
      var cs := SectionCandidates(env, source, text, extractor, ss, |ss|);
      if cs == [] then Failure(NoNonEmptySections)
      else Success(Extraction(cs, DiagnosticsUpTo(text, ss, |ss|)))
  }

  method ExtractCandidates(env: Env, source: Source, text: string, extractor: Extractor)
    returns (r: Result<Extraction, ExtractError>)
    ensures r == Extracted(env, source, text, extractor)
  {
    hide SectionCandidate, DiagnosticsUpTo, UnclassifiedCandidate, SectionsOf, InText;
    var ss := BuildSections(text);
    SectionsInText(text);
    if !Recognized(ss) {
      if text == [] {
        return Failure(InvalidSpan);
      }
      return Success(Extraction([UnclassifiedCandidate(env, source, text, extractor)], []));
    }
    var diagnostics := CollectDiagnostics(text, ss);
    var candidates: seq<Candidate> := [];
    for i := 0 to |ss|
      invariant candidates == SectionCandidates(env, source, text, extractor, ss, i)
    {
      candidates := candidates + SectionCandidate(env, source, text, extractor, ss[i]);
    }
    if candidates == [] {
      return Failure(NoNonEmptySections);
    }
    r := Success(Extraction(candidates, diagnostics));
  }

  lemma {:induction false} SectionCandidatesSource(
    env: Env, source: Source, text: string, extractor: Extractor, ss: seq<Section>, n: nat, c: Candidate)
    returns (i: nat)
    requires AllInText(text, ss) && n <= |ss| && c in SectionCandidates(env, source, text, extractor, ss, n)
    ensures i < n && SectionCandidate(env, source, text, extractor, ss[i]) == [c]
  {
    hide SectionCandidate, InText;
    if c in SectionCandidate(env, source, text, extractor, ss[n - 1]) {
      i := n - 1;
    } else {
      i := SectionCandidatesSource(env, source, text, extractor, ss, n - 1, c);
    }
  }

  // ------------------------------------------------------------- nothing is lost

  /** Where the source's content may end up: in a typed section, on a heading line, or in a preamble or
      untyped direct span that one of the diagnostics reports. */
  ghost predicate Accounted(text: string, ds: seq<Diagnostic>, p: nat) {
    var ss := SectionsOf(text);
    AllInText(text, ss) &&
    ( || (exists i :: 0 <= i < |ss| && ss[i].kind.Some? && Contains(ss[i], p))
      || (exists i :: 0 <= i < |ss| && ss[i].start <= p < BodyStart(text, ss[i].start, ss[i].directEnd))
      || (p < PreambleEnd(text, ss) && Unsupported(1) in ds)
      || (exists i :: 0 <= i < |ss| && ss[i].kind.None? && ss[i].start <= p < ss[i].directEnd
           && Unsupported(ss[i].line) in ds))
  }

  lemma NonBlankHasContent(text: string, a: nat, b: nat, p: nat)
    requires a <= p < b <= |text| && !IsWhitespace(text[p])
    ensures Trim(text[a..b]) != ""
  {
    hide Trim;
    var lo, hi := TrimMeaning(text[a..b]);
    assert text[a..b][p - a] == text[p];
  }

  lemma DiagnosticsAccount(text: string, p: nat)
    requires p < |text| && !IsWhitespace(text[p]) && SectionsOf(text) != [] && AllInText(text, SectionsOf(text))
    ensures Accounted(text, DiagnosticsUpTo(text, SectionsOf(text), |SectionsOf(text)|), p)
  {
    hide SectionsOf, Trim, HasDescendant, IsWhitespace, LineLength;
    var ss := SectionsOf(text);
    DiagnosticsContain(text, ss, |ss|, 0);
    if p < PreambleEnd(text, ss) {
      NonBlankHasContent(text, 0, PreambleEnd(text, ss), p);
      assert text[0..PreambleEnd(text, ss)] == text[..PreambleEnd(text, ss)];
      assert Unsupported(1) in PreambleDiagnostic(text, ss);
    } else {
      SpansMeet(text, |ss| - 1);
      var i := DirectSpansTile(text, p, |ss| - 1);
      assert InText(text, ss[i]);
      if ss[i].kind.Some? {
        assert Contains(ss[i], p);
      } else if BodyStart(text, ss[i].start, ss[i].directEnd) <= p {
        NonBlankHasContent(text, BodyStart(text, ss[i].start, ss[i].directEnd), ss[i].directEnd, p);
        assert Unsupported(ss[i].line) in DiagnosticOf(text, ss, i);
        DiagnosticsContain(text, ss, |ss|, i);
      }
    }
  }

  /** No silent loss: when a source with a typed heading is extracted, every non-blank character is in a
      typed section, on a heading line, or reported by a diagnostic the extraction returns. */
  lemma NoSilentLoss(env: Env, source: Source, text: string, extractor: Extractor, p: nat)
    requires Extracted(env, source, text, extractor).Success? && Recognized(SectionsOf(text))
    requires p < |text| && !IsWhitespace(text[p])
    ensures Accounted(text, Extracted(env, source, text, extractor).value.diagnostics, p)
  {
    hide SectionsOf, Accounted, DiagnosticsUpTo, SectionCandidates;
    SectionsInText(text);
    DiagnosticsAccount(text, p);
  }

  /** Without a typed heading the one candidate's evidence is the whole text, and nothing is reported. */
  lemma UnrecognizedKeepsEverything(env: Env, source: Source, text: string, extractor: Extractor)
    requires Extracted(env, source, text, extractor).Success? && !Recognized(SectionsOf(text))
    ensures var e := Extracted(env, source, text, extractor).value;
            && |e.candidates| == 1 && e.diagnostics == []
            && |e.candidates[0].evidence| == 1
            && e.candidates[0].evidence[0].text == Some(text)
            && e.candidates[0].evidence[0].span.byteStart == 0
            && e.candidates[0].evidence[0].span.byteEnd == ByteLen(text)
            && e.candidates[0].memory.body == Trim(text)
  {
    hide SectionsOf, Trim, FirstHeading, Lines, Recognized;
    assert text[0..|text|] == text && text[..|text|] == text && text[..0] == "";
  }
}
