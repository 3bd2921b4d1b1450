/** The live check's demand that planned memories are in the reviewed form, which the planner does not make. */
module CanonicalForm {
  import opened Prelude
  import opened Text
  import opened CaptureModel
  import opened Sorting
  import opened Normalize
  import opened Markdown
  import opened Sections
  import opened Extract
  import opened TypedNotes

  /** Normalising a planned memory must succeed and change nothing but the order of its tags. */
  predicate InCanonicalForm(env: Env, m: Memory) {
    && Normalized(env, m).Success?
    && var n := Normalized(env, m).value;
       && n.title == m.title && n.body == m.body && n.scope == m.scope
       && |n.tags| == |m.tags| && SetOf(n.tags) == SetOf(m.tags)
  }

  /** A project path that normalising leaves alone and accepts. */
  predicate PathInCanonicalForm(env: Env, path: string) {
    Trim(path) == path && ElementError(env, ScopePaths, path).None?
  }

  /** A memory as the extractor writes it: trimmed title and body, the source's scope, no tags. */
  ghost predicate AsExtracted(source: Source, m: Memory) {
    Trimmed(m.title) && Trimmed(m.body) && m.scope == DefaultScope(source) && m.tags == []
  }

  lemma SingleIsCanonical(x: string)
    ensures Canonical(Before, [x]) == [x]
  {
    assert [x][1..] == [];
    assert Sort(Before, [x]) == [x];
  }

  lemma NoneIsCanonical()
    ensures Canonical(Before, []) == []
  {
  }

  lemma SinglePath(env: Env, path: string)
    ensures TrimEach([path]) == [Trim(path)] && CanonicalStrings([path]) == [Trim(path)]
    ensures FirstError(env, ScopePaths, [path]) == ElementError(env, ScopePaths, path)
    ensures TrimEach([]) == [] && CanonicalStrings([]) == []
  {
    hide Trim, ElementError;
    assert TrimEach([path]) == [Trim(path)];
    SingleIsCanonical(Trim(path));
    NoneIsCanonical();
    assert [path][1..] == [];
    assert FirstError(env, ScopePaths, []) == None;
  }

  lemma NoTagErrors(env: Env)
    ensures FirstError(env, Tags, []).None?
  {
  }

  lemma ExtractedFormIff(env: Env, source: Source, m: Memory)
    requires AsExtracted(source, m) && source.locator.ProjectPathOf().Some?
    ensures InCanonicalForm(env, m) <==>
            m.title != "" && m.body != "" && !HasControl(m.title)
            && PathInCanonicalForm(env, source.locator.ProjectPathOf().value)
  {
    hide Trim, ElementError, FirstError, CanonicalStrings, HasControl, TrimEach;
    var path := source.locator.ProjectPathOf().value;
    TrimFixed(m.title);
    TrimFixed(m.body);
    SinglePath(env, path);
    SinglePath(env, Trim(path));
    NoTagErrors(env);
    assert [Trim(path)] == [path] <==> Trim(path) == path by {
      assert [Trim(path)][0] == Trim(path) && [path][0] == path;
    }
    DraftErrorParts(env, m);
  }

  lemma UnclassifiedTitleTrimmed()
    ensures Trimmed(UNCLASSIFIED_TITLE)
  {
    assert UNCLASSIFIED_TITLE[0] == 'U' && UNCLASSIFIED_TITLE[|UNCLASSIFIED_TITLE| - 1] == 'e';
  }

  lemma UnclassifiedMemory(env: Env, source: Source, text: string, extractor: Extractor)
    requires text != []
    ensures AsExtracted(source, UnclassifiedCandidate(env, source, text, extractor).memory)
    ensures UnclassifiedCandidate(env, source, text, extractor).memory.body == Trim(text)
  {
    hide Trim, EvidenceOf, Lines, DefaultScope, FirstHeading, Trimmed;
    UnclassifiedTitleTrimmed();
  }

  lemma SectionMemory(env: Env, source: Source, text: string, extractor: Extractor, s: Section, c: Candidate)
    requires InText(text, s) && SectionCandidate(env, source, text, extractor, s) == [c]
    ensures AsExtracted(source, c.memory) && c.memory.title != "" && c.memory.body != ""
  {
    hide Trim, EvidenceOf, DefaultScope, Trimmed, RoutingOf, BodyStart;
  }

  lemma ExtractedMemory(env: Env, source: Source, text: string, extractor: Extractor, c: Candidate)
    requires Extracted(env, source, text, extractor).Success?
    requires c in Extracted(env, source, text, extractor).value.candidates
    ensures AsExtracted(source, c.memory)
    ensures Recognized(SectionsOf(text)) ==> c.memory.title != "" && c.memory.body != ""
    ensures !Recognized(SectionsOf(text)) ==> c.memory.body == Trim(text)
  {
    hide SectionsOf, Trim, DiagnosticsUpTo, UnclassifiedCandidate, SectionCandidate, AsExtracted, Recognized, InText;
    var ss := SectionsOf(text);
    SectionsInText(text);
    if Recognized(ss) {
      var i := SectionCandidatesSource(env, source, text, extractor, ss, |ss|, c);
      SectionMemory(env, source, text, extractor, ss[i], c);
    } else {
      UnclassifiedMemory(env, source, text, extractor);
    }
  }

  /** An extracted candidate of a project file passes the live check's form demand exactly when its title
      and body are not empty, its title holds no control character and the file's path is a canonical scope
      path. For a typed section only the last two can fail. */
  lemma PlannedFormIff(env: Env, source: Source, text: string, extractor: Extractor, c: Candidate)
    requires Extracted(env, source, text, extractor).Success? && source.locator.ProjectPathOf().Some?
    requires c in Extracted(env, source, text, extractor).value.candidates
    ensures var typed := Recognized(SectionsOf(text));
            InCanonicalForm(env, c.memory) <==>
            && (typed || (c.memory.title != "" && c.memory.body != ""))
            && !HasControl(c.memory.title)
            && PathInCanonicalForm(env, source.locator.ProjectPathOf().value)
  {
    hide Extracted, InCanonicalForm, PathInCanonicalForm, HasControl, SectionsOf;
    ExtractedMemory(env, source, text, extractor, c);
    ExtractedFormIff(env, source, c.memory);
  }

  lemma {:induction false} TrimStartOfBlank(s: string)
    requires Blank(s)
    ensures TrimStart(s) == ""
  {
    hide IsWhitespace;
    if s != "" {
      assert forall i :: 0 <= i < |s| - 1 ==> s[1..][i] == s[i + 1];
      TrimStartOfBlank(s[1..]);
    }
  }

  lemma BlankLineIsNoHeading(line: string)
    requires Blank(line)
    ensures ParseAtx(Logical(line)).None?
  {
    hide IsWhitespace;
    assert Blank(Logical(line));
    TrimStartOfBlank(Logical(line));
  }

  lemma LineOfBlank(text: string, l: Line)
    requires Blank(text) && IsLineOf(text, l)
    ensures Blank(l.text)
  {
    hide IsWhitespace, LineLength, Newlines;
  }

  lemma {:induction false} BlankHasNoHeading(text: string, n: nat)
    requires Blank(text) && n <= |Lines(text)|
    ensures HeadingsOf(Lines(text), n) == []
  {
    hide IsWhitespace, Logical, ParseAtx, FenceOf, Blank, IsLineOf, LinesFrom;
    if n > 0 {
      BlankHasNoHeading(text, n - 1);
      LinesMeaning(text);
      LineOfBlank(text, Lines(text)[n - 1]);
      BlankLineIsNoHeading(Lines(text)[n - 1].text);
    }
  }

  /** A blank file is extracted, as one unclassified candidate, but that has an empty body and so fails the
      form check. */
  lemma BlankSourceIsPlannedButRefused(env: Env, source: Source, text: string, extractor: Extractor)
    requires Blank(text) && text != ""
    ensures Extracted(env, source, text, extractor).Success?
    ensures forall c :: c in Extracted(env, source, text, extractor).value.candidates ==>
              !InCanonicalForm(env, c.memory)
  {
    hide SectionAt, Lines, Trim, HasControl, FirstError, CanonicalMemory, UnclassifiedCandidate, Blank;
    BlankHasNoHeading(text, |Lines(text)|);
    assert SectionsOf(text) == [];
    var lo, hi := TrimMeaning(text);
    forall c | c in Extracted(env, source, text, extractor).value.candidates
      ensures !InCanonicalForm(env, c.memory)
    {
      ExtractedMemory(env, source, text, extractor, c);
      TrimFixed("");
      assert Trim(c.memory.body) == "";
    }
  }

  /** A typed section with a control character inside its title is extracted, but fails the form check. */
  lemma ControlHeadingIsPlannedButRefused(
    env: Env, source: Source, extractor: Extractor, row: (string, TypedKind), level: nat, title: string)
    requires row in TypedTable() && 1 <= level <= 6 && CleanTitle(title) && HasControl(title)
    ensures var r := Extracted(env, source, TypedNote(row, level, title), extractor);
            && r.Success? && |r.value.candidates| == 1 && r.value.candidates[0].memory.title == title
            && !InCanonicalForm(env, r.value.candidates[0].memory)
  {
    hide Extracted, TypedNote, IsWhitespace, FirstError, TypedTable, HasControl;
    TrimFixed(title);
    TypedNoteExtracted(env, source, extractor, row, level, title);
    DraftErrorParts(env, Extracted(env, source, TypedNote(row, level, title), extractor).value.candidates[0].memory);
  }

  /** There are such titles: a tab between two letters. */
  lemma TabbedTitle()
    ensures CleanTitle("a\tb") && HasControl("a\tb")
  {
    hide IsWhitespace;
    WhitespaceBelow('a');
    WhitespaceBelow('b');
    assert IsControl("a\tb"[1]);
  }
}
