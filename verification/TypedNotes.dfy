/** Sources of typed sections, written and then extracted. */
module TypedNotes {
  import opened Prelude
  import opened Text
  import opened CaptureModel
  import opened Markdown
  import opened Sections
  import opened Extract

  // ------------------------------------------------------------- one typed section, written and extracted

  /** A source with one typed heading and a one-letter body. */
  function TypedNote(row: (string, TypedKind), level: nat, title: string): string {
    Hashes(level) + [' '] + (row.0 + [' '] + title) + "\n" + "x"
  }

  ghost predicate CleanTitle(title: string) {
    Trimmed(title) && title != "" && title[|title| - 1] != '#' && '\n' !in title
  }

  lemma {:induction false} FirstLineLength(line: string, rest: string)
    requires '\n' !in line
    ensures LineLength(line + "\n" + rest) == |line| + 1
  {
    if line != "" {
      FirstLineLength(line[1..], rest);
      assert (line + "\n" + rest)[1..] == line[1..] + "\n" + rest;
    }
  }

  lemma LetterLine()
    ensures LineLength("x") == 1
  {
    assert "x"[1..] == "";
  }

  lemma NoteLines(head: string)
    requires '\n' !in head
    ensures Lines(head + "\n" + "x") == [Line(0, 1, head + "\n"), Line(|head| + 1, 2, "x")]
  {
    hide LineLength;
    var text := head + "\n" + "x";
    FirstLineLength(head, "x");
    assert text[0..] == text && text[0..|head| + 1] == head + "\n";
    assert text[|head| + 1..] == "x" && text[|head| + 1..|head| + 2] == "x";
    assert LineLength("x") == 1 by { assert "x"[1..] == ""; LetterLine(); }
    assert LinesFrom(text, |text|, 3) == [];
    assert LinesFrom(text, |head| + 1, 2) == [Line(|head| + 1, 2, "x")];
  }

  lemma CarriageReturnIsBlank()
    ensures IsWhitespace('\r')
  {
  }

  lemma NoNewlineInPrefix(row: (string, TypedKind))
    requires row in TypedTable()
    ensures '\n' !in row.0
  {
    assert forall i :: 0 <= i < |TypedTable()| ==> '\n' !in TypedTable()[i].0;
  }

  /** The heading line of a note: no fence, and parsed as written. */
  lemma NoteHeading(row: (string, TypedKind), level: nat, title: string)
    requires row in TypedTable() && 1 <= level <= 6 && CleanTitle(title)
    ensures var head := Hashes(level) + [' '] + (row.0 + [' '] + title);
            && '\n' !in head && Logical(head + "\n") == head && FenceOf(head).None?
            && ParseAtx(head) == Some(AtxHeading(level, row.0 + [' '] + title))
  {
    hide IsWhitespace, ParseAtx, TypedTable, RunLength, Trim;
    var inner := row.0 + [' '] + title;
    var head := Hashes(level) + [' '] + inner;
    TypedPrefixesAreFirm(row);
    NoNewlineInPrefix(row);
    AtxRoundTrip(level, inner) by {
      assert inner[|inner| - 1] == title[|title| - 1] && inner[0] == row.0[0];
    }
    assert inner[|inner| - 1] == title[|title| - 1];
    assert head[|head| - 1] == title[|title| - 1] != '\r' by { CarriageReturnIsBlank(); }
    assert StripSuffix(head + "\n", '\n') == head;
    assert head[0] == '#';
    HashIsNoWhitespace();
    NoLeadingBlank(head);
  }

  lemma LetterIsNoHeading()
    ensures FenceOf(Logical("x")).None? && ParseAtx(Logical("x")).None? && Trim("x") == "x"
  {
    hide IsWhitespace;
    WhitespaceBelow('x');
    NoLeadingBlank("x");
    TrimFixed("x");
    assert Logical("x") == "x";
  }

  lemma NoteHeadings(row: (string, TypedKind), level: nat, title: string)
    requires row in TypedTable() && 1 <= level <= 6 && CleanTitle(title)
    ensures Headings(TypedNote(row, level, title)) == [Heading(0, 1, level, row.0 + [' '] + title)]
  {
    hide IsWhitespace, ParseAtx, TypedTable, FenceOf, Logical, Trim, Hashes, LinesFrom;
    var head := Hashes(level) + [' '] + (row.0 + [' '] + title);
    NoteHeading(row, level, title);
    NoteLines(head);
    LetterIsNoHeading();
    var ls := Lines(TypedNote(row, level, title));
    assert OpenFence(ls, 0).None? && OpenFence(ls, 1).None?;
    assert HeadingAt(ls, 0) == Some(Heading(0, 1, level, row.0 + [' '] + title));
    assert HeadingAt(ls, 1) == None;
    assert HeadingsOf(ls, 0) == [];
    assert HeadingsOf(ls, 1) == [Heading(0, 1, level, row.0 + [' '] + title)];
  }

  lemma NoteSection(row: (string, TypedKind), level: nat, title: string)
    requires row in TypedTable() && 1 <= level <= 6 && CleanTitle(title)
    ensures var text := TypedNote(row, level, title); var ss := SectionsOf(text);
            && |ss| == 1 && ss[0].kind == Some(row.1) && ss[0].title == title
            && InText(text, ss[0]) && SectionBody(text, ss[0]) == "x"
  {
    hide IsWhitespace, ParseAtx, TypedTable, TypedHeadingIn, Trim, Headings, LineLength, Hashes;
    var text := TypedNote(row, level, title);
    var head := Hashes(level) + [' '] + (row.0 + [' '] + title);
    NoteHeadings(row, level, title);
    NoteHeading(row, level, title);
    TypedHeadingRoundTrip(row, level, title);
    FirstLineLength(head, "x");
    LetterIsNoHeading();
    var s := SectionsOf(text)[0];
    assert s == SectionAt(Headings(text), 0, |text|);
    assert s.start == 0 && s.end == |text| && s.directEnd == |text|;
    assert text[0..|text|] == head + "\n" + "x";
    assert text[|head| + 1..|text|] == "x";
  }

  /** Writing a typed section and extracting it: one candidate of the written kind, title and body. */
  lemma TypedNoteExtracted(
    env: Env, source: Source, extractor: Extractor, row: (string, TypedKind), level: nat, title: string)
    requires row in TypedTable() && 1 <= level <= 6 && CleanTitle(title)
    ensures var r := Extracted(env, source, TypedNote(row, level, title), extractor);
            && r.Success? && |r.value.candidates| == 1
            && r.value.candidates[0].memory
               == Memory(row.1.memoryType, row.1.lane, title, "x", DefaultScope(source), [])
  {
    hide IsWhitespace, SectionsOf, TypedTable, Trim, Hashes, EvidenceOf, DiagnosticsUpTo, BodyStart, RoutingOf, InText;
    var text := TypedNote(row, level, title);
    NoteSection(row, level, title);
    SectionsInText(text);
    TrimFixed(title);
    var ss := SectionsOf(text);
    assert Recognized(ss);
    assert SectionCandidates(env, source, text, extractor, ss, 0) == [];
  }

  // ------------------------------------------------------------- two typed sections

  function FactHead(title: string): string {
    Hashes(1) + [' '] + ("Fact:" + [' '] + title)
  }

  /** Two facts, each with a one-letter body. */
  function TwoFacts(a: string, b: string): string {
    FactHead(a) + "\n" + ("x" + "\n" + (FactHead(b) + "\n" + "x"))
  }

  lemma LinesStepOver(text: string, offset: nat, number: nat, line: string, rest: string)
    requires offset < |text| && text[offset..] == line + "\n" + rest && '\n' !in line
    ensures LinesFrom(text, offset, number)
            == [Line(offset, number, line + "\n")] + LinesFrom(text, offset + |line| + 1, number + 1)
    ensures text[offset + |line| + 1..] == rest
  {
    hide LineLength;
    FirstLineLength(line, rest);
    assert text[offset..offset + |line| + 1] == text[offset..][..|line| + 1] == line + "\n";
    assert text[offset + |line| + 1..] == text[offset..][|line| + 1..];
  }

  /** The lines from an offset on, when the rest is a line, its newline and a further rest. */
  lemma TwoMoreLines(text: string, offset: nat, number: nat, h: string, rest: string)
    requires '\n' !in h && offset < |text| && text[offset..] == h + "\n" + ("x" + "\n" + rest)
    ensures offset + |h| + 3 <= |text| && text[offset + |h| + 3..] == rest
    ensures LinesFrom(text, offset, number)
            == [Line(offset, number, h + "\n"), Line(offset + |h| + 1, number + 1, "x" + "\n")]
               + LinesFrom(text, offset + |h| + 3, number + 2)
  {
    hide LinesFrom;
    LinesStepOver(text, offset, number, h, "x" + "\n" + rest);
    LinesStepOver(text, offset + |h| + 1, number + 1, "x", rest);
  }

  lemma LastLine(text: string, offset: nat, number: nat)
    requires offset < |text| && text[offset..] == "x"
    ensures LinesFrom(text, offset, number) == [Line(offset, number, "x")]
  {
    LetterLine();
    assert text[offset..offset + 1] == text[offset..][..1] == "x";
    assert offset + 1 == |text|;
    assert LinesFrom(text, offset + 1, number + 1) == [];
  }

  lemma TwoLastLines(text: string, offset: nat, number: nat, k: string)
    requires '\n' !in k && offset < |text| && text[offset..] == k + "\n" + "x"
    ensures LinesFrom(text, offset, number)
            == [Line(offset, number, k + "\n"), Line(offset + |k| + 1, number + 1, "x")]
  {
    hide LinesFrom;
    LinesStepOver(text, offset, number, k, "x");
    LastLine(text, offset + |k| + 1, number + 1);
  }

  lemma FourLines(text: string, h: string, k: string)
    requires '\n' !in h && '\n' !in k && text == h + "\n" + ("x" + "\n" + (k + "\n" + "x"))
    ensures LinesFrom(text, 0, 1) == [Line(0, 1, h + "\n"), Line(|h| + 1, 2, "x" + "\n"),
                                      Line(|h| + 3, 3, k + "\n"), Line(|h| + 4 + |k|, 4, "x")]
  {
    hide LinesFrom;
    assert text[0..] == text;
    TwoMoreLines(text, 0, 1, h, k + "\n" + "x");
    TwoLastLines(text, |h| + 3, 3, k);
  }

  lemma FactHeading(title: string)
    requires CleanTitle(title)
    ensures var head := FactHead(title);
            && '\n' !in head && Logical(head + "\n") == head && FenceOf(head).None?
            && ParseAtx(head) == Some(AtxHeading(1, "Fact:" + [' '] + title))
    ensures TypedHeading("Fact:" + [' '] + title) == (Some(FACT), title)
  {
    hide ParseAtx, Logical, FenceOf, TypedHeadingIn, IsWhitespace;
    assert TypedTable()[0] == ("Fact:", FACT);
    NoteHeading(("Fact:", FACT), 1, title);
    TypedHeadingRoundTrip(("Fact:", FACT), 1, title);
  }

  lemma HeadIsOneLine(title: string)
    requires CleanTitle(title)
    ensures '\n' !in FactHead(title)
  {
    hide CleanTitle, ParseAtx, Logical, FenceOf, TypedHeading;
    FactHeading(title);
  }

  lemma TwoFactLines(a: string, b: string)
    requires CleanTitle(a) && CleanTitle(b)
    ensures var n := |FactHead(a)|;
            Lines(TwoFacts(a, b)) == [Line(0, 1, FactHead(a) + "\n"), Line(n + 1, 2, "x" + "\n"),
                                      Line(n + 3, 3, FactHead(b) + "\n"), Line(n + 4 + |FactHead(b)|, 4, "x")]
  {
    hide FactHead, LinesFrom, CleanTitle;
    HeadIsOneLine(a);
    HeadIsOneLine(b);
    FourLines(TwoFacts(a, b), FactHead(a), FactHead(b));
  }

  lemma TrimLetterLine()
    ensures Trim("x" + "\n") == "x"
  {
    hide IsWhitespace;
    WhitespaceBelow('x');
    WhitespaceBelow('\n');
    var s := "x" + "\n";
    NoLeadingBlank(s);
    assert s[..1] == "x";
    assert TrimEnd(s) == TrimEnd(s[..1]);
  }

  lemma LetterLineIsNoHeading()
    ensures FenceOf(Logical("x" + "\n")).None? && ParseAtx(Logical("x" + "\n")).None? && Trim("x" + "\n") == "x"
  {
    hide IsWhitespace, ParseAtx, FenceOf, Trim;
    LetterIsNoHeading();
    assert Logical("x" + "\n") == "x" && Logical("x") == "x";
    TrimLetterLine();
  }

  lemma TwoFactHeadings(a: string, b: string)
    requires CleanTitle(a) && CleanTitle(b)
    ensures Headings(TwoFacts(a, b))
            == [Heading(0, 1, 1, "Fact:" + [' '] + a), Heading(|FactHead(a)| + 3, 3, 1, "Fact:" + [' '] + b)]
  {
    hide ParseAtx, FenceOf, Logical, Trim, FactHead, LinesFrom, TypedHeading;
    var ls := Lines(TwoFacts(a, b));
    TwoFactLines(a, b);
    FactHeading(a);
    FactHeading(b);
    LetterIsNoHeading();
    LetterLineIsNoHeading();
    assert OpenFence(ls, 0).None? && OpenFence(ls, 1).None? && OpenFence(ls, 2).None? && OpenFence(ls, 3).None?;
    var first := Heading(0, 1, 1, "Fact:" + [' '] + a);
    var second := Heading(|FactHead(a)| + 3, 3, 1, "Fact:" + [' '] + b);
    assert HeadingAt(ls, 0) == Some(first) && HeadingAt(ls, 1) == None;
    assert HeadingAt(ls, 2) == Some(second) && HeadingAt(ls, 3) == None;
    assert HeadingsOf(ls, 0) == [];
    assert HeadingsOf(ls, 1) == [first];
    assert HeadingsOf(ls, 2) == [first];
    assert HeadingsOf(ls, 3) == [first, second];
  }

  lemma TwoFactSections(a: string, b: string)
    requires CleanTitle(a) && CleanTitle(b)
    ensures var text := TwoFacts(a, b); var ss := SectionsOf(text);
            && |ss| == 2 && InText(text, ss[0]) && InText(text, ss[1])
            && ss[0].kind == ss[1].kind == Some(FACT) && ss[0].title == a && ss[1].title == b
            && SectionBody(text, ss[0]) == SectionBody(text, ss[1]) == "x"
  {
    hide ParseAtx, FenceOf, Logical, Trim, Headings, TypedHeading, LineLength, FactHead, Ancestors;
    var text, h, k := TwoFacts(a, b), FactHead(a), FactHead(b);
    var hs, ss := Headings(text), SectionsOf(text);
    TwoFactHeadings(a, b);
    FactHeading(a);
    FactHeading(b);
    LetterIsNoHeading();
    LetterLineIsNoHeading();
    assert Closer(hs, 0, 1) == 1 && Closer(hs, 1, 2) == 2;
    assert ss[0] == SectionAt(hs, 0, |text|) && ss[1] == SectionAt(hs, 1, |text|);
    var n := |h| + 3;
    assert ss[0].start == 0 && ss[0].end == n && ss[1].start == n && ss[1].end == |text|;
    FirstLineLength(h, "x" + "\n");
    FirstLineLength(k, "x");
    assert text[0..n] == h + "\n" + ("x" + "\n");
    assert text[n..|text|] == k + "\n" + "x";
    assert text[|h| + 1..n] == "x" + "\n";
    assert text[n + |k| + 1..|text|] == "x";
  }

  /** A generic fact as extracted: it waits for a reviewer, with evidence that supersedes nothing. */
  ghost predicate WaitingFact(source: Source, title: string, c: Candidate) {
    && c.memory == Memory(Fact, Semantic, title, "x", DefaultScope(source), [])
    && c.classification.sensitivity == Sensitivity.Unknown && c.classification.policy == Policy(NeedsReview)
    && c.action == NoWrite(NeedsReviewReason)
    && |c.evidence| == 1 && c.evidence[0].semanticLocation.None?
  }

  lemma FactCandidate(env: Env, source: Source, text: string, extractor: Extractor, s: Section)
    requires InText(text, s) && s.kind == Some(FACT) && CleanTitle(s.title) && SectionBody(text, s) == "x"
    ensures var r := SectionCandidate(env, source, text, extractor, s);
            |r| == 1 && WaitingFact(source, s.title, r[0])
  {
    hide Trim, BodyStart, DefaultScope, IsWhitespace;
    TrimFixed(s.title);
  }

  /** The two facts become two waiting candidates, in order. */
  lemma TwoFactsExtracted(env: Env, source: Source, extractor: Extractor, a: string, b: string)
    requires CleanTitle(a) && CleanTitle(b)
    ensures var r := Extracted(env, source, TwoFacts(a, b), extractor);
            && r.Success? && |r.value.candidates| == 2
            && WaitingFact(source, a, r.value.candidates[0]) && WaitingFact(source, b, r.value.candidates[1])
  {
    hide SectionsOf, SectionCandidate, DiagnosticsUpTo, InText, TwoFacts, SectionBody, WaitingFact, CleanTitle,
      UnclassifiedCandidate, AllInText;
    var text := TwoFacts(a, b);
    var ss := SectionsOf(text);
    TwoFactSections(a, b);
    SectionsInText(text);
    FactCandidate(env, source, text, extractor, ss[0]);
    FactCandidate(env, source, text, extractor, ss[1]);
    assert Recognized(ss);
    assert SectionCandidates(env, source, text, extractor, ss, 0) == [];
    assert SectionCandidates(env, source, text, extractor, ss, 1)
           == SectionCandidate(env, source, text, extractor, ss[0]);
  }
}
