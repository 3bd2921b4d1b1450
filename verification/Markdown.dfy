/** Lines, fences, ATX headings and typed headings of a Markdown source. */
module Markdown {
  import opened Prelude
  import opened Text
  import opened CaptureModel

  // ------------------------------------------------------------- lines

  /** Length of the first line with its newline; of the whole text when there is no newline. */
  function LineLength(s: string): (n: nat)
    ensures n <= |s| && (s != [] ==> n > 0)
    ensures n < |s| ==> s[n - 1] == '\n'
    ensures forall i :: 0 <= i < n - 1 ==> s[i] != '\n'
  {
    if s == [] then 0
    else if s[0] == '\n' then 1
    else 1 + LineLength(s[1..])
  }

  datatype Line = Line(start: nat, number: nat, text: string)

  function LinesFrom(text: string, offset: nat, number: nat): seq<Line>
    requires offset <= |text|
    decreases |text| - offset
  {
    if offset == |text| then []
    else
      var n := LineLength(text[offset..]);
      [Line(offset, number, text[offset..offset + n])] + LinesFrom(text, offset + n, number + 1)
  }

  /** `split_inclusive('\n')` with the positions and numbers the scanner keeps. */
  function Lines(text: string): seq<Line> {
    LinesFrom(text, 0, 1)
  }

  function Newlines(s: string): nat {
    if s == [] then 0 else Newlines(s[..|s| - 1]) + (if s[|s| - 1] == '\n' then 1 else 0)
  }

  lemma {:induction false} NewlinesConcat(a: string, b: string)
    ensures Newlines(a + b) == Newlines(a) + Newlines(b)
  {
    if b == [] {
      assert a + b == a;
    } else {
      var n := |b| - 1;
      assert (a + b)[..|a + b| - 1] == a + b[..n];
      NewlinesConcat(a, b[..n]);
    }
  }

  lemma {:induction false} NoNewlines(s: string)
    requires forall i :: 0 <= i < |s| ==> s[i] != '\n'
    ensures Newlines(s) == 0
  {
    if s != [] {
      NoNewlines(s[..|s| - 1]);
    }
  }

  /** A line starts at the beginning of the text or right after a newline, its number counts the newlines
      before it, and it holds exactly the characters up to and including the next newline. */
  ghost predicate IsLineOf(text: string, l: Line) {
    && l.start < |text|
    && (l.start == 0 || text[l.start - 1] == '\n')
    && l.number == 1 + Newlines(text[..l.start])
    && l.text == text[l.start..l.start + LineLength(text[l.start..])]
  }

  lemma LineHasOneNewline(s: string)
    requires s != [] && s[LineLength(s) - 1] == '\n'
    ensures Newlines(s[..LineLength(s)]) == 1
  {
    var n := LineLength(s) - 1;
    var body := s[..n];
    assert s[..n + 1] == body + ['\n'];
    assert forall i :: 0 <= i < |body| ==> body[i] == s[i];
    NoNewlines(body);
    NewlinesConcat(body, ['\n']);
    assert Newlines(['\n'][..0]) == 0;
  }

  /** The lines, from `offset` on, tile the text. */
  ghost predicate LinesTile(text: string, offset: nat, ls: seq<Line>) {
    && (forall i :: 0 <= i < |ls| ==> IsLineOf(text, ls[i]))
    && (ls == [] <==> offset == |text|)
    && (ls != [] ==> ls[0].start == offset && ls[|ls| - 1].start + |ls[|ls| - 1].text| == |text|)
    && (forall i :: 0 <= i < |ls| - 1 ==> ls[i + 1].start == ls[i].start + |ls[i].text|)
  }

  /** The scanner's position is a line start with the right number. */
  ghost predicate AtLineStart(text: string, offset: nat, number: nat) {
    offset < |text| ==> (offset == 0 || text[offset - 1] == '\n') && number == 1 + Newlines(text[..offset])
  }

  lemma NextLine(text: string, offset: nat, number: nat)
    requires offset < |text| && AtLineStart(text, offset, number)
    ensures var n := LineLength(text[offset..]);
            && IsLineOf(text, Line(offset, number, text[offset..offset + n]))
            && AtLineStart(text, offset + n, number + 1)
  {
    hide Newlines, LineLength;
    var rest := text[offset..];
    var n := LineLength(rest);
    if offset + n < |text| {
      assert text[offset + n - 1] == rest[n - 1];
      LineHasOneNewline(rest);
      assert text[..offset + n] == text[..offset] + rest[..n];
      NewlinesConcat(text[..offset], rest[..n]);
    }
  }

  lemma LineInText(text: string, l: Line)
    requires IsLineOf(text, l)
    ensures l.start < |text|
  {
  }

  lemma OneMoreLine(text: string, l: Line, ls: seq<Line>)
    requires l.start + |l.text| <= |text| && IsLineOf(text, l) && LinesTile(text, l.start + |l.text|, ls)
    ensures LinesTile(text, l.start, [l] + ls)
  {
    hide IsLineOf;
    assert l.start < |text| by { LineInText(text, l); }
  }

  lemma NoMoreLines(text: string)
    ensures LinesTile(text, |text|, [])
  {
  }

  lemma {:induction false} LinesFromMeaning(text: string, offset: nat, number: nat)
    requires offset <= |text| && AtLineStart(text, offset, number)
    ensures LinesTile(text, offset, LinesFrom(text, offset, number))
    decreases |text| - offset
  {
    hide LineLength, LinesTile, IsLineOf, AtLineStart;
    if offset < |text| {
      NextLine(text, offset, number);
      var n := LineLength(text[offset..]);
      LinesFromMeaning(text, offset + n, number + 1);
      OneMoreLine(text, Line(offset, number, text[offset..offset + n]), LinesFrom(text, offset + n, number + 1));
    } else {
      NoMoreLines(text);
    }
  }

  lemma LinesMeaning(text: string)
    ensures LinesTile(text, 0, Lines(text))
  {
    LinesFromMeaning(text, 0, 1);
  }

  function StripSuffix(s: string, c: char): string {
    if s != [] && s[|s| - 1] == c then s[..|s| - 1] else s
  }

  /** The scanner's logical line: without the newline, then without one carriage return. */
  function Logical(line: string): string {
    StripSuffix(StripSuffix(line, '\n'), '\r')
  }

  /** A line of `str::lines`, which strips a carriage return only in front of a newline. */
  function LineContent(line: string): string {
    if line != [] && line[|line| - 1] == '\n' then Logical(line) else line
  }

  function RunLength(s: string, c: char): (n: nat)
    ensures n <= |s| && (forall i :: 0 <= i < n ==> s[i] == c) && (n < |s| ==> s[n] != c)
  {
    if s != [] && s[0] == c then 1 + RunLength(s[1..], c) else 0
  }

  // ------------------------------------------------------------- headings

  datatype AtxHeading = AtxHeading(level: nat, title: string)

  function DropTrailingHashes(s: string): (r: string)
    ensures |r| <= |s| && r == s[..|r|] && (r != [] ==> r[|r| - 1] != '#')
  {
    if s != [] && s[|s| - 1] == '#' then DropTrailingHashes(s[..|s| - 1]) else s
  }

  /** `parse_atx_heading`. */
  function ParseAtx(line: string): (r: Option<AtxHeading>)
    ensures r.Some? ==> 1 <= r.value.level <= 6 && Trimmed(r.value.title)
  {
    var l := TrimStart(line);
    var level := RunLength(l, '#');
    if 1 <= level <= 6 && level < |l| && l[level] == ' ' then
      Some(AtxHeading(level, Trim(DropTrailingHashes(Trim(l[level + 1..])))))
    else None
  }

  function Hashes(level: nat): (r: string)
    ensures |r| == level && forall i :: 0 <= i < level ==> r[i] == '#'
  {
    seq(level, _ => '#')
  }

  lemma HashRun(level: nat, rest: string)
    requires rest == [] || rest[0] != '#'
    ensures RunLength(Hashes(level) + rest, '#') == level
  {
    hide RunLength;
    var line := Hashes(level) + rest;
    assert forall i :: 0 <= i < level ==> line[i] == '#';
    assert rest != [] ==> line[level] == rest[0];
  }

  lemma NoLeadingBlank(s: string)
    requires s != [] && !IsWhitespace(s[0])
    ensures TrimStart(s) == s
  {
  }

  lemma NoTrailingHash(s: string)
    requires s != "" ==> s[|s| - 1] != '#'
    ensures DropTrailingHashes(s) == s
  {
  }

  /** What the parser makes of the text behind the hashes and one blank. */
  function AtxTitle(rest: string): string {
    Trim(DropTrailingHashes(Trim(rest)))
  }

  lemma ParseAtxParts(line: string, level: nat, rest: string)
    requires 1 <= level <= 6 && level < |line| && line[level] == ' ' && line[level + 1..] == rest
    requires TrimStart(line) == line && RunLength(line, '#') == level
    ensures ParseAtx(line) == Some(AtxHeading(level, AtxTitle(rest)))
  {
    hide IsWhitespace, RunLength, TrimStart, Trim, DropTrailingHashes;
  }

  lemma HashIsNoWhitespace()
    ensures !IsWhitespace('#')
  {
  }

  lemma ParseWritten(level: nat, rest: string)
    requires 1 <= level <= 6
    ensures ParseAtx(Hashes(level) + [' '] + rest) == Some(AtxHeading(level, AtxTitle(rest)))
  {
    hide IsWhitespace, RunLength, TrimStart, Trim, ParseAtx, Hashes, AtxTitle;
    var line := Hashes(level) + [' '] + rest;
    assert line == Hashes(level) + ([' '] + rest);
    HashIsNoWhitespace();
    NoLeadingBlank(line);
    HashRun(level, [' '] + rest);
    assert line[level + 1..] == rest;
    ParseAtxParts(line, level, rest);
  }

  lemma TrimShortens(s: string)
    ensures |Trim(s)| <= |s|
  {
    hide IsWhitespace;
    TrimStartDropsBlank(s);
  }

  /** A trimmed title written at level one to six is read back if and only if it does not end in a hash. */
  lemma AtxRoundTrip(level: nat, title: string)
    requires 1 <= level <= 6 && Trimmed(title)
    ensures ParseAtx(Hashes(level) + [' '] + title) == Some(AtxHeading(level, title))
            <==> title == "" || title[|title| - 1] != '#'
  {
    hide IsWhitespace, TrimStart, Trim, ParseAtx, Hashes, Trimmed;
    ParseWritten(level, title);
    TrimFixed(title);
    if title == "" || title[|title| - 1] != '#' {
      NoTrailingHash(title);
    } else {
      TrimShortens(DropTrailingHashes(title));
    }
  }

  datatype Fence = Fence(marker: char, count: nat)

  /** A run of at least three backticks or tildes opening the trimmed line. */
  function FenceOf(logical: string): Option<Fence> {
    var t := TrimStart(logical);
    if t != [] && t[0] in {'`', '~'} && RunLength(t, t[0]) >= 3 then Some(Fence(t[0], RunLength(t, t[0]))) else None
  }

  function ToggleFence(open: Option<Fence>, f: Fence): Option<Fence> {
    if open.None? then Some(f)
    else if open.value.marker == f.marker && f.count >= open.value.count then None
    else open
  }

  /** The fence that is open after the first `n` lines. */
  function OpenFence(ls: seq<Line>, n: nat): Option<Fence>
    requires n <= |ls|
  {
    if n == 0 then None
    else
      var f := FenceOf(Logical(ls[n - 1].text));
      if f.Some? then ToggleFence(OpenFence(ls, n - 1), f.value) else OpenFence(ls, n - 1)
  }

  datatype Heading = Heading(start: nat, line: nat, level: nat, title: string)

  function HeadingAt(ls: seq<Line>, i: nat): Option<Heading>
    requires i < |ls|
  {
    var logical := Logical(ls[i].text);
    if FenceOf(logical).None? && OpenFence(ls, i).None? && ParseAtx(logical).Some? then
      var h := ParseAtx(logical).value;
      Some(Heading(ls[i].start, ls[i].number, h.level, h.title))
    else None
  }

  function HeadingsOf(ls: seq<Line>, n: nat): (hs: seq<Heading>)
    requires n <= |ls|
    ensures |hs| <= n
  {
    if n == 0 then []
    else
      var h := HeadingAt(ls, n - 1);
      HeadingsOf(ls, n - 1) + (if h.Some? then [h.value] else [])
  }

  function Headings(text: string): seq<Heading> {
    HeadingsOf(Lines(text), |Lines(text)|)
  }

  /** Inside a fence nothing is a heading until a line closes it with at least as many of its marks. */
  lemma {:induction false} NoHeadingInsideFence(ls: seq<Line>, i: nat, m: nat, f: Fence)
    requires i <= m < |ls| && OpenFence(ls, i) == Some(f)
    requires forall j :: i <= j < m ==>
      !(FenceOf(Logical(ls[j].text)).Some? && FenceOf(Logical(ls[j].text)).value.marker == f.marker
        && FenceOf(Logical(ls[j].text)).value.count >= f.count)
    ensures OpenFence(ls, m) == Some(f) && HeadingAt(ls, m).None?
    decreases m
  {
    hide FenceOf, Logical, ParseAtx;
    if i < m {
      NoHeadingInsideFence(ls, i, m - 1, f);
    }
  }

  lemma LinesStep(ls: seq<Line>, n: nat, text: string, offset: nat, number: nat)
    requires offset < |text| && n <= |ls| && ls[n..] == LinesFrom(text, offset, number)
    ensures var length := LineLength(text[offset..]);
            && n < |ls| && ls[n] == Line(offset, number, text[offset..offset + length])
            && ls[n + 1..] == LinesFrom(text, offset + length, number + 1)
  {
    assert ls[n] == ls[n..][0] && ls[n..][1..] == ls[n + 1..];
  }

  lemma LinesEnd(text: string, offset: nat, number: nat)
    requires offset == |text|
    ensures LinesFrom(text, offset, number) == []
  {
  }

  /** The scanner's single pass over the lines. */
  method ScanHeadings(text: string) returns (headings: seq<Heading>)
    ensures headings == Headings(text)
  {
    hide FenceOf, Logical, ParseAtx, LinesFrom, LineLength;
    headings := [];
    var offset, number := 0, 1;
    var fence: Option<Fence> := None;
    ghost var ls := Lines(text);
    ghost var n := 0;
    while offset < |text|
      invariant offset <= |text| && n <= |ls|
      invariant ls[n..] == LinesFrom(text, offset, number)
      invariant fence == OpenFence(ls, n)
      invariant headings == HeadingsOf(ls, n)
      decreases |text| - offset
    {
      LinesStep(ls, n, text, offset, number);
      var length := LineLength(text[offset..]);
      var logical := Logical(text[offset..offset + length]);
      var mark := FenceOf(logical);
      if mark.Some? {
        fence := ToggleFence(fence, mark.value);
      } else if fence.None? {
        var h := ParseAtx(logical);
        if h.Some? {
          headings := headings + [Heading(offset, number, h.value.level, h.value.title)];
        }
      }
      offset := offset + length;
      number := number + 1;
      n := n + 1;
    }
    LinesEnd(text, offset, number);
  }

  // ------------------------------------------------------------- where headings stand

  ghost predicate HeadingIn(text: string, h: Heading) {
    && h.start < |text|
    && (h.start == 0 || text[h.start - 1] == '\n')
    && h.line == 1 + Newlines(text[..h.start])
    && ParseAtx(Logical(text[h.start..h.start + LineLength(text[h.start..])])) == Some(AtxHeading(h.level, h.title))
  }

  lemma HeadingAtMeaning(text: string, i: nat)
    requires i < |Lines(text)|
    ensures var h := HeadingAt(Lines(text), i);
            h.Some? ==> HeadingIn(text, h.value) && h.value.start == Lines(text)[i].start
  {
    hide FenceOf, Logical, LineLength, Newlines, OpenFence, TrimStart, ParseAtx, LinesFrom;
    LinesMeaning(text);
    assert IsLineOf(text, Lines(text)[i]);
  }

  /** Headings stand at line starts, in strictly increasing positions, with their line numbers. */
  ghost predicate HeadingsPlaced(text: string, hs: seq<Heading>) {
    && (forall i :: 0 <= i < |hs| ==> HeadingIn(text, hs[i]))
    && (forall i, j :: 0 <= i < j < |hs| ==> hs[i].start < hs[j].start)
  }

  ghost predicate HeadingsAtLines(ls: seq<Line>, hs: seq<Heading>, n: nat) {
    forall i :: 0 <= i < |hs| ==> exists k :: 0 <= k < n && k < |ls| && hs[i].start == ls[k].start
  }

  lemma {:induction false} LineStartsAscend(text: string, i: nat, j: nat)
    requires i < j < |Lines(text)|
    ensures Lines(text)[i].start < Lines(text)[j].start
    decreases j
  {
    hide Newlines, LinesFrom;
    LinesMeaning(text);
    var ls := Lines(text);
    assert IsLineOf(text, ls[j - 1]);
    assert |ls[j - 1].text| > 0;
    assert ls[j - 1 + 1].start == ls[j - 1].start + |ls[j - 1].text|;
    if i < j - 1 {
      LineStartsAscend(text, i, j - 1);
    }
  }

  lemma {:induction false} HeadingsOfMeaning(text: string, n: nat)
    requires n <= |Lines(text)|
    ensures HeadingsPlaced(text, HeadingsOf(Lines(text), n))
    ensures HeadingsAtLines(Lines(text), HeadingsOf(Lines(text), n), n)
  {
    hide HeadingAt, HeadingIn, LinesFrom;
    if n > 0 {
      HeadingsOfMeaning(text, n - 1);
      HeadingAtMeaning(text, n - 1);
      var hs := HeadingsOf(Lines(text), n - 1);
      forall i | 0 <= i < |hs|
        ensures hs[i].start < Lines(text)[n - 1].start
      {
        var k :| 0 <= k < n - 1 && k < |Lines(text)| && hs[i].start == Lines(text)[k].start;
        LineStartsAscend(text, k, n - 1);
      }
    }
  }

  lemma HeadingsMeaning(text: string)
    ensures HeadingsPlaced(text, Headings(text))
  {
    hide HeadingsPlaced;
    HeadingsOfMeaning(text, |Lines(text)|);
  }

  // ------------------------------------------------------------- typed headings

  datatype TypedKind = TypedKind(
    memoryType: MemoryType, lane: MemoryLane, destination: MemoryDestination, sensitivity: Sensitivity,
    section: SectionKind)

  const FACT := TypedKind(Fact, Semantic, Repo, RepoSafe, FactSection)
  const PREFERENCE := TypedKind(Preference, Semantic, Local, LocalOnly, PreferenceSection)
  const DECISION := TypedKind(Decision, Semantic, Repo, RepoSafe, DecisionSection)
  const PROCEDURE := TypedKind(Procedure, Procedural, Repo, RepoSafe, ProcedureSection)
  const EPISODE := TypedKind(Episode, MemoryLane.Session, MemoryDestination.Session, TemporaryState, EpisodeSection)
  const WARNING := TypedKind(Warning, Semantic, Repo, RepoSafe, WarningSection)
  const FAILED_ATTEMPT := TypedKind(FailedAttempt, Episodic, Repo, RepoSafe, FailedAttemptSection)
  const RISK := TypedKind(Risk, Semantic, Repo, RepoSafe, RiskSection)

  function TypedTable(): seq<(string, TypedKind)> {
    [ ("Fact:", FACT), ("Preference:", PREFERENCE), ("Decision:", DECISION), ("Procedure:", PROCEDURE),
      ("Episode:", EPISODE), ("Warning:", WARNING), ("Failed attempt:", FAILED_ATTEMPT), ("Risk:", RISK) ]
  }

  function TypedHeadingIn(table: seq<(string, TypedKind)>, heading: string): (r: (Option<TypedKind>, string))
    ensures r.0.Some? ==> Trimmed(r.1) && exists row :: row in table && row.1 == r.0.value
  {
    if table == [] then (None, heading)
    else if table[0].0 <= heading then
      assert table[0] in table;
      (Some(table[0].1), Trim(heading[|table[0].0|..]))
    else
      var r := TypedHeadingIn(table[1..], heading);
      assert forall row :: row in table[1..] ==> row in table;
      r
  }

  /** `typed_heading`: the kind of the first matching prefix, and the title after it. */
  function TypedHeading(heading: string): (Option<TypedKind>, string) {
    TypedHeadingIn(TypedTable(), heading)
  }

  predicate PrefixFree(table: seq<(string, TypedKind)>) {
    forall i, j :: 0 <= i < j < |table| ==> !(table[i].0 <= table[j].0) && !(table[j].0 <= table[i].0)
  }

  lemma PrefixesCompare(a: string, b: string, rest: string)
    ensures a <= b + rest ==> a <= b || b <= a
  {
    if a <= b + rest {
      assert forall i :: 0 <= i < |a| && i < |b| ==> a[i] == (b + rest)[i] == b[i];
    }
  }

  lemma {:induction false} TypedRowReadBack(table: seq<(string, TypedKind)>, i: nat, rest: string)
    requires i < |table| && PrefixFree(table)
    ensures TypedHeadingIn(table, table[i].0 + rest) == (Some(table[i].1), Trim(rest))
  {
    hide Trim;
    var heading := table[i].0 + rest;
    if i == 0 {
      assert heading[|table[0].0|..] == rest;
    } else {
      PrefixesCompare(table[0].0, table[i].0, rest);
      assert forall j :: 0 <= j < |table| - 1 ==> table[1..][j] == table[j + 1];
      TypedRowReadBack(table[1..], i - 1, rest);
    }
  }

  /** The words of two different rows part at their first or third letter. */
  lemma TypedTableIsPrefixFree()
    ensures PrefixFree(TypedTable())
  {
    var t := TypedTable();
    assert forall i :: 0 <= i < |t| ==> |t[i].0| >= 5;
    assert forall i, j :: 0 <= i < j < |t| ==> t[i].0[0] != t[j].0[0] || t[i].0[2] != t[j].0[2];
  }

  lemma {:induction false} TrimEndKeeps(s: string, n: nat)
    requires 0 < n <= |s| && !IsWhitespace(s[n - 1])
    ensures n <= |TrimEnd(s)|
  {
    hide IsWhitespace;
    if n < |s| {
      TrimEndKeeps(s[..|s| - 1], n);
    }
  }

  lemma {:induction false} DropHashesKeeps(s: string, n: nat)
    requires 0 < n <= |s| && s[n - 1] != '#'
    ensures n <= |DropTrailingHashes(s)|
  {
    if n < |s| {
      DropHashesKeeps(s[..|s| - 1], n);
    }
  }

  /** A word that neither cut can reach: begins and ends with no blank, and does not end in a hash. */
  ghost predicate Firm(p: string) {
    p != "" && !IsWhitespace(p[0]) && !IsWhitespace(p[|p| - 1]) && p[|p| - 1] != '#'
  }

  lemma TrimTail(p: string, tail: string) returns (k: nat)
    requires Firm(p)
    ensures k <= |tail| && Trim(p + tail) == p + tail[..k]
  {
    hide IsWhitespace, TrimStart, TrimEnd;
    var s := p + tail;
    NoLeadingBlank(s);
    assert s[|p| - 1] == p[|p| - 1];
    TrimEndKeeps(s, |p|);
    k := |TrimEnd(s)| - |p|;
  }

  lemma DropHashesTail(p: string, tail: string) returns (k: nat)
    requires Firm(p)
    ensures k <= |tail| && DropTrailingHashes(p + tail) == p + tail[..k]
    ensures tail != "" && tail[|tail| - 1] == '#' ==> k < |tail|
  {
    hide IsWhitespace, DropTrailingHashes;
    var s := p + tail;
    assert s[|p| - 1] == p[|p| - 1];
    DropHashesKeeps(s, |p|);
    k := |DropTrailingHashes(s)| - |p|;
    if tail != "" && tail[|tail| - 1] == '#' {
      assert s[|s| - 1] == '#';
    }
  }

  /** What is left of a typed heading: the prefix, and a front part of the blank and the title. */
  lemma TypedRest(p: string, title: string) returns (k: nat)
    requires Firm(p) && Trimmed(title)
    ensures k <= 1 + |title| && AtxTitle(p + [' '] + title) == p + ([' '] + title)[..k]
    ensures title != "" && title[|title| - 1] == '#' ==> k <= |title|
    ensures title != "" && title[|title| - 1] != '#' ==> k == 1 + |title|
  {
    hide IsWhitespace, Trim, DropTrailingHashes;
    var tail := [' '] + title;
    var s := p + [' '] + title;
    assert s == p + tail;
    var a := TrimTail(p, tail);
    if title != "" {
      assert s[0] == p[0] && s[|s| - 1] == title[|title| - 1];
      TrimFixed(s);
      assert |p + tail[..a]| == |s|;
      assert tail[..a] == tail && tail[|tail| - 1] == title[|title| - 1];
    }
    var b := DropHashesTail(p, tail[..a]);
    assert tail[..a][..b] == tail[..b];
    k := TrimTail(p, tail[..b]);
    assert tail[..b][..k] == tail[..k];
    if title != "" && title[|title| - 1] != '#' {
      NoTrailingHash(s);
      assert |p + tail[..b]| == |s|;
      assert p + tail[..b] == s;
      assert |p + tail[..k]| == |s|;
    }
  }

  lemma SpaceIsBlank()
    ensures IsWhitespace(' ')
  {
  }

  lemma BlankTrims()
    ensures Trim("") == "" && Trim(" ") == ""
  {
    assert " "[1..] == "";
    SpaceIsBlank();
    assert TrimStart(" ") == TrimStart("");
  }

  /** A blank in front is always lost. */
  lemma TrimOfRest(rest: string)
    requires rest == "" || rest[0] == ' '
    ensures rest != "" ==> |Trim(rest)| < |rest|
    ensures rest == "" ==> Trim(rest) == ""
  {
    hide IsWhitespace;
    if rest != "" {
      assert IsWhitespace(' ') by { SpaceIsBlank(); }
      assert TrimStart(rest) == TrimStart(rest[1..]);
      TrimStartDropsBlank(rest[1..]);
    }
  }

  lemma TypedPrefixesAreFirm(row: (string, TypedKind))
    requires row in TypedTable()
    ensures Firm(row.0)
  {
    hide IsWhitespace;
    assert forall i :: 0 <= i < |TypedTable()| ==> 'A' <= TypedTable()[i].0[0] <= 'Z';
    assert forall i :: 0 <= i < |TypedTable()| ==> TypedTable()[i].0[|TypedTable()[i].0| - 1] == ':';
    WhitespaceBelow(row.0[0]);
    WhitespaceBelow(':');
  }

  lemma TrimDropsSpace(title: string)
    requires Trimmed(title) && title != ""
    ensures Trim([' '] + title) == title
  {
    hide IsWhitespace;
    assert IsWhitespace(' ') by { SpaceIsBlank(); }
    assert ([' '] + title)[1..] == title;
    NoLeadingBlank(title);
    assert TrimStart([' '] + title) == title;
  }

  /** A typed heading of any kind, written at any level with a trimmed title, is read back with that kind,
      level and title if and only if the title does not end in a hash. */
  lemma TypedHeadingRoundTrip(row: (string, TypedKind), level: nat, title: string)
    requires row in TypedTable() && 1 <= level <= 6 && Trimmed(title)
    ensures var h := ParseAtx(Hashes(level) + [' '] + (row.0 + [' '] + title));
            && h.Some? && h.value.level == level && TypedHeading(h.value.title).0 == Some(row.1)
            && (TypedHeading(h.value.title).1 == title <==> title == "" || title[|title| - 1] != '#')
  {
    hide ParseAtx, TypedTable, TypedHeadingIn, IsWhitespace, Trim, AtxTitle;
    TypedTableIsPrefixFree();
    var i :| 0 <= i < |TypedTable()| && TypedTable()[i] == row;
    TypedPrefixesAreFirm(row);
    ParseWritten(level, row.0 + [' '] + title);
    var k := TypedRest(row.0, title);
    var rest := ([' '] + title)[..k];
    TypedRowReadBack(TypedTable(), i, rest);
    if title == "" {
      assert rest == "" || rest == " ";
      BlankTrims();
    } else if title[|title| - 1] != '#' {
      assert rest == [' '] + title;
      TrimDropsSpace(title);
    } else {
      TrimOfRest(rest);
    }
  }

  /** `first_heading`, which does not look at fences. */
  function FirstHeading(ls: seq<Line>): (r: Option<string>)
    ensures r.Some? ==> Trimmed(r.value)
  {
    if ls == [] then None
    else
      var h := ParseAtx(LineContent(ls[0].text));
      if h.Some? then Some(h.value.title) else FirstHeading(ls[1..])
  }
}
