/** `markdown_sections`: heading levels turned into nested sections by two stacks. */
module Sections {
  import opened Prelude
  import opened Markdown

  datatype Section = Section(
    start: nat, end: nat, directEnd: nat, line: nat, kind: Option<TypedKind>, title: string, headingPath: seq<string>)

  // ------------------------------------------------------------- what the stacks mean

  /** Heading `k` is still open in front of `i`: everything between them is deeper than `k`. */
  ghost predicate StaysOpen(hs: seq<Heading>, k: nat, i: nat)
    requires i <= |hs|
  {
    k < i && forall j :: k < j < i ==> hs[j].level > hs[k].level
  }

  lemma OpenIsEarlier(hs: seq<Heading>, k: nat, i: nat)
    requires i <= |hs|
    ensures StaysOpen(hs, k, i) ==> k < i
  {
  }

  /** Index of the first later heading that is not deeper, or the number of headings. */
  function Closer(hs: seq<Heading>, k: nat, from: nat): (r: nat)
    requires k < from <= |hs|
    ensures from <= r <= |hs|
    ensures forall j :: from <= j < r ==> hs[j].level > hs[k].level
    ensures r < |hs| ==> hs[r].level <= hs[k].level
    decreases |hs| - from
  {
    if from < |hs| && hs[from].level > hs[k].level then Closer(hs, k, from + 1) else from
  }

  function StartOr(hs: seq<Heading>, i: nat, length: nat): nat {
    if i < |hs| then hs[i].start else length
  }

  /** A section runs to the first later heading whose level is not deeper, else to the end of the text. */
  function EndOf(hs: seq<Heading>, k: nat, length: nat): nat
    requires k < |hs|
  {
    StartOr(hs, Closer(hs, k, k + 1), length)
  }

  ghost predicate InRange(hs: seq<Heading>, stack: seq<nat>) {
    forall a :: 0 <= a < |stack| ==> stack[a] < |hs|
  }

  /** The stack of open heading indexes, bottom first: drop what is not shallower than `level`. */
  function PopDeeper(hs: seq<Heading>, stack: seq<nat>, level: nat): (r: seq<nat>)
    requires InRange(hs, stack)
    ensures r <= stack
    ensures r != [] ==> hs[r[|r| - 1]].level < level
  {
    if stack != [] && hs[stack[|stack| - 1]].level >= level then PopDeeper(hs, stack[..|stack| - 1], level) else stack
  }

  function OpenAt(hs: seq<Heading>, i: nat): (r: seq<nat>)
    requires i <= |hs|
    ensures InRange(hs, r)
  {
    if i == 0 then [] else PopDeeper(hs, OpenAt(hs, i - 1), hs[i - 1].level) + [i - 1]
  }

  /** The ancestors of heading `i`, outermost first. */
  function Ancestors(hs: seq<Heading>, i: nat): (r: seq<nat>)
    requires i < |hs|
    ensures InRange(hs, r)
  {
    PopDeeper(hs, OpenAt(hs, i), hs[i].level)
  }

  /** A stack read bottom to top: increasing positions, strictly deeper levels. */
  ghost predicate Nested(hs: seq<Heading>, stack: seq<nat>) {
    && InRange(hs, stack)
    && forall a, b :: 0 <= a < b < |stack| ==> stack[a] < stack[b] && hs[stack[a]].level < hs[stack[b]].level
  }

  /** The stack holds exactly the headings that are open in front of `i`. */
  ghost predicate HoldsOpen(hs: seq<Heading>, stack: seq<nat>, i: nat)
    requires i <= |hs|
  {
    Nested(hs, stack) && forall k: nat :: k in stack <==> StaysOpen(hs, k, i)
  }

  /** What popping down to `level` keeps. */
  ghost predicate PoppedTo(hs: seq<Heading>, before: seq<nat>, open: seq<nat>, level: nat) {
    && Nested(hs, before)
    && open <= before && (open != [] ==> hs[before[|open| - 1]].level < level)
    && forall a :: |open| <= a < |before| ==> hs[before[a]].level >= level
  }

  lemma {:induction false} PopDeeperDrops(hs: seq<Heading>, stack: seq<nat>, level: nat, a: nat)
    requires InRange(hs, stack) && |PopDeeper(hs, stack, level)| <= a < |stack|
    ensures hs[stack[a]].level >= level
    decreases |stack|
  {
    var n := |stack| - 1;
    if a < n {
      assert stack[..n][a] == stack[a];
      PopDeeperDrops(hs, stack[..n], level, a);
    }
  }

  lemma PopDeeperMeaning(hs: seq<Heading>, stack: seq<nat>, level: nat)
    requires Nested(hs, stack)
    ensures PoppedTo(hs, stack, PopDeeper(hs, stack, level), level)
  {
    hide PopDeeper;
    forall a | |PopDeeper(hs, stack, level)| <= a < |stack|
      ensures hs[stack[a]].level >= level
    {
      PopDeeperDrops(hs, stack, level, a);
    }
  }

  lemma PoppedMembers(hs: seq<Heading>, before: seq<nat>, open: seq<nat>, level: nat)
    requires PoppedTo(hs, before, open, level)
    ensures Nested(hs, open)
    ensures forall k: nat :: k in open <==> k in before && hs[k].level < level
  {
    forall a | 0 <= a < |open|
      ensures open[a] in before && hs[open[a]].level < level
    {
      assert open[a] == before[a] && before[a] in before;
      assert a < |open| - 1 ==> hs[before[a]].level < hs[before[|open| - 1]].level;
    }
    forall k: nat | k in before && hs[k].level < level
      ensures k in open
    {
      var a :| 0 <= a < |before| && before[a] == k;
      assert a < |open| && open[a] == k;
    }
  }

  lemma StaysOpenNext(hs: seq<Heading>, k: nat, i: nat)
    requires i < |hs|
    ensures StaysOpen(hs, k, i + 1) <==> k == i || (StaysOpen(hs, k, i) && hs[k].level < hs[i].level)
  {
  }

  /** What pushing heading `i` on the popped stack leaves is exactly what stays open across it. */
  lemma PushOpen(hs: seq<Heading>, before: seq<nat>, open: seq<nat>, i: nat)
    requires i < |hs| && HoldsOpen(hs, before, i) && PoppedTo(hs, before, open, hs[i].level)
    ensures HoldsOpen(hs, open + [i], i + 1)
    ensures Nested(hs, open)
    ensures forall k: nat :: k in open <==> StaysOpen(hs, k, i) && hs[k].level < hs[i].level
  {
    hide StaysOpen, PoppedTo;
    PoppedMembers(hs, before, open, hs[i].level);
    forall k: nat
      ensures k in open ==> k < i
      ensures k in open + [i] <==> StaysOpen(hs, k, i + 1)
    {
      StaysOpenNext(hs, k, i);
      OpenIsEarlier(hs, k, i);
    }
    assert forall a :: 0 <= a < |open| ==> open[a] in open;
  }

  lemma HeldIsNested(hs: seq<Heading>, stack: seq<nat>, i: nat)
    requires i <= |hs| && HoldsOpen(hs, stack, i)
    ensures Nested(hs, stack)
  {
  }

  lemma NothingOpen(hs: seq<Heading>)
    ensures HoldsOpen(hs, [], 0)
  {
  }

  lemma {:induction false} OpenAtMeaning(hs: seq<Heading>, i: nat)
    requires i <= |hs|
    ensures HoldsOpen(hs, OpenAt(hs, i), i)
  {
    hide StaysOpen, PopDeeper, PoppedTo, HoldsOpen, Nested;
    NothingOpen(hs);
    if i > 0 {
      OpenAtMeaning(hs, i - 1);
      HeldIsNested(hs, OpenAt(hs, i - 1), i - 1);
      var below := OpenAt(hs, i - 1);
      PopDeeperMeaning(hs, below, hs[i - 1].level);
      PushOpen(hs, below, PopDeeper(hs, below, hs[i - 1].level), i - 1);
    }
  }

  lemma AncestorsMeaning(hs: seq<Heading>, i: nat)
    requires i < |hs|
    ensures Nested(hs, Ancestors(hs, i))
    ensures forall k: nat :: k in Ancestors(hs, i) <==> StaysOpen(hs, k, i) && hs[k].level < hs[i].level
  {
    hide StaysOpen, OpenAt, PopDeeper, PoppedTo, HoldsOpen, Nested;
    OpenAtMeaning(hs, i);
    HeldIsNested(hs, OpenAt(hs, i), i);
    PopDeeperMeaning(hs, OpenAt(hs, i), hs[i].level);
    PushOpen(hs, OpenAt(hs, i), Ancestors(hs, i), i);
  }

  // ------------------------------------------------------------- the sections

  function TitlesOf(hs: seq<Heading>, indexes: seq<nat>): (r: seq<string>)
    requires InRange(hs, indexes)
    ensures |r| == |indexes| && forall a :: 0 <= a < |r| ==> r[a] == hs[indexes[a]].title
  {
    seq(|indexes|, a requires 0 <= a < |indexes| => hs[indexes[a]].title)
  }

  function SectionAt(hs: seq<Heading>, i: nat, length: nat): Section
    requires i < |hs|
  {
    var typed := TypedHeading(hs[i].title);
    Section(hs[i].start, EndOf(hs, i, length), StartOr(hs, i + 1, length), hs[i].line, typed.0, typed.1,
            TitlesOf(hs, Ancestors(hs, i)) + [hs[i].title])
  }

  function SectionsOf(text: string): (r: seq<Section>)
    ensures |r| == |Headings(text)|
    ensures forall i :: 0 <= i < |r| ==> r[i] == SectionAt(Headings(text), i, |text|)
  {
    var hs := Headings(text);
    seq(|hs|, i requires 0 <= i < |hs| => SectionAt(hs, i, |text|))
  }

  /** Where section `k` ends as far as the headings in front of `i` tell. */
  function EndSoFar(hs: seq<Heading>, k: nat, i: nat, length: nat): nat
    requires k < |hs|
  {
    if Closer(hs, k, k + 1) < i then EndOf(hs, k, length) else length
  }

  lemma EndSoFarStep(hs: seq<Heading>, k: nat, i: nat, length: nat)
    requires k < |hs| && i < |hs|
    ensures EndSoFar(hs, k, i + 1, length) ==
            if StaysOpen(hs, k, i) && hs[i].level <= hs[k].level then hs[i].start else EndSoFar(hs, k, i, length)
  {
  }

  lemma NothingClosed(hs: seq<Heading>, length: nat)
    ensures forall k :: 0 <= k < |hs| ==> EndSoFar(hs, k, 0, length) == length
  {
  }

  lemma EverythingClosed(hs: seq<Heading>, length: nat)
    ensures forall k :: 0 <= k < |hs| ==> EndSoFar(hs, k, |hs|, length) == EndOf(hs, k, length)
  {
  }

  lemma ClosedByNext(hs: seq<Heading>, before: seq<nat>, open: seq<nat>, i: nat, k: nat)
    requires i < |hs| && k < |hs| && HoldsOpen(hs, before, i) && PoppedTo(hs, before, open, hs[i].level)
    ensures k in before[|open|..] <==> StaysOpen(hs, k, i) && hs[i].level <= hs[k].level
  {
    hide StaysOpen;
    PushOpen(hs, before, open, i);
    assert before == open + before[|open|..];
    if k in before[|open|..] {
      var a :| |open| <= a < |before| && before[a] == k;
    }
  }

  /** First stack of the source: closes sections and records where they end. */
  method ComputeEnds(hs: seq<Heading>, length: nat) returns (ends: seq<nat>)
    ensures |ends| == |hs| && forall k :: 0 <= k < |hs| ==> ends[k] == EndOf(hs, k, length)
  {
    hide OpenAt, PopDeeper, EndSoFar, StaysOpen;
    ends := seq(|hs|, _ => length);
    var open: seq<nat> := [];
    NothingOpen(hs);
    NothingClosed(hs, length);
    for i := 0 to |hs|
      invariant |ends| == |hs| && HoldsOpen(hs, open, i)
      invariant forall k :: 0 <= k < |hs| ==> ends[k] == EndSoFar(hs, k, i, length)
    {
      ghost var before := open;
      while open != [] && hs[open[|open| - 1]].level >= hs[i].level
        invariant |ends| == |hs| && open <= before
        invariant forall a :: |open| <= a < |before| ==> hs[before[a]].level >= hs[i].level
        invariant forall a :: |open| <= a < |before| ==> ends[before[a]] == hs[i].start
        invariant forall k :: 0 <= k < |hs| && k !in before[|open|..] ==> ends[k] == EndSoFar(hs, k, i, length)
        decreases |open|
      {
        var n := |open| - 1;
        assert before[n..] == [before[n]] + before[n + 1..];
        ends := ends[open[n] := hs[i].start];
        open := open[..n];
      }
      forall k | 0 <= k < |hs|
        ensures ends[k] == EndSoFar(hs, k, i + 1, length)
      {
        EndSoFarStep(hs, k, i, length);
        ClosedByNext(hs, before, open, i, k);
      }
      PushOpen(hs, before, open, i);
      open := open + [i];
    }
    EverythingClosed(hs, length);
  }

  lemma OpenStart(hs: seq<Heading>)
    ensures OpenAt(hs, 0) == []
  {
  }

  lemma OpenNext(hs: seq<Heading>, i: nat)
    requires i < |hs|
    ensures OpenAt(hs, i + 1) == PopDeeper(hs, OpenAt(hs, i), hs[i].level) + [i]
  {
  }

  lemma PopOnce(hs: seq<Heading>, stack: seq<nat>, level: nat)
    requires InRange(hs, stack)
    ensures if stack != [] && hs[stack[|stack| - 1]].level >= level
            then
              && InRange(hs, stack[..|stack| - 1])
              && PopDeeper(hs, stack, level) == PopDeeper(hs, stack[..|stack| - 1], level)
            else PopDeeper(hs, stack, level) == stack
  {
  }

  function NewSection(hs: seq<Heading>, i: nat, end: nat, stack: seq<(nat, string)>, length: nat): Section
    requires i < |hs|
  {
    var typed := TypedHeading(hs[i].title);
    Section(hs[i].start, end, StartOr(hs, i + 1, length), hs[i].line, typed.0, typed.1,
            seq(|stack|, a requires 0 <= a < |stack| => stack[a].1) + [hs[i].title])
  }

  ghost predicate StackOf(hs: seq<Heading>, indexes: seq<nat>, stack: seq<(nat, string)>) {
    && |stack| == |indexes|
    && forall a :: 0 <= a < |stack| ==> indexes[a] < |hs| && stack[a] == (hs[indexes[a]].level, hs[indexes[a]].title)
  }

  lemma PathFromStack(hs: seq<Heading>, i: nat, indexes: seq<nat>, stack: seq<(nat, string)>, length: nat)
    requires i < |hs| && indexes == Ancestors(hs, i) && StackOf(hs, indexes, stack)
    ensures NewSection(hs, i, EndOf(hs, i, length), stack, length) == SectionAt(hs, i, length)
  {
    hide TypedHeading, Closer, Ancestors;
    assert seq(|stack|, a requires 0 <= a < |stack| => stack[a].1) == TitlesOf(hs, indexes);
  }

  /** Second stack of the source: the titles of the open headings are the path. */
  method BuildSections(text: string) returns (sections: seq<Section>)
    ensures sections == SectionsOf(text)
  {
    hide SectionAt, NewSection, OpenAt, PopDeeper, EndOf, Headings;
    var hs := ScanHeadings(text);
    var ends := ComputeEnds(hs, |text|);
    sections := [];
    var headingStack: seq<(nat, string)> := [];
    ghost var indexes: seq<nat> := OpenAt(hs, 0);
    OpenStart(hs);
    for i := 0 to |hs|
      invariant |sections| == i && forall k :: 0 <= k < i ==> sections[k] == SectionAt(hs, k, |text|)
      invariant indexes == OpenAt(hs, i)
      invariant StackOf(hs, indexes, headingStack)
    {
      while headingStack != [] && headingStack[|headingStack| - 1].0 >= hs[i].level
        invariant StackOf(hs, indexes, headingStack)
        invariant PopDeeper(hs, indexes, hs[i].level) == PopDeeper(hs, OpenAt(hs, i), hs[i].level)
        decreases |headingStack|
      {
        PopOnce(hs, indexes, hs[i].level);
        headingStack := headingStack[..|headingStack| - 1];
        indexes := indexes[..|indexes| - 1];
      }
      PopOnce(hs, indexes, hs[i].level);
      OpenNext(hs, i);
      PathFromStack(hs, i, indexes, headingStack, |text|);
      sections := sections + [NewSection(hs, i, ends[i], headingStack, |text|)];
      headingStack := headingStack + [(hs[i].level, hs[i].title)];
      indexes := indexes + [i];
    }
  }

  // ------------------------------------------------------------- what the sections are

  lemma HeadingsInText(text: string, i: nat)
    requires i < |Headings(text)|
    ensures Headings(text)[i].start < |text|
  {
    hide Headings;
    HeadingsMeaning(text);
    assert HeadingIn(text, Headings(text)[i]);
  }

  /** Any two sections are nested or disjoint. */
  lemma NestedOrDisjoint(text: string, i: nat, k: nat)
    requires i < k < |SectionsOf(text)|
    ensures var s := SectionsOf(text);
            && s[i].start < s[k].start < s[k].directEnd <= s[k].end <= |text|
            && (s[i].end <= s[k].start || s[k].end <= s[i].end)
  {
    hide HeadingsOf, TypedHeading, Ancestors, HeadingIn;
    var hs := Headings(text);
    HeadingsMeaning(text);
    HeadingsInText(text, k);
    var a, b := Closer(hs, i, i + 1), Closer(hs, k, k + 1);
    assert a > k && a < |hs| ==> b <= a;
    if b < |hs| {
      HeadingsInText(text, b);
    }
    if a < |hs| {
      HeadingsInText(text, a);
    }
    if k + 1 < |hs| {
      HeadingsInText(text, k + 1);
    }
  }

  /** Contained in section `k`, from its start inclusive to its end exclusive. */
  predicate Contains(s: Section, position: nat) {
    s.start <= position < s.end
  }

  lemma AncestorContains(text: string, k: nat, i: nat)
    requires k < |SectionsOf(text)| && i < |SectionsOf(text)| && k != i
    ensures var hs := Headings(text);
            Contains(SectionsOf(text)[k], SectionsOf(text)[i].start)
            <==> StaysOpen(hs, k, i) && hs[k].level < hs[i].level
  {
    hide Headings, TypedHeading, Ancestors, HeadingIn;
    var hs := Headings(text);
    HeadingsMeaning(text);
    HeadingsInText(text, i);
    var c := Closer(hs, k, k + 1);
    assert k < i ==> (c <= i <==> !(StaysOpen(hs, k, i) && hs[k].level < hs[i].level));
    assert SectionsOf(text)[k].end == StartOr(hs, c, |text|);
  }

  /** The heading path of a section names exactly the sections that contain its start, outermost first,
      at strictly increasing levels, and then the section itself. */
  lemma HeadingPathMeaning(text: string, i: nat)
    requires i < |SectionsOf(text)|
    ensures Nested(Headings(text), Ancestors(Headings(text), i))
    ensures forall k: nat :: k in Ancestors(Headings(text), i) <==>
              k < |SectionsOf(text)| && k != i && Contains(SectionsOf(text)[k], SectionsOf(text)[i].start)
    ensures SectionsOf(text)[i].headingPath ==
            TitlesOf(Headings(text), Ancestors(Headings(text), i)) + [Headings(text)[i].title]
  {
    hide Headings, TypedHeading, Ancestors, HeadingIn, Contains, StaysOpen, Nested;
    var hs := Headings(text);
    AncestorsMeaning(hs, i);
    forall k: nat
      ensures k in Ancestors(hs, i) <==>
        k < |SectionsOf(text)| && k != i && Contains(SectionsOf(text)[k], SectionsOf(text)[i].start)
    {
      OpenIsEarlier(hs, k, i);
      if k < |hs| && k != i {
        AncestorContains(text, k, i);
      }
    }
  }
}
