/** Greedy selection for a word budget, and the rendered prompt's own cut. */
module PromptBudget {
  import opened Text
  import opened Words
  import opened ContextPack

  const OVERHEAD_WORDS := 6

  datatype Item = Item(hit: Hit, size: nat)

  /** `estimate_result`. */
  function Estimate(h: Hit): nat {
    |WordsOf(h.title)| + |WordsOf(h.body)| + OVERHEAD_WORDS
  }

  // ------------------------------------------------------------- selection

  /** Words used by what was selected among the first `n` hits. */
  function Used(hits: seq<Hit>, budget: nat, n: nat): nat
    requires n <= |hits|
    decreases n, 0
  {
    if n == 0 then 0 else Used(hits, budget, n - 1) + (if Taken(hits, budget, n - 1) then Estimate(hits[n - 1]) else 0)
  }

  /** The first hit is always taken, a later one when it still fits. */
  predicate Taken(hits: seq<Hit>, budget: nat, i: nat)
    requires i < |hits|
    decreases i, 1
  {
    i == 0 || Used(hits, budget, i) + Estimate(hits[i]) <= budget
  }

  /** Positions below `n` that are taken, or that are not, in ascending order. */
  function Positions(hits: seq<Hit>, budget: nat, n: nat, taken: bool): seq<nat>
    requires n <= |hits|
  {
    if n == 0 then []
    else Positions(hits, budget, n - 1, taken) + (if Taken(hits, budget, n - 1) == taken then [n - 1] else [])
  }

  ghost predicate ItemsAt(hits: seq<Hit>, positions: seq<nat>, items: seq<Item>) {
    && |items| == |positions|
    && forall k :: 0 <= k < |items| ==>
         positions[k] < |hits| && items[k] == Item(hits[positions[k]], Estimate(hits[positions[k]]))
  }

  function TotalSize(items: seq<Item>): nat {
    if items == [] then 0 else TotalSize(items[..|items| - 1]) + items[|items| - 1].size
  }

  /** `select_for_budget`. */
  method SelectForBudget(hits: seq<Hit>, budget: nat) returns (selected: seq<Item>, omitted: seq<Item>)
    ensures ItemsAt(hits, Positions(hits, budget, |hits|, true), selected)
    ensures ItemsAt(hits, Positions(hits, budget, |hits|, false), omitted)
    ensures TotalSize(selected) == Used(hits, budget, |hits|)
  {
    hide Estimate;
    selected, omitted := [], [];
    var used := 0;
    for i := 0 to |hits|
      invariant ItemsAt(hits, Positions(hits, budget, i, true), selected)
      invariant ItemsAt(hits, Positions(hits, budget, i, false), omitted)
      invariant used == Used(hits, budget, i) == TotalSize(selected)
      invariant selected == [] <==> i == 0
    {
      var estimate := Estimate(hits[i]);
      var item := Item(hits[i], estimate);
      if selected == [] || used + estimate <= budget {
        used := used + estimate;
        assert (selected + [item])[..|selected|] == selected;
        selected := selected + [item];
      } else {
        omitted := omitted + [item];
      }
    }
  }

  lemma {:induction false} PositionsMeaning(hits: seq<Hit>, budget: nat, n: nat, taken: bool)
    requires n <= |hits|
    ensures var ps := Positions(hits, budget, n, taken);
            && (forall a, b :: 0 <= a < b < |ps| ==> ps[a] < ps[b])
            && (forall i: nat :: i in ps <==> i < n && Taken(hits, budget, i) == taken)
  {
    hide Taken;
    if n > 0 {
      PositionsMeaning(hits, budget, n - 1, taken);
      var ps := Positions(hits, budget, n - 1, taken);
      assert forall a :: 0 <= a < |ps| ==> ps[a] in ps;
    }
  }

  lemma {:induction false} UsedGrows(hits: seq<Hit>, budget: nat, i: nat, n: nat)
    requires i <= n <= |hits|
    ensures Used(hits, budget, i) <= Used(hits, budget, n)
    decreases n
  {
    hide Taken, Estimate;
    if i < n {
      UsedGrows(hits, budget, i, n - 1);
    }
  }

  lemma {:induction false} UsedBounded(hits: seq<Hit>, budget: nat, n: nat)
    requires n <= |hits|
    ensures n > 0 ==> Used(hits, budget, n) <= if Estimate(hits[0]) > budget then Estimate(hits[0]) else budget
  {
    hide Estimate;
    if n > 1 {
      UsedBounded(hits, budget, n - 1);
    }
  }

  /** Selected and omitted hits split the ranked list, each in rank order; the first hit is always
      selected; the total stays within the larger of the budget and the first hit; and no omitted hit would
      still fit. */
  lemma SelectionMeaning(hits: seq<Hit>, budget: nat)
    requires hits != []
    ensures var selected, omitted := Positions(hits, budget, |hits|, true), Positions(hits, budget, |hits|, false);
            var total := Used(hits, budget, |hits|);
            && (forall a, b :: 0 <= a < b < |selected| ==> selected[a] < selected[b])
            && (forall a, b :: 0 <= a < b < |omitted| ==> omitted[a] < omitted[b])
            && (forall i: nat :: i < |hits| <==> i in selected || i in omitted)
            && (forall i: nat :: !(i in selected && i in omitted))
            && 0 in selected
            && total <= (if Estimate(hits[0]) > budget then Estimate(hits[0]) else budget)
            && (forall i: nat :: i in omitted ==> total + Estimate(hits[i]) > budget)
  {
    hide Estimate, Positions;
    PositionsMeaning(hits, budget, |hits|, true);
    PositionsMeaning(hits, budget, |hits|, false);
    UsedBounded(hits, budget, |hits|);
    forall i: nat | i < |hits| && !Taken(hits, budget, i)
      ensures Used(hits, budget, |hits|) + Estimate(hits[i]) > budget
    {
      UsedGrows(hits, budget, i, |hits|);
    }
  }

  // ------------------------------------------------------------- rendering

  /** `truncate_words`. */
  function TruncateWords(text: string, budget: nat): string {
    if |WordsOf(text)| <= budget then text else Join(WordsOf(text)[..budget], ' ')
  }

  lemma SpaceIsWhitespace()
    ensures IsWhitespace(' ') && IsWhitespace('\n')
  {
  }

  /** Truncation keeps exactly the leading words. */
  lemma TruncateKeepsLeadingWords(text: string, budget: nat)
    ensures WordsOf(TruncateWords(text, budget)) ==
            if |WordsOf(text)| <= budget then WordsOf(text) else WordsOf(text)[..budget]
  {
    hide WordsOf, Join, IsWhitespace, IsWord;
    var ws := WordsOf(text);
    if |ws| > budget {
      WordsAreWords(text);
      assert AllWords(ws[..budget]);
      SpaceIsWhitespace();
      WordsOfJoin(ws[..budget], ' ');
    }
  }

  function WordsOfLines(lines: seq<string>): seq<string> {
    if lines == [] then [] else WordsOf(lines[0]) + WordsOfLines(lines[1..])
  }

  lemma NoWords()
    ensures WordsOf("") == []
  {
  }

  lemma {:induction false} JoinedLinesKeepWords(lines: seq<string>)
    ensures WordsOf(Join(lines, '\n')) == WordsOfLines(lines)
  {
    hide WordsOf, IsWhitespace;
    SpaceIsWhitespace();
    if lines == [] {
      NoWords();
    } else if |lines| == 1 {
      assert WordsOfLines(lines[1..]) == [];
    } else {
      JoinedLinesKeepWords(lines[1..]);
      WordsOfTwo(lines[0], '\n', Join(lines[1..], '\n'));
    }
  }

  /** `render_prompt` over its rendered lines, header first: never more than `budget` words, flagged exactly
      when the full text had more, and always a leading part of the lines' words. */
  method RenderPrompt(lines: seq<string>, budget: nat) returns (prompt: string, words: nat, truncated: bool)
    ensures words == |WordsOf(prompt)| <= budget
    ensures truncated <==> |WordsOfLines(lines)| > budget
    ensures words == if truncated then budget else |WordsOfLines(lines)|
    ensures WordsOf(prompt) == WordsOfLines(lines)[..words]
    ensures !truncated ==> prompt == Join(lines, '\n')
  {
    hide WordsOf, Join, WordsOfLines;
    var rendered := Join(lines, '\n');
    JoinedLinesKeepWords(lines);
    var renderedWords := |WordsOf(rendered)|;
    if renderedWords <= budget {
      return rendered, renderedWords, false;
    }
    TruncateKeepsLeadingWords(rendered, budget);
    prompt := TruncateWords(rendered, budget);
    words := |WordsOf(prompt)|;
    truncated := true;
  }
}
