/** `split_whitespace` and joining words back. */
module Words {
  import opened Text

  /** Length of the leading word. */
  function WordLength(s: string): (n: nat)
    ensures n <= |s| && (forall i :: 0 <= i < n ==> !IsWhitespace(s[i])) && (n < |s| ==> IsWhitespace(s[n]))
  {
    if s != [] && !IsWhitespace(s[0]) then 1 + WordLength(s[1..]) else 0
  }

  /** `split_whitespace().collect()`. */
  function WordsOf(s: string): seq<string>
    decreases |s|
  {
    if s == [] then []
    else if IsWhitespace(s[0]) then WordsOf(s[1..])
    else
      var n := WordLength(s);
      [s[..n]] + WordsOf(s[n..])
  }

  predicate IsWord(w: string) {
    w != [] && forall i :: 0 <= i < |w| ==> !IsWhitespace(w[i])
  }

  predicate AllWords(ws: seq<string>) {
    forall i :: 0 <= i < |ws| ==> IsWord(ws[i])
  }

  lemma {:induction false} WordsAreWords(s: string)
    ensures AllWords(WordsOf(s))
    decreases |s|
  {
    hide IsWhitespace;
    if s != [] {
      if IsWhitespace(s[0]) {
        WordsAreWords(s[1..]);
      } else {
        var n := WordLength(s);
        assert n > 0;
        WordsAreWords(s[n..]);
        assert forall i :: 0 <= i < n ==> s[..n][i] == s[i];
      }
    }
  }

  /** `join(separator)` with a one-character separator. */
  function Join(ws: seq<string>, separator: char): string {
    if ws == [] then []
    else if |ws| == 1 then ws[0]
    else ws[0] + [separator] + Join(ws[1..], separator)
  }

  lemma {:induction false} LeadingWord(w: string, rest: string)
    requires IsWord(w) && (rest == [] || IsWhitespace(rest[0]))
    ensures WordLength(w + rest) == |w|
    ensures WordsOf(w + rest) == [w] + WordsOf(rest)
  {
    hide IsWhitespace;
    var all := w + rest;
    var n := WordLength(all);
    assert all[0] == w[0];
    assert forall i :: 0 <= i < |w| ==> all[i] == w[i];
    if rest != [] {
      assert all[|w|] == rest[0];
    }
    assert all[..n] == w && all[n..] == rest;
  }

  /** Splitting a joined list of words gives the words back. */
  lemma {:induction false} WordsOfJoin(ws: seq<string>, separator: char)
    requires AllWords(ws) && IsWhitespace(separator)
    ensures WordsOf(Join(ws, separator)) == ws
  {
    hide IsWhitespace, WordLength, IsWord;
    if |ws| == 1 {
      LeadingWord(ws[0], []);
      assert ws[0] + [] == ws[0] && ws == [ws[0]];
    } else if ws != [] {
      var tail := Join(ws[1..], separator);
      WordsOfJoin(ws[1..], separator);
      LeadingWord(ws[0], [separator] + tail);
      assert ws[0] + ([separator] + tail) == ws[0] + [separator] + tail;
      assert ([separator] + tail)[1..] == tail;
      assert ws == [ws[0]] + ws[1..];
    }
  }

  lemma LeadingIsWord(s: string)
    requires s != [] && !IsWhitespace(s[0])
    ensures IsWord(s[..WordLength(s)])
  {
    hide IsWhitespace;
  }

  /** A separator between two texts keeps their words apart. */
  lemma {:induction false} WordsOfTwo(a: string, separator: char, b: string)
    requires IsWhitespace(separator)
    ensures WordsOf(a + [separator] + b) == WordsOf(a) + WordsOf(b)
    decreases |a|
  {
    hide IsWhitespace, IsWord;
    if a == [] {
      assert (a + [separator] + b)[1..] == b;
    } else if IsWhitespace(a[0]) {
      assert (a + [separator] + b)[1..] == a[1..] + [separator] + b;
      WordsOfTwo(a[1..], separator, b);
    } else {
      var n := WordLength(a);
      var rest := a[n..] + [separator] + b;
      assert a + [separator] + b == a[..n] + rest;
      LeadingIsWord(a);
      LeadingWord(a[..n], rest);
      WordsOfTwo(a[n..], separator, b);
    }
  }
}
