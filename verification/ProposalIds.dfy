/** Proposal id reservation: the title slug, and the first free numbered name built on it. */
module ProposalIds {
  const SLUG_LIMIT := 48
  const ID_PREFIX := "mem_capture_"
  const FALLBACK_SLUG := "memory"

  // ---------------------------------------------------------------- slug

  predicate IsAsciiAlphanumeric(c: char) {
    '0' <= c <= '9' || 'a' <= c <= 'z' || 'A' <= c <= 'Z'
  }

  predicate IsSlugChar(c: char) {
    '0' <= c <= '9' || 'a' <= c <= 'z' || c == '-'
  }

  function SlugChar(c: char): (r: char)
    ensures IsSlugChar(r)
    ensures r == '-' <==> !IsAsciiAlphanumeric(c)
  {
    if 'A' <= c <= 'Z' then ((c as int) + 32) as char
    else if IsAsciiAlphanumeric(c) then c
    else '-'
  }

  function SlugChars(title: string): (r: string)
    ensures |r| == |title| && forall i :: 0 <= i < |r| ==> r[i] == SlugChar(title[i])
  {
    seq(|title|, i requires 0 <= i < |title| => SlugChar(title[i]))
  }

  predicate HasDoubleDash(s: string) {
    exists i :: 0 <= i < |s| - 1 && s[i] == '-' && s[i + 1] == '-'
  }

  /** `str::replace("--", "-")`: leftmost, non-overlapping. */
  function ReplaceDoubleDash(s: string): (r: string)
    ensures |r| <= |s|
    ensures s != [] ==> r != [] && r[0] == s[0]
    ensures forall c :: c in r ==> c in s
  {
    if |s| < 2 then s
    else if s[0] == '-' && s[1] == '-' then "-" + ReplaceDoubleDash(s[2..])
    else [s[0]] + ReplaceDoubleDash(s[1..])
  }

  /** What the loop computes: every run of dashes becomes a single dash. */
  ghost function Squeeze(s: string): (r: string)
    ensures s != [] ==> r != [] && r[0] == s[0]
  {
    if |s| < 2 then s
    else if s[0] == '-' && s[1] == '-' then Squeeze(s[1..])
    else [s[0]] + Squeeze(s[1..])
  }

  lemma {:induction false} ReplaceShrinks(s: string)
    requires HasDoubleDash(s)
    ensures |ReplaceDoubleDash(s)| < |s|
  {
    if !(s[0] == '-' && s[1] == '-') {
      var i :| 0 <= i < |s| - 1 && s[i] == '-' && s[i + 1] == '-';
      assert s[1..][i - 1] == '-' && s[1..][i] == '-';
      ReplaceShrinks(s[1..]);
    }
  }

  lemma {:induction false} ReplaceKeepsSqueeze(s: string)
    ensures Squeeze(ReplaceDoubleDash(s)) == Squeeze(s)
  {
    if |s| < 2 {
    } else if s[0] == '-' && s[1] == '-' {
      ReplaceKeepsSqueeze(s[2..]);
      var r := ReplaceDoubleDash(s[2..]);
      assert ("-" + r)[1..] == r && s[1..][1..] == s[2..];
    } else {
      ReplaceKeepsSqueeze(s[1..]);
      var r := ReplaceDoubleDash(s[1..]);
      assert ([s[0]] + r)[1..] == r;
    }
  }

  lemma {:induction false} SqueezeFixed(s: string)
    requires !HasDoubleDash(s)
    ensures Squeeze(s) == s
  {
    if |s| >= 2 {
      assert !(s[0] == '-' && s[0 + 1] == '-');
      forall i | 0 <= i < |s[1..]| - 1
        ensures !(s[1..][i] == '-' && s[1..][i + 1] == '-')
      {
        assert !(s[i + 1] == '-' && s[i + 1 + 1] == '-');
      }
      SqueezeFixed(s[1..]);
    }
  }

  function DropLeadingDashes(s: string): (r: string)
    ensures |r| <= |s| && r == s[|s| - |r|..]
    ensures r != [] ==> r[0] != '-'
  {
    if s != [] && s[0] == '-' then DropLeadingDashes(s[1..]) else s
  }

  function DropTrailingDashes(s: string): (r: string)
    ensures |r| <= |s| && r == s[..|r|]
    ensures r != [] ==> r[|r| - 1] != '-'
  {
    if s != [] && s[|s| - 1] == '-' then DropTrailingDashes(s[..|s| - 1]) else s
  }

  /** `trim_matches('-')`. */
  function TrimDashes(s: string): string {
    DropTrailingDashes(DropLeadingDashes(s))
  }

  function Truncate(s: string, n: nat): string {
    if |s| <= n then s else s[..n]
  }

  /** The slug of a title, with the dash loop stated by its result. */
  ghost function Slug(title: string): string {
    var s := Truncate(TrimDashes(Squeeze(SlugChars(title))), SLUG_LIMIT);
    if s == [] then FALLBACK_SLUG else s
  }

  ghost predicate WellFormedSlug(s: string) {
    && 1 <= |s| <= SLUG_LIMIT
    && (forall i :: 0 <= i < |s| ==> IsSlugChar(s[i]))
    && !HasDoubleDash(s)
    && s[0] != '-'
  }

  lemma {:induction false} SqueezeHasNoDoubleDash(s: string)
    ensures !HasDoubleDash(Squeeze(s))
    ensures forall c :: c in Squeeze(s) ==> c in s
  {
    if |s| >= 2 {
      SqueezeHasNoDoubleDash(s[1..]);
      if !(s[0] == '-' && s[1] == '-') {
        var r := Squeeze(s[1..]);
        forall i | 0 <= i < |[s[0]] + r| - 1
          ensures !(([s[0]] + r)[i] == '-' && ([s[0]] + r)[i + 1] == '-')
        {
          if i > 0 {
            assert !(r[i - 1] == '-' && r[i - 1 + 1] == '-');
          }
        }
      }
    }
  }

  lemma WindowHasNoDoubleDash(s: string, lo: nat, hi: nat)
    requires lo <= hi <= |s| && !HasDoubleDash(s)
    ensures !HasDoubleDash(s[lo..hi])
  {
    var w := s[lo..hi];
    forall i | 0 <= i < |w| - 1
      ensures !(w[i] == '-' && w[i + 1] == '-')
    {
      assert w[i] == s[lo + i] && w[i + 1] == s[lo + i + 1];
    }
  }

  lemma TrimmedPrefixIsWindow(s: string, n: nat) returns (lo: nat)
    ensures var t := Truncate(TrimDashes(s), n);
            && lo + |t| <= |s| && t == s[lo..lo + |t|]
            && (t != [] ==> t[0] != '-')
  {
    var d := DropLeadingDashes(s);
    lo := |s| - |d|;
    var t := Truncate(TrimDashes(s), n);
    assert t == d[..|t|];
  }

  lemma CutIsWellFormed(s: string)
    requires !HasDoubleDash(s) && forall c :: c in s ==> IsSlugChar(c)
    ensures var t := Truncate(TrimDashes(s), SLUG_LIMIT);
            t == [] || (WellFormedSlug(t) && t[0] in s)
  {
    var lo := TrimmedPrefixIsWindow(s, SLUG_LIMIT);
    var t := Truncate(TrimDashes(s), SLUG_LIMIT);
    WindowHasNoDoubleDash(s, lo, lo + |t|);
    forall i | 0 <= i < |t|
      ensures t[i] in s
    {
      assert t[i] == s[lo + i];
    }
  }

  /** Every title, even one without a usable character, gets a well-formed slug. */
  lemma SlugIsWellFormed(title: string)
    ensures WellFormedSlug(Slug(title))
    ensures Slug(title) == FALLBACK_SLUG || exists i :: 0 <= i < |title| && IsAsciiAlphanumeric(title[i])
  {
    var chars := SlugChars(title);
    SqueezeHasNoDoubleDash(chars);
    CutIsWellFormed(Squeeze(chars));
    var cut := Truncate(TrimDashes(Squeeze(chars)), SLUG_LIMIT);
    if cut != [] {
      var j :| 0 <= j < |chars| && chars[j] == cut[0];
      assert IsAsciiAlphanumeric(title[j]);
    }
  }

  /** The loop of the source, run until no double dash is left. */
  method ComputeSlug(title: string) returns (slug: string)
    ensures slug == Slug(title)
    ensures WellFormedSlug(slug)
  {
    slug := SlugChars(title);
    while HasDoubleDash(slug)
      invariant Squeeze(slug) == Squeeze(SlugChars(title))
      decreases |slug|
    {
      ReplaceShrinks(slug);
      ReplaceKeepsSqueeze(slug);
      slug := ReplaceDoubleDash(slug);
    }
    SqueezeFixed(slug);
    slug := Truncate(TrimDashes(slug), SLUG_LIMIT);
    if slug == [] {
      slug := FALLBACK_SLUG;
    }
    SlugIsWellFormed(title);
  }

  // ------------------------------------------------------------- numbering

  /** Decimal rendering of a suffix. */
  function Decimal(n: nat): (r: string)
    ensures r != []
  {
    if n < 10 then [('0' as int + n) as char]
    else Decimal(n / 10) + [('0' as int + n % 10) as char]
  }

  lemma {:induction false} DecimalInjective(m: nat, n: nat)
    requires Decimal(m) == Decimal(n)
    ensures m == n
  {
    if m >= 10 && n >= 10 {
      var a, b := Decimal(m / 10), Decimal(n / 10);
      assert Decimal(m)[..|Decimal(m)| - 1] == a && Decimal(n)[..|Decimal(n)| - 1] == b;
      DecimalInjective(m / 10, n / 10);
      assert Decimal(m)[|Decimal(m)| - 1] == Decimal(n)[|Decimal(n)| - 1];
    }
  }

  function Numbered(base: string, suffix: nat): string {
    if suffix == 1 then base else base + "-" + Decimal(suffix)
  }

  lemma NumberedInjective(base: string, m: nat, n: nat)
    requires m >= 1 && n >= 1 && Numbered(base, m) == Numbered(base, n)
    ensures m == n
  {
    if m != 1 && n != 1 {
      assert Decimal(m) == Numbered(base, m)[|base| + 1..] == Numbered(base, n)[|base| + 1..] == Decimal(n);
      DecimalInjective(m, n);
    }
  }

  ghost predicate AllTaken(base: string, used: set<string>, below: nat) {
    forall k :: 1 <= k < below ==> Numbered(base, k) in used
  }

  /** The pigeonhole step: `n` taken names of one base need `n` used ids. */
  lemma {:induction false} TakenNamesCount(base: string, used: set<string>, n: nat)
    requires AllTaken(base, used, n + 1)
    ensures n <= |used|
    decreases n
  {
    if n > 0 {
      var last := Numbered(base, n);
      assert last in used;
      forall k | 1 <= k < n
        ensures Numbered(base, k) in used - {last}
      {
        if Numbered(base, k) == last {
          NumberedInjective(base, k, n);
        }
      }
      TakenNamesCount(base, used - {last}, n - 1);
    }
  }

  ghost predicate IsLeastFree(base: string, used: set<string>, n: nat) {
    1 <= n && Numbered(base, n) !in used && AllTaken(base, used, n)
  }

  lemma LeastFreeUnique(base: string, used: set<string>, m: nat, n: nat)
    requires IsLeastFree(base, used, m) && IsLeastFree(base, used, n)
    ensures m == n
  {
    assert m < n ==> Numbered(base, m) in used;
    assert n < m ==> Numbered(base, n) in used;
  }

  function FirstFreeFrom(base: string, used: set<string>, k: nat): (n: nat)
    requires 1 <= k && AllTaken(base, used, k)
    ensures IsLeastFree(base, used, n) && n <= |used| + 1
    decreases |used| + 1 - k
  {
    TakenNamesCount(base, used, k - 1);
    if Numbered(base, k) !in used then k
    else
      TakenNamesCount(base, used, k);
      FirstFreeFrom(base, used, k + 1)
  }

  ghost function ReservedId(title: string, used: set<string>): (id: string)
    ensures id !in used
  {
    var base := ID_PREFIX + Slug(title);
    Numbered(base, FirstFreeFrom(base, used, 1))
  }

  /** Adding other ids changes a reservation exactly when one of them is the id itself. */
  lemma ReservationStable(title: string, used: set<string>, more: set<string>)
    ensures ReservedId(title, used + more) == ReservedId(title, used) <==> ReservedId(title, used) !in more
  {
    var base := ID_PREFIX + Slug(title);
    var n := FirstFreeFrom(base, used, 1);
    if Numbered(base, n) !in more {
      assert IsLeastFree(base, used + more, n);
      LeastFreeUnique(base, used + more, n, FirstFreeFrom(base, used + more, 1));
    }
  }

  /** The mutable set of ids that planning and review thread through their candidates. */
  class Reservations {
    var used: set<string>

    constructor (initial: set<string>)
      ensures used == initial
    {
      used := initial;
    }

    method Insert(id: string) returns (fresh_: bool)
      modifies this
      ensures fresh_ <==> id !in old(used)
      ensures used == old(used) + {id}
    {
      fresh_ := id !in used;
      used := used + {id};
    }

    /** Least free numbered name, found within `|used| + 1` attempts; exactly that id is added. */
    method Reserve(title: string) returns (id: string, attempts: nat)
      modifies this
      ensures IsLeastFree(ID_PREFIX + Slug(title), old(used), attempts)
      ensures id == Numbered(ID_PREFIX + Slug(title), attempts) == ReservedId(title, old(used))
      ensures 1 <= attempts <= |old(used)| + 1
      ensures used == old(used) + {id} && id !in old(used)
    {
      var slug := ComputeSlug(title);
      var base := ID_PREFIX + slug;
      attempts := 1;
      id := Numbered(base, attempts);
      while id in used
        invariant used == old(used)
        invariant 1 <= attempts && AllTaken(base, used, attempts)
        invariant id == Numbered(base, attempts)
        decreases |used| + 1 - attempts
      {
        TakenNamesCount(base, used, attempts);
        attempts := attempts + 1;
        id := Numbered(base, attempts);
      }
      TakenNamesCount(base, used, attempts - 1);
      LeastFreeUnique(base, used, attempts, FirstFreeFrom(base, used, 1));
      used := used + {id};
    }
  }
}
