/** Ranking of context candidates: collection by id, two-pass deduplication, total order. */
module ContextPack {
  import opened Prelude
  import opened Text
  import opened Sorting
  import opened Words
  import opened CaptureModel

  /** A floating-point value as it arrives: not-a-number and the infinities carry no value. */
  datatype Number = Finite(value: real) | NotFinite

  datatype Hit = Hit(
    id: string, contentHash: string, title: string, body: string, memoryType: MemoryType, lane: MemoryLane,
    destination: MemoryDestination, updatedAt: string, confidence: Number, paths: seq<string>, score: real)

  // ------------------------------------------------------------- collection by id

  /** A hit with the full-text score it was found with. */
  datatype ContextCandidate = ContextCandidate(hit: Hit, matchedFts: bool, ftsScore: Number)

  predicate PreferredOver(c: ContextCandidate, existing: ContextCandidate) {
    c.matchedFts && !existing.matchedFts
  }

  /** The candidate that wins an id: the first full-text match, else the first of any kind. */
  ghost predicate WinsItsId(cs: seq<ContextCandidate>, i: nat) {
    && i < |cs|
    && (forall j :: 0 <= j < i && cs[j].hit.id == cs[i].hit.id ==> cs[i].matchedFts && !cs[j].matchedFts)
    && (forall j :: i < j < |cs| && cs[j].hit.id == cs[i].hit.id ==> cs[i].matchedFts || !cs[j].matchedFts)
  }

  /** Each collected id is held by the candidate that wins it among those inserted. */
  ghost predicate Collected(cs: seq<ContextCandidate>, table: map<string, ContextCandidate>) {
    && (forall j :: 0 <= j < |cs| ==> cs[j].hit.id in table)
    && forall id :: id in table ==>
         exists i: nat :: i < |cs| && WinsItsId(cs, i) && cs[i].hit.id == id && table[id] == cs[i]
  }

  lemma StillWins(cs: seq<ContextCandidate>, i: nat, c: ContextCandidate)
    requires WinsItsId(cs, i) && !(cs[i].hit.id == c.hit.id && PreferredOver(c, cs[i]))
    ensures WinsItsId(cs + [c], i)
  {
  }

  lemma NewlyWins(cs: seq<ContextCandidate>, c: ContextCandidate)
    requires forall j :: 0 <= j < |cs| && cs[j].hit.id == c.hit.id ==> PreferredOver(c, cs[j])
    ensures WinsItsId(cs + [c], |cs|)
  {
  }

  lemma WinnerBlocks(cs: seq<ContextCandidate>, i: nat, c: ContextCandidate)
    requires WinsItsId(cs, i) && cs[i].hit.id == c.hit.id && PreferredOver(c, cs[i])
    ensures forall j :: 0 <= j < |cs| && cs[j].hit.id == c.hit.id ==> PreferredOver(c, cs[j])
  {
  }

  lemma CollectedStep(cs: seq<ContextCandidate>, table: map<string, ContextCandidate>, c: ContextCandidate)
    requires Collected(cs, table)
    ensures var stays := c.hit.id in table && !PreferredOver(c, table[c.hit.id]);
            Collected(cs + [c], if stays then table else table[c.hit.id := c])
  {
    hide WinsItsId, PreferredOver;
    var all := cs + [c];
    var stays := c.hit.id in table && !PreferredOver(c, table[c.hit.id]);
    var next := if stays then table else table[c.hit.id := c];
    forall id | id in next
      ensures exists i: nat :: i < |all| && WinsItsId(all, i) && all[i].hit.id == id && next[id] == all[i]
    {
      if id in table {
        var i: nat :| i < |cs| && WinsItsId(cs, i) && cs[i].hit.id == id && table[id] == cs[i];
        if id == c.hit.id && PreferredOver(c, table[id]) {
          WinnerBlocks(cs, i, c);
          NewlyWins(cs, c);
          assert all[|cs|] == c;
        } else {
          StillWins(cs, i, c);
          assert all[i] == cs[i];
        }
      } else {
        NewlyWins(cs, c);
        assert all[|cs|] == c;
      }
    }
  }

  class Collector {
    var candidates: map<string, ContextCandidate>
    ghost var inserted: seq<ContextCandidate>

    ghost predicate Valid()
      reads this
    {
      Collected(inserted, candidates)
    }

    constructor ()
      ensures Valid() && candidates == map[] && inserted == []
    {
      candidates := map[];
      inserted := [];
    }

    /** `insert_candidate`. */
    method Insert(c: ContextCandidate)
      requires Valid()
      modifies this
      ensures Valid() && inserted == old(inserted) + [c]
      ensures candidates == if c.hit.id in old(candidates) && !PreferredOver(c, old(candidates)[c.hit.id])
                            then old(candidates) else old(candidates)[c.hit.id := c]
    {
      CollectedStep(inserted, candidates, c);
      if c.hit.id !in candidates || PreferredOver(c, candidates[c.hit.id]) {
        candidates := candidates[c.hit.id := c];
      }
      inserted := inserted + [c];
    }
  }

  // ------------------------------------------------------------- ranking score

  function TypePriority(t: MemoryType): nat {
    match t
    case Risk => 9
    case Warning => 8
    case FailedAttempt => 7
    case Decision => 6
    case Procedure => 5
    case Preference => 4
    case Fact => 3
    case Episode | Relationship => 2
    case InstructionProjection => 1
  }

  function LanePriority(l: MemoryLane): nat {
    match l
    case Procedural | Session => 3
    case Semantic => 2
    case Episodic => 1
  }

  function DestinationPriority(d: MemoryDestination): nat {
    match d
    case Repo => 3
    case Local => 2
    case Session => 1
    case Discard | NeedsReview => 0
  }

  function DropTrailingSlashes(s: string): string {
    if s != [] && s[|s| - 1] == '/' then DropTrailingSlashes(s[..|s| - 1]) else s
  }

  predicate IsOrIsUnder(path: string, base: string) {
    path == base || (base <= path && |base| < |path| && path[|base|] == '/')
  }

  const SUBTREE := "/**"

  function SubtreeBase(path: string): Option<string> {
    if |path| >= |SUBTREE| && path[|path| - |SUBTREE|..] == SUBTREE then Some(path[..|path| - |SUBTREE|]) else None
  }

  function PathScore(storedPath: string, requestedPath: string): (r: nat)
    ensures r <= 5
  {
    var stored, requested := DropTrailingSlashes(Trim(storedPath)), DropTrailingSlashes(Trim(requestedPath));
    if stored == "" || requested == "" then 0
    else if stored == requested then 5
    else if SubtreeBase(stored).Some? then if IsOrIsUnder(requested, SubtreeBase(stored).value) then 4 else 0
    else if SubtreeBase(requested).Some? then if IsOrIsUnder(stored, SubtreeBase(requested).value) then 4 else 0
    else if IsOrIsUnder(requested, stored) then 3
    else if IsOrIsUnder(stored, requested) then 2
    else 0
  }

  function BestPathScore(paths: seq<string>, requested: string): (r: nat)
    ensures r <= 5
  {
    if paths == [] then 0
    else
      var rest, here := BestPathScore(paths[1..], requested), PathScore(paths[0], requested);
      if here > rest then here else rest
  }

  /** `normalized_confidence` and `normalized_fts_score`: what is not finite counts as zero. */
  function Clamp(x: Number, high: real): (r: real)
    requires 0.0 <= high
    ensures 0.0 <= r <= high
  {
    if x.NotFinite? || x.value < 0.0 then 0.0 else if x.value > high then high else x.value
  }

  function PathPart(c: ContextCandidate, requested: Option<string>): (r: nat)
    ensures r <= 5
  {
    if requested.Some? then BestPathScore(c.hit.paths, requested.value) else 0
  }

  /** The weighted sum of `rank_candidate`. */
  function RankScore(c: ContextCandidate, requested: Option<string>): real {
    PathPart(c, requested) as real * 10000.0
    + TypePriority(c.hit.memoryType) as real * 1000.0
    + (if c.matchedFts then 500.0 else 0.0)
    + LanePriority(c.hit.lane) as real * 100.0
    + DestinationPriority(c.hit.destination) as real * 10.0
    + Clamp(c.hit.confidence, 1.0) * 25.0
    + (if c.matchedFts then Clamp(c.ftsScore, 100.0) else 0.0)
  }

  /** The largest deviation of a computed score from the exact sum that the ranking below tolerates. */
  const SLACK := 72.0

  /** A score as computed, with rounding. */
  predicate Computes(score: real, c: ContextCandidate, requested: Option<string>) {
    RankScore(c, requested) - SLACK <= score <= RankScore(c, requested) + SLACK
  }

  function LesserParts(c: ContextCandidate): (r: real)
    ensures 100.0 <= r <= 955.0
    ensures if c.matchedFts then r >= 600.0 else r <= 355.0
  {
    (if c.matchedFts then 500.0 else 0.0)
    + LanePriority(c.hit.lane) as real * 100.0
    + DestinationPriority(c.hit.destination) as real * 10.0
    + Clamp(c.hit.confidence, 1.0) * 25.0
    + (if c.matchedFts then Clamp(c.ftsScore, 100.0) else 0.0)
  }

  /** The weights make the score lexicographic in its first three parts: the path decides, then the type,
      then the full-text match; no sum of the lesser parts can outweigh a greater one, nor can rounding,
      whose errors are many orders of magnitude below the slack. */
  lemma ScoreIsLexicographic(
    a: ContextCandidate, b: ContextCandidate, requested: Option<string>, scoreA: real, scoreB: real)
    requires Computes(scoreA, a, requested) && Computes(scoreB, b, requested)
    ensures var pa, pb := PathPart(a, requested), PathPart(b, requested);
            var ta, tb := TypePriority(a.hit.memoryType), TypePriority(b.hit.memoryType);
            (pa > pb || (pa == pb && ta > tb) || (pa == pb && ta == tb && a.matchedFts && !b.matchedFts))
            ==> scoreA > scoreB
  {
    hide BestPathScore;
    var ra, rb := LesserParts(a), LesserParts(b);
    var pa, pb := PathPart(a, requested) as real, PathPart(b, requested) as real;
    var ta, tb := TypePriority(a.hit.memoryType) as real, TypePriority(b.hit.memoryType) as real;
    assert RankScore(a, requested) == pa * 10000.0 + ta * 1000.0 + ra;
    assert RankScore(b, requested) == pb * 10000.0 + tb * 1000.0 + rb;
  }

  // ------------------------------------------------------------- total order

  /** `compare_ranked_results(a, b) == Less`. */
  predicate Outranks(a: Hit, b: Hit) {
    if a.score != b.score then a.score > b.score
    else if DestinationPriority(a.destination) != DestinationPriority(b.destination) then
      DestinationPriority(a.destination) > DestinationPriority(b.destination)
    else if a.updatedAt != b.updatedAt then Before(b.updatedAt, a.updatedAt)
    else Before(a.id, b.id)
  }

  lemma OutranksIsOrder()
    ensures StrictWeakOrder(Outranks)
  {
    hide Before, DestinationPriority;
    forall a, b, c: Hit
      ensures !Outranks(a, a)
      ensures Outranks(a, b) && Outranks(b, c) ==> Outranks(a, c)
      ensures Outranks(a, c) ==> Outranks(a, b) || Outranks(b, c)
    {
      BeforeLaws(a.id, b.id, c.id);
      BeforeLaws(c.updatedAt, b.updatedAt, a.updatedAt);
    }
  }

  /** With distinct record ids there are no ties. */
  lemma DistinctIdsAreOrdered(a: Hit, b: Hit)
    requires a.id != b.id
    ensures Outranks(a, b) || Outranks(b, a)
  {
    BeforeTotal(a.id, b.id);
    BeforeTotal(a.updatedAt, b.updatedAt);
  }

  // ------------------------------------------------------------- deduplication

  predicate DistinctIds(hits: seq<Hit>) {
    forall i, j :: 0 <= i < j < |hits| ==> hits[i].id != hits[j].id
  }

  function NormalizeText(s: string): string {
    AsciiLower(Join(WordsOf(s), ' '))
  }

  datatype DedupKey = ByHash | ByText

  function KeyOf(k: DedupKey, h: Hit): string {
    if k == ByHash then h.contentHash else NormalizeText(h.title) + ['\n'] + NormalizeText(h.body)
  }

  ghost predicate BeatsOthers(e: Hit, r: Hit) {
    r == e || Outranks(e, r)
  }

  /** The best hit of its key. */
  ghost predicate IsBest(k: DedupKey, hits: seq<Hit>, e: Hit) {
    e in hits && forall r :: r in hits && KeyOf(k, r) == KeyOf(k, e) ==> BeatsOthers(e, r)
  }

  /** The map of `best_by_key` holds the best hit of every key seen. */
  ghost predicate HoldsBest(k: DedupKey, hits: seq<Hit>, best: map<string, Hit>) {
    && (forall key :: key in best ==> KeyOf(k, best[key]) == key && IsBest(k, hits, best[key]))
    && forall r :: r in hits ==> KeyOf(k, r) in best
  }

  lemma HoldsBestStep(k: DedupKey, hits: seq<Hit>, best: map<string, Hit>, h: Hit)
    requires HoldsBest(k, hits, best) && forall r :: r in hits ==> r.id != h.id
    ensures HoldsBest(k, hits + [h],
                      if KeyOf(k, h) in best && !Outranks(h, best[KeyOf(k, h)]) then best else best[KeyOf(k, h) := h])
  {
    hide KeyOf, Outranks;
    var all, key := hits + [h], KeyOf(k, h);
    var next := if key in best && !Outranks(h, best[key]) then best else best[key := h];
    OutranksIsOrder();
    forall r
      ensures r in all <==> r in hits || r == h
    {
    }
    if key in best {
      assert best[key] in hits;
      DistinctIdsAreOrdered(h, best[key]);
    }
    forall x | x in next
      ensures KeyOf(k, next[x]) == x && IsBest(k, all, next[x])
    {
      forall r | r in all && KeyOf(k, r) == KeyOf(k, next[x])
        ensures BeatsOthers(next[x], r)
      {
        if r in hits {
          assert KeyOf(k, r) in best && BeatsOthers(best[KeyOf(k, r)], r);
        }
      }
    }
  }

  lemma SameIdSameHit(hits: seq<Hit>, a: Hit, b: Hit)
    requires DistinctIds(hits) && a in hits && b in hits
    ensures a.id == b.id ==> a == b
  {
    var i :| 0 <= i < |hits| && hits[i] == a;
    var j :| 0 <= j < |hits| && hits[j] == b;
  }

  lemma SurvivorsAreBest(k: DedupKey, hits: seq<Hit>, best: map<string, Hit>, survivors: seq<Hit>)
    requires DistinctIds(hits) && HoldsBest(k, hits, best)
    requires forall e :: e in survivors <==> KeyOf(k, e) in best && best[KeyOf(k, e)] == e
    requires forall i, j :: 0 <= i < j < |survivors| ==> survivors[i] != survivors[j]
    ensures DistinctIds(survivors)
    ensures forall e :: e in survivors <==> IsBest(k, hits, e)
  {
    hide KeyOf, Outranks;
    OutranksIsOrder();
    forall e | IsBest(k, hits, e)
      ensures e in survivors
    {
      var held := best[KeyOf(k, e)];
      assert BeatsOthers(e, held) && BeatsOthers(held, e);
      assert Outranks(e, held) && Outranks(held, e) ==> Outranks(e, e);
    }
    forall i, j | 0 <= i < j < |survivors|
      ensures survivors[i].id != survivors[j].id
    {
      assert survivors[i] in survivors && survivors[j] in survivors;
      SameIdSameHit(hits, survivors[i], survivors[j]);
    }
  }

  /** `best_by_key`; the order of the values is left open. */
  method BestByKey(k: DedupKey, hits: seq<Hit>) returns (survivors: seq<Hit>)
    requires DistinctIds(hits)
    ensures DistinctIds(survivors)
    ensures forall e :: e in survivors <==> IsBest(k, hits, e)
  {
    hide KeyOf, Outranks, IsBest;
    var best: map<string, Hit> := map[];
    for i := 0 to |hits|
      invariant HoldsBest(k, hits[..i], best)
    {
      var h := hits[i];
      assert forall r :: r in hits[..i] ==> r.id != h.id;
      HoldsBestStep(k, hits[..i], best, h);
      assert hits[..i + 1] == hits[..i] + [h];
      if KeyOf(k, h) !in best || Outranks(h, best[KeyOf(k, h)]) {
        best := best[KeyOf(k, h) := h];
      }
    }
    assert hits[..|hits|] == hits;
    survivors := [];
    var keys := best.Keys;
    while keys != {}
      invariant keys <= best.Keys
      invariant forall e :: e in survivors <==> KeyOf(k, e) in best.Keys - keys && best[KeyOf(k, e)] == e
      invariant forall i, j :: 0 <= i < j < |survivors| ==> survivors[i] != survivors[j]
      decreases keys
    {
      var key :| key in keys;
      survivors := survivors + [best[key]];
      keys := keys - {key};
    }
    SurvivorsAreBest(k, hits, best, survivors);
  }

  /** Survivors of both passes: best of their text among the hits that are best of their hash. */
  ghost predicate Survives(hits: seq<Hit>, e: Hit) {
    && IsBest(ByHash, hits, e)
    && forall r :: IsBest(ByHash, hits, r) && KeyOf(ByText, r) == KeyOf(ByText, e) ==> BeatsOthers(e, r)
  }

  lemma HitsAreTotal(hits: seq<Hit>)
    requires DistinctIds(hits)
    ensures TotalOn(Outranks, hits)
    ensures forall i, j :: 0 <= i < j < |hits| ==> hits[i] != hits[j]
  {
    hide Outranks;
    forall i, j | 0 <= i < |hits| && 0 <= j < |hits| && hits[i] != hits[j]
      ensures Outranks(hits[i], hits[j]) || Outranks(hits[j], hits[i])
    {
      assert i != j;
      DistinctIdsAreOrdered(hits[i], hits[j]);
    }
  }

  /** Deduplication and sort of the pack builder: strictly ranked, and exactly the survivors. */
  method RankedList(hits: seq<Hit>) returns (ranked: seq<Hit>)
    requires DistinctIds(hits)
    ensures StrictlyAscending(Outranks, ranked)
    ensures forall e :: e in ranked <==> Survives(hits, e)
  {
    hide KeyOf, Outranks;
    var byHash := BestByKey(ByHash, hits);
    var byText := BestByKey(ByText, byHash);
    OutranksIsOrder();
    HitsAreTotal(byText);
    SortStrictlyAscends(Outranks, byText);
    ranked := Sort(Outranks, byText);
  }

  /** A collected candidate with its rank as its score. */
  function Scored(c: ContextCandidate, requested: Option<string>): Hit {
    c.hit.(score := RankScore(c, requested))
  }

  /** The scored values of the table, in some order. */
  ghost predicate Enumerates(table: map<string, ContextCandidate>, requested: Option<string>, hits: seq<Hit>) {
    && DistinctIds(hits)
    && (forall h :: h in hits ==> exists id :: id in table && h == Scored(table[id], requested))
    && forall id :: id in table ==> Scored(table[id], requested) in hits
  }

  lemma KeyIsId(cs: seq<ContextCandidate>, table: map<string, ContextCandidate>)
    requires Collected(cs, table)
    ensures forall id :: id in table ==> table[id].hit.id == id
  {
  }

  /** From the collected table to the ranked list, in whatever order the table yields its values. */
  method RankPack(collector: Collector, requested: Option<string>) returns (ghost hits: seq<Hit>, ranked: seq<Hit>)
    requires collector.Valid()
    ensures Enumerates(collector.candidates, requested, hits)
    ensures StrictlyAscending(Outranks, ranked)
    ensures forall e :: e in ranked <==> Survives(hits, e)
  {
    hide RankScore, Survives;
    var table := collector.candidates;
    var values: seq<Hit> := [];
    var ids := table.Keys;
    while ids != {}
      invariant ids <= table.Keys && DistinctIds(values)
      invariant forall h :: h in values ==> exists id :: id in table.Keys - ids && h == Scored(table[id], requested)
      invariant forall id :: id in table.Keys - ids ==> Scored(table[id], requested) in values
      decreases ids
    {
      var id :| id in ids;
      KeyIsId(collector.inserted, table);
      forall i | 0 <= i < |values|
        ensures values[i].id != table[id].hit.id
      {
        assert values[i] in values;
      }
      values := values + [Scored(table[id], requested)];
      ids := ids - {id};
    }
    hits := values;
    ranked := RankedList(values);
  }

  /** The ranked list does not depend on the order the hash map yields its candidates in. */
  lemma RankedListIsDetermined(hits: seq<Hit>, hits': seq<Hit>, ranked: seq<Hit>, ranked': seq<Hit>)
    requires forall h :: h in hits <==> h in hits'
    requires StrictlyAscending(Outranks, ranked) && StrictlyAscending(Outranks, ranked')
    requires (forall e :: e in ranked <==> Survives(hits, e)) && forall e :: e in ranked' <==> Survives(hits', e)
    ensures ranked == ranked'
  {
    hide KeyOf, Outranks;
    OutranksIsOrder();
    forall e
      ensures IsBest(ByHash, hits, e) <==> IsBest(ByHash, hits', e)
    {
    }
    forall e
      ensures Survives(hits, e) <==> Survives(hits', e)
    {
    }
    StrictlyAscendingUnique(Outranks, ranked, ranked');
  }

  /** The ranked list is a function of the collected table and the requested path alone. */
  lemma PackIsDetermined(
    table: map<string, ContextCandidate>, requested: Option<string>, hits: seq<Hit>, hits': seq<Hit>, ranked: seq<Hit>,
    ranked': seq<Hit>)
    requires Enumerates(table, requested, hits) && Enumerates(table, requested, hits')
    requires StrictlyAscending(Outranks, ranked) && StrictlyAscending(Outranks, ranked')
    requires (forall e :: e in ranked <==> Survives(hits, e)) && forall e :: e in ranked' <==> Survives(hits', e)
    ensures ranked == ranked'
  {
    hide RankScore, Survives, Outranks;
    forall h
      ensures h in hits <==> h in hits'
    {
    }
    RankedListIsDetermined(hits, hits', ranked, ranked');
  }

  lemma BeatenBothWays(a: Hit, b: Hit)
    requires BeatsOthers(a, b) && BeatsOthers(b, a)
    ensures a == b
  {
    hide Outranks;
    OutranksIsOrder();
    assert Outranks(a, b) && Outranks(b, a) ==> Outranks(a, a);
  }

  /** No two survivors share a content hash, nor a normalised title and body. */
  lemma SurvivorsDiffer(hits: seq<Hit>, a: Hit, b: Hit)
    requires Survives(hits, a) && Survives(hits, b) && a != b
    ensures a.contentHash != b.contentHash
    ensures NormalizeText(a.title) != NormalizeText(b.title) || NormalizeText(a.body) != NormalizeText(b.body)
  {
    hide Outranks, NormalizeText;
    if KeyOf(ByHash, a) == KeyOf(ByHash, b) {
      BeatenBothWays(a, b);
      assert false;
    }
    if KeyOf(ByText, a) == KeyOf(ByText, b) {
      BeatenBothWays(a, b);
      assert false;
    }
  }

  // ------------------------------------------------------------- nothing is lost to a worse hit

  lemma {:induction false} BestExists(k: DedupKey, hits: seq<Hit>, h: Hit) returns (b: Hit)
    requires DistinctIds(hits) && h in hits
    ensures IsBest(k, hits, b) && KeyOf(k, b) == KeyOf(k, h) && BeatsOthers(b, h)
    decreases |hits|
  {
    hide KeyOf, Outranks;
    OutranksIsOrder();
    var n := |hits| - 1;
    var last := hits[n];
    assert hits == hits[..n] + [last];
    if h in hits[..n] {
      b := BestExists(k, hits[..n], h);
      if KeyOf(k, last) == KeyOf(k, h) && Outranks(last, b) {
        forall r | r in hits && KeyOf(k, r) == KeyOf(k, h)
          ensures BeatsOthers(last, r)
        {
          assert r in hits[..n] ==> BeatsOthers(b, r);
        }
        b := last;
      } else {
        DistinctIdsAreOrdered(b, last);
      }
    } else if exists r :: r in hits[..n] && KeyOf(k, r) == KeyOf(k, last) {
      var r :| r in hits[..n] && KeyOf(k, r) == KeyOf(k, last);
      var c := BestExists(k, hits[..n], r);
      DistinctIdsAreOrdered(c, last);
      forall x | x in hits && KeyOf(k, x) == KeyOf(k, last)
        ensures BeatsOthers(if Outranks(c, last) then c else last, x)
      {
        assert x in hits[..n] ==> BeatsOthers(c, x);
      }
      b := if Outranks(c, last) then c else last;
    } else {
      b := last;
    }
  }

  lemma BestAreHits(hits: seq<Hit>)
    ensures forall e :: IsBest(ByHash, hits, e) ==> e in hits
  {
  }

  lemma {:induction false} BestAmong(hits: seq<Hit>, n: nat) returns (kept: seq<Hit>)
    requires DistinctIds(hits) && n <= |hits|
    ensures DistinctIds(kept)
    ensures forall e :: e in kept <==> e in hits[..n] && IsBest(ByHash, hits, e)
  {
    hide KeyOf, Outranks, IsBest;
    if n == 0 {
      kept := [];
    } else {
      kept := BestAmong(hits, n - 1);
      assert hits[..n] == hits[..n - 1] + [hits[n - 1]];
      if IsBest(ByHash, hits, hits[n - 1]) {
        forall i | 0 <= i < |kept|
          ensures kept[i].id != hits[n - 1].id
        {
          assert kept[i] in kept && kept[i] in hits[..n - 1];
          var j :| 0 <= j < n - 1 && hits[j] == kept[i];
        }
        kept := kept + [hits[n - 1]];
      }
    }
  }

  /** The hits that are best of their hash, in their original order. */
  lemma {:induction false} BestByHash(hits: seq<Hit>) returns (kept: seq<Hit>)
    requires DistinctIds(hits)
    ensures DistinctIds(kept)
    ensures forall e :: e in kept <==> IsBest(ByHash, hits, e)
  {
    hide KeyOf, Outranks, IsBest;
    kept := BestAmong(hits, |hits|);
    assert hits[..|hits|] == hits;
    BestAreHits(hits);
  }

  /** Every hit is represented: it loses, over its hash and then over a text, only to better hits, and a
      survivor stands at the end of the chain. */
  lemma EveryHitIsRepresented(hits: seq<Hit>, h: Hit) returns (viaHash: Hit, survivor: Hit)
    requires DistinctIds(hits) && h in hits
    ensures viaHash in hits && viaHash.contentHash == h.contentHash && BeatsOthers(viaHash, h)
    ensures Survives(hits, survivor) && KeyOf(ByText, survivor) == KeyOf(ByText, viaHash)
    ensures BeatsOthers(survivor, viaHash) && BeatsOthers(survivor, h)
  {
    hide Outranks, NormalizeText;
    OutranksIsOrder();
    viaHash := BestExists(ByHash, hits, h);
    var byHash := BestByHash(hits);
    survivor := BestExists(ByText, byHash, viaHash);
  }

  /** The overall best hit is never dropped. */
  lemma OverallBestSurvives(hits: seq<Hit>, h: Hit)
    requires DistinctIds(hits) && h in hits && forall r :: r in hits ==> BeatsOthers(h, r)
    ensures Survives(hits, h)
  {
    hide Outranks;
  }
}
