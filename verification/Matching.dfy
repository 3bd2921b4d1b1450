/** Greedy matching of expected against emitted candidates in the capture evaluation. */
module Matching {
  import opened Prelude
  import opened CaptureModel

  // ------------------------------------------------------------- the relation

  /** What an expectation says of an evidence item: everything but its text and content hash. */
  datatype EvidenceShape = EvidenceShape(
    sourceId: string, locator: Locator, sourceContentHash: string, span: Span, headingPath: seq<string>,
    sectionKind: SectionKind, semanticLocation: Option<SemanticLocation>)

  datatype Shape = Shape(memory: Memory, evidence: seq<EvidenceShape>)

  datatype Expected = Expected(id: string, shape: Shape)

  function EvidenceShapeOf(e: Evidence): EvidenceShape {
    EvidenceShape(e.sourceId, e.locator, e.sourceContentHash, e.span, e.headingPath, e.sectionKind, e.semanticLocation)
  }

  /** The projection behind the match relation. */
  function ShapeOf(c: Candidate): Shape {
    Shape(c.memory, seq(|c.evidence|, i requires 0 <= i < |c.evidence| => EvidenceShapeOf(c.evidence[i])))
  }

  /** `evidence_shape_matches`, field by field. */
  predicate EvidenceShapeMatches(actual: seq<Evidence>, expected: seq<EvidenceShape>) {
    && |actual| == |expected|
    && forall i :: 0 <= i < |actual| ==>
         && actual[i].sourceId == expected[i].sourceId
         && actual[i].locator == expected[i].locator
         && actual[i].sourceContentHash == expected[i].sourceContentHash
         && actual[i].span == expected[i].span
         && actual[i].headingPath == expected[i].headingPath
         && actual[i].sectionKind == expected[i].sectionKind
         && actual[i].semanticLocation == expected[i].semanticLocation
  }

  /** `candidate_matches_expected`. */
  predicate MatchesExpected(c: Candidate, e: Expected) {
    c.memory == e.shape.memory && EvidenceShapeMatches(c.evidence, e.shape.evidence)
  }

  /** Matching is equality of the projection. */
  lemma MatchIsEqualShape(c: Candidate, e: Expected)
    ensures MatchesExpected(c, e) <==> ShapeOf(c) == e.shape
  {
    var own := ShapeOf(c).evidence;
    if MatchesExpected(c, e) {
      assert forall i :: 0 <= i < |own| ==> own[i] == EvidenceShapeOf(c.evidence[i]) == e.shape.evidence[i];
      assert own == e.shape.evidence;
    } else if ShapeOf(c) == e.shape {
      assert forall i :: 0 <= i < |c.evidence| ==> EvidenceShapeOf(c.evidence[i]) == e.shape.evidence[i];
      assert false;
    }
  }

  function ShapesOf(cs: seq<Candidate>): (r: seq<Shape>)
    ensures |r| == |cs| && forall i :: 0 <= i < |cs| ==> r[i] == ShapeOf(cs[i])
  {
    seq(|cs|, i requires 0 <= i < |cs| => ShapeOf(cs[i]))
  }

  function ExpectedShapes(es: seq<Expected>): (r: seq<Shape>)
    ensures |r| == |es| && forall i :: 0 <= i < |es| ==> r[i] == es[i].shape
  {
    seq(|es|, i requires 0 <= i < |es| => es[i].shape)
  }

  // ------------------------------------------------------------- multisets of positions

  /** The elements at the positions of `at`, with repetition. */
  ghost function Picked<T>(xs: seq<T>, at: set<nat>): multiset<T> {
    if xs == [] then multiset{}
    else
      var n := |xs| - 1;
      Picked(xs[..n], at) + (if n in at then multiset{xs[n]} else multiset{})
  }

  ghost predicate Positions<T>(xs: seq<T>, at: set<nat>) {
    forall j :: j in at ==> j < |xs|
  }

  lemma {:induction false} PickedWithin<T>(xs: seq<T>, at: set<nat>)
    ensures Picked(xs, at) <= multiset(xs)
  {
    if xs != [] {
      var n := |xs| - 1;
      PickedWithin(xs[..n], at);
      assert xs == xs[..n] + [xs[n]];
    }
  }

  lemma {:induction false} PickedIgnores<T>(xs: seq<T>, at: set<nat>, j: nat)
    requires j >= |xs|
    ensures Picked(xs, at - {j}) == Picked(xs, at)
  {
    if xs != [] {
      PickedIgnores(xs[..|xs| - 1], at, j);
    }
  }

  lemma {:induction false} PickedCount<T>(xs: seq<T>, at: set<nat>)
    requires Positions(xs, at)
    ensures |Picked(xs, at)| == |at|
  {
    if xs == [] {
      assert at == {};
    } else {
      var n := |xs| - 1;
      PickedIgnores(xs[..n], at, n);
      PickedCount(xs[..n], at - {n});
    }
  }

  lemma {:induction false} PickedAdd<T>(xs: seq<T>, at: set<nat>, j: nat)
    requires j < |xs| && j !in at
    ensures Picked(xs, at + {j}) == Picked(xs, at) + multiset{xs[j]}
  {
    var n := |xs| - 1;
    if j < n {
      PickedAdd(xs[..n], at, j);
    } else {
      PickedIgnores(xs[..n], at + {j}, j);
      assert at + {j} - {j} == at;
    }
  }

  /** If every position of `x` is picked, all its occurrences are. */
  lemma {:induction false} PickedAll<T>(xs: seq<T>, at: set<nat>, x: T)
    requires forall j :: 0 <= j < |xs| && xs[j] == x ==> j in at
    ensures Picked(xs, at)[x] == multiset(xs)[x]
  {
    if xs != [] {
      var n := |xs| - 1;
      assert xs == xs[..n] + [xs[n]];
      assert forall j :: 0 <= j < n ==> xs[..n][j] == xs[j];
      PickedAll(xs[..n], at, x);
    }
  }

  lemma PickedLess<T>(xs: seq<T>, at: set<nat>, j: nat)
    requires j < |xs| && j !in at
    ensures Picked(xs, at)[xs[j]] < multiset(xs)[xs[j]]
  {
    PickedAdd(xs, at, j);
    PickedWithin(xs, at + {j});
    assert Picked(xs, at + {j})[xs[j]] == Picked(xs, at)[xs[j]] + 1;
  }

  // ------------------------------------------------------------- the greedy loop

  /** Sum over shapes of the smaller of the expected and the emitted count. */
  ghost function Overlap<T>(expected: seq<T>, actual: seq<T>): multiset<T> {
    multiset(expected) * multiset(actual)
  }

  lemma OverlapStep<T>(expected: seq<T>, n: nat, actual: seq<T>, at: set<nat>)
    requires n < |expected| && Positions(actual, at)
    requires Picked(actual, at) == Overlap(expected[..n], actual)
    ensures (forall j :: 0 <= j < |actual| && actual[j] == expected[n] ==> j in at) ==>
              Picked(actual, at) == Overlap(expected[..n + 1], actual)
    ensures forall j :: 0 <= j < |actual| && actual[j] == expected[n] && j !in at ==>
              Picked(actual, at + {j}) == Overlap(expected[..n + 1], actual)
  {
    assert expected[..n + 1] == expected[..n] + [expected[n]];
    if forall j :: 0 <= j < |actual| && actual[j] == expected[n] ==> j in at {
      PickedAll(actual, at, expected[n]);
    }
    forall j | 0 <= j < |actual| && actual[j] == expected[n] && j !in at
      ensures Picked(actual, at + {j}) == Overlap(expected[..n + 1], actual)
    {
      PickedAdd(actual, at, j);
      PickedLess(actual, at, j);
    }
  }

  method FindUnused(actual: seq<Candidate>, used: set<nat>, e: Expected) returns (index: Option<nat>)
    ensures index.Some? ==>
      && index.value < |actual| && index.value !in used && ShapeOf(actual[index.value]) == e.shape
      && forall j :: 0 <= j < index.value ==> j in used || ShapeOf(actual[j]) != e.shape
    ensures index.None? ==> forall j :: 0 <= j < |actual| ==> j in used || ShapeOf(actual[j]) != e.shape
  {
    hide ShapeOf, MatchesExpected;
    for i := 0 to |actual|
      invariant forall j :: 0 <= j < i ==> j in used || ShapeOf(actual[j]) != e.shape
    {
      MatchIsEqualShape(actual[i], e);
      if i !in used && MatchesExpected(actual[i], e) {
        return Some(i);
      }
    }
    index := None;
  }

  predicate DistinctIds(es: seq<Expected>) {
    forall i, j :: 0 <= i < j < |es| ==> es[i].id != es[j].id
  }

  /** Some expectation among the first `n` has this id and the shape of that candidate. */
  ghost predicate MatchedBy(es: seq<Expected>, n: nat, id: string, c: Candidate) {
    exists k :: 0 <= k < n && k < |es| && es[k].id == id && ShapeOf(c) == es[k].shape
  }

  /** Each matched expectation names its own, equally shaped candidate. */
  ghost predicate Assignment(
    es: seq<Expected>, n: nat, cs: seq<Candidate>, used: set<nat>, matched: seq<string>, indexes: map<string, nat>)
  {
    && |matched| == |used| == |indexes|
    && (forall id :: id in indexes <==> id in matched)
    && (forall id :: id in indexes ==>
          indexes[id] in used && indexes[id] < |cs| && MatchedBy(es, n, id, cs[indexes[id]]))
    && forall a, b :: a in indexes && b in indexes && a != b ==> indexes[a] != indexes[b]
  }

  lemma AssignmentWidens(
    es: seq<Expected>, n: nat, cs: seq<Candidate>, used: set<nat>, matched: seq<string>, indexes: map<string, nat>)
    requires Assignment(es, n, cs, used, matched, indexes)
    ensures Assignment(es, n + 1, cs, used, matched, indexes)
  {
    hide ShapeOf;
  }

  lemma NewlyMatched(es: seq<Expected>, n: nat, c: Candidate)
    requires n < |es| && ShapeOf(c) == es[n].shape
    ensures MatchedBy(es, n + 1, es[n].id, c)
  {
  }

  lemma MatchedIsEarlier(es: seq<Expected>, n: nat, id: string, c: Candidate)
    requires n < |es| && DistinctIds(es) && MatchedBy(es, n, id, c)
    ensures id != es[n].id
  {
  }

  lemma AssignmentGrows(
    es: seq<Expected>, n: nat, cs: seq<Candidate>, used: set<nat>, matched: seq<string>, indexes: map<string, nat>,
    j: nat)
    requires n < |es| && DistinctIds(es) && Assignment(es, n, cs, used, matched, indexes)
    requires j < |cs| && j !in used && ShapeOf(cs[j]) == es[n].shape
    ensures Assignment(es, n + 1, cs, used + {j}, matched + [es[n].id], indexes[es[n].id := j])
  {
    hide ShapeOf, MatchedBy;
    AssignmentWidens(es, n, cs, used, matched, indexes);
    assert MatchedBy(es, n + 1, es[n].id, cs[j]) by { NewlyMatched(es, n, cs[j]); }
    assert es[n].id !in indexes by {
      if es[n].id in indexes {
        MatchedIsEarlier(es, n, es[n].id, cs[indexes[es[n].id]]);
        assert false;
      }
    }
  }

  lemma NothingAssigned(es: seq<Expected>, cs: seq<Candidate>)
    ensures Assignment(es, 0, cs, {}, [], map[])
  {
  }

  lemma AssignmentSizes(
    es: seq<Expected>, n: nat, cs: seq<Candidate>, used: set<nat>, matched: seq<string>, indexes: map<string, nat>)
    requires Assignment(es, n, cs, used, matched, indexes)
    ensures |matched| == |used|
  {
  }

  lemma {:induction false} PickedNone<T>(shapes: seq<T>)
    ensures Picked(shapes, {}) == multiset{}
  {
    if shapes != [] {
      PickedNone(shapes[..|shapes| - 1]);
    }
  }

  lemma NothingPicked<T>(shapes: seq<T>, wanted: seq<T>)
    ensures Picked(shapes, {}) == Overlap(wanted[..0], shapes)
  {
    PickedNone(shapes);
    assert wanted[..0] == [];
  }

  /** The matching loop of `evaluate_case`; the corpus validator has made the expectation ids distinct. The
      used candidates carry exactly the shapes expected and emitted alike, so the true positives are the
      size of that overlap; the rest of either list is missing or unexpected. */
  method MatchExpectations(es: seq<Expected>, cs: seq<Candidate>)
    returns (used: set<nat>, matched: seq<string>, missing: seq<string>, indexes: map<string, nat>, unexpected: nat)
    requires DistinctIds(es)
    ensures Positions(cs, used) && Picked(ShapesOf(cs), used) == Overlap(ExpectedShapes(es), ShapesOf(cs))
    ensures |matched| == |Overlap(ExpectedShapes(es), ShapesOf(cs))|
    ensures |matched| + |missing| == |es|
    ensures |matched| + unexpected == |cs|
    ensures Assignment(es, |es|, cs, used, matched, indexes)
  {
    hide ShapeOf, Overlap, Assignment, Picked;
    ghost var shapes, wanted := ShapesOf(cs), ExpectedShapes(es);
    used, matched, missing, indexes := {}, [], [], map[];
    NothingPicked(shapes, wanted);
    NothingAssigned(es, cs);
    for i := 0 to |es|
      invariant Positions(shapes, used) && Picked(shapes, used) == Overlap(wanted[..i], shapes)
      invariant Assignment(es, i, cs, used, matched, indexes)
      invariant |matched| + |missing| == i
    {
      OverlapStep(wanted, i, shapes, used);
      var index := FindUnused(cs, used, es[i]);
      if index.Some? {
        AssignmentGrows(es, i, cs, used, matched, indexes, index.value);
        used := used + {index.value};
        matched := matched + [es[i].id];
        indexes := indexes[es[i].id := index.value];
      } else {
        AssignmentWidens(es, i, cs, used, matched, indexes);
        missing := missing + [es[i].id];
      }
    }
    assert wanted[..|es|] == wanted;
    PickedCount(shapes, used);
    PickedWithin(shapes, used);
    AssignmentSizes(es, |es|, cs, used, matched, indexes);
    assert |multiset(shapes)| == |cs|;
    assert |multiset(shapes)| == |Picked(shapes, used)| + |multiset(shapes) - Picked(shapes, used)|;
    unexpected := |cs| - |used|;
  }

  // ------------------------------------------------------------- optimality

  /** Any one-to-one pairing of equally shaped positions. */
  ghost predicate IsMatching<T>(expected: seq<T>, actual: seq<T>, m: map<nat, nat>) {
    && (forall i :: i in m ==> i < |expected| && m[i] < |actual| && expected[i] == actual[m[i]])
    && forall i, j :: i in m && j in m && i != j ==> m[i] != m[j]
  }

  lemma {:induction false} MatchingPicksTheSame<T>(expected: seq<T>, actual: seq<T>, m: map<nat, nat>)
    requires IsMatching(expected, actual, m)
    ensures Picked(expected, m.Keys) == Picked(actual, m.Values)
    decreases |m|
  {
    if m == map[] {
      PickedNone(expected);
      PickedNone(actual);
    } else {
      var i :| i in m;
      var rest := m - {i};
      MatchingPicksTheSame(expected, actual, rest);
      assert m.Keys == rest.Keys + {i};
      assert m.Values == rest.Values + {m[i]} by {
        forall v
          ensures v in m.Values <==> v in rest.Values + {m[i]}
        {
          if v in m.Values && v != m[i] {
            var k :| k in m && m[k] == v;
            assert k in rest && rest[k] == v;
          }
        }
      }
      assert m[i] !in rest.Values;
      PickedAdd(expected, rest.Keys, i);
      PickedAdd(actual, rest.Values, m[i]);
    }
  }

  /** No one-to-one matching is larger than the overlap, which the greedy loop reaches. */
  lemma GreedyIsMaximum<T>(expected: seq<T>, actual: seq<T>, m: map<nat, nat>)
    requires IsMatching(expected, actual, m)
    ensures |m| <= |Overlap(expected, actual)|
  {
    MatchingPicksTheSame(expected, actual, m);
    PickedWithin(expected, m.Keys);
    PickedWithin(actual, m.Values);
    PickedCount(expected, m.Keys);
    var picked := Picked(expected, m.Keys);
    assert picked <= Overlap(expected, actual);
    assert Overlap(expected, actual) == picked + (Overlap(expected, actual) - picked);
    assert |m| == |m.Keys|;
  }
}
