/** `sort_by`, `dedup` and the uniqueness of sorted sequences, over any comparison. */
module Sorting {
  ghost predicate StrictWeakOrder<T(!new)>(less: (T, T) -> bool) {
    && (forall a :: !less(a, a))
    && (forall a, b, c :: less(a, b) && less(b, c) ==> less(a, c))
    && (forall a, b, c :: less(a, c) ==> less(a, b) || less(b, c))
  }

  /** Any two different elements are ordered one way or the other. */
  ghost predicate TotalOn<T>(less: (T, T) -> bool, xs: seq<T>) {
    forall i, j :: 0 <= i < |xs| && 0 <= j < |xs| && xs[i] != xs[j] ==> less(xs[i], xs[j]) || less(xs[j], xs[i])
  }

  ghost predicate Ascending<T>(less: (T, T) -> bool, xs: seq<T>) {
    forall i, j :: 0 <= i < j < |xs| ==> !less(xs[j], xs[i])
  }

  ghost predicate StrictlyAscending<T>(less: (T, T) -> bool, xs: seq<T>) {
    forall i, j :: 0 <= i < j < |xs| ==> less(xs[i], xs[j])
  }

  function Insert<T>(less: (T, T) -> bool, x: T, xs: seq<T>): seq<T> {
    if xs != [] && less(xs[0], x) then [xs[0]] + Insert(less, x, xs[1..]) else [x] + xs
  }

  /** A stable sort. */
  function Sort<T>(less: (T, T) -> bool, xs: seq<T>): seq<T> {
    if xs == [] then [] else Insert(less, xs[0], Sort(less, xs[1..]))
  }

  lemma {:induction false} InsertPermutes<T>(less: (T, T) -> bool, x: T, xs: seq<T>)
    ensures multiset(Insert(less, x, xs)) == multiset{x} + multiset(xs)
  {
    if xs != [] && less(xs[0], x) {
      InsertPermutes(less, x, xs[1..]);
      assert xs == [xs[0]] + xs[1..];
    }
  }

  lemma {:induction false} SortPermutes<T>(less: (T, T) -> bool, xs: seq<T>)
    ensures multiset(Sort(less, xs)) == multiset(xs)
  {
    if xs != [] {
      SortPermutes(less, xs[1..]);
      InsertPermutes(less, xs[0], Sort(less, xs[1..]));
      assert xs == [xs[0]] + xs[1..];
    }
  }

  lemma SameElements<T>(xs: seq<T>, ys: seq<T>)
    requires multiset(xs) == multiset(ys)
    ensures |xs| == |ys|
    ensures forall x :: x in xs <==> x in ys
  {
    assert |xs| == |multiset(xs)| == |multiset(ys)| == |ys|;
    forall x
      ensures x in xs <==> x in ys
    {
      assert x in xs <==> x in multiset(xs);
      assert x in ys <==> x in multiset(ys);
    }
  }

  lemma {:induction false} InsertAscends<T(!new)>(less: (T, T) -> bool, x: T, xs: seq<T>)
    requires StrictWeakOrder(less) && Ascending(less, xs)
    ensures Ascending(less, Insert(less, x, xs))
  {
    var r := Insert(less, x, xs);
    if xs != [] && less(xs[0], x) {
      var tail := Insert(less, x, xs[1..]);
      InsertAscends(less, x, xs[1..]);
      InsertPermutes(less, x, xs[1..]);
      forall j | 0 <= j < |tail|
        ensures !less(tail[j], xs[0])
      {
        assert tail[j] in multiset(tail);
        if tail[j] == x {
        } else {
          var k :| 0 <= k < |xs[1..]| && xs[1..][k] == tail[j];
          assert xs[k + 1] == tail[j];
        }
      }
    } else if xs != [] {
      forall j | 0 <= j < |xs|
        ensures !less(xs[j], x)
      {
        assert j > 0 ==> !less(xs[j], xs[0]);
      }
    }
  }

  lemma {:induction false} SortAscends<T(!new)>(less: (T, T) -> bool, xs: seq<T>)
    requires StrictWeakOrder(less)
    ensures Ascending(less, Sort(less, xs))
  {
    if xs != [] {
      SortAscends(less, xs[1..]);
      InsertAscends(less, xs[0], Sort(less, xs[1..]));
    }
  }

  lemma {:induction false} DistinctMultiset<T>(xs: seq<T>)
    requires forall i, j :: 0 <= i < j < |xs| ==> xs[i] != xs[j]
    ensures forall x :: multiset(xs)[x] <= 1
  {
    if xs != [] {
      var rest := xs[..|xs| - 1];
      DistinctMultiset(rest);
      assert xs == rest + [xs[|xs| - 1]];
      assert xs[|xs| - 1] !in rest;
    }
  }

  lemma RepeatedMultiset<T>(xs: seq<T>, i: nat, j: nat)
    requires i < j < |xs| && xs[i] == xs[j]
    ensures multiset(xs)[xs[i]] >= 2
  {
    assert xs == xs[..i] + [xs[i]] + xs[i + 1..j] + [xs[j]] + xs[j + 1..];
  }

  /** Sorting distinct, totally ordered elements leaves no tie. */
  lemma SortStrictlyAscends<T(!new)>(less: (T, T) -> bool, xs: seq<T>)
    requires StrictWeakOrder(less) && TotalOn(less, xs)
    requires forall i, j :: 0 <= i < j < |xs| ==> xs[i] != xs[j]
    ensures StrictlyAscending(less, Sort(less, xs))
    ensures forall x :: x in Sort(less, xs) <==> x in xs
  {
    var s := Sort(less, xs);
    SortPermutes(less, xs);
    SortAscends(less, xs);
    SameElements(s, xs);
    DistinctMultiset(xs);
    forall i, j | 0 <= i < j < |s|
      ensures less(s[i], s[j])
    {
      assert s[i] in xs && s[j] in xs;
      if s[i] == s[j] {
        RepeatedMultiset(s, i, j);
        assert false;
      }
    }
  }

  /** A strictly ascending sequence is determined by the set of its elements. */
  lemma {:induction false} StrictlyAscendingUnique<T(!new)>(less: (T, T) -> bool, xs: seq<T>, ys: seq<T>)
    requires StrictWeakOrder(less)
    requires StrictlyAscending(less, xs) && StrictlyAscending(less, ys)
    requires forall x :: x in xs <==> x in ys
    ensures xs == ys
    decreases |xs|
  {
    if ys != [] {
      assert ys[0] in ys;
    }
    if xs != [] {
      assert xs[0] in xs;
      var i :| 0 <= i < |ys| && ys[i] == xs[0];
      var j :| 0 <= j < |xs| && xs[j] == ys[0];
      assert xs[0] == ys[0];
      forall x
        ensures x in xs[1..] <==> x in ys[1..]
      {
        if x in xs[1..] {
          var k :| 0 <= k < |xs[1..]| && xs[1..][k] == x;
          assert less(xs[0], xs[k + 1]);
          assert x in ys && x != ys[0];
        }
        if x in ys[1..] {
          var k :| 0 <= k < |ys[1..]| && ys[1..][k] == x;
          assert less(ys[0], ys[k + 1]);
          assert x in xs && x != xs[0];
        }
      }
      StrictlyAscendingUnique(less, xs[1..], ys[1..]);
      assert xs == [xs[0]] + xs[1..] && ys == [ys[0]] + ys[1..];
    }
  }

  /** `Vec::dedup`: drop an element equal to the one before it. */
  function Dedup<T(==)>(xs: seq<T>): (r: seq<T>)
    ensures xs != [] ==> r != [] && r[0] == xs[0]
  {
    if |xs| < 2 then xs
    else if xs[0] == xs[1] then Dedup(xs[1..])
    else [xs[0]] + Dedup(xs[1..])
  }

  lemma {:induction false} DedupElements<T>(xs: seq<T>)
    ensures forall x :: x in Dedup(xs) <==> x in xs
  {
    if |xs| >= 2 {
      DedupElements(xs[1..]);
      assert xs == [xs[0]] + xs[1..];
    }
  }

  lemma {:induction false} DedupAscends<T(!new)>(less: (T, T) -> bool, xs: seq<T>)
    requires StrictWeakOrder(less) && Ascending(less, xs) && TotalOn(less, xs)
    ensures StrictlyAscending(less, Dedup(xs))
  {
    if |xs| >= 2 {
      DedupAscends(less, xs[1..]);
      DedupElements(xs[1..]);
      if xs[0] != xs[1] {
        var r := Dedup(xs[1..]);
        assert less(xs[0], xs[1]);
        forall j | 0 <= j < |r|
          ensures less(xs[0], r[j])
        {
          assert r[j] in xs[1..];
          var k :| 0 <= k < |xs[1..]| && xs[1..][k] == r[j];
          assert !less(xs[k + 1], xs[1]) || k == 0;
        }
      }
    }
  }

  /** Sort, then drop repeats: what the source does to scope paths and tags. */
  function Canonical<T(==)>(less: (T, T) -> bool, xs: seq<T>): seq<T> {
    Dedup(Sort(less, xs))
  }

  lemma CanonicalMeaning<T(!new)>(less: (T, T) -> bool, xs: seq<T>)
    requires StrictWeakOrder(less) && TotalOn(less, xs)
    ensures StrictlyAscending(less, Canonical(less, xs))
    ensures forall x :: x in Canonical(less, xs) <==> x in xs
  {
    var s := Sort(less, xs);
    SortPermutes(less, xs);
    SameElements(s, xs);
    SortAscends(less, xs);
    forall i, j | 0 <= i < |s| && 0 <= j < |s| && s[i] != s[j]
      ensures less(s[i], s[j]) || less(s[j], s[i])
    {
      assert s[i] in xs && s[j] in xs;
    }
    DedupAscends(less, s);
    DedupElements(s);
  }

  /** The canonical form depends only on which elements occur; in particular it is idempotent. */
  lemma CanonicalDeterminedByElements<T(!new)>(less: (T, T) -> bool, xs: seq<T>, ys: seq<T>)
    requires StrictWeakOrder(less) && TotalOn(less, xs) && TotalOn(less, ys)
    requires forall x :: x in xs <==> x in ys
    ensures Canonical(less, xs) == Canonical(less, ys)
  {
    CanonicalMeaning(less, xs);
    CanonicalMeaning(less, ys);
    StrictlyAscendingUnique(less, Canonical(less, xs), Canonical(less, ys));
  }
}
