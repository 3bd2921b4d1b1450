/** The two result shapes and the code-point order on strings that every other module uses. */
module Prelude {
  datatype Option<+T> = None | Some(value: T)

  datatype Result<+T, +E> = Success(value: T) | Failure(error: E)

  /** Rust's `Ord` for `str`: code-point lexicographic order (the same as byte order in UTF-8). */
  predicate Before(a: string, b: string) {
    b != [] && (a == [] || a[0] < b[0] || (a[0] == b[0] && Before(a[1..], b[1..])))
  }

  lemma {:induction false} BeforeIrreflexive(a: string)
    ensures !Before(a, a)
  {
    if a != [] {
      BeforeIrreflexive(a[1..]);
    }
  }

  lemma {:induction false} BeforeTotal(a: string, b: string)
    ensures Before(a, b) || a == b || Before(b, a)
  {
    if a != [] && b != [] && a[0] == b[0] {
      BeforeTotal(a[1..], b[1..]);
      assert a == [a[0]] + a[1..] && b == [b[0]] + b[1..];
    }
  }

  lemma {:induction false} BeforeTransitive(a: string, b: string, c: string)
    requires Before(a, b) && Before(b, c)
    ensures Before(a, c)
  {
    if a != [] && a[0] == b[0] == c[0] {
      BeforeTransitive(a[1..], b[1..], c[1..]);
    }
  }

  lemma BeforeAsymmetric(a: string, b: string)
    requires Before(a, b)
    ensures !Before(b, a) && a != b
  {
    BeforeIrreflexive(a);
    if Before(b, a) {
      BeforeTransitive(a, b, a);
    }
  }

  /** The order laws on three strings, for use inside a `forall` statement. */
  lemma BeforeLaws(a: string, b: string, c: string)
    ensures !Before(a, a)
    ensures Before(a, b) && Before(b, c) ==> Before(a, c)
    ensures Before(a, b) ==> !Before(b, a)
    ensures Before(a, b) || a == b || Before(b, a)
    ensures Before(b, c) || b == c || Before(c, b)
    ensures Before(a, c) ==> Before(a, b) || Before(b, c)
  {
    BeforeIrreflexive(a);
    BeforeTotal(a, b);
    BeforeTotal(b, c);
    if Before(a, b) {
      BeforeAsymmetric(a, b);
    }
    if Before(a, b) && Before(b, c) {
      BeforeTransitive(a, b, c);
    }
    if Before(b, a) && Before(a, c) {
      BeforeTransitive(b, a, c);
    }
  }

  ghost predicate Distinct<T>(xs: seq<T>) {
    forall i, j :: 0 <= i < j < |xs| ==> xs[i] != xs[j]
  }

  function SetOf(xs: seq<string>): set<string> {
    set x | x in xs
  }
}
