/** The payment-card detector: the Luhn formula (Annex B of ISO/IEC 7812-1) and the line scanner. */
module PaymentCard {
  type Digit = d: int | 0 <= d <= 9

  const MIN_DIGITS := 13
  const MAX_DIGITS := 19

  function Doubled(d: Digit): Digit {
    if 2 * d > 9 then 2 * d - 9 else 2 * d
  }

  // ------------------------------------------------------------- the formula

  /** The source's term: double where the index has the parity of the length. */
  function Term(length: nat, i: nat, d: Digit): Digit {
    if i % 2 == length % 2 then Doubled(d) else d
  }

  function ForwardSum(length: nat, digits: seq<Digit>): nat {
    if digits == [] then 0
    else
      var n := |digits| - 1;
      ForwardSum(length, digits[..n]) + Term(length, n, digits[n])
  }

  /** The standard's wording: from the right, every second digit is doubled. */
  function LuhnSum(digits: seq<Digit>, double: bool): nat {
    if digits == [] then 0
    else
      var n := |digits| - 1;
      (if double then Doubled(digits[n]) else digits[n]) + LuhnSum(digits[..n], !double)
  }

  lemma {:induction false} ForwardIsRightToLeftFrom(length: nat, digits: seq<Digit>)
    requires |digits| <= length
    ensures ForwardSum(length, digits) == LuhnSum(digits, (length - |digits|) % 2 == 1)
  {
    if digits != [] {
      var n := |digits| - 1;
      ForwardIsRightToLeftFrom(length, digits[..n]);
      assert (length - n) % 2 == 1 <==> !((length - |digits|) % 2 == 1);
      assert n % 2 == length % 2 <==> (length - |digits|) % 2 == 1;
    }
  }

  /** The forward parity sum is the right-to-left Luhn sum, the check digit itself not doubled. */
  lemma ForwardIsRightToLeft(digits: seq<Digit>)
    ensures ForwardSum(|digits|, digits) == LuhnSum(digits, false)
  {
    ForwardIsRightToLeftFrom(|digits|, digits);
  }

  predicate AllSame(digits: seq<Digit>) {
    forall i :: 0 <= i < |digits| ==> digits[i] == digits[0]
  }

  predicate ValidDigits(digits: seq<Digit>) {
    MIN_DIGITS <= |digits| <= MAX_DIGITS && !AllSame(digits) && LuhnSum(digits, false) % 10 == 0
  }

  method CheckDigits(digits: seq<Digit>) returns (valid: bool)
    ensures valid == ValidDigits(digits)
  {
    if !(MIN_DIGITS <= |digits| <= MAX_DIGITS) || AllSame(digits) {
      return false;
    }
    var sum := 0;
    for i := 0 to |digits|
      invariant sum == ForwardSum(|digits|, digits[..i])
    {
      assert digits[..i + 1][..i] == digits[..i];
      var value: int := digits[i];
      if i % 2 == |digits| % 2 {
        value := value * 2;
        if value > 9 {
          value := value - 9;
        }
      }
      sum := sum + value;
    }
    assert digits[..|digits|] == digits;
    ForwardIsRightToLeft(digits);
    valid := sum % 10 == 0;
  }

  lemma {:induction false} SumAfterChange(length: nat, digits: seq<Digit>, i: nat, d: Digit)
    requires i < |digits|
    ensures ForwardSum(length, digits[i := d])
            == ForwardSum(length, digits) - Term(length, i, digits[i]) + Term(length, i, d)
  {
    hide Term;
    var n := |digits| - 1;
    if i < n {
      SumAfterChange(length, digits[..n], i, d);
      assert digits[i := d][..n] == digits[..n][i := d];
    } else {
      assert digits[i := d][..n] == digits[..n];
    }
  }

  lemma ModTenShift(sum: nat, delta: int)
    requires sum % 10 == 0 && sum + delta >= 0
    ensures (sum + delta) % 10 == 0 <==> delta % 10 == 0
  {
  }

  lemma TermsDiffer(length: nat, i: nat, a: Digit, b: Digit)
    ensures (Term(length, i, b) - Term(length, i, a)) % 10 == 0 <==> a == b
  {
  }

  /** Changing exactly one digit of a passing number makes it fail. */
  lemma OneDigitErrorDetected(digits: seq<Digit>, i: nat, d: Digit)
    requires ValidDigits(digits) && i < |digits| && d != digits[i]
    ensures !ValidDigits(digits[i := d])
  {
    hide Term, LuhnSum, ForwardSum;
    ForwardIsRightToLeft(digits);
    ForwardIsRightToLeft(digits[i := d]);
    SumAfterChange(|digits|, digits, i, d);
    TermsDiffer(|digits|, i, digits[i], d);
    ModTenShift(LuhnSum(digits, false), Term(|digits|, i, d) - Term(|digits|, i, digits[i]));
  }

  predicate ZeroAndNine(a: Digit, b: Digit) {
    (a == 0 && b == 9) || (a == 9 && b == 0)
  }

  lemma SwapTerms(length: nat, i: nat, a: Digit, b: Digit)
    ensures (Term(length, i, b) - Term(length, i, a) + Term(length, i + 1, a) - Term(length, i + 1, b)) % 10 == 0
            <==> a == b || ZeroAndNine(a, b)
  {
    assert i % 2 == length % 2 <==> !((i + 1) % 2 == length % 2);
  }

  /** Swapping two neighbours goes unnoticed exactly when they are equal, or a zero and a nine. */
  lemma SwapDetectedUnlessZeroNine(digits: seq<Digit>, i: nat)
    requires ValidDigits(digits) && i + 1 < |digits|
    ensures ValidDigits(digits[i := digits[i + 1]][i + 1 := digits[i]])
            <==> digits[i] == digits[i + 1] || ZeroAndNine(digits[i], digits[i + 1])
  {
    hide Term, LuhnSum, ForwardSum;
    var a, b := digits[i], digits[i + 1];
    var once := digits[i := b];
    var swapped := once[i + 1 := a];
    ForwardIsRightToLeft(digits);
    ForwardIsRightToLeft(swapped);
    SumAfterChange(|digits|, digits, i, b);
    SumAfterChange(|digits|, once, i + 1, a);
    SwapTerms(|digits|, i, a, b);
    ModTenShift(LuhnSum(digits, false), Term(|digits|, i, b) - Term(|digits|, i, a)
                                        + Term(|digits|, i + 1, a) - Term(|digits|, i + 1, b));
    if a != b {
      assert swapped[i] != swapped[i + 1];
    } else {
      assert swapped == digits;
    }
  }

  // ------------------------------------------------------------- the scanner

  predicate IsDigit(c: char) {
    '0' <= c <= '9'
  }

  function DigitValue(c: char): Digit
    requires IsDigit(c)
  {
    c as int - '0' as int
  }

  predicate IsRunChar(c: char) {
    IsDigit(c) || c == ' ' || c == '-'
  }

  function DigitsOf(s: string): seq<Digit> {
    if s == [] then []
    else
      var n := |s| - 1;
      DigitsOf(s[..n]) + (if IsDigit(s[n]) then [DigitValue(s[n])] else [])
  }

  predicate AllRun(line: string, a: nat, b: nat)
    requires a <= b <= |line|
  {
    forall i :: a <= i < b ==> IsRunChar(line[i])
  }

  /** A maximal stretch of digits, spaces and hyphens. */
  predicate IsRun(line: string, a: nat, b: nat) {
    && a <= b <= |line|
    && AllRun(line, a, b)
    && (a == 0 || !IsRunChar(line[a - 1]))
    && (b == |line| || !IsRunChar(line[b]))
  }

  ghost predicate HasCardRun(line: string) {
    exists a: nat, b: nat :: IsRun(line, a, b) && ValidDigits(DigitsOf(line[a..b]))
  }

  ghost predicate NoCardBefore(line: string, i: nat) {
    forall a: nat, b: nat :: IsRun(line, a, b) && b < i ==> !ValidDigits(DigitsOf(line[a..b]))
  }

  /** A run that ends in front of a breaking character is the one being read. */
  lemma RunEndsHere(line: string, start: nat, i: nat)
    requires start <= i <= |line| && AllRun(line, start, i) && (start == 0 || !IsRunChar(line[start - 1]))
    requires i == |line| || !IsRunChar(line[i])
    ensures IsRun(line, start, i)
    ensures forall a: nat :: IsRun(line, a, i) ==> a == start
  {
    if start > 0 {
      assert !IsRunChar(line[start - 1]);
    }
    forall a: nat | IsRun(line, a, i)
      ensures a == start
    {
      if a > 0 {
        assert !IsRunChar(line[a - 1]);
      }
    }
  }

  lemma EmptyIsInvalid()
    ensures !ValidDigits([])
  {
  }

  /** The scanner of the source, with its end-of-line sentinel: it reports a card number exactly when the
      digits of some maximal run pass the check. */
  method ContainsCardNumber(line: string) returns (found: bool)
    ensures found <==> HasCardRun(line)
  {
    hide ValidDigits;
    var digits: seq<Digit> := [];
    var inCandidate := false;
    ghost var start := 0;
    for i := 0 to |line| + 1
      invariant i <= |line| ==> start <= i && AllRun(line, start, i) && (start == 0 || !IsRunChar(line[start - 1]))
      invariant i <= |line| ==> digits == DigitsOf(line[start..i])
      invariant inCandidate == (digits != [])
      invariant NoCardBefore(line, i)
    {
      var character := if i < |line| then line[i] else '\0';
      if i < |line| {
        assert line[start..i + 1][..i - start] == line[start..i];
      }
      if IsDigit(character) {
        digits := digits + [DigitValue(character)];
        inCandidate := true;
      } else if character == ' ' || character == '-' {
      } else {
        RunEndsHere(line, start, i);
        EmptyIsInvalid();
        if inCandidate {
          var valid := CheckDigits(digits);
          if valid {
            return true;
          }
          digits := [];
          inCandidate := false;
        }
        start := i + 1;
        assert i < |line| ==> line[start..i + 1] == [];
      }
    }
    found := false;
  }
}
