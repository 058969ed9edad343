/** Powers and big-endian positional numerals. */
module Radix {

  function Pow(b: nat, e: nat): (r: nat)
    ensures b > 0 ==> r > 0
    decreases e, b
  {
    if e == 0 then 1 else b * Pow(b, e - 1)
  }

  lemma MulAssociates(x: nat, y: nat, z: nat)
    ensures x * (y * z) == (x * y) * z
  {
  }

  lemma {:induction false} PowAdd(b: nat, m: nat, n: nat)
    ensures Pow(b, m + n) == Pow(b, m) * Pow(b, n)
  {
    if m > 0 {
      PowAdd(b, m - 1, n);
      MulAssociates(b, Pow(b, m - 1), Pow(b, n));
    }
  }

  lemma {:induction false} PowPow(b: nat, m: nat, n: nat)
    ensures Pow(b, m * n) == Pow(Pow(b, m), n)
  {
    if n == 0 {
      assert m * n == 0;
    } else {
      PowPow(b, m, n - 1);
      PowAdd(b, m, m * (n - 1));
      assert m * n == m + m * (n - 1);
    }
  }

  lemma MulMono(a: nat, b: nat, c: nat, d: nat)
    requires a <= b && c <= d
    ensures a * c <= b * d
  {
    assert b * d - a * c == (b - a) * d + a * (d - c);
  }

  lemma {:induction false} PowMono(a: nat, b: nat, e: nat)
    requires a <= b
    ensures Pow(a, e) <= Pow(b, e)
  {
    if e > 0 {
      PowMono(a, b, e - 1);
      MulMono(a, b, Pow(a, e - 1), Pow(b, e - 1));
    }
  }

  lemma {:induction false} PowStrict(a: nat, b: nat, e: nat)
    requires a < b && e > 0
    ensures Pow(a, e) < Pow(b, e)
  {
    PowMono(a, b, e - 1);
    assert Pow(b, e - 1) > 0;
    MulMono(a, b - 1, Pow(a, e - 1), Pow(b, e - 1));
    assert (b - 1) * Pow(b, e - 1) == b * Pow(b, e - 1) - Pow(b, e - 1);
  }

  lemma {:induction false} PowExpMono(b: nat, m: nat, n: nat)
    requires m <= n && b > 0
    ensures Pow(b, m) <= Pow(b, n)
  {
    if m < n {
      PowExpMono(b, m, n - 1);
      MulMono(1, b, Pow(b, n - 1), Pow(b, n - 1));
    }
  }

  // ---------------------------------------------------------------------------
  // Numerals.

  /** The number a list of digits denotes. */
  function Value(digits: seq<nat>, b: nat): nat {
    if digits == [] then 0 else Value(digits[..|digits| - 1], b) * b + digits[|digits| - 1]
  }

  predicate AllBelow(digits: seq<nat>, b: nat) {
    forall i :: 0 <= i < |digits| ==> digits[i] < b
  }

  /** The digits of a number, none for zero and no leading zero. */
  function Digits(n: nat, b: nat): (r: seq<nat>)
    requires b > 1
    ensures AllBelow(r, b) && Canonical(r) && (n > 0 ==> r != [])
    decreases n
  {
    if n == 0 then []
    else
      QuotientShrinks(n, b);
      Digits(n / b, b) + [n % b]
  }

  lemma QuotientShrinks(n: nat, b: nat)
    requires b > 1 && n > 0
    ensures n / b < n
  {
    if n / b >= n {
      MulMono(2, b, n, n / b);
    }
  }

  predicate Canonical(digits: seq<nat>) {
    digits == [] || digits[0] != 0
  }

  lemma DivMod(q: nat, r: nat, b: nat)
    requires r < b
    ensures (q * b + r) / b == q && (q * b + r) % b == r
  {
    var n := q * b + r;
    var q', r' := n / b, n % b;
    assert n == b * q' + r';
    if q' < q {
      MulMono(b, b, q' + 1, q);
    } else if q' > q {
      MulMono(b, b, q + 1, q');
    }
    assert b * q == q * b;
  }

  lemma {:induction false} ValueOfDigits(n: nat, b: nat)
    requires b > 1
    ensures Value(Digits(n, b), b) == n
    decreases n
  {
    if n > 0 {
      QuotientShrinks(n, b);
      var q, r := n / b, n % b;
      QuotientAndRest(n, b);
      ValueOfDigits(q, b);
      ValueAppend(Digits(q, b), r, b);
    }
  }

  lemma QuotientAndRest(n: nat, b: nat)
    requires b > 0
    ensures n == (n / b) * b + n % b
  {
  }

  lemma ValueAppend(digits: seq<nat>, d: nat, b: nat)
    ensures Value(digits + [d], b) == Value(digits, b) * b + d
  {
    assert (digits + [d])[..|digits|] == digits;
  }

  lemma {:induction false} ValueBound(digits: seq<nat>, b: nat)
    requires b > 0 && AllBelow(digits, b)
    ensures Value(digits, b) < Pow(b, |digits|)
  {
    if digits != [] {
      var n := |digits| - 1;
      ValueBound(digits[..n], b);
      MulMono(Value(digits[..n], b), Pow(b, n) - 1, b, b);
      assert (Pow(b, n) - 1) * b == b * Pow(b, n) - b;
    }
  }

  lemma {:induction false} CanonicalIsPositive(digits: seq<nat>, b: nat)
    requires b > 1 && AllBelow(digits, b) && Canonical(digits) && digits != []
    ensures Value(digits, b) > 0
  {
    var n := |digits| - 1;
    if n > 0 {
      CanonicalIsPositive(digits[..n], b);
      MulMono(1, Value(digits[..n], b), b, b);
    } else {
      assert digits[..n] == [];
    }
  }

  /** A numeral without leading zeros is the one of its value. */
  lemma {:induction false} DigitsOfValue(digits: seq<nat>, b: nat)
    requires b > 1 && AllBelow(digits, b) && Canonical(digits)
    ensures Digits(Value(digits, b), b) == digits
  {
    if digits != [] {
      var n := |digits| - 1;
      CanonicalIsPositive(digits, b);
      DivMod(Value(digits[..n], b), digits[n], b);
      DigitsOfValue(digits[..n], b);
    }
  }

  function Zeros(n: nat): seq<nat> {
    seq(n, i => 0)
  }

  /** How many zeros a list starts with. */
  function LeadingZeros(s: seq<nat>): (z: nat)
    ensures z <= |s| && s[..z] == Zeros(z) && Canonical(s[z..])
  {
    if s != [] && s[0] == 0 then
      var z := LeadingZeros(s[1..]);
      assert s == [0] + s[1..] && s[1..] == s[1..][..z] + s[1..][z..];
      1 + z
    else 0
  }

  lemma {:induction false} ValueSkipsZeros(z: nat, digits: seq<nat>, b: nat)
    ensures Value(Zeros(z) + digits, b) == Value(digits, b)
    decreases z + |digits|
  {
    var s := Zeros(z) + digits;
    if digits != [] {
      var n := |digits| - 1;
      assert s[..|s| - 1] == Zeros(z) + digits[..n];
      ValueSkipsZeros(z, digits[..n], b);
    } else if z > 0 {
      assert s[..|s| - 1] == Zeros(z - 1) + digits;
      ValueSkipsZeros(z - 1, digits, b);
    }
  }

  /** A buffer with its leading zeros skipped is the numeral of its value. */
  lemma BufferDigits(s: seq<nat>, b: nat)
    requires b > 1 && AllBelow(s, b)
    ensures s[LeadingZeros(s)..] == Digits(Value(s, b), b)
  {
    var z := LeadingZeros(s);
    assert s == Zeros(z) + s[z..];
    ValueSkipsZeros(z, s[z..], b);
    DigitsOfValue(s[z..], b);
  }

  lemma FrontStep(d: nat, p: nat, v: nat, b: nat)
    ensures (d * p + v) * b == d * (b * p) + v * b
  {
    assert (d * p + v) * b == (d * p) * b + v * b;
    assert (d * p) * b == d * (b * p);
  }

  /** One more digit at the front is worth its place. */
  lemma {:induction false} ValueFront(d: nat, digits: seq<nat>, b: nat)
    ensures Value([d] + digits, b) == d * Pow(b, |digits|) + Value(digits, b)
  {
    var s := [d] + digits;
    if digits == [] {
      assert s[..|s| - 1] == [];
    } else {
      var n := |digits| - 1;
      assert s[..|s| - 1] == [d] + digits[..n];
      ValueFront(d, digits[..n], b);
      FrontStep(d, Pow(b, n), Value(digits[..n], b), b);
    }
  }
}
