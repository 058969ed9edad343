/**
 Amount compression (src/compressor.cpp): trailing zeros are taken off an amount and its
 last digit is folded into the code.  A bijection on the naturals; 64-bit arithmetic
 computes it modulo 2^64, hence exactly for every amount below a ninth of its range.
 */
module Compressor {

  const WORD: nat := 0x1_0000_0000_0000_0000

  /** An amount as mantissa and number of trailing zeros, at most `limit` of them. */
  function Strip(n: nat, limit: nat): (r: (nat, nat))
    ensures r.1 <= limit && Scale(r.0, r.1) == n
    ensures r.1 < limit ==> r.0 % 10 != 0
    ensures n > 0 ==> r.0 > 0
  {
    if limit == 0 || n % 10 != 0 then (n, 0)
    else
      var (m, e) := Strip(n / 10, limit - 1);
      (m, e + 1)
  }

  function Scale(m: nat, e: nat): (n: nat)
    ensures m <= n
  {
    if e == 0 then m else 10 * Scale(m, e - 1)
  }

  /** Mantissa and zeros are found again. */
  lemma {:induction false} StripScale(m: nat, e: nat, limit: nat)
    requires e <= limit && (e < limit ==> m % 10 != 0)
    ensures Strip(Scale(m, e), limit) == (m, e)
  {
    if e > 0 {
      StripScale(m, e - 1, limit - 1);
      assert Scale(m, e) / 10 == Scale(m, e - 1) && Scale(m, e) % 10 == 0;
    }
  }

  function Compress(n: nat): nat {
    if n == 0 then 0
    else
      var (m, e) := Strip(n, 9);
      Code(m, e)
  }

  /** The last digit of the mantissa is not zero unless nine zeros were taken off. */
  function Code(m: nat, e: nat): nat
    requires m > 0 && (e < 9 ==> m % 10 != 0)
  {
    if e < 9 then 1 + (m / 10 * 9 + m % 10 - 1) * 10 + e else 1 + (m - 1) * 10 + 9
  }

  function Decompress(x: nat): nat {
    if x == 0 then 0
    else
      var e, y := (x - 1) % 10, (x - 1) / 10;
      if e < 9 then Scale(y / 9 * 10 + y % 9 + 1, e) else Scale(y + 1, 9)
  }

  lemma Digit10(q: nat, d: nat)
    requires d < 10
    ensures (q * 10 + d) / 10 == q && (q * 10 + d) % 10 == d
  {
  }

  lemma Digit9(q: nat, d: nat)
    requires d < 9
    ensures (q * 9 + d) / 9 == q && (q * 9 + d) % 9 == d
  {
  }

  lemma DecompressCompress(n: nat)
    ensures Decompress(Compress(n)) == n
  {
    if n > 0 {
      var (m, e) := Strip(n, 9);
      if e < 9 {
        Digit10(m / 10 * 9 + (m % 10 - 1), e);
        Digit9(m / 10, m % 10 - 1);
      } else {
        Digit10(m - 1, 9);
      }
    }
  }

  lemma CompressDecompress(x: nat)
    ensures Compress(Decompress(x)) == x
  {
    if x > 0 {
      var e, y := (x - 1) % 10, (x - 1) / 10;
      if e < 9 {
        Digit10(y / 9, y % 9 + 1);
        StripScale(y / 9 * 10 + y % 9 + 1, e, 9);
      } else {
        StripScale(y + 1, 9, 9);
      }
    }
  }

  /** A code is at most nine times its amount. */
  lemma CompressBound(n: nat)
    ensures Compress(n) <= 9 * n
  {
    if n > 0 {
      var (m, e) := Strip(n, 9);
      if e > 0 {
        ScaleGrows(m, e);
      }
    }
  }

  /** The code of an amount by its last digit that is not zero and the number of zeros after it. */
  lemma CompressIs(q: nat, d: nat, e: nat)
    requires e < 9 && 1 <= d <= 9
    ensures Compress(Scale(10 * q + d, e)) == 1 + 10 * (9 * q + d - 1) + e
  {
    StripScale(10 * q + d, e, 9);
  }

  /** Nine zeros or more. */
  lemma CompressBillions(m: nat)
    requires m > 0
    ensures Compress(Scale(m, 9)) == 10 * m
  {
    StripScale(m, 9, 9);
  }

  /** One unit, a hundredth, one, fifty and twenty-one million coins. */
  lemma CompressExamples()
    ensures Compress(0) == 0 && Compress(1) == 1 && Compress(1000000) == 0x7 && Compress(100000000) == 0x9
    ensures Compress(5000000000) == 0x32 && Compress(2100000000000000) == 0x1406f40
  {
    CompressIs(0, 1, 0);
    CompressIs(0, 1, 6);
    CompressIs(0, 1, 8);
    CompressBillions(5);
    CompressBillions(2100000);
    ScaleIs(1);
    ScaleIs(5);
    ScaleIs(2100000);
  }

  lemma ScaleIs(m: nat)
    ensures Scale(m, 6) == 1000000 * m && Scale(m, 8) == 100000000 * m && Scale(m, 9) == 1000000000 * m
  {
    assert Scale(m, 2) == 10 * Scale(m, 1) && Scale(m, 1) == 10 * Scale(m, 0);
    assert Scale(m, 4) == 10 * Scale(m, 3) && Scale(m, 3) == 10 * Scale(m, 2);
    assert Scale(m, 6) == 10 * Scale(m, 5) && Scale(m, 5) == 10 * Scale(m, 4);
    assert Scale(m, 8) == 10 * Scale(m, 7) && Scale(m, 7) == 10 * Scale(m, 6);
  }

  lemma {:induction false} ScaleGrows(m: nat, e: nat)
    requires e > 0 && m > 0
    ensures Scale(m, e) >= 10 * m && Scale(m, e) >= m + e
  {
    if e > 1 {
      ScaleGrows(m, e - 1);
    }
  }

  /** uint64_t arithmetic. */
  function Wrap(x: int): nat {
    if 0 <= x < WORD then x else x % WORD
  }

  lemma WrapAdd(x: int, d: int)
    ensures Wrap(Wrap(x) + d) == Wrap(x + d)
  {
  }

  lemma WrapIsMod(x: int)
    ensures Wrap(x) == x % WORD
  {
  }

  lemma WrapPeriod(x: int, q: int)
    ensures Wrap(x + q * WORD) == Wrap(x)
  {
    WrapIsMod(x);
    WrapIsMod(x + q * WORD);
  }

  lemma WrapTimes10(x: int)
    ensures Wrap(Wrap(x) * 10) == Wrap(x * 10)
  {
    var q := x / WORD;
    assert Wrap(x) == x - q * WORD by { WrapIsMod(x); }
    WrapPeriod(Wrap(x) * 10, 10 * q);
  }

  /** 1 + 10 * x + e, in 64 bits. */
  function WrapCode(x: nat, e: nat): nat {
    Wrap(Wrap(1 + Wrap(x * 10)) + e)
  }

  lemma WrapCodeIs(x: int, e: nat)
    ensures WrapCode(Wrap(x), e) == Wrap(1 + 10 * x + e)
  {
    WrapTimes10(x);
    WrapAdd(x * 10, 1);
    WrapAdd(1 + x * 10, e);
  }

  method CompressAmount(nAmount: nat) returns (r: nat)
    requires nAmount < WORD
    ensures r == Compress(nAmount) % WORD
  {
    if nAmount == 0 {
      return 0;
    }
    var n, e := StripZeros(nAmount);
    r := CodeOf(n, e);
    WrapIsMod(Compress(nAmount));
  }

  method CodeOf(m: nat, e: nat) returns (r: nat)
    requires m > 0 && (e < 9 ==> m % 10 != 0)
    ensures r == Wrap(Code(m, e))
  {
    if e < 9 {
      var d := m % 10;
      var n := m / 10;
      WrapAdd(n * 9, d);
      WrapAdd(n * 9 + d, -1);
      WrapCodeIs(n * 9 + d - 1, e);
      r := WrapCode(Wrap(Wrap(Wrap(n * 9) + d) - 1), e);
    } else {
      WrapCodeIs(m - 1, 9);
      r := WrapCode(Wrap(m - 1), 9);
    }
  }

  method StripZeros(nAmount: nat) returns (n: nat, e: nat)
    requires nAmount > 0
    ensures Strip(nAmount, 9) == (n, e)
  {
    n, e := nAmount, 0;
    while n % 10 == 0 && e < 9
      invariant e <= 9 && Strip(nAmount, 9) == (Strip(n, 9 - e).0, e + Strip(n, 9 - e).1)
      decreases 9 - e
    {
      n := n / 10;
      e := e + 1;
    }
  }

  lemma {:induction false} WrapScale(m: nat, e: nat)
    ensures Wrap(Scale(Wrap(m), e)) == Wrap(Scale(m, e))
  {
    if e > 0 {
      WrapScale(m, e - 1);
      WrapTimes10(Scale(Wrap(m), e - 1));
      WrapTimes10(Scale(m, e - 1));
    }
  }

  lemma {:induction false} ScaleStep(m: nat, e: nat)
    requires e > 0
    ensures Scale(10 * m, e - 1) == Scale(m, e)
  {
    if e > 1 {
      ScaleStep(m, e - 1);
    }
  }

  /** n *= 10, e times. */
  method ScaleUp(start: nat, digits: nat) returns (n: nat)
    requires start < WORD
    ensures n == Wrap(Scale(start, digits))
  {
    n := start;
    var e := digits;
    while e > 0
      invariant 0 <= e && n < WORD && Wrap(Scale(n, e)) == Wrap(Scale(start, digits))
    {
      ScaleStep(n, e);
      WrapScale(n * 10, e - 1);
      n := Wrap(n * 10);
      e := e - 1;
    }
  }

  method DecompressAmount(code: nat) returns (n: nat)
    requires code < WORD
    ensures n == Decompress(code) % WORD
  {
    var x := code;
    if x == 0 {
      return 0;
    }
    x := x - 1;
    var e := x % 10;
    x := x / 10;
    if e < 9 {
      var d := x % 9 + 1;
      x := x / 9;
      WrapAdd(x * 10, d);
      WrapScale(x * 10 + d, e);
      n := Wrap(Wrap(x * 10) + d);
    } else {
      WrapScale(x + 1, e);
      n := Wrap(x + 1);
    }
    n := ScaleUp(n, e);
    WrapIsMod(Decompress(code));
  }

  const COIN: nat := 100000000
  const MAX_MONEY: nat := 3000000 * COIN

  lemma {:induction false} ScaleMonotone(m: nat, e: nat, k: nat)
    requires k <= e
    ensures Scale(m, k) <= Scale(m, e)
  {
    if k < e {
      ScaleMonotone(m, e - 1, k);
    }
  }

  /** Every value that the two functions compute on the way for mantissa m and e zeros fits into 64 bits. */
  ghost predicate StepsFit(m: nat, e: nat) {
    && m / 10 * 9 + m % 10 < WORD && (m / 10 * 9 + m % 10) * 10 < WORD && m * 10 < WORD
    && (m > 0 && (e < 9 ==> m % 10 != 0) ==> Code(m, e) < WORD)
    && forall k :: 0 <= k <= e ==> Scale(m, k) < WORD
  }

  /** No step wraps for any amount of money: both directions are exact. */
  lemma MoneyFits(n: nat)
    requires n <= MAX_MONEY
    ensures Compress(n) < WORD && Decompress(Compress(n)) == n < WORD
    ensures StepsFit(Strip(n, 9).0, Strip(n, 9).1)
  {
    CompressBound(n);
    DecompressCompress(n);
    var (m, e) := Strip(n, 9);
    forall k | 0 <= k <= e ensures Scale(m, k) < WORD {
      ScaleMonotone(m, e, k);
    }
    ScaleMonotone(m, e, 0);
  }
}
