/**
 base_uint (src/arith_uint256.h, src/arith_uint256.cpp): the operators on the limb array,
 for any number of limbs.  32-bit words and the 64-bit intermediate sums are numbers
 below 2^32 and 2^64; every operator is tied to what it means for the number denoted.
 */
module ArithUint {
  import opened Radix
  import opened ArithLimbs
  import opened ArithShift

  /** One more limb of a sum is done. */
  lemma AddStep(total: seq<nat>, done: seq<nat>, x: seq<nat>, y: seq<nat>, i: nat, carry: nat, low: nat, high: nat)
    requires |x| == |y| && i < |x| && total == done + AddLimbs(x[i..], y[i..], carry)
    requires var n := carry + x[i] + y[i]; low == n % B && high == n / B
    ensures total == done + [low] + AddLimbs(x[i + 1..], y[i + 1..], high)
  {
    assert x[i..][1..] == x[i + 1..] && y[i..][1..] == y[i + 1..];
  }

  /** += ; the operand may be the number itself. */
  method AddAssign(pn: array<nat>, b: array<nat>)
    requires pn.Length == b.Length && Limbs(pn[..]) && Limbs(b[..])
    modifies pn
    ensures pn[..] == AddLimbs(old(pn[..]), old(b[..]), 0)
  {
    ghost var x, y := pn[..], b[..];
    ghost var total, done := AddLimbs(x, y, 0), [];
    assert x[0..] == x && y[0..] == y;
    var carry: nat := 0;
    for i := 0 to pn.Length
      invariant forall j :: i <= j < pn.Length ==> pn[j] == x[j] && b[j] == y[j]
      invariant |done| == i && forall j :: 0 <= j < i ==> pn[j] == done[j]
      invariant total == done + AddLimbs(x[i..], y[i..], carry) && carry <= 1
    {
      assert pn[i] == x[i] < B && b[i] == y[i] < B;
      var n := carry + pn[i] + b[i];
      assert n < B * B;
      var low, high := n % B, n / B;
      AddStep(total, done, x, y, i, carry, low, high);
      pn[i] := low;
      carry := high;
      done := done + [low];
    }
    assert pn[..] == done;
  }

  /** ++ on a 32-bit word. */
  function Bump(x: nat): nat {
    if x + 1 == B then 0 else x + 1
  }

  lemma IncStep(total: seq<nat>, done: seq<nat>, x: seq<nat>, i: nat, v: nat)
    requires i < |x| && Limbs(x) && total == done + IncLimbs(x[i..]) && v == Bump(x[i])
    ensures v == 0 ==> total == done + [0] + IncLimbs(x[i + 1..])
    ensures v != 0 || i + 1 == |x| ==> total == done + [v] + x[i + 1..]
  {
    assert x[i..][1..] == x[i + 1..];
  }

  lemma Assembled(s: seq<nat>, done: seq<nat>, x: seq<nat>, i: nat)
    requires |done| == i < |s| == |x|
    requires (forall j :: 0 <= j < i ==> s[j] == done[j]) && (forall j :: i < j < |s| ==> s[j] == x[j])
    ensures s == done + [s[i]] + x[i + 1..]
  {
  }

  /** The prefix ++ . */
  method Increment(pn: array<nat>)
    requires pn.Length > 0 && Limbs(pn[..])
    modifies pn
    ensures pn[..] == IncLimbs(old(pn[..]))
  {
    ghost var x := pn[..];
    ghost var total, done := IncLimbs(x), [];
    assert x[0..] == x;
    var i := 0;
    pn[0] := Bump(pn[0]);
    while pn[i] == 0 && i < pn.Length - 1
      invariant 0 <= i < pn.Length && (forall j :: i < j < pn.Length ==> pn[j] == x[j]) && pn[i] == Bump(x[i])
      invariant |done| == i && (forall j :: 0 <= j < i ==> pn[j] == done[j])
      invariant total == done + IncLimbs(x[i..])
    {
      IncStep(total, done, x, i, pn[i]);
      done := done + [0];
      i := i + 1;
      pn[i] := Bump(pn[i]);
    }
    IncStep(total, done, x, i, pn[i]);
    Assembled(pn[..], done, x, i);
  }

  /** Unary minus: complement every limb and add one. */
  method Negated(b: array<nat>) returns (ret: array<nat>)
    requires b.Length > 0 && Limbs(b[..])
    ensures fresh(ret) && ret[..] == NegLimbs(b[..])
  {
    ret := new nat[b.Length];
    for i := 0 to b.Length
      invariant forall j :: 0 <= j < i ==> ret[j] == B - 1 - b[j]
    {
      ret[i] := B - 1 - b[i];
    }
    assert ret[..] == NotLimbs(b[..]);
    Increment(ret);
  }

  method SubAssign(pn: array<nat>, b: array<nat>)
    requires pn.Length == b.Length > 0 && Limbs(pn[..]) && Limbs(b[..])
    modifies pn
    ensures pn[..] == SubLimbs(old(pn[..]), old(b[..]))
  {
    var minus := Negated(b);
    AddAssign(pn, minus);
  }

  method CompareTo(pn: array<nat>, b: array<nat>) returns (r: int)
    requires pn.Length == b.Length && Limbs(pn[..]) && Limbs(b[..])
    ensures r == if Num(pn[..]) < Num(b[..]) then -1 else if Num(pn[..]) > Num(b[..]) then 1 else 0
  {
    CompareIsOrder(pn[..], b[..]);
    var i := pn.Length;
    assert pn[..i] == pn[..] && b[..i] == b[..];
    while i > 0
      invariant 0 <= i <= pn.Length && Compare(pn[..i], b[..i]) == Compare(pn[..], b[..])
    {
      i := i - 1;
      assert pn[..i + 1][..i] == pn[..i] && b[..i + 1][..i] == b[..i];
      if pn[i] < b[i] {
        return -1;
      }
      if pn[i] > b[i] {
        return 1;
      }
    }
    r := 0;
  }

  // ---------------------------------------------------------------------------
  // Shifts.

  /** A limb of a left shift while the limbs below i have been read. */
  function ShlPartial(a: seq<nat>, k: nat, s: nat, i: nat, j: nat): nat
    requires s < 32 && i <= |a| && j < |a|
  {
    if j < k || j > i + k then 0
    else if j == i + k then if i == 0 then 0 else Hi(a[i - 1], s)
    else Lo(a[j - k], s) + if j == k then 0 else Hi(a[j - k - 1], s)
  }

  lemma ShlLimbsAt(a: seq<nat>, shift: nat, j: nat)
    requires j < |a|
    ensures ShlLimbs(a, shift)[j] == ShlPartial(a, shift / 32, shift % 32, |a|, j)
  {
    var k, s := shift / 32, shift % 32;
    if k <= j {
      ShlBitsAt(a[..|a| - k], s, 0, j - k);
    }
  }

  /** Or-ing the low part of a limb onto the high part of the one below. */
  lemma OrLow(a: seq<nat>, s: nat, i: nat)
    requires s < 32 && i < |a| && Limbs(a)
    ensures var high := if i == 0 then 0 else Hi(a[i - 1], s); Or(high, Lo(a[i], s)) == Lo(a[i], s) + high
  {
    ShlParts(a[i], s);
    if i > 0 {
      ShlParts(a[i - 1], s);
    }
    OrAdds(LowBits(a[i], 32 - s), if i == 0 then 0 else Hi(a[i - 1], s), s);
  }

  /** What limb i of the number gives to two limbs of the result. */
  method ShiftLeftLimb(pn: array<nat>, a: seq<nat>, k: nat, s: nat, i: nat)
    requires i < |a| == pn.Length && Limbs(a) && s < 32
    requires forall j :: 0 <= j < pn.Length ==> pn[j] == ShlPartial(a, k, s, i, j)
    modifies pn
    ensures forall j :: 0 <= j < pn.Length ==> pn[j] == ShlPartial(a, k, s, i + 1, j)
  {
    if i + k + 1 < pn.Length && s != 0 {
      pn[i + k + 1] := Or(pn[i + k + 1], Shr(a[i], 32 - s));
    }
    if i + k < pn.Length {
      OrLow(a, s, i);
      pn[i + k] := Or(pn[i + k], Lo(a[i], s));
    }
  }

  method ShiftLeft(pn: array<nat>, shift: nat)
    requires Limbs(pn[..])
    modifies pn
    ensures pn[..] == ShlLimbs(old(pn[..]), shift)
  {
    var a := pn[..];
    for i := 0 to pn.Length
      invariant forall j :: 0 <= j < i ==> pn[j] == 0
    {
      pn[i] := 0;
    }
    var k, s := shift / 32, shift % 32;
    for i := 0 to pn.Length
      invariant forall j :: 0 <= j < pn.Length ==> pn[j] == ShlPartial(a, k, s, i, j)
    {
      ShiftLeftLimb(pn, a, k, s, i);
    }
    forall j | 0 <= j < pn.Length ensures pn[j] == ShlLimbs(a, shift)[j] {
      ShlLimbsAt(a, shift, j);
    }
  }

  /** A limb of a right shift while the limbs below i have been read. */
  function ShrPartial(a: seq<nat>, k: nat, s: nat, i: nat, j: nat): nat
    requires s < 32 && i <= |a| && j < |a|
  {
    if j + k >= i then 0
    else Shr(a[j + k], s) + if j + k + 1 < i then Up(a[j + k + 1], s) else 0
  }

  lemma ShrLimbsAt(a: seq<nat>, shift: nat, j: nat)
    requires j < |a|
    ensures ShrLimbs(a, shift)[j] == ShrPartial(a, shift / 32, shift % 32, |a|, j)
  {
    var k, s := shift / 32, shift % 32;
    if j + k < |a| {
      ShrBitsAt(a[k..], s, j);
    }
  }

  /** Or-ing the low bits of a limb onto the high part of the one below. */
  lemma OrUp(x: nat, y: nat, s: nat)
    requires x < B && y < B && s < 32
    ensures Or(Shr(x, s), Up(y, s)) == Shr(x, s) + Up(y, s)
  {
    Pow2Of32();
    ShrSmaller(x, s, 32 - s);
    UpIsLowBits(y, s);
    OrAdds(LowBits(y, s), Shr(x, s), 32 - s);
  }

  /** What limb i of the number gives to two limbs of the result. */
  method ShiftRightLimb(pn: array<nat>, a: seq<nat>, k: nat, s: nat, i: nat)
    requires i < |a| == pn.Length && Limbs(a) && s < 32
    requires forall j :: 0 <= j < pn.Length ==> pn[j] == ShrPartial(a, k, s, i, j)
    modifies pn
    ensures forall j :: 0 <= j < pn.Length ==> pn[j] == ShrPartial(a, k, s, i + 1, j)
  {
    if i - k - 1 >= 0 && s != 0 {
      OrUp(a[i - 1], a[i], s);
      pn[i - k - 1] := Or(pn[i - k - 1], Lo(a[i], 32 - s));
    }
    if i - k >= 0 {
      pn[i - k] := Or(pn[i - k], Shr(a[i], s));
    }
  }

  method ShiftRight(pn: array<nat>, shift: nat)
    requires Limbs(pn[..])
    modifies pn
    ensures pn[..] == ShrLimbs(old(pn[..]), shift)
  {
    var a := pn[..];
    for i := 0 to pn.Length
      invariant forall j :: 0 <= j < i ==> pn[j] == 0
    {
      pn[i] := 0;
    }
    var k, s := shift / 32, shift % 32;
    for i := 0 to pn.Length
      invariant forall j :: 0 <= j < pn.Length ==> pn[j] == ShrPartial(a, k, s, i, j)
    {
      ShiftRightLimb(pn, a, k, s, i);
    }
    forall j | 0 <= j < pn.Length ensures pn[j] == ShrLimbs(a, shift)[j] {
      ShrLimbsAt(a, shift, j);
    }
  }

  // ---------------------------------------------------------------------------
  // The number of bits.

  lemma ScalePow2(k: nat, e: nat)
    ensures Scale(k, Pow2(e)) == Pow2(32 * k + e)
  {
    PowerOfLimbs(k, e, 1);
    TimesIsProduct(Pow2(32 * k + e), 1);
    TimesIsProduct(Pow2(e), 1);
  }

  /** With a highest limb between two powers of two, so is the number. */
  lemma BitsOfTop(s: seq<nat>, e: nat)
    requires s != [] && Limbs(s) && Pow2(e) <= s[|s| - 1] < Pow2(e + 1)
    ensures Pow2(32 * (|s| - 1) + e) <= Num(s) < Pow2(32 * (|s| - 1) + e + 1)
  {
    var n := |s| - 1;
    TopLimb(s);
    NumBound(s[..n]);
    ScaleMonotone(n, Pow2(e), s[n]);
    ScaleMonotone(n, s[n] + 1, Pow2(e + 1));
    ScaleLinear(n, s[n], 1);
    ScalePow2(n, e);
    ScalePow2(n, e + 1);
  }

  /** A bit test on a number with no higher bits. */
  lemma TopBit(x: nat, e: nat)
    requires x < Pow2(e + 1)
    ensures Shr(x, e) % 2 == 1 <==> x >= Pow2(e)
  {
    ShrSplits(x, e);
    ShrSmaller(x, e, 1);
    assert Pow2(1) == 2;
  }

  /** The number of bits of a limb that is not zero, from the highest down. */
  method LimbBits(x: nat) returns (n: nat)
    requires 0 < x < B
    ensures 0 < n <= 32 && Pow2(n - 1) <= x < Pow2(n)
  {
    Pow2Of32();
    var bits := 31;
    while bits > 0
      invariant 0 <= bits <= 31 && x < Pow2(bits + 1)
    {
      TopBit(x, bits);
      if Shr(x, bits) % 2 == 1 {
        return bits + 1;
      }
      bits := bits - 1;
    }
    n := 1;
  }

  lemma {:induction false} NumTrailing(s: seq<nat>, n: nat)
    requires n <= |s| && forall j :: n <= j < |s| ==> s[j] == 0
    ensures Num(s) == Num(s[..n])
  {
    if n < |s| {
      var m := |s| - 1;
      TopLimb(s);
      ScaleZero(m);
      NumTrailing(s[..m], n);
      assert s[..m][..n] == s[..n];
    } else {
      assert s[..n] == s;
    }
  }

  method Bits(pn: array<nat>) returns (n: nat)
    requires Limbs(pn[..])
    ensures Num(pn[..]) < Pow2(n) && n <= 32 * pn.Length
    ensures n > 0 ==> Pow2(n - 1) <= Num(pn[..])
  {
    var pos := pn.Length;
    while pos > 0
      invariant 0 <= pos <= pn.Length && forall j :: pos <= j < pn.Length ==> pn[j] == 0
    {
      pos := pos - 1;
      if pn[pos] != 0 {
        n := LimbBits(pn[pos]);
        BitsOfTop(pn[..pos + 1], n - 1);
        NumTrailing(pn[..], pos + 1);
        assert pn[..][..pos + 1] == pn[..pos + 1];
        n := 32 * pos + n;
        return;
      }
    }
    NumTrailing(pn[..], 0);
    n := 0;
  }

  // ---------------------------------------------------------------------------
  // Division.

  /** The lowest m bits are zero. */
  predicate ClearBelow(q: seq<nat>, m: nat) {
    && (forall j :: 0 <= j < |q| && 32 * (j + 1) <= m ==> q[j] == 0)
    && (m / 32 < |q| ==> LowBits(q[m / 32], m % 32) == 0)
  }

  lemma {:induction false} NumUpdate(q: seq<nat>, k: nat, d: nat)
    requires k < |q|
    ensures Num(q[k := q[k] + d]) == Num(q) + Scale(k, d)
  {
    var r := q[k := q[k] + d];
    if k > 0 {
      NumUpdate(q[1..], k - 1, d);
      assert r[1..] == q[1..][k - 1 := q[1..][k - 1] + d];
      ByBAdd(Num(q[1..]), Scale(k - 1, d));
    } else {
      assert r[1..] == q[1..];
    }
  }

  lemma {:induction false} LowBitsZero(m: nat)
    ensures LowBits(0, m) == 0
  {
    if m > 0 {
      LowBitsZero(m - 1);
    }
  }

  /** A multiple of a power of two has no bits below it. */
  lemma {:induction false} LowBitsOfMultiple(h: nat, e: nat)
    ensures LowBits(h * Pow2(e), e) == 0
  {
    if e > 0 {
      Even(h, Pow2(e - 1));
      LowBitsOfMultiple(h, e - 1);
    }
  }

  /** A multiple of a divisor of B that is below B leaves room for one more. */
  lemma RoomAbove(h: nat, t: nat, u: nat)
    requires t * u == B && h * t < B
    ensures h * t + t <= B
  {
    if h >= u {
      MulMono(u, h, t, t);
    }
    MulMono(h + 1, u, t, t);
    assert (h + 1) * t == h * t + t;
  }

  lemma OddMultiple(h: nat, t: nat)
    ensures h * (2 * t) + t == (2 * h + 1) * t
  {
  }

  lemma SetLimbBitAdds(l: nat, e: nat)
    requires l < B && e < 32 && LowBits(l, e + 1) == 0
    ensures Or(l, Pow2(e)) == l + Pow2(e) < B
  {
    ShrSplits(l, e + 1);
    OrAdds(Shr(l, e + 1), Pow2(e), e + 1);
    Complement(e + 1);
    RoomAbove(Shr(l, e + 1), Pow2(e + 1), Pow2(32 - (e + 1)));
  }

  /** Setting a bit below which, and at which, a limb has none. */
  lemma SetLimbBit(l: nat, e: nat)
    requires l < B && e < 32 && LowBits(l, e + 1) == 0
    ensures Or(l, Pow2(e)) == l + Pow2(e) < B && LowBits(l + Pow2(e), e) == 0
  {
    SetLimbBitAdds(l, e);
    ShrSplits(l, e + 1);
    OddMultiple(Shr(l, e + 1), Pow2(e));
    LowBitsOfMultiple(2 * Shr(l, e + 1) + 1, e);
  }

  /** Setting bit s of a number whose lowest s + 1 bits are zero adds its power of two. */
  lemma SetBit(q: seq<nat>, s: nat)
    requires Limbs(q) && s / 32 < |q| && ClearBelow(q, s + 1)
    ensures var k, e := s / 32, s % 32; var r := q[k := Or(q[k], Pow2(e))];
            Limbs(r) && ClearBelow(r, s) && Num(r) == Num(q) + Pow2(s)
  {
    var k, e := s / 32, s % 32;
    ClearAt(q, s);
    SetLimbBit(q[k], e);
    NumUpdate(q, k, Pow2(e));
    ScalePow2(k, e);
    assert s == 32 * k + e;
  }

  /** The limb of bit s has no bits at or below it. */
  lemma ClearAt(q: seq<nat>, s: nat)
    requires s / 32 < |q| && ClearBelow(q, s + 1)
    ensures LowBits(q[s / 32], s % 32 + 1) == 0 && forall j :: 0 <= j < s / 32 ==> q[j] == 0
  {
    var k, e := s / 32, s % 32;
    if e == 31 {
      assert q[k] == 0;
      LowBitsZero(32);
    } else {
      assert (s + 1) / 32 == k && (s + 1) % 32 == e + 1;
    }
  }

  /** Without it, one bit less is claimed. */
  lemma SkipBit(q: seq<nat>, s: nat)
    requires ClearBelow(q, s + 1)
    ensures ClearBelow(q, s)
  {
    var k, e := s / 32, s % 32;
    if k < |q| {
      if e == 31 {
        assert q[k] == 0;
        LowBitsZero(31);
      } else {
        assert (s + 1) / 32 == k && (s + 1) % 32 == e + 1;
        LowBitsShrink(q[k], e);
      }
    }
  }

  lemma {:induction false} LowBitsShrink(x: nat, e: nat)
    requires LowBits(x, e + 1) == 0
    ensures LowBits(x, e) == 0
  {
    if e > 0 {
      LowBitsShrink(x / 2, e - 1);
    }
  }

  datatype Side = Equation | Bound

  ghost predicate DividingSide(n: nat, d: nat, q: nat, num: nat, s: int, side: Side)
    requires s >= -1
  {
    match side
    case Equation => n == Times(q, d) + num
    case Bound => num < Times(Pow2(s + 1), d)
  }

  /** Where the division stands: bits above s are decided, num is what is left. */
  ghost predicate Dividing(n: nat, d: nat, q: nat, num: nat, s: int)
    requires s >= -1
  {
    forall side: Side :: DividingSide(n, d, q, num, s, side)
  }

  lemma DivideStart(n: nat, d: nat, s: nat)
    requires n < Times(Pow2(s + 1), d)
    ensures Dividing(n, d, 0, n, s)
  {
    TimesIsProduct(0, d);
  }

  /** t is the shifted divisor. */
  lemma DivideSet(n: nat, d: nat, q: nat, num: nat, s: nat, t: nat, q': nat, num': nat)
    requires Dividing(n, d, q, num, s) && t == Times(Pow2(s), d) && num >= t
    requires q' == q + Pow2(s) && num' == num - t
    ensures Dividing(n, d, q', num', s - 1)
  {
    assert DividingSide(n, d, q, num, s, Equation) && DividingSide(n, d, q, num, s, Bound);
    TimesSum(q', q, Pow2(s), d);
    TimesSum(Pow2(s + 1), Pow2(s), Pow2(s), d);
  }

  lemma DivideSkip(n: nat, d: nat, q: nat, num: nat, s: nat, t: nat)
    requires Dividing(n, d, q, num, s) && t == Times(Pow2(s), d) && num < t
    ensures Dividing(n, d, q, num, s - 1)
  {
    assert DividingSide(n, d, q, num, s, Equation);
  }

  /** The divisor moved up to align with the number does not overflow, and twice it exceeds the number. */
  lemma Aligned(n: nat, d: nat, nb: nat, db: nat, w: nat)
    requires n < Pow2(nb) && 0 < db <= nb <= 32 * w && Pow2(db - 1) <= d < Pow2(db)
    ensures Times(d, Pow2(nb - db)) < Modulus(w) && n < Times(Pow2(nb - db + 1), d)
  {
    var s := nb - db;
    ModulusIsPower(w);
    Pow2Monotone(nb, 32 * w);
    TimesMonotone(d + 1, Pow2(db), Pow2(s));
    TimesAdd(d, 1, Pow2(s));
    TimesIsProduct(1, Pow2(s));
    TimesIsProduct(Pow2(db), Pow2(s));
    Pow2Add(db, s);
    TimesCommutes(Pow2(s + 1), d);
    TimesMonotone(Pow2(db - 1), d, Pow2(s + 1));
    TimesIsProduct(Pow2(db - 1), Pow2(s + 1));
    Pow2Add(db - 1, s + 1);
  }

  /** The aligned divisor, halved. */
  lemma HalfDivisor(d: nat, s: nat)
    requires s > 0
    ensures Times(Pow2(s), d) / Pow2(1) == Times(Pow2(s - 1), d)
  {
    TimesAdd(Pow2(s - 1), Pow2(s - 1), d);
    assert Pow2(1) == 2;
  }

  lemma QuotientOf(n: nat, d: nat, q: nat, num: nat)
    requires Dividing(n, d, q, num, -1) && d > 0
    ensures q == n / d && num == n % d
  {
    assert DividingSide(n, d, q, num, -1, Equation) && DividingSide(n, d, q, num, -1, Bound);
    TimesIsProduct(q, d);
    TimesIsProduct(Pow2(0), d);
    DivMod(q, num, d);
  }

  method Copy(b: array<nat>) returns (c: array<nat>)
    ensures fresh(c) && c[..] == b[..]
  {
    c := new nat[b.Length];
    for i := 0 to b.Length
      invariant forall j :: 0 <= j < i ==> c[j] == b[j]
    {
      c[i] := b[i];
    }
  }

  method Clear(pn: array<nat>)
    modifies pn
    ensures pn[..] == Zero(pn.Length)
  {
    for i := 0 to pn.Length
      invariant forall j :: 0 <= j < i ==> pn[j] == 0
    {
      pn[i] := 0;
    }
  }

  /** The body of the loop: subtract the shifted divisor if it fits, and set that bit of the quotient. */
  method DivideBit(pn: array<nat>, num: array<nat>, div: array<nat>, shift: nat, ghost n: nat, ghost d: nat)
    requires pn.Length == num.Length == div.Length > 0 && pn != num && pn != div && num != div
    requires Limbs(pn[..]) && Limbs(num[..]) && Limbs(div[..]) && shift / 32 < pn.Length
    requires ClearBelow(pn[..], shift + 1) && Num(div[..]) == Times(Pow2(shift), d)
    requires Dividing(n, d, Num(pn[..]), Num(num[..]), shift)
    modifies pn, num
    ensures Limbs(pn[..]) && Limbs(num[..]) && ClearBelow(pn[..], shift)
    ensures Dividing(n, d, Num(pn[..]), Num(num[..]), shift - 1)
  {
    var order := CompareTo(num, div);
    ghost var q, rest, t := Num(pn[..]), Num(num[..]), Num(div[..]);
    if order >= 0 {
      SubIsDifference(num[..], div[..]);
      SubAssign(num, div);
      SetQuotientBit(pn, shift);
      DivideSet(n, d, q, rest, shift, t, Num(pn[..]), Num(num[..]));
    } else {
      SkipBit(pn[..], shift);
      DivideSkip(n, d, q, rest, shift, t);
    }
  }

  method SetQuotientBit(pn: array<nat>, shift: nat)
    requires Limbs(pn[..]) && shift / 32 < pn.Length && ClearBelow(pn[..], shift + 1)
    modifies pn
    ensures Limbs(pn[..]) && ClearBelow(pn[..], shift) && Num(pn[..]) == Num(old(pn[..])) + Pow2(shift)
  {
    SetBit(pn[..], shift);
    pn[shift / 32] := Or(pn[shift / 32], Pow2(shift % 32));
    assert pn[..] == old(pn[..])[shift / 32 := pn[shift / 32]];
  }

  /** div >>= 1. */
  method HalveDivisor(div: array<nat>, shift: nat, ghost d: nat)
    requires Limbs(div[..]) && Num(div[..]) == Times(Pow2(shift), d)
    modifies div
    ensures Limbs(div[..]) && (shift > 0 ==> Num(div[..]) == Times(Pow2(shift - 1), d))
  {
    ShrIsQuotient(div[..], 1);
    ShiftRight(div, 1);
    if shift > 0 {
      HalfDivisor(d, shift);
    }
  }

  /** The loop, from the highest bit of the quotient down; num ends as the remainder. */
  method DivideBits(pn: array<nat>, num: array<nat>, div: array<nat>, start: nat, ghost n: nat, ghost d: nat)
    requires pn.Length == num.Length == div.Length > 0 && pn != num && pn != div && num != div
    requires Limbs(pn[..]) && Limbs(num[..]) && Limbs(div[..]) && start / 32 < pn.Length
    requires ClearBelow(pn[..], start + 1) && Num(div[..]) == Times(Pow2(start), d)
    requires Dividing(n, d, Num(pn[..]), Num(num[..]), start)
    modifies pn, num, div
    ensures Limbs(pn[..]) && Dividing(n, d, Num(pn[..]), Num(num[..]), -1)
  {
    var shift: int := start;
    while shift >= 0
      invariant -1 <= shift <= start && Limbs(pn[..]) && Limbs(num[..]) && Limbs(div[..])
      invariant ClearBelow(pn[..], shift + 1) && Dividing(n, d, Num(pn[..]), Num(num[..]), shift)
      invariant shift >= 0 ==> Num(div[..]) == Times(Pow2(shift), d)
    {
      DivideBit(pn, num, div, shift, n, d);
      HalveDivisor(div, shift, d);
      shift := shift - 1;
    }
  }

  /** div <<= shift; nothing is lost. */
  method AlignDivisor(div: array<nat>, ghost n: nat, ghost d: nat, numBits: nat, divBits: nat)
    requires Limbs(div[..]) && Num(div[..]) == d && n < Pow2(numBits)
    requires 0 < divBits <= numBits <= 32 * div.Length && Pow2(divBits - 1) <= d < Pow2(divBits)
    modifies div
    ensures Limbs(div[..]) && Num(div[..]) == Times(Pow2(numBits - divBits), d)
    ensures n < Times(Pow2(numBits - divBits + 1), d)
  {
    var shift := numBits - divBits;
    Aligned(n, d, numBits, divBits, div.Length);
    ShlIsProduct(div[..], shift);
    ShiftLeft(div, shift);
    DivMod(0, Times(d, Pow2(shift)), Modulus(div.Length));
    TimesCommutes(d, Pow2(shift));
  }

  /** /= : the floor quotient; dividing by zero throws after clearing the number. */
  method DivAssign(pn: array<nat>, b: array<nat>) returns (ok: bool, ghost remainder: nat)
    requires pn.Length == b.Length > 0 && Limbs(pn[..]) && Limbs(b[..])
    modifies pn
    ensures ok <==> Num(old(b[..])) != 0
    ensures Limbs(pn[..]) && (!ok ==> Num(pn[..]) == 0)
    ensures ok ==> Num(pn[..]) == Num(old(pn[..])) / Num(old(b[..]))
    ensures ok ==> remainder == Num(old(pn[..])) % Num(old(b[..]))
  {
    ghost var n, d := Num(pn[..]), Num(b[..]);
    var div := Copy(b);
    var num := Copy(pn);
    Clear(pn);
    NumZero(pn.Length);
    remainder := n;
    var numBits := Bits(num);
    var divBits := Bits(div);
    if divBits == 0 {
      return false, 0;
    }
    ok := true;
    if divBits > numBits {
      Pow2Monotone(numBits, divBits - 1);
      DivMod(0, n, d);
      return;
    }
    var shift := numBits - divBits;
    AlignDivisor(div, n, d, numBits, divBits);
    LowBitsZero((shift + 1) % 32);
    DivideStart(n, d, shift);
    DivideBits(pn, num, div, shift, n, d);
    remainder := Num(num[..]);
    QuotientOf(n, d, Num(pn[..]), remainder);
  }

  // ---------------------------------------------------------------------------
  // Multiplication.

  /** A sum of two words and a product of words is below 2^64, and what it carries is a word again. */
  lemma SumFits64(carry: nat, acc: nat, x: nat, y: nat)
    requires carry < B && acc < B && x < B && y < B
    ensures carry + acc + x * y < B * B && (carry + acc + x * y) / B < B
  {
    MulMono(x, B - 1, y, B - 1);
  }

  /** carry + acc + x * y in 64 bits, as a limb and the next carry. */
  method MulLimb(carry: nat, acc: nat, x: nat, y: nat) returns (low: nat, high: nat)
    requires carry < B && acc < B && x < B && y < B
    ensures low == (carry + acc + Times(x, y)) % B && high == (carry + acc + Times(x, y)) / B
    ensures carry + acc + Times(x, y) < B * B && high < B
  {
    TimesIsProduct(x, y);
    SumFits64(carry, acc, x, y);
    var n: nat := carry + acc + x * y;
    low, high := n % B, n / B;
  }

  /** *= by one word. */
  method MulWord(pn: array<nat>, b32: nat)
    requires Limbs(pn[..]) && b32 < B
    modifies pn
    ensures pn[..] == MulAddLimbs(Zero(pn.Length), old(pn[..]), b32, 0)
  {
    ghost var x, z := pn[..], Zero(pn.Length);
    ghost var total, done := MulAddLimbs(z, x, b32, 0), [];
    assert x[0..] == x && z[0..] == z;
    var carry: nat := 0;
    for i := 0 to pn.Length
      invariant forall j :: i <= j < pn.Length ==> pn[j] == x[j]
      invariant |done| == i && forall j :: 0 <= j < i ==> pn[j] == done[j]
      invariant total == done + MulAddLimbs(z[i..], x[i..], b32, carry) && carry < B
    {
      assert pn[i] == x[i] < B;
      var low, high := MulLimb(carry, 0, pn[i], b32);
      MulStep(total, done, z, x, b32, i, carry, low, high);
      pn[i] := low;
      carry := high;
      done := done + [low];
    }
    assert pn[..] == done;
  }

  lemma MulStep(total: seq<nat>, done: seq<nat>, acc: seq<nat>, b: seq<nat>, a: nat, i: nat, carry: nat, low: nat, high: nat)
    requires i < |acc| <= |b| && total == done + MulAddLimbs(acc[i..], b[i..], a, carry)
    requires var n := carry + acc[i] + Times(b[i], a); low == n % B && high == n / B
    ensures total == done + [low] + MulAddLimbs(acc[i + 1..], b[i + 1..], a, high)
  {
    assert acc[i..][1..] == acc[i + 1..] && b[i..][1..] == b[i + 1..];
  }

  /** Modulo the number of limbs, *= by a word is the product. */
  lemma MulWordIsProduct(x: seq<nat>, b32: nat)
    ensures Num(MulAddLimbs(Zero(|x|), x, b32, 0)) == Times(Num(x), b32) % Modulus(|x|)
  {
    var r := MulAddLimbs(Zero(|x|), x, b32, 0);
    MulAddValue(Zero(|x|), x, b32, 0);
    NumZero(|x|);
    NumBound(r);
    ModOf(|x|, Times(Num(x), b32), MulAddCarry(Zero(|x|), x, b32, 0), Num(r));
  }

  /** One row of the schoolbook product: limb j of a, times b, added at limb j. */
  function MulRow(acc: seq<nat>, b: seq<nat>, a: nat, j: nat): (r: seq<nat>)
    requires j <= |acc| <= |b|
    ensures |r| == |acc|
  {
    acc[..j] + MulAddLimbs(acc[j..], b, a, 0)
  }

  /** The first j rows. */
  function MulRows(a: seq<nat>, b: seq<nat>, j: nat): (r: seq<nat>)
    requires j <= |a| == |b|
    ensures |r| == |a| && Limbs(r)
  {
    if j == 0 then Zero(|a|) else
      var acc := MulRows(a, b, j - 1);
      assert Limbs(acc[..j - 1]);
      MulRow(acc, b, a[j - 1], j - 1)
  }

  lemma {:induction false} MulAddPrefix(acc: seq<nat>, b: seq<nat>, a: nat, carry: nat)
    requires |acc| <= |b|
    ensures MulAddLimbs(acc, b, a, carry) == MulAddLimbs(acc, b[..|acc|], a, carry)
  {
    if acc != [] {
      MulAddPrefix(acc[1..], b[1..], a, (carry + acc[0] + Times(b[0], a)) / B);
      assert b[1..][..|acc| - 1] == b[..|acc|][1..];
    }
  }

  /** A sum of which the upper part is moved up by j limbs. */
  lemma RowSum(j: nat, m: nat, n: nat, low: nat, part: nat, rest: nat, carry: nat, prod: nat, high: nat, full: nat)
    requires n == j + m && part + Scale(m, carry) == rest + prod && full == prod + Scale(m, high)
    ensures low + Scale(j, part) + Scale(n, carry + high) == low + Scale(j, rest) + Scale(j, full)
  {
    ScaleSum(j, part + Scale(m, carry), part, Scale(m, carry));
    ScaleSum(j, rest + prod, rest, prod);
    ScaleSum(j, full, prod, Scale(m, high));
    ScaleScale(j, m, carry);
    ScaleScale(j, m, high);
    ScaleSum(n, carry + high, carry, high);
  }

  lemma RowNum(acc: seq<nat>, b: seq<nat>, a: nat, j: nat)
    requires j < |acc| == |b|
    ensures Num(MulRow(acc, b, a, j)) == Num(acc[..j]) + Scale(j, Num(MulAddLimbs(acc[j..], b[..|b| - j], a, 0)))
  {
    MulAddPrefix(acc[j..], b, a, 0);
    NumConcat(acc[..j], MulAddLimbs(acc[j..], b[..|b| - j], a, 0));
  }

  lemma FactorCut(b: seq<nat>, a: nat, m: nat)
    requires m <= |b|
    ensures Times(Num(b), a) == Times(Num(b[..m]), a) + Scale(m, Times(Num(b[m..]), a))
  {
    NumCut(b, m);
    TimesSum(Num(b), Num(b[..m]), Scale(m, Num(b[m..])), a);
    ScaleTimes(m, Num(b[m..]), a);
  }

  lemma MulRowValue(acc: seq<nat>, b: seq<nat>, a: nat, j: nat) returns (q: nat)
    requires j < |acc| == |b|
    ensures Num(MulRow(acc, b, a, j)) + Scale(|b|, q) == Num(acc) + Scale(j, Times(Num(b), a))
  {
    var m := |b| - j;
    var low, high := b[..m], Times(Num(b[m..]), a);
    var carry := MulAddCarry(acc[j..], low, a, 0);
    RowNum(acc, b, a, j);
    MulAddValue(acc[j..], low, a, 0);
    NumCut(acc, j);
    FactorCut(b, a, m);
    q := carry + high;
    RowSum(j, m, |b|, Num(acc[..j]), Num(MulAddLimbs(acc[j..], low, a, 0)), Num(acc[j..]), carry, Times(Num(low), a), high,
           Times(Num(b), a));
  }

  lemma NextFactor(a: seq<nat>, j: nat, y: nat)
    requires j < |a|
    ensures Times(Num(a[..j + 1]), y) == Times(Num(a[..j]), y) + Scale(j, Times(a[j], y))
  {
    TopLimb(a[..j + 1]);
    assert a[..j + 1][..j] == a[..j];
    TimesSum(Num(a[..j + 1]), Num(a[..j]), Scale(j, a[j]), y);
    ScaleTimes(j, a[j], y);
  }

  lemma {:induction false} MulRowsValue(a: seq<nat>, b: seq<nat>, j: nat) returns (q: nat)
    requires j <= |a| == |b|
    ensures Num(MulRows(a, b, j)) + Scale(|b|, q) == Times(Num(a[..j]), Num(b))
  {
    if j == 0 {
      NumZero(|a|);
      TimesIsProduct(0, Num(b));
      ScaleZero(|b|);
      q := 0;
    } else {
      var p := MulRowsValue(a, b, j - 1);
      var r := MulRowValue(MulRows(a, b, j - 1), b, a[j - 1], j - 1);
      NextFactor(a, j - 1, Num(b));
      TimesCommutes(a[j - 1], Num(b));
      ScaleSum(|b|, p + r, p, r);
      q := p + r;
    }
  }

  /** The schoolbook product, cut off at the number of limbs, is the product modulo. */
  lemma MulIsProduct(a: seq<nat>, b: seq<nat>)
    requires |a| == |b|
    ensures Num(MulRows(a, b, |a|)) == Times(Num(a), Num(b)) % Modulus(|a|)
  {
    var q := MulRowsValue(a, b, |a|);
    assert a[..|a|] == a;
    NumBound(MulRows(a, b, |a|));
    ModOf(|a|, Times(Num(a), Num(b)), q, Num(MulRows(a, b, |a|)));
  }

  /** The body of the inner loop. */
  method MulAddAt(pn: array<nat>, b: array<nat>, a: nat, i: nat, j: nat, carry: nat) returns (low: nat, high: nat)
    requires pn.Length == b.Length && i + j < b.Length && (pn == b ==> b[..] == Zero(b.Length) && carry == 0)
    requires Limbs(pn[..]) && Limbs(b[..]) && a < B && carry < B
    modifies pn
    ensures Limbs(pn[..]) && high < B
    ensures var n := carry + old(pn[i + j]) + Times(old(b[i]), a); low == n % B && high == n / B
    ensures pn[..] == old(pn[..])[i + j := low] && b[..] == old(b[..]) && (pn == b ==> high == 0)
  {
    assert pn[..][i + j] < B && b[..][i] < B;
    low, high := MulLimb(carry, pn[i + j], b[i], a);
    StaysZero(pn, b, i, j, a);
    pn[i + j] := low;
    assert pn[..] == old(pn[..])[i + j := low];
  }

  /** What the inner loop leaves from limb i on. */
  ghost function RowFrom(s: seq<nat>, y: seq<nat>, a: nat, i: nat, j: nat, carry: nat): seq<nat>
    requires |s| == |y|
    decreases |s| - (i + j)
  {
    if i + j >= |s| then s
    else
      var n := carry + s[i + j] + Times(y[i], a);
      RowFrom(s[i + j := n % B], y, a, i + 1, j, n / B)
  }

  lemma RowStep(s: seq<nat>, y: seq<nat>, a: nat, i: nat, j: nat, carry: nat, low: nat, high: nat)
    requires i + j < |s| == |y| && var n := carry + s[i + j] + Times(y[i], a); low == n % B && high == n / B
    ensures RowFrom(s, y, a, i, j, carry) == RowFrom(s[i + j := low], y, a, i + 1, j, high)
  {
  }

  lemma {:induction false} RowFromIs(s: seq<nat>, y: seq<nat>, a: nat, i: nat, j: nat, carry: nat)
    requires i + j <= |s| == |y|
    ensures RowFrom(s, y, a, i, j, carry) == s[..i + j] + MulAddLimbs(s[i + j..], y[i..], a, carry)
    decreases |s| - (i + j)
  {
    if i + j < |s| {
      var n := carry + s[i + j] + Times(y[i], a);
      var low, high := n % B, n / B;
      var s' := s[i + j := low];
      RowStep(s, y, a, i, j, carry, low, high);
      RowFromIs(s', y, a, i + 1, j, high);
      assert s'[..i + 1 + j] == s[..i + j] + [low] && s'[i + 1 + j..] == s[i + j..][1..] && y[i + 1..] == y[i..][1..];
    }
  }

  /** The inner loop of *= .  If the operand is the number itself, which is zero by then, it stays so. */
  method AddRow(pn: array<nat>, b: array<nat>, a: nat, j: nat)
    requires pn.Length == b.Length && j <= pn.Length && (pn == b ==> b[..] == Zero(b.Length))
    requires Limbs(pn[..]) && Limbs(b[..]) && a < B
    modifies pn
    ensures Limbs(pn[..])
    ensures pn[..] == MulRow(old(pn[..]), b[..], a, j) && b[..] == old(b[..])
  {
    ghost var was, y := pn[..], b[..];
    RowFromIs(was, y, a, 0, j, 0);
    assert y[0..] == y;
    var carry: nat := 0;
    var i := 0;
    while i + j < pn.Length
      invariant 0 <= i && b[..] == y && (pn == b ==> carry == 0) && Limbs(pn[..]) && carry < B
      invariant RowFrom(pn[..], y, a, i, j, carry) == RowFrom(was, y, a, 0, j, 0)
    {
      ghost var s := pn[..];
      var low, high := MulAddAt(pn, b, a, i, j, carry);
      RowStep(s, y, a, i, j, carry, low, high);
      carry := high;
      i := i + 1;
    }
  }

  lemma StaysZero(pn: array<nat>, b: array<nat>, i: nat, j: nat, a: nat)
    requires pn.Length == b.Length && i + j < b.Length && (pn == b ==> b[..] == Zero(b.Length))
    ensures pn == b ==> b[i + j] == 0 && Times(b[i], a) == 0
  {
    if pn == b {
      assert b[..][i] == 0 && b[..][i + j] == 0;
      TimesIsProduct(0, a);
    }
  }

  /** *= ; the number is cleared before the operand is read, so multiplying it by itself leaves zero. */
  method MulAssign(pn: array<nat>, b: array<nat>)
    requires pn.Length == b.Length && Limbs(pn[..]) && Limbs(b[..])
    modifies pn
    ensures pn != b ==> pn[..] == MulRows(old(pn[..]), b[..], pn.Length)
    ensures pn == b ==> pn[..] == Zero(pn.Length)
    ensures pn == b ==> (Num(pn[..]) == Times(Num(old(pn[..])), Num(old(pn[..]))) % Modulus(pn.Length)
                         <==> Num(old(pn[..])) % Pow2(16 * pn.Length) == 0)
  {
    var a := pn[..];
    SquareInPlaceIff(a);
    Clear(pn);
    NumZero(pn.Length);
    for j := 0 to pn.Length
      invariant pn != b ==> pn[..] == MulRows(a, b[..], j)
      invariant pn == b ==> b[..] == Zero(b.Length)
      invariant Limbs(pn[..]) && Limbs(b[..])
    {
      AddRow(pn, b, a[j], j);
    }
  }

  lemma ScaledRemainder(c: nat, a: nat, b: nat)
    requires c > 0 && b > 0
    ensures (c * a) % (c * b) == 0 <==> a % b == 0
  {
    var q, r := a / b, a % b;
    assert c * a == q * (c * b) + c * r;
    MulMono(c, c, r + 1, b);
    DivMod(q, c * r, c * b);
  }

  lemma OddSquare(y: nat)
    ensures ((2 * y + 1) * (2 * y + 1)) % 2 == 1
  {
    assert (2 * y + 1) * (2 * y + 1) == 2 * (2 * (y * y) + 2 * y) + 1;
  }

  lemma OddIsNoMultiple(x: nat, p: nat)
    requires x % 2 == 1 && p > 0
    ensures x % (2 * p) != 0
  {
    var m := 2 * p;
    var q, r := x / m, x % m;
    assert x == m * q + r;
    TwiceProduct(m, p, q);
  }

  lemma TwiceProduct(m: nat, p: nat, q: nat)
    requires m == 2 * p
    ensures m * q == 2 * (p * q)
  {
  }

  /** 2^(2k) divides a square exactly if 2^k divides its root. */
  lemma {:induction false} SquareDivides(x: nat, k: nat)
    ensures (x * x) % Pow2(2 * k) == 0 <==> x % Pow2(k) == 0
  {
    if k > 0 {
      var y := x / 2;
      if x % 2 == 1 {
        OddSquare(y);
        OddIsNoMultiple(x, Pow2(k - 1));
        OddIsNoMultiple(x * x, Pow2(2 * k - 1));
      } else {
        SquareDivides(y, k - 1);
        assert x * x == 4 * (y * y) && Pow2(2 * k) == 4 * Pow2(2 * (k - 1));
        ScaledRemainder(4, y * y, Pow2(2 * (k - 1)));
        ScaledRemainder(2, y, Pow2(k - 1));
      }
    }
  }

  /** The zero that in-place squaring leaves is right exactly for numbers whose lower half of bits is zero. */
  lemma SquareInPlaceIff(x: seq<nat>)
    ensures 0 == Times(Num(x), Num(x)) % Modulus(|x|) <==> Num(x) % Pow2(16 * |x|) == 0
  {
    ModulusIsPower(|x|);
    TimesIsProduct(Num(x), Num(x));
    SquareDivides(Num(x), 16 * |x|);
  }

  /** One, squared in place, becomes zero. */
  lemma SquareInPlaceFails()
    ensures Limbs([1]) && Num(Zero(1)) != Num(MulRows([1], [1], 1))
  {
    var x := [1];
    MulIsProduct(x, x);
    NumZero(1);
    assert x[1..] == [] && Num(x) == 1 && Modulus(1) == ByB(1) == B;
    TimesIsProduct(1, 1);
  }
}
