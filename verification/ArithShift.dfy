/** Shifts of limb lists (src/arith_uint256.cpp): bits that cross from limb to limb, or-ed together. */
module ArithShift {
  import opened Radix
  import opened ArithLimbs

  function Pow2(e: nat): (r: nat)
    ensures r > 0
  {
    if e == 0 then 1 else 2 * Pow2(e - 1)
  }

  lemma {:induction false} Pow2Add(m: nat, n: nat)
    ensures Pow2(m + n) == Pow2(m) * Pow2(n)
  {
    if m > 0 {
      Pow2Add(m - 1, n);
      assert 2 * (Pow2(m - 1) * Pow2(n)) == (2 * Pow2(m - 1)) * Pow2(n);
    }
  }

  lemma Pow2Of32()
    ensures Pow2(32) == B
  {
    assert Pow2(8) == 256;
    Pow2Add(8, 8);
    Pow2Add(16, 16);
  }

  lemma {:induction false} ModulusIsPower(n: nat)
    ensures Modulus(n) == Pow2(32 * n)
  {
    if n > 0 {
      ModulusIsPower(n - 1);
      Pow2Next32(32 * (n - 1));
    }
  }

  lemma {:induction false} Pow2Monotone(m: nat, n: nat)
    requires m <= n
    ensures Pow2(m) <= Pow2(n)
  {
    if m < n {
      Pow2Monotone(m, n - 1);
    }
  }

  // ---------------------------------------------------------------------------
  // Or.

  function Or(x: nat, y: nat): nat
    decreases x + y
  {
    if x == 0 then y else if y == 0 then x
    else (if x % 2 == 1 || y % 2 == 1 then 1 else 0) + 2 * Or(x / 2, y / 2)
  }

  /** Or-ing numbers that share no bits adds them. */
  lemma {:induction false} OrAdds(h: nat, l: nat, s: nat)
    requires l < Pow2(s)
    ensures Or(l, h * Pow2(s)) == l + h * Pow2(s) && Or(h * Pow2(s), l) == l + h * Pow2(s)
    decreases s
  {
    if s > 0 {
      OrAdds(h, l / 2, s - 1);
      Even(h, Pow2(s - 1));
    }
  }

  lemma Even(h: nat, p: nat)
    ensures h * (2 * p) == 2 * (h * p) && (h * (2 * p)) % 2 == 0 && (h * (2 * p)) / 2 == h * p
  {
    assert h * (2 * p) == 2 * (h * p);
  }

  // ---------------------------------------------------------------------------
  // One limb.

  /** x >> m and the bits that leave it at the bottom. */
  function Shr(x: nat, m: nat): nat {
    if m == 0 then x else Shr(x / 2, m - 1)
  }

  function LowBits(x: nat, m: nat): nat {
    if m == 0 then 0 else x % 2 + 2 * LowBits(x / 2, m - 1)
  }

  lemma {:induction false} ShrSplits(x: nat, m: nat)
    ensures x == Shr(x, m) * Pow2(m) + LowBits(x, m) && LowBits(x, m) < Pow2(m)
  {
    if m > 0 {
      ShrSplits(x / 2, m - 1);
      assert Shr(x, m) * (2 * Pow2(m - 1)) == 2 * (Shr(x, m) * Pow2(m - 1));
    }
  }

  /** x << s in 32 bits, one bit at a time; Hi has the bits that leave at the top, which the source skips for s == 0. */
  function Lo(x: nat, s: nat): nat {
    if s == 0 then x else var y := 2 * Lo(x, s - 1); if y >= B then y - B else y
  }

  function Hi(x: nat, s: nat): nat
    requires s < 32
  {
    if s == 0 then 0 else Shr(x, 32 - s)
  }

  lemma Complement(s: nat)
    requires s <= 32
    ensures Pow2(s) * Pow2(32 - s) == B
  {
    Pow2Add(s, 32 - s);
    Pow2Of32();
  }

  /** Lo is the product by a power of two, modulo B. */
  lemma {:induction false} LoIsProduct(x: nat, s: nat) returns (q: nat)
    requires x < B
    ensures Lo(x, s) < B && Times(x, Pow2(s)) == ByB(q) + Lo(x, s)
  {
    if s == 0 {
      TimesIsProduct(x, 1);
      q := 0;
    } else {
      var p := LoIsProduct(x, s - 1);
      TimesCommutes(x, Pow2(s));
      TimesCommutes(x, Pow2(s - 1));
      TimesAdd(Pow2(s - 1), Pow2(s - 1), x);
      q := if 2 * Lo(x, s - 1) >= B then 2 * p + 1 else 2 * p;
      ByBIsProduct(p);
      ByBIsProduct(q);
    }
  }

  lemma LoIsMod(x: nat, s: nat)
    requires x < B
    ensures Lo(x, s) == Times(x, Pow2(s)) % B
  {
    var q := LoIsProduct(x, s);
    ByBIsProduct(q);
  }

  /** h * u + l, times t, where t * u is B. */
  lemma SplitProduct(x: nat, h: nat, l: nat, t: nat, u: nat)
    requires t * u == B && x == h * u + l && l < u
    ensures x * t == h * B + l * t && l * t + t <= B
  {
    assert (h * u) * t == h * (t * u);
    assert (h * u + l) * t == (h * u) * t + l * t;
    MulMono(l + 1, u, t, t);
    assert (l + 1) * t == l * t + t;
  }

  lemma {:induction false} ShrBelow(x: nat, m: nat)
    requires x < Pow2(m)
    ensures Shr(x, m) == 0
  {
    if m > 0 {
      ShrBelow(x / 2, m - 1);
    }
  }

  /** In 32 bits, the low bits of x move up and the others fall off. */
  lemma LoIsLowBits(x: nat, h: nat, l: nat, s: nat, t: nat, u: nat)
    requires x < B && t == Pow2(s) && t * u == B && x == h * u + l && l < u
    ensures Lo(x, s) == l * t && l * t + t <= B && Times(x, t) == ByB(h) + Lo(x, s)
  {
    SplitProduct(x, h, l, t, u);
    var q := LoIsProduct(x, s);
    TimesIsProduct(x, t);
    ByBIsProduct(q);
    ByBIsProduct(h);
  }

  lemma ShlParts(x: nat, s: nat)
    requires x < B && s < 32
    ensures Times(x, Pow2(s)) == ByB(Hi(x, s)) + Lo(x, s)
    ensures Hi(x, s) < Pow2(s) && Lo(x, s) + Pow2(s) <= B
    ensures Lo(x, s) == LowBits(x, 32 - s) * Pow2(s)
  {
    var t, u := Pow2(s), Pow2(32 - s);
    Complement(s);
    ShrSplits(x, 32 - s);
    LoIsLowBits(x, Shr(x, 32 - s), LowBits(x, 32 - s), s, t, u);
    HiBound(x, Shr(x, 32 - s), LowBits(x, 32 - s), t, u);
    if s == 0 {
      Pow2Of32();
      ShrBelow(x, 32);
    }
  }

  lemma HiBound(x: nat, h: nat, l: nat, t: nat, u: nat)
    requires x < B && t * u == B && x == h * u + l
    ensures h < t
  {
    if h >= t {
      MulMono(t, h, u, u);
    }
  }

  // ---------------------------------------------------------------------------
  // Left.

  function ShlBits(a: seq<nat>, s: nat, carry: nat): (r: seq<nat>)
    requires s < 32
    ensures |r| == |a|
  {
    if a == [] then [] else [carry + Lo(a[0], s)] + ShlBits(a[1..], s, Hi(a[0], s))
  }

  function ShlOut(a: seq<nat>, s: nat, carry: nat): nat
    requires s < 32
  {
    if a == [] then carry else ShlOut(a[1..], s, Hi(a[0], s))
  }

  lemma {:induction false} ShlBitsValue(a: seq<nat>, s: nat, carry: nat)
    requires s < 32 && Limbs(a)
    ensures Num(ShlBits(a, s, carry)) + Scale(|a|, ShlOut(a, s, carry)) == Times(Num(a), Pow2(s)) + carry
  {
    if a != [] {
      var lo, hi := Lo(a[0], s), Hi(a[0], s);
      ShlBitsValue(a[1..], s, hi);
      ShlParts(a[0], s);
      assert ShlBits(a, s, carry)[1..] == ShlBits(a[1..], s, hi);
      ShlStep(a[0], Num(a[1..]), Pow2(s), lo, hi);
      ByBAdd(Num(ShlBits(a[1..], s, hi)), Scale(|a| - 1, ShlOut(a[1..], s, hi)));
    } else {
      TimesIsProduct(0, Pow2(s));
    }
  }

  lemma ShlStep(x: nat, n: nat, t: nat, lo: nat, hi: nat)
    requires Times(x, t) == ByB(hi) + lo
    ensures Times(x + ByB(n), t) == lo + ByB(Times(n, t) + hi)
  {
    TimesAdd(x, ByB(n), t);
    TimesB(n, t);
    ByBAdd(Times(n, t), hi);
  }

  /** Each limb is its own low part and the high part of the one below. */
  lemma {:induction false} ShlBitsAt(a: seq<nat>, s: nat, carry: nat, j: nat)
    requires s < 32 && j < |a|
    ensures ShlBits(a, s, carry)[j] == Lo(a[j], s) + if j == 0 then carry else Hi(a[j - 1], s)
  {
    if j > 0 {
      ShlBitsAt(a[1..], s, Hi(a[0], s), j - 1);
    }
  }

  lemma {:induction false} ShlBitsLimbs(a: seq<nat>, s: nat, carry: nat)
    requires s < 32 && Limbs(a) && carry < Pow2(s)
    ensures Limbs(ShlBits(a, s, carry))
  {
    if a != [] {
      ShlParts(a[0], s);
      ShlBitsLimbs(a[1..], s, Hi(a[0], s));
    }
  }

  function ShlLimbs(a: seq<nat>, shift: nat): (r: seq<nat>)
    ensures |r| == |a|
  {
    var k := shift / 32;
    if k >= |a| then Zero(|a|) else Zero(k) + ShlBits(a[..|a| - k], shift % 32, 0)
  }

  lemma NumShifted(k: nat, r: seq<nat>)
    ensures Num(Zero(k) + r) == Scale(k, Num(r))
  {
    NumConcat(Zero(k), r);
    NumZero(k);
  }

  lemma {:induction false} ScaleScale(m: nat, n: nat, x: nat)
    ensures Scale(m, Scale(n, x)) == Scale(m + n, x)
  {
    if m > 0 {
      ScaleScale(m - 1, n, x);
    }
  }

  lemma {:induction false} ScaleTimes(n: nat, x: nat, y: nat)
    ensures Times(Scale(n, x), y) == Scale(n, Times(x, y))
  {
    if n > 0 {
      ScaleTimes(n - 1, x, y);
      TimesB(Scale(n - 1, x), y);
    }
  }

  lemma Pow2Next32(e: nat)
    ensures Pow2(32 + e) == ByB(Pow2(e))
  {
    Pow2Of32();
    Pow2Add(32, e);
    ByBIsProduct(Pow2(e));
  }

  /** A power of two as whole limbs and bits. */
  lemma {:induction false} PowerOfLimbs(k: nat, s: nat, x: nat)
    ensures Times(Pow2(32 * k + s), x) == Scale(k, Times(Pow2(s), x))
  {
    if k > 0 {
      PowerOfLimbs(k - 1, s, x);
      Pow2Next32(32 * (k - 1) + s);
      TimesB(Pow2(32 * (k - 1) + s), x);
    }
  }

  lemma PowerSplits(shift: nat, x: nat)
    ensures Times(x, Pow2(shift)) == Scale(shift / 32, Times(x, Pow2(shift % 32)))
  {
    PowerOfLimbs(shift / 32, shift % 32, x);
    TimesCommutes(x, Pow2(shift));
    TimesCommutes(x, Pow2(shift % 32));
  }

  /** What is shifted out, as a multiple of the modulus. */
  function ShlLost(a: seq<nat>, shift: nat): nat
    requires shift / 32 < |a|
  {
    var n := |a| - shift / 32;
    ShlOut(a[..n], shift % 32, 0) + Times(Num(a[n..]), Pow2(shift % 32))
  }

  lemma ShlSumBits(n: nat, x: nat, y: nat, z: nat, t: nat, r: nat, out: nat, lost: nat)
    requires z == x + Scale(n, y) && r + Scale(n, out) == Times(x, t) && lost == out + Times(y, t)
    ensures Times(z, t) == r + Scale(n, lost)
  {
    ScaleTimes(n, y, t);
    TimesSum(z, x, Scale(n, y), t);
    ScaleSum(n, lost, out, Times(y, t));
  }

  lemma TimesSum(z: nat, x: nat, y: nat, t: nat)
    requires z == x + y
    ensures Times(z, t) == Times(x, t) + Times(y, t)
  {
    TimesAdd(x, y, t);
  }

  lemma ScaleSum(n: nat, z: nat, x: nat, y: nat)
    requires z == x + y
    ensures Scale(n, z) == Scale(n, x) + Scale(n, y)
  {
    ScaleLinear(n, x, y);
  }

  /** The bits, then the limbs. */
  lemma ShlSumLimbs(k: nat, n: nat, m: nat, z: nat, shift: nat, r: nat, lost: nat)
    requires k == shift / 32 && m == k + n && Times(z, Pow2(shift % 32)) == r + Scale(n, lost)
    ensures Times(z, Pow2(shift)) == Scale(k, r) + Scale(m, lost)
  {
    PowerSplits(shift, z);
    ScaleSum(k, Times(z, Pow2(shift % 32)), r, Scale(n, lost));
    ScaleScale(k, n, lost);
  }

  lemma ShlLimbsNum(a: seq<nat>, shift: nat)
    requires shift / 32 < |a|
    ensures Num(ShlLimbs(a, shift)) == Scale(shift / 32, Num(ShlBits(a[..|a| - shift / 32], shift % 32, 0)))
  {
    NumShifted(shift / 32, ShlBits(a[..|a| - shift / 32], shift % 32, 0));
  }

  lemma NumCut(a: seq<nat>, n: nat)
    requires n <= |a|
    ensures Num(a) == Num(a[..n]) + Scale(n, Num(a[n..]))
  {
    assert a == a[..n] + a[n..];
    NumConcat(a[..n], a[n..]);
  }

  lemma ShlSum(a: seq<nat>, shift: nat)
    requires Limbs(a) && shift / 32 < |a|
    ensures Times(Num(a), Pow2(shift)) == Num(ShlLimbs(a, shift)) + Scale(|a|, ShlLost(a, shift))
  {
    var n := |a| - shift / 32;
    ShlLimbsNum(a, shift);
    NumCut(a, n);
    ShlBitsValue(a[..n], shift % 32, 0);
    ShlSumBits(n, Num(a[..n]), Num(a[n..]), Num(a), Pow2(shift % 32),
               Num(ShlBits(a[..n], shift % 32, 0)), ShlOut(a[..n], shift % 32, 0), ShlLost(a, shift));
    ShlSumLimbs(shift / 32, n, |a|, Num(a), shift, Num(ShlBits(a[..n], shift % 32, 0)), ShlLost(a, shift));
  }

  /** A multiple of the modulus and a rest below it. */
  lemma ModOf(n: nat, z: nat, q: nat, r: nat)
    requires r < Modulus(n) && z == r + Scale(n, q)
    ensures z % Modulus(n) == r
  {
    ScaleIsProduct(n, q);
    TimesIsProduct(Modulus(n), q);
    DivMod(q, r, Modulus(n));
  }

  /** A product by a power beyond the last limb vanishes. */
  lemma ShlAll(n: nat, shift: nat, x: nat)
    requires shift >= 32 * n
    ensures Times(x, Pow2(shift)) % Modulus(n) == 0
  {
    PowerOfLimbs(n, shift - 32 * n, x);
    TimesCommutes(x, Pow2(shift));
    ModOf(n, Times(x, Pow2(shift)), Times(Pow2(shift - 32 * n), x), 0);
  }

  lemma ShlIsProduct(a: seq<nat>, shift: nat)
    requires Limbs(a)
    ensures Limbs(ShlLimbs(a, shift))
    ensures Num(ShlLimbs(a, shift)) == Times(Num(a), Pow2(shift)) % Modulus(|a|)
  {
    NumZero(|a|);
    if shift / 32 >= |a| {
      ShlAll(|a|, shift, Num(a));
    } else {
      ShlBitsLimbs(a[..|a| - shift / 32], shift % 32, 0);
      NumZero(shift / 32);
      NumBound(ShlLimbs(a, shift));
      ShlSum(a, shift);
      ModOf(|a|, Times(Num(a), Pow2(shift)), ShlLost(a, shift), Num(ShlLimbs(a, shift)));
    }
  }

  // ---------------------------------------------------------------------------
  // Right.

  /** x << (32 - s) in 32 bits: the low bits of x at the top; for s == 0 the source skips them. */
  function Up(x: nat, s: nat): nat
    requires s < 32
  {
    if s == 0 then 0 else Lo(x, 32 - s)
  }

  lemma UpIsLowBits(x: nat, s: nat)
    requires x < B && s < 32
    ensures Up(x, s) == LowBits(x, s) * Pow2(32 - s)
    ensures Up(x, s) + Pow2(32 - s) <= B
  {
    if s == 0 {
      Pow2Of32();
    } else {
      Complement(s);
      assert Pow2(32 - s) * Pow2(s) == B;
      ShrSplits(x, s);
      LoIsLowBits(x, Shr(x, s), LowBits(x, s), 32 - s, Pow2(32 - s), Pow2(s));
    }
  }

  lemma {:induction false} ShrSmaller(x: nat, m: nat, e: nat)
    requires x < Pow2(m + e)
    ensures Shr(x, m) < Pow2(e)
  {
    if m > 0 {
      ShrSmaller(x / 2, m - 1, e);
    }
  }

  /** Each limb is its own high part and the low part of the one above. */
  function ShrBits(a: seq<nat>, s: nat): (r: seq<nat>)
    requires s < 32
    ensures |r| == |a|
  {
    if a == [] then [] else [Shr(a[0], s) + if |a| > 1 then Up(a[1], s) else 0] + ShrBits(a[1..], s)
  }

  lemma {:induction false} ShrBitsAt(a: seq<nat>, s: nat, j: nat)
    requires s < 32 && j < |a|
    ensures ShrBits(a, s)[j] == Shr(a[j], s) + if j + 1 < |a| then Up(a[j + 1], s) else 0
  {
    if j > 0 {
      ShrBitsAt(a[1..], s, j - 1);
    }
  }

  lemma {:induction false} ShrBitsLimbs(a: seq<nat>, s: nat)
    requires s < 32 && Limbs(a)
    ensures Limbs(ShrBits(a, s))
  {
    if a != [] {
      Pow2Of32();
      ShrSmaller(a[0], s, 32 - s);
      if |a| > 1 {
        UpIsLowBits(a[1], s);
      } else {
        Pow2Monotone(32 - s, 32);
      }
      ShrBitsLimbs(a[1..], s);
    }
  }

  function Lowest(a: seq<nat>, s: nat): nat {
    if a == [] then 0 else LowBits(a[0], s)
  }

  lemma TimesSum3(y: nat, u: nat, v: nat, w: nat, t: nat)
    requires y == u + v + w
    ensures Times(y, t) == Times(u, t) + Times(v, t) + Times(w, t)
  {
    TimesSum(y, u + v, w, t);
    TimesAdd(u, v, t);
  }

  /** The products are named thi, tup, tr and ty. */
  lemma ShrStep(x: nat, thi: nat, lo: nat, next: nat, tup: nat, n: nat, tr: nat, ty: nat)
    requires x == thi + lo && tup == ByB(next) && n == tr + next && ty == thi + tup + ByB(tr)
    ensures x + ByB(n) == ty + lo
  {
    ByBSum(n, tr, next);
  }

  lemma UpTimes(x: nat, s: nat)
    requires x < B && s < 32
    ensures Times(Up(x, s), Pow2(s)) == ByB(LowBits(x, s))
  {
    UpIsLowBits(x, s);
    Complement(s);
    Reassociate(LowBits(x, s), Pow2(32 - s), Pow2(s));
    TimesIsProduct(Up(x, s), Pow2(s));
    ByBIsProduct(LowBits(x, s));
  }

  lemma Reassociate(l: nat, u: nat, t: nat)
    ensures (l * u) * t == l * (t * u)
  {
  }

  /** What the limb above contributes. */
  function UpOf(a: seq<nat>, s: nat): nat
    requires s < 32
  {
    if |a| > 1 then Up(a[1], s) else 0
  }

  lemma UpOfTimes(a: seq<nat>, s: nat)
    requires s < 32 && a != [] && Limbs(a)
    ensures Times(UpOf(a, s), Pow2(s)) == ByB(Lowest(a[1..], s))
  {
    if |a| > 1 {
      UpTimes(a[1], s);
    } else {
      TimesIsProduct(0, Pow2(s));
    }
  }

  lemma ShrBitsNum(a: seq<nat>, s: nat)
    requires s < 32 && a != []
    ensures Num(ShrBits(a, s)) == Shr(a[0], s) + UpOf(a, s) + ByB(Num(ShrBits(a[1..], s)))
  {
    assert ShrBits(a, s)[1..] == ShrBits(a[1..], s);
  }

  lemma ShrTimes(x: nat, s: nat)
    ensures x == Times(Shr(x, s), Pow2(s)) + LowBits(x, s)
  {
    ShrSplits(x, s);
    TimesIsProduct(Shr(x, s), Pow2(s));
  }

  lemma {:induction false} ShrBitsValue(a: seq<nat>, s: nat)
    requires s < 32 && Limbs(a)
    ensures Num(a) == Times(Num(ShrBits(a, s)), Pow2(s)) + Lowest(a, s)
  {
    if a == [] {
      TimesIsProduct(0, Pow2(s));
    } else {
      var rest := a[1..];
      ShrBitsValue(rest, s);
      ShrBitsNum(a, s);
      ShrTimes(a[0], s);
      UpOfTimes(a, s);
      TimesSum3(Num(ShrBits(a, s)), Shr(a[0], s), UpOf(a, s), ByB(Num(ShrBits(rest, s))), Pow2(s));
      TimesB(Num(ShrBits(rest, s)), Pow2(s));
      ShrStep(a[0], Times(Shr(a[0], s), Pow2(s)), LowBits(a[0], s), Lowest(rest, s), Times(UpOf(a, s), Pow2(s)),
              Num(rest), Times(Num(ShrBits(rest, s)), Pow2(s)), Times(Num(ShrBits(a, s)), Pow2(s)));
    }
  }

  function ShrLimbs(a: seq<nat>, shift: nat): (r: seq<nat>)
    ensures |r| == |a|
  {
    var k := shift / 32;
    if k >= |a| then Zero(|a|) else ShrBits(a[k..], shift % 32) + Zero(k)
  }

  /** What is shifted out is less than the power of two. */
  lemma ShrRestBound(a: seq<nat>, shift: nat)
    requires Limbs(a) && shift / 32 < |a|
    ensures Num(a[..shift / 32]) + Scale(shift / 32, Lowest(a[shift / 32..], shift % 32)) < Pow2(shift)
  {
    var k, s := shift / 32, shift % 32;
    var low := Lowest(a[k..], s);
    NumBound(a[..k]);
    ShrSplits(a[k], s);
    ScaleLinear(k, low, 1);
    ScaleMonotone(k, low + 1, Pow2(s));
    PowerSplits(shift, 1);
    TimesIsProduct(1, Pow2(shift));
    TimesIsProduct(1, Pow2(s));
  }

  /** x is r units and `low`; moved up k limbs, with `rest` below. */
  lemma ShrSum(k: nat, shift: nat, x: nat, r: nat, low: nat, rest: nat, z: nat)
    requires k == shift / 32 && x == Times(r, Pow2(shift % 32)) + low && z == rest + Scale(k, x)
    ensures z == Times(r, Pow2(shift)) + (rest + Scale(k, low))
  {
    ScaleSum(k, x, Times(r, Pow2(shift % 32)), low);
    PowerSplits(shift, r);
  }

  lemma ShrRest(a: seq<nat>, shift: nat)
    requires Limbs(a) && shift / 32 < |a|
    ensures var k, s := shift / 32, shift % 32;
            Num(a) == Times(Num(ShrBits(a[k..], s)), Pow2(shift)) + (Num(a[..k]) + Scale(k, Lowest(a[k..], s)))
  {
    var k, s := shift / 32, shift % 32;
    NumCut(a, k);
    ShrBitsValue(a[k..], s);
    ShrSum(k, shift, Num(a[k..]), Num(ShrBits(a[k..], s)), Lowest(a[k..], s), Num(a[..k]), Num(a));
  }

  lemma ShrIsQuotient(a: seq<nat>, shift: nat)
    requires Limbs(a)
    ensures Limbs(ShrLimbs(a, shift))
    ensures Num(ShrLimbs(a, shift)) == Num(a) / Pow2(shift)
  {
    var k, s := shift / 32, shift % 32;
    NumZero(|a|);
    if k >= |a| {
      NumBound(a);
      ModulusIsPower(|a|);
      Pow2Monotone(32 * |a|, shift);
      DivMod(0, Num(a), Pow2(shift));
    } else {
      ShrBitsLimbs(a[k..], s);
      NumZero(k);
      NumConcat(ShrBits(a[k..], s), Zero(k));
      ScaleZero(|a| - k);
      ShrRest(a, shift);
      ShrRestBound(a, shift);
      TimesIsProduct(Num(ShrBits(a[k..], s)), Pow2(shift));
      DivMod(Num(ShrBits(a[k..], s)), Num(a[..k]) + Scale(k, Lowest(a[k..], s)), Pow2(shift));
    }
  }
}
