/**
 Numbers as lists of 32-bit limbs, the lowest first (src/arith_uint256.h): what the limb
 by limb operations compute, for any number of limbs.  ArithUint.dfy has the loops.
 */
module ArithLimbs {
  import opened Radix

  const B: nat := 0x1_0000_0000

  predicate Limbs(s: seq<nat>) {
    forall i :: 0 <= i < |s| ==> s[i] < B
  }

  /** B * x, as repeated addition: products are kept from the solver, which is to use the lemmas. */
  function ByB(x: nat): nat {
    if x == 0 then 0 else B + ByB(x - 1)
  }

  lemma {:induction false} ByBIsProduct(x: nat)
    ensures ByB(x) == B * x
  {
    if x > 0 {
      ByBIsProduct(x - 1);
    }
  }

  lemma ByBAdd(x: nat, y: nat)
    ensures ByB(x + y) == ByB(x) + ByB(y)
  {
    ByBIsProduct(x);
    ByBIsProduct(y);
    ByBIsProduct(x + y);
  }

  lemma ByBSum(z: nat, x: nat, y: nat)
    requires z == x + y
    ensures ByB(z) == ByB(x) + ByB(y)
  {
    ByBAdd(x, y);
  }

  lemma ByBMonotone(x: nat, y: nat)
    requires x <= y
    ensures ByB(x) <= ByB(y)
  {
    ByBIsProduct(x);
    ByBIsProduct(y);
  }

  function Num(s: seq<nat>): nat {
    if s == [] then 0 else s[0] + ByB(Num(s[1..]))
  }

  /** x * y, likewise. */
  function Times(x: nat, y: nat): nat
    decreases y, x
  {
    if y == 0 then 0 else x + Times(x, y - 1)
  }

  lemma {:induction false} TimesIsProduct(x: nat, y: nat)
    ensures Times(x, y) == x * y
  {
    if y > 0 {
      TimesIsProduct(x, y - 1);
      assert x * y == x + x * (y - 1);
    }
  }

  lemma TimesCommutes(x: nat, y: nat)
    ensures Times(x, y) == Times(y, x)
  {
    TimesIsProduct(x, y);
    TimesIsProduct(y, x);
  }

  lemma {:induction false} TimesAdd(x: nat, y: nat, z: nat)
    ensures Times(x + y, z) == Times(x, z) + Times(y, z)
  {
    if z > 0 {
      TimesAdd(x, y, z - 1);
    }
  }

  lemma {:induction false} TimesB(x: nat, z: nat)
    ensures Times(ByB(x), z) == ByB(Times(x, z))
  {
    if z > 0 {
      TimesB(x, z - 1);
      ByBAdd(x, Times(x, z - 1));
    }
  }

  lemma {:induction false} TimesMonotone(x: nat, y: nat, z: nat)
    requires x <= y
    ensures Times(x, z) <= Times(y, z)
  {
    if z > 0 {
      TimesMonotone(x, y, z - 1);
    }
  }

  /** x moved up by n limbs. */
  function Scale(n: nat, x: nat): (r: nat)
    ensures x > 0 ==> r > 0
  {
    if n == 0 then x else ByB(Scale(n - 1, x))
  }

  /** The first number that n limbs cannot hold. */
  function Modulus(n: nat): nat {
    Scale(n, 1)
  }

  lemma {:induction false} NumBound(s: seq<nat>)
    requires Limbs(s)
    ensures Num(s) < Modulus(|s|)
  {
    if s != [] {
      NumBound(s[1..]);
      ByBMonotone(Num(s[1..]) + 1, Modulus(|s| - 1));
      ByBAdd(Num(s[1..]), 1);
    }
  }

  lemma {:induction false} NumConcat(a: seq<nat>, b: seq<nat>)
    ensures Num(a + b) == Num(a) + Scale(|a|, Num(b))
  {
    if a == [] {
      assert a + b == b;
    } else {
      NumConcat(a[1..], b);
      ByBAdd(Num(a[1..]), Scale(|a| - 1, Num(b)));
      assert (a + b)[1..] == a[1..] + b;
    }
  }

  lemma {:induction false} ScaleLinear(n: nat, x: nat, y: nat)
    ensures Scale(n, x + y) == Scale(n, x) + Scale(n, y)
  {
    if n > 0 {
      ScaleLinear(n - 1, x, y);
      ByBAdd(Scale(n - 1, x), Scale(n - 1, y));
    }
  }

  lemma {:induction false} ScaleZero(n: nat)
    ensures Scale(n, 0) == 0
  {
    if n > 0 {
      ScaleZero(n - 1);
    }
  }

  lemma {:induction false} ScaleIsProduct(n: nat, x: nat)
    ensures Scale(n, x) == Times(Modulus(n), x)
  {
    if n > 0 {
      ScaleIsProduct(n - 1, x);
      TimesB(Modulus(n - 1), x);
    } else {
      TimesIsProduct(1, x);
    }
  }

  lemma {:induction false} ScaleMonotone(n: nat, x: nat, y: nat)
    requires x <= y
    ensures Scale(n, x) <= Scale(n, y)
  {
    if n > 0 {
      ScaleMonotone(n - 1, x, y);
      ByBMonotone(Scale(n - 1, x), Scale(n - 1, y));
    }
  }

  function Zero(n: nat): seq<nat> {
    seq(n, i => 0)
  }

  lemma {:induction false} NumZero(n: nat)
    ensures Num(Zero(n)) == 0 && Limbs(Zero(n))
  {
    if n > 0 {
      NumZero(n - 1);
      assert Zero(n)[1..] == Zero(n - 1);
    }
  }

  // ---------------------------------------------------------------------------
  // Addition.

  function AddLimbs(a: seq<nat>, b: seq<nat>, carry: nat): (r: seq<nat>)
    requires |a| == |b|
    ensures |r| == |a| && Limbs(r)
  {
    if a == [] then []
    else
      var n := carry + a[0] + b[0];
      [n % B] + AddLimbs(a[1..], b[1..], n / B)
  }

  function AddCarry(a: seq<nat>, b: seq<nat>, carry: nat): nat
    requires |a| == |b|
  {
    if a == [] then carry else AddCarry(a[1..], b[1..], (carry + a[0] + b[0]) / B)
  }

  /** One limb of an addition: n is its sum, the rest of the result adds up with n's carry. */
  lemma CarryStep(n: nat, rest: nat, out: nat, x: nat, y: nat)
    requires rest + out == x + y + n / B
    ensures n % B + ByB(rest) + ByB(out) == n + ByB(x) + ByB(y)
  {
    ByBIsProduct(rest);
    ByBIsProduct(out);
    ByBIsProduct(x);
    ByBIsProduct(y);
  }

  lemma {:induction false} AddValue(a: seq<nat>, b: seq<nat>, carry: nat)
    requires |a| == |b|
    ensures Num(AddLimbs(a, b, carry)) + Scale(|a|, AddCarry(a, b, carry)) == Num(a) + Num(b) + carry
  {
    if a != [] {
      var n := carry + a[0] + b[0];
      AddValue(a[1..], b[1..], n / B);
      CarryStep(n, Num(AddLimbs(a[1..], b[1..], n / B)), Scale(|a| - 1, AddCarry(a[1..], b[1..], n / B)),
                Num(a[1..]), Num(b[1..]));
      assert AddLimbs(a, b, carry)[1..] == AddLimbs(a[1..], b[1..], n / B);
    }
  }

  lemma {:induction false} AddCarryIsBit(a: seq<nat>, b: seq<nat>, carry: nat)
    requires |a| == |b| && Limbs(a) && Limbs(b) && carry <= 1
    ensures AddCarry(a, b, carry) <= 1
  {
    if a != [] {
      AddCarryIsBit(a[1..], b[1..], (carry + a[0] + b[0]) / B);
    }
  }

  lemma ScaleBit(n: nat, c: nat)
    requires c <= 1
    ensures Scale(n, c) == if c == 0 then 0 else Modulus(n)
  {
    ScaleZero(n);
  }

  /** The sum, without the modulus if it is too large. */
  lemma AddIsSum(a: seq<nat>, b: seq<nat>)
    requires |a| == |b| && Limbs(a) && Limbs(b)
    ensures Num(AddLimbs(a, b, 0)) ==
              if Num(a) + Num(b) < Modulus(|a|) then Num(a) + Num(b) else Num(a) + Num(b) - Modulus(|a|)
  {
    AddValue(a, b, 0);
    AddCarryIsBit(a, b, 0);
    ScaleBit(|a|, AddCarry(a, b, 0));
    NumBound(AddLimbs(a, b, 0));
  }

  // ---------------------------------------------------------------------------
  // Negation and subtraction.

  function NotLimbs(s: seq<nat>): (r: seq<nat>)
    requires Limbs(s)
    ensures |r| == |s| && Limbs(r)
  {
    seq(|s|, i requires 0 <= i < |s| => B - 1 - s[i])
  }

  lemma {:induction false} NotValue(s: seq<nat>)
    requires Limbs(s)
    ensures Num(NotLimbs(s)) + Num(s) + 1 == Modulus(|s|)
  {
    if s != [] {
      NotValue(s[1..]);
      ByBAdd(Num(NotLimbs(s[1..])) + Num(s[1..]), 1);
      ByBAdd(Num(NotLimbs(s[1..])), Num(s[1..]));
      assert NotLimbs(s)[1..] == NotLimbs(s[1..]);
    }
  }

  function IncLimbs(s: seq<nat>): (r: seq<nat>)
    requires Limbs(s)
    ensures |r| == |s| && Limbs(r)
  {
    if s == [] then [] else if s[0] + 1 == B then [0] + IncLimbs(s[1..]) else [s[0] + 1] + s[1..]
  }

  lemma {:induction false} IncValue(s: seq<nat>)
    requires Limbs(s)
    ensures Num(IncLimbs(s)) == if Num(s) + 1 < Modulus(|s|) then Num(s) + 1 else 0
  {
    if s != [] {
      IncValue(s[1..]);
      NumBound(s[1..]);
      ByBIsProduct(Num(s[1..]));
      ByBIsProduct(Num(s[1..]) + 1);
      ByBIsProduct(Modulus(|s| - 1));
      if s[0] + 1 == B {
        assert IncLimbs(s)[1..] == IncLimbs(s[1..]);
      } else {
        assert IncLimbs(s)[1..] == s[1..];
      }
    }
  }

  function NegLimbs(s: seq<nat>): (r: seq<nat>)
    requires Limbs(s)
    ensures |r| == |s| && Limbs(r)
  {
    IncLimbs(NotLimbs(s))
  }

  lemma NegValue(s: seq<nat>)
    requires Limbs(s)
    ensures Num(NegLimbs(s)) == if Num(s) == 0 then 0 else Modulus(|s|) - Num(s)
  {
    NotValue(s);
    IncValue(NotLimbs(s));
    NumBound(s);
  }

  function SubLimbs(a: seq<nat>, b: seq<nat>): (r: seq<nat>)
    requires |a| == |b| && Limbs(b)
    ensures |r| == |a| && Limbs(r)
  {
    AddLimbs(a, NegLimbs(b), 0)
  }

  /** The difference, with the modulus added if it would be negative. */
  lemma SubIsDifference(a: seq<nat>, b: seq<nat>)
    requires |a| == |b| && Limbs(a) && Limbs(b)
    ensures Num(SubLimbs(a, b)) == if Num(a) >= Num(b) then Num(a) - Num(b) else Num(a) - Num(b) + Modulus(|a|)
  {
    NegValue(b);
    NumBound(a);
    NumBound(b);
    AddIsSum(a, NegLimbs(b));
  }

  // ---------------------------------------------------------------------------
  // Comparison, from the highest limb down.

  function Compare(a: seq<nat>, b: seq<nat>): int
    requires |a| == |b|
  {
    if a == [] then 0
    else
      var n := |a| - 1;
      if a[n] < b[n] then -1 else if a[n] > b[n] then 1 else Compare(a[..n], b[..n])
  }

  lemma {:induction false} CompareIsOrder(a: seq<nat>, b: seq<nat>)
    requires |a| == |b| && Limbs(a) && Limbs(b)
    ensures Compare(a, b) == if Num(a) < Num(b) then -1 else if Num(a) > Num(b) then 1 else 0
  {
    if a != [] {
      var n := |a| - 1;
      TopLimb(a);
      TopLimb(b);
      NumBound(a[..n]);
      NumBound(b[..n]);
      if a[n] == b[n] {
        CompareIsOrder(a[..n], b[..n]);
      } else if a[n] < b[n] {
        ScaleMonotone(n, a[n] + 1, b[n]);
        ScaleLinear(n, a[n], 1);
      } else {
        ScaleMonotone(n, b[n] + 1, a[n]);
        ScaleLinear(n, b[n], 1);
      }
    }
  }

  lemma TopLimb(s: seq<nat>)
    requires s != []
    ensures Num(s) == Num(s[..|s| - 1]) + Scale(|s| - 1, s[|s| - 1])
  {
    var n := |s| - 1;
    assert s == s[..n] + [s[n]];
    NumConcat(s[..n], [s[n]]);
    assert Num([s[n]]) == s[n] + B * Num([s[n]][1..]);
  }

  // ---------------------------------------------------------------------------
  // Multiplication.

  /** acc + a * b with a carry, limb by limb, cut off at the length of acc. */
  function MulAddLimbs(acc: seq<nat>, b: seq<nat>, a: nat, carry: nat): (r: seq<nat>)
    requires |acc| <= |b|
    ensures |r| == |acc| && Limbs(r)
  {
    if acc == [] then []
    else
      var n := carry + acc[0] + Times(b[0], a);
      [n % B] + MulAddLimbs(acc[1..], b[1..], a, n / B)
  }

  function MulAddCarry(acc: seq<nat>, b: seq<nat>, a: nat, carry: nat): nat
    requires |acc| <= |b|
  {
    if acc == [] then carry else MulAddCarry(acc[1..], b[1..], a, (carry + acc[0] + Times(b[0], a)) / B)
  }

  lemma FactorStep(b: seq<nat>, a: nat)
    requires b != []
    ensures Times(Num(b), a) == Times(b[0], a) + ByB(Times(Num(b[1..]), a))
  {
    TimesAdd(b[0], ByB(Num(b[1..])), a);
    TimesB(Num(b[1..]), a);
  }

  lemma {:induction false} MulAddValue(acc: seq<nat>, b: seq<nat>, a: nat, carry: nat)
    requires |acc| == |b|
    ensures Num(MulAddLimbs(acc, b, a, carry)) + Scale(|acc|, MulAddCarry(acc, b, a, carry)) == Num(acc) + Times(Num(b), a) + carry
  {
    if acc != [] {
      var n := carry + acc[0] + Times(b[0], a);
      MulAddValue(acc[1..], b[1..], a, n / B);
      CarryStep(n, Num(MulAddLimbs(acc[1..], b[1..], a, n / B)), Scale(|acc| - 1, MulAddCarry(acc[1..], b[1..], a, n / B)),
                Num(acc[1..]), Times(Num(b[1..]), a));
      assert MulAddLimbs(acc, b, a, carry)[1..] == MulAddLimbs(acc[1..], b[1..], a, n / B);
      FactorStep(b, a);
    } else {
      assert b == [];
      TimesIsProduct(0, a);
    }
  }
}
