/**
 Choosing coins by denomination (src/denomination_functions.cpp).

 Denominations are an ascending list in which each value divides the next, and a map from
 denominations to amounts is a list of counts in the same order.  This file has the
 greedy choice and the exchange argument that makes it exact; DenominationChoice.dfy has
 the functions of the wallet.
 */
module Denominations {
  import opened Radix

  /** n is a multiple of a, by taking a off n as long as it goes. */
  predicate Multiple(n: nat, a: nat)
    requires a > 0
    decreases n, a
  {
    if n < a then n == 0 else Multiple(n - a, a)
  }

  predicate Chain(v: seq<nat>) {
    && |v| > 0 && (forall i :: 0 <= i < |v| ==> v[i] > 0)
    && (forall i :: 0 <= i < |v| - 1 ==> v[i] < v[i + 1] && Multiple(v[i + 1], v[i]))
  }

  function Min(a: int, b: int): int { if a < b then a else b }

  lemma Cancel(a: nat, b: nat, w: nat)
    requires w > 0 && a * w <= b * w
    ensures a <= b
  {
    if a > b {
      MulMono(b + 1, a, w, w);
    }
  }

  lemma Distribute(a: nat, b: nat, w: nat)
    ensures (a - b) * w == a * w - b * w
  {
  }

  // ---------------------------------------------------------------------------
  // Multiples.

  lemma {:induction false} MultiplePlus(n: nat, m: nat, a: nat)
    requires a > 0 && Multiple(m, a)
    ensures Multiple(n + m, a) <==> Multiple(n, a)
    decreases m
  {
    if m > 0 {
      MultiplePlus(n, m - a, a);
      assert n + m - a == n + (m - a);
    }
  }

  /** A multiple of a multiple. */
  lemma {:induction false} MultipleTransitive(n: nat, b: nat, a: nat)
    requires a > 0 && b > 0 && Multiple(n, b) && Multiple(b, a)
    ensures Multiple(n, a)
    decreases n
  {
    if n > 0 {
      MultipleTransitive(n - b, b, a);
      MultiplePlus(n - b, b, a);
    }
  }

  lemma {:induction false} MultipleOf(k: nat, a: nat)
    requires a > 0
    ensures Multiple(k * a, a)
  {
    if k > 0 {
      MultipleOf(k - 1, a);
      assert k * a == (k - 1) * a + a;
    }
  }

  /** zerocoinDenomList, in the smallest unit. */
  function ZerocoinDenominations(coin: nat): seq<nat> {
    [1 * coin, 5 * coin, 10 * coin, 50 * coin, 100 * coin, 500 * coin, 1000 * coin, 5000 * coin]
  }

  lemma ZerocoinListIsChain(coin: nat)
    requires coin > 0
    ensures Chain(ZerocoinDenominations(coin))
  {
    MultipleOf(5, 1 * coin);
    MultipleOf(2, 5 * coin);
    MultipleOf(5, 10 * coin);
    MultipleOf(2, 50 * coin);
    MultipleOf(5, 100 * coin);
    MultipleOf(2, 500 * coin);
    MultipleOf(5, 1000 * coin);
  }

  lemma MultipleMinus(n: nat, m: nat, a: nat)
    requires a > 0 && Multiple(n, a) && Multiple(m, a) && m <= n
    ensures Multiple(n - m, a)
  {
    MultiplePlus(n - m, m, a);
  }

  lemma {:induction false} ChainDivides(v: seq<nat>, i: nat, j: nat)
    requires Chain(v) && i <= j < |v|
    ensures 0 < v[i] <= v[j] && Multiple(v[j], v[i])
  {
    if i < j {
      ChainDivides(v, i, j - 1);
      assert v[j - 1] < v[j - 1 + 1] && Multiple(v[j - 1 + 1], v[j - 1]);
      MultipleTransitive(v[j], v[j - 1], v[i]);
    }
  }

  // ---------------------------------------------------------------------------
  // Amounts and counts of the first i denominations.

  function Total(v: seq<nat>, x: seq<nat>, i: nat): nat
    requires i <= |v| && i <= |x|
  {
    if i == 0 then 0 else Total(v, x, i - 1) + x[i - 1] * v[i - 1]
  }

  function Count(x: seq<nat>, i: nat): nat
    requires i <= |x|
  {
    if i == 0 then 0 else Count(x, i - 1) + x[i - 1]
  }

  predicate Within(x: seq<nat>, h: seq<nat>, i: nat)
    requires i <= |x| && i <= |h|
  {
    forall j :: 0 <= j < i ==> x[j] <= h[j]
  }

  lemma {:induction false} TotalPrefix(v: seq<nat>, x: seq<nat>, y: seq<nat>, i: nat)
    requires i <= |v| && i <= |x| && i <= |y| && x[..i] == y[..i]
    ensures Total(v, x, i) == Total(v, y, i) && Count(x, i) == Count(y, i)
  {
    if i > 0 {
      assert x[i - 1] == x[..i][i - 1] == y[..i][i - 1] == y[i - 1];
      assert x[..i - 1] == x[..i][..i - 1] == y[..i][..i - 1] == y[..i - 1];
      TotalPrefix(v, x, y, i - 1);
    }
  }

  function Minus(x: seq<nat>, y: seq<nat>, i: nat): (r: seq<nat>)
    requires i <= |x| && i <= |y| && Within(y, x, i)
    ensures |r| == i
  {
    seq(i, j requires 0 <= j < i => x[j] - y[j])
  }

  lemma {:induction false} TotalMinus(v: seq<nat>, x: seq<nat>, y: seq<nat>, i: nat)
    requires i <= |v| && i <= |x| && i <= |y| && Within(y, x, i)
    ensures Total(v, Minus(x, y, i), i) == Total(v, x, i) - Total(v, y, i)
    ensures Count(Minus(x, y, i), i) == Count(x, i) - Count(y, i)
  {
    if i > 0 {
      TotalMinus(v, x, y, i - 1);
      TotalPrefix(v, Minus(x, y, i), Minus(x, y, i - 1), i - 1);
      assert (x[i - 1] - y[i - 1]) * v[i - 1] == x[i - 1] * v[i - 1] - y[i - 1] * v[i - 1];
    }
  }

  lemma {:induction false} TotalMonotone(v: seq<nat>, x: seq<nat>, y: seq<nat>, i: nat)
    requires i <= |v| && i <= |x| && i <= |y| && Within(x, y, i)
    ensures Total(v, x, i) <= Total(v, y, i)
  {
    if i > 0 {
      TotalMonotone(v, x, y, i - 1);
      MulMono(x[i - 1], y[i - 1], v[i - 1], v[i - 1]);
    }
  }

  /** d coins' worth in smaller coins is at least d coins. */
  lemma {:induction false} SmallerCoinsAreMore(v: seq<nat>, x: seq<nat>, i: nat, w: nat)
    requires i <= |v| && i <= |x| && forall j :: 0 <= j < i ==> v[j] <= w
    ensures Total(v, x, i) <= Count(x, i) * w
  {
    if i > 0 {
      SmallerCoinsAreMore(v, x, i - 1, w);
      MulMono(x[i - 1], x[i - 1], v[i - 1], w);
      assert (Count(x, i - 1) + x[i - 1]) * w == Count(x, i - 1) * w + x[i - 1] * w;
    }
  }

  // ---------------------------------------------------------------------------
  // The greedy choice: from the highest denomination down, as many as are held and fit.

  /** How often w can be taken off t. */
  function Fits(t: int, w: nat): nat
    requires w > 0
    decreases t, w
  {
    if t < w then 0 else 1 + Fits(t - w, w)
  }

  /** Exactly what fits stays within the amount. */
  lemma {:induction false} FitsIff(t: nat, w: nat, n: nat)
    requires w > 0
    ensures n <= Fits(t, w) <==> n * w <= t
  {
    if t < w {
      if n > 0 {
        MulMono(1, n, w, w);
      }
    } else if n > 0 {
      FitsIff(t - w, w, n - 1);
      assert n * w == (n - 1) * w + w;
    }
  }

  lemma {:induction false} FitsLeavesLess(t: nat, w: nat)
    requires w > 0
    ensures t - Fits(t, w) * w < w
  {
    if t >= w {
      FitsLeavesLess(t - w, w);
      assert Fits(t, w) * w == Fits(t - w, w) * w + w;
    }
  }

  lemma {:induction false} FitsMultiple(t: nat, w: nat)
    requires w > 0 && Multiple(t, w)
    ensures Fits(t, w) * w == t
  {
    if t >= w {
      FitsMultiple(t - w, w);
      assert Fits(t, w) * w == Fits(t - w, w) * w + w;
    }
  }

  function Greedy(v: seq<nat>, h: seq<nat>, t: int, i: nat): (x: seq<nat>)
    requires i <= |v| && i <= |h| && forall j :: 0 <= j < i ==> v[j] > 0
    ensures |x| == i && Within(x, h, i)
    decreases i, t
  {
    if i == 0 then []
    else
      var g := Min(h[i - 1], Fits(t, v[i - 1]));
      Greedy(v, h, t - g * v[i - 1], i - 1) + [g]
  }

  lemma GreedySplits(v: seq<nat>, h: seq<nat>, t: int, i: nat)
    requires 0 < i <= |v| && i <= |h| && forall j :: 0 <= j < i ==> v[j] > 0
    ensures var g := Min(h[i - 1], Fits(t, v[i - 1])); var rest := Greedy(v, h, t - g * v[i - 1], i - 1);
            && Total(v, Greedy(v, h, t, i), i) == Total(v, rest, i - 1) + g * v[i - 1]
            && Count(Greedy(v, h, t, i), i) == Count(rest, i - 1) + g
  {
    var g := Min(h[i - 1], Fits(t, v[i - 1]));
    var rest := Greedy(v, h, t - g * v[i - 1], i - 1);
    TotalPrefix(v, Greedy(v, h, t, i), rest, i - 1);
  }

  lemma {:induction false} GreedyBelow(v: seq<nat>, h: seq<nat>, t: nat, i: nat)
    requires i <= |v| && i <= |h| && forall j :: 0 <= j < i ==> v[j] > 0
    ensures Total(v, Greedy(v, h, t, i), i) <= t
    decreases i
  {
    if i > 0 {
      var g := Min(h[i - 1], Fits(t, v[i - 1]));
      FitsIff(t, v[i - 1], g);
      GreedySplits(v, h, t, i);
      GreedyBelow(v, h, t - g * v[i - 1], i - 1);
    }
  }

  /** An amount that all denominations divide is met exactly whenever there is enough in all. */
  lemma {:induction false} GreedyMeetsMultiple(v: seq<nat>, h: seq<nat>, t: nat, i: nat)
    requires Chain(v) && i <= |v| && i <= |h| && Total(v, h, i) >= t
    requires i > 0 ==> Multiple(t, v[i - 1])
    ensures Total(v, Greedy(v, h, t, i), i) == t
    decreases i
  {
    if i > 0 {
      var w := v[i - 1];
      var g := Min(h[i - 1], Fits(t, w));
      FitsIff(t, w, g);
      var rest := t - g * w;
      GreedySplits(v, h, t, i);
      MultipleOf(g, w);
      MultipleMinus(t, g * w, w);
      FitsMultiple(t, w);
      if i > 1 {
        ChainDivides(v, i - 2, i - 1);
        MultipleTransitive(rest, w, v[i - 2]);
      }
      GreedyMeetsMultiple(v, h, rest, i - 1);
    }
  }

  /** A choice of coins that leaves out some highest coins can trade smaller ones for them. */
  lemma Exchange(v: seq<nat>, x: seq<nat>, i: nat, d: nat) returns (y: seq<nat>)
    requires Chain(v) && 0 < i <= |v| && i - 1 <= |x| && Total(v, x, i - 1) >= d * v[i - 1]
    ensures |y| == i - 1 && Within(y, x, i - 1)
    ensures Total(v, y, i - 1) == Total(v, x, i - 1) - d * v[i - 1]
    ensures Count(y, i - 1) + d <= Count(x, i - 1)
  {
    var w := v[i - 1];
    MultipleOf(d, w);
    if i > 1 {
      ChainDivides(v, i - 2, i - 1);
      MultipleTransitive(d * w, w, v[i - 2]);
    }
    GreedyMeetsMultiple(v, x, d * w, i - 1);
    var traded := Greedy(v, x, d * w, i - 1);
    TotalMinus(v, x, traded, i - 1);
    y := Minus(x, traded, i - 1);
    forall j | 0 <= j < i - 1 ensures v[j] <= w {
      ChainDivides(v, j, i - 1);
    }
    SmallerCoinsAreMore(v, traded, i - 1, w);
    Cancel(d, Count(traded, i - 1), w);
  }

  /** If any choice of held coins meets the amount, the greedy one does, with no more coins. */
  lemma {:induction false} GreedyIsOptimal(v: seq<nat>, h: seq<nat>, t: nat, i: nat, x: seq<nat>)
    requires Chain(v) && i <= |v| && i <= |h| && i <= |x| && Within(x, h, i) && Total(v, x, i) == t
    ensures Total(v, Greedy(v, h, t, i), i) == t
    ensures Count(Greedy(v, h, t, i), i) <= Count(x, i)
    decreases i
  {
    if i > 0 {
      var w := v[i - 1];
      var g := Min(h[i - 1], Fits(t, w));
      FitsIff(t, w, g);
      FitsIff(t, w, x[i - 1]);
      GreedySplits(v, h, t, i);
      var d := g - x[i - 1];
      Distribute(g, x[i - 1], w);
      var y := Exchange(v, x, i, d);
      GreedyIsOptimal(v, h, t - g * w, i - 1, y);
    }
  }

  /** A denomination the greedy choice did not use up is more than what is left over. */
  lemma {:induction false} GreedyLeavesLess(v: seq<nat>, h: seq<nat>, t: nat, i: nat, j: nat)
    requires Chain(v) && j < i <= |v| && i <= |h| && Greedy(v, h, t, i)[j] < h[j]
    ensures t - Total(v, Greedy(v, h, t, i), i) < v[j]
    decreases i
  {
    var w := v[i - 1];
    var g := Min(h[i - 1], Fits(t, w));
    FitsIff(t, w, g);
    GreedySplits(v, h, t, i);
    if j == i - 1 {
      FitsLeavesLess(t, w);
    } else {
      GreedyLeavesLess(v, h, t - g * w, i - 1, j);
    }
  }

  // ---------------------------------------------------------------------------
  // Choices that meet an amount, and change.

  /** Some choice of held coins is worth exactly t. */
  ghost predicate Exact(v: seq<nat>, h: seq<nat>, t: int)
    requires |h| == |v|
  {
    exists x: seq<nat> :: |x| == |v| && Within(x, h, |v|) && Total(v, x, |v|) == t
  }

  lemma GreedyIffExact(v: seq<nat>, h: seq<nat>, t: int)
    requires Chain(v) && |h| == |v|
    ensures Total(v, Greedy(v, h, t, |v|), |v|) == t <==> Exact(v, h, t)
  {
    if Exact(v, h, t) {
      var x :| |x| == |v| && Within(x, h, |v|) && Total(v, x, |v|) == t;
      GreedyIsOptimal(v, h, t, |v|, x);
    }
  }

  /** The greedy choice without limits. */
  function Change(v: seq<nat>, t: int, i: nat): (x: seq<nat>)
    requires i <= |v| && forall j :: 0 <= j < i ==> v[j] > 0
    ensures |x| == i
    decreases i, t
  {
    if i == 0 then []
    else
      var g := Fits(t, v[i - 1]);
      Change(v, t - g * v[i - 1], i - 1) + [g]
  }

  lemma ChangeSplits(v: seq<nat>, t: int, i: nat)
    requires 0 < i <= |v| && forall j :: 0 <= j < i ==> v[j] > 0
    ensures var g := Fits(t, v[i - 1]); var rest := Change(v, t - g * v[i - 1], i - 1);
            && Total(v, Change(v, t, i), i) == Total(v, rest, i - 1) + g * v[i - 1]
            && Count(Change(v, t, i), i) == Count(rest, i - 1) + g
  {
    var g := Fits(t, v[i - 1]);
    TotalPrefix(v, Change(v, t, i), Change(v, t - g * v[i - 1], i - 1), i - 1);
  }

  /** Change meets every multiple of the smallest denomination. */
  lemma {:induction false} ChangeMeets(v: seq<nat>, t: nat, i: nat)
    requires Chain(v) && 0 < i <= |v| && Multiple(t, v[0])
    ensures Total(v, Change(v, t, i), i) == t
    decreases i
  {
    var w := v[i - 1];
    var g := Fits(t, w);
    FitsIff(t, w, g);
    ChangeSplits(v, t, i);
    if i == 1 {
      FitsMultiple(t, w);
    } else {
      ChainDivides(v, 0, i - 1);
      MultipleOf(g, w);
      MultipleTransitive(g * w, w, v[0]);
      MultipleMinus(t, g * w, v[0]);
      ChangeMeets(v, t - g * w, i - 1);
    }
  }

  lemma {:induction false} NoChange(v: seq<nat>, t: int, i: nat)
    requires Chain(v) && i <= |v| && t <= 0
    ensures Count(Change(v, t, i), i) == 0
    decreases i
  {
    if i > 0 {
      NoChange(v, t, i - 1);
      ChangeSplits(v, t, i);
    }
  }

  lemma {:induction false} CountPositive(v: seq<nat>, x: seq<nat>, i: nat)
    requires i <= |v| && i <= |x|
    ensures Total(v, x, i) > 0 ==> Count(x, i) > 0
  {
    if i > 0 {
      CountPositive(v, x, i - 1);
    }
  }

  /** Some change for a positive multiple of the smallest denomination, none for nothing. */
  lemma ChangeCountPositive(v: seq<nat>, t: nat)
    requires Chain(v) && Multiple(t, v[0])
    ensures Count(Change(v, t, |v|), |v|) > 0 <==> t > 0
  {
    ChangeMeets(v, t, |v|);
    CountPositive(v, Change(v, t, |v|), |v|);
    if t == 0 {
      NoChange(v, t, |v|);
    }
  }

  lemma {:induction false} ChangeIsGreedy(v: seq<nat>, h: seq<nat>, t: nat, i: nat)
    requires Chain(v) && i <= |v| && i <= |h| && forall j :: 0 <= j < i ==> h[j] >= t
    ensures Greedy(v, h, t, i) == Change(v, t, i)
    decreases i
  {
    if i > 0 {
      var w := v[i - 1];
      var g := Fits(t, w);
      FitsIff(t, w, g);
      assert g <= t by {
        MulMono(g, g, 1, w);
      }
      ChangeIsGreedy(v, h, t - g * w, i - 1);
    }
  }

  lemma {:induction false} TotalAtLeast(v: seq<nat>, x: seq<nat>, i: nat, j: nat)
    requires j < i <= |v| && i <= |x| && v[j] > 0
    ensures x[j] <= Total(v, x, i)
  {
    if j == i - 1 {
      MulMono(x[j], x[j], 1, v[j]);
    } else {
      TotalAtLeast(v, x, i - 1, j);
    }
  }

  /** No other change for the same amount has fewer coins. */
  lemma ChangeIsFewest(v: seq<nat>, x: seq<nat>)
    requires Chain(v) && |x| == |v|
    ensures Count(Change(v, Total(v, x, |v|), |v|), |v|) <= Count(x, |v|)
  {
    var t := Total(v, x, |v|);
    var h := seq(|v|, j => t);
    forall j | 0 <= j < |v| ensures x[j] <= h[j] {
      TotalAtLeast(v, x, |v|, j);
    }
    GreedyIsOptimal(v, h, t, |v|, x);
    ChangeIsGreedy(v, h, t, |v|);
  }
}
