/**
 The wallet's coin selection (src/denomination_functions.cpp): spending exactly if some
 held coins allow it, and otherwise overspending with as little change as it can find.
 A denomination is its position in the list; -1 is ZQ_ERROR.
 */
module DenominationChoice {
  import opened Radix
  import opened Denominations

  function None(n: nat): seq<nat> {
    seq(n, i => 0)
  }

  lemma {:induction false} NoneIsNothing(v: seq<nat>, x: seq<nat>, i: nat)
    requires i <= |v| && i <= |x| && forall j :: 0 <= j < i ==> x[j] == 0
    ensures Total(v, x, i) == 0 && Count(x, i) == 0
  {
    if i > 0 {
      NoneIsNothing(v, x, i - 1);
    }
  }

  /** One more coin of denomination k. */
  lemma {:induction false} OneMore(v: seq<nat>, x: seq<nat>, i: nat, k: nat)
    requires k < i <= |v| && i <= |x|
    ensures Total(v, x[k := x[k] + 1], i) == Total(v, x, i) + v[k]
    ensures Count(x[k := x[k] + 1], i) == Count(x, i) + 1
  {
    if k == i - 1 {
      TotalPrefix(v, x[k := x[k] + 1], x, k);
      assert (x[k] + 1) * v[k] == x[k] * v[k] + v[k];
    } else {
      OneMore(v, x, i - 1, k);
    }
  }

  lemma {:induction false} TotalIsMultiple(v: seq<nat>, x: seq<nat>, i: nat)
    requires Chain(v) && i <= |v| && i <= |x|
    ensures Multiple(Total(v, x, i), v[0])
  {
    if i > 0 {
      TotalIsMultiple(v, x, i - 1);
      ChainDivides(v, 0, i - 1);
      MultipleOf(x[i - 1], v[i - 1]);
      MultipleTransitive(x[i - 1] * v[i - 1], v[i - 1], v[0]);
      MultiplePlus(Total(v, x, i - 1), x[i - 1] * v[i - 1], v[0]);
    }
  }

  // ---------------------------------------------------------------------------
  // getSpendCoins and getChange.

  /** Take coins of one denomination while they fit and are held. */
  method Take(start: int, nValue: nat, limit: nat) returns (n: nat, nRemainingValue: int)
    requires nValue > 0
    ensures n == Min(limit, Fits(start, nValue)) && nRemainingValue == start - n * nValue
  {
    n, nRemainingValue := 0, start;
    while nRemainingValue >= nValue && n < limit
      invariant n <= limit && nRemainingValue == start - n * nValue
      invariant Fits(start, nValue) == n + Fits(nRemainingValue, nValue)
      decreases limit - n
    {
      n := n + 1;
      nRemainingValue := nRemainingValue - nValue;
    }
  }

  /** The loop of getSpendCoins and of the first stage of minimizeChange, from denomination top - 1 down. */
  method TakeGreedily(v: seq<nat>, target: int, held: seq<nat>, top: nat) returns (used: seq<nat>, nRemainingValue: int)
    requires Chain(v) && top <= |v| == |held|
    ensures used == Greedy(v, held, target, top) && nRemainingValue == target - Total(v, used, top)
  {
    used := [];
    nRemainingValue := target;
    ghost var x := Greedy(v, held, target, top);
    var i := top;
    while i > 0
      invariant 0 <= i <= top && |used| == top - i
      invariant x == Greedy(v, held, nRemainingValue, i) + used
      invariant nRemainingValue - Total(v, Greedy(v, held, nRemainingValue, i), i) == target - Total(v, x, top)
    {
      i := i - 1;
      GreedySplits(v, held, nRemainingValue, i + 1);
      var n, left := Take(nRemainingValue, v[i], held[i]);
      Regroup(Greedy(v, held, left, i), n, used);
      used := [n] + used;
      nRemainingValue := left;
    }
  }

  lemma Regroup(x: seq<nat>, n: nat, tail: seq<nat>)
    ensures x + [n] + tail == x + ([n] + tail)
  {
  }

  method GetSpendCoins(v: seq<nat>, nValueTarget: int, held: seq<nat>) returns (mapUsed: seq<nat>)
    requires Chain(v) && |held| == |v|
    ensures mapUsed == Greedy(v, held, nValueTarget, |v|)
  {
    var left;
    mapUsed, left := TakeGreedily(v, nValueTarget, held, |v|);
  }

  /** Take coins of one denomination while they fit. */
  method TakeAll(start: int, nValue: nat) returns (n: nat, nRemainingValue: int)
    requires nValue > 0
    ensures n == Fits(start, nValue) && nRemainingValue == start - n * nValue
  {
    n, nRemainingValue := 0, start;
    while nRemainingValue >= nValue
      invariant nRemainingValue == start - n * nValue && Fits(start, nValue) == n + Fits(nRemainingValue, nValue)
    {
      n := n + 1;
      nRemainingValue := nRemainingValue - nValue;
    }
  }

  method GetChange(v: seq<nat>, nValueTarget: int) returns (mapChange: seq<nat>)
    requires Chain(v)
    ensures mapChange == Change(v, nValueTarget, |v|)
  {
    mapChange := None(|v|);
    var nRemainingValue := nValueTarget;
    var i := |v|;
    while i > 0
      invariant 0 <= i <= |v| == |mapChange|
      invariant Change(v, nValueTarget, |v|) == Change(v, nRemainingValue, i) + mapChange[i..]
    {
      i := i - 1;
      var n, left := TakeAll(nRemainingValue, v[i]);
      ghost var tail := mapChange[i + 1..];
      mapChange := mapChange[i := n];
      assert mapChange[i..] == [n] + tail;
      nRemainingValue := left;
    }
  }

  method GetNumberOfCoinsUsed(x: seq<nat>) returns (n: nat)
    ensures n == Count(x, |x|)
  {
    n := 0;
    for i := 0 to |x|
      invariant n == Count(x, i)
    {
      n := n + x[i];
    }
  }

  // ---------------------------------------------------------------------------
  // minimizeChange.

  /**
   The first stage: the greedy choice that stays below the target, from denomination `top`
   down.  `remaining > value` is `remaining - 1 >= value`.
   */
  method FillBelow(v: seq<nat>, top: int, nValueTarget: nat, held: seq<nat>) returns (used: seq<nat>, nRemainingValue: int)
    requires Chain(v) && |held| == |v| && -1 <= top < |v| && nValueTarget > 0
    ensures used == Greedy(v, held, nValueTarget - 1, top + 1) + None(|v| - top - 1)
    ensures nRemainingValue == nValueTarget - Total(v, used, |v|) && nRemainingValue > 0
  {
    var below, left := TakeGreedily(v, nValueTarget - 1, held, top + 1);
    used, nRemainingValue := below + None(|v| - top - 1), left + 1;
    FilledTotal(v, below, used, top + 1);
    GreedyBelow(v, held, nValueTarget - 1, top + 1);
  }

  lemma {:induction false} FilledTotal(v: seq<nat>, x: seq<nat>, y: seq<nat>, i: nat)
    requires |x| == i <= |v| && y == x + None(|v| - i)
    ensures Total(v, y, |v|) == Total(v, x, i)
  {
    TotalPrefix(v, y, x, i);
    TailIsNothing(v, y, i, |v|);
  }

  lemma {:induction false} TailIsNothing(v: seq<nat>, y: seq<nat>, i: nat, n: nat)
    requires i <= n <= |v| && n <= |y| && forall j :: i <= j < n ==> y[j] == 0
    ensures Total(v, y, n) == Total(v, y, i)
  {
    if i < n {
      TailIsNothing(v, y, i, n - 1);
    }
  }

  predicate CanAdd(v: seq<nat>, used: seq<nat>, held: seq<nat>, r: int, k: nat)
    requires |used| == |held| == |v|
  {
    k < |v| && v[k] > r && used[k] < held[k]
  }

  /** `k` is the smallest coin above the remainder that is still held, or -1. */
  ghost predicate LeastAddable(v: seq<nat>, used: seq<nat>, held: seq<nat>, r: int, k: int)
    requires |used| == |held| == |v|
  {
    && -1 <= k < |v| && (k >= 0 ==> CanAdd(v, used, held, r, k))
    && forall j: nat :: CanAdd(v, used, held, r, j) ==> 0 <= k <= j
  }

  function WithCoin(used: seq<nat>, k: int): seq<nat>
    requires -1 <= k < |used|
  {
    if k < 0 then used else used[k := used[k] + 1]
  }

  /** The second stage: one coin that is just bigger than what remains, if there is one. */
  method AddOneAbove(v: seq<nat>, used: seq<nat>, held: seq<nat>, r: int) returns (used': seq<nat>, r': int, ghost added: int)
    requires |used| == |held| == |v| && r > 0 && Within(used, held, |v|)
    ensures |used'| == |v| && Within(used', held, |v|)
    ensures (exists k: nat :: CanAdd(v, used, held, r, k)) ==> r' < 0
    ensures r' < 0 || (r' == r && used' == used)
    ensures Total(v, used', |v|) - r == Total(v, used, |v|) - r'
    ensures LeastAddable(v, used, held, r, added) && used' == WithCoin(used, added)
  {
    used', r', added := used, r, -1;
    for i := 0 to |v|
      invariant used' == used && r' == r && added == -1
      invariant forall k: nat :: k < i ==> !CanAdd(v, used, held, r, k)
    {
      if v[i] > r' && used'[i] < held[i] {
        OneMore(v, used, |v|, i);
        used' := used'[i := used'[i] + 1];
        r' := r' - v[i];
        added := i;
      }
      if r' < 0 {
        break;
      }
    }
  }

  function Overlap(x: seq<nat>, y: seq<nat>): (r: seq<nat>)
    requires |x| == |y|
    ensures |r| == |x| && Within(r, x, |x|) && Within(r, y, |y|)
  {
    seq(|x|, j requires 0 <= j < |x| => Min(x[j], y[j]))
  }

  /** One denomination of the third stage. */
  method Cancel1(x: nat, y: nat) returns (x': nat, y': nat)
    ensures x' == x - Min(x, y) && y' == y - Min(x, y)
  {
    x', y' := x, y;
    while x' > 0 && y' > 0
      invariant x - x' == y - y' && 0 <= x' <= x && 0 <= y' <= y
    {
      x', y' := x' - 1, y' - 1;
    }
  }

  /** The third stage: coins that would come back as change are not spent. */
  method RemoveOverlap(v: seq<nat>, used: seq<nat>, change: seq<nat>) returns (used': seq<nat>)
    requires |used| == |change| == |v|
    ensures used' == Minus(used, Overlap(used, change), |v|)
    ensures Total(v, used', |v|) == Total(v, used, |v|) - Total(v, Overlap(used, change), |v|)
    ensures Total(v, Overlap(used, change), |v|) <= Total(v, change, |v|)
  {
    used' := used;
    for i := 0 to |v|
      invariant |used'| == |v| && used'[i..] == used[i..]
      invariant forall j :: 0 <= j < i ==> used'[j] == used[j] - Min(used[j], change[j])
    {
      var left, back := Cancel1(used[i], change[i]);
      assert used'[i..][1..] == used[i..][1..];
      used' := used'[i := left];
    }
    TotalMinus(v, used, Overlap(used, change), |v|);
    TotalMonotone(v, Overlap(used, change), change, |v|);
  }

  /** A coin above `top` alone, or all coins up to it together, exceed the target. */
  ghost predicate Exceeds(v: seq<nat>, held: seq<nat>, top: int, t: nat)
    requires |held| == |v| && -1 <= top < |v|
  {
    (exists k :: top < k < |v| && held[k] > 0 && v[k] > t) || Total(v, held, top + 1) > t
  }

  lemma OneMoreIsExact(v: seq<nat>, used: seq<nat>, held: seq<nat>, j: nat, t: nat)
    requires |used| == |held| == |v| && j < |v| && Within(used, held, |v|) && used[j] < held[j]
    requires Total(v, used, |v|) + v[j] == t
    ensures Exact(v, held, t)
  {
    OneMore(v, used, |v|, j);
    assert Within(used[j := used[j] + 1], held, |v|);
  }

  /** If the coins exceed the target and cannot meet it, the second stage finds a coin. */
  lemma SomeCoinAbove(v: seq<nat>, held: seq<nat>, top: int, t: nat, used: seq<nat>, r: int)
    requires Chain(v) && |held| == |v| && -1 <= top < |v| && t > 0
    requires used == Greedy(v, held, t - 1, top + 1) + None(|v| - top - 1) && r == t - Total(v, used, |v|) > 0
    requires Exceeds(v, held, top, t) && !Exact(v, held, t)
    ensures exists k: nat :: CanAdd(v, used, held, r, k)
  {
    if k :| top < k < |v| && held[k] > 0 && v[k] > t {
      assert CanAdd(v, used, held, r, k);
    } else {
      var j := CoinLeftBelow(v, held, top, t, used, r);
      if r == v[j] {
        OneMoreIsExact(v, used, held, j, t);
      } else {
        assert CanAdd(v, used, held, r, j);
      }
    }
  }

  lemma CoinLeftBelow(v: seq<nat>, held: seq<nat>, top: int, t: nat, used: seq<nat>, r: int) returns (j: nat)
    requires Chain(v) && |held| == |v| && -1 <= top < |v| && t > 0 && Total(v, held, top + 1) > t
    requires used == Greedy(v, held, t - 1, top + 1) + None(|v| - top - 1) && r == t - Total(v, used, |v|) > 0
    ensures j < |v| && used[j] < held[j] && r <= v[j]
  {
    var below := Greedy(v, held, t - 1, top + 1);
    FilledTotal(v, below, used, top + 1);
    j := SomeCoinLeft(v, below, held, top + 1);
    GreedyLeavesLess(v, held, t - 1, top + 1, j);
  }

  lemma {:induction false} SomeCoinLeft(v: seq<nat>, x: seq<nat>, h: seq<nat>, i: nat) returns (j: nat)
    requires i <= |v| && i <= |x| && i <= |h| && Within(x, h, i) && Total(v, x, i) < Total(v, h, i)
    ensures j < i && x[j] < h[j]
  {
    if x[i - 1] < h[i - 1] {
      j := i - 1;
    } else {
      j := SomeCoinLeft(v, x, h, i - 1);
    }
  }

  /** The coins exceed the target t, and what is too much is exactly n change coins. */
  ghost predicate Overpays(v: seq<nat>, held: seq<nat>, t: nat, used: seq<nat>, n: nat)
    requires Chain(v) && |held| == |v|
  {
    && |used| == |v| && Within(used, held, |v|)
    && Total(v, used, |v|) > t
    && Count(Change(v, Total(v, used, |v|) - t, |v|), |v|) == n
  }

  /** The greedy choice strictly below the target, from denomination `top` down. */
  function Below(v: seq<nat>, held: seq<nat>, top: int, t: nat): (x: seq<nat>)
    requires Chain(v) && |held| == |v| && -1 <= top < |v| && t > 0
    ensures |x| == |v|
  {
    Greedy(v, held, t - 1, top + 1) + None(|v| - top - 1)
  }

  /** `k` is the coin that is added to it. */
  ghost predicate Adds(v: seq<nat>, held: seq<nat>, top: int, t: nat, k: int)
    requires Chain(v) && |held| == |v| && -1 <= top < |v| && t > 0
  {
    var below := Below(v, held, top, t);
    LeastAddable(v, below, held, t - Total(v, below, |v|), k)
  }

  /** What coins are worth without those that would come back as change. */
  function Netted(v: seq<nat>, used: seq<nat>, t: nat): int
    requires Chain(v) && |used| == |v|
  {
    var total := Total(v, used, |v|);
    total - Total(v, Overlap(used, Change(v, total - t, |v|)), |v|)
  }

  /** The alternative of minimizeChange: a is the worth of the coins below the target and coin k, netted. */
  ghost predicate IsAlternative(v: seq<nat>, held: seq<nat>, top: int, t: nat, k: int, a: nat)
    requires Chain(v) && |held| == |v| && -1 <= top < |v| && t > 0
  {
    Adds(v, held, top, t, k) && -1 <= k < |v| && a == Netted(v, WithCoin(Below(v, held, top, t), k), t)
  }

  /** The first two stages; r is the target minus what was chosen. */
  method Overshoot(v: seq<nat>, top: int, nValueTarget: nat, held: seq<nat>) returns (used: seq<nat>, r: int, ghost added: int)
    requires Chain(v) && |held| == |v| && -1 <= top < |v| && nValueTarget > 0
    ensures |used| == |v| && Within(used, held, |v|) && Total(v, used, |v|) == nValueTarget - r
    ensures Adds(v, held, top, nValueTarget, added) && used == WithCoin(Below(v, held, top, nValueTarget), added)
    ensures Exceeds(v, held, top, nValueTarget) && !Exact(v, held, nValueTarget) ==> r < 0
  {
    var below, left := FillBelow(v, top, nValueTarget, held);
    SomeCoinIsAdded(v, held, top, nValueTarget, below, left);
    used, r, added := AddOneAbove(v, below, held, left);
  }

  lemma SomeCoinIsAdded(v: seq<nat>, held: seq<nat>, top: int, t: nat, below: seq<nat>, r: int)
    requires Chain(v) && |held| == |v| && -1 <= top < |v| && t > 0
    requires below == Below(v, held, top, t) && r == t - Total(v, below, |v|) > 0
    ensures Exceeds(v, held, top, t) && !Exact(v, held, t) ==> exists k: nat :: CanAdd(v, below, held, r, k)
  {
    if Exceeds(v, held, top, t) && !Exact(v, held, t) {
      SomeCoinAbove(v, held, top, t, below, r);
    }
  }

  /** What is too much, in coins, is worth exactly what is too much. */
  lemma ExcessIsChange(v: seq<nat>, used: seq<nat>, t: nat)
    requires Chain(v) && |used| == |v| && Multiple(t, v[0]) && Total(v, used, |v|) >= t
    ensures Multiple(Total(v, used, |v|) - t, v[0])
    ensures Total(v, Change(v, Total(v, used, |v|) - t, |v|), |v|) == Total(v, used, |v|) - t
  {
    TotalIsMultiple(v, used, |v|);
    MultipleMinus(Total(v, used, |v|), t, v[0]);
    ChangeMeets(v, Total(v, used, |v|) - t, |v|);
  }

  lemma WithinIsExact(v: seq<nat>, x: seq<nat>, y: seq<nat>, held: seq<nat>)
    requires |x| == |y| == |held| == |v| && Within(x, y, |v|) && Within(y, held, |v|)
    ensures Within(x, held, |v|) && Exact(v, held, Total(v, x, |v|))
  {
  }

  /** The amount the first three stages of minimizeChange arrive at; some held coins are worth exactly that. */
  method AlternativeAmount(v: seq<nat>, top: int, nValueTarget: nat, held: seq<nat>) returns (nAmountUsed: nat, ghost added: int)
    requires Chain(v) && |held| == |v| && -1 <= top < |v| && nValueTarget > 0 && Multiple(nValueTarget, v[0])
    ensures Exact(v, held, nAmountUsed) && IsAlternative(v, held, top, nValueTarget, added, nAmountUsed)
    ensures Exceeds(v, held, top, nValueTarget) && !Exact(v, held, nValueTarget) ==> nAmountUsed > nValueTarget
  {
    var used, r;
    used, r, added := Overshoot(v, top, nValueTarget, held);
    var total := Worth(v, used);
    nAmountUsed := NetAmount(v, used, total, nValueTarget, held);
  }

  /** The third stage, and the amount it leaves. */
  method NetAmount(v: seq<nat>, used: seq<nat>, total: nat, t: nat, ghost held: seq<nat>) returns (nAmountUsed: nat)
    requires Chain(v) && |used| == |held| == |v| && total == Total(v, used, |v|) && Multiple(t, v[0]) && Within(used, held, |v|)
    ensures nAmountUsed == Netted(v, used, t) && Exact(v, held, nAmountUsed) && (total > t ==> nAmountUsed >= t)
  {
    var change := GetChange(v, total - t);
    var spent := RemoveOverlap(v, used, change);
    nAmountUsed := Worth(v, spent);
    WithinIsExact(v, spent, used, held);
    if total >= t {
      ExcessIsChange(v, used, t);
    }
  }

  /** AmountUsed, which the source keeps up to date as it adds and removes coins. */
  method Worth(v: seq<nat>, x: seq<nat>) returns (n: nat)
    requires |x| == |v|
    ensures n == Total(v, x, |v|)
  {
    n := 0;
    for i := 0 to |v|
      invariant n == Total(v, x, i)
    {
      n := n + x[i] * v[i];
    }
  }

  /** The change coins for paying t with coins worth a. */
  function ChangeCoins(v: seq<nat>, a: int, t: nat): nat
    requires Chain(v)
  {
    Count(Change(v, a - t, |v|), |v|)
  }

  /** Some choice of at most `limit` held coins is worth exactly a. */
  ghost predicate Affordable(v: seq<nat>, held: seq<nat>, a: nat, limit: int)
    requires |held| == |v|
  {
    exists x: seq<nat> :: |x| == |v| && Within(x, held, |v|) && Total(v, x, |v|) == a && Count(x, |v|) <= limit
  }

  /** The fewer change coins: those of a first choice, or those of an alternative a that is affordable. */
  ghost function FewerChange(v: seq<nat>, held: seq<nat>, t: nat, limit: int, first: nat, a: nat): nat
    requires Chain(v) && |held| == |v|
  {
    if Affordable(v, held, a, limit) then Min(ChangeCoins(v, a, t), first) else first
  }

  lemma FewestAfford(v: seq<nat>, held: seq<nat>, a: nat, limit: int, used: seq<nat>)
    requires |held| == |v| && FewestFor(v, held, a, used)
    ensures Affordable(v, held, a, limit) <==> Count(used, |v|) <= limit
  {
  }

  /** The greedy choice for an amount that can be met. */
  method FewestCoins(v: seq<nat>, held: seq<nat>, a: nat, ghost limit: int) returns (used: seq<nat>, nCoinCount: nat)
    requires Chain(v) && |held| == |v| && Exact(v, held, a)
    ensures FewestFor(v, held, a, used) && used == Greedy(v, held, a, |v|) && nCoinCount == Count(used, |v|)
    ensures Affordable(v, held, a, limit) <==> nCoinCount <= limit
  {
    used := GetSpendCoins(v, a, held);
    GreedyIsFewest(v, held, a);
    FewestAfford(v, held, a, limit, used);
    nCoinCount := GetNumberOfCoinsUsed(used);
  }

  lemma OverpaysByChange(v: seq<nat>, held: seq<nat>, t: nat, used: seq<nat>, a: nat, n: nat)
    requires Chain(v) && |used| == |held| == |v| && Within(used, held, |v|) && Total(v, used, |v|) == a
    requires n == ChangeCoins(v, a, t) && (n > 0 <==> a > t)
    ensures n > 0 ==> Overpays(v, held, t, used, n)
  {
  }

  /** Change for an amount, and when there is none. */
  method CountChange(v: seq<nat>, a: nat, t: nat) returns (n: nat)
    requires Chain(v) && Multiple(a, v[0]) && Multiple(t, v[0])
    ensures n == ChangeCoins(v, a, t) && (n > 0 <==> a > t)
  {
    var change := GetChange(v, a - t);
    n := GetNumberOfCoinsUsed(change);
    if a <= t {
      NoChange(v, a - t, |v|);
    } else {
      MultipleMinus(a, t, v[0]);
      ChangeCountPositive(v, a - t);
    }
  }

  /** The saved choice with its nChangeCount change coins is kept unless the alternative has fewer. */
  method MinimizeChange(v: seq<nat>, nMaxNumberOfSpends: int, nChangeCount: nat, top: int, nValueTarget: nat,
                        held: seq<nat>, saved: seq<nat>) returns (n: nat, used: seq<nat>, ghost plan: Plan)
    requires Chain(v) && |held| == |v| && -1 <= top < |v| && nValueTarget > 0 && Multiple(nValueTarget, v[0])
    ensures plan.first == saved && plan.change == nChangeCount && plan.top == top
    ensures Follows(v, held, nValueTarget, nMaxNumberOfSpends, plan, n, used)
    ensures (n == nChangeCount && used == saved) ||
            (n < nChangeCount && |used| == |v| && used == Greedy(v, held, Total(v, used, |v|), |v|) && Count(used, |v|) <= nMaxNumberOfSpends)
    ensures n < nChangeCount && n > 0 ==> Overpays(v, held, nValueTarget, used, n)
    ensures nChangeCount > 0 && Exceeds(v, held, top, nValueTarget) && !Exact(v, held, nValueTarget) ==> n > 0
  {
    var nAmountUsed;
    ghost var added;
    nAmountUsed, added := AlternativeAmount(v, top, nValueTarget, held);
    plan := Plan(saved, nChangeCount, top, added, nAmountUsed);
    var nCoinCount;
    used, nCoinCount := FewestCoins(v, held, nAmountUsed, nMaxNumberOfSpends);
    TotalIsMultiple(v, used, |v|);
    var nAltChangeCount := CountChange(v, nAmountUsed, nValueTarget);
    if nAltChangeCount < nChangeCount && nCoinCount <= nMaxNumberOfSpends {
      n := nAltChangeCount;
      OverpaysByChange(v, held, nValueTarget, used, nAmountUsed, n);
    } else {
      n, used := nChangeCount, saved;
    }
  }

  // ---------------------------------------------------------------------------
  // calculateChange.

  /** The smallest held denomination above the target, or -1. */
  method MinDenomOverTarget(v: seq<nat>, nValueTarget: nat, held: seq<nat>) returns (d: int)
    requires |held| == |v|
    ensures -1 <= d < |v|
    ensures d >= 0 ==> v[d] > nValueTarget && held[d] > 0
    ensures forall j :: 0 <= j < (if d < 0 then |v| else d) ==> v[j] <= nValueTarget || held[j] == 0
  {
    d := -1;
    for i := 0 to |v|
      invariant d == -1 && forall j :: 0 <= j < i ==> v[j] <= nValueTarget || held[j] == 0
    {
      if nValueTarget < v[i] && held[i] > 0 {
        return i;
      }
    }
  }

  /** `d` is the highest held denomination below `limit`, or -1. */
  predicate HighestHeld(held: seq<nat>, limit: nat, d: int)
    requires limit <= |held|
  {
    -1 <= d < limit && (d >= 0 ==> held[d] > 0) && forall j :: d < j < limit ==> held[j] == 0
  }

  /** The smallest held coin above the target. */
  predicate LeastAbove(v: seq<nat>, held: seq<nat>, t: nat, k: nat)
    requires |held| == |v|
  {
    k < |v| && v[k] > t && held[k] > 0 && forall j :: 0 <= j < k ==> v[j] <= t || held[j] == 0
  }

  /** Coins from the highest down until the target is met, or all of them. */
  ghost predicate FromTop(v: seq<nat>, held: seq<nat>, t: nat, used: seq<nat>)
    requires |held| == |v|
  {
    && |used| == |v| && Within(used, held, |v|)
    && (Total(v, held, |v|) < t ==> used == held)
    && (Total(v, held, |v|) >= t ==>
          exists k: nat :: k < |v| && TopFilled(used, held, k) && used[k] > 0 && t <= Total(v, used, |v|) < t + v[k])
  }

  /** What calculateChange starts from: one coin above the target, or coins from the top; and where the alternative starts. */
  ghost predicate FirstChoice(v: seq<nat>, held: seq<nat>, t: nat, first: seq<nat>, top: int)
    requires |held| == |v|
  {
    if exists k: nat :: LeastAbove(v, held, t, k)
    then exists k: nat :: LeastAbove(v, held, t, k) && first == None(|v|)[k := 1] && HighestHeld(held, k, top)
    else FromTop(v, held, t, first) && HighestHeld(held, |v|, top)
  }

  /** A first choice and its change coins; an alternative from denomination `top` down, with coin `added`, worth `alternative`. */
  datatype Plan = Plan(first: seq<nat>, change: nat, top: int, added: int, alternative: nat)

  datatype Clause = Alternative | FewerCoins | Chosen

  ghost predicate FollowsBy(v: seq<nat>, held: seq<nat>, t: nat, limit: int, plan: Plan, n: nat, used: seq<nat>, c: Clause)
    requires Chain(v) && |held| == |v| && t > 0 && -1 <= plan.top < |v|
  {
    match c
    case Alternative => IsAlternative(v, held, plan.top, t, plan.added, plan.alternative)
    case FewerCoins => n == FewerChange(v, held, t, limit, plan.change, plan.alternative)
    case Chosen => if n < plan.change then FewestFor(v, held, plan.alternative, used) else used == plan.first
  }

  /** The result has the fewer change coins of the two, with the fewest coins for the alternative. */
  ghost predicate Follows(v: seq<nat>, held: seq<nat>, t: nat, limit: int, plan: Plan, n: nat, used: seq<nat>)
    requires Chain(v) && |held| == |v| && t > 0 && -1 <= plan.top < |v|
  {
    forall c :: FollowsBy(v, held, t, limit, plan, n, used, c)
  }

  /** The highest held denomination below `limit`, or -1. */
  method HighestHeldBelow(held: seq<nat>, limit: nat) returns (d: int)
    requires limit <= |held|
    ensures -1 <= d < limit && (d >= 0 ==> held[d] > 0)
    ensures forall j :: d < j < limit ==> held[j] == 0
  {
    d := limit - 1;
    while d >= 0 && held[d] == 0
      invariant -1 <= d < limit && forall j :: d < j < limit ==> held[j] == 0
    {
      d := d - 1;
    }
  }

  lemma UnitTotal(v: seq<nat>, k: nat)
    requires k < |v|
    ensures Total(v, None(|v|)[k := 1], |v|) == v[k] && Count(None(|v|)[k := 1], |v|) == 1
  {
    NoneIsNothing(v, None(|v|), |v|);
    OneMore(v, None(|v|), |v|, k);
  }

  /** One denomination of the second way: coins while something remains and they are held. */
  method TakeUntilMet(start: int, nValue: nat, limit: nat) returns (n: nat, nRemainingValue: int)
    requires nValue > 0
    ensures n <= limit && nRemainingValue == start - n * nValue && (nRemainingValue > 0 ==> n == limit)
    ensures (start <= 0 ==> n == 0) && (n > 0 ==> nRemainingValue + nValue > 0)
  {
    n, nRemainingValue := 0, start;
    while nRemainingValue > 0 && n < limit
      invariant n <= limit && nRemainingValue == start - n * nValue
      invariant (start <= 0 ==> n == 0) && (n > 0 ==> nRemainingValue + nValue > 0)
      decreases limit - n
    {
      n := n + 1;
      nRemainingValue := nRemainingValue - nValue;
    }
  }

  lemma {:induction false} SetCount(v: seq<nat>, x: seq<nat>, i: nat, k: nat, n: nat)
    requires k < i <= |v| && i <= |x| && x[k] == 0
    ensures Total(v, x[k := n], i) == Total(v, x, i) + n * v[k]
  {
    if k == i - 1 {
      TotalPrefix(v, x[k := n], x, k);
    } else {
      SetCount(v, x, i - 1, k, n);
    }
  }

  lemma AllHeld(v: seq<nat>, x: seq<nat>, held: seq<nat>)
    requires |x| == |held| == |v| && forall j :: 0 <= j < |v| ==> x[j] == held[j]
    ensures x == held
  {
  }

  /** The second way: all coins from the highest down until the target is met. */
  method TakeFromTop(v: seq<nat>, nValueTarget: nat, held: seq<nat>) returns (used: seq<nat>, nRemainingValue: int)
    requires Chain(v) && |held| == |v|
    ensures |used| == |v| && Within(used, held, |v|) && nRemainingValue == nValueTarget - Total(v, used, |v|)
    ensures nRemainingValue > 0 ==> used == held
    ensures nValueTarget > 0 ==> FromTop(v, held, nValueTarget, used)
    ensures nValueTarget > 0 && nRemainingValue <= 0 ==> FewestReaching(v, held, nValueTarget, used)
  {
    used, nRemainingValue := None(|v|), nValueTarget;
    NoneIsNothing(v, used, |v|);
    var i := |v|;
    ghost var last := 0;
    while i > 0 && nRemainingValue >= 0
      invariant 0 <= i <= |v| == |used| && Within(used, held, |v|) && (forall j :: 0 <= j < i ==> used[j] == 0)
      invariant nRemainingValue == nValueTarget - Total(v, used, |v|)
      invariant nRemainingValue > 0 ==> forall j :: i <= j < |v| ==> used[j] == held[j]
      invariant nValueTarget > 0 && nRemainingValue <= 0 ==>
                  last < |v| && used[last] > 0 && TopFilled(used, held, last) && nRemainingValue + v[last] > 0
      decreases i
    {
      i := i - 1;
      var n, left := TakeUntilMet(nRemainingValue, v[i], held[i]);
      SetCount(v, used, |v|, i, n);
      if nRemainingValue > 0 {
        last := i;
      }
      used := used[i := n];
      nRemainingValue := left;
    }
    if nRemainingValue > 0 {
      AllHeld(v, used, held);
    } else if nValueTarget > 0 {
      LastCoinIsNeeded(v, held, nValueTarget, used, last);
      TotalMonotone(v, used, held, |v|);
    }
  }

  /** All coins above denomination k, and none below it. */
  predicate TopFilled(x: seq<nat>, held: seq<nat>, k: nat)
    requires |x| == |held|
  {
    (forall j :: k < j < |x| ==> x[j] == held[j]) && (forall j :: 0 <= j < k && j < |x| ==> x[j] == 0)
  }

  /** These coins reach t, and no fewer do. */
  ghost predicate FewestReaching(v: seq<nat>, held: seq<nat>, t: nat, used: seq<nat>)
    requires |used| == |held| == |v|
  {
    && Within(used, held, |v|) && Total(v, used, |v|) >= t
    && forall x: seq<nat> :: |x| == |v| && Within(x, held, |v|) && Total(v, x, |v|) >= t ==> Count(used, |v|) <= Count(x, |v|)
  }

  /** More of the coins at least as good as one of value w, and fewer of the others, is worth more. */
  lemma SideOfValue(x: nat, y: nat, v: nat, w: nat)
    requires (v >= w && x <= y) || (v <= w && x >= y)
    ensures x * v + y * w <= y * v + x * w
  {
    if v > w {
      MulMono(x, y, v - w, v - w);
      assert x * (v - w) == x * v - x * w && y * (v - w) == y * v - y * w;
    } else if v < w {
      MulMono(y, x, w - v, w - v);
      assert x * (w - v) == x * w - x * v && y * (w - v) == y * w - y * v;
    }
  }

  /** Compared with a choice from the top, measured against coins of value v[k]. */
  lemma {:induction false} TopIsMost(v: seq<nat>, held: seq<nat>, x: seq<nat>, y: seq<nat>, k: nat, i: nat)
    requires Chain(v) && |x| == |y| == |held| == |v| && k < |v| && i <= |v|
    requires Within(x, held, |v|) && TopFilled(y, held, k)
    ensures Total(v, x, i) + Count(y, i) * v[k] <= Total(v, y, i) + Count(x, i) * v[k]
  {
    if i > 0 {
      TopIsMost(v, held, x, y, k, i - 1);
      if i - 1 >= k {
        ChainDivides(v, k, i - 1);
      } else {
        ChainDivides(v, i - 1, k);
      }
      SideOfValue(x[i - 1], y[i - 1], v[i - 1], v[k]);
      CountTimes(x, i, v[k]);
      CountTimes(y, i, v[k]);
    }
  }

  lemma CountTimes(x: seq<nat>, i: nat, w: nat)
    requires 0 < i <= |x|
    ensures Count(x, i) * w == Count(x, i - 1) * w + x[i - 1] * w
  {
  }

  /** No choice of at most as many coins is worth more than one from the top. */
  lemma TopIsBest(v: seq<nat>, held: seq<nat>, x: seq<nat>, y: seq<nat>, k: nat)
    requires Chain(v) && |x| == |y| == |held| == |v| && k < |v|
    requires Within(x, held, |v|) && TopFilled(y, held, k) && Count(x, |v|) <= Count(y, |v|)
    ensures Total(v, x, |v|) <= Total(v, y, |v|)
  {
    TopIsMost(v, held, x, y, k, |v|);
    MulMono(Count(x, |v|), Count(y, |v|), v[k], v[k]);
  }

  /** A choice from the top that falls short without its last coin has the fewest coins. */
  lemma LastCoinIsNeeded(v: seq<nat>, held: seq<nat>, t: nat, used: seq<nat>, k: nat)
    requires Chain(v) && |used| == |held| == |v| && k < |v| && Within(used, held, |v|) && TopFilled(used, held, k)
    requires used[k] > 0 && t <= Total(v, used, |v|) < t + v[k]
    ensures FewestReaching(v, held, t, used)
  {
    var less := used[k := used[k] - 1];
    OneMore(v, less, |v|, k);
    assert less[k := less[k] + 1] == used;
    forall x: seq<nat> | |x| == |v| && Within(x, held, |v|) && Total(v, x, |v|) >= t
      ensures Count(used, |v|) <= Count(x, |v|)
    {
      if Count(x, |v|) < Count(used, |v|) {
        TopIsBest(v, held, x, less, k);
      }
    }
  }

  /** At most `limit` of the held coins exceed the target. */
  ghost predicate ExceedsWithin(v: seq<nat>, held: seq<nat>, t: nat, limit: int)
    requires |held| == |v|
  {
    exists x: seq<nat> :: |x| == |v| && Within(x, held, |v|) && Total(v, x, |v|) > t && Count(x, |v|) <= limit
  }

  /** The c largest coins of the first i denominations, or all if there are fewer: what a caller can look at. */
  function Largest(held: seq<nat>, c: nat, i: nat): (x: seq<nat>)
    requires i <= |held|
    ensures |x| == i && Within(x, held, i)
    decreases i
  {
    if i == 0 then []
    else
      var n := Min(held[i - 1], c);
      Largest(held, c - n, i - 1) + [n]
  }

  lemma {:induction false} LargestCount(held: seq<nat>, c: nat, i: nat)
    requires i <= |held|
    ensures Count(Largest(held, c, i), i) == Min(c, Count(held, i))
    decreases i
  {
    if i > 0 {
      var n := Min(held[i - 1], c);
      LargestCount(held, c - n, i - 1);
      CountOfPrefix(Largest(held, c - n, i - 1), [n], i - 1);
    }
  }

  lemma {:induction false} CountOfPrefix(x: seq<nat>, tail: seq<nat>, i: nat)
    requires i <= |x|
    ensures Count(x + tail, i) == Count(x, i)
  {
    if i > 0 {
      CountOfPrefix(x, tail, i - 1);
    }
  }

  lemma {:induction false} LargestOfNone(held: seq<nat>, i: nat)
    requires i <= |held|
    ensures forall j :: 0 <= j < i ==> Largest(held, 0, i)[j] == 0
  {
    if i > 0 {
      LargestOfNone(held, i - 1);
    }
  }

  lemma {:induction false} LargestIsTop(held: seq<nat>, c: nat, i: nat) returns (k: nat)
    requires 0 < i <= |held|
    ensures k < i && forall j :: k < j < i ==> Largest(held, c, i)[j] == held[j]
    ensures forall j :: 0 <= j < k ==> Largest(held, c, i)[j] == 0
    decreases i
  {
    k := i - 1;
    if c < held[i - 1] {
      LargestOfNone(held, i - 1);
    } else if i > 1 {
      k := LargestIsTop(held, c - held[i - 1], i - 1);
    }
  }

  lemma {:induction false} CountMonotone(x: seq<nat>, y: seq<nat>, i: nat)
    requires i <= |x| && i <= |y| && Within(x, y, i)
    ensures Count(x, i) <= Count(y, i)
  {
    if i > 0 {
      CountMonotone(x, y, i - 1);
    }
  }

  /** Whether some `limit` coins exceed the target is decided by the largest ones. */
  lemma LargestDecide(v: seq<nat>, held: seq<nat>, t: nat, limit: int)
    requires Chain(v) && |held| == |v|
    ensures ExceedsWithin(v, held, t, limit) <==> limit >= 0 && Total(v, Largest(held, limit, |v|), |v|) > t
  {
    if limit >= 0 {
      var y := Largest(held, limit, |v|);
      LargestCount(held, limit, |v|);
      var k := LargestIsTop(held, limit, |v|);
      forall x: seq<nat> | |x| == |v| && Within(x, held, |v|) && Count(x, |v|) <= limit
        ensures Total(v, x, |v|) <= Total(v, y, |v|)
      {
        CountMonotone(x, held, |v|);
        TopIsBest(v, held, x, y, k);
      }
    }
  }

  /** One coin above the target, unless smaller ones make less change. */
  method ChangeFromOneCoin(v: seq<nat>, nMaxNumberOfSpends: int, nValueTarget: nat, held: seq<nat>, k: nat)
    returns (n: nat, used: seq<nat>, ghost plan: Plan)
    requires Chain(v) && |held| == |v| && nValueTarget > 0 && Multiple(nValueTarget, v[0])
    requires k < |v| && v[k] > nValueTarget && held[k] > 0
    ensures n > 0 ==> Overpays(v, held, nValueTarget, used, n)
    ensures !Exact(v, held, nValueTarget) ==> n > 0
    ensures plan.first == None(|v|)[k := 1] && HighestHeld(held, k, plan.top) && plan.change == ChangeCoins(v, v[k], nValueTarget)
    ensures Follows(v, held, nValueTarget, nMaxNumberOfSpends, plan, n, used)
    ensures n > 0 ==> (Count(used, |v|) <= nMaxNumberOfSpends <==> ExceedsWithin(v, held, nValueTarget, nMaxNumberOfSpends))
  {
    var one := None(|v|)[k := 1];
    UnitTotal(v, k);
    TotalIsMultiple(v, one, |v|);
    var nChangeCount := CountChange(v, v[k], nValueTarget);
    var top := HighestHeldBelow(held, k);
    n, used, plan := MinimizeChange(v, nMaxNumberOfSpends, nChangeCount, top, nValueTarget, held, one);
    if n < nChangeCount {
      return;
    }
    n, used := nChangeCount, one;
    assert Total(v, one, |v|) > nValueTarget;
    SomeCoinIsSpent(v, held, nValueTarget, nMaxNumberOfSpends);
  }

  /** Exceeding the target takes a coin. */
  lemma SomeCoinIsSpent(v: seq<nat>, held: seq<nat>, t: nat, limit: int)
    requires |held| == |v|
    ensures ExceedsWithin(v, held, t, limit) ==> limit >= 1
  {
    if x: seq<nat> :| |x| == |v| && Within(x, held, |v|) && Total(v, x, |v|) > t && Count(x, |v|) <= limit {
      CountPositive(v, x, |v|);
    }
  }

  lemma {:induction false} HeldUpTo(v: seq<nat>, held: seq<nat>, i: nat)
    requires i <= |v| == |held| && forall j :: i <= j < |v| ==> held[j] == 0
    ensures Total(v, held, i) == Total(v, held, |v|)
  {
    TailIsNothing(v, held, i, |v|);
  }

  method ChangeFromManyCoins(v: seq<nat>, nMaxNumberOfSpends: int, nValueTarget: nat, held: seq<nat>)
    returns (n: nat, used: seq<nat>, ghost plan: Plan)
    requires Chain(v) && |held| == |v| && nValueTarget > 0 && Multiple(nValueTarget, v[0])
    ensures n > 0 ==> Overpays(v, held, nValueTarget, used, n)
    ensures Total(v, held, |v|) > nValueTarget && !Exact(v, held, nValueTarget) ==> n > 0
    ensures FromTop(v, held, nValueTarget, plan.first) && HighestHeld(held, |v|, plan.top)
    ensures plan.change == ChangeCoins(v, Total(v, plan.first, |v|), nValueTarget)
    ensures Follows(v, held, nValueTarget, nMaxNumberOfSpends, plan, n, used)
    ensures n > 0 ==> (Count(used, |v|) <= nMaxNumberOfSpends <==> ExceedsWithin(v, held, nValueTarget, nMaxNumberOfSpends))
  {
    var all, left := TakeFromTop(v, nValueTarget, held);
    TotalIsMultiple(v, all, |v|);
    var total := Worth(v, all);
    var nMaxChangeCount := CountChange(v, total, nValueTarget);
    OverpaysByChange(v, held, nValueTarget, all, total, nMaxChangeCount);
    var top := HighestHeldBelow(held, |v|);
    HeldUpTo(v, held, top + 1);
    n, used, plan := MinimizeChange(v, nMaxNumberOfSpends, nMaxChangeCount, top, nValueTarget, held, all);
    assert left == 0 ==> Exact(v, held, nValueTarget);
  }

  /** Change is never given wrongly, and always found when the target can only be overpaid. */
  method CalculateChange(v: seq<nat>, nMaxNumberOfSpends: int, nValueTarget: nat, held: seq<nat>)
    returns (n: nat, used: seq<nat>, ghost plan: Plan)
    requires Chain(v) && |held| == |v| && nValueTarget > 0 && Multiple(nValueTarget, v[0])
    ensures n > 0 ==> Overpays(v, held, nValueTarget, used, n)
    ensures Total(v, held, |v|) > nValueTarget && !Exact(v, held, nValueTarget) ==> n > 0
    ensures n > 0 ==> (Count(used, |v|) <= nMaxNumberOfSpends <==> ExceedsWithin(v, held, nValueTarget, nMaxNumberOfSpends))
    ensures FirstChoice(v, held, nValueTarget, plan.first, plan.top) && |plan.first| == |v| && -1 <= plan.top < |v|
    ensures plan.change == ChangeCoins(v, Total(v, plan.first, |v|), nValueTarget)
    ensures Follows(v, held, nValueTarget, nMaxNumberOfSpends, plan, n, used)
  {
    var k := MinDenomOverTarget(v, nValueTarget, held);
    if k != -1 {
      n, used, plan := ChangeFromOneCoin(v, nMaxNumberOfSpends, nValueTarget, held, k);
      assert LeastAbove(v, held, nValueTarget, k);
      UnitTotal(v, k);
    } else {
      n, used, plan := ChangeFromManyCoins(v, nMaxNumberOfSpends, nValueTarget, held);
    }
  }

  /** The change is no more than that of the first choice, nor than that of an alternative that is affordable. */
  lemma ChangeIsLeast(v: seq<nat>, held: seq<nat>, t: nat, limit: int, plan: Plan, n: nat, used: seq<nat>)
    requires Chain(v) && |held| == |v| && t > 0 && -1 <= plan.top < |v| && Follows(v, held, t, limit, plan, n, used)
    ensures n <= plan.change && (n == plan.change || n == ChangeCoins(v, plan.alternative, t))
    ensures Affordable(v, held, plan.alternative, limit) ==> n <= ChangeCoins(v, plan.alternative, t)
    ensures n == plan.change ==> used == plan.first
    ensures n < plan.change ==> |used| == |v| && Total(v, used, |v|) == plan.alternative && Count(used, |v|) <= limit
  {
    assert FollowsBy(v, held, t, limit, plan, n, used, FewerCoins);
    assert FollowsBy(v, held, t, limit, plan, n, used, Chosen);
    if n < plan.change {
      FewestAfford(v, held, plan.alternative, limit, used);
    }
  }

  /** Held coins that are all fives. */
  lemma FivesOnly(v: seq<nat>, x: seq<nat>, n: nat)
    requires |v| == |x| > 1 && Within(x, None(|v|)[1 := n], |v|)
    ensures x[1] <= n && Total(v, x, |v|) == x[1] * v[1] && Count(x, |v|) == x[1]
  {
    var none := None(|v|);
    assert none[1 := n][1] == n && x == none[1 := x[1]];
    NoneIsNothing(v, none, |v|);
    SetCount(v, none, |v|, 1, x[1]);
    CountOfUnit(none, 1, x[1], |v|);
  }

  lemma {:induction false} CountOfUnit(x: seq<nat>, k: nat, n: nat, i: nat)
    requires k < |x| && i <= |x| && x[k] == 0
    ensures Count(x[k := n], i) == Count(x, i) + if k < i then n else 0
  {
    if i > 0 {
      CountOfUnit(x, k, n, i - 1);
    }
  }

  lemma ElevenInFives(v: seq<nat>, coin: nat)
    requires coin > 0 && v == ZerocoinDenominations(coin)
    ensures Total(v, None(8)[1 := 3], 8) > 11 * coin && !Exact(v, None(8)[1 := 3], 11 * coin)
    ensures !ExceedsWithin(v, None(8)[1 := 3], 11 * coin, 1)
  {
    var held := None(8)[1 := 3];
    FivesOnly(v, held, 3);
    forall x: seq<nat> | |x| == 8 && Within(x, held, 8)
      ensures Total(v, x, 8) == x[1] * (5 * coin) && Count(x, 8) == x[1] <= 3
    {
      FivesOnly(v, x, 3);
    }
  }

  /**
   The limit on spends is not always kept: to pay 11 with three fives and a limit of one
   spend, more than one is spent.
   */
  method SpendLimitIsNotKept(coin: nat) returns (n: nat, used: seq<nat>)
    requires coin > 0
    ensures Chain(ZerocoinDenominations(coin))
    ensures n > 0 && Overpays(ZerocoinDenominations(coin), None(8)[1 := 3], 11 * coin, used, n) && Count(used, 8) > 1
  {
    var v, held := ZerocoinDenominations(coin), None(8)[1 := 3];
    ZerocoinListIsChain(coin);
    MultipleOf(11, coin);
    ElevenInFives(v, coin);
    ghost var plan;
    n, used, plan := CalculateChange(v, 1, 11 * coin, held);
  }

  // The zerocoin denominations with one five, one ten and one fifty, and eleven to pay.

  /** Denominations above the amount take no part in its change. */
  lemma {:induction false} ChangeBelow(v: seq<nat>, t: nat, k: nat, i: nat)
    requires Chain(v) && k <= i <= |v| && forall j :: k <= j < i ==> v[j] > t
    ensures Count(Change(v, t, i), i) == Count(Change(v, t, k), k)
  {
    if k < i {
      ChangeSplits(v, t, i);
      ChangeBelow(v, t, k, i - 1);
    }
  }

  /** The next digit of the change. */
  lemma ChangeDigit(v: seq<nat>, t: nat, i: nat, g: nat, rest: nat)
    requires Chain(v) && 0 < i <= |v| && t == g * v[i - 1] + rest && rest < v[i - 1]
    ensures Count(Change(v, t, i), i) == Count(Change(v, rest, i - 1), i - 1) + g
  {
    FitsIs(t, v[i - 1], g, rest);
    ChangeSplits(v, t, i);
  }

  lemma FitsIs(t: nat, w: nat, g: nat, rest: nat)
    requires w > 0 && t == g * w + rest && rest < w
    ensures Fits(t, w) == g
  {
    FitsIff(t, w, g);
    FitsIff(t, w, g + 1);
    assert (g + 1) * w == g * w + w;
  }

  lemma ChangeOf39(v: seq<nat>)
    requires v == ZerocoinDenominations(1) && Chain(v)
    ensures ChangeCoins(v, 50, 11) == 8
  {
    ChangeBelow(v, 39, 3, 8);
    ChangeDigit(v, 39, 3, 3, 9);
    ChangeDigit(v, 9, 2, 1, 4);
    ChangeDigit(v, 4, 1, 4, 0);
  }

  lemma ChangeOf4(v: seq<nat>)
    requires v == ZerocoinDenominations(1) && Chain(v)
    ensures ChangeCoins(v, 15, 11) == 4 && Change(v, 4, 8)[1] == 0 && Change(v, 4, 8)[2] == 0
  {
    ChangeBelow(v, 4, 1, 8);
    ChangeDigit(v, 4, 1, 4, 0);
    ChangeNone(v, 4, 1, 8);
  }

  lemma {:induction false} ChangeNone(v: seq<nat>, t: nat, k: nat, i: nat)
    requires Chain(v) && k <= i <= |v| && forall j :: k <= j < i ==> v[j] > t
    ensures forall j :: k <= j < i ==> Change(v, t, i)[j] == 0
  {
    if k < i {
      ChangeNone(v, t, k, i - 1);
    }
  }

  const FIVE_TEN_FIFTY: seq<nat> := [0, 1, 1, 1, 0, 0, 0, 0]
  const FIVE_TEN: seq<nat> := [0, 1, 1, 0, 0, 0, 0, 0]
  const TEN: seq<nat> := [0, 0, 1, 0, 0, 0, 0, 0]

  lemma WorthOfTens(v: seq<nat>)
    requires v == ZerocoinDenominations(1)
    ensures Total(v, TEN, 8) == 10 && Total(v, FIVE_TEN, 8) == 15 && Count(FIVE_TEN, 8) == 2
  {
    TailIsNothing(v, TEN, 3, 8);
    TailIsNothing(v, FIVE_TEN, 3, 8);
    CountTail(FIVE_TEN, 3, 8);
    assert Total(v, TEN, 3) == Total(v, TEN, 2) + 10 && Total(v, TEN, 2) == Total(v, TEN, 1) + 0 && Total(v, TEN, 1) == 0;
    assert Total(v, FIVE_TEN, 3) == Total(v, FIVE_TEN, 2) + 10 && Total(v, FIVE_TEN, 2) == Total(v, FIVE_TEN, 1) + 5;
    assert Total(v, FIVE_TEN, 1) == 0 && Count(FIVE_TEN, 3) == Count(FIVE_TEN, 1) + 2 && Count(FIVE_TEN, 1) == 0;
  }

  lemma {:induction false} CountTail(x: seq<nat>, i: nat, n: nat)
    requires i <= n <= |x| && forall j :: i <= j < n ==> x[j] == 0
    ensures Count(x, n) == Count(x, i)
  {
    if i < n {
      CountTail(x, i, n - 1);
    }
  }

  /** Below eleven, from ten down: one ten. */
  lemma BelowEleven(v: seq<nat>)
    requires v == ZerocoinDenominations(1) && Chain(v)
    ensures Below(v, FIVE_TEN_FIFTY, 2, 11) == TEN
  {
    FitsIs(10, v[2], 1, 0);
    OneCoinOnly(v, FIVE_TEN_FIFTY, 10, 3);
    assert None(2) + [1] + None(5) == TEN;
  }

  /** A single coin that is the whole amount. */
  lemma OneCoinOnly(v: seq<nat>, held: seq<nat>, t: nat, i: nat)
    requires Chain(v) && 0 < i <= |v| == |held| && t == v[i - 1] && Fits(t, v[i - 1]) == 1 && held[i - 1] > 0
    ensures Greedy(v, held, t, i) == None(i - 1) + [1]
  {
    GreedyOfNothing(v, held, i - 1);
  }

  lemma {:induction false} GreedyOfNothing(v: seq<nat>, held: seq<nat>, i: nat)
    requires Chain(v) && i <= |v| == |held|
    ensures Greedy(v, held, 0, i) == None(i)
  {
    if i > 0 {
      GreedyOfNothing(v, held, i - 1);
      assert Fits(0, v[i - 1]) == 0 && None(i) == None(i - 1) + [0];
    }
  }

  /** Then a five is added, and nothing comes back: fifteen. */
  lemma FifteenIsAlternative(v: seq<nat>, k: int, a: nat)
    requires v == ZerocoinDenominations(1) && Chain(v) && IsAlternative(v, FIVE_TEN_FIFTY, 2, 11, k, a)
    ensures k == 1 && a == 15
  {
    BelowEleven(v);
    WorthOfTens(v);
    assert CanAdd(v, TEN, FIVE_TEN_FIFTY, 1, 1);
    assert WithCoin(TEN, 1) == FIVE_TEN;
    NettedFifteen(v);
  }

  lemma NettedFifteen(v: seq<nat>)
    requires v == ZerocoinDenominations(1) && Chain(v)
    ensures Netted(v, FIVE_TEN, 11) == 15
  {
    WorthOfTens(v);
    ChangeOf4(v);
    var overlap := Overlap(FIVE_TEN, Change(v, 4, 8));
    assert forall j :: 0 <= j < 8 ==> overlap[j] == 0;
    NoneIsNothing(v, overlap, 8);
  }

  /** The single fifty would need eight coins of change; five and ten need four. */
  method SmallerChange() returns (n: nat, used: seq<nat>)
    ensures n == 4 && |used| == 8 && Total(ZerocoinDenominations(1), used, 8) == 15
  {
    var v := ZerocoinDenominations(1);
    ZerocoinListIsChain(1);
    MultipleOf(11, 1);
    ghost var plan;
    n, used, plan := CalculateChange(v, 7, 11, FIVE_TEN_FIFTY);
    FiftyFirst(v, plan.first, plan.top);
    UnitTotal(v, 3);
    FourCoinsBack(v, plan, n, used);
  }

  lemma FifteenIsAffordable(v: seq<nat>)
    requires v == ZerocoinDenominations(1)
    ensures Affordable(v, FIVE_TEN_FIFTY, 15, 7)
  {
    WorthOfTens(v);
    assert Within(FIVE_TEN, FIVE_TEN_FIFTY, 8);
  }

  lemma FourCoinsBack(v: seq<nat>, plan: Plan, n: nat, used: seq<nat>)
    requires v == ZerocoinDenominations(1) && Chain(v) && plan.top == 2 && plan.change == ChangeCoins(v, 50, 11)
    requires Follows(v, FIVE_TEN_FIFTY, 11, 7, plan, n, used)
    ensures n == 4 && |used| == 8 && Total(v, used, 8) == 15
  {
    ChangeOf39(v);
    assert FollowsBy(v, FIVE_TEN_FIFTY, 11, 7, plan, n, used, Alternative);
    FifteenIsAlternative(v, plan.added, plan.alternative);
    ChangeOf4(v);
    FifteenIsAffordable(v);
    ChangeIsLeast(v, FIVE_TEN_FIFTY, 11, 7, plan, n, used);
  }

  lemma FiftyFirst(v: seq<nat>, first: seq<nat>, top: int)
    requires v == ZerocoinDenominations(1) && FirstChoice(v, FIVE_TEN_FIFTY, 11, first, top)
    ensures first == None(8)[3 := 1] && top == 2
  {
    assert LeastAbove(v, FIVE_TEN_FIFTY, 11, 3) && FIVE_TEN_FIFTY[2] == 1;
  }

  // ---------------------------------------------------------------------------
  // Mints.

  /** A mint in the wallet: its denomination and whether it was spent before. */
  datatype Mint = Mint(denom: nat, isUsed: bool)

  predicate Matches(m: Mint, d: nat) {
    !m.isUsed && m.denom == d
  }

  /** How many of the first k mints are unspent ones of denomination d. */
  function Unused(mints: seq<Mint>, d: nat, k: nat): nat
    requires k <= |mints|
  {
    if k == 0 then 0 else Unused(mints, d, k - 1) + if Matches(mints[k - 1], d) then 1 else 0
  }

  lemma {:induction false} UnusedGrows(mints: seq<Mint>, d: nat, k: nat, n: nat)
    requires k <= n <= |mints|
    ensures Unused(mints, d, k) <= Unused(mints, d, n)
  {
    if k < n {
      UnusedGrows(mints, d, k, n - 1);
    }
  }

  /** What the list of mints holds of each denomination. */
  function Holdings(v: seq<nat>, mints: seq<Mint>): (h: seq<nat>)
    ensures |h| == |v|
  {
    seq(|v|, d requires 0 <= d < |v| => Unused(mints, d, |mints|))
  }

  /** n coins were taken and r remains; no more are taken than there are mints, or than fit. */
  ghost predicate Taken(start: int, w: nat, n: nat, r: int)
    requires w > 0
  {
    r == start - n * w && Fits(start, w) == n + Fits(r, w)
  }

  lemma TakenOneMore(start: int, w: nat, n: nat, r: int)
    requires w > 0 && Taken(start, w, n, r) && r >= w
    ensures Taken(start, w, n + 1, r - w)
  {
    assert (n + 1) * w == n * w + w;
  }

  /** One denomination of getIdealSpends: walk the mints while the value fits. */
  method TakeMints(mints: seq<Mint>, d: nat, nValue: nat, start: int) returns (n: nat, nRemainingValue: int)
    requires nValue > 0
    ensures n == Min(Unused(mints, d, |mints|), Fits(start, nValue)) && nRemainingValue == start - n * nValue
  {
    n, nRemainingValue := 0, start;
    for k := 0 to |mints|
      invariant Taken(start, nValue, n, nRemainingValue)
      invariant n == Min(Unused(mints, d, k), Fits(start, nValue))
    {
      if !mints[k].isUsed {
        if nRemainingValue >= nValue && d == mints[k].denom {
          TakenOneMore(start, nValue, n, nRemainingValue);
          n := n + 1;
          nRemainingValue := nRemainingValue - nValue;
        }
        if nRemainingValue < nValue {
          UnusedGrows(mints, d, k + 1, |mints|);
          break;
        }
      }
    }
  }

  /** The loops of getIdealSpends. */
  method TakeMintsGreedily(v: seq<nat>, nValueTarget: int, mints: seq<Mint>) returns (used: seq<nat>, nRemainingValue: int)
    requires Chain(v)
    ensures used == Greedy(v, Holdings(v, mints), nValueTarget, |v|) && nRemainingValue == nValueTarget - Total(v, used, |v|)
  {
    ghost var held := Holdings(v, mints);
    ghost var best := Greedy(v, held, nValueTarget, |v|);
    used := [];
    nRemainingValue := nValueTarget;
    var i := |v|;
    while i > 0
      invariant 0 <= i <= |v| && |used| == |v| - i
      invariant best == Greedy(v, held, nRemainingValue, i) + used
      invariant nRemainingValue - Total(v, Greedy(v, held, nRemainingValue, i), i) == nValueTarget - Total(v, best, |v|)
    {
      i := i - 1;
      GreedySplits(v, held, nRemainingValue, i + 1);
      var n, left := TakeMints(mints, i, v[i], nRemainingValue);
      Regroup(Greedy(v, held, left, i), n, used);
      used := [n] + used;
      nRemainingValue := left;
    }
  }

  /** Some choice within h is worth t, and none of those has fewer coins than `used`. */
  ghost predicate FewestFor(v: seq<nat>, h: seq<nat>, t: int, used: seq<nat>)
    requires |h| == |v|
  {
    && |used| == |v| && Within(used, h, |v|) && Total(v, used, |v|) == t
    && forall x: seq<nat> :: |x| == |v| && Within(x, h, |v|) && Total(v, x, |v|) == t ==> Count(used, |v|) <= Count(x, |v|)
  }

  lemma GreedyIsFewest(v: seq<nat>, h: seq<nat>, t: int)
    requires Chain(v) && |h| == |v| && Exact(v, h, t)
    ensures FewestFor(v, h, t, Greedy(v, h, t, |v|))
  {
    GreedyIffExact(v, h, t);
    forall x: seq<nat> | |x| == |v| && Within(x, h, |v|) && Total(v, x, |v|) == t
      ensures Count(Greedy(v, h, t, |v|), |v|) <= Count(x, |v|)
    {
      GreedyIsOptimal(v, h, t, |v|, x);
    }
  }

  /** True exactly when some of the unspent mints are worth the target; then with the fewest coins. */
  method GetIdealSpends(v: seq<nat>, nValueTarget: int, mints: seq<Mint>) returns (ok: bool, used: seq<nat>)
    requires Chain(v)
    ensures |used| == |v| && Within(used, Holdings(v, mints), |v|)
    ensures ok <==> Exact(v, Holdings(v, mints), nValueTarget)
    ensures ok ==> FewestFor(v, Holdings(v, mints), nValueTarget, used)
  {
    var left;
    used, left := TakeMintsGreedily(v, nValueTarget, mints);
    ok := left == 0;
    GreedyIffExact(v, Holdings(v, mints), nValueTarget);
    if ok {
      GreedyIsFewest(v, Holdings(v, mints), nValueTarget);
    }
  }

  /** The positions of the first n unspent mints of denomination d, among the first k mints. */
  function FirstOf(mints: seq<Mint>, d: nat, n: nat, k: nat): seq<nat>
    requires k <= |mints|
  {
    if k == 0 then []
    else FirstOf(mints, d, n, k - 1) + if Matches(mints[k - 1], d) && Unused(mints, d, k - 1) < n then [k - 1] else []
  }

  lemma {:induction false} FirstOfAre(mints: seq<Mint>, d: nat, n: nat, k: nat)
    requires k <= |mints|
    ensures |FirstOf(mints, d, n, k)| == Min(n, Unused(mints, d, k))
    ensures forall i :: 0 <= i < |FirstOf(mints, d, n, k)| ==> FirstOf(mints, d, n, k)[i] < k && Matches(mints[FirstOf(mints, d, n, k)[i]], d)
    ensures forall i, j :: 0 <= i < j < |FirstOf(mints, d, n, k)| ==> FirstOf(mints, d, n, k)[i] < FirstOf(mints, d, n, k)[j]
  {
    if k > 0 {
      FirstOfAre(mints, d, n, k - 1);
    }
  }

  /** Asking for more does not change the mints that come first. */
  lemma {:induction false} FirstOfGrows(mints: seq<Mint>, d: nat, m: nat, n: nat, k: nat)
    requires k <= |mints| && m <= n
    ensures FirstOf(mints, d, m, k) <= FirstOf(mints, d, n, k)
  {
    if k > 0 {
      FirstOfGrows(mints, d, m, n, k - 1);
      FirstOfAre(mints, d, m, k - 1);
      FirstOfAre(mints, d, n, k - 1);
    }
  }

  // The do-while loop of getSpends for one denomination.

  /** How many of n are still to be picked after p passes over the list. */
  function LeftAfter(mints: seq<Mint>, d: nat, n: nat, p: nat): (left: nat)
    ensures left <= n
  {
    if p == 0 then n
    else
      var left := LeftAfter(mints, d, n, p - 1);
      left - Min(left, Unused(mints, d, |mints|))
  }

  /** The loop ends: after some pass nothing is left. */
  ghost predicate Ends(mints: seq<Mint>, d: nat, n: nat) {
    exists p: nat :: p > 0 && LeftAfter(mints, d, n, p) == 0
  }

  lemma {:induction false} LeftShrinks(mints: seq<Mint>, d: nat, n: nat, p: nat)
    requires Unused(mints, d, |mints|) > 0
    ensures LeftAfter(mints, d, n, p) <= if p <= n then n - p else 0
  {
    if p > 0 {
      LeftShrinks(mints, d, n, p - 1);
    }
  }

  lemma {:induction false} LeftStays(mints: seq<Mint>, d: nat, n: nat, p: nat)
    requires Unused(mints, d, |mints|) == 0
    ensures LeftAfter(mints, d, n, p) == n
  {
    if p > 0 {
      LeftStays(mints, d, n, p - 1);
    }
  }

  /** It ends exactly if nothing is asked for or there is an unspent mint of the denomination. */
  lemma EndsIff(mints: seq<Mint>, d: nat, n: nat)
    ensures Ends(mints, d, n) <==> n == 0 || Unused(mints, d, |mints|) > 0
  {
    if Unused(mints, d, |mints|) > 0 {
      LeftShrinks(mints, d, n, n + 1);
      assert LeftAfter(mints, d, n, n + 1) == 0;
    } else {
      forall p: nat ensures LeftAfter(mints, d, n, p) == n {
        LeftStays(mints, d, n, p);
      }
      assert LeftAfter(mints, d, n, 1) == n;
    }
  }

  /** The mints picked, pass after pass: beyond those there are, the same ones again. */
  function PickedBy(mints: seq<Mint>, d: nat, n: nat): (r: seq<nat>)
    decreases n
  {
    if n == 0 || Unused(mints, d, |mints|) == 0 then []
    else FirstOf(mints, d, n, |mints|) + PickedBy(mints, d, n - Min(n, Unused(mints, d, |mints|)))
  }

  predicate NoTwice(picks: seq<nat>) {
    forall k, l :: 0 <= k < l < |picks| ==> picks[k] != picks[l]
  }

  predicate AllMatch(mints: seq<Mint>, picks: seq<nat>, d: nat) {
    forall k :: 0 <= k < |picks| ==> picks[k] < |mints| && Matches(mints[picks[k]], d)
  }

  lemma {:induction false} PickedByAre(mints: seq<Mint>, d: nat, n: nat)
    requires n == 0 || Unused(mints, d, |mints|) > 0
    ensures |PickedBy(mints, d, n)| == n && AllMatch(mints, PickedBy(mints, d, n), d)
    decreases n
  {
    if n > 0 {
      FirstOfAre(mints, d, n, |mints|);
      PickedByAre(mints, d, n - Min(n, Unused(mints, d, |mints|)));
    }
  }

  /** No mint is picked twice exactly if there are enough of them. */
  lemma PickedOnceIff(mints: seq<Mint>, d: nat, n: nat)
    requires n == 0 || Unused(mints, d, |mints|) > 0
    ensures NoTwice(PickedBy(mints, d, n)) <==> n <= Unused(mints, d, |mints|)
  {
    var u := Unused(mints, d, |mints|);
    FirstOfAre(mints, d, n, |mints|);
    if n <= u {
      assert PickedBy(mints, d, n) == if n == 0 then [] else FirstOf(mints, d, n, |mints|) + [];
    } else {
      SecondPassRepeats(mints, d, n, u);
    }
  }

  lemma SecondPassRepeats(mints: seq<Mint>, d: nat, n: nat, u: nat)
    requires u == Unused(mints, d, |mints|) && 0 < u < n
    ensures |PickedBy(mints, d, n)| > u && PickedBy(mints, d, n)[0] == PickedBy(mints, d, n)[u]
  {
    var m := n - u;
    FirstOfAre(mints, d, n, |mints|);
    FirstPick(mints, d, n);
    FirstPick(mints, d, m);
    FirstOfGrows(mints, d, m, n, |mints|);
    assert PickedBy(mints, d, n) == FirstOf(mints, d, n, |mints|) + PickedBy(mints, d, m);
  }

  lemma FirstPick(mints: seq<Mint>, d: nat, n: nat)
    requires Unused(mints, d, |mints|) > 0 && n > 0
    ensures FirstOf(mints, d, n, |mints|) != [] && PickedBy(mints, d, n) != []
    ensures PickedBy(mints, d, n)[0] == FirstOf(mints, d, n, |mints|)[0]
  {
    FirstOfAre(mints, d, n, |mints|);
  }

  // All denominations.

  /** Every denomination asked for has an unspent mint. */
  predicate Backed(mints: seq<Mint>, used: seq<nat>) {
    forall d :: 0 <= d < |used| ==> used[d] == 0 || Unused(mints, d, |mints|) > 0
  }

  /** getSpends ends exactly if every denomination asked for has an unspent mint. */
  lemma GetSpendsEndsIff(mints: seq<Mint>, used: seq<nat>)
    ensures (forall d: nat :: d < |used| ==> Ends(mints, d, used[d])) <==> Backed(mints, used)
  {
    forall d: nat | d < |used| ensures Ends(mints, d, used[d]) <==> used[d] == 0 || Unused(mints, d, |mints|) > 0 {
      EndsIff(mints, d, used[d]);
    }
  }

  /** The mints picked for denominations i - 1 down to 0. */
  function Picks(mints: seq<Mint>, used: seq<nat>, i: nat): seq<nat>
    requires i <= |used|
  {
    if i == 0 then [] else PickedBy(mints, i - 1, used[i - 1]) + Picks(mints, used, i - 1)
  }

  /** As many mints as coins, each an unspent one of its denomination. */
  lemma {:induction false} PicksAre(mints: seq<Mint>, used: seq<nat>, i: nat)
    requires i <= |used| && Backed(mints, used)
    ensures |Picks(mints, used, i)| == Count(used, i)
    ensures forall k :: 0 <= k < |Picks(mints, used, i)| ==>
      Picks(mints, used, i)[k] < |mints| && !mints[Picks(mints, used, i)[k]].isUsed && mints[Picks(mints, used, i)[k]].denom < i
  {
    if i > 0 {
      PicksAre(mints, used, i - 1);
      PickedByAre(mints, i - 1, used[i - 1]);
    }
  }

  lemma NoTwiceConcat(a: seq<nat>, b: seq<nat>)
    requires forall k, l :: 0 <= k < |a| && 0 <= l < |b| ==> a[k] != b[l]
    ensures NoTwice(a + b) <==> NoTwice(a) && NoTwice(b)
  {
    var c := a + b;
    assert forall k :: 0 <= k < |a| ==> c[k] == a[k];
    forall k, l | 0 <= k < l < |b| ensures c[|a| + k] == b[k] && c[|a| + l] == b[l] {
    }
    if NoTwice(c) {
      forall k, l | 0 <= k < l < |b| ensures b[k] != b[l] {
        assert c[|a| + k] != c[|a| + l];
      }
    }
  }

  /** Mints of different denominations are different. */
  lemma PicksApart(mints: seq<Mint>, used: seq<nat>, d: nat)
    requires d < |used| && Backed(mints, used)
    ensures var a, b := PickedBy(mints, d, used[d]), Picks(mints, used, d);
            forall k, l :: 0 <= k < |a| && 0 <= l < |b| ==> a[k] != b[l]
  {
    PicksAre(mints, used, d);
    PickedByAre(mints, d, used[d]);
  }

  /** No mint is picked twice exactly if the counts are within what the list holds. */
  lemma {:induction false} PicksOnceIff(v: seq<nat>, mints: seq<Mint>, used: seq<nat>, i: nat)
    requires i <= |used| == |v| && Backed(mints, used)
    ensures NoTwice(Picks(mints, used, i)) <==> Within(used, Holdings(v, mints), i)
  {
    if i > 0 {
      var d := i - 1;
      PicksOnceIff(v, mints, used, d);
      PicksApart(mints, used, d);
      PickedOnceIff(mints, d, used[d]);
      NoTwiceConcat(PickedBy(mints, d, used[d]), Picks(mints, used, d));
      assert Holdings(v, mints)[d] == Unused(mints, d, |mints|);
    }
  }

  /** Counts within the list are backed by it. */
  lemma WithinIsBacked(v: seq<nat>, mints: seq<Mint>, used: seq<nat>)
    requires |used| == |v| && Within(used, Holdings(v, mints), |v|)
    ensures Backed(mints, used)
  {
    forall d | 0 <= d < |used| ensures used[d] == 0 || Unused(mints, d, |mints|) > 0 {
      assert used[d] <= Holdings(v, mints)[d];
    }
  }

  /** A map of held counts beside the list: every choice within it ends exactly if the map is backed by the list. */
  lemma MapEndsIff(mints: seq<Mint>, held: seq<nat>)
    ensures (forall used: seq<nat> :: |used| == |held| && Within(used, held, |held|) ==> Backed(mints, used)) <==> Backed(mints, held)
  {
    if Backed(mints, held) {
      forall used: seq<nat> | |used| == |held| && Within(used, held, |held|) ensures Backed(mints, used) {
        assert forall d :: 0 <= d < |used| ==> used[d] <= held[d];
      }
    } else {
      assert Within(held, held, |held|);
    }
  }

  /** And no choice within it repeats a mint exactly if the map is within the list. */
  lemma MapIsSafeIff(v: seq<nat>, mints: seq<Mint>, held: seq<nat>)
    requires |held| == |v| && Backed(mints, held)
    ensures (forall used: seq<nat> :: |used| == |v| && Within(used, held, |v|) ==> NoTwice(Picks(mints, used, |v|)))
            <==> Within(held, Holdings(v, mints), |v|)
  {
    MapEndsIff(mints, held);
    PicksOnceIff(v, mints, held, |v|);
    forall used: seq<nat> | |used| == |v| && Within(used, held, |v|) && Within(held, Holdings(v, mints), |v|)
      ensures NoTwice(Picks(mints, used, |v|))
    {
      forall d | 0 <= d < |v| ensures used[d] <= Holdings(v, mints)[d] {
        assert used[d] <= held[d] <= Holdings(v, mints)[d];
      }
      PicksOnceIff(v, mints, used, |v|);
    }
    assert Within(held, held, |v|);
  }

  /** One mint, asked for twice, is picked twice. */
  lemma OneMintTwice()
    ensures PickedBy([Mint(0, false)], 0, 2) == [0, 0]
  {
    var mints := [Mint(0, false)];
    assert Unused(mints, 0, 1) == Unused(mints, 0, 0) + 1 == 1;
    assert FirstOf(mints, 0, 2, 1) == FirstOf(mints, 0, 2, 0) + [0] && FirstOf(mints, 0, 1, 1) == FirstOf(mints, 0, 1, 0) + [0];
    assert PickedBy(mints, 0, 2) == FirstOf(mints, 0, 2, 1) + PickedBy(mints, 0, 1);
    assert PickedBy(mints, 0, 1) == FirstOf(mints, 0, 1, 1) + PickedBy(mints, 0, 0);
  }

  /** A spent mint, asked for once, is looked for without end. */
  lemma SpentMintNeverEnds()
    ensures !Ends([Mint(0, true)], 0, 1)
  {
    EndsIff([Mint(0, true)], 0, 1);
  }

  /** One pass over the mints for a denomination. */
  method PickMints(mints: seq<Mint>, d: nat, n: nat) returns (picked: seq<nat>, left: nat)
    ensures picked == FirstOf(mints, d, n, |mints|) && left == n - |picked|
    ensures n <= Unused(mints, d, |mints|) ==> left == 0
  {
    picked, left := [], n;
    FirstOfAre(mints, d, n, 0);
    for k := 0 to |mints|
      invariant picked == FirstOf(mints, d, n, k) && left == n - |picked| && |picked| == Min(n, Unused(mints, d, k))
    {
      FirstOfAre(mints, d, n, k + 1);
      if !mints[k].isUsed && d == mints[k].denom && left > 0 {
        picked := picked + [k];
        left := left - 1;
      }
    }
  }

  lemma Concatenate(a: seq<nat>, b: seq<nat>, c: seq<nat>)
    ensures a + (b + c) == a + b + c
  {
  }

  /** The do-while loop for one denomination. */
  method PickPasses(mints: seq<Mint>, d: nat, n: nat) returns (picked: seq<nat>, ghost passes: nat)
    requires Ends(mints, d, n)
    ensures picked == PickedBy(mints, d, n) && passes > 0 && LeftAfter(mints, d, n, passes) == 0
  {
    EndsIff(mints, d, n);
    var left;
    picked, left := PickMints(mints, d, n);
    passes := 1;
    FirstOfAre(mints, d, n, |mints|);
    assert picked + PickedBy(mints, d, left) == PickedBy(mints, d, n) by {
      FirstOfAre(mints, d, n, |mints|);
    }
    while left > 0
      invariant left > 0 ==> Unused(mints, d, |mints|) > 0
      invariant passes > 0 && left == LeftAfter(mints, d, n, passes)
      invariant picked + PickedBy(mints, d, left) == PickedBy(mints, d, n)
    {
      FirstOfAre(mints, d, left, |mints|);
      var more, still := PickMints(mints, d, left);
      Concatenate(picked, more, PickedBy(mints, d, still));
      picked := picked + more;
      left := still;
      passes := passes + 1;
    }
  }

  /** getSpends, where it ends. */
  method GetSpends(v: seq<nat>, mints: seq<Mint>, used: seq<nat>) returns (picks: seq<nat>, nCoinsSpentValue: int)
    requires |used| == |v| && forall d: nat :: d < |used| ==> Ends(mints, d, used[d])
    ensures picks == Picks(mints, used, |v|) && nCoinsSpentValue == Total(v, used, |v|)
    ensures |picks| == Count(used, |v|) && (NoTwice(picks) <==> Within(used, Holdings(v, mints), |v|))
  {
    picks := [];
    var i := |v|;
    while i > 0
      invariant 0 <= i <= |v| && picks + Picks(mints, used, i) == Picks(mints, used, |v|)
    {
      i := i - 1;
      var picked, passes := PickPasses(mints, i, used[i]);
      Concatenate(picks, picked, Picks(mints, used, i));
      picks := picks + picked;
    }
    nCoinsSpentValue := Worth(v, used);
    GetSpendsEndsIff(mints, used);
    PicksAre(mints, used, |v|);
    PicksOnceIff(v, mints, used, |v|);
  }

  /** n <= (size_t)limit, where a negative limit becomes one that no list reaches. */
  predicate WithinLimit(n: nat, limit: int) {
    limit < 0 || n <= limit
  }

  /**
   What SelectMintsFromList promises of the mints it picks: an exact payment within the
   limit, or one with change, whose coins are within the limit exactly if any that exceed
   the target are.
   */
  ghost predicate Pays(v: seq<nat>, mints: seq<Mint>, held: seq<nat>, t: nat, limit: int, picks: seq<nat>, nCoinsReturned: nat, value: int)
    requires Chain(v) && |held| == |v|
  {
    exists used: seq<nat> ::
      && |used| == |v| && picks == Picks(mints, used, |v|) && |picks| == Count(used, |v|) && value == Total(v, used, |v|)
      && (NoTwice(picks) <==> Within(used, Holdings(v, mints), |v|))
      && if nCoinsReturned == 0 then FewestFor(v, Holdings(v, mints), t, used) && WithinLimit(|picks|, limit)
         else Overpays(v, held, t, used, nCoinsReturned) && (|picks| <= limit <==> ExceedsWithin(v, held, t, limit))
  }

  /** The target can be met exactly, with n mints and no fewer. */
  ghost predicate NeedsSpends(v: seq<nat>, mints: seq<Mint>, t: nat, n: nat)
    requires Chain(v)
  {
    exists used: seq<nat> :: |used| == |v| && FewestFor(v, Holdings(v, mints), t, used) && Count(used, |v|) == n
  }

  lemma BelowIsBacked(mints: seq<Mint>, used: seq<nat>, held: seq<nat>)
    requires |used| == |held| && Within(used, held, |held|) && Backed(mints, held)
    ensures forall d: nat :: d < |used| ==> Ends(mints, d, used[d])
  {
    assert forall d :: 0 <= d < |used| ==> used[d] <= held[d];
    GetSpendsEndsIff(mints, used);
  }

  /**
   `held` is the map of held counts that comes beside the list; the search for mints ends
   for every choice exactly if the map is backed by the list.
   */
  method SelectMintsFromList(v: seq<nat>, nValueTarget: nat, nMaxNumberOfSpends: int, mints: seq<Mint>, held: seq<nat>)
    returns (picks: seq<nat>, nSelectedValue: int, nCoinsReturned: nat, nNeededSpends: nat, ghost plan: Plan, ghost chosen: seq<nat>)
    requires Chain(v) && nValueTarget > 0 && Multiple(nValueTarget, v[0]) && |held| == |v| && Backed(mints, held)
    ensures picks != [] ==> Pays(v, mints, held, nValueTarget, nMaxNumberOfSpends, picks, nCoinsReturned, nSelectedValue)
    ensures Within(held, Holdings(v, mints), |v|) ==> NoTwice(picks)
    ensures Total(v, held, |v|) > nValueTarget && !Exact(v, held, nValueTarget) ==> picks != []
    ensures Exact(v, Holdings(v, mints), nValueTarget) && nNeededSpends == 0 ==>
              picks != [] && nCoinsReturned == 0 && nSelectedValue == nValueTarget
    ensures nNeededSpends > 0 ==> NeedsSpends(v, mints, nValueTarget, nNeededSpends) && nNeededSpends > nMaxNumberOfSpends >= 0
    ensures nCoinsReturned > 0 ==> -1 <= plan.top < |v| == |plan.first| && FirstChoice(v, held, nValueTarget, plan.first, plan.top)
    ensures nCoinsReturned > 0 ==> plan.change == ChangeCoins(v, Total(v, plan.first, |v|), nValueTarget)
    ensures nCoinsReturned > 0 ==>
              Follows(v, held, nValueTarget, nMaxNumberOfSpends, plan, nCoinsReturned, chosen) &&
              |chosen| == |v| && picks == Picks(mints, chosen, |v|)
  {
    plan, chosen := Plan([], 0, -1, -1, 0), [];
    nSelectedValue, nNeededSpends := 0, 0;
    var fCanMeetExactly, used := GetIdealSpends(v, nValueTarget, mints);
    if fCanMeetExactly {
      nCoinsReturned := 0;
      WithinIsBacked(v, mints, Holdings(v, mints));
      BelowIsBacked(mints, used, Holdings(v, mints));
      picks, nSelectedValue := GetSpends(v, mints, used);
      CountPositive(v, used, |v|);
      assert NeedsSpends(v, mints, nValueTarget, |picks|);
      if WithinLimit(|picks|, nMaxNumberOfSpends) {
        assert Pays(v, mints, held, nValueTarget, nMaxNumberOfSpends, picks, 0, nSelectedValue);
        return;
      }
      nNeededSpends := |picks|;
    }
    nCoinsReturned, used, plan := CalculateChange(v, nMaxNumberOfSpends, nValueTarget, held);
    chosen := used;
    if nCoinsReturned == 0 {
      picks := [];
    } else {
      BelowIsBacked(mints, used, held);
      picks, nSelectedValue := GetSpends(v, mints, used);
      assert Pays(v, mints, held, nValueTarget, nMaxNumberOfSpends, picks, nCoinsReturned, nSelectedValue);
      CountPositive(v, used, |v|);
      WithinTransitive(used, held, Holdings(v, mints), |v|);
    }
  }

  lemma WithinTransitive(x: seq<nat>, y: seq<nat>, z: seq<nat>, i: nat)
    requires i <= |x| && i <= |y| && i <= |z| && Within(x, y, i)
    ensures Within(y, z, i) ==> Within(x, z, i)
  {
    if Within(y, z, i) {
      forall j | 0 <= j < i ensures x[j] <= z[j] {
        assert x[j] <= y[j] <= z[j];
      }
    }
  }
}
