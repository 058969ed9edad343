/**
 Block index entries and the active chain (src/chain.h, src/chain.cpp, and GetAncestor and
 BuildSkip of src/main.cpp).  Entries point at their parents; a chain indexes one line of
 them by height.
 */
module Chain {

  // ---------------------------------------------------------------------------
  // Heights to skip to.

  /** n & (n - 1): the lowest one of n becomes a zero. */
  function InvertLowestOne(n: nat): (r: nat)
    ensures n > 0 ==> r < n
    ensures n == 0 ==> r == 0
  {
    if n == 0 then 0 else if n % 2 == 1 then n - 1 else 2 * InvertLowestOne(n / 2)
  }

  /** Of n = (2q + 1) * 2^k, the lowest one is at k. */
  lemma {:induction false} LowestOneIsInverted(n: nat, m: nat, q: nat, k: nat)
    requires n == (2 * q + 1) * Pow2(k) && m == (2 * q) * Pow2(k)
    ensures InvertLowestOne(n) == m
  {
    if k > 0 {
      var n', m' := (2 * q + 1) * Pow2(k - 1), (2 * q) * Pow2(k - 1);
      Doubles(2 * q + 1, Pow2(k - 1));
      Doubles(2 * q, Pow2(k - 1));
      Pow2Grows(k - 1);
      LowestOneIsInverted(n', m', q, k - 1);
    }
  }

  lemma Doubles(a: nat, p: nat)
    ensures a * (2 * p) == 2 * (a * p) && (a > 0 && p > 0 ==> a * p > 0)
  {
  }

  /** Any height below is acceptable. */
  function SkipHeight(height: nat): (r: nat)
    ensures height > 0 ==> r < height
  {
    if height < 2 then 0
    else if height % 2 == 1 then InvertLowestOne(InvertLowestOne(height - 1)) + 1
    else InvertLowestOne(height)
  }

  /** An even height loses its lowest one: it is (2q + 1) * 2^k. */
  lemma SkipFromEven(n: nat, m: nat, q: nat, k: nat)
    requires k > 0 && n == (2 * q + 1) * Pow2(k) && m == (2 * q) * Pow2(k)
    ensures SkipHeight(n) == m
  {
    LowestOneIsInverted(n, m, q, k);
    IsEven(n, q, k);
  }

  /** An odd height loses the two lowest ones above its last bit: it is (2q + 1) * 2^j + 2^k + 1, and m is without 2^k. */
  lemma SkipFromOdd(n: nat, m: nat, r: nat, q: nat, j: nat, k: nat)
    requires 0 < k < j && m == (2 * q + 1) * Pow2(j) && r == (2 * q) * Pow2(j) && n == m + Pow2(k)
    ensures SkipHeight(n + 1) == r + 1
  {
    LowestOneIsInverted(m, r, q, j);
    LowerIsInverted(n, m, q, j, k);
    SkipOdd(n, m, r);
  }

  lemma SkipOdd(n: nat, m: nat, r: nat)
    requires n % 2 == 0 && n >= 2 && InvertLowestOne(n) == m && InvertLowestOne(m) == r
    ensures SkipHeight(n + 1) == r + 1
  {
  }

  lemma LowerIsInverted(n: nat, m: nat, q: nat, j: nat, k: nat)
    requires 0 < k < j && m == (2 * q + 1) * Pow2(j) && n == m + Pow2(k)
    ensures n % 2 == 0 && n >= 2 && InvertLowestOne(n) == m
  {
    var a := LowerOne(n, m, q, j, k);
    LowestOneIsInverted(n, m, a, k);
    IsEven(n, a, k);
  }

  lemma LowerOne(n: nat, m: nat, q: nat, j: nat, k: nat) returns (a: nat)
    requires 0 < k < j && m == (2 * q + 1) * Pow2(j) && n == m + Pow2(k)
    ensures n == (2 * a + 1) * Pow2(k) && m == (2 * a) * Pow2(k)
  {
    var p := Pow2(j - k - 1);
    a := (2 * q + 1) * p;
    assert Pow2(j) == (2 * p) * Pow2(k) by { Pow2Splits(k, j - k); }
    Regroup(2 * q + 1, p, Pow2(k), Pow2(j), a, m);
  }

  lemma IsEven(n: nat, a: nat, k: nat)
    requires k > 0 && n == (2 * a + 1) * Pow2(k)
    ensures n % 2 == 0 && n >= 2
  {
    Doubles(2 * a + 1, Pow2(k - 1));
    Pow2Grows(k - 1);
  }

  lemma {:induction false} Pow2Splits(k: nat, d: nat)
    ensures Pow2(k + d) == Pow2(d) * Pow2(k)
  {
    if d > 0 {
      Pow2Splits(k, d - 1);
      assert Pow2(k + d) == 2 * Pow2(k + (d - 1));
    }
  }

  lemma Regroup(c: nat, p: nat, t: nat, u: nat, a: nat, m: nat)
    requires u == (2 * p) * t && a == c * p && m == c * u
    ensures m + t == (2 * a + 1) * t && m == (2 * a) * t
  {
    assert c * ((2 * p) * t) == (2 * (c * p)) * t;
  }

  class BlockIndex {
    const hash: nat
    const pprev: BlockIndex?
    const nHeight: nat
    var pskip: BlockIndex?

    constructor (hash: nat, pprev: BlockIndex?)
      requires pprev != null ==> pprev.Linked()
      ensures this.hash == hash && this.pprev == pprev && Linked() && pskip == null
    {
      this.hash, this.pprev := hash, pprev;
      nHeight := if pprev == null then 0 else pprev.nHeight + 1;
      pskip := null;
    }

    /** Heights count the parents down to the genesis block. */
    ghost predicate Linked()
      decreases nHeight
    {
      if pprev == null then nHeight == 0 else pprev.nHeight + 1 == nHeight && pprev.Linked()
    }

    /** The parent walk: the ancestor at a height. */
    ghost function At(h: nat): (b: BlockIndex)
      requires Linked() && h <= nHeight
      ensures b.Linked() && b.nHeight == h
      decreases nHeight
    {
      if h == nHeight then this else pprev.At(h)
    }

    ghost function Line(): set<BlockIndex>
      requires Linked()
      decreases nHeight
    {
      if pprev == null then {this} else pprev.Line() + {this}
    }

    /** Every skip pointer in the line has been built. */
    ghost predicate Skips()
      requires Linked()
      reads Line()
      decreases nHeight
    {
      pprev == null || (pskip == pprev.At(SkipHeight(nHeight)) && pprev.Skips())
    }

    /** Ancestors of an ancestor are ancestors. */
    lemma {:induction false} AtAt(h: nat, k: nat)
      requires Linked() && k <= h <= nHeight
      ensures At(h).At(k) == At(k)
      decreases nHeight
    {
      if h < nHeight {
        pprev.AtAt(h, k);
      }
    }

    lemma {:induction false} SkipsBelow(h: nat)
      requires Linked() && Skips() && h <= nHeight
      ensures At(h).Skips()
      decreases nHeight
    {
      if h < nHeight {
        pprev.SkipsBelow(h);
      }
    }

    /** The skip list finds what the parent walk finds; outside the heights of the line there is nothing. */
    method GetAncestor(height: int) returns (r: BlockIndex?)
      requires Linked() && Skips()
      ensures (height > nHeight || height < 0) ==> r == null
      ensures 0 <= height <= nHeight ==> r == At(height) && r.Skips()
      ensures Skips()
    {
      if height > nHeight || height < 0 {
        return null;
      }
      var pindexWalk: BlockIndex := this;
      var heightWalk := nHeight;
      while heightWalk > height
        invariant height <= heightWalk == pindexWalk.nHeight && pindexWalk.Linked() && pindexWalk.Skips()
        invariant pindexWalk.At(height) == At(height) && Skips()
        decreases heightWalk
      {
        var heightSkip := SkipHeight(heightWalk);
        var heightSkipPrev := SkipHeight(heightWalk - 1);
        if heightSkip == height ||
           (heightSkip > height && !(heightSkipPrev < heightSkip - 2 && heightSkipPrev >= height))
        {
          pindexWalk.pprev.AtAt(heightSkip, height);
          pindexWalk.pprev.SkipsBelow(heightSkip);
          pindexWalk := pindexWalk.pskip;
          heightWalk := heightSkip;
        } else {
          pindexWalk := pindexWalk.pprev;
          heightWalk := heightWalk - 1;
        }
      }
      r := pindexWalk;
    }

    lemma {:induction false} LineIsBelow()
      requires Linked()
      ensures forall b :: b in Line() ==> b.nHeight <= nHeight
      decreases nHeight
    {
      if pprev != null {
        pprev.LineIsBelow();
      }
    }

    /** Once the parents' skip pointers are built, this builds the next. */
    method BuildSkip()
      requires Linked() && (pprev != null ==> pprev.Skips())
      modifies this`pskip
      ensures Skips()
    {
      if pprev != null {
        pprev.LineIsBelow();
        var skip := pprev.GetAncestor(SkipHeight(nHeight));
        SetSkip(skip);
      }
    }

    method SetSkip(skip: BlockIndex?)
      requires Linked() && pprev != null && this !in pprev.Line() && pprev.Skips() && skip == pprev.At(SkipHeight(nHeight))
      modifies this`pskip
      ensures Skips()
    {
      pskip := skip;
      assert pprev.Skips();
    }
  }

  // ---------------------------------------------------------------------------
  // The active chain.

  function Pow2(n: nat): nat {
    if n == 0 then 1 else 2 * Pow2(n - 1)
  }

  /** How far below the start entry n of a locator is: single steps, then doubling ones. */
  function Descent(n: nat): nat {
    if n <= 11 then n else 9 + Pow2(n - 10)
  }

  lemma DescentNext(n: nat)
    ensures Descent(n + 1) == Descent(n) + if n <= 10 then 1 else Pow2(n - 10)
  {
    if n == 11 {
      assert Pow2(2) == 2 * Pow2(1) && Pow2(1) == 2 * Pow2(0);
    }
  }

  lemma {:induction false} Pow2Grows(n: nat)
    ensures Pow2(n) > n
  {
    if n > 0 {
      Pow2Grows(n - 1);
    }
  }

  /** An entry at least d below the start, and at most twice that. */
  lemma {:induction false} DescentCovers(d: nat, n: nat) returns (i: nat)
    requires Descent(n) >= d
    ensures i <= n && d <= Descent(i) <= 2 * d
  {
    if d <= 11 && d <= n {
      i := d;
    } else if n > 0 && Descent(n - 1) >= d {
      i := DescentCovers(d, n - 1);
    } else {
      i := n;
      if n > 0 {
        DescentNext(n - 1);
      }
    }
  }

  /** What a locator satisfies, aspect by aspect. */
  datatype Aspect = Ancestors | Order | Ends | Heights

  class ActiveChain {
    var vChain: seq<BlockIndex?>

    /** Every entry is at its height and the parent of the next. */
    ghost predicate Consistent()
      reads this
    {
      forall i :: 0 <= i < |vChain| ==>
        && vChain[i] != null && vChain[i].Linked() && vChain[i].nHeight == i
        && (i > 0 ==> vChain[i].pprev == vChain[i - 1])
    }

    constructor ()
      ensures vChain == [] && Consistent()
    {
      vChain := [];
    }

    /** operator[]. */
    function Get(nHeight: int): BlockIndex?
      reads this
    {
      if nHeight < 0 || nHeight >= |vChain| then null else vChain[nHeight]
    }

    predicate Contains(b: BlockIndex)
      reads this
    {
      Get(b.nHeight) == b
    }

    function Height(): int
      reads this
    {
      |vChain| - 1
    }

    function Tip(): BlockIndex?
      reads this
    {
      if vChain == [] then null else vChain[|vChain| - 1]
    }

    /** The entries are the ancestors of each other. */
    lemma {:induction false} EntriesAreAncestors(h: nat, k: nat)
      requires Consistent() && k <= h < |vChain|
      ensures vChain[h] != null && vChain[h].Linked() && vChain[h].nHeight == h && vChain[h].At(k) == vChain[k]
    {
      if k < h {
        EntriesAreAncestors(h - 1, k);
      }
    }

    /** A chain contains a block exactly if it is an ancestor of the tip. */
    lemma ContainsIff(b: BlockIndex)
      requires Consistent() && b.Linked() && |vChain| > 0
      ensures vChain[|vChain| - 1] != null && vChain[|vChain| - 1].Linked() && vChain[|vChain| - 1].nHeight == |vChain| - 1
      ensures Contains(b) <==> b.nHeight < |vChain| && vChain[|vChain| - 1].At(b.nHeight) == b
    {
      EntriesAreAncestors(|vChain| - 1, if b.nHeight < |vChain| then b.nHeight else 0);
    }

    /** The successor of a block of the chain. */
    function Next(b: BlockIndex): (r: BlockIndex?)
      requires Consistent()
      reads this
      ensures r != null ==> Contains(b) && Contains(r) && r.pprev == b
      ensures r == null ==> !Contains(b) || b == Tip()
    {
      if Contains(b) then Get(b.nHeight + 1) else null
    }

    /** Entry h becomes the tip's ancestor at height h, although the walk stops at the first entry that is right. */
    method SetTip(tip: BlockIndex?)
      requires Consistent() && (tip != null ==> tip.Linked())
      modifies this
      ensures Consistent()
      ensures tip == null ==> vChain == []
      ensures tip != null ==> |vChain| == tip.nHeight + 1 && forall h :: 0 <= h < |vChain| ==> vChain[h] == tip.At(h)
    {
      if tip == null {
        vChain := [];
        return;
      }
      ghost var before := vChain;
      var n := tip.nHeight + 1;
      vChain := if n <= |vChain| then vChain[..n] else vChain + seq(n - |vChain|, i => null);
      var pindex: BlockIndex? := tip;
      ghost var top := n;
      while pindex != null && vChain[pindex.nHeight] != pindex
        invariant |vChain| == n && 0 <= top <= n && (pindex == null <==> top == 0)
        invariant pindex != null ==> pindex.Linked() && pindex.nHeight == top - 1 && tip.At(top - 1) == pindex
        invariant forall h :: top <= h < n ==> vChain[h] == tip.At(h)
        invariant forall h :: 0 <= h < top ==> vChain[h] == if h < |before| then before[h] else null
        decreases top
      {
        vChain := vChain[pindex.nHeight := pindex];
        top := top - 1;
        if top > 0 {
          tip.AtAt(top, top - 1);
          assert pindex.At(top - 1) == pindex.pprev.At(top - 1);
        }
        pindex := pindex.pprev;
      }
      if pindex != null {
        StoppedEarly(before, tip, pindex);
      }
      LineIsConsistent(tip, n);
    }

    /** If an entry of a consistent chain is right, so are all below it. */
    lemma StoppedEarly(before: seq<BlockIndex?>, tip: BlockIndex, b: BlockIndex)
      requires tip.Linked() && b.Linked() && b.nHeight <= tip.nHeight && tip.At(b.nHeight) == b
      requires b.nHeight < |before| && before[b.nHeight] == b
      requires forall i :: 0 <= i < |before| ==>
        && before[i] != null && before[i].Linked() && before[i].nHeight == i && (i > 0 ==> before[i].pprev == before[i - 1])
      ensures forall h :: 0 <= h <= b.nHeight ==> before[h] == tip.At(h)
    {
      forall h | 0 <= h <= b.nHeight ensures before[h] == tip.At(h) {
        BelowEntry(before, b.nHeight, h);
        tip.AtAt(b.nHeight, h);
      }
    }

    lemma {:induction false} BelowEntry(before: seq<BlockIndex?>, h: nat, k: nat)
      requires k <= h < |before|
      requires forall i :: 0 <= i < |before| ==>
        && before[i] != null && before[i].Linked() && before[i].nHeight == i && (i > 0 ==> before[i].pprev == before[i - 1])
      ensures before[h].At(k) == before[k]
    {
      if k < h {
        BelowEntry(before, h - 1, k);
      }
    }

    lemma LineIsConsistent(tip: BlockIndex, n: nat)
      requires tip.Linked() && n == tip.nHeight + 1 == |vChain| && forall h :: 0 <= h < n ==> vChain[h] == tip.At(h)
      ensures Consistent()
    {
      forall i | 0 < i < n ensures vChain[i] != null && vChain[i].pprev == vChain[i - 1] {
        tip.AtAt(i, i - 1);
        assert tip.At(i).At(i - 1) == tip.At(i).pprev.At(i - 1);
      }
    }

    /** The last block of the chain that is also an ancestor of the given one, or nothing if there is none. */
    method FindFork(pindex: BlockIndex?) returns (r: BlockIndex?)
      requires Consistent() && (pindex != null ==> pindex.Linked() && pindex.Skips())
      ensures pindex == null ==> r == null
      ensures r != null ==> Contains(r) && r.nHeight <= pindex.nHeight && pindex.At(r.nHeight) == r
      ensures pindex != null ==> forall h :: (if r == null then 0 else r.nHeight + 1) <= h <= pindex.nHeight ==> !Contains(pindex.At(h))
    {
      if pindex == null {
        return null;
      }
      r := pindex;
      if pindex.nHeight > Height() {
        r := pindex.GetAncestor(Height());
      }
      while r != null && !Contains(r)
        invariant r != null ==> r.Linked() && r.nHeight <= pindex.nHeight && pindex.At(r.nHeight) == r
        invariant forall h :: (if r == null then 0 else r.nHeight + 1) <= h <= pindex.nHeight ==> !Contains(pindex.At(h))
        decreases if r == null then 0 else r.nHeight + 1
      {
        if r.pprev != null {
          pindex.AtAt(r.nHeight, r.nHeight - 1);
          assert r.At(r.nHeight - 1) == r.pprev.At(r.nHeight - 1);
        }
        r := r.pprev;
      }
    }

    /** One step of GetLocator: the ancestor at a lower height, by the index if possible. */
    method StepBack(b: BlockIndex, nHeight: nat) returns (r: BlockIndex)
      requires Consistent() && b.Linked() && b.Skips() && nHeight <= b.nHeight
      ensures r == b.At(nHeight) && r.Skips()
    {
      if Contains(b) {
        EntriesAreAncestors(b.nHeight, nHeight);
        b.SkipsBelow(nHeight);
        r := Get(nHeight);
      } else {
        r := b.GetAncestor(nHeight);
      }
    }

    /** The next block of the locator, and the next step; n blocks are listed. */
    method StepOn(b: BlockIndex, n: nat, nStep: nat, ghost from: BlockIndex, ghost last: nat)
      returns (r: BlockIndex, next: nat)
      requires Consistent() && b.Linked() && b.Skips() && from.Linked() && b.nHeight <= from.nHeight
      requires b.nHeight > 0 && n > 0 && from.At(b.nHeight) == b && Stepping(from.nHeight, n - 1, last, b.nHeight, nStep)
      ensures r.Linked() && r.Skips() && r.nHeight < b.nHeight && from.At(r.nHeight) == r
      ensures Stepping(from.nHeight, n, b.nHeight, r.nHeight, next)
    {
      NextStep(from.nHeight, n - 1, last, b.nHeight, nStep);
      var nHeight := if b.nHeight - nStep < 0 then 0 else b.nHeight - nStep;
      from.AtAt(b.nHeight, nHeight);
      r := StepBack(b, nHeight);
      next := if n > 10 then nStep * 2 else nStep;
    }

    /**
     Ancestors of the start in strictly descending order, from the start itself to the genesis
     block, and at most 12 + log2(height + 1) of them: the start and the eleven before it, and
     then one at each distance 9 + 2^k.
     */
    method GetLocator(start: BlockIndex?) returns (vHave: seq<BlockIndex>)
      requires Consistent() && (start != null ==> start.Linked() && start.Skips())
      requires start == null && Tip() != null ==> Tip().Skips()
      ensures var from := if start == null then Tip() else start;
              && (from == null ==> vHave == [])
              && (from != null ==> IsLocator(from, vHave))
    {
      var pindex := if start == null then Tip() else start;
      vHave := [];
      if pindex == null {
        return;
      }
      ghost var from: BlockIndex := pindex;
      var nStep: nat := 1;
      ghost var last := from.nHeight + 1;
      while pindex != null
        invariant pindex != null && pindex.Linked() && pindex.Skips()
        invariant pindex.nHeight <= from.nHeight && pindex.nHeight < last && from.At(pindex.nHeight) == pindex
        invariant Descends(from, vHave, last) && (vHave == [] ==> pindex == from)
        invariant Stepping(from.nHeight, |vHave|, last, pindex.nHeight, nStep)
        decreases pindex.nHeight
      {
        Extend(from, vHave, last, pindex);
        vHave := vHave + [pindex];
        if pindex.nHeight == 0 {
          LocatorLength(from.nHeight, |vHave|);
          break;
        }
        ghost var was := last;
        last := pindex.nHeight;
        pindex, nStep := StepOn(pindex, |vHave|, nStep, from, was);
      }
    }

    /** n blocks are listed, the last at height `last`, the next will be at height p. */
    ghost predicate Stepping(height: nat, n: nat, last: nat, p: nat, nStep: nat) {
      && nStep == (if n <= 10 then 1 else Pow2(n - 10))
      && (n > 0 ==> last > 0 && height - last == Descent(n - 1))
      && p == HeightAt(height, n)
    }

    /** The height of entry n. */
    function HeightAt(height: nat, n: nat): nat {
      if Descent(n) < height then height - Descent(n) else 0
    }

    lemma NextStep(height: nat, n: nat, last: nat, p: nat, nStep: nat)
      requires Stepping(height, n, last, p, nStep) && p > 0
      ensures nStep > 0
      ensures Stepping(height, n + 1, p, if p - nStep < 0 then 0 else p - nStep, if n + 1 > 10 then nStep * 2 else nStep)
    {
      DescentNext(n);
      if n > 10 {
        Pow2Grows(n - 10);
      }
    }

    lemma Extend(from: BlockIndex, vHave: seq<BlockIndex>, last: nat, b: BlockIndex)
      requires from.Linked() && Descends(from, vHave, last) && b.nHeight < last && b.nHeight <= from.nHeight
      requires from.At(b.nHeight) == b && (vHave == [] ==> b == from) && b.nHeight == HeightAt(from.nHeight, |vHave|)
      ensures Descends(from, vHave + [b], b.nHeight)
    {
      forall c ensures Descending(from, vHave + [b], b.nHeight, c) {
        assert Descending(from, vHave, last, c) && Descending(from, vHave, last, Ends);
        ExtendBy(from, vHave, last, b, c);
      }
    }

    lemma ExtendBy(from: BlockIndex, vHave: seq<BlockIndex>, last: nat, b: BlockIndex, c: Aspect)
      requires from.Linked() && Descending(from, vHave, last, c) && Descending(from, vHave, last, Ends)
      requires b.nHeight < last && b.nHeight <= from.nHeight
      requires from.At(b.nHeight) == b && (vHave == [] ==> b == from) && b.nHeight == HeightAt(from.nHeight, |vHave|)
      ensures Descending(from, vHave + [b], b.nHeight, c)
    {
      match c
      case Ancestors =>
      case Order => ExtendOrder(vHave, b);
      case Ends =>
      case Heights => ExtendHeights(from.nHeight, vHave, b);
    }

    lemma ExtendOrder(vHave: seq<BlockIndex>, b: BlockIndex)
      requires forall i :: 0 <= i < |vHave| - 1 ==> vHave[i].nHeight > vHave[i + 1].nHeight
      requires vHave != [] ==> vHave[|vHave| - 1].nHeight > b.nHeight
      ensures var all := vHave + [b]; forall i :: 0 <= i < |all| - 1 ==> all[i].nHeight > all[i + 1].nHeight
    {
    }

    lemma ExtendHeights(height: nat, vHave: seq<BlockIndex>, b: BlockIndex)
      requires b.nHeight == HeightAt(height, |vHave|) && forall i :: 0 <= i < |vHave| ==> vHave[i].nHeight == HeightAt(height, i)
      ensures var all := vHave + [b]; forall i :: 0 <= i < |all| ==> all[i].nHeight == HeightAt(height, i)
    {
    }

    ghost predicate Descending(from: BlockIndex, vHave: seq<BlockIndex>, last: nat, c: Aspect)
      requires from.Linked()
    {
      match c
      case Ancestors => forall i :: 0 <= i < |vHave| ==> vHave[i].nHeight <= from.nHeight && from.At(vHave[i].nHeight) == vHave[i]
      case Order => forall i :: 0 <= i < |vHave| - 1 ==> vHave[i].nHeight > vHave[i + 1].nHeight
      case Ends => vHave != [] ==> vHave[0] == from && vHave[|vHave| - 1].nHeight == last
      case Heights => forall i :: 0 <= i < |vHave| ==> vHave[i].nHeight == HeightAt(from.nHeight, i)
    }

    /** Ancestors of a block in descending order, down to `last`, at the heights of a locator. */
    ghost predicate Descends(from: BlockIndex, vHave: seq<BlockIndex>, last: nat)
      requires from.Linked()
    {
      forall c :: Descending(from, vHave, last, c)
    }

    ghost predicate IsLocator(from: BlockIndex, vHave: seq<BlockIndex>)
      requires from.Linked()
    {
      && vHave != [] && Descends(from, vHave, 0)
      && (|vHave| <= 12 || Pow2(|vHave| - 12) <= from.nHeight + 1)
    }

    /** The block before the last one was not yet at height zero. */
    lemma LocatorLength(height: nat, n: nat)
      requires n > 1 ==> height > Descent(n - 2)
      ensures n <= 12 || Pow2(n - 12) <= height + 1
    {
    }

    /**
     What a locator is for: whoever shares the ancestors up to height h only is offered one of
     them that is at most twice as far below the start.
     */
    ghost predicate Covers(from: BlockIndex, vHave: seq<BlockIndex>, h: nat)
      requires h <= from.nHeight
    {
      exists i :: 0 <= i < |vHave| && vHave[i].nHeight <= h && from.nHeight - vHave[i].nHeight <= 2 * (from.nHeight - h)
    }

    lemma LocatorCovers(from: BlockIndex, vHave: seq<BlockIndex>, h: nat)
      requires from.Linked() && IsLocator(from, vHave) && h <= from.nHeight
      ensures Covers(from, vHave, h)
    {
      assert Descending(from, vHave, 0, Ends) && Descending(from, vHave, 0, Heights);
      var i := DescentCovers(from.nHeight - h, |vHave| - 1);
      assert vHave[i].nHeight == HeightAt(from.nHeight, i);
    }

    /** Entry i is i below the start up to the twelfth, and then 9 + 2^(i - 10) below, but never below the genesis block. */
    lemma LocatorHeights(from: BlockIndex, vHave: seq<BlockIndex>, i: nat)
      requires from.Linked() && IsLocator(from, vHave) && i < |vHave|
      ensures var d := if i <= 11 then i else 9 + Pow2(i - 10);
              vHave[i].nHeight == if d <= from.nHeight then from.nHeight - d else 0
    {
      assert Descending(from, vHave, 0, Heights);
    }

    /** Entries are ancestors of the start, and only the last is the genesis block. */
    lemma LocatorEnds(from: BlockIndex, vHave: seq<BlockIndex>, i: nat)
      requires from.Linked() && IsLocator(from, vHave) && i < |vHave|
      ensures vHave[i].nHeight <= from.nHeight && from.At(vHave[i].nHeight) == vHave[i] && vHave[0] == from
      ensures vHave[i].nHeight == 0 <==> i == |vHave| - 1
    {
      assert Descending(from, vHave, 0, Ancestors);
      assert Descending(from, vHave, 0, Ends);
      if i < |vHave| - 1 {
        assert Descending(from, vHave, 0, Order);
        assert vHave[i].nHeight > vHave[i + 1].nHeight;
      }
    }
  }
}
