/** CCoins (src/coins.h, src/coins.cpp): the outputs of one transaction, spent ones nulled. */
module Coins {

  datatype Option<T> = None | Some(value: T)

  /** CTxOut; a spent output is null. */
  datatype TxOut = TxOut(value: int, script: seq<nat>)
  {
    predicate IsNull() { value == -1 }
  }

  const NULL_OUT: TxOut := TxOut(-1, [])

  datatype Coins = Coins(coinBase: bool, coinStake: bool, vout: seq<TxOut>, height: int, version: int)

  const EMPTY: Coins := Coins(false, false, [], 0, 0)

  /** vout without the null outputs at its end. */
  function Trim(vout: seq<TxOut>): (r: seq<TxOut>)
    ensures Trimmed(r) && r <= vout
    ensures forall i :: |r| <= i < |vout| ==> vout[i].IsNull()
  {
    if vout != [] && vout[|vout| - 1].IsNull() then Trim(vout[..|vout| - 1]) else vout
  }

  predicate Trimmed(vout: seq<TxOut>) {
    vout == [] || !vout[|vout| - 1].IsNull()
  }

  function Cleaned(c: Coins): Coins {
    c.(vout := Trim(c.vout))
  }

  predicate IsPruned(c: Coins) {
    forall i :: 0 <= i < |c.vout| ==> c.vout[i].IsNull()
  }

  /** operator==: fully spent coins are all equal. */
  predicate Same(a: Coins, b: Coins) {
    (IsPruned(a) && IsPruned(b)) || a == b
  }

  lemma TrimmedIsPrunedIffEmpty(c: Coins)
    requires Trimmed(c.vout)
    ensures IsPruned(c) <==> c.vout == []
  {
  }

  lemma CleanedKeepsOutputs(c: Coins)
    ensures IsPruned(Cleaned(c)) <==> IsPruned(c)
    ensures forall i :: 0 <= i < |c.vout| && !c.vout[i].IsNull() ==> i < |Cleaned(c).vout| && Cleaned(c).vout[i] == c.vout[i]
  {
    var r := Trim(c.vout);
    forall i | 0 <= i < |c.vout| ensures i < |r| ==> r[i] == c.vout[i] {
    }
    assert forall i :: 0 <= i < |r| ==> r[i] == c.vout[i];
  }

  /** What is left to see of an entry: nothing if it is fully spent. */
  function Visible(c: Option<Coins>): Option<Coins> {
    if c.Some? && IsPruned(c.value) then None else c
  }

  /** Two entries look the same exactly if they are equal as coins are. */
  lemma VisibleIsSame(a: Coins, b: Coins)
    ensures Visible(Some(a)) == Visible(Some(b)) <==> Same(a, b)
  {
  }

  /** Cleanup, as the loop it is. */
  method Cleanup(c: Coins) returns (r: Coins)
    ensures r == Cleaned(c)
  {
    r := c;
    while |r.vout| > 0 && r.vout[|r.vout| - 1].IsNull()
      invariant r == c.(vout := r.vout) && Trim(r.vout) == Trim(c.vout)
      decreases |r.vout|
    {
      r := r.(vout := r.vout[..|r.vout| - 1]);
    }
  }

  /** CTxInUndo: what a spend must remember; the metadata only when nothing is left. */
  datatype Undo = Undo(txout: TxOut, height: int, coinBase: bool, coinStake: bool, version: int)

  /** Spend: null one available output and clean up. */
  method Spend(c: Coins, n: nat) returns (r: Option<(Coins, Undo)>)
    ensures r.Some? <==> n < |c.vout| && !c.vout[n].IsNull()
    ensures r.Some? ==>
      var (d, u) := r.value;
      && Trimmed(d.vout) && |d.vout| <= |c.vout|
      && (forall i :: 0 <= i < |d.vout| ==> d.vout[i] == if i == n then NULL_OUT else c.vout[i])
      && (forall i :: |d.vout| <= i < |c.vout| && i != n ==> c.vout[i].IsNull())
      && d == c.(vout := d.vout)
      && u.txout == c.vout[n]
      && u == (if d.vout == [] then Undo(c.vout[n], c.height, c.coinBase, c.coinStake, c.version)
               else Undo(c.vout[n], 0, false, false, 0))
  {
    if n >= |c.vout| {
      return None;
    }
    if c.vout[n].IsNull() {
      return None;
    }
    var undo := Undo(c.vout[n], 0, false, false, 0);
    var spent := c.vout[n := NULL_OUT];
    var d := Cleanup(c.(vout := spent));
    forall i | |d.vout| <= i < |c.vout| && i != n ensures c.vout[i].IsNull() {
      assert spent[i].IsNull();
    }
    if |d.vout| == 0 {
      undo := undo.(height := c.height, coinBase := c.coinBase, coinStake := c.coinStake, version := c.version);
    }
    r := Some((d, undo));
  }
}
