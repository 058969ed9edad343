/**
 The stored form of CCoins (src/coins.h, src/coins.cpp): version, a header code, a bit
 mask of the available outputs whose length is never stored, the available outputs, and
 the height.  Scripts go through an arbitrary prefix-free codec.
 */
module CoinsCodec {
  import opened Coins
  import opened VarInt
  import Compressor

  /** CScriptCompressor: any way to write a script that can be read back from in front of anything. */
  datatype ScriptCodec = ScriptCodec(
    write: seq<nat> -> seq<Byte>,
    read: seq<Byte> -> Option<(seq<nat>, seq<Byte>)>)

  ghost predicate Faithful(k: ScriptCodec, script: seq<nat>) {
    forall rest :: k.read(k.write(script) + rest) == Some((script, rest))
  }

  // ---------------------------------------------------------------------------
  // The mask.

  predicate Avail(vout: seq<TxOut>, i: nat) {
    i < |vout| && !vout[i].IsNull()
  }

  /** k availabilities from `start` on as a number, the first in the lowest bit. */
  function Bits(vout: seq<TxOut>, start: nat, k: nat): nat
    decreases k, vout
  {
    if k == 0 then 0 else (if Avail(vout, start) then 1 else 0) + 2 * Bits(vout, start + 1, k - 1)
  }

  predicate Bit(x: nat, p: nat) {
    if p == 0 then x % 2 == 1 else Bit(x / 2, p - 1)
  }

  function Pow2(k: nat): nat {
    if k == 0 then 1 else 2 * Pow2(k - 1)
  }

  lemma {:induction false} BitsBound(vout: seq<TxOut>, start: nat, k: nat)
    ensures Bits(vout, start, k) < Pow2(k)
    decreases k
  {
    if k > 0 {
      BitsBound(vout, start + 1, k - 1);
    }
  }

  lemma {:induction false} BitsAt(vout: seq<TxOut>, start: nat, k: nat, p: nat)
    requires p < k
    ensures Bit(Bits(vout, start, k), p) <==> Avail(vout, start + p)
    decreases k
  {
    HalfBits(vout, start, k);
    if p > 0 {
      BitsAt(vout, start + 1, k - 1, p - 1);
    }
  }

  lemma HalfBits(vout: seq<TxOut>, start: nat, k: nat)
    requires k > 0
    ensures Bits(vout, start, k) / 2 == Bits(vout, start + 1, k - 1)
    ensures Bits(vout, start, k) % 2 == 1 <==> Avail(vout, start)
  {
    var rest := Bits(vout, start + 1, k - 1);
    assert Bits(vout, start, k) == (if Avail(vout, start) then 1 else 0) + 2 * rest;
  }

  lemma {:induction false} ZeroHasNoBits(p: nat)
    ensures !Bit(0, p)
  {
    if p > 0 {
      ZeroHasNoBits(p - 1);
    }
  }

  /** The byte for outputs 2 + 8b to 9 + 8b. */
  function MaskByte(vout: seq<TxOut>, b: nat): Byte {
    BitsBound(vout, 2 + b * 8, 8);
    assert Pow2(8) == 2 * Pow2(7) == 4 * Pow2(6) == 8 * Pow2(5) == 16 * Pow2(4) == 32 * Pow2(3);
    assert Pow2(3) == 8;
    Bits(vout, 2 + b * 8, 8)
  }

  /** The number of mask bytes up to the last non-zero one, among the first n. */
  function MaskSize(vout: seq<TxOut>, n: nat): (m: nat)
    ensures m <= n && (m > 0 ==> MaskByte(vout, m - 1) != 0)
    ensures forall b :: m <= b < n ==> MaskByte(vout, b) == 0
  {
    if n == 0 then 0 else if MaskByte(vout, n - 1) != 0 then n else MaskSize(vout, n - 1)
  }

  /** The number of non-zero mask bytes among the first n. */
  function Nonzero(vout: seq<TxOut>, n: nat): nat {
    if n == 0 then 0 else Nonzero(vout, n - 1) + if MaskByte(vout, n - 1) != 0 then 1 else 0
  }

  /** How many mask bytes cover all outputs. */
  function Blocks(vout: seq<TxOut>): nat {
    if |vout| <= 2 then 0 else (|vout| + 5) / 8
  }

  lemma {:induction false} NonzeroSame(vout: seq<TxOut>, m: nat, n: nat)
    requires m <= n && forall b :: m <= b < n ==> MaskByte(vout, b) == 0
    ensures Nonzero(vout, m) == Nonzero(vout, n)
  {
    if m < n {
      NonzeroSame(vout, m, n - 1);
    }
  }

  lemma {:induction false} NonzeroGrows(vout: seq<TxOut>, b: nat, m: nat)
    requires b <= m
    ensures Nonzero(vout, b) <= Nonzero(vout, m)
    ensures b < m && MaskByte(vout, m - 1) != 0 ==> Nonzero(vout, b) < Nonzero(vout, m)
  {
    if b < m {
      NonzeroGrows(vout, b, m - 1);
    }
  }

  /** The mask reaches every available output. */
  lemma MaskCovers(vout: seq<TxOut>, i: nat)
    requires Avail(vout, i)
    ensures i < 2 + 8 * MaskSize(vout, Blocks(vout))
  {
    if i >= 2 {
      var b := (i - 2) / 8;
      BitsAt(vout, 2 + b * 8, 8, i - 2 - b * 8);
      ZeroHasNoBits(i - 2 - b * 8);
      assert MaskByte(vout, b) != 0;
      assert b < Blocks(vout);
    }
  }

  // ---------------------------------------------------------------------------
  // Writing.

  function WriteOut(k: ScriptCodec, out: TxOut): seq<Byte>
    requires out.value >= 0
  {
    Write(Compressor.Compress(out.value)) + k.write(out.script)
  }

  /** Outputs have amounts, except the null ones. */
  predicate Payable(vout: seq<TxOut>) {
    forall i :: 0 <= i < |vout| && !vout[i].IsNull() ==> vout[i].value >= 0
  }

  /** The available outputs from i on. */
  function WriteOuts(k: ScriptCodec, vout: seq<TxOut>, i: nat): seq<Byte>
    requires Payable(vout)
    decreases |vout| - i
  {
    if i >= |vout| then []
    else (if Avail(vout, i) then WriteOut(k, vout[i]) else []) + WriteOuts(k, vout, i + 1)
  }

  function Mask(vout: seq<TxOut>, m: nat): seq<Byte> {
    seq(m, b requires 0 <= b < m => MaskByte(vout, b))
  }

  function HeaderCode(c: Coins): int {
    var first, second := Avail(c.vout, 0), Avail(c.vout, 1);
    16 * (Nonzero(c.vout, Blocks(c.vout)) - if first || second then 0 else 1)
    + (if c.coinBase then 1 else 0) + (if c.coinStake then 2 else 0)
    + (if first then 4 else 0) + (if second then 8 else 0)
  }

  function Serialize(k: ScriptCodec, c: Coins): seq<Byte>
    requires Payable(c.vout)
  {
    Write(c.version) + Write(HeaderCode(c)) + Mask(c.vout, MaskSize(c.vout, Blocks(c.vout)))
    + WriteOuts(k, c.vout, 0) + Write(c.height)
  }

  // ---------------------------------------------------------------------------
  // Reading.

  function EightBits(b: nat): seq<bool> {
    seq(8, p requires 0 <= p < 8 => Bit(b, p))
  }

  /** Mask bytes until n of them were non-zero. */
  function ReadMask(bytes: seq<Byte>, n: nat, avail: seq<bool>): Option<(seq<bool>, seq<Byte>)>
    decreases |bytes|
  {
    if n == 0 then Some((avail, bytes))
    else if bytes == [] then None
    else ReadMask(bytes[1..], if bytes[0] != 0 then n - 1 else n, avail + EightBits(bytes[0]))
  }

  function ReadOut(k: ScriptCodec, bytes: seq<Byte>): Option<(TxOut, seq<Byte>)> {
    var amount := Read(bytes, 0);
    if amount.None? then None
    else
      var script := k.read(amount.value.1);
      if script.None? then None
      else Some((TxOut(Compressor.Decompress(amount.value.0), script.value.0), script.value.1))
  }

  /** One output for each availability, null where there is none. */
  function ReadOuts(k: ScriptCodec, bytes: seq<Byte>, avail: seq<bool>, vout: seq<TxOut>): Option<(seq<TxOut>, seq<Byte>)>
    decreases |avail| - |vout|
  {
    if |vout| >= |avail| then Some((vout, bytes))
    else if !avail[|vout|] then ReadOuts(k, bytes, avail, vout + [NULL_OUT])
    else
      var out := ReadOut(k, bytes);
      if out.None? then None else ReadOuts(k, out.value.1, avail, vout + [out.value.0])
  }

  /** What follows the mask. */
  function ReadTail(k: ScriptCodec, version: nat, n: nat, avail: seq<bool>, bytes: seq<Byte>): Option<(Coins, seq<Byte>)> {
    var vout := ReadOuts(k, bytes, avail, []);
    if vout.None? then None else
    var height := Read(vout.value.1, 0);
    if height.None? then None else
    Some((Cleaned(Coins(Bit(n, 0), Bit(n, 1), vout.value.0, height.value.0, version)), height.value.1))
  }

  /** What follows the version and the header code n. */
  function ReadRest(k: ScriptCodec, version: nat, n: nat, bytes: seq<Byte>): Option<(Coins, seq<Byte>)> {
    var first, second := Bit(n, 2), Bit(n, 3);
    var mask := ReadMask(bytes, n / 16 + if first || second then 0 else 1, [first, second]);
    if mask.None? then None else ReadTail(k, version, n, mask.value.0, mask.value.1)
  }

  function Unserialize(k: ScriptCodec, bytes: seq<Byte>): Option<(Coins, seq<Byte>)> {
    var version := Read(bytes, 0);
    if version.None? then None else
    var code := Read(version.value.1, 0);
    if code.None? then None else
    ReadRest(k, version.value.0, code.value.0, code.value.1)
  }

  // ---------------------------------------------------------------------------
  // The round trip, part by part.

  function Availabilities(vout: seq<TxOut>, n: nat): seq<bool> {
    seq(n, i requires 0 <= i < n => Avail(vout, i))
  }

  lemma NextAvailabilities(vout: seq<TxOut>, b: nat)
    ensures Availabilities(vout, 2 + 8 * b) + EightBits(MaskByte(vout, b)) == Availabilities(vout, 2 + 8 * (b + 1))
  {
    forall p | 0 <= p < 8 ensures Bit(MaskByte(vout, b), p) <==> Avail(vout, 2 + 8 * b + p) {
      BitsAt(vout, 2 + b * 8, 8, p);
    }
  }

  /** Counting non-zero bytes finds the end of the mask: its last byte is not zero. */
  lemma {:induction false} ReadMaskBack(vout: seq<TxOut>, b: nat, m: nat, rest: seq<Byte>)
    requires b <= m && (m > 0 ==> MaskByte(vout, m - 1) != 0) && Nonzero(vout, b) <= Nonzero(vout, m)
    ensures ReadMask(Mask(vout, m)[b..] + rest, Nonzero(vout, m) - Nonzero(vout, b), Availabilities(vout, 2 + 8 * b))
            == Some((Availabilities(vout, 2 + 8 * m), rest))
    decreases m - b
  {
    var bytes := Mask(vout, m)[b..] + rest;
    if b == m {
      assert bytes == rest;
    } else {
      NonzeroGrows(vout, b, m);
      NonzeroGrows(vout, b + 1, m);
      NextAvailabilities(vout, b);
      assert bytes[0] == MaskByte(vout, b) && bytes[1..] == Mask(vout, m)[b + 1..] + rest;
      ReadMaskBack(vout, b + 1, m, rest);
    }
  }

  lemma ReadOutBack(k: ScriptCodec, out: TxOut, rest: seq<Byte>)
    requires out.value >= 0 && Faithful(k, out.script)
    ensures ReadOut(k, WriteOut(k, out) + rest) == Some((out, rest))
  {
    var amount := Compressor.Compress(out.value);
    ReadWrite(amount, k.write(out.script) + rest);
    Compressor.DecompressCompress(out.value);
    assert WriteOut(k, out) + rest == Write(amount) + (k.write(out.script) + rest);
  }

  /** The outputs as they come back: n of them, the unavailable ones null. */
  function Restored(vout: seq<TxOut>, n: nat): seq<TxOut> {
    seq(n, i requires 0 <= i < n => if Avail(vout, i) then vout[i] else NULL_OUT)
  }

  /** One more output is restored. */
  lemma RestoredNext(vout: seq<TxOut>, i: nat)
    ensures Restored(vout, i + 1) == Restored(vout, i) + [if Avail(vout, i) then vout[i] else NULL_OUT]
  {
  }

  /** Reading one output, or none, and going on. */
  lemma ReadOutsStep(k: ScriptCodec, vout: seq<TxOut>, i: nat, n: nat, rest: seq<Byte>)
    requires Payable(vout) && i < n && (Avail(vout, i) ==> Faithful(k, vout[i].script))
    ensures ReadOuts(k, WriteOuts(k, vout, i) + rest, Availabilities(vout, n), Restored(vout, i))
            == ReadOuts(k, WriteOuts(k, vout, i + 1) + rest, Availabilities(vout, n), Restored(vout, i + 1))
  {
    RestoredNext(vout, i);
    var later := WriteOuts(k, vout, i + 1) + rest;
    if Avail(vout, i) {
      assert WriteOuts(k, vout, i) + rest == WriteOut(k, vout[i]) + later;
      ReadOutBack(k, vout[i], later);
    } else {
      assert WriteOuts(k, vout, i) + rest == later;
    }
  }

  lemma {:induction false} ReadOutsBack(k: ScriptCodec, vout: seq<TxOut>, i: nat, n: nat, rest: seq<Byte>)
    requires Payable(vout) && i <= n && forall j: nat :: Avail(vout, j) ==> j < n && Faithful(k, vout[j].script)
    ensures ReadOuts(k, WriteOuts(k, vout, i) + rest, Availabilities(vout, n), Restored(vout, i))
            == Some((Restored(vout, n), rest))
    decreases n - i
  {
    if i == n {
      NothingLeft(k, vout, n);
      assert WriteOuts(k, vout, n) + rest == rest;
    } else {
      ReadOutsStep(k, vout, i, n, rest);
      ReadOutsBack(k, vout, i + 1, n, rest);
    }
  }

  lemma {:induction false} NothingLeft(k: ScriptCodec, vout: seq<TxOut>, i: nat)
    requires Payable(vout) && forall j: nat :: Avail(vout, j) ==> j < i
    ensures WriteOuts(k, vout, i) == []
    decreases |vout| - i
  {
    if i < |vout| {
      NothingLeft(k, vout, i + 1);
    }
  }

  /** Spent outputs lose what they still held. */
  function Blank(c: Coins): Coins {
    c.(vout := Restored(c.vout, |c.vout|))
  }

  /** How many outputs come back before the clean-up makes no difference. */
  lemma TrimRestored(vout: seq<TxOut>, m: nat, n: nat)
    requires forall i: nat :: Avail(vout, i) ==> i < m && i < n
    ensures Trim(Restored(vout, m)) == Trim(Restored(vout, n))
  {
    var a, b := Trim(Restored(vout, m)), Trim(Restored(vout, n));
    if |a| > 0 {
      assert a[|a| - 1] == Restored(vout, m)[|a| - 1];
      assert !Restored(vout, n)[|a| - 1].IsNull();
    }
    if |b| > 0 {
      assert b[|b| - 1] == Restored(vout, n)[|b| - 1];
      assert !Restored(vout, m)[|b| - 1].IsNull();
    }
    assert |a| == |b|;
  }

  lemma HeaderBits(q: nat, a: bool, b: bool, c: bool, d: bool)
    ensures var n := 16 * q + (if a then 1 else 0) + (if b then 2 else 0) + (if c then 4 else 0) + (if d then 8 else 0);
            n / 16 == q && Bit(n, 0) == a && Bit(n, 1) == b && Bit(n, 2) == c && Bit(n, 3) == d
  {
    var n0 := 16 * q + (if a then 1 else 0) + (if b then 2 else 0) + (if c then 4 else 0) + (if d then 8 else 0);
    var n1 := 8 * q + (if b then 1 else 0) + (if c then 2 else 0) + (if d then 4 else 0);
    var n2 := 4 * q + (if c then 1 else 0) + (if d then 2 else 0);
    var n3 := 2 * q + (if d then 1 else 0);
    assert n0 / 2 == n1 && n1 / 2 == n2 && n2 / 2 == n3;
    assert Bit(n0, 2) == Bit(n1, 1) == Bit(n2, 0);
    assert Bit(n0, 3) == Bit(n1, 2) == Bit(n2, 1) == Bit(n3, 0);
  }

  /** A number as it comes back through WriteVarInt and ReadVarInt. */
  function ReadBack(n: int): nat {
    if n >= 0 then n else n % 128
  }

  lemma ReadWriteBack(n: int, rest: seq<Byte>)
    ensures Read(Write(n) + rest, 0) == Some((ReadBack(n), rest))
  {
    if n >= 0 {
      ReadWrite(n, rest);
    } else {
      NegativeIsLost(n, rest);
    }
  }

  lemma CodeIsNat(c: Coins)
    requires !IsPruned(c)
    ensures HeaderCode(c) >= 0
    ensures Avail(c.vout, 0) || Avail(c.vout, 1) || Nonzero(c.vout, Blocks(c.vout)) > 0
  {
    var i :| 0 <= i < |c.vout| && !c.vout[i].IsNull();
    if i >= 2 {
      MaskCovers(c.vout, i);
      var m := MaskSize(c.vout, Blocks(c.vout));
      NonzeroGrows(c.vout, 0, m);
      NonzeroSame(c.vout, m, Blocks(c.vout));
    }
  }

  /** What comes back: the same outputs cleaned up, and the numbers if they were not negative. */
  function Reread(c: Coins): Coins {
    Cleaned(Blank(c)).(version := ReadBack(c.version), height := ReadBack(c.height))
  }

  ghost predicate Storable(k: ScriptCodec, c: Coins) {
    !IsPruned(c) && Payable(c.vout) && forall i: nat :: Avail(c.vout, i) ==> Faithful(k, c.vout[i].script)
  }

  lemma ReadMaskOf(c: Coins, rest: seq<Byte>)
    requires !IsPruned(c)
    ensures HeaderCode(c) >= 0
    ensures var n, m := HeaderCode(c), MaskSize(c.vout, Blocks(c.vout));
            && Bit(n, 0) == c.coinBase && Bit(n, 1) == c.coinStake
            && ReadMask(Mask(c.vout, m) + rest, n / 16 + if Bit(n, 2) || Bit(n, 3) then 0 else 1, [Bit(n, 2), Bit(n, 3)])
               == Some((Availabilities(c.vout, 2 + 8 * m), rest))
  {
    CodeIsNat(c);
    var n, m := HeaderCode(c), MaskSize(c.vout, Blocks(c.vout));
    var first, second := Avail(c.vout, 0), Avail(c.vout, 1);
    var q := Nonzero(c.vout, Blocks(c.vout)) - if first || second then 0 else 1;
    HeaderBits(q, c.coinBase, c.coinStake, first, second);
    NonzeroSame(c.vout, m, Blocks(c.vout));
    ReadMaskBack(c.vout, 0, m, rest);
    assert Mask(c.vout, m)[0..] == Mask(c.vout, m);
    assert Availabilities(c.vout, 2) == [first, second];
  }

  lemma ReadOutsOf(k: ScriptCodec, c: Coins, n: nat, rest: seq<Byte>)
    requires Storable(k, c) && n == 2 + 8 * MaskSize(c.vout, Blocks(c.vout))
    ensures ReadOuts(k, WriteOuts(k, c.vout, 0) + rest, Availabilities(c.vout, n), []) == Some((Restored(c.vout, n), rest))
    ensures Trim(Restored(c.vout, n)) == Cleaned(Blank(c)).vout
  {
    forall j: nat | Avail(c.vout, j) ensures j < n && Faithful(k, c.vout[j].script) {
      MaskCovers(c.vout, j);
    }
    assert Restored(c.vout, 0) == [];
    ReadOutsBack(k, c.vout, 0, n, rest);
    TrimRestored(c.vout, n, |c.vout|);
  }

  /** What follows the header code. */
  function WriteRest(k: ScriptCodec, c: Coins): seq<Byte>
    requires Payable(c.vout)
  {
    Mask(c.vout, MaskSize(c.vout, Blocks(c.vout))) + WriteOuts(k, c.vout, 0) + Write(c.height)
  }

  lemma WriteRestIs(k: ScriptCodec, c: Coins, rest: seq<Byte>)
    requires Payable(c.vout)
    ensures WriteRest(k, c) + rest
            == Mask(c.vout, MaskSize(c.vout, Blocks(c.vout))) + (WriteOuts(k, c.vout, 0) + (Write(c.height) + rest))
  {
  }

  lemma ReadRestOf(k: ScriptCodec, c: Coins, version: nat, rest: seq<Byte>)
    requires Storable(k, c)
    ensures HeaderCode(c) >= 0
    ensures ReadRest(k, version, HeaderCode(c), WriteRest(k, c) + rest) == Some((Reread(c).(version := version), rest))
  {
    var last := Write(c.height) + rest;
    WriteRestIs(k, c, rest);
    ReadMaskOf(c, WriteOuts(k, c.vout, 0) + last);
    ReadTailOf(k, c, version, 2 + 8 * MaskSize(c.vout, Blocks(c.vout)), rest);
  }

  lemma ReadTailOf(k: ScriptCodec, c: Coins, version: nat, m: nat, rest: seq<Byte>)
    requires Storable(k, c) && m == 2 + 8 * MaskSize(c.vout, Blocks(c.vout))
    requires HeaderCode(c) >= 0 && Bit(HeaderCode(c), 0) == c.coinBase && Bit(HeaderCode(c), 1) == c.coinStake
    ensures ReadTail(k, version, HeaderCode(c), Availabilities(c.vout, m), WriteOuts(k, c.vout, 0) + (Write(c.height) + rest))
            == Some((Reread(c).(version := version), rest))
  {
    ReadOutsOf(k, c, m, Write(c.height) + rest);
    ReadWriteBack(c.height, rest);
  }

  /** Unserialize after Serialize, in front of anything: exactly the bytes written are consumed. */
  lemma RoundTrip(k: ScriptCodec, c: Coins, rest: seq<Byte>)
    requires Storable(k, c)
    ensures Unserialize(k, Serialize(k, c) + rest) == Some((Reread(c), rest))
  {
    var r1 := WriteRest(k, c) + rest;
    var r0 := Write(HeaderCode(c)) + r1;
    assert Serialize(k, c) + rest == Write(c.version) + r0;
    ReadRestOf(k, c, ReadBack(c.version), rest);
    ReadWriteBack(c.version, r0);
    ReadWriteBack(HeaderCode(c), r1);
  }

  /** The same coins come back exactly if they were cleaned up and their numbers not negative. */
  lemma RoundTripIsExactIff(k: ScriptCodec, c: Coins, rest: seq<Byte>)
    requires Storable(k, c)
    ensures Unserialize(k, Serialize(k, c) + rest) == Some((c, rest)) <==>
              c.version >= 0 && c.height >= 0 && Trimmed(c.vout) && Blank(c) == c
  {
    RoundTrip(k, c, rest);
    if Reread(c) == c {
      assert Trim(Blank(c).vout) == c.vout && |Blank(c).vout| == |c.vout|;
      assert Trim(Blank(c).vout) == Blank(c).vout;
    }
  }

  // ---------------------------------------------------------------------------
  // The loops.

  /** The order of the parts and what the header code says; the height is last. */
  lemma Layout(k: ScriptCodec, c: Coins)
    requires Payable(c.vout) && !IsPruned(c) && c.version >= 0
    ensures var read := Read(Serialize(k, c), 0);
            && read.Some? && read.value.0 == c.version
            && var code := Read(read.value.1, 0);
               && code.Some?
               && var n, rest := code.value.0, code.value.1;
                  && (n % 2 == 1 <==> c.coinBase) && (n / 2 % 2 == 1 <==> c.coinStake)
                  && (n / 4 % 2 == 1 <==> Avail(c.vout, 0)) && (n / 8 % 2 == 1 <==> Avail(c.vout, 1))
                  && n / 16 == Nonzero(c.vout, Blocks(c.vout)) - (if Avail(c.vout, 0) || Avail(c.vout, 1) then 0 else 1)
                  && |rest| >= MaskSize(c.vout, Blocks(c.vout)) + |Write(c.height)|
                  && (forall b :: 0 <= b < MaskSize(c.vout, Blocks(c.vout)) ==> rest[b] == MaskByte(c.vout, b))
                  && rest[|rest| - |Write(c.height)|..] == Write(c.height)
  {
    CodeIsNat(c);
    var mask, outs := Mask(c.vout, MaskSize(c.vout, Blocks(c.vout))), WriteOuts(k, c.vout, 0);
    var rest := mask + outs + Write(c.height);
    TwoNumbers(Write(c.version), Write(HeaderCode(c)), mask, outs, Write(c.height));
    ReadWrite(c.version, Write(HeaderCode(c)) + rest);
    ReadWrite(HeaderCode(c), rest);
    HeaderDigits(c, HeaderCode(c));
  }

  lemma TwoNumbers(a: seq<Byte>, b: seq<Byte>, mask: seq<Byte>, outs: seq<Byte>, last: seq<Byte>)
    ensures a + b + mask + outs + last == a + (b + (mask + outs + last))
    ensures var rest := mask + outs + last; rest[|rest| - |last|..] == last && forall i :: 0 <= i < |mask| ==> rest[i] == mask[i]
  {
  }

  lemma HeaderDigits(c: Coins, n: int)
    requires n == HeaderCode(c) && n >= 0
    ensures (n % 2 == 1 <==> c.coinBase) && (n / 2 % 2 == 1 <==> c.coinStake)
    ensures (n / 4 % 2 == 1 <==> Avail(c.vout, 0)) && (n / 8 % 2 == 1 <==> Avail(c.vout, 1))
    ensures n / 16 == Nonzero(c.vout, Blocks(c.vout)) - (if Avail(c.vout, 0) || Avail(c.vout, 1) then 0 else 1)
  {
    var first, second := Avail(c.vout, 0), Avail(c.vout, 1);
    FourBits(n, Nonzero(c.vout, Blocks(c.vout)) - (if first || second then 0 else 1),
             if c.coinBase then 1 else 0, if c.coinStake then 1 else 0, if first then 1 else 0, if second then 1 else 0);
  }

  lemma FourBits(n: int, q: int, a: nat, b: nat, c: nat, d: nat)
    requires a <= 1 && b <= 1 && c <= 1 && d <= 1 && n == 16 * q + a + 2 * b + 4 * c + 8 * d
    ensures n % 2 == a && n / 2 % 2 == b && n / 4 % 2 == c && n / 8 % 2 == d && n / 16 == q
  {
    assert n / 2 == 8 * q + b + 2 * c + 4 * d;
    assert n / 4 == 4 * q + c + 2 * d;
    assert n / 8 == 2 * q + d;
  }

  lemma ExampleNumbers()
    ensures Write(1) == [0x01] && Write(8) == [0x08] && Write(203998) == [0x8b, 0xb8, 0x5e]
    ensures Write(Compressor.Compress(60000000000)) == [0x83, 0x58]
  {
    Compressor.CompressBillions(60);
    Compressor.ScaleIs(60);
    assert Leading(1592) == [0x8b, 0xb8];
  }

  lemma OneOutput(k: ScriptCodec, out: TxOut)
    requires out.value >= 0
    ensures var vout := [NULL_OUT, out];
            && Payable(vout) && WriteOuts(k, vout, 0) == WriteOut(k, out)
            && Blocks(vout) == 0 && Mask(vout, MaskSize(vout, Blocks(vout))) == []
            && forall height: int :: HeaderCode(Coins(false, false, vout, height, 1)) == 8
  {
    var vout := [NULL_OUT, out];
    assert WriteOuts(k, vout, 2) == [];
    assert WriteOuts(k, vout, 1) == WriteOut(k, out) + WriteOuts(k, vout, 2);
    assert WriteOuts(k, vout, 0) == [] + WriteOuts(k, vout, 1);
    assert MaskSize(vout, 0) == 0 && Nonzero(vout, 0) == 0;
  }

  /** 600 coins in output 1 of a transaction at height 203998. */
  lemma Example(k: ScriptCodec, out: TxOut)
    requires out.value == 60000000000
    ensures var c := Coins(false, false, [NULL_OUT, out], 203998, 1);
            Payable(c.vout) && Serialize(k, c) == [0x01, 0x08, 0x83, 0x58] + k.write(out.script) + [0x8b, 0xb8, 0x5e]
  {
    ExampleNumbers();
    OneOutput(k, out);
  }

  method CalcMaskSize(vout: seq<TxOut>) returns (nBytes: nat, nNonzeroBytes: nat)
    ensures nBytes == MaskSize(vout, Blocks(vout)) && nNonzeroBytes == Nonzero(vout, Blocks(vout))
  {
    var nLastUsedByte, b := 0, 0;
    nNonzeroBytes := 0;
    while 2 + b * 8 < |vout|
      invariant 0 <= b <= Blocks(vout)
      invariant nLastUsedByte == MaskSize(vout, b) && nNonzeroBytes == Nonzero(vout, b)
    {
      var fZero := BlockIsSpent(vout, b);
      if !fZero {
        nLastUsedByte := b + 1;
        nNonzeroBytes := nNonzeroBytes + 1;
      }
      b := b + 1;
    }
    assert b == Blocks(vout);
    nBytes := nLastUsedByte;
  }

  lemma {:induction false} ZeroBits(vout: seq<TxOut>, start: nat, k: nat)
    ensures Bits(vout, start, k) == 0 <==> forall i :: start <= i < start + k ==> !Avail(vout, i)
    decreases k
  {
    if k > 0 {
      ZeroBits(vout, start + 1, k - 1);
    }
  }

  /** The inner loop of CalcMaskSize. */
  method BlockIsSpent(vout: seq<TxOut>, b: nat) returns (fZero: bool)
    ensures fZero == (MaskByte(vout, b) == 0)
  {
    fZero := true;
    var i := 0;
    while i < 8 && 2 + b * 8 + i < |vout|
      invariant 0 <= i <= 8 && fZero == (forall j :: 2 + b * 8 <= j < 2 + b * 8 + i ==> !Avail(vout, j))
    {
      assert Avail(vout, 2 + b * 8 + i) <==> !vout[2 + b * 8 + i].IsNull();
      if !vout[2 + b * 8 + i].IsNull() {
        fZero := false;
      }
      i := i + 1;
    }
    ZeroBits(vout, 2 + b * 8, 8);
  }

  /** The inner loop of Serialize: the bits that are set are distinct, so adding is or-ing. */
  method AvailByte(vout: seq<TxOut>, b: nat) returns (chAvail: Byte)
    ensures chAvail == MaskByte(vout, b)
  {
    var ch: nat, i, bit := 0, 0, 1;
    while i < 8 && 2 + b * 8 + i < |vout|
      invariant 0 <= i <= 8 && bit == Pow2(i) && ch == Bits(vout, 2 + b * 8, i)
    {
      BitsAppend(vout, 2 + b * 8, i);
      if !vout[2 + b * 8 + i].IsNull() {
        ch := ch + bit;
      }
      bit := 2 * bit;
      i := i + 1;
    }
    BitsTail(vout, 2 + b * 8, i, 8);
    assert ch == MaskByte(vout, b);
    chAvail := ch;
  }

  lemma {:induction false} BitsAppend(vout: seq<TxOut>, start: nat, k: nat)
    ensures Bits(vout, start, k + 1) == Bits(vout, start, k) + if Avail(vout, start + k) then Pow2(k) else 0
    decreases k
  {
    if k > 0 {
      BitsAppend(vout, start + 1, k - 1);
    }
  }

  lemma {:induction false} BitsTail(vout: seq<TxOut>, start: nat, k: nat, n: nat)
    requires k <= n && (k < n ==> start + k >= |vout|)
    ensures Bits(vout, start, k) == Bits(vout, start, n)
    decreases n
  {
    if k < n {
      BitsTail(vout, start, k, n - 1);
      BitsAppend(vout, start, n - 1);
    }
  }

  method WriteMask(vout: seq<TxOut>, nMaskSize: nat) returns (s: seq<Byte>)
    ensures s == Mask(vout, nMaskSize)
  {
    s := [];
    for b := 0 to nMaskSize
      invariant s == Mask(vout, b)
    {
      var chAvail := AvailByte(vout, b);
      s := s + [chAvail];
    }
  }

  method WriteAvailable(k: ScriptCodec, vout: seq<TxOut>) returns (s: seq<Byte>)
    requires Payable(vout)
    ensures s == WriteOuts(k, vout, 0)
  {
    s := [];
    for i := 0 to |vout|
      invariant s + WriteOuts(k, vout, i) == WriteOuts(k, vout, 0)
    {
      if !vout[i].IsNull() {
        assert s + WriteOuts(k, vout, i) == s + WriteOut(k, vout[i]) + WriteOuts(k, vout, i + 1);
        s := s + WriteOut(k, vout[i]);
      }
    }
  }

  method SerializeCoins(k: ScriptCodec, c: Coins) returns (s: seq<Byte>)
    requires Payable(c.vout) && !IsPruned(c)
    ensures s == Serialize(k, c)
  {
    var nMaskSize, nMaskCode := CalcMaskSize(c.vout);
    var fFirst := |c.vout| > 0 && !c.vout[0].IsNull();
    var fSecond := |c.vout| > 1 && !c.vout[1].IsNull();
    CodeIsNat(c);
    assert fFirst || fSecond || nMaskCode > 0;
    var nCode := 16 * (nMaskCode - if fFirst || fSecond then 0 else 1)
      + (if c.coinBase then 1 else 0) + (if c.coinStake then 2 else 0) + (if fFirst then 4 else 0) + (if fSecond then 8 else 0);
    assert nCode == HeaderCode(c);
    s := WriteVarInt(c.version);
    var code := WriteVarInt(nCode);
    var mask := WriteMask(c.vout, nMaskSize);
    var outs := WriteAvailable(k, c.vout);
    var height := WriteVarInt(c.height);
    s := s + code + mask + outs + height;
  }

  method UnserializeCoins(k: ScriptCodec, bytes: seq<Byte>) returns (r: Option<(Coins, seq<Byte>)>)
    ensures r == Unserialize(k, bytes)
  {
    var version := ReadVarInt(bytes);
    if version.None? {
      return None;
    }
    var code := ReadVarInt(version.value.1);
    if code.None? {
      return None;
    }
    var nCode := code.value.0;
    var vAvail := [Bit(nCode, 2), Bit(nCode, 3)];
    var nMaskCode := nCode / 16 + if Bit(nCode, 2) || Bit(nCode, 3) then 0 else 1;
    var s := code.value.1;
    ghost var mask := ReadMask(s, nMaskCode, vAvail);
    while nMaskCode > 0
      invariant nMaskCode >= 0 && ReadMask(s, nMaskCode, vAvail) == mask
      decreases |s|
    {
      if s == [] {
        return None;
      }
      var chAvail := s[0];
      s := s[1..];
      vAvail := vAvail + EightBits(chAvail);
      if chAvail != 0 {
        nMaskCode := nMaskCode - 1;
      }
    }
    var vout: seq<TxOut> := [];
    ghost var outs := ReadOuts(k, s, vAvail, vout);
    while |vout| < |vAvail|
      invariant ReadOuts(k, s, vAvail, vout) == outs
      decreases |vAvail| - |vout|
    {
      if vAvail[|vout|] {
        var out := ReadOut(k, s);
        if out.None? {
          return None;
        }
        vout, s := vout + [out.value.0], out.value.1;
      } else {
        vout := vout + [NULL_OUT];
      }
    }
    var height := ReadVarInt(s);
    if height.None? {
      return None;
    }
    var c := Cleanup(Coins(Bit(nCode, 0), Bit(nCode, 1), vout, height.value.0, version.value.0));
    r := Some((c, height.value.1));
  }
}
