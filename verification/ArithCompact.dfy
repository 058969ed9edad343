/**
 The compact form of a 256-bit number (src/arith_uint256.cpp): a 23-bit mantissa, a sign
 bit and an exponent in bytes, in one 32-bit word.
 */
module ArithCompact {
  import opened Radix
  import opened ArithLimbs
  import opened ArithShift
  import opened ArithUint

  const WIDTH: nat := 8
  const MANTISSA: nat := 0x80_0000
  const EXPONENT: nat := 0x100_0000

  /** 256^k. */
  function Byte(k: nat): (r: nat)
    ensures r > 0
    decreases k, true
  {
    Pow2(8 * k)
  }

  lemma ByteNext(k: nat)
    ensures Byte(k + 1) == 256 * Byte(k)
  {
    assert Pow2(8) == 256;
    Pow2Add(8, 8 * k);
  }

  lemma ByteAdd(j: nat, k: nat)
    ensures Byte(j + k) == Times(Byte(j), Byte(k))
  {
    Pow2Add(8 * j, 8 * k);
    TimesIsProduct(Byte(j), Byte(k));
  }

  /** How many bytes a number takes. */
  function Bytes(x: nat): nat {
    if x == 0 then 0 else 1 + Bytes(x / 256)
  }

  lemma {:induction false} BytesAre(x: nat)
    ensures x < Byte(Bytes(x)) && (x > 0 ==> Bytes(x) > 0 && Byte(Bytes(x) - 1) <= x)
  {
    if x > 0 {
      BytesAre(x / 256);
      ByteNext(Bytes(x / 256));
      if x / 256 > 0 {
        ByteNext(Bytes(x / 256) - 1);
      }
    }
  }

  lemma {:induction false} BytesUnique(x: nat, n: nat)
    requires x < Byte(n) && (n > 0 ==> Byte(n - 1) <= x)
    ensures n == Bytes(x)
  {
    BytesAre(x);
    if n < Bytes(x) {
      Pow2Monotone(8 * n, 8 * (Bytes(x) - 1));
    } else if n > Bytes(x) {
      Pow2Monotone(8 * Bytes(x), 8 * (n - 1));
    }
  }

  // ---------------------------------------------------------------------------
  // SetCompact.

  /** nSize, nWord before and after its shift, and the number. */
  function Size(c: nat): nat { c / EXPONENT }
  function Word(c: nat): nat { c % MANTISSA }

  function ShiftedWord(c: nat): nat {
    if Size(c) <= 3 then Shr(Word(c), 8 * (3 - Size(c))) else Word(c)
  }

  /** What the compact form means: mantissa * 256^(exponent - 3), not cut off. */
  function Meaning(c: nat): nat {
    if Size(c) <= 3 then ShiftedWord(c) else Times(Word(c), Byte(Size(c) - 3))
  }

  predicate Negative(c: nat) {
    ShiftedWord(c) != 0 && (c / MANTISSA) % 2 == 1
  }

  predicate Overflow(c: nat) {
    var w := ShiftedWord(c);
    w != 0 && (Size(c) > 34 || (w > 0xff && Size(c) > 33) || (w > 0xffff && Size(c) > 32))
  }

  lemma {:induction false} ShrAtMost(x: nat, m: nat)
    ensures Shr(x, m) <= x
  {
    if m > 0 {
      ShrAtMost(x / 2, m - 1);
    }
  }

  /** w * 256^k reaches 256^(k + j) exactly if w reaches 256^j. */
  lemma Reaches(w: nat, k: nat, j: nat)
    ensures Times(w, Byte(k)) >= Byte(j + k) <==> w >= Byte(j)
  {
    ByteAdd(j, k);
    if w >= Byte(j) {
      TimesMonotone(Byte(j), w, Byte(k));
    } else {
      TimesMonotone(w + 1, Byte(j), Byte(k));
      TimesAdd(w, 1, Byte(k));
      TimesIsProduct(1, Byte(k));
    }
  }

  /** Below the exponents that can overflow, nothing does. */
  lemma SmallFits(w: nat, n: nat, top: nat)
    requires w < MANTISSA && 3 < n <= top
    ensures Times(w, Byte(n - 3)) < Byte(top)
  {
    ByteIsPower24();
    Reaches(w, n - 3, 3);
    Pow2Monotone(8 * n, 8 * top);
  }

  lemma HugeOverflows(w: nat, n: nat, top: nat)
    requires n >= top + 3
    ensures Times(w, Byte(n - 3)) >= Byte(top) <==> w > 0
  {
    Reaches(w, n - 3, 0);
    assert Byte(0) == 1;
    Pow2Monotone(8 * top, 8 * (n - 3));
    TimesIsProduct(0, Byte(n - 3));
  }

  lemma OverflowAbove(w: nat, n: nat, top: nat)
    requires w < MANTISSA && n > 3 && top == 32
    ensures Times(w, Byte(n - 3)) >= Byte(top) <==>
              w != 0 && (n > top + 2 || (w > 0xff && n > top + 1) || (w > 0xffff && n > top))
  {
    ByteIsPower24();
    if n <= top {
      SmallFits(w, n, top);
    } else if n == top + 1 {
      Reaches(w, n - 3, 2);
    } else if n == top + 2 {
      Reaches(w, n - 3, 1);
    } else {
      HugeOverflows(w, n, top);
    }
  }

  /** The overflow flag is set exactly when the number meant does not fit into 256 bits. */
  lemma OverflowIff(c: nat, w: nat)
    requires w == WIDTH
    ensures Overflow(c) <==> Meaning(c) >= Modulus(w)
  {
    ModulusIsPower(w);
    if Size(c) <= 3 {
      ShrAtMost(Word(c), 8 * (3 - Size(c)));
      ByteIsPower24();
      Pow2Monotone(24, 32 * w);
    } else {
      OverflowAbove(Word(c), Size(c), 4 * w);
    }
  }

  // ---------------------------------------------------------------------------
  // GetCompact.

  /** The mantissa before the sign bit is kept free. */
  function Top(x: nat): nat {
    var s := Bytes(x);
    if s <= 3 then Times(x, Byte(3 - s)) else Shr(x, 8 * (s - 3))
  }

  function Mantissa(x: nat): nat {
    if Top(x) >= MANTISSA then Top(x) / 256 else Top(x)
  }

  function Exponent(x: nat): nat {
    if Top(x) >= MANTISSA then Bytes(x) + 1 else Bytes(x)
  }

  function Compact(x: nat, negative: bool): nat {
    Mantissa(x) + Exponent(x) * EXPONENT + if negative && Mantissa(x) != 0 then MANTISSA else 0
  }

  lemma ByteIsPower24()
    ensures Byte(1) == 256 && Byte(2) == 65536 && Byte(3) == EXPONENT
  {
    assert Byte(0) == 1;
    ByteNext(0);
    ByteNext(1);
    ByteNext(2);
  }

  /** A number is its top part and less than one unit of it. */
  lemma ShrBytes(x: nat, k: nat)
    ensures Times(Shr(x, 8 * k), Byte(k)) <= x < Times(Shr(x, 8 * k) + 1, Byte(k))
  {
    ShrSplits(x, 8 * k);
    TimesIsProduct(Shr(x, 8 * k), Byte(k));
    TimesAdd(Shr(x, 8 * k), 1, Byte(k));
    TimesIsProduct(1, Byte(k));
  }

  /** Shifting a multiple back. */
  lemma ShrOfMultiple(m: nat, k: nat)
    ensures Shr(Times(m, Byte(k)), 8 * k) == m
  {
    var x := Times(m, Byte(k));
    ShrBytes(x, k);
    if Shr(x, 8 * k) < m {
      TimesMonotone(Shr(x, 8 * k) + 1, m, Byte(k));
    } else if Shr(x, 8 * k) > m {
      TimesMonotone(m + 1, Shr(x, 8 * k), Byte(k));
      TimesAdd(m, 1, Byte(k));
      TimesIsProduct(1, Byte(k));
    }
  }

  /** The top part takes three bytes, and for longer numbers its highest byte is not zero. */
  lemma TopBounds(x: nat)
    ensures Top(x) < EXPONENT && (x > 0 ==> Top(x) >= 0x1_0000)
  {
    var s := Bytes(x);
    BytesAre(x);
    ByteIsPower24();
    if s <= 3 {
      Reaches(x, 3 - s, s);
      if s > 0 {
        Reaches(x, 3 - s, s - 1);
      } else {
        TimesIsProduct(0, Byte(3));
      }
    } else {
      var k := s - 3;
      ShrBytes(x, k);
      Reaches(Shr(x, 8 * k), k, 3);
      if Shr(x, 8 * k) < Byte(2) {
        TimesMonotone(Shr(x, 8 * k) + 1, Byte(2), Byte(k));
        ByteAdd(2, k);
      }
    }
  }

  /** The fields of a compact word, read back; b is the sign bit. */
  lemma Fields(m: nat, e: nat, b: nat, c: nat)
    requires m < MANTISSA && b <= 1 && c == m + e * EXPONENT + b * MANTISSA
    ensures c / EXPONENT == e && c % MANTISSA == m && (c / MANTISSA) % 2 == b
  {
    assert c == m + (2 * e + b) * MANTISSA;
    assert c == (m + b * MANTISSA) + e * EXPONENT;
  }

  lemma CompactParts(x: nat, negative: bool)
    ensures Mantissa(x) < MANTISSA
    ensures Size(Compact(x, negative)) == Exponent(x) && Word(Compact(x, negative)) == Mantissa(x)
    ensures (Compact(x, negative) / MANTISSA) % 2 == 1 <==> negative && Mantissa(x) != 0
  {
    TopBounds(x);
    Fields(Mantissa(x), Exponent(x), if negative && Mantissa(x) != 0 then 1 else 0, Compact(x, negative));
  }

  /** Up to three bytes the number itself comes back. */
  lemma SmallRoundTrip(x: nat)
    requires Exponent(x) <= 3
    ensures Shr(Mantissa(x), 8 * (3 - Exponent(x))) == x
  {
    var s := Bytes(x);
    ByteIsPower24();
    if Top(x) >= MANTISSA {
      var k := 2 - s;
      ByteNext(k);
      TimesCommutes(x, Byte(k));
      TimesCommutes(x, Byte(k + 1));
      TimesIsProduct(Byte(k + 1), x);
      TimesIsProduct(Byte(k), x);
      Cancel256(x, Byte(k));
      ShrOfMultiple(x, k);
    } else {
      ShrOfMultiple(x, 3 - s);
    }
  }

  lemma Cancel256(x: nat, p: nat)
    ensures ((256 * p) * x) / 256 == p * x
  {
    assert (256 * p) * x == 256 * (p * x);
  }

  /** A top part of three bytes that is cut to two. */
  lemma CutRoundTrip(x: nat, t: nat, m: nat, k: nat)
    requires m == t / 256 && Times(t, Byte(k)) <= x < Times(t + 1, Byte(k))
    ensures Times(m, Byte(k + 1)) <= x < Times(m + 1, Byte(k + 1))
  {
    ByteNext(k);
    TimesMonotone(256 * m, t, Byte(k));
    TimesMonotone(t + 1, 256 * (m + 1), Byte(k));
    Times256(m, Byte(k));
    Times256(m + 1, Byte(k));
  }

  /** Beyond that, what comes back is the number with less than one unit taken off. */
  lemma LargeRoundTrip(x: nat)
    requires Exponent(x) > 3
    ensures Times(Mantissa(x), Byte(Exponent(x) - 3)) <= x < Times(Mantissa(x) + 1, Byte(Exponent(x) - 3))
  {
    var k := Bytes(x) - 3;
    TopIs(x);
    if Top(x) >= MANTISSA {
      CutRoundTrip(x, Top(x), Mantissa(x), k);
    }
  }

  /** From three bytes on, a number is its top part and less than one unit of it. */
  lemma TopIs(x: nat)
    requires Bytes(x) >= 3
    ensures Times(Top(x), Byte(Bytes(x) - 3)) <= x < Times(Top(x) + 1, Byte(Bytes(x) - 3))
  {
    if Bytes(x) == 3 {
      assert Byte(0) == 1;
      TimesIsProduct(x, 1);
      TimesIsProduct(x + 1, 1);
    } else {
      ShrBytes(x, Bytes(x) - 3);
    }
  }

  lemma Times256(m: nat, p: nat)
    ensures Times(256 * m, p) == Times(m, 256 * p)
  {
    TimesIsProduct(256 * m, p);
    TimesIsProduct(m, 256 * p);
    assert (256 * m) * p == m * (256 * p);
  }

  /** One unit of the mantissa. */
  function Unit(x: nat): nat {
    if Exponent(x) <= 3 then 1 else Byte(Exponent(x) - 3)
  }

  /** Encoding and decoding loses less than one unit, and nothing up to three bytes. */
  lemma CompactRoundTrip(x: nat, negative: bool)
    ensures Meaning(Compact(x, negative)) <= x < Meaning(Compact(x, negative)) + Unit(x)
    ensures Exponent(x) <= 3 ==> Meaning(Compact(x, negative)) == x
    ensures Negative(Compact(x, negative)) <==> negative && x != 0
  {
    CompactParts(x, negative);
    TopBounds(x);
    if Exponent(x) <= 3 {
      SmallRoundTrip(x);
    } else {
      LargeRoundTrip(x);
      TimesAdd(Mantissa(x), 1, Unit(x));
      TimesIsProduct(1, Unit(x));
    }
    MantissaZero(x);
  }

  lemma MantissaZero(x: nat)
    ensures Mantissa(x) == 0 <==> x == 0
  {
    TopBounds(x);
    if x == 0 {
      TimesIsProduct(0, Byte(3));
    }
  }

  /** A number of 256 bits is never encoded into an overflow. */
  lemma CompactFits(x: nat, negative: bool, w: nat)
    requires w == WIDTH && x < Modulus(w)
    ensures !Overflow(Compact(x, negative))
  {
    CompactRoundTrip(x, negative);
    OverflowIff(Compact(x, negative), w);
  }

  /** A multiple of a unit, with a top part of three bytes. */
  lemma TopOfMultiple(t: nat, k: nat)
    requires 0x1_0000 <= t < EXPONENT
    ensures var y := Times(t, Byte(k)); Bytes(y) == k + 3 && Top(y) == t
  {
    var y := Times(t, Byte(k));
    ByteIsPower24();
    Reaches(t, k, 2);
    Reaches(t, k, 3);
    BytesUnique(y, k + 3);
    if k == 0 {
      assert Byte(0) == 1;
      TimesIsProduct(t, 1);
    } else {
      ShrOfMultiple(t, k);
    }
  }

  /** What was decoded has as many bytes, and the same top part or one that starts the same. */
  lemma Reencode(x: nat)
    requires Exponent(x) > 3
    ensures var y := Times(Mantissa(x), Byte(Exponent(x) - 3)); Mantissa(y) == Mantissa(x) && Exponent(y) == Exponent(x)
  {
    var m, k := Mantissa(x), Exponent(x) - 3;
    TopBounds(x);
    if Top(x) < MANTISSA {
      BytesPositive(x);
      TopOfMultiple(m, k);
    } else {
      ByteNext(k - 1);
      Times256(m, Byte(k - 1));
      TopOfMultiple(256 * m, k - 1);
    }
  }

  lemma BytesPositive(x: nat)
    requires Bytes(x) > 0
    ensures x > 0
  {
  }

  /** Decoding a compact word that was encoded, and encoding it again, gives the same word. */
  lemma CompactIsStable(x: nat, negative: bool)
    ensures Compact(Meaning(Compact(x, negative)), negative) == Compact(x, negative)
  {
    CompactParts(x, negative);
    if Exponent(x) <= 3 {
      SmallRoundTrip(x);
    } else {
      Reencode(x);
    }
  }

  // ---------------------------------------------------------------------------
  // The operations on limbs.

  lemma OneLimb(x: nat, n: nat)
    ensures Num([x] + Zero(n)) == x
  {
    NumZero(n);
    assert ([x] + Zero(n))[1..] == Zero(n);
  }

  /** Assignment from a word. */
  method SetWord(pn: array<nat>, x: nat)
    requires pn.Length > 0 && x < B
    modifies pn
    ensures Limbs(pn[..]) && Num(pn[..]) == x
  {
    Clear(pn);
    pn[0] := x;
    assert pn[..] == [x] + Zero(pn.Length - 1);
    OneLimb(x, pn.Length - 1);
  }

  /** The number itself: the word, shifted down or up by bytes. */
  method SetMantissa(pn: array<nat>, nSize: nat, word: nat) returns (nWord: nat)
    requires pn.Length == WIDTH && word < B
    modifies pn
    ensures nWord == if nSize <= 3 then Shr(word, 8 * (3 - nSize)) else word
    ensures Limbs(pn[..])
    ensures nSize <= 3 ==> Num(pn[..]) == nWord
    ensures nSize > 3 ==> Num(pn[..]) == Times(word, Byte(nSize - 3)) % Modulus(pn.Length)
  {
    nWord := word;
    if nSize <= 3 {
      ShrAtMost(nWord, 8 * (3 - nSize));
      nWord := Shr(nWord, 8 * (3 - nSize));
      SetWord(pn, nWord);
    } else {
      SetWord(pn, nWord);
      ShlIsProduct(pn[..], 8 * (nSize - 3));
      ShiftLeft(pn, 8 * (nSize - 3));
    }
  }

  lemma ModulusAbove(x: nat, m: nat)
    requires x < m
    ensures x % m == x
  {
    DivMod(0, x, m);
  }

  lemma SmallMeaning(c: nat, w: nat)
    requires w == WIDTH && Size(c) <= 3
    ensures Meaning(c) < Modulus(w)
  {
    OverflowIff(c, w);
  }

  method SetCompact(pn: array<nat>, nCompact: nat) returns (fNegative: bool, fOverflow: bool)
    requires pn.Length == WIDTH && nCompact < B
    modifies pn
    ensures Limbs(pn[..]) && Num(pn[..]) == Meaning(nCompact) % Modulus(pn.Length)
    ensures fNegative == Negative(nCompact) && fOverflow == Overflow(nCompact)
    ensures !fOverflow ==> Num(pn[..]) == Meaning(nCompact)
  {
    var nSize := nCompact / EXPONENT;
    var nWord := SetMantissa(pn, nSize, nCompact % MANTISSA);
    ghost var w := pn.Length;
    if nSize <= 3 {
      SmallMeaning(nCompact, w);
    }
    OverflowIff(nCompact, w);
    if Meaning(nCompact) < Modulus(w) {
      ModulusAbove(Meaning(nCompact), Modulus(w));
    }
    fNegative := nWord != 0 && (nCompact / MANTISSA) % 2 == 1;
    fOverflow := nWord != 0 && (nSize > 34 || (nWord > 0xff && nSize > 33) || (nWord > 0xffff && nSize > 32));
  }

  /** A number below 2^32 is in the lowest limb. */
  lemma LowLimb(s: seq<nat>)
    requires |s| > 1 && Limbs(s) && Num(s) < B
    ensures s[0] == Num(s) && s[1] == 0
  {
    ByBIsProduct(Num(s[1..]));
    assert Num(s[1..]) == s[1] + ByB(Num(s[1..][1..]));
  }

  /** The number of bytes, from the number of bits. */
  lemma BytesOfBits(x: nat, n: nat)
    requires x < Pow2(n) && (n > 0 ==> Pow2(n - 1) <= x)
    ensures (n + 7) / 8 == Bytes(x)
  {
    var b := (n + 7) / 8;
    Pow2Monotone(n, 8 * b);
    if b > 0 {
      Pow2Monotone(8 * (b - 1), n - 1);
    }
    BytesUnique(x, b);
  }

  method GetLow64(pn: array<nat>) returns (r: nat)
    requires pn.Length > 1
    ensures r == pn[0] + B * pn[1]
  {
    r := pn[0] + B * pn[1];
  }

  lemma ShortNumber(s: seq<nat>, n: nat)
    requires |s| > 1 && Limbs(s) && n == Bytes(Num(s)) <= 3
    ensures s[0] == Num(s) && s[1] == 0 && Top(Num(s)) == Num(s) * Pow2(8 * (3 - n))
  {
    BytesAre(Num(s));
    ByteIsPower24();
    Pow2Monotone(8 * n, 24);
    LowLimb(s);
    TimesIsProduct(Num(s), Byte(3 - n));
  }

  lemma LongNumber(s: seq<nat>, n: nat, r: seq<nat>)
    requires |s| > 1 && Limbs(s) && n == Bytes(Num(s)) > 3 && r == ShrLimbs(s, 8 * (n - 3))
    ensures |r| == |s| && r[0] == Top(Num(s)) && r[1] == 0
  {
    ShrIsQuotient(s, 8 * (n - 3));
    ShrIsDivision(Num(s), 8 * (n - 3));
    TopBounds(Num(s));
    LowLimb(r);
  }

  /** The top three bytes of a number, as GetCompact cuts them out. */
  method GetTop(pn: array<nat>, nSize: nat) returns (nCompact: nat)
    requires pn.Length == WIDTH && Limbs(pn[..]) && nSize == Bytes(Num(pn[..]))
    ensures nCompact == Top(Num(pn[..])) < EXPONENT
  {
    TopBounds(Num(pn[..]));
    if nSize <= 3 {
      ShortNumber(pn[..], nSize);
      nCompact := GetLow64(pn);
      nCompact := nCompact * Pow2(8 * (3 - nSize));
    } else {
      var bn := Copy(pn);
      ShiftRight(bn, 8 * (nSize - 3));
      LongNumber(pn[..], nSize, bn[..]);
      nCompact := GetLow64(bn);
    }
  }

  lemma ShrIsDivision(x: nat, m: nat)
    ensures Shr(x, m) == x / Pow2(m)
  {
    ShrSplits(x, m);
    DivMod(Shr(x, m), LowBits(x, m), Pow2(m));
  }

  method GetCompact(pn: array<nat>, fNegative: bool) returns (nCompact: nat)
    requires pn.Length == WIDTH && Limbs(pn[..])
    ensures nCompact == Compact(Num(pn[..]), fNegative)
  {
    ghost var x := Num(pn[..]);
    var bits := Bits(pn);
    BytesOfBits(x, bits);
    var nSize := (bits + 7) / 8;
    nCompact := GetTop(pn, nSize);
    // Below 2^24, reaching 2^23 is having its bit set.
    if nCompact >= MANTISSA {
      nCompact := nCompact / 256;
      nSize := nSize + 1;
    }
    assert nCompact < MANTISSA && nSize < 256;
    var sign := if fNegative && nCompact != 0 then MANTISSA else 0;
    nCompact := nCompact + nSize * EXPONENT + sign;
  }
}
