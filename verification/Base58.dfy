/**
 Base58 (src/base58.cpp).  Byte strings and texts are numerals in base 256 and 58 with
 their leading zeros kept; the conversions run in place in buffers of a computed size
 that is proved large enough for every length.
 */
module Base58 {
  import opened Coins
  import opened Radix

  /** The alphabet in its ascending runs: 1-9, A-H, J-N, P-Z, a-k, m-z. */
  function CharOf(d: nat): char
    requires d < 58
  {
    if d < 9 then ('1' as int + d) as char
    else if d < 17 then ('A' as int + (d - 9)) as char
    else if d < 22 then ('J' as int + (d - 17)) as char
    else if d < 33 then ('P' as int + (d - 22)) as char
    else if d < 44 then ('a' as int + (d - 33)) as char
    else ('m' as int + (d - 44)) as char
  }

  /** strchr on the alphabet, as a position. */
  function DigitOf(c: char): (r: Option<nat>)
    ensures r.Some? ==> r.value < 58 && CharOf(r.value) == c
  {
    if '1' <= c <= '9' then Some(c as int - '1' as int)
    else if 'A' <= c <= 'H' then Some(c as int - 'A' as int + 9)
    else if 'J' <= c <= 'N' then Some(c as int - 'J' as int + 17)
    else if 'P' <= c <= 'Z' then Some(c as int - 'P' as int + 22)
    else if 'a' <= c <= 'k' then Some(c as int - 'a' as int + 33)
    else if 'm' <= c <= 'z' then Some(c as int - 'm' as int + 44)
    else None
  }

  lemma DigitOfCharOf(d: nat)
    requires d < 58
    ensures DigitOf(CharOf(d)) == Some(d) && !IsSpace(CharOf(d)) && CharOf(d) != '\0'
    ensures CharOf(d) == '1' <==> d == 0
  {
  }

  /** Which characters are digits: letters and figures without 0, O, I and l; their order is that of their codes. */
  lemma AlphabetIs(c: char, d: nat, e: nat)
    requires d < e < 58
    ensures DigitOf(c).Some? <==>
              (('0' <= c <= '9' || 'A' <= c <= 'Z' || 'a' <= c <= 'z') && c != '0' && c != 'O' && c != 'I' && c != 'l')
    ensures DigitOf(CharOf(d)).Some? && CharOf(d) < CharOf(e)
  {
  }

  /** isspace. */
  predicate IsSpace(c: char) {
    c == ' ' || '\t' <= c <= '\r'
  }

  // ---------------------------------------------------------------------------
  // The buffers are large enough.

  // The bases are parameters below, so that powers of them are reasoned about and not expanded.

  lemma SmallPowers(x: nat, y: nat)
    requires x == 58 && y == 256
    ensures Pow(x, 6) == 38068692544 && Pow(x, 8) == 128063081718016 && Pow(x, 1) == 58
    ensures Pow(y, 4) == 0x1_0000_0000 && Pow(y, 5) == 0x100_0000_0000
    ensures Pow(x, 11) >= Pow(y, 8)
  {
    assert Pow(x, 1) == 58 && Pow(y, 1) == 256;
    PowAdd(x, 1, 1);
    PowAdd(x, 2, 1);
    PowAdd(x, 3, 3);
    PowAdd(x, 6, 2);
    PowAdd(x, 8, 3);
    PowAdd(y, 1, 1);
    PowAdd(y, 2, 2);
    PowAdd(y, 4, 1);
    PowAdd(y, 4, 4);
  }

  /** 58^138 is at least 256^100: each byte takes at most 1.38 digits. */
  lemma EncodeRatio(x: nat, y: nat)
    requires x == 58 && y == 256
    ensures Pow(y, 100) <= Pow(x, 138)
  {
    SmallPowers(x, y);
    PowPow(x, 11, 12);
    PowPow(y, 8, 12);
    PowMono(Pow(y, 8), Pow(x, 11), 12);
    PowAdd(x, 132, 6);
    PowAdd(y, 96, 4);
    MulMono(Pow(y, 96), Pow(x, 132), Pow(y, 4), Pow(x, 6));
  }

  lemma Power71(x: nat, y: nat)
    requires x == 58 && y == 256
    ensures Pow(x, 71) <= Pow(y, 52)
  {
    SmallPowers(x, y);
    PowAdd(x, 8, 8);
    assert Pow(x, 16) == 16400152899115243850138976256;
    PowAdd(x, 16, 16);
    assert Pow(x, 32) == 268965015114358137726910587140455987105619365599731777536;
    PowAdd(x, 32, 32);
    PowAdd(x, 64, 6);
    PowAdd(x, 70, 1);
    PowAdd(y, 4, 4);
    assert Pow(y, 8) == 18446744073709551616;
    PowAdd(y, 8, 8);
    assert Pow(y, 16) == 340282366920938463463374607431768211456;
    PowAdd(y, 16, 16);
    PowAdd(y, 32, 16);
    PowAdd(y, 48, 4);
  }

  /** 256^733 is at least 58^1000: each digit takes at most 0.733 bytes. */
  lemma DecodeRatio(x: nat, y: nat)
    requires x == 58 && y == 256
    ensures Pow(x, 1000) <= Pow(y, 733)
  {
    SmallPowers(x, y);
    Power71(x, y);
    PowPow(x, 71, 14);
    PowPow(y, 52, 14);
    PowMono(Pow(x, 71), Pow(y, 52), 14);
    PowAdd(x, 994, 6);
    PowAdd(y, 728, 5);
    MulMono(Pow(x, 994), Pow(y, 728), Pow(x, 6), Pow(y, 5));
  }

  /** If x^num <= y^den then n digits in base x fit into n * den / num + 1 digits in base y. */
  lemma RatioFits(x: nat, y: nat, num: nat, den: nat, n: nat)
    requires num > 0 && y > 0 && Pow(x, num) <= Pow(y, den)
    ensures Pow(x, n) <= Pow(y, n * den / num + 1)
  {
    var size := n * den / num + 1;
    assert size * num >= n * den by {
      assert n * den == num * (n * den / num) + (n * den) % num;
      assert size * num == num * (n * den / num) + num;
    }
    if Pow(x, n) > Pow(y, size) {
      PowStrict(Pow(y, size), Pow(x, n), num);
      PowPow(y, size, num);
      PowPow(x, n, num);
      PowPow(x, num, n);
      assert n * num == num * n && n * den == den * n;
      PowMono(Pow(x, num), Pow(y, den), n);
      PowPow(y, den, n);
      PowExpMono(y, n * den, size * num);
    }
  }

  lemma EncodeFits(n: nat, x: nat, y: nat)
    requires x == 58 && y == 256
    ensures Pow(y, n) <= Pow(x, n * 138 / 100 + 1)
  {
    EncodeRatio(x, y);
    RatioFits(y, x, 100, 138, n);
  }

  lemma DecodeFits(n: nat, x: nat, y: nat)
    requires x == 58 && y == 256
    ensures Pow(x, n) <= Pow(y, n * 733 / 1000 + 1)
  {
    DecodeRatio(x, y);
    RatioFits(x, y, 1000, 733, n);
  }

  // ---------------------------------------------------------------------------
  // What encoding and decoding mean.

  function Text(digits: seq<nat>): string
    requires AllBelow(digits, 58)
  {
    seq(|digits|, i requires 0 <= i < |digits| => CharOf(digits[i]))
  }

  function Ones(n: nat): string {
    seq(n, i => '1')
  }

  /** A one for each leading zero byte, then the digits of the number. */
  function Encode(bytes: seq<nat>): string {
    Ones(LeadingZeros(bytes)) + Text(Digits(Value(bytes, 256), 58))
  }

  predicate IsText(s: string) {
    forall i :: 0 <= i < |s| ==> DigitOf(s[i]).Some?
  }

  function DigitsOf(s: string): (r: seq<nat>)
    requires IsText(s)
    ensures AllBelow(r, 58)
  {
    seq(|s|, i requires 0 <= i < |s| => DigitOf(s[i]).value)
  }

  /** The first n characters that are spaces end here. */
  function SkipSpaces(s: string): (r: string)
    ensures |r| <= |s| && (r != [] ==> !IsSpace(r[0]))
  {
    if s != [] && IsSpace(s[0]) then SkipSpaces(s[1..]) else s
  }

  /** The longest prefix without spaces. */
  function Word(s: string): (r: string)
    ensures r <= s && (forall i :: 0 <= i < |r| ==> !IsSpace(r[i])) && (|r| < |s| ==> IsSpace(s[|r|]))
  {
    if s != [] && !IsSpace(s[0]) then [s[0]] + Word(s[1..]) else []
  }

  /** The text without the spaces around it, if that leaves one word. */
  function Trimmed(s: string): Option<string> {
    var t := SkipSpaces(s);
    var w := Word(t);
    if SkipSpaces(t[|w|..]) == [] then Some(w) else None
  }

  /** Leading ones are zero bytes, the rest is a number. */
  function DecodeWord(w: string): seq<nat>
    requires IsText(w)
  {
    Zeros(LeadingZeros(DigitsOf(w))) + Digits(Value(DigitsOf(w), 58), 256)
  }

  function Decode(s: string): Option<seq<nat>> {
    var w := Trimmed(s);
    if w.None? || !IsText(w.value) then None else Some(DecodeWord(w.value))
  }

  // ---------------------------------------------------------------------------
  // The round trips.

  lemma {:induction false} LeadingZerosAre(z: nat, rest: seq<nat>)
    requires Canonical(rest)
    ensures LeadingZeros(Zeros(z) + rest) == z
  {
    if z > 0 {
      assert (Zeros(z) + rest)[1..] == Zeros(z - 1) + rest;
      LeadingZerosAre(z - 1, rest);
    } else {
      assert Zeros(0) + rest == rest;
    }
  }

  /** Zeros in front and the numeral of the value make up the list. */
  lemma ListIsZerosAndDigits(s: seq<nat>, b: nat)
    requires b > 1 && AllBelow(s, b)
    ensures s == Zeros(LeadingZeros(s)) + Digits(Value(s, b), b)
  {
    BufferDigits(s, b);
    CutAt(s, LeadingZeros(s));
  }

  lemma CutAt(s: seq<nat>, z: nat)
    requires z <= |s|
    ensures s == s[..z] + s[z..]
  {
  }

  /** Leading zeros and value of a list put together that way. */
  lemma ZerosAndDigits(z: nat, n: nat, b: nat)
    requires b > 1
    ensures LeadingZeros(Zeros(z) + Digits(n, b)) == z && Value(Zeros(z) + Digits(n, b), b) == n
  {
    LeadingZerosAre(z, Digits(n, b));
    ValueSkipsZeros(z, Digits(n, b), b);
    ValueOfDigits(n, b);
  }

  lemma TextDigits(digits: seq<nat>)
    requires AllBelow(digits, 58)
    ensures IsText(Text(digits)) && DigitsOf(Text(digits)) == digits
    ensures forall i :: 0 <= i < |digits| ==> !IsSpace(Text(digits)[i])
  {
    forall i | 0 <= i < |digits| ensures DigitOf(Text(digits)[i]) == Some(digits[i]) && !IsSpace(Text(digits)[i]) {
      DigitOfCharOf(digits[i]);
    }
  }

  lemma DigitsText(w: string)
    requires IsText(w)
    ensures Text(DigitsOf(w)) == w
  {
  }

  lemma EncodeIsText(bytes: seq<nat>)
    ensures Encode(bytes) == Text(Zeros(LeadingZeros(bytes)) + Digits(Value(bytes, 256), 58))
  {
    DigitOfCharOf(0);
  }

  lemma {:induction false} WordOfWord(w: string)
    requires forall i :: 0 <= i < |w| ==> !IsSpace(w[i])
    ensures Word(w) == w
  {
    if w != [] {
      WordOfWord(w[1..]);
      assert w == [w[0]] + w[1..];
    }
  }

  lemma NoSpacesToTrim(w: string)
    requires forall i :: 0 <= i < |w| ==> !IsSpace(w[i])
    ensures Trimmed(w) == Some(w)
  {
    WordOfWord(w);
    assert w[|w|..] == [];
  }

  lemma DecodeText(digits: seq<nat>)
    requires AllBelow(digits, 58)
    ensures Decode(Text(digits)) == Some(Zeros(LeadingZeros(digits)) + Digits(Value(digits, 58), 256))
  {
    TextDigits(digits);
    NoSpacesToTrim(Text(digits));
  }

  /** A zero byte and the letters a and b. */
  lemma EncodeExample(x: nat, y: nat)
    requires x == 256 && y == 58
    ensures Encode([0x00, 0x61, 0x62]) == "18Qq"
  {
    var bytes := [0x00, 0x61, 0x62];
    assert bytes[..2] == [0x00, 0x61] && [0x00, 0x61][..1] == [0x00] && [0x00][..0] == [];
    assert Value([0x00], x) == Value([], x) * x + 0x00 == 0;
    assert Value([0x00, 0x61], x) == Value([0x00], x) * x + 0x61 == 0x61;
    assert Value(bytes, x) == Value([0x00, 0x61], x) * x + 0x62 == 24930;
    assert LeadingZeros(bytes) == 1 by { assert bytes[1..] == [0x61, 0x62]; }
    assert Digits(7, y) == [7] && Digits(429, y) == [7, 23] && Digits(24930, y) == [7, 23, 48];
  }

  /** Decoding inverts encoding, leading zeros included. */
  lemma DecodeEncode(bytes: seq<nat>)
    requires AllBelow(bytes, 256)
    ensures Decode(Encode(bytes)) == Some(bytes)
  {
    var z, n := LeadingZeros(bytes), Value(bytes, 256);
    var digits := Zeros(z) + Digits(n, 58);
    EncodeIsText(bytes);
    ZerosAndDigits(z, n, 58);
    DecodeText(digits);
    ListIsZerosAndDigits(bytes, 256);
  }

  /** Encoding inverts decoding, up to the spaces around the text. */
  lemma EncodeDecode(s: string)
    requires Decode(s).Some?
    ensures Some(Encode(Decode(s).value)) == Trimmed(s)
  {
    var w := Trimmed(s).value;
    var digits := DigitsOf(w);
    var z, n := LeadingZeros(digits), Value(digits, 58);
    ZerosAndDigits(z, n, 256);
    EncodeIsText(DecodeWord(w));
    ListIsZerosAndDigits(digits, 58);
    DigitsText(w);
  }

  // ---------------------------------------------------------------------------
  // The checked variants, for any hash.

  type Hash = seq<nat> -> seq<nat>

  ghost predicate IsHash(hash: Hash) {
    forall v :: |hash(v)| == 32 && AllBelow(hash(v), 256)
  }

  function EncodeCheck(hash: Hash, v: seq<nat>): string
    requires |hash(v)| == 32
  {
    Encode(v + hash(v)[..4])
  }

  function DecodeCheck(hash: Hash, s: string): Option<seq<nat>> {
    var w := Decode(s);
    if w.None? || |w.value| < 4 then None
    else
      var v := w.value[..|w.value| - 4];
      if |hash(v)| == 32 && hash(v)[..4] == w.value[|w.value| - 4..] then Some(v) else None
  }

  lemma DecodeEncodeCheck(hash: Hash, v: seq<nat>)
    requires IsHash(hash) && AllBelow(v, 256)
    ensures DecodeCheck(hash, EncodeCheck(hash, v)) == Some(v)
  {
    var w := v + hash(v)[..4];
    assert w[..|w| - 4] == v && w[|w| - 4..] == hash(v)[..4];
    DecodeEncode(w);
  }

  /** What decodes is exactly what encodes: no two words stand for the same bytes. */
  lemma EncodeDecodeCheck(hash: Hash, s: string)
    requires IsHash(hash) && DecodeCheck(hash, s).Some?
    ensures Some(EncodeCheck(hash, DecodeCheck(hash, s).value)) == Trimmed(s)
  {
    var w := Decode(s).value;
    EncodeDecode(s);
    assert w == w[..|w| - 4] + w[|w| - 4..];
  }

  // ---------------------------------------------------------------------------
  // The conversions in place.

  /** x is digit * p + tail, y is d * p + was, and q is b * p. */
  lemma MulAddStep(b: nat, mul: nat, d: nat, carry: nat, digit: nat, carry': nat, p: nat, q: nat,
                   tail: nat, was: nat, x: nat, y: nat, add: nat)
    requires tail + carry * p == was * mul + add && digit + b * carry' == carry + mul * d
    requires x == digit * p + tail && y == d * p + was && q == b * p
    ensures x + carry' * q == y * mul + add
  {
    assert carry' * (b * p) == (b * carry') * p;
    assert digit * p + (b * carry') * p == (digit + b * carry') * p;
    assert (carry + mul * d) * p == carry * p + (mul * d) * p;
    assert (d * p + was) * mul == (mul * d) * p + was * mul;
  }

  lemma MulAddDigit(b: nat, mul: nat, d: nat, carry: nat, digit: nat, carry': nat, tail: seq<nat>, was: seq<nat>, add: nat)
    requires |tail| == |was| && digit + b * carry' == carry + mul * d
    requires Value(tail, b) + carry * Pow(b, |tail|) == Value(was, b) * mul + add
    ensures Value([digit] + tail, b) + carry' * Pow(b, |tail| + 1) == Value([d] + was, b) * mul + add
  {
    ValueFront(digit, tail, b);
    ValueFront(d, was, b);
    MulAddStep(b, mul, d, carry, digit, carry', Pow(b, |tail|), Pow(b, |tail| + 1),
               Value(tail, b), Value(was, b), Value([digit] + tail, b), Value([d] + was, b), add);
  }

  /** One digit: the new digit and the carry. */
  method MulAddOne(b: nat, mul: nat, d: nat, carry: nat) returns (digit: nat, carry': nat)
    requires b > 0
    ensures digit < b && digit + b * carry' == carry + mul * d
  {
    var x: nat := carry + mul * d;
    digit, carry' := x % b, x / b;
  }

  /** Multiply a numeral in place and add a digit, from its last digit to its first. */
  method MulAdd(buf: array<nat>, b: nat, mul: nat, add: nat) returns (carry: nat)
    requires b > 1 && AllBelow(buf[..], b)
    modifies buf
    ensures AllBelow(buf[..], b)
    ensures Value(buf[..], b) + carry * Pow(b, buf.Length) == Value(old(buf[..]), b) * mul + add
  {
    carry := add;
    ghost var was := buf[..];
    var i := buf.Length;
    assert buf[i..] == was[i..] == [];
    while i > 0
      invariant 0 <= i <= buf.Length && buf[..i] == was[..i] && AllBelow(buf[..], b)
      invariant Value(buf[i..], b) + carry * Pow(b, |buf[i..]|) == Value(was[i..], b) * mul + add
    {
      i := i - 1;
      ghost var tail := buf[i + 1..];
      assert buf[i] == was[i] && was[i..] == [was[i]] + was[i + 1..];
      var digit, next := MulAddOne(b, mul, buf[i], carry);
      MulAddDigit(b, mul, buf[i], carry, digit, next, tail, was[i + 1..], add);
      buf[i] := digit;
      carry := next;
      assert buf[i..] == [buf[i]] + tail;
    }
    assert buf[0..] == buf[..] && was[0..] == was;
  }

  /** The next digit of a numeral in base x, into a buffer in base y that can hold it: no carry is left. */
  method PushDigit(buf: array<nat>, x: nat, y: nat, d: nat, ghost before: seq<nat>)
    requires x > 1 && y > 1 && AllBelow(buf[..], y) && AllBelow(before + [d], x)
    requires Value(buf[..], y) == Value(before, x) && Pow(x, |before| + 1) <= Pow(y, buf.Length)
    modifies buf
    ensures AllBelow(buf[..], y) && Value(buf[..], y) == Value(before + [d], x)
  {
    assert (before + [d])[..|before|] == before;
    ValueBound(before + [d], x);
    var carry := MulAdd(buf, y, x, d);
    assert carry == 0 by {
      if carry > 0 {
        MulMono(1, carry, Pow(y, buf.Length), Pow(y, buf.Length));
      }
    }
  }

  method EmptyBuffer(size: nat, b: nat) returns (buf: array<nat>)
    requires b > 1
    ensures fresh(buf) && buf.Length == size && AllBelow(buf[..], b) && Value(buf[..], b) == 0
  {
    buf := new nat[size](i => 0);
    ValueSkipsZeros(size, [], b);
    assert buf[..] == Zeros(size) + [];
  }

  method CountZeros(s: seq<nat>) returns (z: nat)
    ensures z == LeadingZeros(s)
  {
    z := 0;
    while z < |s| && s[z] == 0
      invariant 0 <= z <= |s| && z + LeadingZeros(s[z..]) == LeadingZeros(s)
    {
      assert s[z..][1..] == s[z + 1..];
      z := z + 1;
    }
  }

  /** The bytes after the leading zeros, as a number in a base 58 buffer. */
  method ToBase58(bytes: seq<nat>) returns (b58: array<nat>)
    requires AllBelow(bytes, 256)
    ensures fresh(b58) && AllBelow(b58[..], 58) && Value(b58[..], 58) == Value(bytes, 256)
  {
    EncodeFits(|bytes|, 58, 256);
    b58 := EmptyBuffer(|bytes| * 138 / 100 + 1, 58);
    for i := 0 to |bytes|
      invariant b58.Length == |bytes| * 138 / 100 + 1
      invariant AllBelow(b58[..], 58) && Value(b58[..], 58) == Value(bytes[..i], 256)
    {
      PowExpMono(256, i + 1, |bytes|);
      PushDigit(b58, 256, 58, bytes[i], bytes[..i]);
      assert bytes[..i + 1] == bytes[..i] + [bytes[i]];
    }
    assert bytes[..|bytes|] == bytes;
  }

  method Translate(digits: seq<nat>) returns (str: string)
    requires AllBelow(digits, 58)
    ensures str == Text(digits)
  {
    str := [];
    for i := 0 to |digits|
      invariant str == Text(digits[..i])
    {
      str := str + [CharOf(digits[i])];
    }
    assert digits[..|digits|] == digits;
  }

  method EncodeBase58(bytes: seq<nat>) returns (str: string)
    requires AllBelow(bytes, 256)
    ensures str == Encode(bytes)
  {
    var zeroes := CountZeros(bytes);
    assert bytes == Zeros(zeroes) + bytes[zeroes..];
    ValueSkipsZeros(zeroes, bytes[zeroes..], 256);
    var b58 := ToBase58(bytes[zeroes..]);
    var it := CountZeros(b58[..]);
    BufferDigits(b58[..], 58);
    var text := Translate(b58[..][it..]);
    str := Ones(zeroes) + text;
  }

  method CountSpaces(psz: string, start: nat) returns (end: nat)
    requires start <= |psz|
    ensures start <= end <= |psz| && psz[end..] == SkipSpaces(psz[start..])
  {
    end := start;
    while end < |psz| && IsSpace(psz[end])
      invariant start <= end <= |psz| && SkipSpaces(psz[end..]) == SkipSpaces(psz[start..])
    {
      assert psz[end..][1..] == psz[end + 1..];
      end := end + 1;
    }
  }

  method CountOnes(psz: string, start: nat) returns (zeroes: nat)
    requires start <= |psz|
    ensures start + zeroes <= |psz| && (forall i :: start <= i < start + zeroes ==> psz[i] == '1')
    ensures start + zeroes < |psz| ==> psz[start + zeroes] != '1'
  {
    zeroes := 0;
    while start + zeroes < |psz| && psz[start + zeroes] == '1'
      invariant start + zeroes <= |psz| && forall i :: start <= i < start + zeroes ==> psz[i] == '1'
    {
      zeroes := zeroes + 1;
    }
  }

  /** The characters up to a space, as a number in a base 256 buffer, or failure at one outside the alphabet. */
  method ToBase256(psz: string) returns (ok: bool, b256: array<nat>, end: nat)
    ensures ok <==> IsText(Word(psz))
    ensures fresh(b256) && (ok ==> end == |Word(psz)| && AllBelow(b256[..], 256))
    ensures ok ==> Value(b256[..], 256) == Value(DigitsOf(Word(psz)), 58)
  {
    ghost var w := Word(psz);
    ghost var digits: seq<nat> := [];
    var size := |psz| * 733 / 1000 + 1;
    assert Pow(58, |psz|) <= Pow(256, size) by { DecodeFits(|psz|, 58, 256); }
    b256 := EmptyBuffer(size, 256);
    end := 0;
    while end < |psz| && !IsSpace(psz[end])
      invariant Scanned(w, digits) && |digits| == end && b256.Length == size
      invariant AllBelow(b256[..], 256) && Value(b256[..], 256) == Value(digits, 58)
    {
      var ch := DigitOf(psz[end]);
      assert end < |w| && w[end] == psz[end];
      if ch.None? {
        return false, b256, end;
      }
      ScanNext(w, digits, ch.value);
      PowExpMono(58, end + 1, |psz|);
      PushDigit(b256, 58, 256, ch.value, digits);
      digits := digits + [ch.value];
      end := end + 1;
    }
    ScanDone(w, digits);
    ok := true;
  }

  /** The digits of the first characters of a word. */
  ghost predicate Scanned(w: string, digits: seq<nat>) {
    |digits| <= |w| && AllBelow(digits, 58) && forall i :: 0 <= i < |digits| ==> DigitOf(w[i]) == Some(digits[i])
  }

  lemma ScanNext(w: string, digits: seq<nat>, d: nat)
    requires Scanned(w, digits) && |digits| < |w| && DigitOf(w[|digits|]) == Some(d)
    ensures Scanned(w, digits + [d])
  {
  }

  lemma ScanDone(w: string, digits: seq<nat>)
    requires Scanned(w, digits) && |digits| == |w|
    ensures IsText(w) && DigitsOf(w) == digits
  {
  }

  /** Skipping the ones of a word first, or not, gives the same failure and the same number. */
  lemma OnesInFront(z: nat, s: string)
    ensures Word(Ones(z) + s) == Ones(z) + Word(s)
    ensures IsText(Word(Ones(z) + s)) <==> IsText(Word(s))
    ensures IsText(Word(s)) ==> DigitsOf(Word(Ones(z) + s)) == Zeros(z) + DigitsOf(Word(s))
  {
    WordAfterOnes(z, s);
    OnesAreZeros(z, Word(s));
  }

  lemma OnesAreZeros(z: nat, v: string)
    ensures IsText(Ones(z) + v) <==> IsText(v)
    ensures IsText(v) ==> DigitsOf(Ones(z) + v) == Zeros(z) + DigitsOf(v)
  {
    DigitOfCharOf(0);
    var w := Ones(z) + v;
    if IsText(w) {
      forall i | 0 <= i < |v| ensures DigitOf(v[i]).Some? {
        assert v[i] == w[z + i];
      }
    }
  }

  lemma OnesFront(z: nat, s: string)
    requires z > 0
    ensures Ones(z) + s == ['1'] + (Ones(z - 1) + s)
  {
  }

  lemma WordStep(c: char, s: string)
    requires !IsSpace(c)
    ensures Word([c] + s) == [c] + Word(s)
  {
    assert ([c] + s)[1..] == s;
  }

  lemma {:induction false} WordAfterOnes(z: nat, s: string)
    ensures Word(Ones(z) + s) == Ones(z) + Word(s)
  {
    if z > 0 {
      WordAfterOnes(z - 1, s);
      OnesFront(z, s);
      OnesFront(z, Word(s));
      WordStep('1', Ones(z - 1) + s);
    } else {
      assert Ones(0) + s == s && Ones(0) + Word(s) == Word(s);
    }
  }

  /** A word that does not start with a one denotes no leading zero. */
  lemma NoOneNoZero(s: string)
    requires IsText(Word(s)) && (s != [] ==> s[0] != '1')
    ensures Canonical(DigitsOf(Word(s)))
  {
    if Word(s) != [] {
      assert Word(s)[0] == s[0];
    }
  }

  /** The result, once the text is split into spaces, ones, a number and spaces. */
  lemma DecodeParts(psz: string, zeroes: nat, rest: string)
    requires SkipSpaces(psz) == Ones(zeroes) + rest && (rest != [] ==> rest[0] != '1')
    ensures Decode(psz) == if !IsText(Word(rest)) || SkipSpaces(rest[|Word(rest)|..]) != [] then None
                           else Some(Zeros(zeroes) + Digits(Value(DigitsOf(Word(rest)), 58), 256))
  {
    var t := SkipSpaces(psz);
    OnesInFront(zeroes, rest);
    assert rest[|Word(rest)|..] == t[|Word(t)|..];
    if IsText(Word(rest)) {
      NoOneNoZero(rest);
      LeadingZerosAre(zeroes, DigitsOf(Word(rest)));
      ValueSkipsZeros(zeroes, DigitsOf(Word(rest)), 58);
    }
  }

  /** `psz` is the text before its terminating null character. */
  method DecodeBase58(psz: string) returns (r: Option<seq<nat>>)
    ensures r == Decode(psz)
  {
    var start := CountSpaces(psz, 0);
    assert psz[0..] == psz;
    var zeroes := CountOnes(psz, start);
    var rest := psz[start + zeroes..];
    assert psz[start..] == Ones(zeroes) + rest;
    DecodeParts(psz, zeroes, rest);
    var ok, b256, end := ToBase256(rest);
    if !ok {
      return None;
    }
    var after := CountSpaces(rest, end);
    if after != |rest| {
      return None;
    }
    var it := CountZeros(b256[..]);
    BufferDigits(b256[..], 256);
    r := Some(Zeros(zeroes) + b256[..][it..]);
  }

  method EncodeBase58Check(hash: Hash, vchIn: seq<nat>) returns (str: string)
    requires IsHash(hash) && AllBelow(vchIn, 256)
    ensures str == EncodeCheck(hash, vchIn)
  {
    var vch := vchIn + hash(vchIn)[..4];
    str := EncodeBase58(vch);
  }

  method DecodeBase58Check(hash: Hash, psz: string) returns (r: Option<seq<nat>>)
    requires IsHash(hash)
    ensures r == DecodeCheck(hash, psz)
  {
    var vch := DecodeBase58(psz);
    if vch.None? || |vch.value| < 4 {
      return None;
    }
    var n := |vch.value| - 4;
    if hash(vch.value[..n])[..4] != vch.value[n..] {
      return None;
    }
    r := Some(vch.value[..n]);
  }
}
