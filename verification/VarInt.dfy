/**
 Variable-length integers (src/serialize.h): base 128, most significant digit first, a
 high bit on all but the last byte, and one subtracted from all but the last digit so
 that every number has exactly one encoding.
 */
module VarInt {
  import opened Coins

  type Byte = b: nat | b < 256

  /** All digits of n as bytes with the high bit set. */
  function Leading(n: nat): seq<Byte> {
    if n <= 0x7F then [n + 0x80] else Leading(n / 128 - 1) + [n % 128 + 0x80]
  }

  /**
   WriteVarInt.  A negative number passes the first `n <= 0x7F` test at once, so only its
   low seven bits are written.
   */
  function Write(n: int): seq<Byte> {
    if n <= 0x7F then [n % 128] else Leading(n / 128 - 1) + [n % 128]
  }

  /** ReadVarInt, having read `acc` so far. */
  function Read(bytes: seq<Byte>, acc: nat): Option<(nat, seq<Byte>)>
    decreases |bytes|
  {
    if bytes == [] then None
    else if bytes[0] >= 0x80 then Read(bytes[1..], acc * 128 + (bytes[0] - 0x80) + 1)
    else Some((acc * 128 + bytes[0], bytes[1..]))
  }

  /** Reading leading digits accumulates their number, plus the one that was taken off. */
  lemma {:induction false} ReadLeading(n: nat, rest: seq<Byte>)
    ensures Read(Leading(n) + rest, 0) == Read(rest, n + 1)
  {
    if n <= 0x7F {
      assert (Leading(n) + rest)[1..] == rest;
    } else {
      var tail := [(n % 128 + 0x80) as Byte] + rest;
      ReadLeading(n / 128 - 1, tail);
      assert Leading(n) + rest == Leading(n / 128 - 1) + tail;
      assert tail[1..] == rest;
    }
  }

  /** The sum that the leading bytes stand for, each with its high bit taken off and one added. */
  function LeadingSum(bytes: seq<Byte>): int {
    if bytes == [] then 0
    else 128 * LeadingSum(bytes[..|bytes| - 1]) + (bytes[|bytes| - 1] as int - 0x80) + 1
  }

  lemma {:induction false} LeadingIs(n: nat)
    ensures Leading(n) != [] && (forall i :: 0 <= i < |Leading(n)| ==> Leading(n)[i] >= 0x80) && LeadingSum(Leading(n)) == n + 1
  {
    if n > 0x7F {
      LeadingIs(n / 128 - 1);
      assert Leading(n)[..|Leading(n)| - 1] == Leading(n / 128 - 1);
    } else {
      assert Leading(n)[..0] == [];
    }
  }

  /** The encoding of a number: most significant first, high bits on all bytes but the last, and the sum they stand for. */
  lemma WriteIs(n: nat)
    ensures var bytes := Write(n); var last := |bytes| - 1;
            && last >= 0 && (forall i :: 0 <= i < last ==> bytes[i] >= 0x80) && bytes[last] < 0x80
            && n == 128 * LeadingSum(bytes[..last]) + bytes[last]
  {
    if n > 0x7F {
      LeadingIs(n / 128 - 1);
      assert Write(n)[..|Write(n)| - 1] == Leading(n / 128 - 1);
    } else {
      assert Write(n)[..0] == [];
    }
  }

  lemma WriteExamples()
    ensures Write(0) == [0x00] && Write(127) == [0x7F] && Write(128) == [0x80, 0x00] && Write(255) == [0x80, 0x7F]
    ensures Write(256) == [0x81, 0x00] && Write(16383) == [0xFE, 0x7F] && Write(16384) == [0xFF, 0x00]
    ensures Write(16511) == [0xFF, 0x7F] && Write(65535) == [0x82, 0xFE, 0x7F]
    ensures Write(0x1_0000_0000) == [0x8E, 0xFE, 0xFE, 0xFF, 0x00]
  {
    assert Leading(0x1_0000_0000 / 128 - 1) == [0x8E, 0xFE, 0xFE, 0xFF];
  }

  /** Reading back gives the number and leaves what follows: no length is stored. */
  lemma ReadWrite(n: nat, rest: seq<Byte>)
    ensures Read(Write(n) + rest, 0) == Some((n, rest))
  {
    if n <= 0x7F {
      assert (Write(n) + rest)[1..] == rest;
    } else {
      var tail := [(n % 128) as Byte] + rest;
      ReadLeading(n / 128 - 1, tail);
      assert Write(n) + rest == Leading(n / 128 - 1) + tail;
      assert tail[1..] == rest;
    }
  }

  /** A negative number does not come back. */
  lemma NegativeIsLost(n: int, rest: seq<Byte>)
    requires n < 0
    ensures Read(Write(n) + rest, 0) == Some((n % 128, rest)) && n % 128 != n
  {
    assert (Write(n) + rest)[1..] == rest;
  }

  /** The bytes that bring the accumulator to acc. */
  function Before(acc: nat): seq<Byte> {
    if acc == 0 then [] else Leading(acc - 1)
  }

  lemma BeforeNext(acc: nat, b: Byte)
    requires b >= 0x80
    ensures Before(acc) + [b] == Before(acc * 128 + (b - 0x80) + 1)
  {
    var n := acc * 128 + (b - 0x80);
    if acc > 0 {
      assert n / 128 == acc && n % 128 == b - 0x80;
    }
  }

  /** Every byte sequence that reads as a number is the encoding of that number: no redundancy. */
  lemma {:induction false} WriteRead(bytes: seq<Byte>, acc: nat)
    requires Read(bytes, acc).Some?
    ensures var (n, rest) := Read(bytes, acc).value; Before(acc) + bytes == Write(n) + rest
    decreases |bytes|
  {
    var (n, rest) := Read(bytes, acc).value;
    assert bytes == [bytes[0]] + bytes[1..];
    if bytes[0] >= 0x80 {
      BeforeNext(acc, bytes[0]);
      WriteRead(bytes[1..], acc * 128 + (bytes[0] - 0x80) + 1);
      assert Before(acc) + bytes == Before(acc) + [bytes[0]] + bytes[1..];
    } else if acc > 0 {
      assert n / 128 == acc && n % 128 == bytes[0];
      assert Before(acc) + bytes == Leading(acc - 1) + [bytes[0]] + bytes[1..];
    }
  }

  lemma EveryNumberHasOneEncoding(bytes: seq<Byte>, n: nat)
    requires Read(bytes, 0) == Some((n, []))
    ensures bytes == Write(n)
  {
    WriteRead(bytes, 0);
    assert Before(0) + bytes == bytes && Write(n) + [] == Write(n);
  }

  /** What the digits produced so far, last to first, stand for: the rest of the number is still n. */
  ghost predicate Produced(number: int, n: int, tmp: seq<Byte>) {
    if tmp == [] then n == number else n >= 0 && Write(number) == Leading(n) + Reversed(tmp)
  }

  /** The next digit and the high bit that all but the last have. */
  function NextDigit(n: int, tmp: seq<Byte>): Byte {
    n % 128 + if tmp == [] then 0x00 else 0x80
  }

  lemma ProduceOne(number: int, n: int, tmp: seq<Byte>)
    requires Produced(number, n, tmp) && n > 0x7F
    ensures Produced(number, n / 128 - 1, tmp + [NextDigit(n, tmp)])
  {
    var digit := NextDigit(n, tmp);
    ReversedAppend(tmp, digit);
    if tmp != [] {
      assert Leading(n) + Reversed(tmp) == Leading(n / 128 - 1) + ([digit] + Reversed(tmp));
    } else {
      assert [digit] + Reversed([]) == [digit];
    }
  }

  lemma ProduceLast(number: int, n: int, tmp: seq<Byte>)
    requires Produced(number, n, tmp) && n <= 0x7F
    ensures Reversed(tmp + [NextDigit(n, tmp)]) == Write(number)
  {
    ReversedAppend(tmp, NextDigit(n, tmp));
  }

  /** WriteVarInt with its buffer: digits are produced last to first and written out in reverse. */
  method WriteVarInt(number: int) returns (os: seq<Byte>)
    ensures os == Write(number)
  {
    var n := number;
    var tmp: seq<Byte> := [];
    while n > 0x7F
      invariant Produced(number, n, tmp)
      decreases n
    {
      ProduceOne(number, n, tmp);
      tmp := tmp + [NextDigit(n, tmp)];
      n := n / 128 - 1;
    }
    ProduceLast(number, n, tmp);
    tmp := tmp + [NextDigit(n, tmp)];
    os := Emit(tmp);
  }

  /** The second loop of WriteVarInt. */
  method Emit(tmp: seq<Byte>) returns (os: seq<Byte>)
    ensures os == Reversed(tmp)
  {
    os := [];
    var len := |tmp|;
    assert tmp[..len] == tmp;
    while len > 0
      invariant 0 <= len <= |tmp| && os + Reversed(tmp[..len]) == Reversed(tmp)
      decreases len
    {
      ReversedAppend(tmp[..len - 1], tmp[len - 1]);
      assert tmp[..len] == tmp[..len - 1] + [tmp[len - 1]];
      os := os + [tmp[len - 1]];
      len := len - 1;
    }
  }

  function Reversed(s: seq<Byte>): seq<Byte> {
    if s == [] then [] else [s[|s| - 1]] + Reversed(s[..|s| - 1])
  }

  lemma ReversedAppend(s: seq<Byte>, b: Byte)
    ensures Reversed(s + [b]) == [b] + Reversed(s)
  {
    assert (s + [b])[..|s|] == s;
  }

  method ReadVarInt(bytes: seq<Byte>) returns (r: Option<(nat, seq<Byte>)>)
    ensures r == Read(bytes, 0)
  {
    var n: nat, i := 0, 0;
    assert bytes[0..] == bytes;
    while i < |bytes|
      invariant 0 <= i <= |bytes| && Read(bytes, 0) == Read(bytes[i..], n)
    {
      var chData := bytes[i];
      assert bytes[i..][1..] == bytes[i + 1..];
      n := n * 128 + chData % 128;
      if chData >= 0x80 {
        n := n + 1;
      } else {
        return Some((n, bytes[i + 1..]));
      }
      i := i + 1;
    }
    r := None;
  }
}
