/**
 * The value-level meaning of the driver's bit and byte framing: C `char`
 * conversions, bit extraction, the sampled line seen as a stream of levels,
 * and the least-significant-bit-first value of a run of read slots.
 */
module Framing {
  import opened Ds18b20Defs

  /** The level a write slot leaves on the line as a number: 1 or 0. */
  type Bit = b: int | 0 <= b <= 1

  function Pow2(n: nat): (p: nat)
    ensures p >= 1
  {
    if n == 0 then 1 else 2 * Pow2(n - 1)
  }

  lemma {:induction false} Pow2Add(a: nat, b: nat)
    ensures Pow2(a + b) == Pow2(a) * Pow2(b)
  {
    if a > 0 {
      Pow2Add(a - 1, b);
    }
  }

  // ---------------------------------------------------------------------
  // C integer conversions
  // ---------------------------------------------------------------------

  /** The range of a plain `char`, which is signed or unsigned depending on the compiler. */
  predicate IsChar(charSigned: bool, v: int) {
    if charSigned then -128 <= v < 128 else 0 <= v < 256
  }

  /** Conversion to `unsigned char`: reduction modulo 256. */
  function AsUChar(v: int): Byte {
    v % 256
  }

  /**
   * Conversion of a byte value to plain `char`. For a signed `char` a value
   * above 127 does not fit; the conversion is taken to wrap modulo 256.
   */
  function ToChar(charSigned: bool, b: Byte): (c: int)
    ensures IsChar(charSigned, c)
    ensures AsUChar(c) == b
    ensures c == b <==> !charSigned || b < 128
  {
    if charSigned && b >= 128 then b - 256 else b
  }

  /** Every `char` survives the trip through `unsigned char` and back. */
  lemma CharRoundTrip(charSigned: bool, c: int)
    requires IsChar(charSigned, c)
    ensures ToChar(charSigned, AsUChar(c)) == c
  {
  }

  /** `v >> i` on a promoted `char`: an arithmetic shift, so division rounding down. */
  function Asr(v: int, i: nat): int {
    v / Pow2(i)
  }

  /** Bit `i` of `v` as the C expression `(v >> i) & 1` computes it for `v >= 0`. */
  function BitOf(v: int, i: nat): Bit {
    (v / Pow2(i)) % 2
  }

  // ---------------------------------------------------------------------
  // Division facts
  // ---------------------------------------------------------------------

  lemma MulAtLeast(d: int, t: int)
    requires d > 0 && t >= 1
    ensures d * t >= d
  {
  }

  /** Euclidean quotient and remainder are the only ones with a remainder in [0, d). */
  lemma DivModUnique(x: int, d: int, q: int, m: int)
    requires d > 0 && x == q * d + m && 0 <= m < d
    ensures x / d == q && x % d == m
  {
    var t := x / d - q;
    assert d * t == m - x % d;
    if t >= 1 {
      MulAtLeast(d, t);
      assert false;
    } else if t <= -1 {
      MulAtLeast(d, -t);
      assert false;
    }
  }

  /** Adding a multiple of 2^(i+1) does not change bit i. */
  lemma BitOfAddHigh(v: int, i: nat, k: int)
    ensures BitOf(v + k * Pow2(i + 1), i) == BitOf(v, i)
  {
    var p := Pow2(i);
    var q, m := v / p, v % p;
    assert v + k * Pow2(i + 1) == (q + 2 * k) * p + m;
    DivModUnique(v + k * Pow2(i + 1), p, q + 2 * k, m);
  }

  /** A number below 2^i has bit i clear, and adding 2^i sets it. */
  lemma BitOfBelow(v: int, i: nat)
    requires 0 <= v < Pow2(i)
    ensures BitOf(v, i) == 0
    ensures BitOf(v + Pow2(i), i) == 1
  {
    DivModUnique(v, Pow2(i), 0, v);
    DivModUnique(v + Pow2(i), Pow2(i), 1, v);
  }

  /** Reducing modulo 2^(n+1) splits off bit n. */
  lemma ModPow2Step(v: int, n: nat)
    ensures v % Pow2(n + 1) == v % Pow2(n) + BitOf(v, n) * Pow2(n)
  {
    var p := Pow2(n);
    var q, m := v / p, v % p;
    var a, c := q / 2, q % 2;
    assert v == a * (2 * p) + (c * p + m);
    DivModUnique(v, 2 * p, a, c * p + m);
  }

  // ---------------------------------------------------------------------
  // Write slots of one byte
  // ---------------------------------------------------------------------

  /** The eight bit values of a byte, least significant first. */
  function ByteBits(b: Byte): (bits: seq<Bit>)
    ensures |bits| == 8
  {
    seq(8, i requires 0 <= i < 8 => BitOf(b, i))
  }

  /** The eight bits of a byte written out. */
  lemma ByteBitsExplicit(b: Byte)
    ensures ByteBits(b) == [b % 2, b / 2 % 2, b / 4 % 2, b / 8 % 2, b / 16 % 2, b / 32 % 2, b / 64 % 2, b / 128 % 2]
  {
    Pow2Byte();
  }

  /**
   * Bit i of a `char` shifted right by i and stored into an `unsigned char`
   * is bit i of the byte the `char` holds; for a negative (signed) `char`
   * the arithmetic shift copies the sign bit in from the top, which stays
   * out of the low bit for every i below 8.
   */
  lemma ShiftedCharBit(charSigned: bool, data: int, i: nat)
    requires IsChar(charSigned, data) && i < 8
    ensures AsUChar(Asr(data, i)) % 2 == ByteBits(AsUChar(data))[i]
  {
    var p := Pow2(i);
    var s := data / p;
    assert AsUChar(s) % 2 == s % 2 by {
      DivModUnique(s, 256, s / 256, s % 256);
      assert s == (s / 256) * 256 + s % 256;
      assert s % 2 == (s % 256) % 2 by {
        DivModUnique(s, 2, (s / 256) * 128 + (s % 256) / 2, (s % 256) % 2);
      }
    }
    if data < 0 {
      assert AsUChar(data) == data + 256;
      Pow2Add(i + 1, 7 - i);
      assert Pow2(8) == 256;
      BitOfAddHigh(data, i, Pow2(7 - i));
    }
  }

  // ---------------------------------------------------------------------
  // The sampled line
  // ---------------------------------------------------------------------

  /**
   * The k-th level of the sample queue. Past its end the line reads high:
   * nothing drives the open-drain line and the pull-up holds it.
   */
  function LevelAt(q: seq<bool>, k: nat): bool {
    if k < |q| then q[k] else true
  }

  /** The queue left after n samples have been consumed. */
  function Drop(q: seq<bool>, n: nat): seq<bool>
  {
    if n <= |q| then q[n..] else []
  }

  /** Consuming n samples shifts every later level forward by n. */
  lemma LevelAtDrop(q: seq<bool>, n: nat, k: nat)
    ensures LevelAt(Drop(q, n), k) == LevelAt(q, n + k)
  {
  }

  lemma DropDrop(q: seq<bool>, a: nat, b: nat)
    ensures Drop(Drop(q, a), b) == Drop(q, a + b)
  {
  }

  /** The n levels starting at sample `start`. */
  function Window(q: seq<bool>, start: nat, n: nat): (w: seq<bool>)
    ensures |w| == n
    ensures forall k :: 0 <= k < n ==> w[k] == LevelAt(q, start + k)
  {
    seq(n, k requires 0 <= k < n => LevelAt(q, start + k))
  }

  lemma WindowDrop(q: seq<bool>, a: nat, start: nat, n: nat)
    ensures Window(Drop(q, a), start, n) == Window(q, a + start, n)
  {
    forall k | 0 <= k < n
      ensures Window(Drop(q, a), start, n)[k] == Window(q, a + start, n)[k]
    {
      LevelAtDrop(q, a, start + k);
    }
  }

  // ---------------------------------------------------------------------
  // Value of a run of read slots
  // ---------------------------------------------------------------------

  /** The number whose bit k is set exactly when levels[k] is high. */
  function LevelsValue(levels: seq<bool>): nat
  {
    if levels == [] then 0
    else
      var n := |levels| - 1;
      LevelsValue(levels[..n]) + (if levels[n] then Pow2(n) else 0)
  }

  lemma {:induction false} LevelsValueBound(levels: seq<bool>)
    ensures LevelsValue(levels) < Pow2(|levels|)
  {
    if levels != [] {
      LevelsValueBound(levels[..|levels| - 1]);
    }
  }

  /** Bit i of the value is the i-th level. */
  lemma {:induction false} LevelsValueBit(levels: seq<bool>, i: nat)
    requires i < |levels|
    ensures BitOf(LevelsValue(levels), i) == if levels[i] then 1 else 0
  {
    var n := |levels| - 1;
    var front := levels[..n];
    var v := LevelsValue(front);
    LevelsValueBound(front);
    if i == n {
      BitOfBelow(v, n);
    } else {
      LevelsValueBit(front, i);
      Pow2Add(i + 1, n - i - 1);
      var k := if levels[n] then Pow2(n - i - 1) else 0;
      assert LevelsValue(levels) == v + k * Pow2(i + 1);
      BitOfAddHigh(v, i, k);
    }
  }

  /** The byte eight read slots give, least significant bit first. */
  function ByteValue(levels: seq<bool>): (b: Byte)
    requires |levels| == 8
  {
    LevelsValueBound(levels);
    assert Pow2(8) == 256;
    LevelsValue(levels)
  }

  /** Extending a run by one level adds that level's weight. */
  lemma LevelsValueSnoc(levels: seq<bool>, x: bool)
    ensures LevelsValue(levels + [x]) == LevelsValue(levels) + (if x then Pow2(|levels|) else 0)
  {
    assert (levels + [x])[..|levels|] == levels;
  }

  /** A run of n high levels, as an idle pulled-up line gives, is the value 2^n - 1. */
  lemma {:induction false} AllHighValue(levels: seq<bool>)
    requires forall k :: 0 <= k < |levels| ==> levels[k]
    ensures LevelsValue(levels) == Pow2(|levels|) - 1
  {
    if levels != [] {
      AllHighValue(levels[..|levels| - 1]);
    }
  }

  lemma Pow2Byte()
    ensures Pow2(1) == 2 && Pow2(2) == 4 && Pow2(3) == 8 && Pow2(4) == 16
    ensures Pow2(5) == 32 && Pow2(6) == 64 && Pow2(7) == 128 && Pow2(8) == 256
  {
  }

  /** `v | (1 << i)`: v with bit i set. */
  function SetBit(v: nat, i: nat): nat {
    if BitOf(v, i) == 1 then v else v + Pow2(i)
  }

  /** Setting a bit above every bit already set adds its weight. */
  lemma SetBitAbove(v: nat, i: nat)
    requires v < Pow2(i)
    ensures SetBit(v, i) == v + Pow2(i)
  {
    BitOfBelow(v, i);
  }

  /** The line levels a write slot stream produces on a loop-back wire. */
  function Loopback(bits: seq<Bit>): (levels: seq<bool>)
    ensures |levels| == |bits|
    ensures forall k :: 0 <= k < |bits| ==> (levels[k] <==> bits[k] == 1)
  {
    seq(|bits|, k requires 0 <= k < |bits| => bits[k] == 1)
  }

  /** The first n bits of v, read back least significant first, give v modulo 2^n. */
  lemma {:induction false} LowBitsValue(v: nat, n: nat)
    ensures LevelsValue(seq(n, k requires 0 <= k < n => BitOf(v, k) == 1)) == v % Pow2(n)
  {
    var levels := seq(n, k requires 0 <= k < n => BitOf(v, k) == 1);
    if n > 0 {
      var front := seq(n - 1, k requires 0 <= k < n - 1 => BitOf(v, k) == 1);
      assert levels[..n - 1] == front;
      LowBitsValue(v, n - 1);
      ModPow2Step(v, n - 1);
    }
  }

  /**
   * Byte round trip: reading back the eight slots a byte is written as, in
   * the same order, gives the byte, for all 256 values.
   */
  lemma ByteRoundTrip(b: Byte)
    ensures LevelsValue(Loopback(ByteBits(b))) == b
  {
    var levels := seq(8, k requires 0 <= k < 8 => BitOf(b, k) == 1);
    assert Loopback(ByteBits(b)) == levels;
    LowBitsValue(b, 8);
    assert Pow2(8) == 256;
  }

  /** Distinct bytes go out as distinct slot sequences. */
  lemma ByteBitsInjective(a: Byte, b: Byte)
    ensures ByteBits(a) == ByteBits(b) <==> a == b
  {
    if ByteBits(a) == ByteBits(b) {
      ByteRoundTrip(a);
      ByteRoundTrip(b);
    }
  }
}
