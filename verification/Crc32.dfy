/**
  CRC-32 as the log uses it (the IEEE checksum, section 8 of RFC 1952): reflected polynomial
  0xEDB88320, register preset to all ones, result complemented.

  The main result is the classical guarantee of a 32-bit checksum: two payloads of equal length
  that differ, and differ only inside a window of 32 consecutive bits, have different checksums.
  That covers every change of a single byte and every change within four consecutive bytes.

  Word facts are proved by the bit-vector solver one at a time; everything built on them hides
  the bit-vector definitions and reasons with the word facts alone.
 */
module Crc32 {

  function Xor(x: bv32, y: bv32): bv32 { x ^ y }

  function Half(x: bv32): bv32 { x >> 1 }

  predicate Odd(x: bv32) { x & 1 == 1 }

  /** One division step of the reflected algorithm. */
  function Shift(c: bv32): bv32 {
    if Odd(c) then Xor(0xEDB88320, Half(c)) else Half(c)
  }

  function Shift4(c: bv32): bv32 {
    Shift(Shift(Shift(Shift(c))))
  }

  function ByteStep(c: bv32, b: bv8): bv32 {
    Shift4(Shift4(Xor(c, b as bv32)))
  }

  function Feed(c: bv32, data: seq<bv8>): bv32
    decreases |data|
  {
    if data == [] then c else Feed(ByteStep(c, data[0]), data[1..])
  }

  function Checksum(data: seq<bv8>): bv32 {
    Xor(Feed(0xffff_ffff, data), 0xffff_ffff)
  }

  // ----- the same register driven one bit at a time, lowest bit of each byte first -----

  function BitStep(c: bv32, bit: bool): bv32 {
    Shift(if bit then Xor(c, 1) else c)
  }

  function FeedBits(c: bv32, bits: seq<bool>): bv32
    decreases |bits|
  {
    if bits == [] then c else FeedBits(BitStep(c, bits[0]), bits[1..])
  }

  function LowBits(b: bv8): (bits: seq<bool>)
    ensures |bits| == 4
  {
    [b & 1 == 1, b & 2 == 2, b & 4 == 4, b & 8 == 8]
  }

  function HighBits(b: bv8): (bits: seq<bool>)
    ensures |bits| == 4
  {
    [b & 16 == 16, b & 32 == 32, b & 64 == 64, b & 128 == 128]
  }

  function Bits(data: seq<bv8>): (bits: seq<bool>)
    ensures |bits| == 8 * |data|
  {
    if data == [] then [] else LowBits(data[0]) + HighBits(data[0]) + Bits(data[1..])
  }

  // ----- word facts -----

  lemma XorAssociates(x: bv32, y: bv32, z: bv32)
    ensures Xor(Xor(x, y), z) == Xor(x, Xor(y, z))
  {
  }

  lemma XorCommutes(x: bv32, y: bv32)
    ensures Xor(x, y) == Xor(y, x)
  {
  }

  lemma XorSelf(x: bv32)
    ensures Xor(x, x) == 0
  {
  }

  lemma XorZero(x: bv32)
    ensures Xor(x, 0) == x
  {
  }

  lemma XorOfDistinct(x: bv32, y: bv32)
    ensures Xor(x, y) == 0 <==> x == y
  {
    XorSelf(x);
    XorAssociates(x, x, y);
    XorCommutes(0, y);
    XorZero(x);
    XorZero(y);
    hide Xor;
  }

  lemma HalfXor(x: bv32, y: bv32)
    ensures Half(Xor(x, y)) == Xor(Half(x), Half(y))
  {
  }

  lemma OddXor(x: bv32, y: bv32)
    ensures Odd(Xor(x, y)) == (Odd(x) != Odd(y))
  {
  }

  lemma SplitLowBit(w: bv32)
    ensures w == Xor(if Odd(w) then 1 else 0, Xor(w, if Odd(w) then 1 else 0))
  {
  }

  lemma ShiftWithoutLowBit(w: bv32)
    ensures Shift(Xor(w, if Odd(w) then 1 else 0)) == Half(w)
  {
  }

  lemma ShiftIsZero(x: bv32)
    ensures Shift(x) == 0 <==> x == 0
  {
  }

  /** A result with a clear top bit came from an even register, so it is a plain shift. */
  lemma ShiftOfEven(x: bv32)
    requires Shift(x) & 0x8000_0000 == 0
    ensures !Odd(x) && Shift(x) == Half(x)
  {
  }

  lemma HalfOfFlipped(x: bv32)
    ensures Half(Xor(x, 1)) == Half(x)
  {
  }

  /** The division step is linear over exclusive or. */
  lemma ShiftIsLinear(x: bv32, y: bv32)
    ensures Shift(Xor(x, y)) == Xor(Shift(x), Shift(y))
  {
    hide Xor, Half, Odd;
    HalfXor(x, y);
    OddXor(x, y);
    var p: bv32, h, k := 0xEDB88320, Half(x), Half(y);
    XorAssociates(p, h, k);                 // (p h) k = p (h k)
    XorAssociates(h, p, k);
    XorAssociates(p, h, Xor(p, k));
    XorCommutes(h, p);
    XorAssociates(p, p, Xor(h, k));
    XorSelf(p);
    XorCommutes(0, Xor(h, k));
    XorZero(Xor(h, k));
  }

  // ----- bytes and bits agree -----

  /** Feeding a word's low bit leaves the rest of the word to be fed, one place lower. */
  lemma PeelBit(c: bv32, w: bv32)
    ensures Shift(Xor(c, w)) == Xor(BitStep(c, Odd(w)), Half(w))
  {
    hide Xor, Half, Odd, Shift;
    var low: bv32 := if Odd(w) then 1 else 0;
    SplitLowBit(w);
    ShiftWithoutLowBit(w);
    XorAssociates(c, low, Xor(w, low));
    ShiftIsLinear(Xor(c, low), Xor(w, low));
    XorZero(c);
  }

  function BitSteps4(c: bv32, bits: seq<bool>): bv32
    requires |bits| == 4
  {
    BitStep(BitStep(BitStep(BitStep(c, bits[0]), bits[1]), bits[2]), bits[3])
  }

  function Quarter(w: bv32): bv32 { Half(Half(Half(Half(w)))) }

  lemma PeelFour(c: bv32, w: bv32, bits: seq<bool>)
    requires bits == [Odd(w), Odd(Half(w)), Odd(Half(Half(w))), Odd(Half(Half(Half(w))))]
    ensures Shift4(Xor(c, w)) == Xor(BitSteps4(c, bits), Quarter(w))
  {
    hide Xor, Half, Odd, Shift, BitStep;
    var c1 := BitStep(c, bits[0]);
    var c2 := BitStep(c1, bits[1]);
    var c3 := BitStep(c2, bits[2]);
    PeelBit(c, w);
    PeelBit(c1, Half(w));
    PeelBit(c2, Half(Half(w)));
    PeelBit(c3, Half(Half(Half(w))));
  }

  lemma LowBitsOfByte(b: bv8, w: bv32)
    requires w == b as bv32
    ensures LowBits(b) == [Odd(w), Odd(Half(w)), Odd(Half(Half(w))), Odd(Half(Half(Half(w))))]
  {
  }

  lemma HighBitsOfByte(b: bv8, w: bv32)
    requires w == Quarter(b as bv32)
    ensures HighBits(b) == [Odd(w), Odd(Half(w)), Odd(Half(Half(w))), Odd(Half(Half(Half(w))))]
    ensures Quarter(w) == 0
  {
  }

  lemma {:induction false} FeedFour(c: bv32, bits: seq<bool>, rest: seq<bool>)
    requires |bits| == 4
    ensures FeedBits(c, bits + rest) == FeedBits(BitSteps4(c, bits), rest)
  {
    hide BitStep;
    var s1 := [bits[1], bits[2], bits[3]] + rest;
    var s2 := [bits[2], bits[3]] + rest;
    var s3 := [bits[3]] + rest;
    assert bits + rest == [bits[0]] + s1 && s1 == [bits[1]] + s2 && s2 == [bits[2]] + s3;
    FeedOne(c, bits[0], s1);
    FeedOne(BitStep(c, bits[0]), bits[1], s2);
    FeedOne(BitStep(BitStep(c, bits[0]), bits[1]), bits[2], s3);
    FeedOne(BitStep(BitStep(BitStep(c, bits[0]), bits[1]), bits[2]), bits[3], rest);
  }

  lemma FeedOne(c: bv32, b: bool, rest: seq<bool>)
    ensures FeedBits(c, [b] + rest) == FeedBits(BitStep(c, b), rest)
  {
    hide BitStep;
    assert ([b] + rest)[1..] == rest;
  }

  lemma ByteStepFeedsBits(c: bv32, b: bv8)
    ensures ByteStep(c, b) == BitSteps4(BitSteps4(c, LowBits(b)), HighBits(b))
  {
    hide Xor, Half, Odd, Shift4, BitSteps4, LowBits, HighBits, Quarter;
    var w := b as bv32;
    var mid := BitSteps4(c, LowBits(b));
    LowBitsOfByte(b, w);
    HighBitsOfByte(b, Quarter(w));
    PeelFour(c, w, LowBits(b));
    PeelFour(mid, Quarter(w), HighBits(b));
    XorZero(BitSteps4(mid, HighBits(b)));
  }

  lemma {:induction false} FeedIsFeedBits(c: bv32, data: seq<bv8>)
    ensures Feed(c, data) == FeedBits(c, Bits(data))
    decreases |data|
  {
    hide ByteStep, LowBits, HighBits, BitStep, BitSteps4;
    if data == [] {
    } else {
      var low, high, rest := LowBits(data[0]), HighBits(data[0]), Bits(data[1..]);
      ByteStepFeedsBits(c, data[0]);
      assert Bits(data) == low + (high + rest);
      FeedFour(c, low, high + rest);
      FeedFour(BitSteps4(c, low), high, rest);
      FeedIsFeedBits(ByteStep(c, data[0]), data[1..]);
    }
  }

  // ----- differences -----

  function Difference(u: seq<bool>, v: seq<bool>): (e: seq<bool>)
    requires |u| == |v|
    ensures |e| == |u| && forall i | 0 <= i < |e| :: e[i] == (u[i] != v[i])
  {
    seq(|u|, i requires 0 <= i < |u| => u[i] != v[i])
  }

  lemma BitStepDifference(c: bv32, d: bv32, b: bool, e: bool)
    ensures Xor(BitStep(c, b), BitStep(d, e)) == BitStep(Xor(c, d), b != e)
  {
    hide Xor, Shift;
    ShiftIsLinear(if b then Xor(c, 1) else c, if e then Xor(d, 1) else d);
    XorAssociates(c, 1, d);
    XorAssociates(c, d, 1);
    XorCommutes(1, d);
    XorAssociates(c, 1, Xor(d, 1));
    XorAssociates(1, 1, d);
    XorSelf(1);
    XorCommutes(0, d);
    XorZero(d);
  }

  /** The registers of two streams differ by what the difference stream leaves. */
  lemma {:induction false} FeedBitsDifference(c: bv32, d: bv32, u: seq<bool>, v: seq<bool>)
    requires |u| == |v|
    ensures Xor(FeedBits(c, u), FeedBits(d, v)) == FeedBits(Xor(c, d), Difference(u, v))
    decreases |u|
  {
    hide Xor, BitStep;
    if u == [] {
    } else {
      BitStepDifference(c, d, u[0], v[0]);
      FeedBitsDifference(BitStep(c, u[0]), BitStep(d, v[0]), u[1..], v[1..]);
      assert Difference(u, v)[1..] == Difference(u[1..], v[1..]);
    }
  }

  // ----- a short difference never cancels -----

  function Double(x: bv32): bv32 { x << 1 }

  /** 2^k, for k < 32. */
  function Power(k: nat): bv32 {
    if k == 0 then 1 else Double(Power(k - 1))
  }

  predicate Disjoint(x: bv32, y: bv32) { x & y == 0 }

  /** x < 2^m. */
  predicate Below(x: bv32, m: nat) {
    if m == 0 then x == 0 else Below(Half(x), m - 1)
  }

  lemma ZeroIsDisjoint(y: bv32)
    ensures Disjoint(0, y)
  {
  }

  lemma DisjointDouble(x: bv32, y: bv32)
    ensures Disjoint(Half(x), y) ==> Disjoint(x, Double(y))
  {
  }

  lemma {:induction false} BelowClearsBit(x: bv32, m: nat, k: nat)
    requires Below(x, m) && m <= k
    ensures Disjoint(x, Power(k))
    decreases m
  {
    hide Half, Disjoint, Double;
    if m == 0 {
      ZeroIsDisjoint(Power(k));
    } else {
      BelowClearsBit(Half(x), m - 1, k - 1);
      DisjointDouble(x, Power(k - 1));
    }
  }

  lemma TopPower()
    ensures Power(31) == 0x8000_0000
  {
    assert Power(8) == 0x100;
    assert Power(16) == 0x1_0000;
    assert Power(24) == 0x100_0000;
  }

  lemma EvenStep(d: bv32, b: bool)
    requires Disjoint(BitStep(d, b), 0x8000_0000)
    ensures BitStep(d, b) == Half(d)
  {
    ShiftOfEven(if b then Xor(d, 1) else d);
    HalfOfFlipped(d);
  }

  /** A register that fewer than 32 bits can clear was already below 2 to their number. */
  lemma {:induction false} ClearedWasBelow(d: bv32, bits: seq<bool>)
    requires FeedBits(d, bits) == 0 && |bits| <= 31
    ensures Below(d, |bits|)
    decreases |bits|
  {
    hide BitStep, Half, Disjoint, Power;
    if bits == [] {
    } else {
      var next := BitStep(d, bits[0]);
      ClearedWasBelow(next, bits[1..]);
      BelowClearsBit(next, |bits| - 1, 31);
      TopPower();
      EvenStep(d, bits[0]);
    }
  }

  lemma {:induction false} ZerosKeepNonzero(d: bv32, bits: seq<bool>)
    requires forall i | 0 <= i < |bits| :: !bits[i]
    ensures FeedBits(d, bits) == 0 <==> d == 0
    decreases |bits|
  {
    hide Shift;
    if bits == [] {
    } else {
      ShiftIsZero(d);
      ZerosKeepNonzero(BitStep(d, bits[0]), bits[1..]);
    }
  }

  lemma {:induction false} FeedBitsAppend(c: bv32, u: seq<bool>, v: seq<bool>)
    ensures FeedBits(c, u + v) == FeedBits(FeedBits(c, u), v)
    decreases |u|
  {
    hide BitStep;
    if u == [] {
      assert u + v == v;
    } else {
      assert (u + v)[1..] == u[1..] + v;
      FeedBitsAppend(BitStep(c, u[0]), u[1..], v);
    }
  }

  lemma FirstDifference()
    ensures BitStep(0, true) == 0xEDB88320
    ensures BitStep(0, false) == 0
    ensures !Disjoint(0xEDB88320, 0x8000_0000)
  {
  }

  /** After the first difference at most 31 more can follow, and they cannot clear the register. */
  lemma AfterFirstDifference(bits: seq<bool>, n: nat)
    requires n <= 31 && n <= |bits| && forall i | n <= i < |bits| :: !bits[i]
    ensures FeedBits(0xEDB88320, bits) != 0
  {
    hide Disjoint, Power, FeedBits;
    var mid := FeedBits(0xEDB88320, bits[..n]);
    assert bits == bits[..n] + bits[n..];
    FeedBitsAppend(0xEDB88320, bits[..n], bits[n..]);
    ZerosKeepNonzero(mid, bits[n..]);
    if mid == 0 {
      ClearedWasBelow(0xEDB88320, bits[..n]);
      BelowClearsBit(0xEDB88320, n, 31);
      TopPower();
      FirstDifference();
    }
  }

  lemma {:induction false} BurstNeverCancels(e: seq<bool>, start: int)
    requires exists i | 0 <= i < |e| :: e[i]
    requires forall i | 0 <= i < |e| && e[i] :: start <= i < start + 32
    ensures FeedBits(0, e) != 0
    decreases |e|
  {
    hide BitStep;
    FirstDifference();
    if e[0] {
      AfterFirstDifference(e[1..], if |e| - 1 <= 31 then |e| - 1 else 31);
    } else {
      var i :| 0 <= i < |e| && e[i];
      assert e[1..][i - 1];
      BurstNeverCancels(e[1..], start - 1);
    }
  }

  /** Main result: a change confined to 32 consecutive bits always changes the checksum. */
  lemma BurstChangesChecksum(u: seq<bv8>, v: seq<bv8>, start: int)
    requires |u| == |v| && u != v
    requires forall i | 0 <= i < 8 * |u| && Bits(u)[i] != Bits(v)[i] :: start <= i < start + 32
    ensures Checksum(u) != Checksum(v)
  {
    hide Xor, Feed, FeedBits, Bits;
    var c: bv32 := 0xffff_ffff;
    FeedIsFeedBits(c, u);
    FeedIsFeedBits(c, v);
    FeedBitsDifference(c, c, Bits(u), Bits(v));
    XorSelf(c);
    var e := Difference(Bits(u), Bits(v));
    BitsDetermineBytes(u, v);
    var i :| 0 <= i < |e| && Bits(u)[i] != Bits(v)[i];
    assert e[i];
    BurstNeverCancels(e, start);
    XorOfDistinct(FeedBits(c, Bits(u)), FeedBits(c, Bits(v)));
    ComplementIsInjective(Feed(c, u), Feed(c, v));
  }

  lemma ComplementIsInjective(x: bv32, y: bv32)
    ensures Xor(x, 0xffff_ffff) == Xor(y, 0xffff_ffff) ==> x == y
  {
  }

  lemma ByteBitsDetermineByte(b: bv8, c: bv8)
    ensures LowBits(b) + HighBits(b) == LowBits(c) + HighBits(c) ==> b == c
  {
    var x, y := LowBits(b) + HighBits(b), LowBits(c) + HighBits(c);
    if x == y {
      assert x[0] == y[0] && x[1] == y[1] && x[2] == y[2] && x[3] == y[3];
      assert x[4] == y[4] && x[5] == y[5] && x[6] == y[6] && x[7] == y[7];
    }
  }

  lemma {:induction false} BitsDetermineBytes(u: seq<bv8>, v: seq<bv8>)
    requires |u| == |v| && u != v
    ensures exists i :: 0 <= i < 8 * |u| && Bits(u)[i] != Bits(v)[i]
    decreases |u|
  {
    hide LowBits, HighBits;
    if Bits(u) == Bits(v) {
      ByteBitsDetermineByte(u[0], v[0]);
      assert Bits(u)[..8] == LowBits(u[0]) + HighBits(u[0]);
      assert Bits(v)[..8] == LowBits(v[0]) + HighBits(v[0]);
      assert Bits(u)[8..] == Bits(u[1..]);
      assert Bits(v)[8..] == Bits(v[1..]);
      BitsDetermineBytes(u[1..], v[1..]);
    }
  }

  lemma {:induction false} EqualByteEqualBit(u: seq<bv8>, v: seq<bv8>, i: nat)
    requires |u| == |v| && i < 8 * |u| && u[i / 8] == v[i / 8]
    ensures Bits(u)[i] == Bits(v)[i]
    decreases i
  {
    hide LowBits, HighBits;
    if i >= 8 {
      assert u[1..][(i - 8) / 8] == u[i / 8] && v[1..][(i - 8) / 8] == v[i / 8];
      EqualByteEqualBit(u[1..], v[1..], i - 8);
    }
  }

  /** Main result in bytes: a change confined to four consecutive bytes changes the checksum. */
  lemma FourByteChangeIsDetected(u: seq<bv8>, v: seq<bv8>, k: int)
    requires |u| == |v| && u != v
    requires forall i | 0 <= i < |u| && u[i] != v[i] :: k <= i < k + 4
    ensures Checksum(u) != Checksum(v)
  {
    hide Bits, Checksum;
    forall i | 0 <= i < 8 * |u| && Bits(u)[i] != Bits(v)[i] ensures 8 * k <= i < 8 * k + 32 {
      if u[i / 8] == v[i / 8] {
        EqualByteEqualBit(u, v, i);
      }
    }
    BurstChangesChecksum(u, v, 8 * k);
  }

  /** The check value of this CRC in the literature: the checksum of the ASCII digits 1 to 9. */
  lemma CheckValue()
    ensures Checksum([0x31, 0x32, 0x33, 0x34, 0x35, 0x36, 0x37, 0x38, 0x39]) == 0xCBF43926
  {
    FeedFirst(0xFFFFFFFF, 0x31, [0x32, 0x33, 0x34, 0x35, 0x36, 0x37, 0x38, 0x39], 0x7C231048);
    FeedFirst(0x7C231048, 0x32, [0x33, 0x34, 0x35, 0x36, 0x37, 0x38, 0x39], 0xB0ACBB32);
    FeedFirst(0xB0ACBB32, 0x33, [0x34, 0x35, 0x36, 0x37, 0x38, 0x39], 0x77B79C2D);
    FeedFirst(0x77B79C2D, 0x34, [0x35, 0x36, 0x37, 0x38, 0x39], 0x641C1F5C);
    FeedFirst(0x641C1F5C, 0x35, [0x36, 0x37, 0x38, 0x39], 0x340AC5E3);
    FeedFirst(0x340AC5E3, 0x36, [0x37, 0x38, 0x39], 0xF68D2C9E);
    FeedFirst(0xF68D2C9E, 0x37, [0x38, 0x39], 0xAFFC9660);
    FeedFirst(0xAFFC9660, 0x38, [0x39], 0x651F2550);
    FeedFirst(0x651F2550, 0x39, [], 0x340BC6D9);
  }

  lemma FeedFirst(c: bv32, b: bv8, rest: seq<bv8>, next: bv32)
    requires ByteStep(c, b) == next
    ensures Feed(c, [b] + rest) == Feed(next, rest)
  {
    hide ByteStep;
    assert ([b] + rest)[1..] == rest;
  }
}
