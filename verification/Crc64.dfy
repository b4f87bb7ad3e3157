/** The CRC-64 of Redis ("Jones" polynomial), computed eight bytes at a time from tables
    (src/rdb_decode.cpp:1277-1385, on a little-endian host), against its bit-serial definition. */
module Crc64 {
  import opened Bytes

  // ----- the definition: one bit at a time, least significant bit first

  function Xor(a: bv64, b: bv64): bv64 { a ^ b }

  /** The Jones polynomial with its bits in reverse order, added when a one leaves the register. */
  function Feedback(odd: bool): bv64 {
    if odd then 0x95ac9329ac4bc9b5 else 0
  }

  function BitStep(c: bv64): bv64 {
    Xor(c >> 1, Feedback(c & 1 == 1))
  }

  function BitSteps(c: bv64, n: nat): bv64
    decreases n
  {
    if n == 0 then c else BitSteps(BitStep(c), n - 1)
  }

  /** The register after eight zero bits. */
  function ZeroByte(c: bv64): bv64 { BitSteps(c, 8) }

  /** A byte as a machine word, and the low byte of a machine word. */
  function Word(b: Byte): bv64 { (b as bv8) as bv64 }
  function Low(c: bv64): Byte { ((c & 0xff) as bv8) as int }

  function ByteStep(crc: bv64, b: Byte): bv64 {
    ZeroByte(Xor(crc, Word(b)))
  }

  function Crc(crc: bv64, s: seq<Byte>): bv64
    decreases s
  {
    if s == [] then crc else Crc(ByteStep(crc, s[0]), s[1..])
  }

  /** Feeding a string in pieces is feeding it whole. */
  lemma {:induction false} CrcConcat(crc: bv64, s: seq<Byte>, t: seq<Byte>)
    ensures Crc(crc, s + t) == Crc(Crc(crc, s), t)
    decreases s
  {
    hide ByteStep;
    if s == [] {
      assert s + t == t;
    } else {
      assert (s + t)[1..] == s[1..] + t;
      CrcConcat(ByteStep(crc, s[0]), s[1..], t);
    }
  }

  // ----- bit-vector facts

  function Down(c: bv64): bv64 { c >> 1 }
  function Odd(c: bv64): bool { c & 1 == 1 }
  function LowPart(c: bv64): bv64 { c & 0xff }
  function HighPart(c: bv64): bv64 { c & 0xffffffffffffff00 }
  function DownByte(c: bv64): bv64 { c >> 8 }

  lemma BitStepIs(c: bv64)
    ensures BitStep(c) == Xor(Down(c), Feedback(Odd(c)))
  {}

  lemma DownXor(x: bv64, y: bv64)
    ensures Down(Xor(x, y)) == Xor(Down(x), Down(y))
  {}

  lemma OddXor(x: bv64, y: bv64)
    ensures Odd(Xor(x, y)) == (Odd(x) != Odd(y))
  {}

  lemma FeedbackXor(p: bool, q: bool)
    ensures Xor(Feedback(p), Feedback(q)) == Feedback(p != q)
  {}

  lemma XorAssoc(a: bv64, b: bv64, c: bv64)
    ensures Xor(Xor(a, b), c) == Xor(a, Xor(b, c))
  {}

  lemma XorCommutes(a: bv64, b: bv64)
    ensures Xor(a, b) == Xor(b, a)
  {}

  lemma XorMiddle(a: bv64, b: bv64, c: bv64)
    ensures Xor(Xor(a, b), c) == Xor(Xor(a, c), b)
  {
    hide *;
    XorAssoc(a, b, c);
    XorCommutes(b, c);
    XorAssoc(a, c, b);
  }

  lemma XorSwap(a: bv64, b: bv64, p: bv64, q: bv64)
    ensures Xor(Xor(a, p), Xor(b, q)) == Xor(Xor(a, b), Xor(p, q))
  {
    hide *;
    XorAssoc(Xor(a, p), b, q);
    XorMiddle(a, p, b);
    XorAssoc(Xor(a, b), p, q);
  }

  lemma XorZero(a: bv64)
    ensures Xor(a, 0) == a && Xor(0, a) == a
  {}

  lemma ByteRoundTrip(b: bv8)
    ensures (b as int) as bv8 == b
  {}

  lemma LowWord(c: bv64)
    ensures Word(Low(c)) == LowPart(c)
  {
    ByteRoundTrip((c & 0xff) as bv8);
  }

  lemma LowHigh(c: bv64)
    ensures Xor(LowPart(c), HighPart(c)) == c
    ensures LowPart(HighPart(c)) == 0
    ensures DownByte(HighPart(c)) == DownByte(c)
  {}

  lemma EightEven(h: bv64)
    requires LowPart(h) == 0
    ensures !Odd(h) && !Odd(h >> 1) && !Odd(h >> 2) && !Odd(h >> 3)
    ensures !Odd(h >> 4) && !Odd(h >> 5) && !Odd(h >> 6) && !Odd(h >> 7)
  {}

  lemma EightDowns(h: bv64)
    ensures Down(h) == h >> 1 && Down(h >> 1) == h >> 2 && Down(h >> 2) == h >> 3
    ensures Down(h >> 3) == h >> 4 && Down(h >> 4) == h >> 5 && Down(h >> 5) == h >> 6
    ensures Down(h >> 6) == h >> 7 && Down(h >> 7) == DownByte(h)
  {}

  // ----- linearity over GF(2)

  lemma BitStepLinear(x: bv64, y: bv64)
    ensures BitStep(Xor(x, y)) == Xor(BitStep(x), BitStep(y))
  {
    hide *;
    BitStepIs(x);
    BitStepIs(y);
    BitStepIs(Xor(x, y));
    DownXor(x, y);
    OddXor(x, y);
    FeedbackXor(Odd(x), Odd(y));
    XorSwap(Down(x), Down(y), Feedback(Odd(x)), Feedback(Odd(y)));
  }

  lemma {:induction false} BitStepsLinear(x: bv64, y: bv64, n: nat)
    ensures BitSteps(Xor(x, y), n) == Xor(BitSteps(x, n), BitSteps(y, n))
    decreases n
  {
    hide Xor, BitStep;
    if n > 0 {
      BitStepLinear(x, y);
      BitStepsLinear(BitStep(x), BitStep(y), n - 1);
    }
  }

  lemma {:induction false} BitStepsAdd(x: bv64, m: nat, n: nat)
    ensures BitSteps(x, m + n) == BitSteps(BitSteps(x, m), n)
    decreases m
  {
    hide BitStep;
    if m > 0 {
      BitStepsAdd(BitStep(x), m - 1, n);
    }
  }

  lemma EvenStep(h: bv64, n: nat)
    requires n > 0 && !Odd(h)
    ensures BitSteps(h, n) == BitSteps(Down(h), n - 1)
  {
    hide Xor, BitStep, Down, Odd;
    BitStepIs(h);
    XorZero(Down(h));
  }

  /** Zero bits just leave the register. */
  lemma ZeroBitsLeave(h: bv64)
    requires LowPart(h) == 0
    ensures ZeroByte(h) == DownByte(h)
  {
    hide BitSteps, Down, Odd, LowPart, DownByte;
    EightEven(h);
    EightDowns(h);
    EvenStep(h, 8); EvenStep(h >> 1, 7); EvenStep(h >> 2, 6); EvenStep(h >> 3, 5);
    EvenStep(h >> 4, 4); EvenStep(h >> 5, 3); EvenStep(h >> 6, 2); EvenStep(h >> 7, 1);
    NoSteps(DownByte(h));
  }

  lemma NoSteps(h: bv64)
    ensures BitSteps(h, 0) == h
  {}

  /** One byte step through table 0: the low byte is looked up, the others move down. */
  lemma ZeroByteSplit(c: bv64)
    ensures ZeroByte(c) == Xor(ZeroByte(LowPart(c)), DownByte(c))
  {
    hide Xor, BitSteps, LowPart, HighPart, DownByte;
    LowHigh(c);
    BitStepsLinear(LowPart(c), HighPart(c), 8);
    ZeroBitsLeave(HighPart(c));
  }

  // ----- table 0: the bit loop over the unreflected polynomial, reversed

  const POLY: bv64 := 0xad93d23594c935a9

  /** The bits of x in reverse order. */
  function Reverse(x: bv64): bv64 {
    var a := ((x >> 1) & 0x5555555555555555) | ((x & 0x5555555555555555) << 1);
    var b := ((a >> 2) & 0x3333333333333333) | ((a & 0x3333333333333333) << 2);
    var c := ((b >> 4) & 0x0f0f0f0f0f0f0f0f) | ((b & 0x0f0f0f0f0f0f0f0f) << 4);
    var d := ((c >> 8) & 0x00ff00ff00ff00ff) | ((c & 0x00ff00ff00ff00ff) << 8);
    var e := ((d >> 16) & 0x0000ffff0000ffff) | ((d & 0x0000ffff0000ffff) << 16);
    (e >> 32) | (e << 32)
  }

  predicate TopBit(crc: bv64) { crc & 0x8000000000000000 != 0 }

  function Up(crc: bv64): bv64 { crc << 1 }

  /** The unreflected bit step of the table loop. */
  function TableStep(crc: bv64, k: bool): bv64 {
    if k then Xor(Up(crc), POLY) else Up(crc)
  }

  lemma ReverseUp(x: bv64)
    ensures Reverse(Up(x)) == Down(Reverse(x))
  {
    assert Reverse(x << 1) == Reverse(x) >> 1;
    hide Reverse;
  }

  lemma ReversePolyBits(x: bv64)
    ensures Reverse(x ^ 0xad93d23594c935a9) == Reverse(x) ^ 0x95ac9329ac4bc9b5
  {}

  lemma ReversePoly(x: bv64)
    ensures Reverse(Xor(x, POLY)) == Xor(Reverse(x), Feedback(true))
  {
    hide Reverse;
    ReversePolyBits(x);
  }

  lemma ReverseTop(x: bv64)
    ensures TopBit(x) == Odd(Reverse(x))
  {}

  lemma NoFeedback()
    ensures Feedback(false) == 0
  {}

  lemma ReverseStep(crc: bv64, k: bool)
    ensures Reverse(TableStep(crc, k)) == Xor(Down(Reverse(crc)), Feedback(k))
    ensures TopBit(crc) == Odd(Reverse(crc))
  {
    hide Reverse, Up, Down, Odd, TopBit, Xor, Feedback;
    ReverseTop(crc);
    ReverseUp(crc);
    ReversePoly(Up(crc));
    XorZero(Down(Reverse(crc)));
    NoFeedback();
  }

  /** The bits of n from number t on. */
  function BitsFrom(n: bv8, t: bv8): bv64
    requires t <= 8
  {
    (n >> t) as bv64
  }

  lemma NextBit(n: bv8, t: bv8)
    requires t < 8
    ensures Odd(BitsFrom(n, t)) == (n & ((1 as bv8) << t) != 0)
    ensures Down(BitsFrom(n, t)) == BitsFrom(n, t + 1)
  {}

  /** One pass of the table loop is one reflected bit step, with the bits of n still to come xored
      onto the register. */
  lemma TableBit(crc: bv64, n: bv8, t: bv8)
    requires t < 8
    ensures var k := TopBit(crc) != (n & ((1 as bv8) << t) != 0);
      BitStep(Xor(Reverse(crc), BitsFrom(n, t))) == Xor(Reverse(TableStep(crc, k)), BitsFrom(n, t + 1))
  {
    var bit := n & ((1 as bv8) << t) != 0;
    NextBit(n, t);
    hide *;
    var r, m, k := Reverse(crc), BitsFrom(n, t), TopBit(crc) != bit;
    ReverseStep(crc, k);
    BitStepIs(Xor(r, m));
    DownXor(r, m);
    OddXor(r, m);
    XorMiddle(Down(r), Down(m), Feedback(k));
  }

  // ----- the bit-reversal loop

  /** The register val takes in the low bit of crc. */
  function PushBit(val: bv64, crc: bv64): bv64 { (val << 1) | (crc & 1) }

  /** val takes in the n lowest bits of c, lowest first. */
  function PushBits(val: bv64, c: bv64, n: nat): bv64
    decreases n
  {
    if n == 0 then val else PushBits(PushBit(val, c), Down(c), n - 1)
  }

  function DownN(c: bv64, n: nat): bv64
    decreases n
  {
    if n == 0 then c else DownN(Down(c), n - 1)
  }

  lemma {:induction false} PushSplit(v: bv64, c: bv64, m: nat, n: nat)
    ensures PushBits(v, c, m + n) == PushBits(PushBits(v, c, m), DownN(c, m), n)
    ensures DownN(c, m + n) == DownN(DownN(c, m), n)
    decreases m
  {
    hide PushBit, Down;
    if m > 0 {
      PushSplit(PushBit(v, c), Down(c), m - 1, n);
    }
  }

  /** v moved up by n bits, with the n highest bits of r below; and c moved down by n bits. */
  function Joined(v: bv64, r: bv64, n: nat): bv64 {
    if n == 1 then (v << 1) | (r >> 63)
    else if n == 2 then (v << 2) | (r >> 62)
    else if n == 4 then (v << 4) | (r >> 60)
    else if n == 8 then (v << 8) | (r >> 56)
    else if n == 16 then (v << 16) | (r >> 48)
    else if n == 32 then (v << 32) | (r >> 32)
    else r
  }

  function DownBy(c: bv64, n: nat): bv64 {
    if n == 1 then c >> 1
    else if n == 2 then c >> 2
    else if n == 4 then c >> 4
    else if n == 8 then c >> 8
    else if n == 16 then c >> 16
    else if n == 32 then c >> 32
    else 0
  }

  function UpBy(c: bv64, n: nat): bv64 {
    if n == 1 then c << 1
    else if n == 2 then c << 2
    else if n == 4 then c << 4
    else if n == 8 then c << 8
    else if n == 16 then c << 16
    else if n == 32 then c << 32
    else 0
  }

  lemma ReverseDown(c: bv64, n: nat)
    requires n in {1, 2, 4, 8, 16, 32}
    ensures Reverse(DownBy(c, n)) == UpBy(Reverse(c), n)
  {
    if n == 1 { assert Reverse(c >> 1) == Reverse(c) << 1; }
    else if n == 2 { assert Reverse(c >> 2) == Reverse(c) << 2; }
    else if n == 4 { assert Reverse(c >> 4) == Reverse(c) << 4; }
    else if n == 8 { assert Reverse(c >> 8) == Reverse(c) << 8; }
    else if n == 16 { assert Reverse(c >> 16) == Reverse(c) << 16; }
    else { assert Reverse(c >> 32) == Reverse(c) << 32; }
    hide Reverse;
  }

  lemma DownTwiceBits(c: bv64)
    ensures (c >> 1) >> 1 == c >> 2
    ensures (c >> 2) >> 2 == c >> 4
    ensures (c >> 4) >> 4 == c >> 8
    ensures (c >> 8) >> 8 == c >> 16
    ensures (c >> 16) >> 16 == c >> 32
    ensures (c >> 32) >> 32 == 0
  {}

  lemma JoinTwiceBits(v: bv64, r: bv64)
    ensures (((v << 1) | (r >> 63)) << 1) | ((r << 1) >> 63) == (v << 2) | (r >> 62)
    ensures (((v << 2) | (r >> 62)) << 2) | ((r << 2) >> 62) == (v << 4) | (r >> 60)
    ensures (((v << 4) | (r >> 60)) << 4) | ((r << 4) >> 60) == (v << 8) | (r >> 56)
    ensures (((v << 8) | (r >> 56)) << 8) | ((r << 8) >> 56) == (v << 16) | (r >> 48)
    ensures (((v << 16) | (r >> 48)) << 16) | ((r << 16) >> 48) == (v << 32) | (r >> 32)
    ensures (((v << 32) | (r >> 32)) << 32) | ((r << 32) >> 32) == r
  {}

  lemma Twice1(v: bv64, r: bv64, c: bv64)
    ensures DownBy(DownBy(c, 1), 1) == DownBy(c, 2)
    ensures Joined(Joined(v, r, 1), UpBy(r, 1), 1) == Joined(v, r, 2)
  {
    DownTwiceBits(c);
    JoinTwiceBits(v, r);
  }

  lemma Twice2(v: bv64, r: bv64, c: bv64)
    ensures DownBy(DownBy(c, 2), 2) == DownBy(c, 4)
    ensures Joined(Joined(v, r, 2), UpBy(r, 2), 2) == Joined(v, r, 4)
  {
    DownTwiceBits(c);
    JoinTwiceBits(v, r);
  }

  lemma Twice4(v: bv64, r: bv64, c: bv64)
    ensures DownBy(DownBy(c, 4), 4) == DownBy(c, 8)
    ensures Joined(Joined(v, r, 4), UpBy(r, 4), 4) == Joined(v, r, 8)
  {
    DownTwiceBits(c);
    JoinTwiceBits(v, r);
  }

  lemma Twice8(v: bv64, r: bv64, c: bv64)
    ensures DownBy(DownBy(c, 8), 8) == DownBy(c, 16)
    ensures Joined(Joined(v, r, 8), UpBy(r, 8), 8) == Joined(v, r, 16)
  {
    DownTwiceBits(c);
    JoinTwiceBits(v, r);
  }

  lemma Twice16(v: bv64, r: bv64, c: bv64)
    ensures DownBy(DownBy(c, 16), 16) == DownBy(c, 32)
    ensures Joined(Joined(v, r, 16), UpBy(r, 16), 16) == Joined(v, r, 32)
  {
    DownTwiceBits(c);
    JoinTwiceBits(v, r);
  }

  lemma Twice32(v: bv64, r: bv64, c: bv64)
    ensures DownBy(DownBy(c, 32), 32) == DownBy(c, 64)
    ensures Joined(Joined(v, r, 32), UpBy(r, 32), 32) == Joined(v, r, 64)
  {
    DownTwiceBits(c);
    JoinTwiceBits(v, r);
  }

  lemma Twice(v: bv64, r: bv64, c: bv64, n: nat)
    requires n in {1, 2, 4, 8, 16, 32}
    ensures DownBy(DownBy(c, n), n) == DownBy(c, 2 * n)
    ensures Joined(Joined(v, r, n), UpBy(r, n), n) == Joined(v, r, 2 * n)
  {
    hide *;
    if n == 1 { Twice1(v, r, c); }
    else if n == 2 { Twice2(v, r, c); }
    else if n == 4 { Twice4(v, r, c); }
    else if n == 8 { Twice8(v, r, c); }
    else if n == 16 { Twice16(v, r, c); }
    else { Twice32(v, r, c); }
  }

  lemma JoinOne(v: bv64, c: bv64)
    ensures Joined(v, Reverse(c), 1) == PushBit(v, c) && DownBy(c, 1) == Down(c)
  {
    assert Reverse(c) >> 63 == c & 1;
    hide Reverse;
  }

  /** Taking in n bits joins them, reversed. */
  lemma {:induction false} PushJoins(v: bv64, c: bv64, n: nat)
    requires n in {1, 2, 4, 8, 16, 32, 64}
    ensures PushBits(v, c, n) == Joined(v, Reverse(c), n) && DownN(c, n) == DownBy(c, n)
    decreases n
  {
    hide Joined, DownBy, UpBy, PushBit, Down, Reverse;
    if n == 1 {
      JoinOne(v, c);
      assert PushBits(v, c, 1) == PushBits(PushBit(v, c), Down(c), 0);
      assert DownN(c, 1) == DownN(Down(c), 0);
    } else {
      var m := n / 2;
      PushSplit(v, c, m, m);
      PushJoins(v, c, m);
      PushJoins(Joined(v, Reverse(c), m), DownBy(c, m), m);
      ReverseDown(c, m);
      Twice(v, Reverse(c), c, m);
    }
  }

  /** Taking in all 64 bits reverses them. */
  lemma PushAll(x: bv64)
    ensures PushBits(0, x, 64) == Reverse(x)
  {
    hide PushBits, Reverse;
    PushJoins(0, x, 64);
  }

  lemma ReverseZero()
    ensures Reverse(0) == 0
  {}

  // ----- the tables

  /** Entry n of table k: the register after the byte n and k zero bytes. */
  function Entry(k: nat, n: Byte): bv64 {
    BitSteps(Word(n), 8 * k + 8)
  }

  lemma EntryStep(k: nat, n: Byte)
    ensures Entry(k + 1, n) == Xor(Entry(0, Low(Entry(k, n))), DownByte(Entry(k, n)))
  {
    hide Word, BitStep, Low, LowPart, DownByte, Xor;
    var c := Entry(k, n);
    BitStepsAdd(Word(n), 8 * k + 8, 8);
    ZeroByteSplit(c);
    LowWord(c);
  }

  lemma ByteHasNoHighPart(crc: bv64, b: Byte)
    ensures DownByte(Xor(crc, Word(b))) == DownByte(crc)
  {}

  /** A table lookup and a shift, as in the byte loops. */
  lemma LookupStep(crc: bv64, b: Byte)
    ensures ByteStep(crc, b) == Xor(Entry(0, Low(Xor(crc, Word(b)))), DownByte(crc))
  {
    ByteHasNoHighPart(crc, b);
    hide Word, BitSteps, BitStep, Low, LowPart, DownByte, Xor;
    ZeroByteSplit(Xor(crc, Word(b)));
    LowWord(Xor(crc, Word(b)));
  }

  // ----- eight bytes at once

  /** The low byte of x and the rest of it contribute separately to m more byte steps. */
  lemma PeelByte(x: bv64, m: nat)
    ensures BitSteps(x, 8 * m + 8) == Xor(Entry(m, Low(x)), BitSteps(DownByte(x), 8 * m))
  {
    hide Word, BitStep, Low, LowPart, DownByte, Xor, ZeroByte;
    assert 8 + 8 * m == 8 * m + 8;
    BitStepsAdd(x, 8, 8 * m);
    ZeroByteSplit(x);
    ZeroByteIs(x);
    ZeroByteIs(LowPart(x));
    BitStepsLinear(ZeroByte(LowPart(x)), DownByte(x), 8 * m);
    BitStepsAdd(LowPart(x), 8, 8 * m);
    LowWord(x);
  }

  lemma ZeroByteIs(x: bv64)
    ensures ZeroByte(x) == BitSteps(x, 8)
  {}

  /** The eight lookups of the middle loop. */
  function Slices(x: bv64): bv64 {
    Xor(Xor(Xor(Xor(Xor(Xor(Xor(
      Entry(7, Low(x)), Entry(6, Low(x >> 8))), Entry(5, Low(x >> 16))), Entry(4, Low(x >> 24))),
      Entry(3, Low(x >> 32))), Entry(2, Low(x >> 40))), Entry(1, Low(x >> 48))), Entry(0, Low(x >> 56)))
  }

  lemma ByteShifts(x: bv64)
    ensures DownByte(x) == x >> 8 && DownByte(x >> 8) == x >> 16 && DownByte(x >> 16) == x >> 24
    ensures DownByte(x >> 24) == x >> 32 && DownByte(x >> 32) == x >> 40 && DownByte(x >> 40) == x >> 48
    ensures DownByte(x >> 48) == x >> 56 && DownByte(x >> 56) == 0
  {}

  lemma SlicesAre64Steps(x: bv64)
    ensures Slices(x) == BitSteps(x, 64)
  {
    hide Entry, BitSteps, Low, DownByte, Xor;
    ByteShifts(x);
    PeelByte(x, 7); PeelByte(x >> 8, 6); PeelByte(x >> 16, 5); PeelByte(x >> 24, 4);
    PeelByte(x >> 32, 3); PeelByte(x >> 40, 2); PeelByte(x >> 48, 1); PeelByte(x >> 56, 0);
    NoSteps(0);
    var e7, e6, e5, e4 := Entry(7, Low(x)), Entry(6, Low(x >> 8)), Entry(5, Low(x >> 16)), Entry(4, Low(x >> 24));
    var e3, e2, e1, e0 := Entry(3, Low(x >> 32)), Entry(2, Low(x >> 40)), Entry(1, Low(x >> 48)), Entry(0, Low(x >> 56));
    XorZero(e0);
    var r2 := Xor(e1, e0); var r3 := Xor(e2, r2); var r4 := Xor(e3, r3);
    var r5 := Xor(e4, r4); var r6 := Xor(e5, r5);
    XorAssoc(e7, e6, r6);
    XorAssoc(Xor(e7, e6), e5, r5);
    XorAssoc(Xor(Xor(e7, e6), e5), e4, r4);
    XorAssoc(Xor(Xor(Xor(e7, e6), e5), e4), e3, r3);
    XorAssoc(Xor(Xor(Xor(Xor(e7, e6), e5), e4), e3), e2, r2);
    XorAssoc(Xor(Xor(Xor(Xor(Xor(e7, e6), e5), e4), e3), e2), e1, e0);
  }

  /** The word of up to eight bytes, first byte lowest: what the aligned 64-bit load reads. */
  function LoadWord(s: seq<Byte>): bv64 {
    if s == [] then 0 else Xor(Word(s[0]), UpByte(LoadWord(s[1..])))
  }

  function UpByte(c: bv64): bv64 { c << 8 }

  /** All bytes of c from number n on are zero. */
  predicate Fits(c: bv64, n: nat) {
    if n == 0 then c == 0 else Fits(DownByte(c), n - 1)
  }

  lemma PushByte(b: Byte, c: bv64)
    requires c & 0xff00000000000000 == 0
    ensures DownByte(Xor(Word(b), UpByte(c))) == c
    ensures LowPart(UpByte(c)) == 0 && DownByte(UpByte(c)) == c
  {}

  lemma SevenBytes(c: bv64)
    requires DownByte(DownByte(DownByte(DownByte(DownByte(DownByte(DownByte(c))))))) == 0
    ensures c & 0xff00000000000000 == 0
  {}

  lemma {:induction false} ZeroFits(n: nat)
    ensures Fits(0, n)
  {
    if n > 0 {
      ZeroFits(n - 1);
    }
  }

  lemma FitsSeven(c: bv64)
    requires Fits(c, 7)
    ensures c & 0xff00000000000000 == 0
  {
    hide DownByte;
    var c1 := DownByte(c); var c2 := DownByte(c1); var c3 := DownByte(c2); var c4 := DownByte(c3);
    var c5 := DownByte(c4); var c6 := DownByte(c5); var c7 := DownByte(c6);
    assert Fits(c1, 6); assert Fits(c2, 5); assert Fits(c3, 4); assert Fits(c4, 3);
    assert Fits(c5, 2); assert Fits(c6, 1); assert Fits(c7, 0);
    SevenBytes(c);
  }

  lemma {:induction false} FitsMore(c: bv64, n: nat, m: nat)
    requires Fits(c, n) && n <= m
    ensures Fits(c, m)
    decreases n
  {
    hide DownByte;
    if n == 0 {
      ZeroFits(m);
    } else {
      FitsMore(DownByte(c), n - 1, m - 1);
    }
  }

  lemma {:induction false} LoadWordFits(s: seq<Byte>)
    requires |s| <= 7
    ensures Fits(LoadWord(s), |s|)
  {
    hide Xor, UpByte, Word, DownByte;
    if s != [] {
      LoadWordFits(s[1..]);
      FitsMore(LoadWord(s[1..]), |s| - 1, 7);
      FitsSeven(LoadWord(s[1..]));
      PushByte(s[0], LoadWord(s[1..]));
    }
  }

  /** Feeding up to eight bytes one by one is xoring them in at once and then stepping. */
  lemma {:induction false} BytesAtOnce(crc: bv64, s: seq<Byte>)
    requires |s| <= 8
    ensures Crc(crc, s) == BitSteps(Xor(crc, LoadWord(s)), 8 * |s|)
    decreases s
  {
    hide Xor, UpByte, Word, DownByte, BitStep, ZeroByte, Fits, LowPart;
    if s == [] {
      XorZero(crc);
      NoSteps(crc);
    } else {
      var rest, w := s[1..], LoadWord(s[1..]);
      LoadWordFits(rest);
      FitsMore(w, |rest|, 7);
      FitsSeven(w);
      PushByte(s[0], w);
      var first := Xor(crc, Word(s[0]));
      XorAssoc(crc, Word(s[0]), UpByte(w));
      ZeroByteIs(first);
      BytesAtOnce(ByteStep(crc, s[0]), rest);
      BitStepsLinear(first, UpByte(w), 8);
      ZeroByteIs(UpByte(w));
      ZeroBitsLeave(UpByte(w));
      assert 8 + 8 * |rest| == 8 * |s|;
      BitStepsAdd(Xor(first, UpByte(w)), 8, 8 * |rest|);
    }
  }

  /** One pass of the middle loop is eight passes of the byte loop. */
  lemma SliceByEight(crc: bv64, s: seq<Byte>)
    requires |s| == 8
    ensures Slices(Xor(crc, LoadWord(s))) == Crc(crc, s)
  {
    hide Slices, Xor, LoadWord, Crc, BitSteps;
    BytesAtOnce(crc, s);
    SlicesAre64Steps(Xor(crc, LoadWord(s)));
  }
}
