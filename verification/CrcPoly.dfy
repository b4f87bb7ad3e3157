/** What the checksum is, without its registers and shifts: the remainder of a division of polynomials over
    GF(2), with the generator written out (src/rdb_decode.cpp:1283-1299, 1308-1331), and its value on the
    string of the source's own test program (src/rdb_decode.cpp:1388-1396). */
module CrcPoly {
  import opened Bytes
  import opened Crc64

  // ----- polynomials over GF(2), as the sets of their exponents

  type Poly = set<nat>

  /** x^64 and the one bits of 0xad93d23594c935a9. */
  const GENERATOR: Poly := {
    64, 63, 61, 59, 58, 56, 55, 52, 49, 48, 47, 46, 44, 41, 37, 36, 34,
    32, 31, 28, 26, 23, 22, 19, 16, 13, 12, 10, 8, 7, 5, 3, 0}

  function Plus(p: Poly, q: Poly): Poly { (p - q) + (q - p) }

  /** p times x^k. */
  function Times(p: Poly, k: nat): Poly { set e | e in p :: e + k }

  /** The generator times the sum of x^k for all k of ks. */
  function Multiple(ks: seq<nat>): Poly {
    if ks == [] then {} else Plus(Times(GENERATOR, ks[0]), Multiple(ks[1..]))
  }

  /** p and q differ by a multiple of the generator. */
  ghost predicate Congruent(p: Poly, q: Poly) {
    exists ks: seq<nat> :: p == Plus(q, Multiple(ks))
  }

  /** Bit number k of a byte. */
  predicate ByteBit(b: Byte, k: nat) {
    if k == 0 then b % 2 == 1 else ByteBit(b / 2, k - 1)
  }

  /** A byte, its lowest bit being the highest coefficient. */
  function BytePoly(b: Byte): Poly {
    set k: nat | k < 8 && ByteBit(b, k) :: 7 - k
  }

  /** A message, its first byte being the highest. */
  function Message(s: seq<Byte>): Poly {
    if s == [] then {} else Plus(Times(BytePoly(s[0]), 8 * |s[1..]|), Message(s[1..]))
  }

  predicate Bit(c: bv64, k: nat) {
    if k == 0 then Odd(c) else Bit(Down(c), k - 1)
  }

  /** A register, again with its lowest bit as the highest coefficient. */
  function Register(c: bv64): Poly {
    set k: nat | k < 64 && Bit(c, k) :: 63 - k
  }

  // ----- sums and products

  lemma PlusAssoc(p: Poly, q: Poly, r: Poly)
    ensures Plus(Plus(p, q), r) == Plus(p, Plus(q, r))
    ensures Plus(p, q) == Plus(q, p) && Plus(p, {}) == p && Plus({}, p) == p
  {}

  lemma TimesPlus(p: Poly, q: Poly, k: nat)
    ensures Times(Plus(p, q), k) == Plus(Times(p, k), Times(q, k))
  {
    forall e {:trigger e in Times(p, k)} | e in Plus(Times(p, k), Times(q, k)) ensures e in Times(Plus(p, q), k) {
      assert e - k in Plus(p, q);
    }
  }

  lemma TimesTimes(p: Poly, j: nat, k: nat)
    ensures Times(Times(p, j), k) == Times(p, j + k)
    ensures Times(p, 0) == p && Times({}, k) == {}
  {
    forall e | e in p ensures e + j + k in Times(Times(p, j), k) {
      assert e + j in Times(p, j);
    }
  }

  function AllPlus(ks: seq<nat>, k: nat): (r: seq<nat>)
    ensures |r| == |ks| && forall i | 0 <= i < |ks| :: r[i] == ks[i] + k
  {
    seq(|ks|, i requires 0 <= i < |ks| => ks[i] + k)
  }

  lemma {:induction false} MultipleTimes(ks: seq<nat>, k: nat)
    ensures Multiple(AllPlus(ks, k)) == Times(Multiple(ks), k)
    decreases ks
  {
    hide Plus, Times;
    if ks == [] {
      TimesTimes({}, 0, k);
    } else {
      assert AllPlus(ks, k)[1..] == AllPlus(ks[1..], k);
      MultipleTimes(ks[1..], k);
      TimesTimes(GENERATOR, ks[0], k);
      TimesPlus(Times(GENERATOR, ks[0]), Multiple(ks[1..]), k);
    }
  }

  lemma {:induction false} MultipleConcat(js: seq<nat>, ks: seq<nat>)
    ensures Multiple(js + ks) == Plus(Multiple(js), Multiple(ks))
    decreases js
  {
    hide Plus, Times;
    if js == [] {
      assert js + ks == ks;
      PlusAssoc(Multiple(ks), {}, {});
    } else {
      assert (js + ks)[1..] == js[1..] + ks;
      MultipleConcat(js[1..], ks);
      PlusAssoc(Times(GENERATOR, js[0]), Multiple(js[1..]), Multiple(ks));
    }
  }

  lemma CongruentSelf(p: Poly)
    ensures Congruent(p, p)
  {
    hide Plus;
    PlusAssoc(p, {}, {});
    assert p == Plus(p, Multiple([]));
  }

  lemma CongruentTrans(p: Poly, q: Poly, r: Poly)
    requires Congruent(p, q) && Congruent(q, r)
    ensures Congruent(p, r)
  {
    hide Plus, Multiple;
    var js: seq<nat> :| p == Plus(q, Multiple(js));
    var ks: seq<nat> :| q == Plus(r, Multiple(ks));
    PlusAssoc(r, Multiple(ks), Multiple(js));
    MultipleConcat(ks, js);
    assert p == Plus(r, Multiple(ks + js));
  }

  lemma CongruentTimes(p: Poly, q: Poly, k: nat)
    requires Congruent(p, q)
    ensures Congruent(Times(p, k), Times(q, k))
  {
    hide Plus, Times, Multiple;
    var ks: seq<nat> :| p == Plus(q, Multiple(ks));
    TimesPlus(q, Multiple(ks), k);
    MultipleTimes(ks, k);
    assert Times(p, k) == Plus(Times(q, k), Multiple(AllPlus(ks, k)));
  }

  lemma CongruentPlus(p: Poly, q: Poly, r: Poly)
    requires Congruent(p, q)
    ensures Congruent(Plus(r, p), Plus(r, q))
  {
    hide Plus, Times, Multiple;
    var ks: seq<nat> :| p == Plus(q, Multiple(ks));
    PlusAssoc(r, q, Multiple(ks));
    assert Plus(r, p) == Plus(Plus(r, q), Multiple(ks));
  }

  // ----- registers

  lemma {:induction false} BitXor(a: bv64, b: bv64, k: nat)
    ensures Bit(Xor(a, b), k) == (Bit(a, k) != Bit(b, k))
    decreases k
  {
    hide Xor, Down, Odd;
    OddXor(a, b);
    if k > 0 {
      DownXor(a, b);
      BitXor(Down(a), Down(b), k - 1);
    }
  }

  lemma RegisterXor(a: bv64, b: bv64)
    ensures Register(Xor(a, b)) == Plus(Register(a), Register(b))
  {
    hide Xor, Bit;
    forall k: nat ensures Bit(Xor(a, b), k) == (Bit(a, k) != Bit(b, k)) {
      BitXor(a, b, k);
    }
  }

  lemma {:induction false} ZeroBits(k: nat)
    ensures !Bit(0, k)
  {
    if k > 0 {
      ZeroBits(k - 1);
    }
  }

  lemma {:induction false} BitAt(c: bv64, k: nat)
    ensures Bit(c, k) == Odd(DownN(c, k))
    decreases k
  {
    hide Down, Odd;
    if k > 0 {
      BitAt(Down(c), k - 1);
    }
  }

  lemma DownNext(c: bv64, k: nat)
    ensures DownN(c, 0) == c && DownN(c, k + 1) == Down(DownN(c, k))
  {
    hide Down;
    PushSplit(0, c, k, 1);
    assert DownN(DownN(c, k), 1) == DownN(Down(DownN(c, k)), 0);
  }

  /** Bits eight at a time. */
  lemma EightBits(c: bv64)
    ensures DownN(c, 0) == c && DownN(c, 1) == c >> 1 && DownN(c, 2) == c >> 2 && DownN(c, 3) == c >> 3
    ensures DownN(c, 4) == c >> 4 && DownN(c, 5) == c >> 5 && DownN(c, 6) == c >> 6 && DownN(c, 7) == c >> 7
    ensures DownN(c, 8) == DownByte(c)
  {
    hide Down, DownByte, DownN;
    EightDowns(c);
    DownNext(c, 0); DownNext(c, 1); DownNext(c, 2); DownNext(c, 3);
    DownNext(c, 4); DownNext(c, 5); DownNext(c, 6); DownNext(c, 7);
  }

  lemma BitsOfByte(c: bv64, k: nat)
    ensures k < 8 ==> Bit(c, k) == (if k == 0 then Odd(c) else if k == 1 then Odd(c >> 1) else if k == 2 then Odd(c >> 2)
              else if k == 3 then Odd(c >> 3) else if k == 4 then Odd(c >> 4) else if k == 5 then Odd(c >> 5)
              else if k == 6 then Odd(c >> 6) else Odd(c >> 7))
    ensures k >= 8 ==> Bit(c, k) == Bit(DownByte(c), k - 8)
  {
    hide Odd, DownByte, DownN, Bit;
    EightBits(c);
    BitAt(c, k);
    if k >= 8 {
      PushSplit(0, c, 8, k - 8);
      BitAt(DownByte(c), k - 8);
    }
  }

  /** What leaves the register is x^64, and what comes in is the rest of the generator. */
  lemma FeedbackBits(k: nat)
    requires k < 64
    ensures Bit(0x95ac9329ac4bc9b5, k) <==> 63 - k in GENERATOR
  {
    hide Bit;
    BitsOfByte(0x95ac9329ac4bc9b5, k);
    if k >= 8 { BitsOfByte(0x95ac9329ac4bc9, k - 8); }
    if k >= 16 { BitsOfByte(0x95ac9329ac4b, k - 16); }
    if k >= 24 { BitsOfByte(0x95ac9329ac, k - 24); }
    if k >= 32 { BitsOfByte(0x95ac9329, k - 32); }
    if k >= 40 { BitsOfByte(0x95ac93, k - 40); }
    if k >= 48 { BitsOfByte(0x95ac, k - 48); }
    if k >= 56 { BitsOfByte(0x95, k - 56); }
  }

  lemma FeedbackPoly(odd: bool)
    ensures Register(Feedback(odd)) == if odd then GENERATOR - {64} else {}
  {
    hide Bit;
    forall k: nat | k < 64 ensures Bit(0x95ac9329ac4bc9b5, k) <==> 63 - k in GENERATOR && !Bit(0, k) {
      FeedbackBits(k);
      ZeroBits(k);
    }
    forall k: nat ensures !Bit(0, k) {
      ZeroBits(k);
    }
    forall e | e in GENERATOR && e != 64 ensures e in Register(0x95ac9329ac4bc9b5) {
      assert Bit(0x95ac9329ac4bc9b5, 63 - e);
    }
  }

  lemma NoBitsAbove(c: bv64)
    ensures !Bit(c, 64)
  {
    hide *;
    BitAt(c, 64);
    PushJoins(0, c, 64);
    DownByAll(c);
  }

  lemma DownByAll(c: bv64)
    ensures !Odd(DownBy(c, 64))
  {}

  lemma DownPoly(c: bv64)
    ensures Times(Register(c), 1) == Register(Down(c)) + (if Odd(c) then {64} else {})
  {
    hide Down, Odd;
    NoBitsAbove(c);
    var d := Down(c);
    forall k: nat ensures Bit(c, 0) == Odd(c) && Bit(c, k + 1) == Bit(d, k) {
      assert Bit(c, k + 1) == Bit(Down(c), k);
    }
    hide Bit;
    forall e | e in Times(Register(c), 1) ensures e in Register(d) + (if Odd(c) then {64} else {}) {
      var k := 64 - e;
      assert Bit(c, k);
      if k > 0 {
        assert Bit(d, k - 1);
      }
    }
    forall e | e in Register(d) ensures e in Times(Register(c), 1) {
      var k := 63 - e;
      assert Bit(c, k + 1);
      assert 63 - (k + 1) in Register(c);
    }
    if Odd(c) {
      assert 63 in Register(c);
    }
  }

  lemma OneMultiple()
    ensures Multiple([0]) == GENERATOR && Multiple([]) == {}
  {
    hide Plus, Times;
    assert [0][1..] == [];
    TimesTimes(GENERATOR, 0, 0);
    PlusAssoc(GENERATOR, {}, {});
  }

  lemma TopTerm(r: Poly, odd: bool)
    requires 64 !in r
    ensures var g := if odd then GENERATOR else {};
      r + (if odd then {64} else {}) == Plus(Plus(r, if odd then GENERATOR - {64} else {}), g)
  {
    assert 64 in GENERATOR;
  }

  lemma RegisterDegree(c: bv64)
    ensures forall e | e in Register(c) :: e < 64
  {
    hide Bit;
  }

  /** x times the register is, but for a multiple of the generator, the register after a step. */
  lemma BitStepPoly(c: bv64)
    ensures Congruent(Times(Register(c), 1), Register(BitStep(c)))
  {
    hide *;
    BitStepIs(c);
    RegisterXor(Down(c), Feedback(Odd(c)));
    FeedbackPoly(Odd(c));
    DownPoly(c);
    OneMultiple();
    RegisterDegree(Down(c));
    TopTerm(Register(Down(c)), Odd(c));
    CongruentBy(Times(Register(c), 1), Register(BitStep(c)), if Odd(c) then [0] else []);
  }

  lemma CongruentBy(p: Poly, q: Poly, ks: seq<nat>)
    requires p == Plus(q, Multiple(ks))
    ensures Congruent(p, q)
  {}

  lemma {:induction false} BitStepsPoly(c: bv64, n: nat)
    ensures Congruent(Times(Register(c), n), Register(BitSteps(c, n)))
    decreases n
  {
    hide Times, Register, BitStep, Congruent;
    TimesTimes(Register(c), 1, if n == 0 then 0 else n - 1);
    if n == 0 {
      CongruentSelf(Register(c));
    } else {
      BitStepPoly(c);
      CongruentTimes(Times(Register(c), 1), Register(BitStep(c)), n - 1);
      BitStepsPoly(BitStep(c), n - 1);
      CongruentTrans(Times(Register(c), n), Times(Register(BitStep(c)), n - 1), Register(BitSteps(c, n)));
    }
  }

  // ----- bytes

  lemma Halves(x: bv8)
    ensures (x >> 1) as int == x as int / 2 && (x & 1 == 1 <==> x as int % 2 == 1)
  {}

  lemma WordDown(x: bv8)
    ensures Down(x as bv64) == (x >> 1) as bv64 && (Odd(x as bv64) <==> x & 1 == 1)
  {}

  lemma {:induction false} WordBit(x: bv8, k: nat)
    ensures Bit(x as bv64, k) == ByteBit(x as int, k)
    decreases k
  {
    hide Down, Odd;
    Halves(x);
    WordDown(x);
    if k > 0 {
      WordBit(x >> 1, k - 1);
    }
  }

  lemma {:induction false} NoByteBits(b: Byte, k: nat)
    requires b == 0 || k >= 8 || (k == 7 && b < 128) || (k == 6 && b < 64) || (k == 5 && b < 32)
      || (k == 4 && b < 16) || (k == 3 && b < 8) || (k == 2 && b < 4) || (k == 1 && b < 2)
    ensures !ByteBit(b, k)
    decreases k
  {
    if k > 0 {
      NoByteBits(b / 2, k - 1);
    }
  }

  lemma WordPoly(b: Byte)
    ensures Register(Word(b)) == Times(BytePoly(b), 56)
  {
    forall k: nat ensures Bit(Word(b), k) == ByteBit(b, k) && (k >= 8 ==> !ByteBit(b, k)) {
      WordBit(b as bv8, k);
      if k >= 8 {
        NoByteBits(b, k);
      }
    }
    hide Bit, ByteBit, Word;
    forall e | e in Register(Word(b)) ensures e in Times(BytePoly(b), 56) {
      assert Bit(Word(b), 63 - e);
      assert 7 - (63 - e) in BytePoly(b);
    }
  }

  /** The message times x^64, below the old register. */
  function Dividend(crc: bv64, s: seq<Byte>): Poly {
    Plus(Times(Register(crc), 8 * |s|), Times(Message(s), 64))
  }

  lemma ByteStepPoly(crc: bv64, b: Byte)
    ensures Congruent(Plus(Times(Register(crc), 8), Times(BytePoly(b), 64)), Register(ByteStep(crc, b)))
  {
    hide *;
    var c := Xor(crc, Word(b));
    ByteStepIs(crc, b);
    BitStepsPoly(c, 8);
    RegisterXor(crc, Word(b));
    WordPoly(b);
    TimesPlus(Register(crc), Register(Word(b)), 8);
    TimesTimes(BytePoly(b), 56, 8);
  }

  lemma ByteStepIs(crc: bv64, b: Byte)
    ensures ByteStep(crc, b) == BitSteps(Xor(crc, Word(b)), 8)
  {
    hide Xor, Word, BitSteps;
  }

  lemma FirstByte(crc: bv64, s: seq<Byte>)
    requires s != []
    ensures Dividend(crc, s)
         == Plus(Times(Message(s[1..]), 64),
                 Times(Plus(Times(Register(crc), 8), Times(BytePoly(s[0]), 64)), 8 * |s[1..]|))
  {
    hide Register, BytePoly, Plus, Times;
    var r, b, m, n := Register(crc), BytePoly(s[0]), Message(s[1..]), 8 * |s[1..]|;
    TimesPlus(Times(r, 8), Times(b, 64), n);
    TimesTimes(r, 8, n);
    TimesTimes(b, 64, n);
    TimesTimes(b, n, 64);
    TimesPlus(Times(b, n), m, 64);
    var x, y, z := Times(r, 8 * |s|), Times(b, n + 64), Times(m, 64);
    assert 8 + n == 8 * |s|;
    PlusAssoc(x, y, z);
    PlusAssoc(Plus(x, y), z, {});
  }

  /** The checksum is the remainder. */
  lemma {:induction false} CrcCongruent(crc: bv64, s: seq<Byte>)
    ensures Congruent(Dividend(crc, s), Register(Crc(crc, s)))
    decreases s
  {
    hide Times, Plus, Register, ByteStep, Congruent, BytePoly;
    if s == [] {
      TimesTimes(Register(crc), 0, 0);
      TimesTimes({}, 0, 64);
      PlusAssoc(Register(crc), {}, {});
      CongruentSelf(Register(crc));
    } else {
      hide Dividend, Message;
      var next, rest := ByteStep(crc, s[0]), s[1..];
      var p := Plus(Times(Register(crc), 8), Times(BytePoly(s[0]), 64));
      FirstByte(crc, s);
      ByteStepPoly(crc, s[0]);
      CongruentTimes(p, Register(next), 8 * |rest|);
      CongruentPlus(Times(p, 8 * |rest|), Times(Register(next), 8 * |rest|), Times(Message(rest), 64));
      CrcCongruent(next, rest);
      DividendIs(next, rest);
      CongruentTrans(Dividend(crc, s), Dividend(next, rest), Register(Crc(crc, s)));
    }
  }

  lemma DividendIs(crc: bv64, s: seq<Byte>)
    ensures Dividend(crc, s) == Plus(Times(Message(s), 64), Times(Register(crc), 8 * |s|))
  {
    hide Times, Plus;
    PlusAssoc(Times(Message(s), 64), Times(Register(crc), 8 * |s|), {});
  }

  // ----- there is only one remainder

  /** The generator times the part of f below x^n. */
  function Product(f: Poly, n: nat): Poly {
    if n == 0 then {} else Plus(if n - 1 in f then Times(GENERATOR, n - 1) else {}, Product(f, n - 1))
  }

  /** The exponents that occur an odd number of times. */
  function Odds(ks: seq<nat>): Poly {
    if ks == [] then {} else Plus({ks[0]}, Odds(ks[1..]))
  }

  lemma {:induction false} ProductPlus(k: nat, f: Poly, n: nat)
    ensures Product(Plus({k}, f), n) == Plus(if k < n then Times(GENERATOR, k) else {}, Product(f, n))
    decreases n
  {
    hide Times;
    var g := Times(GENERATOR, k);
    if n == 0 {
    } else {
      ProductPlus(k, f, n - 1);
      assert n - 1 in Plus({k}, f) <==> ((n - 1 in f) != (k == n - 1));
    }
  }

  lemma {:induction false} ProductNone(n: nat)
    ensures Product({}, n) == {}
  {
    if n > 0 {
      ProductNone(n - 1);
    }
  }

  lemma {:induction false} MultipleIsProduct(ks: seq<nat>, n: nat)
    requires forall k | k in ks :: k < n
    ensures Multiple(ks) == Product(Odds(ks), n)
    decreases ks
  {
    hide Plus, Times, Product;
    if ks == [] {
      ProductNone(n);
    } else {
      assert forall k | k in ks[1..] :: k in ks;
      MultipleIsProduct(ks[1..], n);
      assert ks[0] in ks;
      ProductPlus(ks[0], Odds(ks[1..]), n);
    }
  }

  lemma TopOfGenerator(k: nat)
    ensures k + 64 in Times(GENERATOR, k)
    ensures forall e | e in Times(GENERATOR, k) :: e <= k + 64
  {
    assert 64 in GENERATOR;
  }

  /** A product of which nothing reaches x^64 is zero. */
  lemma {:induction false} ProductDegree(f: Poly, n: nat)
    ensures forall e | e in Product(f, n) :: e < n + 64
    ensures (forall e | e in Product(f, n) :: e < 64) ==> Product(f, n) == {}
    decreases n
  {
    hide Times;
    if n > 0 {
      TopOfGenerator(n - 1);
      ProductDegree(f, n - 1);
      if n - 1 in f {
        assert n - 1 + 64 in Product(f, n);
      }
    }
  }

  function Bound(ks: seq<nat>): (n: nat)
    ensures forall k | k in ks :: k < n
  {
    if ks == [] then 0
    else
      var m := Bound(ks[1..]);
      assert forall k | k in ks :: k == ks[0] || k in ks[1..];
      if ks[0] < m then m else ks[0] + 1
  }

  lemma OneRemainder(p: Poly, q: Poly, r: Poly)
    requires Congruent(p, q) && Congruent(p, r)
    requires (forall e | e in q :: e < 64) && (forall e | e in r :: e < 64)
    ensures q == r
  {
    hide Multiple, Product, Odds, Times;
    var js: seq<nat> :| p == Plus(q, Multiple(js));
    var ks: seq<nat> :| p == Plus(r, Multiple(ks));
    MultipleConcat(js, ks);
    assert Multiple(js + ks) == Plus(q, r);
    MultipleIsProduct(js + ks, Bound(js + ks));
    ProductDegree(Odds(js + ks), Bound(js + ks));
  }

  lemma ZeroWord(c: bv64)
    requires !Odd(c) && !Odd(c >> 1) && !Odd(c >> 2) && !Odd(c >> 3)
    requires !Odd(c >> 4) && !Odd(c >> 5) && !Odd(c >> 6) && !Odd(c >> 7) && DownByte(c) == 0
    ensures c == 0
  {}

  /** A register without one bits is zero, byte by byte. */
  lemma {:induction false} NoBits(c: bv64, n: nat)
    requires Fits(c, n) && forall k: nat | k < 8 * n :: !Bit(c, k)
    ensures c == 0
    decreases n
  {
    hide Bit, Odd, DownByte;
    if n > 0 {
      forall k: nat | k < 8 * n - 8 ensures !Bit(DownByte(c), k) {
        BitsOfByte(c, k + 8);
      }
      NoBits(DownByte(c), n - 1);
      BitsOfByte(c, 0); BitsOfByte(c, 1); BitsOfByte(c, 2); BitsOfByte(c, 3);
      BitsOfByte(c, 4); BitsOfByte(c, 5); BitsOfByte(c, 6); BitsOfByte(c, 7);
      ZeroWord(c);
    }
  }

  lemma FitsEight(c: bv64)
    ensures Fits(c, 8)
  {
    hide DownByte;
    ByteShifts(c);
    assert Fits(c >> 56, 1) by { assert Fits(DownByte(c >> 56), 0); }
    assert Fits(c >> 48, 2); assert Fits(c >> 40, 3); assert Fits(c >> 32, 4);
    assert Fits(c >> 24, 5); assert Fits(c >> 16, 6); assert Fits(c >> 8, 7);
  }

  lemma XorSelf(a: bv64, b: bv64)
    requires Xor(a, b) == 0
    ensures a == b
  {}

  lemma SameRegister(a: bv64, b: bv64)
    requires Register(a) == Register(b)
    ensures a == b
  {
    hide Xor, Bit, Fits;
    forall k: nat | k < 64 ensures !Bit(Xor(a, b), k) {
      BitXor(a, b, k);
      assert Bit(a, k) ==> 63 - k in Register(b);
      assert Bit(b, k) ==> 63 - k in Register(a);
    }
    FitsEight(Xor(a, b));
    NoBits(Xor(a, b), 8);
    XorSelf(a, b);
  }

  /** The checksum is the one register that is congruent to the message times x^64, modulo the generator. */
  lemma CrcExactly(crc: bv64, s: seq<Byte>, c: bv64)
    ensures c == Crc(crc, s) <==> Congruent(Dividend(crc, s), Register(c))
  {
    hide Congruent, Dividend, Crc, Register;
    CrcCongruent(crc, s);
    RegisterDegree(c);
    RegisterDegree(Crc(crc, s));
    if Congruent(Dividend(crc, s), Register(c)) {
      OneRemainder(Dividend(crc, s), Register(c), Register(Crc(crc, s)));
      SameRegister(c, Crc(crc, s));
    }
  }

  // ----- a known value

  lemma EightSteps(c: bv64)
    ensures BitSteps(c, 8) == BitStep(BitStep(BitStep(BitStep(BitStep(BitStep(BitStep(BitStep(c))))))))
  {
    hide BitStep;
    var c1 := BitStep(c); var c2 := BitStep(c1); var c3 := BitStep(c2); var c4 := BitStep(c3);
    var c5 := BitStep(c4); var c6 := BitStep(c5); var c7 := BitStep(c6);
    assert BitSteps(c7, 1) == BitSteps(BitStep(c7), 0);
    assert BitSteps(c5, 3) == BitSteps(c6, 2) == BitSteps(c7, 1);
    assert BitSteps(c3, 5) == BitSteps(c4, 4) == BitSteps(c5, 3);
    assert BitSteps(c1, 7) == BitSteps(c2, 6) == BitSteps(c3, 5);
  }

  /** One byte, given the register before each of its bits. */
  lemma EightAnswers(crc: bv64, b: Byte, c: seq<bv64>)
    requires |c| == 9 && Xor(crc, Word(b)) == c[0]
    requires BitStep(c[0]) == c[1] && BitStep(c[1]) == c[2] && BitStep(c[2]) == c[3] && BitStep(c[3]) == c[4]
    requires BitStep(c[4]) == c[5] && BitStep(c[5]) == c[6] && BitStep(c[6]) == c[7] && BitStep(c[7]) == c[8]
    ensures ByteStep(crc, b) == c[8]
  {
    hide BitStep, BitSteps, Xor, Word;
    EightSteps(c[0]);
    ByteStepIs(crc, b);
  }

  lemma Answer1()
    ensures ByteStep(0x0, 0x31) == 0xfdc17184a9f739fa
  {
    EightAnswers(0x0, 0x31, [
      0x31, 0x95ac9329ac4bc9ad, 0xdf7adabd7a6e2d63,
      0xfa11fe77117cdf04, 0x7d08ff3b88be6f82, 0x3e847f9dc45f37c1,
      0x8aeeace74e645255, 0xd0dbc55a0b79e09f, 0xfdc17184a9f739fa]);
  }

  lemma Answer2()
    ensures ByteStep(0xfdc17184a9f739fa, 0x32) == 0xe10364513a98ed96
  {
    EightAnswers(0xfdc17184a9f739fa, 0x32, [
      0xfdc17184a9f739c8, 0x7ee0b8c254fb9ce4, 0x3f705c612a7dce72,
      0x1fb82e30953ee739, 0x9a708431e6d4ba29, 0xd894d1315f2194a1,
      0xf9e6fbb103db03e5, 0xe95feef12da64847, 0xe10364513a98ed96]);
  }

  lemma Answer3()
    ensures ByteStep(0xe10364513a98ed96, 0x33) == 0xd5bcfb814479b1ac
  {
    EightAnswers(0xe10364513a98ed96, 0x33, [
      0xe10364513a98eda5, 0xe52d21013107bf67, 0xe73a03a934c81606,
      0x739d01d49a640b03, 0xac6213c3e179cc34, 0x563109e1f0bce61a,
      0x2b1884f0f85e730d, 0x8020d151d064f033, 0xd5bcfb814479b1ac]);
  }

  lemma Answer4()
    ensures ByteStep(0xd5bcfb814479b1ac, 0x34) == 0x43593c5dcda521f0
  {
    EightAnswers(0xd5bcfb814479b1ac, 0x34, [
      0xd5bcfb814479b198, 0x6ade7dc0a23cd8cc, 0x356f3ee0511e6c66,
      0x1ab79f70288f3633, 0x98f75c91b80c52ac, 0x4c7bae48dc062956,
      0x263dd7246e0314ab, 0x86b278bb9b4a43e0, 0x43593c5dcda521f0]);
  }

  lemma Answer5()
    ensures ByteStep(0x43593c5dcda521f0, 0x35) == 0xf0758513239c7e0d
  {
    EightAnswers(0x43593c5dcda521f0, 0x35, [
      0x43593c5dcda521c5, 0xb4000d074a995957, 0xcfac95aa0907651e,
      0x67d64ad50483b28f, 0xa647b6432e0a10f2, 0x5323db2197050879,
      0xbc3d7eb967c94d89, 0xcbb22c751faf6f71, 0xf0758513239c7e0d]);
  }

  lemma Answer6()
    ensures ByteStep(0xf0758513239c7e0d, 0x36) == 0xa3a90925b2ab4903
  {
    EightAnswers(0xf0758513239c7e0d, 0x36, [
      0xf0758513239c7e3b, 0xed9651a03d85f6a8, 0x76cb28d01ec2fb54,
      0x3b6594680f617daa, 0x1db2ca3407b0bed5, 0x9b75f633af9396df,
      0xd81668307b8202da, 0x6c0b34183dc1016d, 0xa3a90925b2ab4903]);
  }

  lemma Answer7()
    ensures ByteStep(0xa3a90925b2ab4903, 0x37) == 0x47824d362431ad45
  {
    EightAnswers(0xa3a90925b2ab4903, 0x37, [
      0xa3a90925b2ab4934, 0x51d48492d955a49a, 0x28ea42496caad24d,
      0x81d9b20d1a1ea093, 0xd5404a2f214499fc, 0x6aa0251790a24cfe,
      0x3550128bc851267f, 0x8f049a6c48635a8a, 0x47824d362431ad45]);
  }

  lemma Answer8()
    ensures ByteStep(0x47824d362431ad45, 0x38) == 0x49ec20b315e86dc2
  {
    EightAnswers(0x47824d362431ad45, 0x38, [
      0x47824d362431ad7d, 0xb66db5b2be531f0b, 0xce9a49f0f3624630,
      0x674d24f879b12318, 0x33a6927c3cd8918c, 0x19d3493e1e6c48c6,
      0xce9a49f0f362463, 0x93d841662bd0db84, 0x49ec20b315e86dc2]);
  }

  lemma Answer9()
    ensures ByteStep(0x49ec20b315e86dc2, 0x39) == 0xe9c6d914c4b8d9ca
  {
    EightAnswers(0x49ec20b315e86dc2, 0x39, [
      0x49ec20b315e86dfb, 0xb15a837026bfff48, 0x58ad41b8135fffa4,
      0x2c56a0dc09afffd2, 0x162b506e04d7ffe9, 0x9eb93b1eae203641,
      0xdaf00ea6fb5bd295, 0xf8d4947ad1e620ff, 0xe9c6d914c4b8d9ca]);
  }

  /** The string "123456789", as in the source's own test program. */
  lemma CheckValue()
    ensures Crc(0, [0x31, 0x32, 0x33, 0x34, 0x35, 0x36, 0x37, 0x38, 0x39]) == 0xe9c6d914c4b8d9ca
  {
    hide ByteStep;
    Answer1(); Answer2(); Answer3(); Answer4(); Answer5(); Answer6(); Answer7(); Answer8(); Answer9();
    assert [0x31, 0x32, 0x33, 0x34, 0x35, 0x36, 0x37, 0x38, 0x39][1..] == [0x32, 0x33, 0x34, 0x35, 0x36, 0x37, 0x38, 0x39];
    assert [0x32, 0x33, 0x34, 0x35, 0x36, 0x37, 0x38, 0x39][1..] == [0x33, 0x34, 0x35, 0x36, 0x37, 0x38, 0x39];
    assert [0x33, 0x34, 0x35, 0x36, 0x37, 0x38, 0x39][1..] == [0x34, 0x35, 0x36, 0x37, 0x38, 0x39];
    assert [0x34, 0x35, 0x36, 0x37, 0x38, 0x39][1..] == [0x35, 0x36, 0x37, 0x38, 0x39];
    assert [0x35, 0x36, 0x37, 0x38, 0x39][1..] == [0x36, 0x37, 0x38, 0x39];
    assert [0x36, 0x37, 0x38, 0x39][1..] == [0x37, 0x38, 0x39];
    assert [0x37, 0x38, 0x39][1..] == [0x38, 0x39];
    assert [0x38, 0x39][1..] == [0x39];
    assert [0x39][1..] == [];
  }
}
