/** The table-driven CRC routines as written: jones_crc64_init and jones_crc64
    (src/rdb_decode.cpp:1277-1385). Xor, Up, Down, DownByte, TopBit, Low and PushBit name the C operators
    on the 64-bit register, HasBit and NextMask those on the mask. */
module JonesCrc {
  import opened Bytes
  import opened Crc64

  /** How many passes of the bit loop are left when s bits of the byte are done. */
  predicate PassesLeft(s: bv8, left: nat) {
    (s == 0 && left == 8) || (s == 1 && left == 7) || (s == 2 && left == 6) || (s == 3 && left == 5) ||
    (s == 4 && left == 4) || (s == 5 && left == 3) || (s == 6 && left == 2) || (s == 7 && left == 1) ||
    (s == 8 && left == 0)
  }

  /** The loop is at bit s of the byte. */
  predicate AtBit(i: bv8, s: bv8, left: nat) {
    s <= 8 && PassesLeft(s, left) && i == (1 as bv8) << s
  }

  predicate HasBit(n: bv8, i: bv8) { n & i != 0 }

  function NextMask(i: bv8): bv8 { i << 1 }

  lemma NextPass(i: bv8, s: bv8, left: nat)
    requires AtBit(i, s, left)
    ensures i == 0 <==> left == 0
    ensures s <= 8 && (i == 0 ==> s == 8)
    ensures i != 0 ==> s < 8 && AtBit(NextMask(i), s + 1, left - 1)
  {}

  /** One pass of the bit loop, as one reflected bit step. */
  lemma BitPass(crc: bv64, n: bv8, i: bv8, s: bv8, left: nat)
    requires AtBit(i, s, left) && i != 0
    ensures s < 8
    ensures BitStep(Xor(Reverse(crc), BitsFrom(n, s)))
         == Xor(Reverse(TableStep(crc, TopBit(crc) != HasBit(n, i))), BitsFrom(n, s + 1))
  {
    hide Xor, Reverse, TopBit, TableStep, BitsFrom, BitStep;
    NextPass(i, s, left);
    TableBit(crc, n, s);
  }

  lemma FirstBits(n: Byte)
    ensures Xor(Reverse(0), BitsFrom(n as bv8, 0)) == Word(n)
    ensures BitsFrom(n as bv8, 8) == 0
  {
    ReverseZero();
    hide Reverse;
  }

  lemma OneMore(x: bv64, left: nat)
    requires left > 0
    ensures BitSteps(x, left) == BitSteps(BitStep(x), left - 1)
  {
    hide BitStep;
  }

  /** The bit loop for the byte n, with left passes to go: those steps lead to the table entry. */
  ghost predicate BitLoopAt(n: Byte, n8: bv8, crc: bv64, i: bv8, left: nat) {
    exists s: bv8 :: AtBit(i, s, left) && s <= 8
      && BitSteps(Word(n), 8) == BitSteps(Xor(Reverse(crc), BitsFrom(n8, s)), left)
  }

  lemma BitLoopStarts(n: Byte, n8: bv8)
    requires n8 == n as bv8
    ensures BitLoopAt(n, n8, 0, 1, 8)
  {
    FirstBits(n);
    assert AtBit(1, 0, 8);
    hide AtBit, BitSteps, Xor, Reverse, BitsFrom, Word;
  }

  lemma BitLoopNext(n: Byte, n8: bv8, crc: bv64, i: bv8, left: nat)
    requires BitLoopAt(n, n8, crc, i, left) && i != 0
    ensures left > 0
    ensures BitLoopAt(n, n8, TableStep(crc, TopBit(crc) != HasBit(n8, i)), NextMask(i), left - 1)
  {
    hide AtBit, HasBit, NextMask, BitSteps, BitStep, Xor, Reverse, BitsFrom, Word, TableStep, TopBit;
    var s: bv8 :| AtBit(i, s, left) && s <= 8
      && BitSteps(Word(n), 8) == BitSteps(Xor(Reverse(crc), BitsFrom(n8, s)), left);
    NextPass(i, s, left);
    BitPass(crc, n8, i, s, left);
    OneMore(Xor(Reverse(crc), BitsFrom(n8, s)), left);
  }

  lemma BitLoopEnds(n: Byte, n8: bv8, crc: bv64, left: nat)
    requires BitLoopAt(n, n8, crc, 0, left) && n8 == n as bv8
    ensures Reverse(crc) == BitSteps(Word(n), 8)
  {
    FirstBits(n);
    hide AtBit, BitSteps, BitStep, Xor, Reverse, BitsFrom, Word;
    var s: bv8 :| AtBit(0, s, left) && s <= 8
      && BitSteps(Word(n), 8) == BitSteps(Xor(Reverse(crc), BitsFrom(n8, s)), left);
    NextPass(0, s, left);
    XorZero(Reverse(crc));
    NoSteps(Reverse(crc));
  }

  /** The bit loop for one table entry. */
  method BitLoop(n: Byte) returns (crc: bv64)
    ensures Reverse(crc) == BitSteps(Word(n), 8)
  {
    hide BitLoopAt, BitSteps, HasBit, NextMask, Reverse, Xor, Word, Up, TopBit;
    crc := 0;
    var i: bv8 := 1;
    var n8 := n as bv8;
    ghost var left: nat := 8;
    BitLoopStarts(n, n8);
    while i != 0
      invariant BitLoopAt(n, n8, crc, i, left)
      decreases left
    {
      BitLoopNext(n, n8, crc, i, left);
      var k := TopBit(crc);
      if HasBit(n8, i) {
        k := !k;
      }
      crc := Up(crc);
      if k {
        crc := Xor(crc, POLY);
      }
      i, left := NextMask(i), left - 1;
    }
    BitLoopEnds(n, n8, crc, left);
  }

  lemma FirstBit(crc: bv64)
    ensures PushBit(0, crc) == crc & 1
  {}

  /** The loop that reverses the 64 bits of a table entry. */
  method ReverseLoop(x: bv64) returns (val: bv64)
    ensures val == Reverse(x)
  {
    var crc, k := x, 64;
    val := crc & 1;
    FirstBit(crc);
    PushAll(x);
    hide Reverse, Down, PushBit;
    while true
      invariant 1 <= k <= 64
      invariant PushBits(val, Down(crc), k - 1) == Reverse(x)
      decreases k
    {
      k := k - 1;
      if k == 0 {
        break;
      }
      crc := Down(crc);
      val := PushBit(val, crc);
    }
  }

  class Tables {
    const tab: array2<bv64> // jones_tab, all zero until the first use

    ghost predicate Built()
      reads this, tab
    {
      tab.Length0 == 8 && tab.Length1 == 256
      && forall k, n | 0 <= k < 8 && 0 <= n < 256 :: tab[k, n] == Entry(k, n)
    }

    ghost predicate Valid()
      reads this, tab
    {
      tab.Length0 == 8 && tab.Length1 == 256 && (tab[7, 255] != 0 ==> Built())
    }

    constructor ()
      ensures Valid() && fresh(tab)
    {
      tab := new bv64[8, 256]((k, n) => 0);
    }

    /** jones_crc64_init: table 0 from the bit loop, table k from table k - 1. */
    method Init()
      requires Valid()
      modifies tab
      ensures Built()
    {
      hide Entry, Reverse, Xor, Low, DownByte, BitSteps, Word;
      var n := 0;
      while n < 256
        invariant 0 <= n <= 256
        invariant forall m | 0 <= m < n :: tab[0, m] == Entry(0, m)
      {
        var crc := BitLoop(n);
        var val := ReverseLoop(crc);
        EntryZero(n);
        tab[0, n] := val;
        n := n + 1;
      }
      n := 0;
      while n < 256
        invariant 0 <= n <= 256
        invariant forall m | 0 <= m < 256 :: tab[0, m] == Entry(0, m)
        invariant forall k, m | 0 <= k < 8 && 0 <= m < n :: tab[k, m] == Entry(k, m)
      {
        var crc := tab[0, n];
        var k := 1;
        while k < 8
          invariant 1 <= k <= 8
          invariant crc == Entry(k - 1, n)
          invariant forall m | 0 <= m < 256 :: tab[0, m] == Entry(0, m)
          invariant forall j, m | 0 <= j < 8 && 0 <= m < n :: tab[j, m] == Entry(j, m)
          invariant forall j | 0 <= j < k :: tab[j, n] == Entry(j, n)
        {
          EntryStep(k - 1, n);
          crc := Xor(tab[0, Low(crc)], DownByte(crc));
          tab[k, n] := crc;
          k := k + 1;
        }
        n := n + 1;
      }
    }

    /** A byte of the prologue and epilogue loops. */
    method LookupByte(crc: bv64, b: Byte) returns (r: bv64)
      requires Built()
      ensures r == ByteStep(crc, b)
    {
      hide Entry, Xor, Low, DownByte, Word, ByteStep;
      LookupStep(crc, b);
      r := Xor(tab[0, Low(Xor(crc, Word(b)))], DownByte(crc));
    }

    /** A pass of the aligned loop: eight bytes, eight tables. */
    method LookupEight(crc: bv64, s: seq<Byte>) returns (r: bv64)
      requires Built() && |s| == 8
      ensures r == Crc(crc, s)
    {
      hide Entry, Xor, Low, LoadWord, Crc, Slices, BitSteps;
      var x := Xor(crc, LoadWord(s));
      var t7, t6, t5, t4 := tab[7, Low(x)], tab[6, Low(x >> 8)], tab[5, Low(x >> 16)], tab[4, Low(x >> 24)];
      var t3, t2, t1, t0 := tab[3, Low(x >> 32)], tab[2, Low(x >> 40)], tab[1, Low(x >> 48)], tab[0, Low(x >> 56)];
      r := Xor(Xor(Xor(Xor(Xor(Xor(Xor(t7, t6), t5), t4), t3), t2), t1), t0);
      SlicesAre(x, t7, t6, t5, t4, t3, t2, t1, t0);
      SliceByEight(crc, s);
    }

    /** The byte loop that stops at an address divisible by eight. */
    method Prologue(crc0: bv64, address: nat, buf: seq<Byte>) returns (crc: bv64, next: nat)
      requires Built()
      ensures next <= |buf| && crc == Crc(crc0, buf[..next])
      ensures next == |buf| || (address + next) % 8 == 0
    {
      hide *;
      crc, next := crc0, 0;
      CrcStarts(crc0, buf);
      while next != |buf| && (address + next) % 8 != 0
        invariant next <= |buf| && crc == Crc(crc0, buf[..next])
      {
        ByteLoopStep(crc0, buf, next);
        crc := LookupByte(crc, buf[next]);
        next := next + 1;
      }
    }

    /** The aligned loop. */
    method Words(crc0: bv64, crc1: bv64, buf: seq<Byte>, start: nat) returns (crc: bv64, next: nat)
      requires Built() && start <= |buf| && crc1 == Crc(crc0, buf[..start])
      ensures next <= |buf| && crc == Crc(crc0, buf[..next])
      ensures |buf| - next < 8
    {
      hide *;
      crc, next := crc1, start;
      while |buf| - next >= 8
        invariant next <= |buf| && crc == Crc(crc0, buf[..next])
      {
        WordLoopStep(crc0, buf, next);
        crc := LookupEight(crc, buf[next..next + 8]);
        next := next + 8;
      }
    }

    /** The byte loop over what is left. */
    method Epilogue(crc0: bv64, crc1: bv64, buf: seq<Byte>, start: nat) returns (crc: bv64)
      requires Built() && start <= |buf| && crc1 == Crc(crc0, buf[..start])
      ensures crc == Crc(crc0, buf)
    {
      hide *;
      crc := crc1;
      var next := start;
      while next != |buf|
        invariant next <= |buf| && crc == Crc(crc0, buf[..next])
      {
        ByteLoopStep(crc0, buf, next);
        crc := LookupByte(crc, buf[next]);
        next := next + 1;
      }
      assert buf[..next] == buf;
    }

    /** jones_crc64 on a buffer at any address: bytes up to an aligned address, words while eight
        bytes are left, then the remaining bytes. The result is the bit-serial CRC. */
    method JonesCrc64(crc0: bv64, address: nat, buf: seq<Byte>) returns (crc: bv64)
      requires Valid()
      modifies tab
      ensures Built() && crc == Crc(crc0, buf)
    {
      if tab[7, 255] == 0 {
        Init();
      }
      assert Built();
      hide *;
      var next;
      crc, next := Prologue(crc0, address, buf);
      crc, next := Words(crc0, crc, buf, next);
      crc := Epilogue(crc0, crc, buf, next);
    }
  }

  lemma WordLoopStep(crc: bv64, s: seq<Byte>, i: nat)
    requires i + 8 <= |s|
    ensures Crc(Crc(crc, s[..i]), s[i..i + 8]) == Crc(crc, s[..i + 8])
  {
    hide Crc;
    assert s[..i + 8] == s[..i] + s[i..i + 8];
    CrcConcat(crc, s[..i], s[i..i + 8]);
  }

  lemma SlicesAre(x: bv64, t7: bv64, t6: bv64, t5: bv64, t4: bv64, t3: bv64, t2: bv64, t1: bv64, t0: bv64)
    requires t7 == Entry(7, Low(x)) && t6 == Entry(6, Low(x >> 8)) && t5 == Entry(5, Low(x >> 16))
    requires t4 == Entry(4, Low(x >> 24)) && t3 == Entry(3, Low(x >> 32)) && t2 == Entry(2, Low(x >> 40))
    requires t1 == Entry(1, Low(x >> 48)) && t0 == Entry(0, Low(x >> 56))
    ensures Xor(Xor(Xor(Xor(Xor(Xor(Xor(t7, t6), t5), t4), t3), t2), t1), t0) == Slices(x)
  {
    hide Entry, Low, Xor;
  }

  lemma CrcStarts(crc: bv64, s: seq<Byte>)
    ensures Crc(crc, s[..0]) == crc
  {}

  /** One lookup of the byte loops is one byte of the definition. */
  lemma ByteLoopStep(crc: bv64, s: seq<Byte>, i: nat)
    requires i < |s|
    ensures Crc(Crc(crc, s[..i]), [s[i]]) == Crc(crc, s[..i + 1])
    ensures Crc(Crc(crc, s[..i]), [s[i]]) == ByteStep(Crc(crc, s[..i]), s[i])
  {
    hide ByteStep;
    var c := Crc(crc, s[..i]);
    assert s[..i + 1] == s[..i] + [s[i]];
    CrcConcat(crc, s[..i], [s[i]]);
    assert Crc(c, [s[i]]) == Crc(ByteStep(c, s[i]), [s[i]][1..]);
  }

  lemma EntryZero(n: Byte)
    ensures Entry(0, n) == BitSteps(Word(n), 8)
  {}
}
