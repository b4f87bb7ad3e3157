/** The listpack reader (include/rdbparser/rdb_decode.h:367-515, src/rdb_decode.cpp:202-235): safe
    traversal of arbitrary bytes, the exact domain of the round trip with the writer, and the walk
    backward. */
module ListPackRead {
  import opened Bytes
  import opened ListValue
  import opened ListPack

  /** A listpack of which every byte up to its declared size is in mem. */
  datatype Pack = Pack(mem: seq<Byte>, lplen: nat)

  datatype InitResult =
    | Refused
    | Overrun // the declared size is larger than the buffer; the source reads on behind it
    | Opened(pack: Pack)

  function LpInit(b: seq<Byte>): InitResult {
    if |b| < 6 then Refused
    else if FromLe(b[..4]) < 7 then Refused
    else if FromLe(b[..4]) > |b| then Overrun
    else Opened(Pack(b[..FromLe(b[..4])], FromLe(b[4..6])))
  }

  const FIRST := Lval(LP_HEADER, 0, None, 0, 0)

  lemma StringLength(n: ListPackEnc, p: seq<Byte>)
    requires |p| >= LpSize(n) && !LpIsImmed(n)
    ensures LpVal(n, p) >= 0
  {}

  /** next: true and the entry behind v, back code included, or false at the terminator, where the list
      is cut short, and behind its end. All reads are from mem, that is, below the declared size. */
  function LpNext(mem: seq<Byte>, v: Lval): (r: (bool, Lval))
    requires LP_HEADER <= v.entry
    ensures LP_HEADER <= r.1.entry
    ensures r.0 ==> Inside(mem, LP_HEADER, r.1) && EndOf(v) == r.1.entry < EndOf(r.1)
  {
    var e := EndOf(v);
    var stop := (false, Lval(e, |mem|, None, 0, 0));
    if e >= |mem| then stop
    else
      var n := LpCode(mem[e]);
      if n == LpEnd || e + LpSize(n) > |mem| then stop
      else
        var ival := LpVal(n, mem[e..]);
        if LpIsImmed(n) then
          var len := LpSize(n) + LpBackSize(LpSize(n));
          (e + len <= |mem|, Lval(e, len, None, 0, ival))
        else
          StringLength(n, mem[e..]);
          var len := LpSize(n) + ival + LpBackSize(LpSize(n) + ival);
          (e + len <= |mem|, Lval(e, len, Some(e + LpSize(n)), ival, ival))
  }

  /** All entries behind v, as the decoders collect them. */
  function LpElems(mem: seq<Byte>, v: Lval): seq<Elem>
    requires Inside(mem, LP_HEADER, v)
    decreases |mem| - EndOf(v)
  {
    var r := LpNext(mem, v);
    if r.0 then [ElemAt(mem, r.1)] + LpElems(mem, r.1) else []
  }

  /** Where each entry visited begins. */
  function ForwardStarts(mem: seq<Byte>, v: Lval): seq<nat>
    requires Inside(mem, LP_HEADER, v)
    decreases |mem| - EndOf(v)
  {
    var r := LpNext(mem, v);
    if r.0 then [EndOf(v)] + ForwardStarts(mem, r.1) else []
  }

  /** A traversal takes at least one byte per entry, so it ends within the declared size. */
  lemma {:induction false} TraversalEnds(mem: seq<Byte>, v: Lval)
    requires Inside(mem, LP_HEADER, v)
    ensures |LpElems(mem, v)| <= |mem| - EndOf(v)
    decreases |mem| - EndOf(v)
  {
    hide LpNext, ElemAt;
    if LpNext(mem, v).0 {
      TraversalEnds(mem, LpNext(mem, v).1);
    }
  }

  // ----- what the codes of the two sides make of each other

  /** The integer that is read where x was written: 13-bit codes lose the sign, and the bytes of a
      24-bit code are read in another order than they were written in. */
  function SeenInt(x: int): int {
    var e := LpNextImmCode(x);
    if e == Lp13Int then x % 0x1000
    else if e == Lp24Int then Signed(FromLe([(x / 0x1_0000) % 256] + Le(Unsigned(x, 2), 2)), 3)
    else x
  }

  /** The size that is read where n was written: 32-bit sizes are written big endian and read little
      endian. */
  function SeenLen(n: nat): nat
    requires n < TWO32
  {
    if n < 0x1000 then n else FromLe(Be(n, 4))
  }

  /** The integers on which the two sides agree. */
  predicate IntAgrees(x: int) {
    !(-0x1000 <= x < 0)
    && (LpNextImmCode(x) == Lp24Int ==> x % 256 == (x / 256) % 256 == (x / 0x1_0000) % 256)
  }

  /** The sizes on which they do. */
  predicate LenAgrees(n: nat) {
    n < 0x1000 || (n % 256 == n / 0x100_0000 && (n / 256) % 256 == (n / 0x1_0000) % 256)
  }

  predicate SizeAgrees(x: Elem) {
    match x
    case Str(s) => LenAgrees(|s|)
    case Int(_) => true
  }

  predicate SizesAgree(xs: seq<Elem>) {
    forall x | x in xs :: SizeAgrees(x)
  }

  predicate Agrees(x: Elem) {
    match x
    case Str(s) => LenAgrees(|s|)
    case Int(i) => IntAgrees(i)
  }

  function Seen(x: Elem): Elem {
    match x
    case Str(s) => x
    case Int(i) => Int(SeenInt(i))
  }

  function SeenAll(xs: seq<Elem>): (r: seq<Elem>)
    ensures |r| == |xs| && forall i | 0 <= i < |xs| :: r[i] == Seen(xs[i])
  {
    seq(|xs|, i requires 0 <= i < |xs| => Seen(xs[i]))
  }

  lemma IntSeen(x: int)
    requires IsInt64(x)
    ensures SeenInt(x) == x <==> IntAgrees(x)
  {
    if LpNextImmCode(x) == Lp24Int {
      Rotated(x);
    }
  }

  lemma OneByte(a: Byte)
    ensures FromLe([a]) == a
  {
    assert [a][1..] == [];
  }

  lemma TwoBytes(a: Byte, b: Byte)
    ensures FromLe([a, b]) == a + 256 * b
  {
    assert [a, b][1..] == [b];
    OneByte(b);
  }

  lemma ThreeBytes(a: Byte, b: Byte, c: Byte)
    ensures FromLe([a, b, c]) == a + 256 * b + 0x1_0000 * c
  {
    assert [a, b, c][1..] == [b, c];
    TwoBytes(b, c);
  }

  lemma FourBytes(a: Byte, b: Byte, c: Byte, d: Byte)
    ensures FromLe([a, b, c, d]) == a + 256 * b + 0x1_0000 * c + 0x100_0000 * d
  {
    assert [a, b, c, d][1..] == [b, c, d];
    ThreeBytes(b, c, d);
  }

  lemma TwoLe(u: nat)
    ensures Le(u, 2) == [u % 256, (u / 256) % 256]
  {
    assert Le(u / 256 / 256, 0) == [];
    assert Le(u / 256, 1) == [(u / 256) % 256];
  }

  /** The low bytes of a number, and its residue. */
  lemma LowDigits(x: int)
    ensures x % 0x1_0000 == x % 256 + 256 * ((x / 256) % 256)
    ensures x % 0x100_0000 == x % 0x1_0000 + 0x1_0000 * ((x / 0x1_0000) % 256)
    ensures x / 256 / 256 == x / 0x1_0000
  {}

  lemma SignedIs(v: nat, x: int)
    requires v < 0x100_0000 && -0x80_0000 <= x <= 0x7f_ffff
    ensures Signed(v, 3) == x <==> v == x % 0x100_0000
  {
    assert Pow256(3) == 256 * Pow256(2) && Pow256(2) == 256 * Pow256(1) && Pow256(1) == 256;
  }

  lemma Rotated(x: int)
    requires LpNextImmCode(x) == Lp24Int
    ensures SeenInt(x) == x <==> x % 256 == (x / 256) % 256 == (x / 0x1_0000) % 256
  {
    var lo, mid, hi := x % 256, (x / 256) % 256, (x / 0x1_0000) % 256;
    RotatedBytes(x);
    LowDigits(x);
    hide SeenInt, Signed;
    ThreeBytes(hi, lo, mid);
    SignedIs(hi + 256 * lo + 0x1_0000 * mid, x);
    AllEqual(lo, mid, hi);
  }

  lemma AllEqual(a: Byte, b: Byte, c: Byte)
    ensures c + 256 * a + 0x1_0000 * b == a + 256 * b + 0x1_0000 * c <==> a == b == c
  {}

  /** What is written and read for a 24-bit integer: the high byte comes first. */
  lemma RotatedBytes(x: int)
    requires LpNextImmCode(x) == Lp24Int
    ensures -0x80_0000 <= x <= 0x7f_ffff
    ensures SeenInt(x) == Signed(FromLe([(x / 0x1_0000) % 256, x % 256, (x / 256) % 256]), 3)
  {
    var u, lo, mid, hi := Unsigned(x, 2), x % 256, (x / 256) % 256, (x / 0x1_0000) % 256;
    TwoLe(u);
    assert Pow256(2) == 256 * Pow256(1) && Pow256(1) == 256;
    LowDigits(x);
    LowDigits(u);
    hide Le, FromLe, Signed, Pow256, Unsigned;
    TwoDigits(u, lo, mid);
    assert [hi] + [lo, mid] == [hi, lo, mid];
  }

  lemma TwoDigits(u: nat, lo: Byte, mid: Byte)
    requires u == lo + 256 * mid
    ensures u % 256 == lo && (u / 256) % 256 == mid
  {}

  lemma FourDigits(n: nat)
    requires n < TWO32
    ensures n == n % 256 + 256 * ((n / 256) % 256) + 0x1_0000 * ((n / 0x1_0000) % 256) + 0x100_0000 * (n / 0x100_0000)
    ensures n / 0x100_0000 < 256 && (n / 256) / 256 == n / 0x1_0000 && (n / 0x1_0000) / 256 == n / 0x100_0000
  {}

  lemma FourBe(n: nat)
    requires n < TWO32
    ensures Be(n, 4) == [n / 0x100_0000, (n / 0x1_0000) % 256, (n / 256) % 256, n % 256]
  {
    var a, b, c := n / 256, n / 0x1_0000, n / 0x100_0000;
    FourDigits(n);
    assert Be(c / 256, 0) == [];
    assert Be(c, 1) == [c];
    assert Be(b, 2) == [c, b % 256];
    assert Be(a, 3) == [c, b % 256, a % 256];
  }

  lemma Mirrored(a: Byte, b: Byte, c: Byte, d: Byte)
    ensures a + 256 * b + 0x1_0000 * c + 0x100_0000 * d == d + 256 * c + 0x1_0000 * b + 0x100_0000 * a
       <==> a == d && b == c
  {}

  lemma LenSeen(n: nat)
    requires n < TWO32
    ensures SeenLen(n) == n <==> LenAgrees(n)
  {
    hide Be, FromLe;
    if n >= 0x1000 {
      var a, b, c, d := n / 0x100_0000, (n / 0x1_0000) % 256, (n / 256) % 256, n % 256;
      FourDigits(n);
      FourBe(n);
      FourBytes(a, b, c, d);
      Mirrored(a, b, c, d);
    }
  }

  // ----- reading what was written

  lemma WideRead(x: int, n: nat, code: Byte, rest: seq<Byte>)
    requires n > 0 && 0 <= 2 * x + Pow256(n) && 2 * x < Pow256(n)
    ensures var p := [code] + Le(Unsigned(x, n), n) + rest;
      p[0] == code && p[1..1 + n] == Le(Unsigned(x, n), n) && Signed(FromLe(p[1..1 + n]), n) == x
  {
    hide Le, FromLe, Signed, Unsigned;
    LeRoundTrip(Unsigned(x, n), n);
    SignedRoundTrip(x, n);
    var p := [code] + Le(Unsigned(x, n), n) + rest;
    assert p[1..1 + n] == Le(Unsigned(x, n), n);
  }

  lemma Powers()
    ensures Pow256(1) == 0x100 && Pow256(2) == 0x1_0000 && Pow256(4) == TWO32 && Pow256(8) == TWO64
  {}

  lemma SmallRead(x: int, rest: seq<Byte>)
    requires LpNextImmCode(x) in {Lp7Uint, Lp13Int}
    ensures var p := ImmBytes(x) + rest;
      LpCode(p[0]) == LpNextImmCode(x) && LpVal(LpNextImmCode(x), p) == SeenInt(x)
  {
    var p, e := ImmBytes(x) + rest, LpNextImmCode(x);
    assert p[0] == ImmBytes(x)[0] && (e == Lp13Int ==> p[1] == ImmBytes(x)[1]);
  }

  lemma MiddleRead(x: int, rest: seq<Byte>)
    requires LpNextImmCode(x) == Lp24Int
    ensures var p := ImmBytes(x) + rest;
      LpCode(p[0]) == Lp24Int && LpVal(Lp24Int, p) == SeenInt(x)
  {
    hide Le, FromLe, Signed, Unsigned;
    var p, hi := ImmBytes(x) + rest, (x / 0x1_0000) % 256;
    assert p[0] == 0xf2;
    assert p[1..4] == [hi] + Le(Unsigned(x, 2), 2);
  }

  lemma LargeRead(x: int, rest: seq<Byte>)
    requires IsInt64(x) && LpNextImmCode(x) in {Lp16Int, Lp32Int, Lp64Int}
    ensures var p := ImmBytes(x) + rest;
      LpCode(p[0]) == LpNextImmCode(x) && LpVal(LpNextImmCode(x), p) == SeenInt(x)
  {
    hide Le, FromLe, Signed, Unsigned, Pow256;
    var e := LpNextImmCode(x);
    Powers();
    if e == Lp16Int {
      WideRead(x, 2, 0xf1, rest);
    } else if e == Lp32Int {
      WideRead(x, 4, 0xf3, rest);
    } else {
      WideRead(x, 8, 0xf4, rest);
    }
  }

  /** What is read at a written integer. */
  lemma IntRead(x: int, rest: seq<Byte>)
    requires IsInt64(x)
    ensures var p := ImmBytes(x) + rest;
      LpCode(p[0]) == LpNextImmCode(x) && LpVal(LpNextImmCode(x), p) == SeenInt(x)
    ensures LpIsImmed(LpNextImmCode(x)) && LpNextImmCode(x) != LpEnd
  {
    hide LpCode, LpVal, SeenInt, ImmBytes;
    var e := LpNextImmCode(x);
    if e in {Lp7Uint, Lp13Int} {
      SmallRead(x, rest);
    } else if e == Lp24Int {
      MiddleRead(x, rest);
    } else {
      LargeRead(x, rest);
    }
  }

  /** What is read at a written string. */
  lemma StrRead(n: nat, rest: seq<Byte>)
    requires n < TWO32
    ensures var p := StrHead(n) + rest;
      LpCode(p[0]) == LpNextStrCode(n) && LpVal(LpNextStrCode(n), p) == SeenLen(n)
    ensures !LpIsImmed(LpNextStrCode(n)) && LpNextStrCode(n) != LpEnd
  {
    var p := StrHead(n) + rest;
    if n >= 0x1000 {
      assert p[1..5] == Be(n, 4);
    }
  }

  /** next, once the code and its value are known. */
  lemma NextIs(mem: seq<Byte>, v: Lval, n: ListPackEnc, ival: int)
    requires Inside(mem, LP_HEADER, v) && EndOf(v) + LpSize(n) <= |mem|
    requires EndOf(v) < |mem| && LpCode(mem[EndOf(v)]) == n != LpEnd && LpVal(n, mem[EndOf(v)..]) == ival
    ensures LpIsImmed(n) ==>
      (var len := LpSize(n) + LpBackSize(LpSize(n));
       LpNext(mem, v) == (EndOf(v) + len <= |mem|, Lval(EndOf(v), len, None, 0, ival)))
    ensures !LpIsImmed(n) ==>
      (ival >= 0 && var len := LpSize(n) + ival + LpBackSize(LpSize(n) + ival);
       LpNext(mem, v) == (EndOf(v) + len <= |mem|, Lval(EndOf(v), len, Some(EndOf(v) + LpSize(n)), ival, ival)))
  {
    hide LpVal, LpCode, LpSize, LpIsImmed, LpBackSize;
    if !LpIsImmed(n) {
      StringLength(n, mem[EndOf(v)..]);
    }
  }

  lemma NextInt(mem: seq<Byte>, v: Lval, x: int, rest: seq<Byte>)
    requires Inside(mem, LP_HEADER, v) && IsInt64(x)
    requires mem[EndOf(v)..] == Entry(Int(x)) + rest
    ensures var r := LpNext(mem, v);
      r.0 && EndOf(r.1) == EndOf(v) + |Entry(Int(x))| && ElemAt(mem, r.1) == Int(SeenInt(x))
    ensures EndOf(v) + |Entry(Int(x))| <= |mem| && mem[EndOf(v) + |Entry(Int(x))|..] == rest
  {
    hide ImmBytes, BackBytes, LpNext, LpVal, LpCode, LpSize, LpIsImmed, LpBackSize, SeenInt, LpNextImmCode;
    var at, b, back := EndOf(v), ImmBytes(x), BackBytes(|ImmBytes(x)|);
    TwoSlices(mem, at, Entry(Int(x)), rest);
    Regroup(b, back, rest);
    TwoSlices(mem, at, b, back + rest);
    IntRead(x, back + rest);
    BodyNonempty(Int(x));
    NextIs(mem, v, LpNextImmCode(x), SeenInt(x));
  }

  lemma BodyNonempty(x: Elem)
    requires ElemFits(x)
    ensures Body(x) != []
    ensures x.Str? ==> Body(x) == StrHead(|x.s|) + x.s && StrHead(|x.s|) != []
    ensures x.Int? ==> Body(x) == ImmBytes(x.i)
  {}

  /** Where the parts of a written string are. */
  lemma StrParts(mem: seq<Byte>, at: nat, s: seq<Byte>, rest: seq<Byte>)
    requires at <= |mem| && ElemFits(Str(s)) && mem[at..] == Entry(Str(s)) + rest
    ensures var h, e := StrHead(|s|), |Entry(Str(s))|;
      e == |h| + |s| + LpBackSize(|h| + |s|) && at + e <= |mem| && mem[at + e..] == rest
      && mem[at..] == h + (s + (BackBytes(|h| + |s|) + rest)) && h != [] && mem[at] == h[0]
      && mem[at + |h|..at + |h| + |s|] == s
  {
    hide StrHead, BackBytes, LpBackSize;
    BodyNonempty(Str(s));
    FourSlices(mem, at, StrHead(|s|), s, BackBytes(|StrHead(|s|)| + |s|), rest);
  }

  lemma NextStrIs(mem: seq<Byte>, v: Lval, s: seq<Byte>, rest: seq<Byte>)
    requires Inside(mem, LP_HEADER, v) && ElemFits(Str(s))
    requires mem[EndOf(v)..] == Entry(Str(s)) + rest
    ensures var h, n := |StrHead(|s|)|, SeenLen(|s|);
      LpNext(mem, v) == (EndOf(v) + (h + n + LpBackSize(h + n)) <= |mem|,
                         Lval(EndOf(v), h + n + LpBackSize(h + n), Some(EndOf(v) + h), n, n))
  {
    hide StrHead, BackBytes, LpNext, LpVal, LpCode, LpSize, LpIsImmed, LpBackSize, SeenLen, LpNextStrCode, Entry;
    var at, h := EndOf(v), StrHead(|s|);
    var tail := s + (BackBytes(|h| + |s|) + rest);
    StrParts(mem, at, s, rest);
    StrRead(|s|, tail);
    assert |h + tail| >= |h| && (h + tail)[0] == h[0];
    NextIs(mem, v, LpNextStrCode(|s|), SeenLen(|s|));
  }

  lemma NextStr(mem: seq<Byte>, v: Lval, s: seq<Byte>, rest: seq<Byte>)
    requires Inside(mem, LP_HEADER, v) && ElemFits(Str(s))
    requires mem[EndOf(v)..] == Entry(Str(s)) + rest
    ensures var r := LpNext(mem, v);
      if LenAgrees(|s|) then r.0 && EndOf(r.1) == EndOf(v) + |Entry(Str(s))| && ElemAt(mem, r.1) == Str(s)
      else r.0 ==> ElemAt(mem, r.1) != Str(s)
    ensures EndOf(v) + |Entry(Str(s))| <= |mem| && mem[EndOf(v) + |Entry(Str(s))|..] == rest
  {
    hide StrHead, LpNext, LpBackSize, SeenLen, LenAgrees, Entry;
    StrParts(mem, EndOf(v), s, rest);
    NextStrIs(mem, v, s, rest);
    LenSeen(|s|);
  }

  /** next on a written entry whose size is read as it was written. */
  lemma NextEntry(mem: seq<Byte>, v: Lval, x: Elem, rest: seq<Byte>)
    requires Inside(mem, LP_HEADER, v) && ElemFits(x) && SizeAgrees(x)
    requires mem[EndOf(v)..] == Entry(x) + rest
    ensures var r := LpNext(mem, v);
      r.0 && EndOf(r.1) == EndOf(v) + |Entry(x)| && ElemAt(mem, r.1) == Seen(x)
    ensures EndOf(v) + |Entry(x)| <= |mem| && mem[EndOf(v) + |Entry(x)|..] == rest
  {
    hide Entry, LpNext, ElemAt;
    match x
    case Str(s) => NextStr(mem, v, s, rest);
    case Int(i) => NextInt(mem, v, i, rest);
  }

  lemma ReadOne(mem: seq<Byte>, v: Lval)
    requires Inside(mem, LP_HEADER, v)
    ensures var r := LpNext(mem, v);
      if r.0 then
        LpElems(mem, v) == [ElemAt(mem, r.1)] + LpElems(mem, r.1)
        && ForwardStarts(mem, v) == [EndOf(v)] + ForwardStarts(mem, r.1)
      else LpElems(mem, v) == []
  {
    hide LpNext, ElemAt;
  }

  lemma ReadEnd(mem: seq<Byte>, v: Lval)
    requires Inside(mem, LP_HEADER, v) && mem[EndOf(v)..] == [0xff]
    ensures LpElems(mem, v) == [] && ForwardStarts(mem, v) == []
  {
    hide LpVal;
    assert mem[EndOf(v)] == mem[EndOf(v)..][0];
  }

  lemma SeenCons(x: Elem, xs: seq<Elem>)
    ensures SeenAll([x] + xs) == [Seen(x)] + SeenAll(xs)
    ensures SizesAgree([x] + xs) ==> SizeAgrees(x) && SizesAgree(xs)
  {
    hide Seen, SizeAgrees;
    assert x in [x] + xs && forall y | y in xs :: y in [x] + xs;
  }

  /** A written list whose sizes are read as they were written is traversed element by element. */
  lemma {:induction false} ReadEntries(mem: seq<Byte>, v: Lval, xs: seq<Elem>)
    requires Inside(mem, LP_HEADER, v) && AllFit(xs) && SizesAgree(xs)
    requires mem[EndOf(v)..] == Entries(xs) + [0xff]
    ensures LpElems(mem, v) == SeenAll(xs)
    ensures ForwardStarts(mem, v) == Starts(EndOf(v), xs)
    decreases xs
  {
    hide LpNext, Entry, Entries, Starts, LpElems, ForwardStarts, ElemAt, EndOf, AllFit, SizesAgree, SeenAll;
    if xs == [] {
      EntriesNil(EndOf(v));
      Regroup([], [0xff], []);
      ReadEnd(mem, v);
    } else {
      var x, ys := xs[0], xs[1..];
      assert xs == [x] + ys;
      EntriesCons(EndOf(v), x, ys);
      SeenCons(x, ys);
      Regroup(Entry(x), Entries(ys), [0xff]);
      NextEntry(mem, v, x, Entries(ys) + [0xff]);
      ReadOne(mem, v);
      ReadEntries(mem, LpNext(mem, v).1, ys);
    }
  }

  /** One element on which the sides disagree makes the list that is read another one. */
  lemma {:induction false} Disagreement(mem: seq<Byte>, v: Lval, xs: seq<Elem>, k: nat)
    requires Inside(mem, LP_HEADER, v) && AllFit(xs) && k < |xs| && !Agrees(xs[k])
    requires mem[EndOf(v)..] == Entries(xs) + [0xff]
    ensures LpElems(mem, v) != xs
    decreases xs
  {
    hide LpNext, Entry, Entries, Starts, LpElems, ForwardStarts, ElemAt, EndOf, LenAgrees, IntAgrees, SeenInt,
      IsInt64;
    var x, ys := xs[0], xs[1..];
    assert xs == [x] + ys;
    EntriesCons(EndOf(v), x, ys);
    Regroup(Entry(x), Entries(ys), [0xff]);
    ReadOne(mem, v);
    if x.Str? && !LenAgrees(|x.s|) {
      NextStr(mem, v, x.s, Entries(ys) + [0xff]);
    } else {
      NextEntry(mem, v, x, Entries(ys) + [0xff]);
      if Agrees(x) {
        assert xs[k] == ys[k - 1];
        Disagreement(mem, LpNext(mem, v).1, ys, k - 1);
        assert LpElems(mem, v)[1..] == LpElems(mem, LpNext(mem, v).1);
      } else {
        IntSeen(x.i);
      }
    }
  }

  /** The elements of the listpack in b are xs. */
  predicate IsPack(b: seq<Byte>, xs: seq<Elem>) {
    var r := LpInit(b);
    r.Opened? && |r.pack.mem| >= LP_HEADER && LpElems(r.pack.mem, FIRST) == xs
  }

  /** Whatever the bytes are, an integer that is read has 64 bits. */
  lemma IntFits(mem: seq<Byte>, v: Lval)
    requires Inside(mem, LP_HEADER, v) && LpNext(mem, v).0 && LpNext(mem, v).1.data == None
    ensures IsInt64(LpNext(mem, v).1.ival)
  {
    var e := EndOf(v);
    ValueFits(LpCode(mem[e]), mem[e..]);
    hide LpVal, LpCode, LpSize, LpIsImmed, LpBackSize;
  }

  lemma ValueFits(n: ListPackEnc, p: seq<Byte>)
    requires |p| >= LpSize(n) && LpIsImmed(n)
    ensures IsInt64(LpVal(n, p))
  {
    Powers();
    ThreePower();
    if n in {Lp16Int, Lp24Int, Lp32Int, Lp64Int} {
      FromLeBound(p[1..LpSize(n)]);
    }
    hide Pow256, FromLe;
  }

  lemma {:induction false} IntsFit(mem: seq<Byte>, v: Lval, i: int)
    requires Inside(mem, LP_HEADER, v) && Int(i) in LpElems(mem, v)
    ensures IsInt64(i)
    decreases |mem| - EndOf(v)
  {
    hide LpNext, IsInt64;
    var r := LpNext(mem, v);
    if ElemAt(mem, r.1) == Int(i) {
      IntFits(mem, v);
    } else {
      IntsFit(mem, r.1, i);
    }
  }

  lemma HeaderSlices(total: nat, n: nat, body: seq<Byte>)
    requires total < TWO32 && n < 0x1_0000 && total == 6 + |body| >= 7
    ensures var b := Le(total, 4) + Le(n, 2) + body;
      LpInit(b) == Opened(Pack(b, n)) && |b| == total && b[6..] == body
  {
    hide Le, FromLe;
    var b := Le(total, 4) + Le(n, 2) + body;
    assert Pow256(4) == TWO32 && Pow256(2) == 0x1_0000;
    LeRoundTrip(total, 4);
    LeRoundTrip(n, 2);
    assert b[..4] == Le(total, 4);
    assert b[4..6] == Le(n, 2);
    assert b[..total] == b;
  }

  lemma HeaderRead(xs: seq<Elem>)
    requires ListFits(xs)
    ensures LpInit(LpBytes(xs)) == Opened(Pack(LpBytes(xs), if |xs| <= 0xffff then |xs| else 0xffff))
    ensures |LpBytes(xs)| == 7 + |Entries(xs)|
    ensures LpBytes(xs)[LP_HEADER..] == Entries(xs) + [0xff]
  {
    hide Le, Entries, LpInit, AllFit;
    var total, n := 7 + |Entries(xs)|, if |xs| <= 0xffff then |xs| else 0xffff;
    HeaderSlices(total, n, Entries(xs) + [0xff]);
    Regroup(Le(total, 4) + Le(n, 2), Entries(xs), [0xff]);
  }

  /** Listpack round trip: what is appended is opened and read back in order, each element with its
      kind, if and only if it has no element on which the writer and the reader disagree. */
  lemma RoundTrip(xs: seq<Elem>)
    requires ListFits(xs)
    ensures var b := LpBytes(xs);
      LpInit(b).Opened? && LpInit(b).pack.mem == b && Inside(b, LP_HEADER, FIRST)
      && (LpElems(b, FIRST) == xs <==> forall x | x in xs :: Agrees(x))
  {
    hide LpBytes, Entries, LpElems, ForwardStarts, Starts, IntAgrees, LenAgrees, LpNext;
    var b := LpBytes(xs);
    HeaderRead(xs);
    if forall x | x in xs :: Agrees(x) {
      forall x | x in xs ensures SizeAgrees(x) && Seen(x) == x {
        assert ElemFits(x);
        if x.Int? {
          IntSeen(x.i);
        }
      }
      ReadEntries(b, FIRST, xs);
      assert SeenAll(xs) == xs;
    } else {
      var k :| 0 <= k < |xs| && !Agrees(xs[k]);
      Disagreement(b, FIRST, xs, k);
    }
  }

  /** Integers alone never disturb the traversal: every element is visited, at its own offset. */
  lemma ForwardWalk(xs: seq<Elem>)
    requires ListFits(xs) && SizesAgree(xs)
    ensures var b := LpBytes(xs);
      Inside(b, LP_HEADER, FIRST)
      && LpElems(b, FIRST) == SeenAll(xs) && ForwardStarts(b, FIRST) == Starts(LP_HEADER, xs)
  {
    hide LpBytes, Entries, LpElems, ForwardStarts, Starts, LpNext, SizesAgree;
    HeaderRead(xs);
    ReadEntries(LpBytes(xs), FIRST, xs);
  }

  /** Three elements that are not read back. */
  lemma Examples(s: seq<Byte>)
    requires |s| == 0x1000
    ensures SeenInt(-1) == 4095 && SeenInt(0x8000) == -0x80_0000 && SeenLen(|s|) == 0x10_0000
    ensures !Agrees(Int(-1)) && !Agrees(Int(0x8000)) && !Agrees(Str(s))
  {
    TwoLe(0x8000);
    assert [0] + [0, 0x80] == [0, 0, 0x80];
    ThreeBytes(0, 0, 0x80);
    SignedIs(0x80_0000, -0x80_0000);
    FourBe(0x1000);
    FourBytes(0, 0, 0x10, 0);
  }

  /** A 13-bit code means its two's complement value (rdb.adoc:593-626). With a clear sign bit the reader finds that
      value x; with the sign bit set it finds 2 * p[1] - x - 2^32, which is another one. */
  lemma ThirteenBits(p: seq<Byte>)
    requires |p| >= 2 && 0xc0 <= p[0] <= 0xdf
    ensures LpCode(p[0]) == Lp13Int
    ensures var v := 256 * (p[0] as int - 0xc0) + p[1] as int;
      var x := if v >= 0x1000 then v - 0x2000 else v;
      LpVal(Lp13Int, p) == (if x >= 0 then x else 2 * p[1] as int - x - 0x1_0000_0000)
      && (LpVal(Lp13Int, p) == x <==> x >= 0)
  {
    var b := p[0] as int;
    assert b % 32 == b % 16 + 16 * (b / 16 % 2) && b % 32 == b - 0xc0;
  }

  /** A 24-bit code is read as it is documented, low byte first. */
  lemma TwentyFourBits(x: int, rest: seq<Byte>)
    requires -0x80_0000 <= x <= 0x7f_ffff
    ensures var p := [0xf2] + Le(Unsigned(x, 3), 3) + rest;
      LpCode(p[0]) == Lp24Int && LpVal(Lp24Int, p) == x
  {
    hide Le, FromLe, Signed, Unsigned, Pow256;
    ThreePower();
    WideRead(x, 3, 0xf2, rest);
  }

  lemma ThreePower()
    ensures Pow256(3) == 0x100_0000
  {}

  // ----- walking backward

  /** A back code read from its end, as rdb.adoc:575-590 describes it: bytes are taken from right to
      left while 0x80 is set. The value, and the number of bytes. */
  function ReadBack(s: seq<Byte>): (nat, nat) {
    if s == [] then (0, 0)
    else
      var b := s[|s| - 1];
      if b < 128 then (b, 1)
      else
        var r := ReadBack(s[..|s| - 1]);
        (128 * r.0 + b % 128, r.1 + 1)
  }

  /** Every size, written by encode_back, is read back from right to left in lpback_size bytes. */
  lemma {:induction false} BackRoundTrip(pre: seq<Byte>, x: nat)
    ensures ReadBack(pre + BackBytes(x)) == (x, LpBackSize(x))
    decreases x
  {
    var s := pre + BackBytes(x);
    if x < 128 {
      assert s[|s| - 1] == x;
    } else {
      assert s[|s| - 1] == 0x80 + x % 128;
      assert s[..|s| - 1] == pre + BackBytes(x / 128);
      BackRoundTrip(pre, x / 128);
    }
  }

  /** The start of the entry that ends at the end of s, found through its back code. */
  function BackEntry(s: seq<Byte>): (r: Option<nat>)
    ensures r.Some? ==> LP_HEADER <= r.value < |s|
  {
    var r := ReadBack(s);
    if |s| <= LP_HEADER || r.0 + r.1 == 0 || r.0 + r.1 > |s| - LP_HEADER then None else Some(|s| - r.1 - r.0)
  }

  /** From the end of s, the entries down to the header. */
  function BackwardStarts(s: seq<Byte>): seq<nat> {
    match BackEntry(s)
    case None => []
    case Some(k) => [k] + BackwardStarts(s[..k])
  }

  lemma BackUnfold(s: seq<Byte>, k: nat)
    requires BackEntry(s) == Some(k)
    ensures BackwardStarts(s) == [k] + BackwardStarts(s[..k])
  {
    hide BackEntry;
  }

  lemma BackOne(s: seq<Byte>, e: seq<Byte>, x: nat)
    requires |s| >= LP_HEADER && |e| == x > 0
    ensures BackwardStarts(s + (e + BackBytes(x))) == [|s|] + BackwardStarts(s)
  {
    hide ReadBack, BackBytes, LpBackSize, BackwardStarts;
    var t := s + (e + BackBytes(x));
    Regroup(s, e, BackBytes(x));
    BackRoundTrip(s + e, x);
    assert t[..|s|] == s;
    BackUnfold(t, |s|);
  }

  lemma {:induction false} BackwardEntries(h: seq<Byte>, xs: seq<Elem>)
    requires |h| == LP_HEADER && AllFit(xs)
    ensures BackwardStarts(h + Entries(xs)) == Reversed(Starts(LP_HEADER, xs))
    decreases |xs|
  {
    hide Entries, Starts, Reversed, ElemFits, Body, BackBytes, BackwardStarts;
    if xs == [] {
      EntriesNil(LP_HEADER);
      ReversedNone();
      NoneLeft(h);
      assert h + [] == h;
    } else {
      var x, ys := xs[|xs| - 1], xs[..|xs| - 1];
      assert ys + [x] == xs;
      Append(LP_HEADER, ys, x);
      Regroup(h, Entries(ys), Entry(x));
      BackOne(h + Entries(ys), Body(x), |Body(x)|);
      ReversedSnoc(Starts(LP_HEADER, ys), LP_HEADER + |Entries(ys)|);
      BackwardEntries(h, ys);
    }
  }

  lemma NoneLeft(h: seq<Byte>)
    requires |h| == LP_HEADER
    ensures BackwardStarts(h) == []
  {}

  /** Written listpacks, whatever they hold, are walked backward from the terminator through exactly
      the offsets the writer put the elements at; where sizes agree, next visits the same ones. */
  lemma BackwardWalk(xs: seq<Elem>)
    requires ListFits(xs)
    ensures var b := LpBytes(xs);
      |b| > 0 && BackwardStarts(b[..|b| - 1]) == Reversed(Starts(LP_HEADER, xs))
      && (SizesAgree(xs) ==>
            Inside(b, LP_HEADER, FIRST)
            && BackwardStarts(b[..|b| - 1]) == Reversed(ForwardStarts(b, FIRST)))
  {
    hide LpBytes, Entries, Starts, ForwardStarts, BackwardStarts, SizesAgree, Reversed, LpElems;
    var b := LpBytes(xs);
    HeaderRead(xs);
    var h := b[..LP_HEADER];
    assert b == h + b[LP_HEADER..];
    assert b[..|b| - 1] == h + Entries(xs);
    BackwardEntries(h, xs);
    if SizesAgree(xs) {
      ForwardWalk(xs);
    }
  }

  // ----- the class

  class RdbListPack {
    var lpbytes: nat
    var lplen: nat
    var mem: seq<Byte> // the memory from the head of the list on; data is at 6, end at lpbytes

    predicate Valid()
      reads this
    {
      7 <= lpbytes <= |mem|
    }

    function Bytes(): seq<Byte>
      reads this
      requires Valid()
    {
      mem[..lpbytes]
    }

    constructor () {
      lpbytes, lplen, mem := 0, 0, [];
    }

    /** The declared size is not compared with the buffer: Valid can fail although true is returned. */
    method Init(b: seq<Byte>) returns (ok: bool)
      modifies this
      ensures ok <==> !LpInit(b).Refused?
      ensures ok ==> (Valid() <==> LpInit(b).Opened?)
      ensures ok && Valid() ==> LpInit(b) == Opened(Pack(Bytes(), lplen))
    {
      if |b| < 6 {
        return false;
      }
      lpbytes, lplen := FromLe(b[..4]), FromLe(b[4..6]);
      mem := b;
      return lpbytes >= 7;
    }

    method First(lval: RdbListValue) returns (ok: bool)
      requires Valid()
      modifies lval
      ensures (ok, lval.View()) == LpNext(Bytes(), FIRST)
    {
      lval.entry, lval.entryLen, lval.data, lval.dataLen, lval.ival := LP_HEADER, 0, None, 0, 0;
      ok := Next(lval);
    }

    method Next(lval: RdbListValue) returns (ok: bool)
      requires Valid() && LP_HEADER <= lval.entry
      modifies lval
      ensures (ok, lval.View()) == LpNext(Bytes(), old(lval.View()))
    {
      hide LpVal, LpCode, LpBackSize;
      lval.entry := lval.entry + lval.entryLen;
      lval.entryLen := lpbytes; // too long, unless replaced below
      lval.data, lval.dataLen, lval.ival := None, 0, 0;
      if lval.entry < lpbytes {
        var n := LpCode(mem[lval.entry]);
        if n == LpEnd {
          return false;
        }
        var sz := LpSize(n);
        var next := lval.entry + sz;
        if next <= lpbytes {
          lval.ival := LpVal(n, Bytes()[lval.entry..]);
          if LpIsImmed(n) {
            lval.entryLen := sz;
          } else {
            StringLength(n, Bytes()[lval.entry..]);
            lval.entryLen, lval.data, lval.dataLen := sz + lval.ival, Some(next), lval.ival;
          }
          var back := LpBackSizeOf(lval.entryLen);
          lval.entryLen := lval.entryLen + back;
        }
      }
      return lval.entry + lval.entryLen <= lpbytes;
    }

    /** The loop of decode_quicklist_2 for list values: first, then next until false. */
    method Collect() returns (out: seq<Elem>)
      requires Valid()
      ensures out == LpElems(Bytes(), FIRST)
    {
      hide LpNext, ElemAt;
      var lval := new RdbListValue();
      out := [];
      var more := First(lval);
      ghost var v := FIRST;
      while more
        invariant Inside(Bytes(), LP_HEADER, v) && (more, lval.View()) == LpNext(Bytes(), v)
        invariant out + LpElems(Bytes(), v) == LpElems(Bytes(), FIRST)
        decreases lpbytes - EndOf(v)
      {
        v := lval.View();
        out := out + [ElemAt(Bytes(), lval.View())];
        more := Next(lval);
      }
    }
  }
}
