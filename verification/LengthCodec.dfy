/** The length header that precedes every RDB item: RdbLength (include/rdbparser/rdb_decode.h:105-204,
    src/rdb_decode.cpp:86-142) and RdbLenEncode (include/rdbparser/rdb_encode.h:9-102). */
module LengthCodec {
  import opened Bytes

  datatype LengthEnc = Len6 | Len14 | Len32 | Len64 | Lzf | Int8 | Int16 | Int32 | LenErr

  /** The code a header byte announces; the two top bits are b / 64. */
  function LengthEncoding(b: Byte): LengthEnc {
    if b / 64 == 0 then Len6
    else if b / 64 == 1 then Len14
    else if b / 64 == 2 then (if b == 0x80 then Len32 else if b == 0x81 then Len64 else LenErr)
    else if b == 0xc3 then Lzf
    else if b == 0xc0 then Int8
    else if b == 0xc1 then Int16
    else if b == 0xc2 then Int32
    else LenErr
  }

  /** LSIZE: the header bytes of a code that is not LZF. */
  function LenSize(e: LengthEnc): nat {
    match e
    case Len6 => 1
    case Len14 => 2
    case Len32 => 5
    case Len64 => 9
    case Lzf => 0
    case Int8 => 2
    case Int16 => 3
    case Int32 => 5
    case LenErr => 0
  }

  function StrCode(x: nat): LengthEnc {
    if x < 0x40 then Len6 else if x < 0x4000 then Len14 else if x < TWO32 then Len32 else Len64
  }

  function IntCode(x: int): LengthEnc {
    if -0x80 <= x <= 0x7f then Int8
    else if -0x8000 <= x <= 0x7fff then Int16
    else if -0x8000_0000 <= x <= 0x7fff_ffff then Int32
    else LenErr
  }

  /** The bytes of a length header. */
  function EncodeLen(x: nat): seq<Byte>
    requires x < TWO64
  {
    match StrCode(x)
    case Len6 => [x]
    case Len14 => [0x40 + x / 256, x % 256]
    case Len32 => [0x80] + Be(x, 4)
    case _ => [0x81] + Be(x, 8)
  }

  /** The bytes of an integer header; nothing is written for an integer of more than 32 bits. */
  function EncodeInt(x: int): seq<Byte> {
    match IntCode(x)
    case Int8 => [0xc0] + Le(Unsigned(x, 1), 1)
    case Int16 => [0xc1] + Le(Unsigned(x, 2), 2)
    case Int32 => [0xc2] + Le(Unsigned(x, 4), 4)
    case _ => []
  }

  /** A length-prefixed string. */
  function EncodeStr(s: seq<Byte>): seq<Byte>
    requires |s| < TWO64
  {
    EncodeLen(|s|) + s
  }

  /** A decoded header. torn is an observation of the model: the second size of an LZF header was no
      length code, which the decoder ignores. */
  datatype Length = Length(len: nat, zlen: nat, ival: int, isEnc: nat, isLzf: bool, torn: bool)

  const ZERO := Length(0, 0, 0, 0, false, false)

  const MAX_HDRLEN := 19

  /** decode_buf: the new fields, and the header size or -1. */
  function DecodeBuf(st: Length, b: seq<Byte>): (r: (Length, int))
    requires |b| >= if st.isLzf then 9 else MAX_HDRLEN
    ensures r.1 == -1 || 0 < r.1 <= (if st.isLzf then 9 else MAX_HDRLEN)
    decreases !st.isLzf
  {
    match LengthEncoding(b[0])
    case Len6 => (st.(len := b[0] as int % 64), 1)
    case Len14 => (st.(len := 256 * (b[0] as int % 64) + b[1] as int), 2)
    case Len32 => (st.(len := FromBe(b[1..5])), 5)
    case Len64 => (st.(len := FromBe(b[1..9])), 9)
    case Lzf =>
      if st.isLzf then (st, -1)
      else
        var first := DecodeBuf(st.(isLzf := true), b[1..]);
        if first.1 < 0 then first
        else
          var second := DecodeBuf(first.0.(zlen := first.0.len), b[first.1 + 1..]);
          if second.0.isEnc != 0 then (second.0, -1)
          else (second.0.(torn := second.0.torn || second.1 < 0), 1 + first.1 + second.1)
    case Int8 => (st.(isEnc := 1, ival := Signed(FromLe(b[1..2]), 1)), 2)
    case Int16 => (st.(isEnc := 2, ival := Signed(FromLe(b[1..3]), 2)), 3)
    case Int32 => (st.(isEnc := 4, ival := Signed(FromLe(b[1..5]), 4)), 5)
    case LenErr => (st, -1)
  }

  // ----- what a decoded header depends on

  /** The bytes that decide a header: those it takes up, and two more when it is torn. */
  function Examined(r: (Length, int)): int {
    if r.0.torn then r.1 + 2 else r.1
  }

  lemma DecodeCode(st: Length, b: seq<Byte>, c: seq<Byte>)
    requires |b| >= 9 && |c| >= 9 && st.isLzf
    requires var r := DecodeBuf(st, b); r.1 >= 0 ==> b[..r.1] == c[..r.1]
    requires b[0] == c[0]
    ensures DecodeBuf(st, b) == DecodeBuf(st, c)
  {
    hide FromBe, FromLe, Signed;
    var n := DecodeBuf(st, b).1;
    if n >= 2 {
      Prefixes(b, c, n, 1, n);
      assert b[1] == b[1..n][0] && c[1] == c[1..n][0];
    }
  }

  lemma ExaminedBound(st: Length, b: seq<Byte>)
    requires |b| >= MAX_HDRLEN && !st.torn
    ensures Examined(DecodeBuf(st, b)) <= MAX_HDRLEN
  {
    if LengthEncoding(b[0]) == Lzf && !st.isLzf {
      CodeNotTorn(st.(isLzf := true), b[1..]);
    }
  }

  lemma CodeNotTorn(st: Length, b: seq<Byte>)
    requires |b| >= 9 && st.isLzf
    ensures DecodeBuf(st, b).0.torn == st.torn
  {}

  lemma Prefixes(b: seq<Byte>, c: seq<Byte>, n: nat, i: nat, j: nat)
    requires i <= j <= n <= |b| && n <= |c| && b[..n] == c[..n]
    ensures b[i..j] == c[i..j] && b[i..][..j - i] == c[i..][..j - i]
  {
    assert b[i..j] == b[..n][i..j] && c[i..j] == c[..n][i..j];
    assert b[i..][..j - i] == b[i..j] && c[i..][..j - i] == c[i..j];
  }

  /** Bytes behind the header do not matter, except for the two that a torn header looks at. */
  lemma DecodeLocal(st: Length, b: seq<Byte>, c: seq<Byte>)
    requires |b| >= MAX_HDRLEN && |c| >= MAX_HDRLEN && !st.torn
    requires var r := DecodeBuf(st, b);
      0 < r.1 && Examined(r) <= MAX_HDRLEN && b[..Examined(r)] == c[..Examined(r)]
    ensures DecodeBuf(st, b) == DecodeBuf(st, c)
  {
    var n := Examined(DecodeBuf(st, b));
    Prefixes(b, c, n, 0, 1);
    assert b[0] == b[0..1][0] && c[0] == c[0..1][0];
    if LengthEncoding(b[0]) == Lzf && !st.isLzf {
      DecodeLocalLzf(st, b, c, n);
    } else {
      DecodePlain(st, b, c, n);
    }
  }

  lemma DecodePlain(st: Length, b: seq<Byte>, c: seq<Byte>, n: nat)
    requires |b| >= MAX_HDRLEN && |c| >= MAX_HDRLEN && !st.torn
    requires LengthEncoding(b[0]) != Lzf && b[0] == c[0]
    requires n == DecodeBuf(st, b).1 && b[..n] == c[..n]
    ensures DecodeBuf(st, b) == DecodeBuf(st, c)
  {
    Prefixes(b, c, n, 1, n);
    if n > 1 {
      assert b[1] == b[1..n][0] && c[1] == c[1..n][0];
    }
  }

  lemma DecodeLocalLzf(st: Length, b: seq<Byte>, c: seq<Byte>, n: nat)
    requires |b| >= MAX_HDRLEN && |c| >= MAX_HDRLEN && !st.torn && !st.isLzf
    requires LengthEncoding(b[0]) == Lzf && b[0] == c[0]
    requires DecodeBuf(st, b).1 > 0 && n == Examined(DecodeBuf(st, b)) <= MAX_HDRLEN && b[..n] == c[..n]
    ensures DecodeBuf(st, b) == DecodeBuf(st, c)
  {
    var st1 := st.(isLzf := true);
    var first := DecodeBuf(st1, b[1..]);
    CodeNotTorn(st1, b[1..]);
    var k := first.1 + 1;
    var st2 := first.0.(zlen := first.0.len);
    var second := DecodeBuf(st2, b[k..]);
    CodeNotTorn(st2, b[k..]);
    Prefixes(b, c, n, 1, k);
    Prefixes(b, c, n, k, k + 1);
    assert b[k] == b[k..k + 1][0] && c[k] == c[k..k + 1][0];
    assert b[1] == b[1..k][0] && c[1] == c[1..k][0];
    if second.1 >= 0 {
      Prefixes(b, c, n, k, k + second.1);
    }
    hide DecodeBuf, LengthEncoding;
    DecodeCode(st1, b[1..], c[1..]);
    DecodeCode(st2, b[k..], c[k..]);
    LzfUnfold(st, b, first, second);
    LzfUnfold(st, c, first, second);
  }

  lemma LzfUnfold(st: Length, b: seq<Byte>, first: (Length, int), second: (Length, int))
    requires |b| >= MAX_HDRLEN && !st.isLzf && LengthEncoding(b[0]) == Lzf
    requires DecodeBuf(st.(isLzf := true), b[1..]) == first && 0 < first.1 <= 9
    requires first.0.isLzf && DecodeBuf(first.0.(zlen := first.0.len), b[first.1 + 1..]) == second
    ensures DecodeBuf(st, b) ==
      if second.0.isEnc != 0 then (second.0, -1)
      else (second.0.(torn := second.0.torn || second.1 < 0), 1 + first.1 + second.1)
  {}

  // ----- round trips, and no code is shorter

  /** A length is read back; other fields keep what an earlier header has left in them. */
  lemma LenRoundTrip(st: Length, x: nat, rest: seq<Byte>)
    requires x < TWO64 && |EncodeLen(x) + rest| >= if st.isLzf then 9 else MAX_HDRLEN
    ensures DecodeBuf(st, EncodeLen(x) + rest) == (st.(len := x), |EncodeLen(x)|)
    ensures |EncodeLen(x)| == LenSize(StrCode(x))
  {
    var b := EncodeLen(x) + rest;
    if x < 0x4000 {
    } else if x < TWO32 {
      assert b[1..5] == Be(x, 4);
      BeRoundTrip(x, 4);
    } else {
      assert b[1..9] == Be(x, 8);
      BeRoundTrip(x, 8);
    }
  }

  lemma IntRoundTrip(x: int, rest: seq<Byte>)
    requires -0x8000_0000 <= x <= 0x7fff_ffff && |EncodeInt(x) + rest| >= MAX_HDRLEN
    ensures var r := DecodeBuf(ZERO, EncodeInt(x) + rest);
      r.0.isEnc != 0 && !r.0.isLzf && r.0.ival == x && r.1 == |EncodeInt(x)|
    ensures |EncodeInt(x)| == LenSize(IntCode(x))
  {
    var b := EncodeInt(x) + rest;
    var n := |EncodeInt(x)| - 1;
    assert b[1..1 + n] == Le(Unsigned(x, n), n);
    LeRoundTrip(Unsigned(x, n), n);
    SignedRoundTrip(x, n);
  }

  /** An LZF header: both sizes are read back. */
  lemma LzfRoundTrip(z: nat, n: nat, rest: seq<Byte>)
    requires z < TWO64 && n < TWO64 && |[0xc3] + EncodeLen(z) + EncodeLen(n) + rest| >= MAX_HDRLEN
    ensures DecodeBuf(ZERO, [0xc3] + EncodeLen(z) + EncodeLen(n) + rest)
         == (Length(n, z, 0, 0, true, false), 1 + |EncodeLen(z)| + |EncodeLen(n)|)
    ensures 1 + |EncodeLen(z)| + |EncodeLen(n)| <= MAX_HDRLEN
  {
    hide EncodeLen, DecodeBuf;
    var b := [0xc3] + EncodeLen(z) + EncodeLen(n) + rest;
    EncodedSize(z);
    EncodedSize(n);
    var st1 := ZERO.(isLzf := true);
    assert b[1..] == EncodeLen(z) + (EncodeLen(n) + rest);
    LenRoundTrip(st1, z, EncodeLen(n) + rest);
    var k := |EncodeLen(z)|;
    assert b[k + 1..] == EncodeLen(n) + rest;
    LenRoundTrip(st1.(len := z, zlen := z), n, rest);
    LzfUnfold(ZERO, b, (st1.(len := z), k), (st1.(len := n, zlen := z), |EncodeLen(n)|));
  }

  /** A header that is decoded over an earlier one fails, although it is good by itself, if and only if it
      is an LZF header and the earlier one was one or was an integer. */
  lemma KeptFlags(st: Length, b: seq<Byte>)
    requires |b| >= MAX_HDRLEN && DecodeBuf(ZERO, b).1 > 0
    ensures DecodeBuf(st, b).1 < 0 <==> LengthEncoding(b[0]) == Lzf && (st.isLzf || st.isEnc != 0)
  {
    hide DecodeBuf, LengthEncoding, LenSize;
    if LengthEncoding(b[0]) != Lzf || st.isLzf {
      OneCode(st, b);
      if LengthEncoding(b[0]) != Lzf {
        OneCode(ZERO, b);
      }
    } else {
      FirstPart(b);
      OneCode(ZERO.(isLzf := true), b[1..]);
      FlagsOfLzf(ZERO, b);
      FlagsOfLzf(st, b);
    }
  }

  /** The size of a header without parts, and what it does to the flags. */
  lemma OneCode(st: Length, b: seq<Byte>)
    requires |b| >= (if st.isLzf then 9 else MAX_HDRLEN) && (LengthEncoding(b[0]) != Lzf || st.isLzf)
    ensures var e, r := LengthEncoding(b[0]), DecodeBuf(st, b);
      r.1 == (if e in {LenErr, Lzf} then -1 else LenSize(e)) && r.0.isLzf == st.isLzf
      && r.0.isEnc == (if e == Int8 then 1 else if e == Int16 then 2 else if e == Int32 then 4 else st.isEnc)
  {
    hide FromBe, FromLe, Signed, LengthEncoding;
  }

  lemma FirstPart(b: seq<Byte>)
    requires |b| >= MAX_HDRLEN && LengthEncoding(b[0]) == Lzf && DecodeBuf(ZERO, b).1 > 0
    ensures DecodeBuf(ZERO.(isLzf := true), b[1..]).1 > 0
  {
    hide FromBe, FromLe, Signed, LengthEncoding;
  }

  /** An LZF header whose first part is good: its size, and when it is refused. */
  lemma FlagsOfLzf(st: Length, b: seq<Byte>)
    requires |b| >= MAX_HDRLEN && LengthEncoding(b[0]) == Lzf && !st.isLzf
    requires LengthEncoding(b[1]) !in {LenErr, Lzf}
    ensures var e := LengthEncoding(b[1]);
      LenSize(e) <= 9
      && var f := LengthEncoding(b[LenSize(e) + 1]);
         DecodeBuf(st, b).1 == if st.isEnc != 0 || e in {Int8, Int16, Int32} || f in {Int8, Int16, Int32} then -1
                               else 1 + LenSize(e) + (if f in {LenErr, Lzf} then -1 else LenSize(f))
  {
    hide DecodeBuf, LengthEncoding;
    var st1 := st.(isLzf := true);
    OneCode(st1, b[1..]);
    var first := DecodeBuf(st1, b[1..]);
    var st2 := first.0.(zlen := first.0.len);
    OneCode(st2, b[first.1 + 1..]);
    LzfUnfold(st, b, first, DecodeBuf(st2, b[first.1 + 1..]));
  }

  /** No header of a plain length x is shorter than the one the encoder chooses. */
  lemma LenShortest(x: nat, b: seq<Byte>)
    requires x < TWO64 && |b| >= MAX_HDRLEN
    requires var r := DecodeBuf(ZERO, b); r.1 > 0 && r.0 == ZERO.(len := x)
    ensures |EncodeLen(x)| <= DecodeBuf(ZERO, b).1
  {
    EncodedSize(x);
    hide EncodeLen, FromBe;
    if LengthEncoding(b[0]) == Lzf {
      CodeKeepsLzf(ZERO.(isLzf := true), b[1..]);
    } else if LengthEncoding(b[0]) == Len32 {
      FromBeBound(b[1..5]);
      assert Pow256(4) == TWO32;
    }
  }

  lemma EncodedSize(x: nat)
    requires x < TWO64
    ensures |EncodeLen(x)| == if x < 0x40 then 1 else if x < 0x4000 then 2 else if x < TWO32 then 5 else 9
  {}

  lemma CodeKeepsLzf(st: Length, b: seq<Byte>)
    requires |b| >= 9 && st.isLzf
    ensures DecodeBuf(st, b).0.isLzf
    ensures DecodeBuf(st, b).1 > 0 ==> forall c: seq<Byte>, z: nat | |c| >= 9 ::
      DecodeBuf(DecodeBuf(st, b).0.(zlen := z), c).0.isLzf
  {}

  lemma SignedRange(u: nat, n: nat)
    requires n in {1, 2, 4} && u < Pow256(n)
    ensures |EncodeInt(Signed(u, n))| <= n + 1
  {}

  lemma IntegerHeader(b: seq<Byte>)
    requires |b| >= MAX_HDRLEN
    requires var r := DecodeBuf(ZERO, b); r.1 > 0 && r.0.isEnc != 0
    ensures var r := DecodeBuf(ZERO, b);
      var n := r.1 - 1;
      n in {1, 2, 4} && r.0.ival == Signed(FromLe(b[1..1 + n]), n)
  {
    hide DecodeBuf, LengthEncoding;
    if LengthEncoding(b[0]) == Lzf {
      LzfNoInteger(b);
    } else {
      PlainInteger(b);
    }
  }

  lemma LzfNoInteger(b: seq<Byte>)
    requires |b| >= MAX_HDRLEN && LengthEncoding(b[0]) == Lzf
    ensures DecodeBuf(ZERO, b).1 <= 0 || DecodeBuf(ZERO, b).0.isEnc == 0
  {
    hide FromBe, FromLe, Signed, LengthEncoding;
  }

  lemma PlainInteger(b: seq<Byte>)
    requires |b| >= MAX_HDRLEN && LengthEncoding(b[0]) != Lzf && DecodeBuf(ZERO, b).0.isEnc != 0
    ensures var r := DecodeBuf(ZERO, b);
      var n := r.1 - 1;
      n in {1, 2, 4} && r.0.ival == Signed(FromLe(b[1..1 + n]), n)
  {
    hide FromBe, FromLe, Signed, LengthEncoding;
  }

  /** No header of an integer is shorter than the one the encoder chooses. */
  lemma IntShortest(x: int, b: seq<Byte>)
    requires |b| >= MAX_HDRLEN
    requires var r := DecodeBuf(ZERO, b); r.1 > 0 && r.0.isEnc != 0 && r.0.ival == x
    ensures |EncodeInt(x)| <= DecodeBuf(ZERO, b).1
  {
    hide FromBe, FromLe, Signed, EncodeInt, DecodeBuf, LengthEncoding;
    IntegerHeader(b);
    var n := DecodeBuf(ZERO, b).1 - 1;
    FromLeBound(b[1..1 + n]);
    SignedRange(FromLe(b[1..1 + n]), n);
  }

  // ----- the classes

  /** RdbLength: the decoder writes its fields one by one. */
  class RdbLength {
    var len: nat
    var zlen: nat
    var ival: int
    var isEnc: nat
    var isLzf: bool
    ghost var torn: bool

    ghost function View(): Length
      reads this
    {
      Length(len, zlen, ival, isEnc, isLzf, torn)
    }

    constructor ()
      ensures View() == ZERO
    {
      len, zlen, ival, isEnc, isLzf, torn := 0, 0, 0, 0, false, false;
    }

    method Zero()
      modifies this
      ensures View() == ZERO
    {
      len, zlen, ival, isEnc, isLzf, torn := 0, 0, 0, 0, false, false;
    }

    method DecodeBuffer(b: seq<Byte>) returns (sz: int)
      requires |b| >= if isLzf then 9 else MAX_HDRLEN
      modifies this
      ensures (View(), sz) == DecodeBuf(old(View()), b)
      decreases !isLzf, 1
    {
      hide FromBe, FromLe, Signed, LengthEncoding;
      match LengthEncoding(b[0])
      case Len6 =>
        len := b[0] as int % 64;
        return 1;
      case Len14 =>
        len := 256 * (b[0] as int % 64) + b[1] as int;
        return 2;
      case Len32 =>
        len := FromBe(b[1..5]);
        return 5;
      case Len64 =>
        len := FromBe(b[1..9]);
        return 9;
      case Lzf =>
        sz := DecodeLzf(b);
      case Int8 =>
        isEnc, ival := 1, Signed(FromLe(b[1..2]), 1);
        return 2;
      case Int16 =>
        isEnc, ival := 2, Signed(FromLe(b[1..3]), 2);
        return 3;
      case Int32 =>
        isEnc, ival := 4, Signed(FromLe(b[1..5]), 4);
        return 5;
      case LenErr =>
        return -1;
    }

    method DecodeLzf(b: seq<Byte>) returns (sz: int)
      requires |b| >= (if isLzf then 9 else MAX_HDRLEN) && LengthEncoding(b[0]) == Lzf
      modifies this
      ensures (View(), sz) == DecodeBuf(old(View()), b)
      decreases !isLzf, 0
    {
      hide FromBe, FromLe, Signed, LengthEncoding;
      if isLzf {
        return -1;
      }
      isLzf := true;
      sz := DecodeBuffer(b[1..]); // the compressed size
      if sz < 0 {
        return;
      }
      zlen := len;
      var sz2 := DecodeBuffer(b[sz + 1..]); // the uncompressed size, not checked for -1
      if isEnc != 0 {
        return -1;
      }
      torn := torn || sz2 < 0;
      return 1 + sz + sz2;
    }
  }

  /** RdbLenEncode: a code and a 64-bit value, chosen by a sizing call and then written. */
  class RdbLenEncode {
    var lcode: LengthEnc
    var len: nat // the union of len and ival, as unsigned

    function Ival(): int
      reads this
    {
      Signed(len, 8)
    }

    /** The code was chosen for the value. */
    ghost predicate Chosen()
      reads this
    {
      len < TWO64
      && match lcode
         case Len6 => len < 0x40
         case Len14 => len < 0x4000
         case Len32 => len < TWO32
         case _ => true
    }

    /** What len_encode puts into the buffer: nothing unless the code is a length. */
    ghost function PendingLen(): seq<Byte>
      reads this
      requires Chosen()
    {
      match lcode
      case Len6 => [len]
      case Len14 => [0x40 + len / 256, len % 256]
      case Len32 => [0x80] + Be(len, 4)
      case Len64 => [0x81] + Be(len, 8)
      case _ => []
    }

    /** What int_encode puts into the buffer: nothing unless the code is an integer. */
    ghost function PendingInt(): seq<Byte>
      reads this
      requires Chosen()
    {
      match lcode
      case Int8 => [0xc0] + Le(len % 256, 1)
      case Int16 => [0xc1] + Le(len % 0x1_0000, 2)
      case Int32 => [0xc2] + Le(len % TWO32, 4)
      case _ => []
    }

    constructor Init()
      ensures Chosen() && lcode == LenErr
    {
      lcode, len := LenErr, 0;
    }

    method LenSizeOf(x: nat) returns (sz: nat)
      requires x < TWO64
      modifies this
      ensures Chosen() && PendingLen() == EncodeLen(x) && len == x && lcode == StrCode(x)
      ensures sz == |EncodeLen(x)|
    {
      len, lcode := x, StrCode(x);
      sz := LenSize(lcode);
    }

    /** The bytes that a string of x bytes takes up, header included. */
    method StrSizeOf(x: nat) returns (sz: nat)
      requires x < TWO64
      modifies this
      ensures Chosen() && PendingLen() == EncodeLen(x) && len == x && lcode == StrCode(x)
      ensures forall s: seq<Byte> | |s| == x :: sz == |EncodeStr(s)|
    {
      var n := LenSizeOf(x);
      sz := n + x;
    }

    /** int_size; the size is known for integers that some code can hold. */
    method IntSizeOf(x: int) returns (sz: nat)
      requires -0x8000_0000_0000_0000 <= x < 0x8000_0000_0000_0000
      modifies this
      ensures Chosen() && PendingInt() == EncodeInt(x) && Ival() == x && lcode == IntCode(x)
      ensures lcode != LenErr ==> sz == |EncodeInt(x)|
    {
      len, lcode := Unsigned(x, 8), IntCode(x);
      SignedRoundTrip(x, 8);
      LowBytes(x);
      sz := LenSize(lcode);
    }

    /** len_encode( p ). */
    method LenEncode(p: array<Byte>, at: nat) returns (n: nat)
      requires Chosen() && at + |PendingLen()| <= p.Length
      modifies p
      ensures n == |PendingLen()| && p[..] == Splice(old(p[..]), at, PendingLen())
    {
      match lcode
      case Len6 =>
        Store(p, at, [len]);
        return 1;
      case Len14 =>
        Store(p, at, [0x40 + len / 256, len % 256]);
        return 2;
      case Len32 =>
        Store(p, at, [0x80] + Be(len, 4));
        return 5;
      case Len64 =>
        Store(p, at, [0x81] + Be(len, 8));
        return 9;
      case _ =>
        return 0;
    }

    /** len_encode( p, x ). */
    method LenEncodeOf(p: array<Byte>, at: nat, x: nat) returns (n: nat)
      requires x < TWO64 && at + |EncodeLen(x)| <= p.Length
      modifies this, p
      ensures n == |EncodeLen(x)| && p[..] == Splice(old(p[..]), at, EncodeLen(x))
    {
      var _ := LenSizeOf(x);
      n := LenEncode(p, at);
    }

    /** str_encode with one buffer; the length was set by a sizing call. */
    method StrEncode(p: array<Byte>, at: nat, data: seq<Byte>) returns (n: nat)
      requires Chosen() && len == |data| && lcode == StrCode(len)
      requires at + |EncodeStr(data)| <= p.Length
      modifies p
      ensures n == |EncodeStr(data)| && p[..] == Splice(old(p[..]), at, EncodeStr(data))
    {
      assert PendingLen() == EncodeLen(len);
      hide EncodeLen, PendingLen;
      ghost var was := p[..];
      var sz := LenEncode(p, at);
      Store(p, at + sz, data);
      SpliceTwice(was, at, EncodeLen(len), data);
      n := sz + len;
    }

    /** str_encode with two buffers writes the concatenation. */
    method StrEncodeTwo(p: array<Byte>, at: nat, data: seq<Byte>, data2: seq<Byte>) returns (n: nat)
      requires |data| + |data2| < TWO64 && at + |EncodeStr(data + data2)| <= p.Length
      modifies this, p
      ensures n == |EncodeStr(data + data2)| && p[..] == Splice(old(p[..]), at, EncodeStr(data + data2))
    {
      hide *;
      ghost var was, head := p[..], EncodeLen(|data| + |data2|);
      EncodeStrIs(data + data2);
      var off := LenEncodeOf(p, at, |data| + |data2|);
      SpliceTwice(was, at, head, data + data2);
      StoreTwo(p, at + off, data, data2);
      n := off + |data| + |data2|;
    }

    method IntEncode(p: array<Byte>, at: nat) returns (n: nat)
      requires Chosen() && at + |PendingInt()| <= p.Length
      modifies p
      ensures n == |PendingInt()| && p[..] == Splice(old(p[..]), at, PendingInt())
    {
      match lcode
      case Int8 =>
        Store(p, at, [0xc0] + Le(len % 256, 1));
        return 2;
      case Int16 =>
        Store(p, at, [0xc1] + Le(len % 0x1_0000, 2));
        return 3;
      case Int32 =>
        Store(p, at, [0xc2] + Le(len % TWO32, 4));
        return 5;
      case _ =>
        return 0;
    }
  }

  lemma EncodeStrIs(s: seq<Byte>)
    requires |s| < TWO64
    ensures EncodeStr(s) == EncodeLen(|s|) + s
  {}

  /** The low bytes of a 64-bit two's complement number are those of the shorter casts. */
  lemma LowBytes(x: int)
    ensures Unsigned(x, 8) % 256 == Unsigned(x, 1)
    ensures Unsigned(x, 8) % 0x1_0000 == Unsigned(x, 2)
    ensures Unsigned(x, 8) % TWO32 == Unsigned(x, 4)
    ensures Unsigned(x, 8) < TWO64
  {
    ModMod(x, 256, 0x100_0000_0000_0000);
    ModMod(x, 0x1_0000, 0x1_0000_0000_0000);
    ModMod(x, TWO32, TWO32);
  }

  lemma ModMod(x: int, m: nat, k: nat)
    requires m > 0 && k > 0
    ensures m * k > 0 && (x % (m * k)) % m == x % m
  {
    assert m * k > 0;
    var q, r := x / (m * k), x % (m * k);
    assert q * (m * k) == (q * k) * m;
    UniqueMod(x, m, q * k + r / m, r % m);
  }
}
