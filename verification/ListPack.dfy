/** The listpack: its format and the writer RdbListPackEncode
    (include/rdbparser/rdb_encode.h:212-352; the codes are in include/rdbparser/rdb_decode.h:390-498). */
module ListPack {
  import opened Bytes
  import opened ListValue

  // ----- the link codes

  datatype ListPackEnc =
    | Lp7Uint | Lp6Str | Lp13Int | Lp12Str | Lp32Str | Lp16Int | Lp24Int | Lp32Int | Lp64Int | LpEnd | LpUnused

  predicate LpIsImmed(e: ListPackEnc) {
    e !in {Lp6Str, Lp12Str, Lp32Str}
  }

  function LpSize(e: ListPackEnc): nat {
    match e
    case Lp7Uint => 1
    case Lp6Str => 1
    case Lp13Int => 2
    case Lp12Str => 2
    case Lp32Str => 5
    case Lp16Int => 3
    case Lp24Int => 4
    case Lp32Int => 5
    case Lp64Int => 9
    case LpEnd => 1
    case LpUnused => 0
  }

  function LpNextStrCode(x: nat): ListPackEnc {
    if x < 0x40 then Lp6Str else if x < 0x1000 then Lp12Str else if x < TWO32 then Lp32Str else LpEnd
  }

  function LpNextImmCode(x: int): ListPackEnc {
    if 0 <= x <= 0x7f then Lp7Uint
    else if -0x1000 <= x <= 0xfff then Lp13Int
    else if -0x8000 <= x <= 0x7fff then Lp16Int
    else if -0x80_0000 <= x <= 0x7f_ffff then Lp24Int
    else if -0x8000_0000 <= x <= 0x7fff_ffff then Lp32Int
    else Lp64Int
  }

  function LpCode(b: Byte): ListPackEnc {
    if b / 16 < 8 then Lp7Uint
    else if b / 16 < 12 then Lp6Str
    else if b / 16 < 14 then Lp13Int
    else if b / 16 == 14 then Lp12Str
    else if b == 0xf0 then Lp32Str
    else if b == 0xf1 then Lp16Int
    else if b == 0xf2 then Lp24Int
    else if b == 0xf3 then Lp32Int
    else if b == 0xf4 then Lp64Int
    else if b == 0xff then LpEnd
    else LpUnused
  }

  /** s13: with the sign bit set the low bits are subtracted instead of added. */
  function S13(p: seq<Byte>): int
    requires |p| >= 2
  {
    if p[0] as int / 16 % 2 == 1 then 256 * (16 - p[0] as int % 16) + p[1] as int - TWO32
    else 256 * (p[0] as int % 32) + p[1] as int
  }

  function LpVal(e: ListPackEnc, p: seq<Byte>): int
    requires |p| >= LpSize(e)
  {
    match e
    case Lp7Uint => p[0] as int % 128
    case Lp6Str => p[0] as int % 64
    case Lp13Int => S13(p)
    case Lp12Str => 256 * (p[0] as int % 16) + p[1] as int
    case Lp32Str => FromLe(p[1..5])
    case Lp16Int => Signed(FromLe(p[1..3]), 2)
    case Lp24Int => Signed(FromLe(p[1..4]), 3)
    case Lp32Int => Signed(FromLe(p[1..5]), 4)
    case Lp64Int => Signed(FromLe(p[1..9]), 8)
    case LpEnd => 0
    case LpUnused => 0
  }

  // ----- the format

  /** The bytes of the code for a string of n bytes. */
  function StrHead(n: nat): (r: seq<Byte>)
    requires n < TWO32
    ensures |r| == LpSize(LpNextStrCode(n))
  {
    if n < 0x40 then [0x80 + n]
    else if n < 0x1000 then [0xe0 + n / 256, n % 256]
    else [0xf0] + Be(n, 4)
  }

  predicate IsInt64(x: int) { -0x8000_0000_0000_0000 <= x < 0x8000_0000_0000_0000 }

  /** The bytes of an immediate integer: the 13-bit form has no room left for the sign, and the 24-bit
      form has its high byte first. */
  function ImmBytes(x: int): (r: seq<Byte>)
    ensures |r| == LpSize(LpNextImmCode(x))
  {
    var e := LpNextImmCode(x);
    if e == Lp7Uint then [x % 256]
    else if e == Lp13Int then [0xc0 + (x / 256) % 16, x % 256]
    else if e == Lp16Int then [0xf1] + Le(Unsigned(x, 2), 2)
    else if e == Lp24Int then [0xf2, (x / 0x1_0000) % 256] + Le(Unsigned(x, 2), 2)
    else if e == Lp32Int then [0xf3] + Le(Unsigned(x, 4), 4)
    else [0xf4] + Le(Unsigned(x, 8), 8)
  }

  /** lpback_size: how many groups of seven bits. */
  function LpBackSize(x: nat): nat {
    if x < 128 then 1 else 1 + LpBackSize(x / 128)
  }

  /** The back code: the groups, all but the first marked. */
  function BackBytes(x: nat): (r: seq<Byte>)
    ensures |r| == LpBackSize(x) > 0
  {
    if x < 128 then [x] else BackBytes(x / 128) + [0x80 + x % 128]
  }

  predicate ElemFits(x: Elem) {
    match x
    case Str(s) => |s| < TWO32 - 5
    case Int(i) => IsInt64(i)
  }

  /** An element without its back code. */
  function Body(x: Elem): (r: seq<Byte>)
    requires ElemFits(x)
    ensures r != []
  {
    match x
    case Str(s) => StrHead(|s|) + s
    case Int(i) => ImmBytes(i)
  }

  function Entry(x: Elem): seq<Byte>
    requires ElemFits(x)
  {
    Body(x) + BackBytes(|Body(x)|)
  }

  predicate AllFit(xs: seq<Elem>) {
    forall x | x in xs :: ElemFits(x)
  }

  function Entries(xs: seq<Elem>): seq<Byte>
    requires AllFit(xs)
  {
    if xs == [] then [] else Entry(xs[0]) + Entries(xs[1..])
  }

  /** The offsets of the elements, the first one at at. */
  function Starts(at: nat, xs: seq<Elem>): seq<nat>
    requires AllFit(xs)
    decreases xs
  {
    if xs == [] then [] else [at] + Starts(at + |Entry(xs[0])|, xs[1..])
  }

  const LP_HEADER := 6

  predicate ListFits(xs: seq<Elem>) {
    AllFit(xs) && 7 + |Entries(xs)| < TWO32
  }

  function LpBytes(xs: seq<Elem>): seq<Byte>
    requires ListFits(xs)
  {
    Le(7 + |Entries(xs)|, 4) + Le(if |xs| <= 0xffff then |xs| else 0xffff, 2) + Entries(xs) + [0xff]
  }

  /** The format, one element at a time. */
  lemma EntriesCons(at: nat, x: Elem, xs: seq<Elem>)
    requires AllFit([x] + xs)
    ensures ElemFits(x) && AllFit(xs)
    ensures Entries([x] + xs) == Entry(x) + Entries(xs)
    ensures Starts(at, [x] + xs) == [at] + Starts(at + |Entry(x)|, xs)
  {
    hide Entry, ElemFits;
    var all := [x] + xs;
    assert all[0] == x && all[1..] == xs;
    assert x in all && forall y | y in xs :: y in all;
  }

  lemma EntriesNil(at: nat)
    ensures AllFit([]) && Entries([]) == [] && Starts(at, []) == []
  {}

  lemma {:induction false} Append(at: nat, xs: seq<Elem>, x: Elem)
    requires AllFit(xs) && ElemFits(x)
    ensures AllFit(xs + [x]) && Entries(xs + [x]) == Entries(xs) + Entry(x)
    ensures Starts(at, xs + [x]) == Starts(at, xs) + [at + |Entries(xs)|]
    decreases xs
  {
    hide Entry, ElemFits, Entries, Starts;
    EntriesNil(at);
    if xs == [] {
      EntriesNil(at + |Entry(x)|);
      EntriesCons(at, x, []);
      assert [x] + [] == [] + [x];
    } else {
      var y, ys := xs[0], xs[1..];
      assert [y] + ys == xs && [y] + (ys + [x]) == xs + [x];
      EntriesCons(at, y, ys);
      Append(at + |Entry(y)|, ys, x);
      EntriesCons(at, y, ys + [x]);
    }
  }

  /** The sizing pass, one element further. */
  lemma CountMore(xs: seq<Elem>, x: Elem)
    requires AllFit(xs) && ElemFits(x)
    ensures AllFit(xs + [x])
    ensures ((LP_HEADER + |Entries(xs)|) % TWO32 + |Entry(x)|) % TWO32 == (LP_HEADER + |Entries(xs + [x])|) % TWO32
    ensures (|xs| % TWO32 + 1) % TWO32 == |xs + [x]| % TWO32
  {
    hide Entries, Entry, AllFit, ElemFits;
    Append(0, xs, x);
    ModAdd(LP_HEADER + |Entries(xs)|, |Entry(x)|, TWO32);
    ModAdd(|xs|, 1, TWO32);
  }

  lemma AppendFits(xs: seq<Elem>, x: Elem)
    requires ListFits(xs + [x])
    ensures ListFits(xs) && ElemFits(x) && |Entries(xs + [x])| == |Entries(xs)| + |Entry(x)|
    ensures Entries(xs + [x]) == Entries(xs) + Entry(x)
  {
    hide Entry, Entries, ElemFits;
    assert forall y | y in xs :: y in xs + [x];
    assert x in xs + [x];
    Append(0, xs, x);
  }

  // ----- the writer

  /** lpback_size, as a loop. */
  method LpBackSizeOf(val: nat) returns (i: nat)
    ensures i == LpBackSize(val)
  {
    i := 1;
    var x := val;
    while x >= 128
      invariant i + LpBackSize(x) == 1 + LpBackSize(val)
    {
      i := i + 1;
      x := x / 128;
    }
  }

  lemma SpliceFront(s: seq<Byte>, off: nat, b: Byte, t: seq<Byte>)
    requires 0 < off && off + |t| <= |s|
    ensures Splice(Splice(s, off, t), off - 1, [b]) == Splice(s, off - 1, [b] + t)
  {
    assert Splice(s, off, t)[off..] == t + s[off + |t|..];
    assert Splice(s, off, t)[..off - 1] == s[..off - 1];
  }

  /** The groups of x behind those of val are in place, the last one before end. */
  ghost predicate BackDone(x: nat, val: nat, was: seq<Byte>, end: nat, now: seq<Byte>) {
    var n, k := LpBackSize(x), LpBackSize(val);
    k <= n <= end <= |was| && BackBytes(val) == BackBytes(x)[..k]
    && now == Splice(was, end - (n - k), BackBytes(x)[k..])
  }

  lemma BackStart(x: nat, was: seq<Byte>, end: nat)
    requires LpBackSize(x) <= end <= |was|
    ensures BackDone(x, x, was, end, was) && 1 <= LpBackSize(x)
  {
    assert |BackBytes(x)| == LpBackSize(x) > 0;
    assert BackBytes(x)[LpBackSize(x)..] == [];
  }

  lemma LastGroup(val: nat)
    requires LpBackSize(val) > 1
    ensures LpBackSize(val) == 1 + LpBackSize(val / 128)
    ensures BackBytes(val) == BackBytes(val / 128) + [0x80 + val % 128]
  {}

  lemma LastOfPrefix(all: seq<Byte>, s: seq<Byte>, b: Byte)
    requires |s| < |all| && all[..|s| + 1] == s + [b]
    ensures all[..|s|] == s && all[|s|..] == [b] + all[|s| + 1..]
  {
    assert all[..|s|] == all[..|s| + 1][..|s|];
    assert all[|s|] == all[..|s| + 1][|s|];
  }

  /** One more group is written. */
  lemma BackStep(x: nat, val: nat, was: seq<Byte>, end: nat, now: seq<Byte>, at: nat)
    requires BackDone(x, val, was, end, now) && LpBackSize(val) > 1
    requires at == end - (LpBackSize(x) - LpBackSize(val)) - 1
    ensures |now| == |was| && LpBackSize(val) == 1 + LpBackSize(val / 128)
    ensures BackDone(x, val / 128, was, end, Splice(now, at, [0x80 + val % 128]))
  {
    hide Splice, BackBytes, LpBackSize;
    var all, k := BackBytes(x), LpBackSize(val);
    LastGroup(val);
    LastOfPrefix(all, BackBytes(val / 128), 0x80 + val % 128);
    SpliceFront(was, at + 1, 0x80 + val % 128, all[k..]);
  }

  lemma BackLast(x: nat, val: nat, was: seq<Byte>, end: nat, now: seq<Byte>)
    requires BackDone(x, val, was, end, now) && LpBackSize(val) == 1
    ensures val < 128 && LpBackSize(x) <= end && |now| == |was|
    ensures Splice(now, end - LpBackSize(x), [val]) == Splice(was, end - LpBackSize(x), BackBytes(x))
  {
    hide Splice;
    var all := BackBytes(x);
    assert [all[0]] + all[1..] == all;
    assert all[0] == all[..1][0];
    SpliceFront(was, end - (LpBackSize(x) - 1), val, all[1..]);
  }

  class RdbListPackEncode {
    var next: ListPackEnc
    var linkSz: nat
    var off: nat
    var items: nat
    var p: array?<Byte> // NULL in the sizing pass

    /** The state after sizing or appending xs. */
    ghost predicate Sized(xs: seq<Elem>)
      reads this
    {
      AllFit(xs) && off == LP_HEADER + |Entries(xs)| && items == |xs|
    }

    /** The same in the 32 bits of the sizing pass, which wraps. */
    ghost predicate Counted(xs: seq<Elem>)
      reads this
    {
      AllFit(xs) && off == (LP_HEADER + |Entries(xs)|) % TWO32 && items == |xs| % TWO32
    }

    ghost predicate Wrote(xs: seq<Elem>)
      reads this, p
    {
      p != null && Sized(xs) && ListFits(xs) && off < p.Length && p[LP_HEADER..off] == Entries(xs)
    }

    constructor Init(out: array?<Byte>)
      ensures p == out && Sized([]) && Counted([])
      ensures out != null && out.Length >= 7 ==> Wrote([])
    {
      next, linkSz, off, items, p := LpEnd, 0, LP_HEADER, 0, out;
    }

    /** The sizing pass ends at the size of the written list, if that fits 32 bits. */
    method CalcEnd(ghost xs: seq<Elem>)
      requires Counted(xs)
      modifies this
      ensures off == 7 + |Entries(xs)| <==> ListFits(xs)
      ensures ListFits(xs) ==> off == |LpBytes(xs)|
    {
      hide Entries, AllFit, Le;
      ModAdd(LP_HEADER + |Entries(xs)|, 1, TWO32);
      off := (off + 1) % TWO32;
    }

    method CalcImmediateInt(val: int, ghost xs: seq<Elem>)
      requires Counted(xs) && IsInt64(val)
      modifies this
      ensures Counted(xs + [Int(val)]) && p == old(p)
    {
      hide ImmBytes, LpNextImmCode, LpSize, AllFit, Entries;
      CountMore(xs, Int(val));
      next := LpNextImmCode(val);
      linkSz := LpSize(next);
      var back := LpBackSizeOf(linkSz);
      off := (off + back + linkSz) % TWO32;
      items := (items + 1) % TWO32;
    }

    method CalcLink(sz: nat, ghost xs: seq<Elem>, ghost s: seq<Byte>)
      requires Counted(xs) && |s| == sz && ElemFits(Str(s))
      modifies this
      ensures Counted(xs + [Str(s)]) && p == old(p)
    {
      hide StrHead, LpNextStrCode, LpSize, AllFit, Entries;
      CountMore(xs, Str(s));
      next := LpNextStrCode(sz);
      linkSz := LpSize(next) + sz;
      var back := LpBackSizeOf(linkSz);
      off := (off + back + linkSz) % TWO32;
      items := (items + 1) % TWO32;
    }

    /** The groups are written from the last to the first. */
    method EncodeBack()
      requires p != null && off + LpBackSize(linkSz) <= p.Length
      modifies this`off, this`items, p
      ensures off == old(off) + LpBackSize(linkSz) && items == old(items) + 1
      ensures p[..] == Splice(old(p[..]), old(off), BackBytes(linkSz))
    {
      hide *;
      var val := linkSz;
      var sz := LpBackSizeOf(val);
      off := off + sz;
      ghost var was := p[..];
      BackStart(linkSz, was, off);
      var i := 1;
      while i < sz
        invariant 1 <= i <= sz == LpBackSize(linkSz) && LpBackSize(val) == sz - i + 1
        invariant items == old(items) && off == old(off) + sz && BackDone(linkSz, val, was, off, p[..])
      {
        BackStep(linkSz, val, was, off, p[..], off - i);
        Store(p, off - i, [0x80 + val % 128]);
        val := val / 128;
        i := i + 1;
      }
      BackLast(linkSz, val, was, off, p[..]);
      Store(p, off - sz, [val]);
      items := items + 1;
    }

    method EncodeImmediateInt(val: int)
      requires p != null && IsInt64(val) && next == LpNextImmCode(val) && off + |ImmBytes(val)| <= p.Length
      modifies this`off, this`linkSz, p
      ensures off == old(off) + |ImmBytes(val)| && linkSz == |ImmBytes(val)|
      ensures p[..] == Splice(old(p[..]), old(off), ImmBytes(val))
    {
      hide Splice, Le, Unsigned, LpNextImmCode;
      if next == Lp13Int {
        PutCode(0xc0 + (val / 256) % 16, [val % 256]);
        assert [0xc0 + (val / 256) % 16] + [val % 256] == ImmBytes(val);
      } else if next == Lp16Int {
        PutCode(0xf1, Le(Unsigned(val, 2), 2));
      } else if next == Lp24Int {
        PutHighFirst((val / 0x1_0000) % 256, Le(Unsigned(val, 2), 2));
      } else if next == Lp32Int {
        PutCode(0xf3, Le(Unsigned(val, 4), 4));
      } else if next == Lp64Int {
        PutCode(0xf4, Le(Unsigned(val, 8), 8));
      } else {
        Store(p, off, [val % 256]);
        off := off + 1;
      }
      linkSz := LpSize(next);
    }

    /** A 24-bit number: the high byte comes first. */
    method PutHighFirst(high: Byte, low: seq<Byte>)
      requires p != null && off + 2 + |low| <= p.Length
      modifies this`off, p
      ensures off == old(off) + 2 + |low| && p[..] == Splice(old(p[..]), old(off), [0xf2, high] + low)
    {
      hide Splice;
      SpliceTwice(p[..], off, [0xf2, high], low);
      assert [0xf2] + [high] == [0xf2, high];
      PutCode(0xf2, [high]);
      Store(p, off, low);
      off := off + |low|;
    }

    /** A code byte and the number behind it. */
    method PutCode(code: Byte, number: seq<Byte>)
      requires p != null && off + 1 + |number| <= p.Length
      modifies this`off, p
      ensures off == old(off) + 1 + |number| && p[..] == Splice(old(p[..]), old(off), [code] + number)
    {
      hide Splice;
      SpliceTwice(p[..], off, [code], number);
      Store(p, off, [code]);
      off := off + 1;
      Store(p, off, number);
      off := off + |number|;
    }

    method EncodeNextSize(sz: nat)
      requires p != null && sz < TWO32 && next == LpNextStrCode(sz) && off + |StrHead(sz)| <= p.Length
      modifies this`off, this`linkSz, p
      ensures off == old(off) + |StrHead(sz)| && linkSz == |StrHead(sz)| + sz
      ensures p[..] == Splice(old(p[..]), old(off), StrHead(sz))
    {
      hide Splice, Be;
      ghost var was := p[..];
      if next == Lp6Str {
        Store(p, off, [0x80 + sz]);
        off := off + 1;
      } else if next == Lp12Str {
        PutCode(0xe0 + sz / 256, [sz % 256]);
        assert [0xe0 + sz / 256] + [sz % 256] == StrHead(sz);
      } else if next == Lp32Str {
        PutCode(0xf0, Be(sz, 4));
      }
      linkSz := LpSize(next) + sz;
    }

    method EncodeNext(data: seq<Byte>)
      requires p != null && |data| < TWO32 && next == LpNextStrCode(|data|)
      requires off + |StrHead(|data|)| + |data| <= p.Length
      modifies this`off, this`linkSz, p
      ensures off == old(off) + linkSz && linkSz == |StrHead(|data|)| + |data|
      ensures p[..] == Splice(old(p[..]), old(off), StrHead(|data|) + data)
    {
      hide StrHead, Splice, LpNextStrCode;
      SpliceTwice(p[..], off, StrHead(|data|), data);
      EncodeNextSize(|data|);
      Store(p, off, data);
      off := off + |data|;
    }

    method EncodeNextTwo(data: seq<Byte>, data2: seq<Byte>)
      requires p != null && |data| + |data2| < TWO32 && next == LpNextStrCode(|data| + |data2|)
      requires off + |StrHead(|data| + |data2|)| + |data| + |data2| <= p.Length
      modifies this`off, this`linkSz, p
      ensures off == old(off) + linkSz && linkSz == |StrHead(|data| + |data2|)| + |data| + |data2|
      ensures p[..] == Splice(old(p[..]), old(off), StrHead(|data| + |data2|) + (data + data2))
    {
      hide StrHead, Splice, LpNextStrCode;
      SpliceTwice(p[..], off, StrHead(|data| + |data2|), data + data2);
      EncodeNextSize(|data| + |data2|);
      StoreTwo(p, off, data, data2);
      off := off + |data| + |data2|;
    }

    /** What is known before an element is written behind xs. */
    lemma BeforeElem(xs: seq<Elem>, x: Elem)
      requires Wrote(xs) && ListFits(xs + [x]) && LP_HEADER + |Entries(xs + [x])| < p.Length
      ensures p != null && ListFits(xs) && ElemFits(x) && Entry(x) == Body(x) + BackBytes(|Body(x)|)
      ensures LP_HEADER <= off && off + |Body(x)| + LpBackSize(|Body(x)|) < p.Length
      ensures off == LP_HEADER + |Entries(xs)| && items == |xs| && p[LP_HEADER..off] == Entries(xs)
      ensures x.Int? ==> IsInt64(x.i) && Body(x) == ImmBytes(x.i)
      ensures x.Str? ==> |x.s| < TWO32
    {
      AppendFits(xs, x);
      hide Entries, AllFit, ImmBytes, StrHead, LpNextStrCode, LpNextImmCode, LpSize;
    }

    /** The state after it. */
    lemma AfterElem(xs: seq<Elem>, x: Elem, was: seq<Byte>, start: nat)
      requires ListFits(xs) && ListFits(xs + [x]) && ElemFits(x)
      requires p != null && |was| == p.Length && LP_HEADER + |Entries(xs + [x])| < p.Length
      requires start == LP_HEADER + |Entries(xs)| <= |was| && was[LP_HEADER..start] == Entries(xs)
      requires start + |Entry(x)| <= |was| && p[..] == Splice(was, start, Entry(x))
      requires off == start + |Entry(x)| && items == |xs| + 1
      ensures Wrote(xs + [x]) && p[..LP_HEADER] == was[..LP_HEADER]
    {
      AppendFits(xs, x);
      hide Entries, Entry, ElemFits, AllFit, Splice;
      SpliceGrows(was, LP_HEADER, start, Entry(x), p[..]);
    }

    /** The integer is appended with its back code. */
    method AppendImmediateInt(val: int, ghost xs: seq<Elem>)
      requires Wrote(xs) && ListFits(xs + [Int(val)])
      requires LP_HEADER + |Entries(xs + [Int(val)])| < p.Length
      modifies this, p
      ensures p == old(p) && Wrote(xs + [Int(val)])
      ensures p[..LP_HEADER] == old(p[..LP_HEADER])
    {
      hide *;
      BeforeElem(xs, Int(val));
      ghost var was, start := p[..], off;
      next := LpNextImmCode(val);
      EncodeImmediateInt(val);
      EncodeBack();
      SpliceTwice(was, start, ImmBytes(val), BackBytes(linkSz));
      AfterElem(xs, Int(val), was, start);
    }

    /** The string is appended with its back code. */
    method AppendLink(data: seq<Byte>, ghost xs: seq<Elem>)
      requires Wrote(xs) && ListFits(xs + [Str(data)])
      requires LP_HEADER + |Entries(xs + [Str(data)])| < p.Length
      modifies this, p
      ensures p == old(p) && Wrote(xs + [Str(data)])
      ensures p[..LP_HEADER] == old(p[..LP_HEADER])
    {
      hide *;
      BeforeElem(xs, Str(data));
      StrBody(data);
      ghost var was, start := p[..], off;
      next := LpNextStrCode(|data|);
      EncodeNext(data);
      EncodeBack();
      SpliceTwice(was, start, StrHead(|data|) + data, BackBytes(linkSz));
      AfterElem(xs, Str(data), was, start);
    }

    /** The two-buffer form leaves what the one-buffer form leaves for the concatenation. */
    method AppendLinkTwo(data: seq<Byte>, data2: seq<Byte>, ghost xs: seq<Elem>)
      requires Wrote(xs) && ListFits(xs + [Str(data + data2)])
      requires LP_HEADER + |Entries(xs + [Str(data + data2)])| < p.Length
      modifies this, p
      ensures p == old(p) && Wrote(xs + [Str(data + data2)])
      ensures p[..LP_HEADER] == old(p[..LP_HEADER])
    {
      hide *;
      ghost var both := data + data2;
      BeforeElem(xs, Str(both));
      ghost var was, start := p[..], off;
      StrBody(both);
      next := LpNextStrCode(|data| + |data2|);
      EncodeNextTwo(data, data2);
      EncodeBack();
      SpliceTwice(was, start, StrHead(|both|) + both, BackBytes(linkSz));
      AfterElem(xs, Str(both), was, start);
    }

    /** The terminator and the header complete the list. */
    method AppendEnd(ghost xs: seq<Elem>)
      requires Wrote(xs)
      modifies this, p
      ensures p == old(p) && off == |LpBytes(xs)| <= p.Length && p[..off] == LpBytes(xs)
    {
      hide Splice, Entries, AllFit, Le;
      ghost var p0 := p[..];
      Store(p, off, [0xff]);
      SpliceGrows(p0, LP_HEADER, off, [0xff], p[..]);
      off := off + 1;
      ghost var p1 := p[..];
      Store(p, 0, Le(off, 4));
      SpliceKeeps(p1, 0, Le(off, 4), LP_HEADER, off);
      ghost var p2 := p[..];
      var n := if items <= 0xffff then items else 0xffff;
      Store(p, 4, Le(n, 2));
      SpliceKeeps(p2, 4, Le(n, 2), 0, 4);
      SpliceKeeps(p2, 4, Le(n, 2), LP_HEADER, off);
      ThreeParts(p[..], 4, LP_HEADER, off);
    }
  }

  lemma StrBody(s: seq<Byte>)
    requires ElemFits(Str(s))
    ensures Body(Str(s)) == StrHead(|s|) + s
  {}

  lemma ThreeParts(s: seq<Byte>, i: nat, j: nat, n: nat)
    requires i <= j <= n <= |s|
    ensures s[..n] == s[0..i] + s[i..j] + s[j..n]
  {}
}
