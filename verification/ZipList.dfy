/** The ziplist: its format, the writer RdbZipEncode (include/rdbparser/rdb_encode.h:104-210) and the
    reader RdbZipList (include/rdbparser/rdb_decode.h:224-366, src/rdb_decode.cpp:158-200). */
module ZipList {
  import opened Bytes
  import opened ListValue

  // ----- the link codes

  datatype ZipLinkEnc =
    | ZipEnd | ZLen32 | Big32 | ZLen8 | ZLen6 | Big14
    | Immed16 | Immed32 | Immed64 | Immed24 | Immed8 | Immed4

  predicate IsImmed(e: ZipLinkEnc) {
    e in {Immed16, Immed32, Immed64, Immed24, Immed8, Immed4}
  }

  function ZlinkSize(e: ZipLinkEnc): nat {
    match e
    case ZipEnd => 0
    case ZLen32 => 5
    case Big32 => 5
    case ZLen8 => 1
    case ZLen6 => 1
    case Big14 => 2
    case Immed16 => 3
    case Immed32 => 5
    case Immed64 => 9
    case Immed24 => 4
    case Immed8 => 2
    case Immed4 => 1
  }

  function ZnextStrCode(x: nat): ZipLinkEnc {
    if x < 0x40 then ZLen6 else if x < 0x4000 then Big14 else if x < TWO32 then Big32 else ZipEnd
  }

  function ZprevCode(x: nat): ZipLinkEnc {
    if x < 0xfe then ZLen8 else if x < TWO32 then ZLen32 else ZipEnd
  }

  function ZlinkPrev(n: Byte): ZipLinkEnc {
    if n < 0xfe then ZLen8 else if n == 0xff then ZipEnd else ZLen32
  }

  function ZlinkNext(n: Byte): ZipLinkEnc {
    if n / 64 == 0 then ZLen6
    else if n / 64 == 1 then Big14
    else if n / 64 == 2 then Big32
    else if n / 16 == 0xc then Immed16
    else if n / 16 == 0xd then Immed32
    else if n / 16 == 0xe then Immed64
    else if n == 0xf0 then Immed24
    else if n == 0xfe then Immed8
    else if n == 0xff then ZipEnd
    else Immed4
  }

  function ZlinkVal(e: ZipLinkEnc, p: seq<Byte>): int
    requires |p| >= ZlinkSize(e)
  {
    match e
    case ZipEnd => 0
    case ZLen32 => FromLe(p[1..5])
    case Big32 => FromBe(p[1..5])
    case ZLen8 => p[0]
    case ZLen6 => p[0] as int % 64
    case Big14 => 256 * (p[0] as int % 64) + p[1] as int
    case Immed16 => Signed(FromLe(p[1..3]), 2)
    case Immed32 => Signed(FromLe(p[1..5]), 4)
    case Immed64 => Signed(FromLe(p[1..9]), 8)
    case Immed24 => Signed(FromLe(p[1..4]), 3)
    case Immed8 => Signed(FromLe(p[1..2]), 1)
    case Immed4 => p[0] as int % 16 - 1
  }

  // ----- the format

  /** The size of the previous entry. */
  function PrevBytes(v: nat): seq<Byte>
    requires v < TWO32
  {
    if v < 0xfe then [v] else [0xfe] + Le(v, 4)
  }

  /** The size of a string. */
  function NextBytes(n: nat): seq<Byte>
    requires n < TWO32
  {
    if n < 0x40 then [n]
    else if n < 0x4000 then [0x40 + n / 256, n % 256]
    else [0x80] + Be(n, 4)
  }

  function EntrySize(prev: nat, n: nat): nat {
    ZlinkSize(ZprevCode(prev)) + ZlinkSize(ZnextStrCode(n)) + n
  }

  function Entry(prev: nat, s: seq<Byte>): (r: seq<Byte>)
    requires prev < TWO32 && |s| < TWO32
    ensures |r| == EntrySize(prev, |s|)
  {
    PrevBytes(prev) + NextBytes(|s|) + s
  }

  /** The size of all entries after one of size prev. */
  function EntriesSize(prev: nat, xs: seq<seq<Byte>>): nat
    decreases xs
  {
    if xs == [] then 0 else EntrySize(prev, |xs[0]|) + EntriesSize(EntrySize(prev, |xs[0]|), xs[1..])
  }

  /** Every size that has to be written fits 32 bits. */
  predicate Fits(prev: nat, xs: seq<seq<Byte>>) {
    prev < TWO32 && EntriesSize(prev, xs) < TWO32
  }

  function Entries(prev: nat, xs: seq<seq<Byte>>): (r: seq<Byte>)
    requires Fits(prev, xs)
    ensures |r| == EntriesSize(prev, xs)
    decreases xs
  {
    if xs == [] then [] else Entry(prev, xs[0]) + Entries(EntrySize(prev, |xs[0]|), xs[1..])
  }

  /** The size of the last entry, or prev if there is none. */
  function LastSize(prev: nat, xs: seq<seq<Byte>>): nat
    decreases xs
  {
    if xs == [] then prev else LastSize(EntrySize(prev, |xs[0]|), xs[1..])
  }

  /** The offsets of the entries, the first one at at. */
  function Starts(at: nat, prev: nat, xs: seq<seq<Byte>>): seq<nat>
    decreases xs
  {
    if xs == [] then []
    else [at] + Starts(at + EntrySize(prev, |xs[0]|), EntrySize(prev, |xs[0]|), xs[1..])
  }

  /** The offset of the last entry. */
  function LastStart(at: nat, prev: nat, xs: seq<seq<Byte>>): nat
    requires xs != []
    decreases xs
  {
    if |xs| == 1 then at
    else LastStart(at + EntrySize(prev, |xs[0]|), EntrySize(prev, |xs[0]|), xs[1..])
  }

  /** zltail; zero for an empty list. */
  function Tail(xs: seq<seq<Byte>>): nat {
    if xs == [] then 0 else LastStart(10, 0, xs)
  }

  predicate ListFits(xs: seq<seq<Byte>>) {
    11 + EntriesSize(0, xs) < TWO32
  }

  function ZipBytes(xs: seq<seq<Byte>>, count: nat): seq<Byte>
    requires ListFits(xs)
  {
    Le(11 + EntriesSize(0, xs), 4) + Le(Tail(xs), 4) + Le(if count <= 0xffff then count else 0xffff, 2)
    + Entries(0, xs) + [0xff]
  }

  /** Appending an entry: its prev field is the size of the entry that was last. */
  lemma {:induction false} Append(at: nat, prev: nat, xs: seq<seq<Byte>>, x: seq<Byte>)
    ensures EntriesSize(prev, xs + [x]) == EntriesSize(prev, xs) + EntrySize(LastSize(prev, xs), |x|)
    ensures LastSize(prev, xs + [x]) == EntrySize(LastSize(prev, xs), |x|)
    ensures LastStart(at, prev, xs + [x]) == at + EntriesSize(prev, xs)
    ensures Fits(prev, xs + [x]) ==>
      (Fits(prev, xs) && LastSize(prev, xs) < TWO32 && |x| < TWO32
       && Entries(prev, xs + [x]) == Entries(prev, xs) + Entry(LastSize(prev, xs), x))
    decreases xs
  {
    hide PrevBytes, NextBytes;
    if xs == [] {
      assert [x][1..] == [];
    } else {
      assert (xs + [x])[1..] == xs[1..] + [x];
      Append(at + EntrySize(prev, |xs[0]|), EntrySize(prev, |xs[0]|), xs[1..], x);
    }
  }

  // ----- the writer

  class RdbZipEncode {
    var next: ZipLinkEnc
    var prev: ZipLinkEnc
    var linkSz: nat
    var off: nat
    var prevOff: nat
    var p: array?<Byte> // NULL in the sizing pass

    /** The state after appending or sizing xs: the next prev field is linkSz + ZlinkSize(prev). */
    ghost predicate Sized(xs: seq<seq<Byte>>)
      reads this
    {
      linkSz + ZlinkSize(prev) == LastSize(0, xs) && off == 10 + EntriesSize(0, xs)
    }

    /** The same in the 32 bits of the sizing pass, which wraps. */
    ghost predicate Counted(xs: seq<seq<Byte>>)
      reads this
    {
      linkSz + ZlinkSize(prev) == LastSize(0, xs) < TWO32 && off == (10 + EntriesSize(0, xs)) % TWO32
    }

    /** The buffer holds the entries of xs, and prevOff is the offset of the last one. */
    ghost predicate Wrote(xs: seq<seq<Byte>>)
      reads this, p
    {
      p != null && Sized(xs) && ListFits(xs) && off < p.Length && prevOff == Tail(xs)
      && p[10..off] == Entries(0, xs)
    }

    constructor Init(out: array?<Byte>)
      ensures Sized([]) && Counted([]) && p == out
      ensures out != null && out.Length >= 11 ==> Wrote([])
    {
      next, prev, linkSz, off, prevOff, p := ZipEnd, ZipEnd, 0, 10, 0, out;
    }

    /** The sizing pass ends at the size of the written list, if that fits 32 bits. */
    method CalcEnd(ghost xs: seq<seq<Byte>>)
      requires Counted(xs)
      modifies this
      ensures off == 11 + EntriesSize(0, xs) <==> ListFits(xs)
      ensures ListFits(xs) ==> forall count :: off == |ZipBytes(xs, count)|
    {
      hide EntriesSize, LastSize, Entries, Tail, Le;
      ModAdd(10 + EntriesSize(0, xs), 1, TWO32);
      prev := ZipEnd;
      off := (off + 1) % TWO32;
    }

    method CalcLink(sz: nat, ghost xs: seq<seq<Byte>>, ghost x: seq<Byte>)
      requires Counted(xs) && |x| == sz && sz + 10 < TWO32
      modifies this
      ensures Counted(xs + [x]) && p == old(p)
    {
      Append(10, 0, xs, x);
      prev := ZprevCode(linkSz + ZlinkSize(prev));
      next := ZnextStrCode(sz);
      linkSz := ZlinkSize(next) + sz;
      ModAdd(10 + EntriesSize(0, xs), ZlinkSize(prev) + linkSz, TWO32);
      off := (off + ZlinkSize(prev) + linkSz) % TWO32;
    }

    /** What encode_prev writes for the code that is set; a single zero if none is. */
    ghost function PrevOut(val: nat): seq<Byte>
      reads this`prev
    {
      if prev == ZLen8 then [val % 256] else if prev == ZLen32 then [0xfe] + Le(val, 4) else [0]
    }

    method EncodePrev(val: nat)
      requires p != null && val < TWO32 && off + |PrevOut(val)| <= p.Length
      modifies this`off, p
      ensures off == old(off) + |PrevOut(val)| && p[..] == Splice(old(p[..]), old(off), PrevOut(val))
    {
      if prev == ZLen8 {
        Store(p, off, [val % 256]);
        off := off + 1;
      } else if prev == ZLen32 {
        ghost var was := p[..];
        Store(p, off, [0xfe]);
        off := off + 1;
        SpliceTwice(was, old(off), [0xfe], Le(val, 4));
        Store(p, off, Le(val, 4));
        off := off + 4;
      } else {
        Store(p, off, [0]);
        off := off + 1;
      }
    }

    method EncodeNextSize(sz: nat)
      requires p != null && sz < TWO32 && next == ZnextStrCode(sz) && off + |NextBytes(sz)| <= p.Length
      modifies this`off, p
      ensures off == old(off) + |NextBytes(sz)| && p[..] == Splice(old(p[..]), old(off), NextBytes(sz))
    {
      ghost var was := p[..];
      if next == ZLen6 {
        Store(p, off, [sz]);
        off := off + 1;
      } else if next == Big14 {
        Store(p, off, [0x40 + sz / 256]);
        off := off + 1;
        SpliceTwice(was, old(off), [0x40 + sz / 256], [sz % 256]);
        Store(p, off, [sz % 256]);
        off := off + 1;
      } else if next == Big32 {
        Store(p, off, [0x80]);
        off := off + 1;
        SpliceTwice(was, old(off), [0x80], Be(sz, 4));
        Store(p, off, Be(sz, 4));
        off := off + 4;
      }
    }

    method EncodeNext(data: seq<Byte>)
      requires p != null && |data| < TWO32 && next == ZnextStrCode(|data|)
      requires off + |NextBytes(|data|)| + |data| <= p.Length
      modifies this`off, p
      ensures off == old(off) + |NextBytes(|data|)| + |data|
      ensures p[..] == Splice(old(p[..]), old(off), NextBytes(|data|) + data)
    {
      hide NextBytes, Splice;
      ghost var was := p[..];
      EncodeNextSize(|data|);
      SpliceTwice(was, old(off), NextBytes(|data|), data);
      Store(p, off, data);
      off := off + |data|;
    }

    method EncodeNextTwo(data: seq<Byte>, data2: seq<Byte>)
      requires p != null && |data| + |data2| < TWO32 && next == ZnextStrCode(|data| + |data2|)
      requires off + |NextBytes(|data| + |data2|)| + |data| + |data2| <= p.Length
      modifies this`off, p
      ensures off == old(off) + |NextBytes(|data| + |data2|)| + |data| + |data2|
      ensures p[..] == Splice(old(p[..]), old(off), NextBytes(|data| + |data2|) + (data + data2))
    {
      hide NextBytes, Splice, ZnextStrCode;
      ghost var was := p[..];
      EncodeNextSize(|data| + |data2|);
      SpliceTwice(was, old(off), NextBytes(|data| + |data2|), data + data2);
      StoreTwo(p, off, data, data2);
      off := off + |data| + |data2|;
    }

    /** What is known before an entry for xs + [data] is appended. */
    lemma BeforeLink(xs: seq<seq<Byte>>, data: seq<Byte>)
      requires Wrote(xs) && ListFits(xs + [data]) && 10 + EntriesSize(0, xs + [data]) < p.Length
      ensures linkSz + ZlinkSize(prev) == LastSize(0, xs) < TWO32 && |data| < TWO32
      ensures 10 <= off && off + EntrySize(LastSize(0, xs), |data|) < p.Length
    {
      Append(10, 0, xs, data);
    }

    /** The state after it. */
    lemma AfterLink(xs: seq<seq<Byte>>, data: seq<Byte>, was: seq<Byte>, start: nat)
      requires ListFits(xs + [data]) && ListFits(xs) && LastSize(0, xs) < TWO32 && |data| < TWO32
      requires 10 <= start && start + EntrySize(LastSize(0, xs), |data|) < |was|
      requires start == 10 + EntriesSize(0, xs) && was[10..start] == Entries(0, xs)
      requires p != null && p[..] == Splice(was, start, Entry(LastSize(0, xs), data))
      requires linkSz + ZlinkSize(prev) == EntrySize(LastSize(0, xs), |data|)
      requires off == start + EntrySize(LastSize(0, xs), |data|) && prevOff == start
      ensures Wrote(xs + [data]) && p[..10] == was[..10]
    {
      Append(10, 0, xs, data);
      hide Entries, EntriesSize, LastSize, LastStart, Entry, Splice, EntrySize, ZlinkSize;
      SpliceGrows(was, 10, start, Entry(LastSize(0, xs), data), p[..]);
    }

    /** The four calls that both forms of append_link make for an entry, with one buffer. */
    method EncodeLink(prevVal: nat, data: seq<Byte>)
      requires p != null && prevVal < TWO32 && |data| < TWO32
      requires off + EntrySize(prevVal, |data|) <= p.Length
      modifies this`off, this`prev, this`next, p
      ensures prev == ZprevCode(prevVal) && next == ZnextStrCode(|data|)
      ensures off == old(off) + EntrySize(prevVal, |data|)
      ensures p[..] == Splice(old(p[..]), old(off), Entry(prevVal, data))
    {
      ghost var was := p[..];
      EntryParts(prevVal, data);
      hide Entry, PrevBytes, NextBytes, Splice, ZprevCode, ZnextStrCode, ZlinkSize;
      prev := ZprevCode(prevVal);
      PrevChosen(prevVal);
      hide PrevOut;
      EncodePrev(prevVal);
      next := ZnextStrCode(|data|);
      EncodeNext(data);
      SpliceTwice(was, old(off), PrevBytes(prevVal), NextBytes(|data|) + data);
    }

    method EncodeLinkTwo(prevVal: nat, data: seq<Byte>, data2: seq<Byte>)
      requires p != null && prevVal < TWO32 && |data| + |data2| < TWO32
      requires off + EntrySize(prevVal, |data + data2|) <= p.Length
      modifies this`off, this`prev, this`next, p
      ensures prev == ZprevCode(prevVal) && next == ZnextStrCode(|data + data2|)
      ensures off == old(off) + EntrySize(prevVal, |data + data2|)
      ensures p[..] == Splice(old(p[..]), old(off), Entry(prevVal, data + data2))
    {
      ghost var was := p[..];
      EntryParts(prevVal, data + data2);
      hide Entry, PrevBytes, NextBytes, Splice, ZprevCode, ZnextStrCode, ZlinkSize;
      prev := ZprevCode(prevVal);
      PrevChosen(prevVal);
      hide PrevOut;
      EncodePrev(prevVal);
      next := ZnextStrCode(|data| + |data2|);
      EncodeNextTwo(data, data2);
      SpliceTwice(was, old(off), PrevBytes(prevVal), NextBytes(|data + data2|) + (data + data2));
    }

    lemma PrevChosen(val: nat)
      requires val < TWO32 && prev == ZprevCode(val)
      ensures PrevOut(val) == PrevBytes(val)
    {}

    /** The entry for data is appended; its prev field is the size of the entry before it. */
    method AppendLink(data: seq<Byte>, ghost xs: seq<seq<Byte>>)
      requires Wrote(xs) && ListFits(xs + [data])
      requires 10 + EntriesSize(0, xs + [data]) < p.Length
      modifies this, p
      ensures p == old(p) && Wrote(xs + [data])
      ensures p[..10] == old(p[..10])
    {
      BeforeLink(xs, data);
      ghost var was, start := p[..], off;
      assert ListFits(xs) && start == 10 + EntriesSize(0, xs) && was[10..start] == Entries(0, xs);
      hide *;
      prevOff := off;
      var prevVal := linkSz + ZlinkSize(prev);
      EncodeLink(prevVal, data);
      LinkSize(prevVal, |data|);
      linkSz := ZlinkSize(next) + |data|;
      AfterLink(xs, data, was, start);
    }

    /** The two-buffer form leaves what the one-buffer form leaves for the concatenation. */
    method AppendLinkTwo(data: seq<Byte>, data2: seq<Byte>, ghost xs: seq<seq<Byte>>)
      requires Wrote(xs) && ListFits(xs + [data + data2])
      requires 10 + EntriesSize(0, xs + [data + data2]) < p.Length
      modifies this, p
      ensures p == old(p) && Wrote(xs + [data + data2])
      ensures p[..10] == old(p[..10])
    {
      BeforeLink(xs, data + data2);
      ghost var was, start := p[..], off;
      assert ListFits(xs) && start == 10 + EntriesSize(0, xs) && was[10..start] == Entries(0, xs);
      hide *;
      prevOff := off;
      var prevVal := linkSz + ZlinkSize(prev);
      EncodeLinkTwo(prevVal, data, data2);
      LinkSize(prevVal, |data + data2|);
      linkSz := ZlinkSize(next) + |data| + |data2|;
      AfterLink(xs, data + data2, was, start);
    }

    /** The terminator and the header complete the list. */
    method AppendEnd(count: nat, ghost xs: seq<seq<Byte>>)
      requires Wrote(xs)
      modifies this, p
      ensures p == old(p) && off == |ZipBytes(xs, count)| <= p.Length && p[..off] == ZipBytes(xs, count)
    {
      hide Splice, Entries, LastStart, EntriesSize;
      ghost var body := Entries(0, xs);
      ghost var end, n := [0xff], if count <= 0xffff then count else 0xffff;
      ghost var p0 := p[..];
      Store(p, off, [0xff]);
      SpliceGrows(p0, 10, off, end, p[..]);
      off := off + 1;
      ghost var p1 := p[..];
      Store(p, 0, Le(off, 4));
      SpliceKeeps(p1, 0, Le(off, 4), 10, off);
      ghost var p2 := p[..];
      Store(p, 4, Le(prevOff, 4));
      SpliceKeeps(p2, 4, Le(prevOff, 4), 0, 4);
      SpliceKeeps(p2, 4, Le(prevOff, 4), 10, off);
      ghost var p3 := p[..];
      Store(p, 8, Le(if count <= 0xffff then count else 0xffff, 2));
      SpliceKeeps(p3, 8, Le(n, 2), 0, 4);
      SpliceKeeps(p3, 8, Le(n, 2), 4, 8);
      SpliceKeeps(p3, 8, Le(n, 2), 10, off);
      FourParts(p[..], 4, 8, 10, off);
    }
  }

  lemma LinkSize(prevVal: nat, n: nat)
    ensures ZlinkSize(ZnextStrCode(n)) + n + ZlinkSize(ZprevCode(prevVal)) == EntrySize(prevVal, n)
  {}

  lemma FourParts(s: seq<Byte>, i: nat, j: nat, k: nat, n: nat)
    requires i <= j <= k <= n <= |s|
    ensures s[..n] == s[0..i] + s[i..j] + s[j..k] + s[k..n]
  {}

  lemma EntryParts(prevVal: nat, data: seq<Byte>)
    requires prevVal < TWO32 && |data| < TWO32
    ensures Entry(prevVal, data) == PrevBytes(prevVal) + (NextBytes(|data|) + data)
    ensures |PrevBytes(prevVal)| == ZlinkSize(ZprevCode(prevVal))
    ensures |NextBytes(|data|)| == ZlinkSize(ZnextStrCode(|data|))
  {
    Regroup(PrevBytes(prevVal), NextBytes(|data|), data);
  }
}
