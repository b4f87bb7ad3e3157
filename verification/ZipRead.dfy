/** The ziplist reader (include/rdbparser/rdb_decode.h:237-366, src/rdb_decode.cpp:158-200): safe
    traversal of arbitrary bytes, and the round trip with the writer. */
module ZipRead {
  import opened Bytes
  import opened ListValue
  import opened ZipList

  /** A ziplist of which every byte up to its declared size is in mem. */
  datatype Zip = Zip(mem: seq<Byte>, zltail: nat, zllen: nat)

  datatype InitResult =
    | Refused
    | Overrun // the declared size is larger than the buffer; the source reads on behind it
    | Opened(zip: Zip)

  function ZipInit(b: seq<Byte>): InitResult {
    if |b| < 10 then Refused
    else if FromLe(b[..4]) < 11 then Refused
    else if FromLe(b[..4]) > |b| then Overrun
    else Opened(Zip(b[..FromLe(b[..4])], FromLe(b[4..8]), FromLe(b[8..10])))
  }

  const HEADER := 10
  const FIRST := Lval(HEADER, 0, None, 0, 0)

  /** next: true and the entry behind v, or false at the terminator or where the list is cut short.
      All reads are from mem, that is, below the declared size. */
  function ZipNext(mem: seq<Byte>, v: Lval): (r: (bool, Lval))
    requires Inside(mem, HEADER, v)
    ensures r.0 ==> Inside(mem, HEADER, r.1) && EndOf(v) < r.1.entry
  {
    var stop := (false, Lval(EndOf(v), |mem|, None, 0, 0));
    if EndOf(v) >= |mem| then stop
    else
      var p := ZlinkPrev(mem[EndOf(v)]);
      var e := EndOf(v) + ZlinkSize(p);
      if p == ZipEnd then stop
      else if e >= |mem| then (false, Lval(e, |mem|, None, 0, 0))
      else
        var n := ZlinkNext(mem[e]);
        var data := e + ZlinkSize(n);
        if data > |mem| then (false, Lval(e, |mem|, None, 0, 0))
        else
          var ival := ZlinkVal(n, mem[e..]);
          if IsImmed(n) then (true, Lval(e, ZlinkSize(n), None, 0, ival))
          else
            StringLength(n, mem[e..]);
            if data + ival <= |mem| then (true, Lval(e, ZlinkSize(n) + ival, Some(data), ival, ival))
            else (false, Lval(e, ZlinkSize(n) + ival, Some(data), ival, ival))
  }

  lemma StringLength(n: ZipLinkEnc, p: seq<Byte>)
    requires |p| >= ZlinkSize(n) && !IsImmed(n)
    ensures ZlinkVal(n, p) >= 0
  {}

  /** All entries behind v, as the decoders collect them. */
  function ZipElems(mem: seq<Byte>, v: Lval): seq<Elem>
    requires Inside(mem, HEADER, v)
    decreases |mem| - EndOf(v)
  {
    var r := ZipNext(mem, v);
    if r.0 then [ElemAt(mem, r.1)] + ZipElems(mem, r.1) else []
  }

  /** A traversal takes at least two bytes per entry, so it ends within the declared size. */
  lemma {:induction false} TraversalEnds(mem: seq<Byte>, v: Lval)
    requires Inside(mem, HEADER, v)
    ensures |ZipElems(mem, v)| <= |mem| - EndOf(v)
    decreases |mem| - EndOf(v)
  {
    hide ZlinkVal, ZlinkNext;
    if ZipNext(mem, v).0 {
      TraversalEnds(mem, ZipNext(mem, v).1);
    }
  }

  // ----- reading what was written

  lemma PrevRead(v: nat)
    requires v < TWO32
    ensures ZlinkPrev(PrevBytes(v)[0]) == ZprevCode(v) != ZipEnd
    ensures |PrevBytes(v)| == ZlinkSize(ZprevCode(v))
  {}

  lemma NextRead(n: nat, rest: seq<Byte>)
    requires n < TWO32
    ensures var p := NextBytes(n) + rest;
      ZlinkNext(p[0]) == ZnextStrCode(n) && ZlinkVal(ZnextStrCode(n), p) == n
    ensures |NextBytes(n)| == ZlinkSize(ZnextStrCode(n)) && !IsImmed(ZnextStrCode(n))
  {
    var p := NextBytes(n) + rest;
    if n >= 0x4000 {
      assert p[1..5] == Be(n, 4);
      BeRoundTrip(n, 4);
    }
  }

  /** Immediate integers, as rdb.adoc:341-402 lays them out: behind a code byte, little endian and signed, in
      one, two, three, four or eight bytes. The writer never makes them. */
  lemma IntegerRead(x: int, n: nat, rest: seq<Byte>)
    requires n in {1, 2, 3, 4, 8} && 0 <= 2 * x + Pow256(n) && 2 * x < Pow256(n)
    ensures var code := if n == 1 then 0xfe else if n == 2 then 0xc0 else if n == 3 then 0xf0 else if n == 4 then 0xd0 else 0xe0;
      var p := [code] + Le(Unsigned(x, n), n) + rest;
      IsImmed(ZlinkNext(p[0])) && ZlinkSize(ZlinkNext(p[0])) == n + 1 && ZlinkVal(ZlinkNext(p[0]), p) == x
  {
    hide Le, FromLe, Signed, Unsigned, Pow256;
    var code: Byte := if n == 1 then 0xfe else if n == 2 then 0xc0 else if n == 3 then 0xf0 else if n == 4 then 0xd0 else 0xe0;
    var p := [code] + Le(Unsigned(x, n), n) + rest;
    assert p[0] == code && p[1..1 + n] == Le(Unsigned(x, n), n);
    LeRoundTrip(Unsigned(x, n), n);
    SignedRoundTrip(x, n);
  }

  /** And 0 to 12 within the code byte. */
  lemma TinyIntegerRead(x: nat, rest: seq<Byte>)
    requires x <= 12
    ensures var p := [0xf1 + x] + rest;
      IsImmed(ZlinkNext(p[0])) && ZlinkSize(ZlinkNext(p[0])) == 1 && ZlinkVal(ZlinkNext(p[0]), p) == x
  {
    assert ([0xf1 + x] + rest)[0] == 0xf1 + x;
  }

  /** next on a string entry whose two codes are known. */
  lemma NextIs(mem: seq<Byte>, v: Lval, p: ZipLinkEnc, n: ZipLinkEnc, len: nat)
    requires Inside(mem, HEADER, v)
    requires EndOf(v) < |mem| && ZlinkPrev(mem[EndOf(v)]) == p != ZipEnd
    requires var e := EndOf(v) + ZlinkSize(p);
      e < |mem| && ZlinkNext(mem[e]) == n && !IsImmed(n) && e + ZlinkSize(n) + len <= |mem|
      && ZlinkVal(n, mem[e..]) == len
    ensures var e := EndOf(v) + ZlinkSize(p);
      ZipNext(mem, v) == (true, Lval(e, ZlinkSize(n) + len, Some(e + ZlinkSize(n)), len, len))
  {
    hide ZlinkVal, ZlinkNext, ZlinkPrev, ZlinkSize, IsImmed;
  }

  lemma EntryLen(prev: nat, n: nat)
    requires prev < TWO32 && n < TWO32
    ensures EntrySize(prev, n) == |PrevBytes(prev)| + |NextBytes(n)| + n
    ensures PrevBytes(prev) != [] && NextBytes(n) != []
  {}

  /** next on a written entry. */
  lemma NextEntry(mem: seq<Byte>, v: Lval, prev: nat, s: seq<Byte>, rest: seq<Byte>)
    requires Inside(mem, HEADER, v) && prev < TWO32 && |s| < TWO32
    requires mem[EndOf(v)..] == Entry(prev, s) + rest
    ensures var r := ZipNext(mem, v);
      r.0 && Inside(mem, HEADER, r.1) && EndOf(r.1) == EndOf(v) + EntrySize(prev, |s|)
      && ElemAt(mem, r.1) == Str(s)
    ensures EndOf(v) + EntrySize(prev, |s|) <= |mem| && mem[EndOf(v) + EntrySize(prev, |s|)..] == rest
  {
    hide PrevBytes, NextBytes, Entry, EntrySize, ZlinkVal, ZlinkNext, ZlinkPrev, ZprevCode, ZnextStrCode, ZlinkSize,
      IsImmed, ZipNext;
    var at := EndOf(v);
    var p, n := PrevBytes(prev), NextBytes(|s|);
    var pc, nc := ZprevCode(prev), ZnextStrCode(|s|);
    PrevRead(prev);
    NextRead(|s|, s + rest);
    EntryParts(prev, s);
    EntryLen(prev, |s|);
    Regroup(p, n, s);
    FourSlices(mem, at, p, n, s, rest);
    NextIs(mem, v, pc, nc, |s|);
  }

  /** Where each entry visited begins, counted from its prev field. */
  function ForwardStarts(mem: seq<Byte>, v: Lval): seq<nat>
    requires Inside(mem, HEADER, v)
    decreases |mem| - EndOf(v)
  {
    var r := ZipNext(mem, v);
    if r.0 then [EndOf(v)] + ForwardStarts(mem, r.1) else []
  }

  lemma ReadOne(mem: seq<Byte>, v: Lval)
    requires Inside(mem, HEADER, v) && ZipNext(mem, v).0
    ensures var r := ZipNext(mem, v).1;
      ZipElems(mem, v) == [ElemAt(mem, r)] + ZipElems(mem, r)
      && ForwardStarts(mem, v) == [EndOf(v)] + ForwardStarts(mem, r)
  {
    hide ZipNext, ElemAt;
  }

  lemma ReadEnd(mem: seq<Byte>, v: Lval)
    requires Inside(mem, HEADER, v) && mem[EndOf(v)..] == [0xff]
    ensures ZipElems(mem, v) == [] && ForwardStarts(mem, v) == []
  {
    hide ZlinkVal, ZlinkNext;
    assert mem[EndOf(v)] == mem[EndOf(v)..][0];
  }

  /** The format, one entry at a time. */
  lemma EntriesCons(at: nat, prev: nat, xs: seq<seq<Byte>>)
    requires xs != []
    ensures var size := EntrySize(prev, |xs[0]|);
      Starts(at, prev, xs) == [at] + Starts(at + size, size, xs[1..])
      && (Fits(prev, xs) ==>
            (prev < TWO32 && |xs[0]| < TWO32 && Fits(size, xs[1..])
             && Entries(prev, xs) == Entry(prev, xs[0]) + Entries(size, xs[1..])))
  {
    hide Entry;
  }

  lemma EntriesNil(at: nat, prev: nat, xs: seq<seq<Byte>>)
    requires xs == []
    ensures Starts(at, prev, xs) == [] && Strings(xs) == []
    ensures Fits(prev, xs) ==> Entries(prev, xs) + [0xff] == [0xff]
  {}

  lemma {:induction false} ReadEntries(mem: seq<Byte>, v: Lval, prev: nat, xs: seq<seq<Byte>>)
    requires Inside(mem, HEADER, v) && Fits(prev, xs)
    requires mem[EndOf(v)..] == Entries(prev, xs) + [0xff]
    ensures ZipElems(mem, v) == Strings(xs)
    ensures ForwardStarts(mem, v) == Starts(EndOf(v), prev, xs)
    decreases xs
  {
    hide ZipNext, Entry, EntrySize, Entries, Starts, ZipElems, ForwardStarts, ElemAt, Fits, Inside, EntriesSize, EndOf;
    if xs == [] {
      EntriesNil(EndOf(v), prev, xs);
      ReadEnd(mem, v);
    } else {
      EntriesCons(EndOf(v), prev, xs);
      var size := EntrySize(prev, |xs[0]|);
      var rest := Entries(size, xs[1..]);
      Regroup(Entry(prev, xs[0]), rest, [0xff]);
      NextEntry(mem, v, prev, xs[0], rest + [0xff]);
      ReadOne(mem, v);
      ReadEntries(mem, ZipNext(mem, v).1, size, xs[1..]);
      assert Strings(xs) == [Str(xs[0])] + Strings(xs[1..]);
    }
  }

  lemma HeaderSlices(total: nat, tail: nat, n: nat, body: seq<Byte>)
    requires total < TWO32 && tail < TWO32 && n < 0x1_0000 && total == 10 + |body| >= 11
    ensures var b := Le(total, 4) + Le(tail, 4) + Le(n, 2) + body;
      ZipInit(b) == Opened(Zip(b, tail, n)) && |b| == total && b[10..] == body
  {
    var b := Le(total, 4) + Le(tail, 4) + Le(n, 2) + body;
    assert Pow256(4) == TWO32 && Pow256(2) == 0x1_0000;
    LeRoundTrip(total, 4);
    LeRoundTrip(tail, 4);
    LeRoundTrip(n, 2);
    hide Le, FromLe, Pow256;
    assert b[..4] == Le(total, 4);
    assert b[4..8] == Le(tail, 4);
    assert b[8..10] == Le(n, 2);
    assert b[..total] == b;
  }

  lemma HeaderRead(xs: seq<seq<Byte>>, count: nat)
    requires ListFits(xs)
    ensures ZipInit(ZipBytes(xs, count)) == Opened(Zip(ZipBytes(xs, count), Tail(xs),
              if count <= 0xffff then count else 0xffff))
    ensures |ZipBytes(xs, count)| == 11 + EntriesSize(0, xs)
    ensures ZipBytes(xs, count)[10..] == Entries(0, xs) + [0xff]
  {
    var total, n := 11 + EntriesSize(0, xs), if count <= 0xffff then count else 0xffff;
    TailBound(10, 0, xs);
    HeaderSlices(total, Tail(xs), n, Entries(0, xs) + [0xff]);
    hide Le, FromLe, Entries, EntriesSize, Tail, ZipInit;
    Regroup(Le(total, 4) + Le(Tail(xs), 4) + Le(n, 2), Entries(0, xs), [0xff]);
  }

  lemma {:induction false} TailBound(at: nat, prev: nat, xs: seq<seq<Byte>>)
    ensures xs != [] ==> at <= LastStart(at, prev, xs) < at + EntriesSize(prev, xs)
    decreases xs
  {
    if |xs| > 1 {
      TailBound(at + EntrySize(prev, |xs[0]|), EntrySize(prev, |xs[0]|), xs[1..]);
    }
  }

  /** Ziplist round trip: what append_link and append_end leave in the buffer is opened, and first
      and next return exactly the strings in order, then false. */
  lemma RoundTrip(xs: seq<seq<Byte>>, count: nat)
    requires ListFits(xs)
    ensures var b := ZipBytes(xs, count);
      ZipInit(b).Opened? && ZipInit(b).zip.mem == b && Inside(b, HEADER, FIRST)
      && ZipElems(b, FIRST) == Strings(xs)
  {
    HeaderRead(xs, count);
    hide ZipBytes;
    ReadEntries(ZipBytes(xs, count), FIRST, 0, xs);
  }

  // ----- walking backward

  /** The prev field at at: the size of the entry before it. */
  function PrevAt(mem: seq<Byte>, at: nat): nat {
    if at >= |mem| then 0
    else if mem[at] < 0xfe then mem[at]
    else if at + 5 <= |mem| then FromLe(mem[at + 1..at + 5]) else 0
  }

  /** From the entry at at to the first one, through the prev fields; zero ends the walk. */
  function BackwardStarts(mem: seq<Byte>, at: nat): seq<nat>
    decreases at
  {
    var p := PrevAt(mem, at);
    if p == 0 || p > at then [at] else [at] + BackwardStarts(mem, at - p)
  }

  lemma PrevAtRead(mem: seq<Byte>, at: nat, prev: nat, rest: seq<Byte>)
    requires at <= |mem| && prev < TWO32 && mem[at..] == PrevBytes(prev) + rest
    ensures PrevAt(mem, at) == prev
  {
    TwoSlices(mem, at, PrevBytes(prev), rest);
    if prev >= 0xfe {
      assert mem[at..at + 5][1..] == Le(prev, 4);
      assert mem[at + 1..at + 5] == mem[at..at + 5][1..];
      LeRoundTrip(prev, 4);
    }
  }

  lemma BackStep(mem: seq<Byte>, at: nat, prev: nat)
    requires PrevAt(mem, at) == prev <= at
    ensures BackwardStarts(mem, at) == [at] + (if prev == 0 then [] else BackwardStarts(mem, at - prev))
  {
    hide PrevAt;
  }

  lemma LastStartCons(at: nat, prev: nat, xs: seq<seq<Byte>>)
    requires xs != []
    ensures var size := EntrySize(prev, |xs[0]|);
      LastStart(at, prev, xs) == (if |xs| == 1 then at else LastStart(at + size, size, xs[1..]))
  {}

  /** The backward walk from the last entry of xs first visits the entries of xs in reverse, and then
      goes on from the entry before them. */
  lemma {:induction false} BackwardEntries(mem: seq<Byte>, at: nat, prev: nat, xs: seq<seq<Byte>>)
    requires xs != [] && at <= |mem| && Fits(prev, xs) && prev <= at
    requires mem[at..] == Entries(prev, xs) + [0xff]
    ensures BackwardStarts(mem, LastStart(at, prev, xs))
         == Reversed(Starts(at, prev, xs)) + (if prev == 0 then [] else BackwardStarts(mem, at - prev))
    decreases xs
  {
    hide Entries, Entry, EntrySize, EntriesSize, PrevBytes, NextBytes, PrevAt, Starts, LastStart, BackwardStarts, Reversed,
      Fits, ZlinkSize, ZprevCode, ZnextStrCode;
    EntriesCons(at, prev, xs);
    LastStartCons(at, prev, xs);
    EntryParts(prev, xs[0]);
    EntryLen(prev, |xs[0]|);
    var size := EntrySize(prev, |xs[0]|);
    var rest, tail := Entries(size, xs[1..]), NextBytes(|xs[0]|) + xs[0];
    Regroup(Entry(prev, xs[0]), rest, [0xff]);
    TwoSlices(mem, at, Entry(prev, xs[0]), rest + [0xff]);
    Regroup(PrevBytes(prev), tail, rest + [0xff]);
    PrevAtRead(mem, at, prev, tail + (rest + [0xff]));
    BackStep(mem, at, prev);
    ReversedCons(at, Starts(at + size, size, xs[1..]));
    var back := if prev == 0 then [] else BackwardStarts(mem, at - prev);
    if |xs| > 1 {
      BackwardEntries(mem, at + size, size, xs[1..]);
      Regroup(Reversed(Starts(at + size, size, xs[1..])), [at], back);
    } else {
      EntriesNil(at + size, size, xs[1..]);
      ReversedNone();
      Regroup([], [at], back);
    }
  }

  /** For every nonempty written ziplist, the walk from zltail through the prev fields visits exactly
      the entries that first and next visit, in reverse. */
  lemma BackwardWalk(xs: seq<seq<Byte>>, count: nat)
    requires ListFits(xs) && xs != []
    ensures var b := ZipBytes(xs, count);
      ZipInit(b).Opened? && Inside(b, HEADER, FIRST) && |ForwardStarts(b, FIRST)| == |xs|
      && BackwardStarts(b, ZipInit(b).zip.zltail) == Reversed(ForwardStarts(b, FIRST))
  {
    HeaderRead(xs, count);
    hide ZipBytes;
    ReadEntries(ZipBytes(xs, count), FIRST, 0, xs);
    BackwardEntries(ZipBytes(xs, count), 10, 0, xs);
    StartsCount(10, 0, xs);
  }

  lemma {:induction false} StartsCount(at: nat, prev: nat, xs: seq<seq<Byte>>)
    ensures |Starts(at, prev, xs)| == |xs|
    decreases xs
  {
    if xs != [] {
      StartsCount(at + EntrySize(prev, |xs[0]|), EntrySize(prev, |xs[0]|), xs[1..]);
    }
  }

  // ----- the class

  class RdbZipList {
    var zlbytes: nat
    var zltail: nat
    var zllen: nat
    var mem: seq<Byte> // the memory from the head of the list on; data is at 10, end at zlbytes

    predicate Valid()
      reads this
    {
      11 <= zlbytes <= |mem|
    }

    function Bytes(): seq<Byte>
      reads this
      requires Valid()
    {
      mem[..zlbytes]
    }

    constructor () {
      zlbytes, zltail, zllen, mem := 0, 0, 0, [];
    }

    /** The declared size is not compared with the buffer: Valid can fail although true is returned. */
    method Init(b: seq<Byte>) returns (ok: bool)
      modifies this
      ensures ok <==> !ZipInit(b).Refused?
      ensures ok ==> (Valid() <==> ZipInit(b).Opened?)
      ensures ok && Valid() ==> ZipInit(b) == Opened(Zip(Bytes(), zltail, zllen))
    {
      if |b| < 10 {
        return false;
      }
      zlbytes, zltail, zllen := FromLe(b[..4]), FromLe(b[4..8]), FromLe(b[8..10]);
      mem := b;
      return zlbytes >= 11;
    }

    method First(lval: RdbListValue) returns (ok: bool)
      requires Valid()
      modifies lval
      ensures (ok, lval.View()) == ZipNext(Bytes(), FIRST)
    {
      lval.entry, lval.entryLen, lval.data, lval.dataLen, lval.ival := HEADER, 0, None, 0, 0;
      ok := Next(lval);
    }

    method Next(lval: RdbListValue) returns (ok: bool)
      requires Valid() && Inside(Bytes(), HEADER, lval.View())
      modifies lval
      ensures (ok, lval.View()) == ZipNext(Bytes(), old(lval.View()))
    {
      hide ZlinkVal, ZlinkNext, ZlinkPrev;
      lval.entry := lval.entry + lval.entryLen;
      lval.entryLen := zlbytes; // too long, unless replaced below
      lval.data, lval.dataLen, lval.ival := None, 0, 0;
      if lval.entry < zlbytes {
        var p := ZlinkPrev(mem[lval.entry]);
        if p == ZipEnd {
          return false;
        }
        lval.entry := lval.entry + ZlinkSize(p);
        if lval.entry < zlbytes {
          var n := ZlinkNext(mem[lval.entry]);
          var sz := ZlinkSize(n);
          var next := lval.entry + sz;
          if next <= zlbytes {
            lval.ival := ZlinkVal(n, Bytes()[lval.entry..]);
            if IsImmed(n) {
              lval.entryLen := sz;
            } else {
              StringLength(n, Bytes()[lval.entry..]);
              lval.entryLen, lval.data, lval.dataLen := sz + lval.ival, Some(next), lval.ival;
            }
          }
        }
      }
      return lval.entry + lval.entryLen <= zlbytes;
    }

    /** The loop of decode_ziplist and decode_quicklist for list values: first, then next until false. */
    method Collect() returns (out: seq<Elem>)
      requires Valid()
      ensures out == ZipElems(Bytes(), FIRST)
    {
      var lval := new RdbListValue();
      out := [];
      var more := First(lval);
      ghost var v := FIRST;
      while more
        invariant Inside(Bytes(), HEADER, v) && (more, lval.View()) == ZipNext(Bytes(), v)
        invariant out + ZipElems(Bytes(), v) == ZipElems(Bytes(), FIRST)
        decreases zlbytes - EndOf(v)
      {
        v := lval.View();
        out := out + [ElemAt(Bytes(), lval.View())];
        more := Next(lval);
      }
    }
  }
}
