/** Ziplists of strings and integers as Redis writes them, in every documented form (rdb.adoc:341-402): the
    reader visits each entry at its own offset and finds what was put there (src/rdb_decode.cpp:158-200,
    include/rdbparser/rdb_decode.h:240-366). */
module ZipMixed {
  import opened Bytes
  import opened ListValue
  import opened ZipList
  import opened ZipRead

  // ----- the layout

  /** A string; an integer behind a code byte, in size bytes; or an integer within its code byte. */
  datatype Item = Text(s: seq<Byte>) | Wide(x: int, size: nat) | Tiny(x: int)

  predicate ItemFits(i: Item) {
    match i
    case Text(s) => |s| < TWO32
    case Wide(x, size) => size in {1, 2, 3, 4, 8} && 0 - Half(size) <= x < Half(size)
    case Tiny(x) => 0 <= x <= 12
  }

  function CodeOf(size: nat): Byte {
    if size == 1 then 0xfe
    else if size == 2 then 0xc0
    else if size == 3 then 0xf0
    else if size == 4 then 0xd0
    else 0xe0
  }

  function ItemBytes(i: Item): (r: seq<Byte>)
    requires ItemFits(i)
  {
    match i
    case Text(s) => NextBytes(|s|) + s
    case Wide(x, size) => [CodeOf(size)] + Complement(x, size)
    case Tiny(x) => [0xf1 + x]
  }

  function ItemElem(i: Item): Elem {
    if i.Text? then Str(i.s) else Int(i.x)
  }

  function ItemElems(xs: seq<Item>): seq<Elem> {
    if xs == [] then [] else [ItemElem(xs[0])] + ItemElems(xs[1..])
  }

  function SizeAfter(prev: nat, i: Item): nat
    requires ItemFits(i) && prev < TWO32
  {
    |PrevBytes(prev)| + |ItemBytes(i)|
  }

  /** Every item fits its form, and every size fits 32 bits. */
  predicate AllFit(prev: nat, xs: seq<Item>)
    decreases xs
  {
    prev < TWO32 && (xs != [] ==> ItemFits(xs[0]) && AllFit(SizeAfter(prev, xs[0]), xs[1..]))
  }

  function MixedEntries(prev: nat, xs: seq<Item>): seq<Byte>
    requires AllFit(prev, xs)
    decreases xs
  {
    if xs == [] then []
    else PrevBytes(prev) + ItemBytes(xs[0]) + MixedEntries(SizeAfter(prev, xs[0]), xs[1..])
  }

  /** The offsets of the entries, the first one at at. */
  function MixedStarts(at: nat, prev: nat, xs: seq<Item>): (r: seq<nat>)
    requires AllFit(prev, xs)
    decreases xs
  {
    if xs == [] then []
    else
      var size := SizeAfter(prev, xs[0]);
      [at] + MixedStarts(at + size, size, xs[1..])
  }

  predicate MixedFits(xs: seq<Item>) {
    AllFit(0, xs) && 11 + |MixedEntries(0, xs)| < TWO32
  }

  /** Size, offset of the last entry, count, the entries, and an end mark. */
  function MixedBytes(xs: seq<Item>, tail: nat): seq<Byte>
    requires MixedFits(xs)
  {
    Le(11 + |MixedEntries(0, xs)|, 4) + Le(tail, 4) + Le(if |xs| <= 0xffff then |xs| else 0xffff, 2)
    + (MixedEntries(0, xs) + [0xff])
  }

  // ----- one entry

  /** The code of an integer and its value. */
  lemma IntRead(i: Item, rest: seq<Byte>)
    requires ItemFits(i) && !i.Text?
    ensures var p := ItemBytes(i) + rest; var n := ZlinkNext(p[0]);
      IsImmed(n) && ZlinkSize(n) == |ItemBytes(i)| > 0 && ZlinkVal(n, p) == i.x
  {
    if i.Wide? {
      ComplementIs(i.x, i.size);
      IntegerRead(i.x, i.size, rest);
    } else {
      TinyIntegerRead(i.x, rest);
    }
  }

  /** next on an integer. */
  lemma NextInt(mem: seq<Byte>, v: Lval, prev: nat, i: Item, rest: seq<Byte>)
    requires Inside(mem, HEADER, v) && prev < TWO32 && ItemFits(i) && !i.Text?
    requires mem[EndOf(v)..] == PrevBytes(prev) + ItemBytes(i) + rest
    ensures var e := EndOf(v) + |PrevBytes(prev)|;
      ZipNext(mem, v) == (true, Lval(e, |ItemBytes(i)|, None, 0, i.x)) && e + |ItemBytes(i)| <= |mem|
    ensures mem[EndOf(v) + SizeAfter(prev, i)..] == rest
  {
    hide PrevBytes, ItemBytes, ItemFits, ZlinkVal, ZlinkNext, ZlinkPrev, ZprevCode, ZlinkSize, IsImmed, ZipNext;
    var at, p, b := EndOf(v), PrevBytes(prev), ItemBytes(i);
    PrevRead(prev);
    PrevSize(prev);
    IntRead(i, rest);
    Regroup(p, b, rest);
    TwoSlices(mem, at, p, b + rest);
    NextImmedIs(mem, v, ZprevCode(prev), ZlinkNext((b + rest)[0]), i.x);
    TwoSlices(mem, at + |p|, b, rest);
  }

  lemma PrevSize(prev: nat)
    requires prev < TWO32
    ensures PrevBytes(prev) != []
  {}

  /** next on an entry that is an integer. */
  lemma NextImmedIs(mem: seq<Byte>, v: Lval, p: ZipLinkEnc, n: ZipLinkEnc, x: int)
    requires Inside(mem, HEADER, v)
    requires EndOf(v) < |mem| && ZlinkPrev(mem[EndOf(v)]) == p != ZipEnd
    requires var e := EndOf(v) + ZlinkSize(p);
      e < |mem| && ZlinkNext(mem[e]) == n && IsImmed(n) && e + ZlinkSize(n) <= |mem| && ZlinkVal(n, mem[e..]) == x
    ensures ZipNext(mem, v) == (true, Lval(EndOf(v) + ZlinkSize(p), ZlinkSize(n), None, 0, x))
  {
    hide ZlinkVal, ZlinkNext, ZlinkPrev, ZlinkSize, IsImmed;
  }

  lemma TextEntry(prev: nat, i: Item)
    requires prev < TWO32 && ItemFits(i) && i.Text?
    ensures PrevBytes(prev) + ItemBytes(i) == Entry(prev, i.s)
    ensures SizeAfter(prev, i) == EntrySize(prev, |i.s|)
  {
    hide PrevBytes, NextBytes, EntrySize;
    EntryLen(prev, |i.s|);
    Regroup(PrevBytes(prev), NextBytes(|i.s|), i.s);
  }

  /** next on any documented entry. */
  lemma NextItem(mem: seq<Byte>, v: Lval, prev: nat, i: Item, rest: seq<Byte>)
    requires Inside(mem, HEADER, v) && prev < TWO32 && ItemFits(i)
    requires mem[EndOf(v)..] == PrevBytes(prev) + ItemBytes(i) + rest
    ensures var r := ZipNext(mem, v);
      r.0 && Inside(mem, HEADER, r.1) && EndOf(r.1) == EndOf(v) + SizeAfter(prev, i) && ElemAt(mem, r.1) == ItemElem(i)
    ensures EndOf(v) + SizeAfter(prev, i) <= |mem| && mem[EndOf(v) + SizeAfter(prev, i)..] == rest
  {
    hide PrevBytes, ItemBytes, ItemFits, ZipNext, Entry, EntrySize;
    if i.Text? {
      TextFits(i);
      TextEntry(prev, i);
      NextEntry(mem, v, prev, i.s, rest);
    } else {
      NextInt(mem, v, prev, i, rest);
    }
  }

  lemma TextFits(i: Item)
    requires ItemFits(i) && i.Text?
    ensures |i.s| < TWO32
  {}

  // ----- the whole list

  lemma MixedCons(at: nat, prev: nat, xs: seq<Item>)
    requires AllFit(prev, xs) && xs != []
    ensures prev < TWO32 && ItemFits(xs[0])
    ensures var size := SizeAfter(prev, xs[0]);
      AllFit(size, xs[1..])
      && MixedEntries(prev, xs) == PrevBytes(prev) + ItemBytes(xs[0]) + MixedEntries(size, xs[1..])
      && MixedStarts(at, prev, xs) == [at] + MixedStarts(at + size, size, xs[1..])
      && ItemElems(xs) == [ItemElem(xs[0])] + ItemElems(xs[1..])
  {
    hide ItemBytes, ItemFits, PrevBytes;
  }

  lemma MixedNil(at: nat, prev: nat, xs: seq<Item>)
    requires AllFit(prev, xs) && xs == []
    ensures MixedEntries(prev, xs) + [0xff] == [0xff] && MixedStarts(at, prev, xs) == [] && ItemElems(xs) == []
  {}

  lemma {:induction false} ReadMixed(mem: seq<Byte>, v: Lval, prev: nat, xs: seq<Item>)
    requires Inside(mem, HEADER, v) && AllFit(prev, xs)
    requires mem[EndOf(v)..] == MixedEntries(prev, xs) + [0xff]
    ensures ZipElems(mem, v) == ItemElems(xs)
    ensures ForwardStarts(mem, v) == MixedStarts(EndOf(v), prev, xs)
    decreases xs
  {
    hide *;
    if xs == [] {
      MixedNil(EndOf(v), prev, xs);
      ReadEnd(mem, v);
    } else {
      MixedCons(EndOf(v), prev, xs);
      var size := SizeAfter(prev, xs[0]);
      var rest := MixedEntries(size, xs[1..]);
      Regroup(PrevBytes(prev) + ItemBytes(xs[0]), rest, [0xff]);
      NextItem(mem, v, prev, xs[0], rest + [0xff]);
      ReadOne(mem, v);
      ReadMixed(mem, ZipNext(mem, v).1, size, xs[1..]);
    }
  }

  /** Strings and integers in any order and in any documented form: first and next return exactly them, then
      false, and visit every entry where it was put. */
  lemma MixedRead(xs: seq<Item>, tail: nat)
    requires MixedFits(xs) && tail < TWO32
    ensures var b := MixedBytes(xs, tail);
      ZipInit(b) == Opened(Zip(b, tail, if |xs| <= 0xffff then |xs| else 0xffff)) && Inside(b, HEADER, FIRST)
      && ZipElems(b, FIRST) == ItemElems(xs) && ForwardStarts(b, FIRST) == MixedStarts(10, 0, xs)
  {
    hide AllFit, MixedEntries, MixedStarts, ItemElems, ZipElems, ForwardStarts;
    var total, n := 11 + |MixedEntries(0, xs)|, if |xs| <= 0xffff then |xs| else 0xffff;
    HeaderSlices(total, tail, n, MixedEntries(0, xs) + [0xff]);
    hide Le, ZipInit;
    ReadMixed(MixedBytes(xs, tail), FIRST, 0, xs);
  }
}
