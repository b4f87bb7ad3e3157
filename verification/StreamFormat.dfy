/** The layout of a stream value (rdb.adoc:643-768, src/rdb_decode.cpp:969-1144), and the proof that
    decode_stream finds in it exactly what was put there. */
module StreamFormat {
  import opened Bytes
  import opened LengthCodec
  import opened Bufptr
  import opened ListValue
  import opened Events
  import opened Values
  import opened StreamDecode
  import opened StreamJson
  import opened StreamLayout
  import opened Encoded
  import ListPack
  import ListPackRead
  import Stream
  import StreamArena
  import StreamRead
  import opened StreamLife

  // ----- the layout

  predicate IsId(id: StreamId) { id.ms < TWO64 && id.ser < TWO64 }

  function IdBytes(id: StreamId): (r: seq<Byte>)
    ensures |r| == 16
  {
    Be(id.ms, 8) + Be(id.ser, 8)
  }

  /** A block: its key, its entries, a listpack of them, and what that is compressed to, if it is. */
  datatype BlockDoc =
    BlockDoc(id: StreamId, deleted: nat, master: seq<Elem>, items: seq<Item>, pack: seq<Byte>, z: Option<seq<Byte>>)

  /** The elements of the listpack may be coded in any way that is read as what they are. */
  ghost predicate BlockFits(b: BlockDoc) {
    IsId(b.id) && ItemsFit(b.items, b.master) && |b.pack| < TWO64 && (b.z.Some? ==> |b.z.value| < TWO64)
    && ListPackRead.IsPack(b.pack, BlockElems(|b.items|, b.deleted, b.master, b.items))
  }

  /** Compressed listpacks inflate to what they were. */
  predicate Inflates(bs: seq<BlockDoc>, lzf: Inflater) {
    forall b | b in bs && b.z.Some? :: lzf(b.z.value, |b.pack|) == Some(b.pack)
  }

  lemma AsIs(b: BlockDoc, lzf: Inflater)
    requires b.z.None?
    ensures Inflates([b], lzf)
  {}

  function PackBytes(b: BlockDoc): seq<Byte>
    requires BlockFits(b)
  {
    match b.z
    case None => EncodeStr(b.pack)
    case Some(z) => [0xc3] + EncodeLen(|z|) + EncodeLen(|b.pack|) + z
  }

  function BlockBytes(b: BlockDoc): seq<Byte>
    requires BlockFits(b)
  {
    EncodeStr(IdBytes(b.id)) + PackBytes(b)
  }

  function BlocksBytes(bs: seq<BlockDoc>): seq<Byte>
    requires forall b | b in bs :: BlockFits(b)
  {
    if bs == [] then [] else BlockBytes(bs[0]) + BlocksBytes(bs[1..])
  }

  /** The entries that are not deleted, with their full ids. */
  function LiveItems(id: StreamId, items: seq<Item>): seq<LiveEntry>
    requires forall i | i in items :: |i.fields| == |i.values|
  {
    if items == [] then []
    else
      (if HasFlag1(items[0]) then [] else [ItemEntry(id, items[0])]) + LiveItems(id, items[1..])
  }

  /** The id of an entry is that of its block plus the differences, in 64 bits. */
  function ItemEntry(id: StreamId, i: Item): LiveEntry
    requires |i.fields| == |i.values|
  {
    LiveEntry(StreamId((id.ms + i.ms) % 0x1_0000_0000_0000_0000, (id.ser + i.ser) % 0x1_0000_0000_0000_0000),
      seq(|i.fields|, k requires 0 <= k < |i.fields| => (i.fields[k], i.values[k])))
  }

  /** The id of the block plus the differences of the entry, in 64 bits; and every field beside its value. */
  predicate IsReported(id: StreamId, i: Item, live: seq<LiveEntry>) {
    |i.fields| == |i.values|
    && LiveEntry(StreamId((id.ms + i.ms) % 0x1_0000_0000_0000_0000, (id.ser + i.ser) % 0x1_0000_0000_0000_0000),
         seq(|i.fields|, k requires 0 <= k < |i.fields| => (i.fields[k], i.values[k]))) in live
  }

  lemma {:induction false} LiveHas(bs: seq<BlockDoc>, b: BlockDoc, i: Item)
    requires (forall b | b in bs :: BlockFits(b)) && b in bs && i in b.items && i.flags % 2 == 0
    ensures IsReported(b.id, i, AllLive(bs))
    decreases bs
  {
    hide BlockFits, LiveItems;
    FieldsMatch(bs[0]);
    if b == bs[0] {
      LiveItemsHave(b.id, b.items, i);
    } else {
      assert b in bs[1..];
      LiveHas(bs[1..], b, i);
    }
  }

  lemma {:induction false} LiveItemsHave(id: StreamId, items: seq<Item>, i: Item)
    requires (forall i | i in items :: |i.fields| == |i.values|) && i in items && i.flags % 2 == 0
    ensures ItemEntry(id, i) in LiveItems(id, items)
    decreases items
  {
    hide ItemEntry;
    if i != items[0] {
      assert i in items[1..];
      LiveItemsHave(id, items[1..], i);
    }
  }

  lemma AddedIs(a: nat, d: int)
    ensures Added(a, Unsigned(d, 8)) == (a + d) % 0x1_0000_0000_0000_0000
  {
    EightBytes();
    var m := 0x1_0000_0000_0000_0000;
    var q := d / m;
    assert a + d == q * m + (a + d % m);
    UniqueMod(a + d, m, q + (a + d % m) / m, (a + d % m) % m);
  }

  function AllLive(bs: seq<BlockDoc>): seq<LiveEntry>
    requires forall b | b in bs :: BlockFits(b)
  {
    if bs == [] then []
    else
      FieldsMatch(bs[0]);
      LiveItems(bs[0].id, bs[0].items) + AllLive(bs[1..])
  }

  lemma FieldsMatch(b: BlockDoc)
    requires BlockFits(b)
    ensures forall i | i in b.items :: |i.fields| == |i.values|
  {
    forall i | i in b.items ensures |i.fields| == |i.values| {
      assert ItemFits(i, b.master);
    }
  }

  predicate AreLens(xs: seq<nat>) {
    forall i | 0 <= i < |xs| :: xs[i] < TWO64
  }

  function LenBytes(xs: seq<nat>): seq<Byte>
    requires AreLens(xs)
  {
    if xs == [] then [] else EncodeLen(xs[0]) + LenBytes(xs[1..])
  }

  /** Lengths of the second format that decode_stream reads and drops. */
  datatype Dropped = Dropped(count: nat, ids: seq<nat>, offsets: seq<nat>)

  // ----- lengths and ids

  lemma {:induction false} LensRead(xs: seq<nat>, rest: seq<Byte>)
    requires AreLens(xs)
    ensures Lens(Start(LenBytes(xs) + rest), |xs|) == (Ok, xs, Start(rest))
    decreases xs
  {
    hide EncodeLen, DecodeLen;
    if xs == [] {
      assert [] + rest == rest;
    } else {
      Regroup(EncodeLen(xs[0]), LenBytes(xs[1..]), rest);
      LenHeader(ZERO, xs[0], LenBytes(xs[1..]) + rest);
      LensRead(xs[1..], rest);
      assert [xs[0]] + xs[1..] == xs;
    }
  }

  lemma IdRead(id: StreamId)
    requires IsId(id)
    ensures IdAt(IdBytes(id)) == id && FromBe(IdBytes(id)[..8]) == id.ms && FromBe(IdBytes(id)[8..]) == id.ser
  {
    hide Be, FromBe;
    EightBytes();
    BeRoundTrip(id.ms, 8);
    BeRoundTrip(id.ser, 8);
    assert IdBytes(id)[..8] == Be(id.ms, 8);
    assert IdBytes(id)[8..] == Be(id.ser, 8) == IdBytes(id)[8..16];
  }

  lemma EightBytes()
    ensures Pow256(8) == TWO64
  {}

  // ----- blocks

  lemma PairsRead(mem: seq<Byte>, rec: Stream.Record, item: Item)
    requires |rec.fields| == |rec.values| && |item.fields| == |item.values|
    requires AllInside(mem, ListPack.LP_HEADER, rec.fields) && AllInside(mem, ListPack.LP_HEADER, rec.values)
    requires Means(mem, rec, item)
    ensures rec.flags == item.flags && rec.ms == Unsigned(item.ms, 8) && rec.ser == Unsigned(item.ser, 8)
    ensures FieldPairs(mem, rec.fields, rec.values)
         == seq(|item.fields|, k requires 0 <= k < |item.fields| => (item.fields[k], item.values[k]))
  {
    hide ElemAt, Unsigned;
    var fs, vs := Elems(mem, rec.fields), Elems(mem, rec.values);
    assert forall k | 0 <= k < |fs| :: fs[k] == ElemAt(mem, rec.fields[k]) && vs[k] == ElemAt(mem, rec.values[k]);
  }

  lemma {:induction false} LiveReads(mem: seq<Byte>, id: StreamId, v: Lval, master: seq<Lval>, items: seq<Item>)
    requires AllInside(mem, ListPack.LP_HEADER, master)
    requires ItemsFit(items, Elems(mem, master)) && Reads(mem, v, AllItems(items, Elems(mem, master)))
    requires forall i | i in items :: |i.fields| == |i.values|
    ensures Inside(mem, ListPack.LP_HEADER, v)
    ensures Live(mem, id, v, master, |items|) == (true, LiveItems(id, items))
    decreases items
  {
    hide Reads, Stream.RecordOf, ItemFits, ItemElems, Means, Inside, ElemAt, FieldPairs, Elems, AllInside, Unsigned, Added,
      Live, Stream.Deleted, HasFlag1;
    if items == [] {
      ReadsInside(mem, v, AllItems(items, Elems(mem, master)));
      StreamRead.LiveNone(mem, id, v, master);
    } else {
      var item := items[0];
      assert ItemFits(item, Elems(mem, master));
      ItemReads(mem, v, master, item, AllItems(items[1..], Elems(mem, master)));
      var r := Stream.RecordOf(mem, v, master).value;
      Stream.RecordInside(mem, v, master);
      PairsRead(mem, r.0, item);
      StreamRead.LiveStep(mem, id, v, master, |items|, []);
      FlagBits(item);
      AddedIs(id.ms, item.ms);
      AddedIs(id.ser, item.ser);
      assert StreamRead.EntryOf(mem, id, r.0) == ItemEntry(id, item);
      LiveReads(mem, id, r.1, master, items[1..]);
      var all := Live(mem, id, v, master, |items|).1;
      assert [] + all == all && [] + [ItemEntry(id, item)] == [ItemEntry(id, item)];
    }
  }

  lemma BlockEntries(b: BlockDoc)
    requires BlockFits(b)
    ensures (forall i | i in b.items :: |i.fields| == |i.values|)
    ensures EntriesIn(b.pack, b.id) == (Ok, LiveItems(b.id, b.items))
  {
    hide Stream.HeaderOf, Live, LiveItems, AllItems, ListPackRead.LpInit, ListPackRead.LpElems, Elems;
    var mem := ListPackRead.LpInit(b.pack).pack.mem;
    FieldsMatch(b);
    HeaderReads(mem, |b.items|, b.deleted, b.master, AllItems(b.items, b.master));
    hide Reads;
    var h := Stream.HeaderOf(mem).value;
    LiveReads(mem, b.id, h.1, h.0.master, b.items);
  }

  lemma PackRead(b: BlockDoc, rest: seq<Byte>, lzf: Inflater)
    requires BlockFits(b) && Inflates([b], lzf)
    ensures Blob(Start(PackBytes(b) + rest), lzf) == (Ok, b.pack, Left(rest, b.z.Some?))
  {
    hide EncodeLen, Blob, ListPackRead.IsPack;
    assert b in [b];
    AuxBlob(if b.z.Some? then Packed(b.z.value, b.pack) else Plain(Str(b.pack)), rest, false, lzf);
  }

  lemma KeyRead(b: BlockDoc, rest: seq<Byte>, was: bool, lzf: Inflater)
    requires BlockFits(b)
    ensures Blob(Left(BlockBytes(b) + rest, was), lzf) == (Ok, IdBytes(b.id), Start(PackBytes(b) + rest))
  {
    hide EncodeLen, Blob, ListPackRead.IsPack, IdBytes, PackBytes;
    Regroup(EncodeStr(IdBytes(b.id)), PackBytes(b), rest);
    AuxBlob(Plain(Str(IdBytes(b.id))), PackBytes(b) + rest, was, lzf);
  }

  lemma BlockReads(b: BlockDoc, rest: seq<Byte>, was: bool, lzf: Inflater)
    requires BlockFits(b) && Inflates([b], lzf)
    ensures (forall i | i in b.items :: |i.fields| == |i.values|)
    ensures Block(Left(BlockBytes(b) + rest, was), lzf) == (Ok, LiveItems(b.id, b.items), Left(rest, b.z.Some?))
  {
    hide Blob, EntriesIn, IdAt, ListPackRead.IsPack, LiveItems, IdBytes, BlockBytes, PackBytes, Left, Inflates;
    KeyRead(b, rest, was, lzf);
    IdRead(b.id);
    PackRead(b, rest, lzf);
    BlockEntries(b);
  }

  /** The last listpack was compressed. */
  predicate EndsPacked(bs: seq<BlockDoc>) { bs != [] && bs[|bs| - 1].z.Some? }

  lemma NoBlocks(c: Cursor, lzf: Inflater)
    ensures Blocks(c, lzf, 0) == (Ok, [], c) && Trace(c, lzf, 0) == []
  {}

  lemma {:induction false} BlocksRead(bs: seq<BlockDoc>, rest: seq<Byte>, was: bool, lzf: Inflater)
    requires (forall b | b in bs :: BlockFits(b)) && Inflates(bs, lzf)
    ensures Blocks(Left(BlocksBytes(bs) + rest, was), lzf, |bs|)
         == (Ok, AllLive(bs), Left(rest, if bs == [] then was else EndsPacked(bs)))
    decreases bs
  {
    hide Block, BlockBytes, BlockFits, LiveItems, Left;
    if bs == [] {
      assert [] + rest == rest;
      NoBlocks(Left(rest, was), lzf);
    } else {
      Regroup(BlockBytes(bs[0]), BlocksBytes(bs[1..]), rest);
      BlockReads(bs[0], BlocksBytes(bs[1..]) + rest, was, lzf);
      BlocksRead(bs[1..], rest, bs[0].z.Some?, lzf);
    }
  }

  // ----- what the blocks do to the memory

  function ItemKind(i: Item): Kind {
    if HasFlag2(i) then Same(!HasFlag1(i)) else Own(|i.fields|)
  }

  function ItemKinds(items: seq<Item>): seq<Kind> {
    if items == [] then [] else [ItemKind(items[0])] + ItemKinds(items[1..])
  }

  function DocTrace(bs: seq<BlockDoc>): seq<BlockLife> {
    if bs == [] then [] else [BlockLife(|bs[0].master|, ItemKinds(bs[0].items))] + DocTrace(bs[1..])
  }

  /** An entry that is read has its kind. */
  lemma KindOfRecord(mem: seq<Byte>, v: Lval, master: seq<Lval>, read: bool)
    requires Inside(mem, ListPack.LP_HEADER, v) && Stream.RecordOf(mem, v, master).Some?
    ensures var rec := Stream.RecordOf(mem, v, master).value.0;
      KindAt(mem, v, |master|, read) == Some(if Stream.SameFields(rec.flags) then Same(read) else Own(|rec.fields|))
  {
    hide Stream.HeadOf, Stream.CountOf, Stream.RecordOf, Inside, Stream.SameFields, Stream.Take, ListPackRead.LpNext,
      Unsigned;
    StreamArena.RecordParts(mem, v, master);
  }

  lemma {:induction false} KindsRead(mem: seq<Byte>, v: Lval, master: seq<Lval>, items: seq<Item>)
    requires AllInside(mem, ListPack.LP_HEADER, master)
    requires ItemsFit(items, Elems(mem, master)) && Reads(mem, v, AllItems(items, Elems(mem, master)))
    ensures Inside(mem, ListPack.LP_HEADER, v)
    ensures Kinds(mem, v, master, |items|) == ItemKinds(items)
    decreases items
  {
    hide Reads, Stream.RecordOf, ItemFits, ItemElems, Inside, ElemAt, Elems, AllInside, Unsigned,
      Stream.Deleted, Stream.SameFields, HasFlag1, HasFlag2, KindAt;
    if items == [] {
      ReadsInside(mem, v, AllItems(items, Elems(mem, master)));
    } else {
      var item := items[0];
      assert ItemFits(item, Elems(mem, master));
      ItemReads(mem, v, master, item, AllItems(items[1..], Elems(mem, master)));
      var r := Stream.RecordOf(mem, v, master);
      KindOfRecord(mem, v, master, IsRead(r));
      MeansKind(mem, r.value.0, item);
      FlagBits(item);
      hide Means;
      KindsRead(mem, r.value.1, master, items[1..]);
    }
  }

  lemma MeansKind(mem: seq<Byte>, rec: Stream.Record, item: Item)
    requires AllInside(mem, ListPack.LP_HEADER, rec.fields) && AllInside(mem, ListPack.LP_HEADER, rec.values)
    requires Means(mem, rec, item)
    ensures rec.flags == item.flags && |rec.fields| == |item.fields|
  {
    hide ElemAt, Unsigned, Inside;
  }

  lemma BlockTrace(b: BlockDoc)
    requires BlockFits(b)
    ensures TraceIn(b.pack) == [BlockLife(|b.master|, ItemKinds(b.items))]
  {
    hide Stream.HeaderOf, Stream.Counts, Kinds, AllItems, ListPackRead.LpInit, ListPackRead.LpElems, Elems;
    var mem := ListPackRead.LpInit(b.pack).pack.mem;
    HeaderReads(mem, |b.items|, b.deleted, b.master, AllItems(b.items, b.master));
    hide Reads;
    StreamRead.CountsFirst(mem);
    var h := Stream.HeaderOf(mem).value;
    KindsRead(mem, h.1, h.0.master, b.items);
  }

  lemma BlockTraceRead(b: BlockDoc, rest: seq<Byte>, was: bool, lzf: Inflater)
    requires BlockFits(b) && Inflates([b], lzf)
    ensures TraceOf(Left(BlockBytes(b) + rest, was), lzf) == [BlockLife(|b.master|, ItemKinds(b.items))]
  {
    hide Blob, TraceIn, ListPackRead.IsPack, ItemKinds, IdBytes, BlockBytes, PackBytes, Left, Inflates;
    KeyRead(b, rest, was, lzf);
    PackRead(b, rest, lzf);
    BlockTrace(b);
  }

  lemma {:induction false} BlocksTrace(bs: seq<BlockDoc>, rest: seq<Byte>, was: bool, lzf: Inflater)
    requires (forall b | b in bs :: BlockFits(b)) && Inflates(bs, lzf)
    ensures Trace(Left(BlocksBytes(bs) + rest, was), lzf, |bs|) == DocTrace(bs)
    decreases bs
  {
    hide Block, TraceOf, BlockBytes, BlockFits, LiveItems, ItemKinds, Left;
    if bs == [] {
      NoBlocks(Left(BlocksBytes(bs) + rest, was), lzf);
    } else {
      Regroup(BlockBytes(bs[0]), BlocksBytes(bs[1..]), rest);
      BlockReads(bs[0], BlocksBytes(bs[1..]) + rest, was, lzf);
      BlockTraceRead(bs[0], BlocksBytes(bs[1..]) + rest, was, lzf);
      BlocksTrace(bs[1..], rest, bs[0].z.Some?, lzf);
    }
  }

  // ----- what is known about the stream

  predicate DropsFit(x: Dropped, groups: nat) {
    x.count < TWO64 && |x.ids| == 4 && AreLens(x.ids) && |x.offsets| == groups && AreLens(x.offsets)
  }

  /** Element count, last id, and the number of groups. The second format has two more ids, and the count
      that is reported comes behind them. */
  function InfoBytes(numElems: nat, last: StreamId, groups: nat, v2: bool, x: Dropped): seq<Byte>
    requires numElems < TWO64 && IsId(last) && groups < TWO64 && (v2 ==> x.count < TWO64 && AreLens(x.ids))
  {
    EncodeLen(if v2 then x.count else numElems)
    + (LenBytes([last.ms, last.ser]) + ((if v2 then LenBytes(x.ids) + EncodeLen(numElems) else []) + LenBytes([groups])))
  }

  lemma RecountRead(numElems: nat, num: Length, v2: bool, x: Dropped, rest: seq<Byte>)
    requires numElems < TWO64 && !num.torn && (if v2 then |x.ids| == 4 && AreLens(x.ids) else num.len == numElems)
    ensures Recount(Start((if v2 then LenBytes(x.ids) + EncodeLen(numElems) else []) + rest), v2, num)
         == (Ok, numElems, Start(rest))
  {
    hide LenBytes, EncodeLen, Lens, DecodeLen;
    if v2 {
      Regroup(LenBytes(x.ids), EncodeLen(numElems), rest);
      LensRead(x.ids, EncodeLen(numElems) + rest);
      LenHeader(num, numElems, rest);
    } else {
      assert [] + rest == rest;
    }
  }

  /** Behind the blocks, whether the last one was compressed or not. */
  lemma InfoLeft(numElems: nat, last: StreamId, groups: nat, v2: bool, x: Dropped, rest: seq<Byte>, was: bool)
    requires numElems < TWO64 && IsId(last) && groups < TWO64 && (v2 ==> x.count < TWO64 && AreLens(x.ids))
    ensures var b := InfoBytes(numElems, last, groups, v2, x) + rest;
      InfoOf(Left(b, was), v2) == InfoOf(Start(b), v2)
  {
    hide LenBytes, EncodeLen, Lens, DecodeLen, Recount, Left;
    EncodedSize(if v2 then x.count else numElems);
    LeftLen(InfoBytes(numElems, last, groups, v2, x) + rest, was, ZERO);
  }

  lemma InfoRead(numElems: nat, last: StreamId, groups: nat, v2: bool, x: Dropped, rest: seq<Byte>)
    requires numElems < TWO64 && IsId(last) && groups < TWO64
    requires v2 ==> x.count < TWO64 && |x.ids| == 4 && AreLens(x.ids)
    ensures InfoOf(Start(InfoBytes(numElems, last, groups, v2, x) + rest), v2)
         == (Ok, [Info(last, numElems, groups)], Start(rest))
  {
    hide LenBytes, EncodeLen, Lens, DecodeLen, Recount;
    var n := if v2 then x.count else numElems;
    var ids, again, count := LenBytes([last.ms, last.ser]), if v2 then LenBytes(x.ids) + EncodeLen(numElems) else [],
                             LenBytes([groups]);
    Regroup(EncodeLen(n), ids + (again + count), rest);
    Regroup(ids, again + count, rest);
    Regroup(again, count, rest);
    LenHeader(ZERO, n, ids + (again + (count + rest)));
    LensRead([last.ms, last.ser], again + (count + rest));
    RecountRead(numElems, ZERO.(len := n), v2, x, count + rest);
    LensRead([groups], rest);
  }

  // ----- groups

  predicate PendFits(p: Pend) { IsId(p.id) && p.lastDelivery < TWO64 && p.deliveryCnt < TWO64 }

  function PendBytes(p: Pend): seq<Byte>
    requires PendFits(p)
  {
    IdBytes(p.id) + (Le(p.lastDelivery, 8) + EncodeLen(p.deliveryCnt))
  }

  function PendsBytes(ps: seq<Pend>): seq<Byte>
    requires forall p | p in ps :: PendFits(p)
  {
    if ps == [] then [] else PendBytes(ps[0]) + PendsBytes(ps[1..])
  }

  function IdsBytes(ids: seq<StreamId>): seq<Byte> {
    if ids == [] then [] else IdBytes(ids[0]) + IdsBytes(ids[1..])
  }

  lemma PendRead(p: Pend, rest: seq<Byte>)
    requires PendFits(p)
    ensures PendOf(Start(PendBytes(p) + rest)) == (Ok, [p], Start(rest))
  {
    hide EncodeLen, DecodeLen, Incr, Be, FromBe, Le, FromLe, IdBytes;
    var last, cnt := Le(p.lastDelivery, 8), EncodeLen(p.deliveryCnt);
    Regroup(IdBytes(p.id), last + cnt, rest);
    Regroup(last, cnt, rest);
    TakeData(IdBytes(p.id), last + (cnt + rest));
    IdRead(p.id);
    TakeData(last, cnt + rest);
    EightBytes();
    LeRoundTrip(p.lastDelivery, 8);
    LenHeader(ZERO, p.deliveryCnt, rest);
  }

  lemma {:induction false} PendsRead(ps: seq<Pend>, rest: seq<Byte>)
    requires forall p | p in ps :: PendFits(p)
    ensures Pends(Start(PendsBytes(ps) + rest), |ps|) == (Ok, ps, Start(rest))
    decreases ps
  {
    hide PendOf, PendBytes, PendFits;
    if ps == [] {
      assert [] + rest == rest;
    } else {
      Regroup(PendBytes(ps[0]), PendsBytes(ps[1..]), rest);
      PendRead(ps[0], PendsBytes(ps[1..]) + rest);
      PendsRead(ps[1..], rest);
      assert [ps[0]] + ps[1..] == ps;
    }
  }

  lemma {:induction false} IdsRead(ids: seq<StreamId>, rest: seq<Byte>)
    requires forall id | id in ids :: IsId(id)
    ensures Ids(Start(IdsBytes(ids) + rest), |ids|) == (Ok, ids, Start(rest))
    decreases ids
  {
    hide Incr, IdBytes, FromBe, IsId;
    if ids == [] {
      assert [] + rest == rest;
    } else {
      Regroup(IdBytes(ids[0]), IdsBytes(ids[1..]), rest);
      TakeData(IdBytes(ids[0]), IdsBytes(ids[1..]) + rest);
      IdRead(ids[0]);
      IdsRead(ids[1..], rest);
      assert [ids[0]] + ids[1..] == ids;
    }
  }

  predicate ConsFits(d: ConsDoc) {
    |d.name| < TWO64 && d.lastSeen < TWO64 && |d.ids| < TWO64 && forall id | id in d.ids :: IsId(id)
  }

  function ConsBytes(d: ConsDoc): seq<Byte>
    requires ConsFits(d)
  {
    EncodeStr(d.name) + (Le(d.lastSeen, 8) + (EncodeLen(|d.ids|) + IdsBytes(d.ids)))
  }

  function ConssBytes(ds: seq<ConsDoc>): seq<Byte>
    requires forall d | d in ds :: ConsFits(d)
  {
    if ds == [] then [] else ConsBytes(ds[0]) + ConssBytes(ds[1..])
  }

  lemma ConsRead(d: ConsDoc, num: nat, rest: seq<Byte>, lzf: Inflater)
    requires ConsFits(d)
    ensures ConsumerRun(Start(ConsBytes(d) + rest), lzf, num) == (Done, ConsEvents(d, num), Start(rest))
  {
    hide EncodeStr, EncodeLen, DecodeLen, Incr, Le, FromLe, IdsBytes, Blob, Ids, Wrapped, IdEvents;
    var name, seen, cnt, ids := EncodeStr(d.name), Le(d.lastSeen, 8), EncodeLen(|d.ids|), IdsBytes(d.ids);
    Regroup(name, seen + (cnt + ids), rest);
    Regroup(seen, cnt + ids, rest);
    Regroup(cnt, ids, rest);
    BlobRoundTrip(d.name, seen + (cnt + (ids + rest)), lzf);
    TakeData(seen, cnt + (ids + rest));
    EightBytes();
    LeRoundTrip(d.lastSeen, 8);
    LenHeader(ZERO, |d.ids|, ids + rest);
    IdsRead(d.ids, rest);
  }

  lemma {:induction false} ConssRead(ds: seq<ConsDoc>, num: nat, rest: seq<Byte>, lzf: Inflater)
    requires forall d | d in ds :: ConsFits(d)
    ensures ConsumersRun(Start(ConssBytes(ds) + rest), lzf, |ds|, num) == (Done, ConssEvents(ds, num), Start(rest))
    decreases ds
  {
    hide ConsumerRun, ConsBytes, ConsFits, ConsEvents;
    if ds == [] {
      assert [] + rest == rest;
    } else {
      Regroup(ConsBytes(ds[0]), ConssBytes(ds[1..]), rest);
      ConsRead(ds[0], num, ConssBytes(ds[1..]) + rest, lzf);
      ConssRead(ds[1..], num + 1, rest, lzf);
    }
  }

  predicate GroupFits(d: GroupDoc) {
    |d.name| < TWO64 && IsId(d.last) && |d.pends| < TWO64 && |d.conss| < TWO64
    && (forall p | p in d.pends :: PendFits(p)) && (forall c | c in d.conss :: ConsFits(c))
  }

  /** The pending entries and the consumers of a group. */
  function RestBytes(d: GroupDoc): seq<Byte>
    requires GroupFits(d)
  {
    PendsBytes(d.pends) + (EncodeLen(|d.conss|) + ConssBytes(d.conss))
  }

  function HeadBytes(d: GroupDoc, v2: bool, offset: nat): seq<Byte>
    requires GroupFits(d) && offset < TWO64
  {
    EncodeStr(d.name) + (LenBytes([d.last.ms, d.last.ser]) + ((if v2 then EncodeLen(offset) else []) + EncodeLen(|d.pends|)))
  }

  function GroupsBytes(ds: seq<GroupDoc>, v2: bool, offsets: seq<nat>): seq<Byte>
    requires (forall d | d in ds :: GroupFits(d)) && |offsets| == |ds| && AreLens(offsets)
    decreases ds
  {
    if ds == [] then []
    else HeadBytes(ds[0], v2, offsets[0]) + (RestBytes(ds[0]) + GroupsBytes(ds[1..], v2, offsets[1..]))
  }

  lemma RestRead(d: GroupDoc, rest: seq<Byte>, lzf: Inflater)
    requires GroupFits(d)
    ensures GroupRest(Start(RestBytes(d) + rest), lzf, |d.pends|) == (Done, RestEvents(d), Start(rest))
  {
    hide Pends, PendsBytes, EncodeLen, DecodeLen, ConssBytes, ConsumersRun, Wrapped, PendEvents, ConssEvents;
    var ps, cnt, cs := PendsBytes(d.pends), EncodeLen(|d.conss|), ConssBytes(d.conss);
    Regroup(ps, cnt + cs, rest);
    Regroup(cnt, cs, rest);
    PendsRead(d.pends, cnt + (cs + rest));
    LenHeader(ZERO, |d.conss|, cs + rest);
    ConssRead(d.conss, 0, rest, lzf);
  }

  lemma HeadRead(d: GroupDoc, v2: bool, offset: nat, off: Length, rest: seq<Byte>, lzf: Inflater)
    requires GroupFits(d) && offset < TWO64 && !off.torn
    ensures GroupHeadOf(Start(HeadBytes(d, v2, offset) + rest), lzf, v2, off)
         == (Done, [GroupHead(d.name, d.last, |d.pends|)], Start(rest), if v2 then off.(len := offset) else off)
  {
    hide EncodeStr, LenBytes, EncodeLen, Blob, Lens, DecodeLen;
    var name, ids := EncodeStr(d.name), LenBytes([d.last.ms, d.last.ser]);
    var o, cnt := if v2 then EncodeLen(offset) else [], EncodeLen(|d.pends|);
    Regroup(name, ids + (o + cnt), rest);
    Regroup(ids, o + cnt, rest);
    Regroup(o, cnt, rest);
    BlobRoundTrip(d.name, ids + (o + (cnt + rest)), lzf);
    LensRead([d.last.ms, d.last.ser], o + (cnt + rest));
    if v2 {
      LenHeader(off, offset, cnt + rest);
    } else {
      assert [] + (cnt + rest) == cnt + rest;
    }
    LenHeader(ZERO, |d.pends|, rest);
  }

  lemma {:induction false} GroupsRead(ds: seq<GroupDoc>, v2: bool, offsets: seq<nat>, num: nat, off: Length,
                                      rest: seq<Byte>, lzf: Inflater)
    requires (forall d | d in ds :: GroupFits(d)) && |offsets| == |ds| && AreLens(offsets) && !off.torn
    ensures GroupsRun(Start(GroupsBytes(ds, v2, offsets) + rest), lzf, v2, |ds|, num, off)
         == (Done, GroupsEvents(ds, num), Start(rest))
    decreases ds
  {
    hide GroupHeadOf, GroupRest, HeadBytes, RestBytes, RestEvents, GroupFits;
    if ds == [] {
      assert [] + rest == rest;
    } else {
      var d, tail := ds[0], GroupsBytes(ds[1..], v2, offsets[1..]);
      Regroup(HeadBytes(d, v2, offsets[0]), RestBytes(d) + tail, rest);
      Regroup(RestBytes(d), tail, rest);
      HeadRead(d, v2, offsets[0], off, RestBytes(d) + (tail + rest), lzf);
      RestRead(d, tail + rest, lzf);
      GroupsRead(ds[1..], v2, offsets[1..], num + 1, if v2 then off.(len := offsets[0]) else off, rest, lzf);
    }
  }

  // ----- the whole

  ghost predicate StreamFits(bs: seq<BlockDoc>, numElems: nat, last: StreamId, groups: seq<GroupDoc>, x: Dropped) {
    |bs| < TWO64 && (forall b | b in bs :: BlockFits(b))
    && numElems < TWO64 && IsId(last) && |groups| < TWO64 && (forall d | d in groups :: GroupFits(d))
    && DropsFit(x, |groups|)
  }

  function StreamBytes(bs: seq<BlockDoc>, numElems: nat, last: StreamId, groups: seq<GroupDoc>, v2: bool, x: Dropped): seq<Byte>
    requires StreamFits(bs, numElems, last, groups, x)
  {
    BlocksBytes(bs) + (InfoBytes(numElems, last, |groups|, v2, x) + GroupsBytes(groups, v2, x.offsets))
  }

  /** decode_stream finds in a stream value what it was made of: the entries that are not deleted with their
      full ids, fields and values, the stream's own numbers, and every group, pending entry and consumer. It
      does so exactly if the blocks keep the rule of module StreamLife. */
  lemma StreamRoundTrip(bs: seq<BlockDoc>, numElems: nat, last: StreamId, groups: seq<GroupDoc>, v2: bool, x: Dropped,
                        rest: seq<Byte>, lzf: Inflater)
    requires StreamFits(bs, numElems, last, groups, x) && Inflates(bs, lzf)
    ensures var r := StreamRun(Start(StreamBytes(bs, numElems, last, groups, v2, x) + rest), lzf, v2, |bs|);
      if Safe(DocTrace(bs)) then r == (Done, DocEvents(StreamDoc(AllLive(bs), last, numElems, groups)), Start(rest))
      else r.0 == Released
    ensures forall b, i | b in bs && i in b.items && i.flags % 2 == 0 :: IsReported(b.id, i, AllLive(bs))
  {
    hide BlocksBytes, InfoBytes, GroupsBytes, IntactRun, AllLive, DocTrace, Trace, Safe, Faults, BlockFits, GroupFits,
      DocEvents, IsReported, Inflates;
    forall b, i | b in bs && i in b.items && i.flags % 2 == 0 ensures IsReported(b.id, i, AllLive(bs)) {
      LiveHas(bs, b, i);
    }
    var blocks, info, gs := BlocksBytes(bs), InfoBytes(numElems, last, |groups|, v2, x), GroupsBytes(groups, v2, x.offsets);
    Regroup(blocks, info + gs, rest);
    BlocksTrace(bs, info + gs + rest, false, lzf);
    FaultsExactly(DocTrace(bs));
    IntactRoundTrip(bs, numElems, last, groups, v2, x, rest, lzf);
  }

  lemma IntactRoundTrip(bs: seq<BlockDoc>, numElems: nat, last: StreamId, groups: seq<GroupDoc>, v2: bool, x: Dropped,
                        rest: seq<Byte>, lzf: Inflater)
    requires StreamFits(bs, numElems, last, groups, x) && Inflates(bs, lzf)
    ensures IntactRun(Start(StreamBytes(bs, numElems, last, groups, v2, x) + rest), lzf, v2, |bs|)
         == (Done, DocEvents(StreamDoc(AllLive(bs), last, numElems, groups)), Start(rest))
  {
    hide BlocksBytes, InfoBytes, GroupsBytes, Blocks, InfoOf, GroupsRun, Wrapped, EntryEvents, GroupsEvents, AllLive, Inflates;
    var blocks, info, gs := BlocksBytes(bs), InfoBytes(numElems, last, |groups|, v2, x), GroupsBytes(groups, v2, x.offsets);
    Regroup(blocks, info + gs, rest);
    Regroup(info, gs, rest);
    BlocksRead(bs, info + (gs + rest), false, lzf);
    InfoLeft(numElems, last, |groups|, v2, x, gs + rest, EndsPacked(bs));
    InfoRead(numElems, last, |groups|, v2, x, gs + rest);
    GroupsRead(groups, v2, x.offsets, 0, ZERO, rest, lzf);
  }
}
