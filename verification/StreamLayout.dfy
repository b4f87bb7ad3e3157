/** Stream blocks parse back: what rdb.adoc:712-739 lays out as a listpack is read by read_header and
    read_entry into exactly the fields and values it was made of. */
module StreamLayout {
  import opened Bytes
  import opened ListValue
  import opened ListPack
  import opened ListPackRead
  import opened Stream

  // ----- the layout

  /** An entry to be written; with SAMEFIELDS its fields are those of the block. */
  datatype Item = Item(flags: nat, ms: int, ser: int, fields: seq<Elem>, values: seq<Elem>)

  function Interleave(fields: seq<Elem>, values: seq<Elem>): (r: seq<Elem>)
    requires |fields| == |values|
    ensures |r| == 2 * |fields|
    ensures forall i | 0 <= i < |fields| :: r[2 * i] == fields[i] && r[2 * i + 1] == values[i]
  {
    if fields == [] then []
    else Interleave(fields[..|fields| - 1], values[..|values| - 1]) + [fields[|fields| - 1], values[|values| - 1]]
  }

  /** Flag 1: the entry is deleted. Flag 2: it has the fields of its block. */
  predicate HasFlag1(item: Item) { item.flags % 4 == 1 || item.flags % 4 == 3 }
  predicate HasFlag2(item: Item) { item.flags % 4 == 2 || item.flags % 4 == 3 }

  lemma FlagBits(item: Item)
    ensures HasFlag1(item) <==> Deleted(item.flags)
    ensures HasFlag2(item) <==> SameFields(item.flags)
  {}

  function ItemElems(item: Item): seq<Elem>
    requires |item.fields| == |item.values|
  {
    var n := |item.fields|;
    var head := [Int(item.flags), Int(item.ms), Int(item.ser)];
    if HasFlag2(item) then head + (item.values + [Int(3 + n)])
    else head + ([Int(n)] + (Interleave(item.fields, item.values) + [Int(4 + 2 * n)]))
  }

  predicate ItemFits(item: Item, master: seq<Elem>) {
    |item.fields| == |item.values| && item.flags < TWO32 && (HasFlag2(item) ==> item.fields == master)
  }

  predicate ItemsFit(items: seq<Item>, master: seq<Elem>) {
    forall item | item in items :: ItemFits(item, master)
  }

  function AllItems(items: seq<Item>, master: seq<Elem>): seq<Elem>
    requires ItemsFit(items, master)
  {
    if items == [] then []
    else
      assert ItemFits(items[0], master);
      ItemElems(items[0]) + AllItems(items[1..], master)
  }

  function BlockElems(count: nat, deleted: nat, master: seq<Elem>, items: seq<Item>): seq<Elem>
    requires ItemsFit(items, master)
  {
    [Int(count), Int(deleted), Int(|master|)] + (master + ([Int(0)] + AllItems(items, master)))
  }

  // ----- reading elements

  /** What the traversal behind v will yield. */
  ghost predicate Reads(mem: seq<Byte>, v: Lval, xs: seq<Elem>) {
    Inside(mem, LP_HEADER, v) && LpElems(mem, v) == xs
  }

  function Elems(mem: seq<Byte>, vs: seq<Lval>): (r: seq<Elem>)
    requires AllInside(mem, LP_HEADER, vs)
    ensures |r| == |vs| && forall i | 0 <= i < |vs| :: r[i] == ElemAt(mem, vs[i])
  {
    seq(|vs|, i requires 0 <= i < |vs| => ElemAt(mem, vs[i]))
  }

  lemma Step(mem: seq<Byte>, v: Lval, x: Elem, xs: seq<Elem>)
    requires Reads(mem, v, [x] + xs)
    ensures Inside(mem, LP_HEADER, v)
    ensures var r := LpNext(mem, v); r.0 && ElemAt(mem, r.1) == x && Reads(mem, r.1, xs)
  {
    hide LpNext, ElemAt, LpElems;
    ReadOne(mem, v);
    var r := LpNext(mem, v);
    assert ([x] + xs)[0] == x && ([x] + xs)[1..] == xs;
    assert r.0 ==> ([ElemAt(mem, r.1)] + LpElems(mem, r.1))[1..] == LpElems(mem, r.1);
  }

  lemma {:induction false} TakeReads(mem: seq<Byte>, v: Lval, xs: seq<Elem>, rest: seq<Elem>)
    requires Reads(mem, v, xs + rest)
    ensures Inside(mem, LP_HEADER, v) && Take(mem, v, |xs|).Some?
    ensures var t := Take(mem, v, |xs|).value; Elems(mem, t.0) == xs && Reads(mem, t.1, rest)
    decreases |xs|
  {
    hide LpNext, ElemAt, Reads, Take, Elems, AllInside, Inside;
    ReadsInside(mem, v, xs + rest);
    if xs == [] {
      TakeNone(mem, v);
      assert [] + rest == rest;
    } else {
      var n := |xs| - 1;
      assert xs + rest == xs[..n] + ([xs[n]] + rest);
      TakeReads(mem, v, xs[..n], [xs[n]] + rest);
      Step(mem, Take(mem, v, n).value.1, xs[n], rest);
      TakeOne(mem, v, n);
      assert xs == xs[..n] + [xs[n]];
    }
  }

  lemma TakeNone(mem: seq<Byte>, v: Lval)
    requires Inside(mem, LP_HEADER, v)
    ensures Take(mem, v, 0) == Some(([], v)) && Elems(mem, []) == []
  {}

  lemma TakeOne(mem: seq<Byte>, v: Lval, n: nat)
    requires Inside(mem, LP_HEADER, v) && Take(mem, v, n).Some?
    requires LpNext(mem, Take(mem, v, n).value.1).0
    ensures Take(mem, v, n + 1).Some?
    ensures var t, r := Take(mem, v, n).value, LpNext(mem, Take(mem, v, n).value.1).1;
      Take(mem, v, n + 1).value.1 == r && Elems(mem, Take(mem, v, n + 1).value.0) == Elems(mem, t.0) + [ElemAt(mem, r)]
  {
    hide LpNext, ElemAt;
  }

  lemma ReadsInside(mem: seq<Byte>, v: Lval, xs: seq<Elem>)
    requires Reads(mem, v, xs)
    ensures Inside(mem, LP_HEADER, v)
  {}

  lemma ReadsFits(mem: seq<Byte>, v: Lval, xs: seq<Elem>, i: int)
    requires Reads(mem, v, xs) && Int(i) in xs
    ensures IsInt64(i)
  {
    hide LpElems;
    IntsFit(mem, v, i);
  }

  /** One immediate integer. */
  lemma TakeInt(mem: seq<Byte>, v: Lval, i: int, rest: seq<Elem>)
    requires Reads(mem, v, [Int(i)] + rest)
    ensures Inside(mem, LP_HEADER, v) && Take(mem, v, 1).Some?
    ensures var t := Take(mem, v, 1).value;
      Immediate(t.0, 1) && t.0[0].ival == i && Reads(mem, t.1, rest)
  {
    hide Reads, Take;
    TakeReads(mem, v, [Int(i)], rest);
    var t := Take(mem, v, 1).value;
    assert ElemAt(mem, t.0[0]) == Elems(mem, t.0)[0];
  }

  /** Three immediate integers. */
  lemma TakeInts(mem: seq<Byte>, v: Lval, i: int, j: int, k: int, rest: seq<Elem>)
    requires Reads(mem, v, [Int(i), Int(j), Int(k)] + rest)
    ensures Inside(mem, LP_HEADER, v) && Take(mem, v, 3).Some?
    ensures var t := Take(mem, v, 3).value;
      Immediate(t.0, 3) && t.0[0].ival == i && t.0[1].ival == j && t.0[2].ival == k && Reads(mem, t.1, rest)
  {
    hide Reads, Take;
    TakeReads(mem, v, [Int(i), Int(j), Int(k)], rest);
    var t := Take(mem, v, 3).value;
    assert forall n | 0 <= n < 3 :: ElemAt(mem, t.0[n]) == Elems(mem, t.0)[n];
  }

  lemma Small(i: nat)
    requires IsInt64(i)
    ensures Unsigned(i, 8) == i
  {
    assert Pow256(8) == TWO64;
    ModSmall(i, Pow256(8));
  }

  lemma SmallFlags(i: nat)
    requires i < TWO32
    ensures Unsigned(i, 4) == i
  {
    assert Pow256(4) == TWO32;
    ModSmall(i, Pow256(4));
  }

  // ----- the header

  /** The header of a written block is read into its counts and master fields. */
  lemma HeaderReads(mem: seq<Byte>, count: nat, deleted: nat, master: seq<Elem>, rest: seq<Elem>)
    requires Reads(mem, FIRST, [Int(count), Int(deleted), Int(|master|)] + (master + ([Int(0)] + rest)))
    ensures |mem| >= LP_HEADER && HeaderOf(mem).Some?
    ensures var h, v := HeaderOf(mem).value.0, HeaderOf(mem).value.1;
      h.items == count && h.deleted == deleted && Reads(mem, v, rest)
      && AllInside(mem, LP_HEADER, h.master) && Elems(mem, h.master) == master
  {
    hide Take, LpNext, Unsigned, Immediate, ElemAt;
    var ints, tail := [Int(count), Int(deleted), Int(|master|)], master + ([Int(0)] + rest);
    ReadsInside(mem, FIRST, ints + tail);
    ReadsFits(mem, FIRST, ints + tail, count);
    ReadsFits(mem, FIRST, ints + tail, deleted);
    ReadsFits(mem, FIRST, ints + tail, |master|);
    hide Reads;
    TakeInts(mem, FIRST, count, deleted, |master|, tail);
    Small(count);
    Small(deleted);
    Small(|master|);
    var counts := Take(mem, FIRST, 3).value;
    TakeReads(mem, counts.1, master, [Int(0)] + rest);
    var fields := Take(mem, counts.1, |master|).value;
    TakeInt(mem, fields.1, 0, rest);
  }

  // ----- the entries

  /** A record stands for an item. */
  predicate Means(mem: seq<Byte>, rec: Record, item: Item)
    requires AllInside(mem, LP_HEADER, rec.fields) && AllInside(mem, LP_HEADER, rec.values)
  {
    && rec.flags == item.flags && rec.ms == Unsigned(item.ms, 8) && rec.ser == Unsigned(item.ser, 8)
    && Elems(mem, rec.fields) == item.fields && Elems(mem, rec.values) == item.values
  }

  lemma BackReads(mem: seq<Byte>, v: Lval, count: nat, rec: Record, rest: seq<Elem>)
    requires Reads(mem, v, [Int(count)] + rest)
    ensures Inside(mem, LP_HEADER, v)
    ensures var r := BackOf(mem, v, count, rec); r.Some? && r.value.0 == rec && Reads(mem, r.value.1, rest)
  {
    hide LpNext, Unsigned;
    ReadsInside(mem, v, [Int(count)] + rest);
    ReadsFits(mem, v, [Int(count)] + rest, count);
    hide Reads;
    Step(mem, v, Int(count), rest);
    Small(count);
  }

  /** One written entry. */
  lemma ItemReads(mem: seq<Byte>, v: Lval, master: seq<Lval>, item: Item, rest: seq<Elem>)
    requires AllInside(mem, LP_HEADER, master)
    requires ItemFits(item, Elems(mem, master)) && Reads(mem, v, ItemElems(item) + rest)
    ensures Inside(mem, LP_HEADER, v) && RecordOf(mem, v, master).Some?
    ensures var r := RecordOf(mem, v, master).value;
      Reads(mem, r.1, rest)
      && AllInside(mem, LP_HEADER, r.0.fields) && AllInside(mem, LP_HEADER, r.0.values) && Means(mem, r.0, item)
  {
    hide *;
    if SameFields(item.flags) {
      SameReads(mem, v, master, item, rest);
    } else {
      PairReads(mem, v, master, item, rest);
    }
  }

  lemma SameReads(mem: seq<Byte>, v: Lval, master: seq<Lval>, item: Item, rest: seq<Elem>)
    requires AllInside(mem, LP_HEADER, master)
    requires ItemFits(item, Elems(mem, master)) && Reads(mem, v, ItemElems(item) + rest) && SameFields(item.flags)
    ensures Inside(mem, LP_HEADER, v) && RecordOf(mem, v, master).Some?
    ensures var r := RecordOf(mem, v, master).value;
      Reads(mem, r.1, rest)
      && AllInside(mem, LP_HEADER, r.0.fields) && AllInside(mem, LP_HEADER, r.0.values) && Means(mem, r.0, item)
  {
    FlagBits(item);
    hide Take, LpNext, Unsigned, Immediate, ElemAt, SameFields, Reads, Inside, OwnRecord, SameRecord, ItemElems, Elems,
      AllInside, HasFlag2;
    var tail := item.values + ([Int(3 + |item.fields|)] + rest);
    SameElems(item, rest);
    TakeInts(mem, v, item.flags, item.ms, item.ser, tail);
    SmallFlags(item.flags);
    MasterReads(mem, Take(mem, v, 3).value.1, master, item, rest,
      Record(item.flags, Unsigned(item.ms, 8), Unsigned(item.ser, 8), [], []));
  }

  lemma SameElems(item: Item, rest: seq<Elem>)
    requires |item.fields| == |item.values| && SameFields(item.flags)
    ensures ItemElems(item) + rest == [Int(item.flags), Int(item.ms), Int(item.ser)]
        + (item.values + ([Int(3 + |item.fields|)] + rest))
  {
    FlagBits(item);
    hide SameFields, HasFlag2;
    var head, back := [Int(item.flags), Int(item.ms), Int(item.ser)], [Int(3 + |item.fields|)];
    Regroup(head, item.values + back, rest);
    Regroup(item.values, back, rest);
  }

  lemma MasterReads(mem: seq<Byte>, v: Lval, master: seq<Lval>, item: Item, rest: seq<Elem>, rec: Record)
    requires |item.values| == |item.fields| == |master|
    requires Reads(mem, v, item.values + ([Int(3 + |item.fields|)] + rest))
    ensures Inside(mem, LP_HEADER, v) && SameRecord(mem, v, master, rec).Some?
    ensures var r := SameRecord(mem, v, master, rec).value;
      Reads(mem, r.1, rest) && r.0 == rec.(fields := master, values := r.0.values)
      && AllInside(mem, LP_HEADER, r.0.values) && Elems(mem, r.0.values) == item.values
  {
    hide Take, LpNext, Unsigned, ElemAt, BackOf, Reads, Inside, Elems, AllInside;
    TakeReads(mem, v, item.values, [Int(3 + |item.fields|)] + rest);
    var values := Take(mem, v, |master|).value;
    BackReads(mem, values.1, 3 + |master|, rec.(fields := master, values := values.0), rest);
  }

  lemma PairReads(mem: seq<Byte>, v: Lval, master: seq<Lval>, item: Item, rest: seq<Elem>)
    requires AllInside(mem, LP_HEADER, master)
    requires ItemFits(item, Elems(mem, master)) && Reads(mem, v, ItemElems(item) + rest) && !SameFields(item.flags)
    ensures Inside(mem, LP_HEADER, v) && RecordOf(mem, v, master).Some?
    ensures var r := RecordOf(mem, v, master).value;
      Reads(mem, r.1, rest)
      && AllInside(mem, LP_HEADER, r.0.fields) && AllInside(mem, LP_HEADER, r.0.values) && Means(mem, r.0, item)
  {
    FlagBits(item);
    hide Take, LpNext, Unsigned, Immediate, ElemAt, SameFields, Reads, Inside, Interleave, OwnRecord, SameRecord,
      ItemElems, Elems, AllInside, HasFlag2;
    var n, both := |item.fields|, Interleave(item.fields, item.values);
    var tail := both + ([Int(4 + 2 * n)] + rest);
    PairElems(item, rest);
    TakeInts(mem, v, item.flags, item.ms, item.ser, [Int(n)] + tail);
    SmallFlags(item.flags);
    OwnReads(mem, Take(mem, v, 3).value.1, item, rest,
      Record(item.flags, Unsigned(item.ms, 8), Unsigned(item.ser, 8), [], []));
  }

  lemma OwnReads(mem: seq<Byte>, v: Lval, item: Item, rest: seq<Elem>, rec: Record)
    requires |item.fields| == |item.values|
    requires var n := |item.fields|;
      Reads(mem, v, [Int(n)] + (Interleave(item.fields, item.values) + ([Int(4 + 2 * n)] + rest)))
    ensures Inside(mem, LP_HEADER, v) && OwnRecord(mem, v, rec).Some?
    ensures var r := OwnRecord(mem, v, rec).value;
      Reads(mem, r.1, rest) && r.0 == rec.(fields := r.0.fields, values := r.0.values)
      && AllInside(mem, LP_HEADER, r.0.fields) && AllInside(mem, LP_HEADER, r.0.values)
      && Elems(mem, r.0.fields) == item.fields && Elems(mem, r.0.values) == item.values
  {
    hide Take, LpNext, Unsigned, Immediate, ElemAt, BackOf, Reads, Inside, Interleave, Elems, Evens, Odds, AllInside;
    var n, both := |item.fields|, Interleave(item.fields, item.values);
    CountFits(mem, v, n, both + ([Int(4 + 2 * n)] + rest));
    TakeInt(mem, v, n, both + ([Int(4 + 2 * n)] + rest));
    var c := Take(mem, v, 1).value;
    TakeReads(mem, c.1, both, [Int(4 + 2 * n)] + rest);
    var pairs := Take(mem, c.1, 2 * n).value;
    BackReads(mem, pairs.1, 4 + 2 * n, rec.(fields := Evens(pairs.0), values := Odds(pairs.0)), rest);
    Unzipped(mem, pairs.0, item);
  }

  lemma PairElems(item: Item, rest: seq<Elem>)
    requires |item.fields| == |item.values| && !SameFields(item.flags)
    ensures var n := |item.fields|;
      ItemElems(item) + rest == [Int(item.flags), Int(item.ms), Int(item.ser)]
        + ([Int(n)] + (Interleave(item.fields, item.values) + ([Int(4 + 2 * n)] + rest)))
  {
    FlagBits(item);
    hide Interleave, SameFields, HasFlag2;
    var n, both := |item.fields|, Interleave(item.fields, item.values);
    var head, count, back := [Int(item.flags), Int(item.ms), Int(item.ser)], [Int(n)], [Int(4 + 2 * n)];
    Regroup(head, count + (both + back), rest);
    Regroup(count, both + back, rest);
    Regroup(both, back, rest);
  }

  lemma CountFits(mem: seq<Byte>, v: Lval, n: nat, rest: seq<Elem>)
    requires Reads(mem, v, [Int(n)] + rest)
    ensures Unsigned(n, 8) == n
  {
    ReadsFits(mem, v, [Int(n)] + rest, n);
    Small(n);
  }

  /** The pairs come apart into fields and values. */
  lemma Unzipped(mem: seq<Byte>, pairs: seq<Lval>, item: Item)
    requires |item.fields| == |item.values|
    requires AllInside(mem, LP_HEADER, pairs)
    requires Elems(mem, pairs) == Interleave(item.fields, item.values)
    ensures AllInside(mem, LP_HEADER, Evens(pairs)) && AllInside(mem, LP_HEADER, Odds(pairs))
    ensures Elems(mem, Evens(pairs)) == item.fields && Elems(mem, Odds(pairs)) == item.values
  {
    hide ElemAt, Interleave;
    var e, both := Elems(mem, pairs), Interleave(item.fields, item.values);
    forall i | 0 <= i < |item.fields|
      ensures ElemAt(mem, Evens(pairs)[i]) == item.fields[i] && ElemAt(mem, Odds(pairs)[i]) == item.values[i]
    {
      assert e[2 * i] == both[2 * i] && e[2 * i + 1] == both[2 * i + 1];
    }
  }

  // ----- the block

  /** Every record stands for the item at its place. */
  ghost predicate AllMean(mem: seq<Byte>, recs: seq<Record>, items: seq<Item>) {
    |recs| == |items|
    && forall i | 0 <= i < |items| ::
      AllInside(mem, LP_HEADER, recs[i].fields) && AllInside(mem, LP_HEADER, recs[i].values)
      && Means(mem, recs[i], items[i])
  }

  lemma {:induction false} ItemsRead(mem: seq<Byte>, v: Lval, master: seq<Lval>, items: seq<Item>)
    requires AllInside(mem, LP_HEADER, master)
    requires ItemsFit(items, Elems(mem, master)) && Reads(mem, v, AllItems(items, Elems(mem, master)))
    ensures Inside(mem, LP_HEADER, v) && Records(mem, v, master, |items|).0
    ensures AllMean(mem, Records(mem, v, master, |items|).1, items)
    decreases items
  {
    hide Reads, RecordOf, ItemFits, ItemElems, Means, Inside, ElemAt;
    if items == [] {
      ReadsInside(mem, v, AllItems(items, Elems(mem, master)));
    } else {
      ItemReads(mem, v, master, items[0], AllItems(items[1..], Elems(mem, master)));
      ItemsRead(mem, RecordOf(mem, v, master).value.1, master, items[1..]);
    }
  }

  /** A stream block is read back: the header with its master fields, then exactly its entries, with
      SAMEFIELDS or without, however the elements of its listpack are coded. */
  lemma BlockParsesBack(b: seq<Byte>, count: nat, deleted: nat, master: seq<Elem>, items: seq<Item>)
    requires ItemsFit(items, master) && IsPack(b, BlockElems(count, deleted, master, items))
    ensures |LpInit(b).pack.mem| >= LP_HEADER && HeaderOf(LpInit(b).pack.mem).Some?
    ensures var mem := LpInit(b).pack.mem;
      var h, v := HeaderOf(mem).value.0, HeaderOf(mem).value.1;
      h.items == count && h.deleted == deleted
      && AllInside(mem, LP_HEADER, h.master) && Elems(mem, h.master) == master
      && Records(mem, v, h.master, |items|).0
      && AllMean(mem, Records(mem, v, h.master, |items|).1, items)
  {
    hide HeaderOf, Records, AllMean, ItemsFit, AllItems, LpElems, ElemAt, LpInit;
    var mem := LpInit(b).pack.mem;
    HeaderReads(mem, count, deleted, master, AllItems(items, master));
    hide Reads;
    ItemsRead(mem, HeaderOf(mem).value.1, HeaderOf(mem).value.0.master, items);
  }
}
