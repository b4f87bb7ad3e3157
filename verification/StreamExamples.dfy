/** Streams on which decode_stream does not do what it is for, at small inputs. */
module StreamExamples {
  import opened Bytes
  import opened LengthCodec
  import opened Bufptr
  import opened ListValue
  import opened Events
  import opened Values
  import opened StreamDecode
  import opened Records
  import opened Json
  import opened StreamJson
  import opened StreamLayout
  import opened StreamFormat
  import opened StreamNames
  import opened StreamLife
  import Encoded
  import PackMixed
  import ListPackRead
  import Stream

  // ----- listpacks of small integers

  predicate Small(x: Elem) { x.Int? && 0 <= x.i < 128 }

  function Sevens(xs: seq<Elem>): seq<PackMixed.Item>
    requires forall x | x in xs :: Small(x)
  {
    if xs == [] then []
    else
      assert Small(xs[0]);
      [PackMixed.Seven(xs[0].i)] + Sevens(xs[1..])
  }

  lemma {:induction false} SevensFit(xs: seq<Elem>)
    requires forall x | x in xs :: Small(x)
    ensures PackMixed.AllItemsFit(Sevens(xs)) && |PackMixed.MixedEntries(Sevens(xs))| == 2 * |xs|
    ensures PackMixed.ItemElems(Sevens(xs)) == xs
  {
    hide PackMixed.ItemFits, PackMixed.ItemBytes, PackMixed.ItemElem;
    if xs != [] {
      assert Small(xs[0]);
      PackMixed.SevenEntry(xs[0].i);
      SevensFit(xs[1..]);
      assert [xs[0]] + xs[1..] == xs;
    }
  }

  function SmallPack(xs: seq<Elem>): (b: seq<Byte>)
    requires |xs| < 0x1_0000 && forall x | x in xs :: Small(x)
    ensures |b| < TWO32 && ListPackRead.IsPack(b, xs)
  {
    SevensFit(xs);
    PackMixed.MixedRead(Sevens(xs));
    PackMixed.MixedBytes(Sevens(xs))
  }

  // ----- blocks of one and two entries

  lemma OneItem(a: Item, master: seq<Elem>)
    requires ItemFits(a, master)
    ensures ItemsFit([a], master) && AllItems([a], master) == ItemElems(a) && ItemKinds([a]) == [ItemKind(a)]
  {
    hide ItemElems, ItemFits, ItemKind;
    assert [a][1..] == [];
  }

  lemma TwoItems(a: Item, b: Item, master: seq<Elem>)
    requires ItemFits(a, master) && ItemFits(b, master)
    ensures ItemsFit([a, b], master) && AllItems([a, b], master) == ItemElems(a) + ItemElems(b)
    ensures ItemKinds([a, b]) == [ItemKind(a), ItemKind(b)]
  {
    hide ItemElems, ItemFits, ItemKind;
    OneItem(b, master);
    assert [a, b][1..] == [b];
  }

  lemma OneBlock(b: BlockDoc)
    ensures DocTrace([b]) == [BlockLife(|b.master|, ItemKinds(b.items))]
    ensures BlockFits(b) ==> (FieldsMatch(b); AllLive([b]) == LiveItems(b.id, b.items))
  {
    hide ItemKinds, LiveItems, BlockFits;
    assert [b][1..] == [];
  }

  // ----- a master list that is given back twice

  /** Two entries with SAMEFIELDS, in a block of as many master fields as there are fields. */
  function Torn(fields: seq<Elem>, pack: seq<Byte>): BlockDoc {
    BlockDoc(StreamId(1, 0), 0, fields, [Item(2, 0, 0, fields, fields), Item(2, 0, 1, fields, fields)], pack, None)
  }

  /** An entry with SAMEFIELDS whose values are the fields. */
  lemma TornItem(ser: nat, fields: seq<Elem>)
    requires |fields| == 65
    ensures var item := Item(2, 0, ser, fields, fields);
      ItemFits(item, fields) && ItemKind(item) == Same(true)
      && ItemElems(item) == [Int(2), Int(0), Int(ser)] + (fields + [Int(68)])
  {}

  lemma TornElems(ser: nat, fields: seq<Elem>)
    requires ser < 128 && forall x | x in fields :: Small(x)
    ensures forall x | x in [Int(2), Int(0), Int(ser)] + (fields + [Int(68)]) :: Small(x)
  {}

  lemma TornFits(fields: seq<Elem>) returns (pack: seq<Byte>)
    requires |fields| == 65 && forall x | x in fields :: Small(x)
    ensures BlockFits(Torn(fields, pack))
  {
    hide AllItems, ItemsFit, ItemElems, ItemFits, Small, ItemKind, ListPackRead.IsPack;
    var a, b := Item(2, 0, 0, fields, fields), Item(2, 0, 1, fields, fields);
    TornItem(0, fields);
    TornItem(1, fields);
    TwoItems(a, b, fields);
    TornElems(0, fields);
    TornElems(1, fields);
    SmallHeads();
    pack := SmallPack(BlockElems(2, 0, fields, [a, b]));
  }

  lemma SmallHeads()
    ensures forall i: nat | i < 128 :: Small(Int(i))
  {}

  lemma TornTrace(fields: seq<Elem>, pack: seq<Byte>)
    requires |fields| == 65
    ensures !Safe(DocTrace([Torn(fields, pack)]))
  {
    hide ItemFits, ItemElems, ItemKind, BlockFits, ItemKinds;
    TornItem(0, fields);
    TornItem(1, fields);
    TwoItems(Item(2, 0, 0, fields, fields), Item(2, 0, 1, fields, fields), fields);
    OneBlock(Torn(fields, pack));
    assert Sames([Same(true), Same(true)]) == 2;
    assert DocTrace([Torn(fields, pack)])[0] == BlockLife(65, [Same(true), Same(true)]);
  }

  /** A value that is laid out as documented, and whose run touches released memory: the second entry gives
      the list of 65 master fields back and reads it. */
  lemma TornStream(fields: seq<Elem>, lzf: Inflater, rest: seq<Byte>, v2: bool, x: Dropped) returns (pack: seq<Byte>)
    requires |fields| == 65 && (forall x | x in fields :: Small(x)) && DropsFit(x, 0)
    ensures var bs := [Torn(fields, pack)];
      StreamFits(bs, 2, StreamId(1, 1), [], x)
      && StreamRun(Start(StreamBytes(bs, 2, StreamId(1, 1), [], v2, x) + rest), lzf, v2, 1).0 == Released
  {
    hide StreamBytes, StreamRun, BlockFits, Safe, DocTrace, DropsFit, Small, IsReported, Inflates;
    pack := TornFits(fields);
    AsIs(Torn(fields, pack), lzf);
    hide Torn;
    TornTrace(fields, pack);
    StreamRoundTrip([Torn(fields, pack)], 2, StreamId(1, 1), [], v2, x, rest, lzf);
  }

  // ----- an entry without fields

  /** One entry, none deleted, no master fields, 0; flags 0, differences 0 and 0, no fields, and 4 to go back. */
  const BARE_PACK: seq<Byte> :=
    [0x19, 0, 0, 0] + [9, 0]
    + ((([1, 1, 0, 1, 0, 1] + [0, 1, 0, 1, 0, 1]) + [0, 1, 0, 1, 4, 1]) + [0xff])

  const BARE_KEY: seq<Byte> := [0, 0, 0, 0, 0, 0, 0, 1] + [0, 0, 0, 0, 0, 0, 0, 0] // 1-0

  /** The value: one block, one entry, last id 1-0, no groups. */
  const BARE: seq<Byte> := ([0x10] + BARE_KEY + ([0x19] + BARE_PACK)) + [1, 1, 0, 0]

  function Bare(): BlockDoc {
    BlockDoc(StreamId(1, 0), 0, [], [Item(0, 0, 0, [], [])], BARE_PACK, None)
  }

  function BareItems(): seq<PackMixed.Item> {
    ([PackMixed.Seven(1), PackMixed.Seven(0), PackMixed.Seven(0)]
     + [PackMixed.Seven(0), PackMixed.Seven(0), PackMixed.Seven(0)])
    + [PackMixed.Seven(0), PackMixed.Seven(0), PackMixed.Seven(4)]
  }

  lemma BareSizes()
    ensures Le(25, 4) == [0x19, 0, 0, 0] && Le(9, 2) == [9, 0]
  {}

  lemma BareItemsBytes()
    ensures PackMixed.AllItemsFit(BareItems()) && |BareItems()| == 9
    ensures PackMixed.ItemElems(BareItems())
         == ([Int(1), Int(0), Int(0)] + [Int(0), Int(0), Int(0)]) + [Int(0), Int(0), Int(4)]
    ensures PackMixed.MixedEntries(BareItems()) == ([1, 1, 0, 1, 0, 1] + [0, 1, 0, 1, 0, 1]) + [0, 1, 0, 1, 4, 1]
  {
    PackMixed.ThreeSevens(1, 0, 0);
    PackMixed.ThreeSevens(0, 0, 0);
    PackMixed.ThreeSevens(0, 0, 4);
    hide PackMixed.AllItemsFit, PackMixed.MixedEntries, PackMixed.ItemElems;
    var a, b, c := [PackMixed.Seven(1), PackMixed.Seven(0), PackMixed.Seven(0)],
      [PackMixed.Seven(0), PackMixed.Seven(0), PackMixed.Seven(0)], [PackMixed.Seven(0), PackMixed.Seven(0), PackMixed.Seven(4)];
    PackMixed.MixedConcat(a, b);
    PackMixed.MixedConcat(a + b, c);
  }

  lemma BarePack()
    ensures ListPackRead.IsPack(BARE_PACK, ([Int(1), Int(0), Int(0)] + [Int(0), Int(0), Int(0)]) + [Int(0), Int(0), Int(4)])
    ensures |BARE_PACK| == 25
  {
    BareSizes();
    BareItemsBytes();
    hide PackMixed.AllItemsFit, PackMixed.MixedEntries, PackMixed.ItemElems, ListPackRead.IsPack, Le, BareItems;
    PackMixed.MixedRead(BareItems());
  }

  lemma BareElems()
    ensures ItemsFit([Item(0, 0, 0, [], [])], []) && ItemKinds([Item(0, 0, 0, [], [])]) == [Own(0)]
    ensures BlockElems(1, 0, [], [Item(0, 0, 0, [], [])])
         == ([Int(1), Int(0), Int(0)] + [Int(0), Int(0), Int(0)]) + [Int(0), Int(0), Int(4)]
  {
    var a := Item(0, 0, 0, [], []);
    OneItem(a, []);
    assert ItemElems(a) == [Int(0), Int(0), Int(0)] + ([Int(0)] + ([] + [Int(4)]));
    hide AllItems, ItemsFit, ItemKinds;
  }

  lemma BareFits()
    ensures BlockFits(Bare()) && Safe(DocTrace([Bare()])) && AllLive([Bare()]) == [LiveEntry(StreamId(1, 0), [])]
  {
    BarePack();
    BareElems();
    OneBlock(Bare());
    BareLive(Item(0, 0, 0, [], []));
    hide ListPackRead.IsPack, ItemsFit, LiveItems, ItemKinds, AllLive, BlockElems;
  }

  lemma BareLive(a: Item)
    requires a == Item(0, 0, 0, [], [])
    ensures LiveItems(StreamId(1, 0), [a]) == [LiveEntry(StreamId(1, 0), [])]
  {
    assert [a][1..] == [] && ItemEntry(StreamId(1, 0), a).fields == [];
  }

  lemma BareParts()
    ensures Be(0, 8) == [0, 0, 0, 0, 0, 0, 0, 0] && Be(1, 8) == [0, 0, 0, 0, 0, 0, 0, 1]
    ensures EncodeLen(16) == [0x10] && EncodeLen(25) == [0x19] && EncodeLen(1) == [1] && EncodeLen(0) == [0]
  {
    BeIs([0, 0, 0, 0, 0, 0, 0, 0], [0, 0, 0, 0, 0, 0, 0, 0, 0]);
    BeIs([0, 0, 0, 0, 0, 0, 0, 1], [0, 0, 0, 0, 0, 0, 0, 0, 1]);
    hide Be;
  }

  lemma BareInfo(x: Dropped)
    ensures InfoBytes(1, StreamId(1, 0), 0, false, x) == [1, 1, 0, 0]
  {
    BareParts();
    hide EncodeLen;
    assert [1 as nat, 0][1..] == [0] && [0 as nat][1..] == [];
  }

  lemma BareBlock()
    ensures BlockFits(Bare()) && BlocksBytes([Bare()]) == [0x10] + BARE_KEY + ([0x19] + BARE_PACK)
  {
    BareFits();
    BarePack();
    BareParts();
    hide EncodeLen, BlockFits, ListPackRead.IsPack, Be;
    assert [Bare()][1..] == [];
  }

  /** It is decoded to its end, and printed with a comma before its closing brace. */
  lemma BareStream(lzf: Inflater, rest: seq<Byte>, j: Json)
    ensures var r := BodyOf(RStreamListpack, ZERO.(len := 1), Start(BARE + rest), lzf);
      r.0 == Done && Tokens(r.1) != Render(j)
  {
    BareRun(lzf, rest);
    hide *;
    NoFields(Start(BARE + rest), StreamId(1, 0), lzf, j);
  }

  lemma NoFields(c: Cursor, id: StreamId, lzf: Inflater, j: Json)
    requires StreamRun(c, lzf, false, 1).0 == Done && Blocks(c, lzf, 1).1 == [LiveEntry(id, [])]
    ensures var r := BodyOf(RStreamListpack, ZERO.(len := 1), c, lzf);
      r.0 == Done && Tokens(r.1) != Render(j)
  {
    hide StreamRun, Safe, DocTrace, AllLive, Tokens, Render, NamesOf, AllReadable, Blocks, DocEvents;
    ReportedJson(RStreamListpack, ZERO.(len := 1), c, lzf);
  }

  lemma BareRun(lzf: Inflater, rest: seq<Byte>)
    ensures StreamRun(Start(BARE + rest), lzf, false, 1).0 == Done
    ensures Blocks(Start(BARE + rest), lzf, 1).1 == [LiveEntry(StreamId(1, 0), [])]
  {
    var x := Dropped(0, [0, 0, 0, 0], []);
    BareFits();
    BareInfo(x);
    BareBlock();
    BareValue(x);
    AsIs(Bare(), lzf);
    hide Inflates, StreamRun, BlockFits, Safe, DocTrace, AllLive, Bare, BlocksBytes, InfoBytes, DocEvents, Blocks, IsReported,
      StreamBytes;
    StreamRoundTrip([Bare()], 1, StreamId(1, 0), [], false, x, rest, lzf);
    Regroup(BlocksBytes([Bare()]), [1, 1, 0, 0], rest);
    BlocksRead([Bare()], [1, 1, 0, 0] + rest, false, lzf);
  }

  lemma BareValue(x: Dropped)
    requires x == Dropped(0, [0, 0, 0, 0], [])
    ensures StreamFits([Bare()], 1, StreamId(1, 0), [], x)
    ensures StreamBytes([Bare()], 1, StreamId(1, 0), [], false, x) == BARE
  {
    BareInfo(x);
    BareBlock();
    hide BlocksBytes, InfoBytes, BlockFits;
    assert [1, 1, 0, 0] + [] == [1, 1, 0, 0];
  }

  // ----- a group whose name is an integer

  /** decode_body reports success after opening the list of groups. */
  lemma EarlyStream(lzf: Inflater, rest: seq<Byte>, v2: bool, x: Dropped, j: Json)
    requires v2 ==> x.count < TWO64 && |x.ids| == 4 && AreLens(x.ids)
    ensures var c := Start(InfoBytes(0, StreamId(0, 0), 1, v2, x) + (EncodeInt(5) + rest));
      var r := BodyOf(if v2 then RStreamListpacks2 else RStreamListpack, ZERO, c, lzf);
      r.0 == Early && StatusOf(r.0) == Ok
      && r.1 == [StartKey, StreamInfo(StreamId(0, 0), 0, 1), StreamStart(GroupList)]
      && Tokens(r.1) != Render(j)
  {
    hide InfoBytes, InfoOf, Tokens, Render, Blob, EncodeInt;
    InfoRead(0, StreamId(0, 0), 1, v2, x, EncodeInt(5) + rest);
    NumberName(5, rest, lzf);
    var c := Start(InfoBytes(0, StreamId(0, 0), 1, v2, x) + (EncodeInt(5) + rest));
    var r := StreamRun(c, lzf, v2, 0);
    assert r.1 == [StreamInfo(StreamId(0, 0), 0, 1), StreamStart(GroupList)];
    EarlyOpen(c, lzf, v2, 0, j);
    assert [StartKey] + r.1 == [StartKey, StreamInfo(StreamId(0, 0), 0, 1), StreamStart(GroupList)];
  }

  /** No integer is a name. */
  lemma NumberName(i: int, rest: seq<Byte>, lzf: Inflater)
    requires -0x8000_0000 <= i < 0x8000_0000
    ensures Blob(Start(EncodeInt(i) + rest), lzf).0 == ErrHdr
  {
    hide EncodeInt, DecodeLen;
    Encoded.IntHeader(i, rest);
  }

  // ----- a consumer whose name is compressed

  /** The time behind the name is looked for in the block of the name, which is used up: a consumer is read if and
      only if its name is stored as it is. */
  lemma ConsumerName(name: Encoded.AuxStr, seen: nat, n: nat, rest: seq<Byte>, lzf: Inflater)
    requires Encoded.AuxFits(name, lzf) && Encoded.IsText(name) && seen < TWO64 && n < TWO64
    ensures var r := ConsHeadOf(Start(Encoded.AuxBytes(name, lzf) + (Le(seen, 8) + (EncodeLen(n) + rest))), lzf);
      (r.0 == Done <==> name.Plain?)
      && (r.0 == Done ==> r.1 == [ConsHead(Encoded.TextOf(name), n, seen)] && r.2 == Start(rest))
      && (r.0 != Done ==> r.0 == Fail(ErrTrunc) && r.1 == [])
  {
    hide Encoded.AuxBytes, Encoded.AuxFits, Blob, EncodeLen, DecodeLen, Le, FromLe;
    var tail := Le(seen, 8) + (EncodeLen(n) + rest);
    Encoded.AuxBlob(name, tail, false, lzf);
    if name.Plain? {
      Encoded.TakeData(Le(seen, 8), EncodeLen(n) + rest);
      StreamFormat.EightBytes();
      LeRoundTrip(seen, 8);
      Encoded.LenHeader(ZERO, n, rest);
    }
  }
}
