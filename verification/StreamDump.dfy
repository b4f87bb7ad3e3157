/** The stream of the documentation (rdb.adoc:643-763), byte by byte, and what decode_stream makes of it. */
module StreamDump {
  import opened Bytes
  import opened LengthCodec
  import opened Bufptr
  import opened ListValue
  import opened Events
  import opened Values
  import opened StreamDecode
  import opened Records
  import opened StreamJson
  import opened StreamLayout
  import opened StreamFormat
  import opened StreamLife
  import RestoreEncoded
  import ListPackRead
  import P = PackMixed
  import Examples = StreamExamples

  const LOC: seq<Byte> := [0x6c, 0x6f, 0x63]
  const TEMP: seq<Byte> := [0x74, 0x65, 0x6d, 0x70]
  const MEL: seq<Byte> := [0x6d, 0x65, 0x6c]
  const SFO: seq<Byte> := [0x73, 0x66, 0x6f]

  const ID: seq<Byte> := [0, 0, 1, 0x70, 0x42, 0x62, 0x54, 0x2e, 0, 0, 0, 0, 0, 0, 0, 0]

  /** The listpack: its size and count, the head of the block, two entries, and an end mark. */
  const PACK: seq<Byte> :=
    [0x3b, 0, 0, 0] + [0x12, 0]
    + (((HEAD_BYTES + FIELDS_BYTES) + ((ENTRY1_BYTES + VALUES1_BYTES) + (ENTRY2_BYTES + VALUES2_BYTES))) + [0xff])

  const HEAD_BYTES: seq<Byte> := [2, 1, 0, 1, 2, 1]
  const FIELDS_BYTES: seq<Byte> := [0x83, 0x6c, 0x6f, 0x63, 4, 0x84, 0x74, 0x65, 0x6d, 0x70, 5, 0, 1]
  const ENTRY1_BYTES: seq<Byte> := [2, 1, 0, 1, 0, 1]
  const VALUES1_BYTES: seq<Byte> := [0x83, 0x6d, 0x65, 0x6c, 4, 0x17, 1, 5, 1]
  const ENTRY2_BYTES: seq<Byte> := [2, 1, 0xf2, 0x30, 0x83, 0, 4, 0, 1]
  const VALUES2_BYTES: seq<Byte> := [0x83, 0x73, 0x66, 0x6f, 4, 0x0a, 1, 5, 1]

  /** What the documentation dumps, from behind the type byte and the number of blocks up to the version. */
  const VALUE: seq<Byte> :=
    ([0x10] + ID + ([0x3b] + PACK)) + [2, 0x81, 0, 0, 1, 0x70, 0x42, 0x62, 0xd7, 0x5e, 0, 0]

  // ----- the listpack

  const HEAD: seq<P.Item> := [P.Seven(2), P.Seven(0), P.Seven(2)]
  const FIELDS: seq<P.Item> := [P.Text(LOC), P.Text(TEMP), P.Seven(0)]
  const ENTRY1: seq<P.Item> := [P.Seven(2), P.Seven(0), P.Seven(0)]
  const VALUES1: seq<P.Item> := [P.Text(MEL), P.Seven(23), P.Seven(5)]
  const ENTRY2: seq<P.Item> := [P.Seven(2), P.Wide(33584, 3), P.Seven(0)]
  const VALUES2: seq<P.Item> := [P.Text(SFO), P.Seven(10), P.Seven(5)]

  lemma MillisEntry()
    ensures P.ItemFits(P.Wide(33584, 3)) && P.EntryOf(P.Wide(33584, 3)) == [0xf2, 0x30, 0x83, 0, 4]
    ensures P.ItemElem(P.Wide(33584, 3)) == Int(33584)
  {
    assert Le(33584, 3) == [0x30, 0x83, 0];
  }

  lemma HeadBytes()
    ensures P.AllItemsFit(HEAD) && P.ItemElems(HEAD) == [Int(2), Int(0), Int(2)]
    ensures P.MixedEntries(HEAD) == HEAD_BYTES
  {
    P.SevenEntry(2); P.SevenEntry(0);
    hide *;
    P.ThreeItems(HEAD[0], HEAD[1], HEAD[2]);
  }

  lemma FieldsBytes()
    ensures P.AllItemsFit(FIELDS) && P.ItemElems(FIELDS) == [Str(LOC), Str(TEMP), Int(0)]
    ensures P.MixedEntries(FIELDS) == FIELDS_BYTES
  {
    P.TextEntry(LOC); P.TextEntry(TEMP); P.SevenEntry(0);
    hide *;
    P.ThreeItems(FIELDS[0], FIELDS[1], FIELDS[2]);
  }

  lemma Entry1Bytes()
    ensures P.AllItemsFit(ENTRY1) && P.ItemElems(ENTRY1) == [Int(2), Int(0), Int(0)]
    ensures P.MixedEntries(ENTRY1) == ENTRY1_BYTES
  {
    P.SevenEntry(2); P.SevenEntry(0);
    hide *;
    P.ThreeItems(ENTRY1[0], ENTRY1[1], ENTRY1[2]);
  }

  lemma Values1Bytes()
    ensures P.AllItemsFit(VALUES1) && P.ItemElems(VALUES1) == [Str(MEL), Int(23), Int(5)]
    ensures P.MixedEntries(VALUES1) == VALUES1_BYTES
  {
    P.TextEntry(MEL); P.SevenEntry(23); P.SevenEntry(5);
    hide *;
    P.ThreeItems(VALUES1[0], VALUES1[1], VALUES1[2]);
  }

  lemma Entry2Bytes()
    ensures P.AllItemsFit(ENTRY2) && P.ItemElems(ENTRY2) == [Int(2), Int(33584), Int(0)]
    ensures P.MixedEntries(ENTRY2) == ENTRY2_BYTES
  {
    P.SevenEntry(2); MillisEntry(); P.SevenEntry(0);
    hide *;
    P.ThreeItems(ENTRY2[0], ENTRY2[1], ENTRY2[2]);
  }

  lemma Values2Bytes()
    ensures P.AllItemsFit(VALUES2) && P.ItemElems(VALUES2) == [Str(SFO), Int(10), Int(5)]
    ensures P.MixedEntries(VALUES2) == VALUES2_BYTES
  {
    P.TextEntry(SFO); P.SevenEntry(10); P.SevenEntry(5);
    hide *;
    P.ThreeItems(VALUES2[0], VALUES2[1], VALUES2[2]);
  }

  function Items(): seq<P.Item> { (HEAD + FIELDS) + ((ENTRY1 + VALUES1) + (ENTRY2 + VALUES2)) }

  function ItemsElems(): seq<Elem> {
    [Int(2), Int(0), Int(2), Str(LOC), Str(TEMP), Int(0), Int(2), Int(0), Int(0), Str(MEL), Int(23), Int(5),
     Int(2), Int(33584), Int(0), Str(SFO), Int(10), Int(5)]
  }

  lemma ItemsBytes()
    ensures P.AllItemsFit(Items()) && P.ItemElems(Items()) == ItemsElems() && |Items()| == 18
    ensures P.MixedEntries(Items())
         == (HEAD_BYTES + FIELDS_BYTES) + ((ENTRY1_BYTES + VALUES1_BYTES) + (ENTRY2_BYTES + VALUES2_BYTES))
    ensures |P.MixedEntries(Items())| == 52
  {
    HeadBytes();
    FieldsBytes();
    Entry1Bytes();
    Values1Bytes();
    Entry2Bytes();
    Values2Bytes();
    P.MixedConcat(HEAD, FIELDS);
    P.MixedConcat(ENTRY1, VALUES1);
    P.MixedConcat(ENTRY2, VALUES2);
    P.MixedConcat(ENTRY1 + VALUES1, ENTRY2 + VALUES2);
    P.MixedConcat(HEAD + FIELDS, (ENTRY1 + VALUES1) + (ENTRY2 + VALUES2));
    hide P.AllItemsFit, P.ItemElems, P.MixedEntries;
    ElemsAre();
  }

  lemma ElemsAre()
    ensures [Int(2), Int(0), Int(2)] + [Str(LOC), Str(TEMP), Int(0)]
      + ([Int(2), Int(0), Int(0)] + [Str(MEL), Int(23), Int(5)] + ([Int(2), Int(33584), Int(0)] + [Str(SFO), Int(10), Int(5)]))
      == ItemsElems()
  {}

  lemma SizesAre()
    ensures Le(59, 4) == [0x3b, 0, 0, 0] && Le(18, 2) == [0x12, 0]
  {}

  lemma PackRead()
    ensures ListPackRead.IsPack(PACK, ItemsElems())
  {
    ItemsBytes();
    SizesAre();
    hide P.AllItemsFit, P.ItemElems, P.MixedEntries, Le, Items, ItemsElems, ListPackRead.IsPack;
    P.MixedRead(Items());
  }

  // ----- the block

  const FIRST_MS: nat := 1581661705262
  const LAST_MS: nat := 1581661738846

  function Item1(): Item { Item(2, 0, 0, [Str(LOC), Str(TEMP)], [Str(MEL), Int(23)]) }
  function Item2(): Item { Item(2, 33584, 0, [Str(LOC), Str(TEMP)], [Str(SFO), Int(10)]) }

  function Doc(): BlockDoc {
    BlockDoc(StreamId(FIRST_MS, 0), 0, [Str(LOC), Str(TEMP)], [Item1(), Item2()], PACK, None)
  }

  function Entry1(): LiveEntry { LiveEntry(StreamId(FIRST_MS, 0), [(Str(LOC), Str(MEL)), (Str(TEMP), Int(23))]) }
  function Entry2(): LiveEntry { LiveEntry(StreamId(LAST_MS, 0), [(Str(LOC), Str(SFO)), (Str(TEMP), Int(10))]) }

  lemma ItemsFitDoc()
    ensures ItemFits(Item1(), [Str(LOC), Str(TEMP)]) && ItemFits(Item2(), [Str(LOC), Str(TEMP)])
    ensures ItemElems(Item1()) == [Int(2), Int(0), Int(0), Str(MEL), Int(23), Int(5)]
    ensures ItemElems(Item2()) == [Int(2), Int(33584), Int(0), Str(SFO), Int(10), Int(5)]
    ensures ItemKind(Item1()) == Same(true) && ItemKind(Item2()) == Same(true)
  {}

  lemma DocElems()
    ensures ItemsFit([Item1(), Item2()], [Str(LOC), Str(TEMP)])
    ensures BlockElems(2, 0, [Str(LOC), Str(TEMP)], [Item1(), Item2()]) == ItemsElems()
  {
    ItemsFitDoc();
    Examples.TwoItems(Item1(), Item2(), [Str(LOC), Str(TEMP)]);
    hide ItemFits, ItemElems, ItemKind, AllItems, ItemsFit, Item1, Item2;
    SameElems();
  }

  lemma SameElems()
    ensures [Int(2), Int(0), Int(2)] + ([Str(LOC), Str(TEMP)] + ([Int(0)]
      + ([Int(2), Int(0), Int(0), Str(MEL), Int(23), Int(5)] + [Int(2), Int(33584), Int(0), Str(SFO), Int(10), Int(5)])))
      == ItemsElems()
  {}

  lemma DocFits()
    ensures BlockFits(Doc()) && Safe(DocTrace([Doc()]))
  {
    PackRead();
    DocElems();
    DocTraced();
    hide ItemFits, ItemElems, ItemKind, ListPackRead.IsPack, AllItems, ItemsFit, Item1, Item2, ItemsElems, DocTrace, Safe;
    assert |PACK| == 59;
  }

  lemma DocTraced()
    ensures Safe(DocTrace([Doc()]))
  {
    Examples.OneBlock(Doc());
    hide BlockFits, ItemKinds, LiveItems;
  }

  lemma DocLive()
    ensures BlockFits(Doc()) && AllLive([Doc()]) == [Entry1(), Entry2()]
  {
    DocFits();
    Examples.OneBlock(Doc());
    FieldsMatch(Doc());
    hide BlockFits, AllLive;
    LiveOne();
  }

  lemma LiveOne()
    ensures LiveItems(StreamId(FIRST_MS, 0), [Item1(), Item2()]) == [Entry1(), Entry2()]
  {
    assert [Item1(), Item2()][1..] == [Item2()] && [Item2()][1..] == [];
    assert ItemEntry(StreamId(FIRST_MS, 0), Item1()) == Entry1();
    assert ItemEntry(StreamId(FIRST_MS, 0), Item2()) == Entry2();
  }

  // ----- the stream

  lemma MsBytes()
    ensures Be(FIRST_MS, 8) == [0, 0, 0x01, 0x70, 0x42, 0x62, 0x54, 0x2e]
    ensures Be(LAST_MS, 8) == [0, 0, 0x01, 0x70, 0x42, 0x62, 0xd7, 0x5e]
    ensures Be(0, 8) == [0, 0, 0, 0, 0, 0, 0, 0]
  {
    hide Be;
    BeIs([0, 0, 0x01, 0x70, 0x42, 0x62, 0x54, 0x2e],
      [0, 0, 0, 1, 0x170, 0x1_7042, 0x170_4262, 0x1_7042_6254, 0x170_4262_542e]);
    BeIs([0, 0, 0x01, 0x70, 0x42, 0x62, 0xd7, 0x5e],
      [0, 0, 0, 1, 0x170, 0x1_7042, 0x170_4262, 0x1_7042_62d7, 0x170_4262_d75e]);
    BeIs([0, 0, 0, 0, 0, 0, 0, 0], [0, 0, 0, 0, 0, 0, 0, 0, 0]);
  }

  lemma IdIs()
    ensures IdBytes(StreamId(FIRST_MS, 0)) == ID
  {
    MsBytes();
    hide Be;
  }

  lemma LengthsAre()
    ensures EncodeLen(16) == [0x10] && EncodeLen(59) == [0x3b] && EncodeLen(2) == [2] && EncodeLen(0) == [0]
    ensures EncodeLen(LAST_MS) == [0x81, 0, 0, 0x01, 0x70, 0x42, 0x62, 0xd7, 0x5e]
  {
    MsBytes();
    hide Be;
  }

  lemma InfoIs(x: Dropped)
    ensures InfoBytes(2, StreamId(LAST_MS, 0), 0, false, x) == [2, 0x81, 0, 0, 0x01, 0x70, 0x42, 0x62, 0xd7, 0x5e, 0, 0]
  {
    LengthsAre();
    hide EncodeLen;
    assert [LAST_MS as nat, 0][1..] == [0] && [0 as nat][1..] == [];
  }

  function None4(): Dropped { Dropped(0, [0, 0, 0, 0], []) }

  lemma ValueIs()
    ensures StreamFits([Doc()], 2, StreamId(LAST_MS, 0), [], None4())
    ensures StreamBytes([Doc()], 2, StreamId(LAST_MS, 0), [], false, None4()) == VALUE
  {
    DocFits();
    IdIs();
    LengthsAre();
    InfoIs(None4());
    hide InfoBytes, IdBytes, EncodeLen, BlockFits;
    BlockIs();
    assert BlocksBytes([Doc()]) == BlockBytes(Doc()) + BlocksBytes([Doc()][1..]);
    assert [Doc()][1..] == [];
    hide BlockBytes, BlocksBytes;
  }

  lemma BlockIs()
    ensures BlockFits(Doc()) && BlockBytes(Doc()) == [0x10] + ID + ([0x3b] + PACK)
  {
    DocFits();
    IdIs();
    LengthsAre();
    hide IdBytes, EncodeLen, BlockFits;
    assert |PACK| == 59;
  }

  /** The callbacks that the documentation describes. */
  function Calls(): seq<Event> {
    [StreamStart(EntryList),
     StreamEntry(0, StreamId(1581661705262, 0), [(Str(LOC), Str(MEL)), (Str(TEMP), Int(23))]),
     StreamEntry(1, StreamId(1581661738846, 0), [(Str(LOC), Str(SFO)), (Str(TEMP), Int(10))]),
     StreamEnd(EntryList), StreamInfo(StreamId(1581661738846, 0), 2, 0)]
  }

  lemma DocCalls()
    ensures DocEvents(StreamDoc([Entry1(), Entry2()], StreamId(LAST_MS, 0), 2, [])) == Calls()
  {
    assert EntryEvents([Entry1(), Entry2()])
        == [StreamEntry(0, Entry1().id, Entry1().fields), StreamEntry(1, Entry2().id, Entry2().fields)];
  }

  /** The documented bytes are a stream with these two entries: the second id is that of the block plus the
      documented difference of 33584. */
  lemma DocumentedStream(rest: seq<Byte>, lzf: Inflater)
    ensures BodyOf(RStreamListpack, ZERO.(len := 1), Start(VALUE + rest), lzf)
         == (Done, [StartKey] + Calls() + [EndKey], Start(rest))
  {
    DocFits();
    DocLive();
    ValueIs();
    DocCalls();
    AsIs(Doc(), lzf);
    hide *;
    RestoreEncoded.StreamBody(1, Start(VALUE + rest), lzf, false);
    StreamRoundTrip([Doc()], 2, StreamId(LAST_MS, 0), [], false, None4(), rest, lzf);
  }
}
