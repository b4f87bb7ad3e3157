/** A small stream of the second format with deleted entries, a group, a pending entry and a consumer, byte by byte,
    and what decode_stream makes of it (rdb.adoc:710-768, src/rdb_decode.cpp:969-1144). */
module StreamSample {
  import opened Bytes
  import opened LengthCodec
  import opened Bufptr
  import opened ListValue
  import opened Events
  import opened Values
  import opened StreamDecode
  import opened Records
  import opened StreamJson
  import opened StreamLayout
  import opened StreamFormat
  import opened StreamLife
  import RestoreEncoded
  import ListPackRead
  import P = PackMixed
  import Examples = StreamExamples

  const A: seq<Byte> := [0x61]
  const B: seq<Byte> := [0x62]
  const C: seq<Byte> := [0x63]

  /** Three entries, two of them deleted, one master field; the field, 0, and flags 1. */
  const HEAD_BYTES: seq<Byte> := [3, 1, 2, 1, 1, 1]
  const FIELD_BYTES: seq<Byte> := [0x81, 0x61, 2, 0, 1, 1, 1]
  /** Differences 0 and 0, and one field of its own: b is c; 6 elements back. */
  const OWN_BYTES: seq<Byte> := [0, 1, 0, 1, 1, 1]
  const PAIR_BYTES: seq<Byte> := [0x81, 0x62, 2, 0x81, 0x63, 2, 6, 1]
  /** Flags 3, differences 0 and 1; value 1, 4 elements back, and flags 2. */
  const GONE_BYTES: seq<Byte> := [3, 1, 0, 1, 1, 1]
  const NEXT_BYTES: seq<Byte> := [1, 1, 4, 1, 2, 1]
  /** Differences 5 and 3, value 7; 4 elements back. */
  const LIVE_BYTES: seq<Byte> := [5, 1, 3, 1, 7, 1]
  const LAST_BYTES: seq<Byte> := [4, 1]

  const PACK: seq<Byte> :=
    [0x36, 0, 0, 0] + [0x16, 0]
    + ((((HEAD_BYTES + FIELD_BYTES) + (OWN_BYTES + PAIR_BYTES)) + ((GONE_BYTES + NEXT_BYTES) + (LIVE_BYTES + LAST_BYTES)))
       + [0xff])

  const KEY: seq<Byte> := [0, 0, 0, 0, 0, 0, 0, 1] + [0, 0, 0, 0, 0, 0, 0, 0] // 1-0
  const ENTRY: seq<Byte> := [0, 0, 0, 0, 0, 0, 0, 6] + [0, 0, 0, 0, 0, 0, 0, 3] // 6-3

  /** A count that is dropped, last id 6-3, two more ids, the count of entries, and that of groups. */
  const INFO: seq<Byte> := [3] + (([6] + [3]) + (([1] + ([0] + ([0] + [0])) + [1]) + [1]))
  /** The group g: last id 6-3, a number that is dropped, and the count of pending entries. */
  const GROUP: seq<Byte> := ([1] + [0x67]) + (([6] + [3]) + ([2] + [1]))
  /** Delivered once, at 9. */
  const PENDING: seq<Byte> := ENTRY + ([9, 0, 0, 0, 0, 0, 0, 0] + [1])
  /** The consumer h, last seen at 10, with one pending entry. */
  const CONSUMER: seq<Byte> := ([1] + [0x68]) + ([0x0a, 0, 0, 0, 0, 0, 0, 0] + ([1] + ENTRY))

  const VALUE: seq<Byte> :=
    ([0x10] + KEY + ([0x36] + PACK)) + (INFO + (GROUP + (PENDING + ([1] + CONSUMER))))

  // ----- the listpack

  const HEAD: seq<P.Item> := [P.Seven(3), P.Seven(2), P.Seven(1)]
  const FIELD: seq<P.Item> := [P.Text(A), P.Seven(0), P.Seven(1)]
  const OWN: seq<P.Item> := [P.Seven(0), P.Seven(0), P.Seven(1)]
  const PAIR: seq<P.Item> := [P.Text(B), P.Text(C), P.Seven(6)]
  const GONE: seq<P.Item> := [P.Seven(3), P.Seven(0), P.Seven(1)]
  const NEXT: seq<P.Item> := [P.Seven(1), P.Seven(4), P.Seven(2)]
  const LIVE: seq<P.Item> := [P.Seven(5), P.Seven(3), P.Seven(7)]
  const LAST: seq<P.Item> := [P.Seven(4)]

  lemma FieldBytes()
    ensures P.AllItemsFit(FIELD) && P.ItemElems(FIELD) == [Str(A), Int(0), Int(1)] && P.MixedEntries(FIELD) == FIELD_BYTES
  {
    P.TextEntry(A);
    P.SevenEntry(0);
    P.SevenEntry(1);
    hide *;
    P.ThreeItems(P.Text(A), P.Seven(0), P.Seven(1));
  }

  lemma PairBytes()
    ensures P.AllItemsFit(PAIR) && P.ItemElems(PAIR) == [Str(B), Str(C), Int(6)] && P.MixedEntries(PAIR) == PAIR_BYTES
  {
    P.TextEntry(B);
    P.TextEntry(C);
    P.SevenEntry(6);
    hide *;
    P.ThreeItems(P.Text(B), P.Text(C), P.Seven(6));
  }

  lemma LastBytes()
    ensures P.AllItemsFit(LAST) && P.ItemElems(LAST) == [Int(4)] && P.MixedEntries(LAST) == LAST_BYTES
  {
    P.SevenEntry(4);
    hide *;
    P.OneItem(P.Seven(4));
  }

  function Items(): seq<P.Item> { ((HEAD + FIELD) + (OWN + PAIR)) + ((GONE + NEXT) + (LIVE + LAST)) }

  function Elements(): seq<Elem> {
    [Int(3), Int(2), Int(1), Str(A), Int(0), Int(1), Int(0), Int(0), Int(1), Str(B), Str(C), Int(6),
     Int(3), Int(0), Int(1), Int(1), Int(4), Int(2), Int(5), Int(3), Int(7), Int(4)]
  }

  lemma ItemsBytes()
    ensures P.AllItemsFit(Items()) && P.ItemElems(Items()) == Elements() && |Items()| == 22
    ensures P.MixedEntries(Items()) == ((HEAD_BYTES + FIELD_BYTES) + (OWN_BYTES + PAIR_BYTES))
         + ((GONE_BYTES + NEXT_BYTES) + (LIVE_BYTES + LAST_BYTES))
    ensures |P.MixedEntries(Items())| == 47
  {
    P.ThreeSevens(3, 2, 1);
    FieldBytes();
    P.ThreeSevens(0, 0, 1);
    PairBytes();
    P.ThreeSevens(3, 0, 1);
    P.ThreeSevens(1, 4, 2);
    P.ThreeSevens(5, 3, 7);
    LastBytes();
    P.MixedConcat(HEAD, FIELD);
    P.MixedConcat(OWN, PAIR);
    P.MixedConcat(GONE, NEXT);
    P.MixedConcat(LIVE, LAST);
    P.MixedConcat(HEAD + FIELD, OWN + PAIR);
    P.MixedConcat(GONE + NEXT, LIVE + LAST);
    P.MixedConcat((HEAD + FIELD) + (OWN + PAIR), (GONE + NEXT) + (LIVE + LAST));
    hide P.AllItemsFit, P.ItemElems, P.MixedEntries;
    ElemsAre();
  }

  lemma ElemsAre()
    ensures (([Int(3), Int(2), Int(1)] + [Str(A), Int(0), Int(1)]) + ([Int(0), Int(0), Int(1)] + [Str(B), Str(C), Int(6)]))
      + (([Int(3), Int(0), Int(1)] + [Int(1), Int(4), Int(2)]) + ([Int(5), Int(3), Int(7)] + [Int(4)]))
      == Elements()
  {}

  lemma SizesAre()
    ensures Le(54, 4) == [0x36, 0, 0, 0] && Le(22, 2) == [0x16, 0]
  {}

  lemma PackRead()
    ensures ListPackRead.IsPack(PACK, Elements()) && |PACK| == 54
  {
    ItemsBytes();
    SizesAre();
    hide P.AllItemsFit, P.ItemElems, P.MixedEntries, Le, Items, Elements, ListPackRead.IsPack;
    P.MixedRead(Items());
  }

  // ----- the block

  function Flag1(): Item { Item(1, 0, 0, [Str(B)], [Str(C)]) }
  function Flag3(): Item { Item(3, 0, 1, [Str(A)], [Int(1)]) }
  function Flag2(): Item { Item(2, 5, 3, [Str(A)], [Int(7)]) }

  function Doc(): BlockDoc {
    BlockDoc(StreamId(1, 0), 2, [Str(A)], [Flag1(), Flag3(), Flag2()], PACK, None)
  }

  lemma Kept()
    ensures ItemFits(Flag3(), [Str(A)]) && ItemElems(Flag3()) == [Int(3), Int(0), Int(1), Int(1), Int(4)]
    ensures ItemFits(Flag2(), [Str(A)]) && ItemElems(Flag2()) == [Int(2), Int(5), Int(3), Int(7), Int(4)]
  {}

  lemma Single()
    ensures ItemFits(Flag1(), [Str(A)])
    ensures ItemElems(Flag1()) == [Int(1), Int(0), Int(0), Int(1), Str(B), Str(C), Int(6)]
  {
    assert Interleave([Str(B)][..0], [Str(C)][..0]) == [];
  }

  lemma DocElems()
    ensures ItemsFit([Flag1(), Flag3(), Flag2()], [Str(A)])
    ensures BlockElems(3, 2, [Str(A)], [Flag1(), Flag3(), Flag2()]) == Elements()
  {
    Kept();
    Single();
    hide ItemFits, ItemElems, Flag1, Flag2, Flag3;
    assert [Flag2()][1..] == [] && [Flag3(), Flag2()][1..] == [Flag2()];
    assert [Flag1(), Flag3(), Flag2()][1..] == [Flag3(), Flag2()];
    assert AllItems([Flag2()], [Str(A)]) == ItemElems(Flag2()) + [];
    assert AllItems([Flag3(), Flag2()], [Str(A)]) == ItemElems(Flag3()) + AllItems([Flag2()], [Str(A)]);
    assert AllItems([Flag1(), Flag3(), Flag2()], [Str(A)])
        == ItemElems(Flag1()) + AllItems([Flag3(), Flag2()], [Str(A)]);
    hide AllItems;
    SameElems();
  }

  lemma SameElems()
    ensures [Int(3), Int(2), Int(1)] + ([Str(A)] + ([Int(0)]
      + ([Int(1), Int(0), Int(0), Int(1), Str(B), Str(C), Int(6)]
         + ([Int(3), Int(0), Int(1), Int(1), Int(4)] + ([Int(2), Int(5), Int(3), Int(7), Int(4)] + [])))))
      == Elements()
  {}

  lemma DocFits()
    ensures BlockFits(Doc()) && Safe(DocTrace([Doc()]))
  {
    PackRead();
    DocElems();
    DocTraced();
    hide ItemFits, ItemElems, ItemKind, ListPackRead.IsPack, AllItems, ItemsFit, Flag1, Flag2, Flag3, Elements, DocTrace, Safe;
  }

  lemma DocTraced()
    ensures Safe(DocTrace([Doc()]))
  {
    Examples.OneBlock(Doc());
    hide BlockFits, ItemKinds, LiveItems;
  }

  function Entry(): LiveEntry { LiveEntry(StreamId(6, 3), [(Str(A), Int(7))]) }

  lemma DocLive()
    ensures BlockFits(Doc()) && AllLive([Doc()]) == [Entry()]
  {
    DocFits();
    Examples.OneBlock(Doc());
    FieldsMatch(Doc());
    hide BlockFits, AllLive;
    OnlyOne();
  }

  /** Flags 1 and 3 hide an entry, with fields of its own or without. */
  lemma OnlyOne()
    ensures LiveItems(StreamId(1, 0), [Flag1(), Flag3(), Flag2()]) == [Entry()]
  {
    assert [Flag2()][1..] == [] && [Flag3(), Flag2()][1..] == [Flag2()];
    assert [Flag1(), Flag3(), Flag2()][1..] == [Flag3(), Flag2()];
    assert ItemEntry(StreamId(1, 0), Flag2()) == Entry();
  }

  // ----- the stream

  function Readers(): GroupDoc {
    GroupDoc([0x67], StreamId(6, 3), [Pend(StreamId(6, 3), 9, 1)], [ConsDoc([0x68], 10, [StreamId(6, 3)])])
  }

  function Lost(): Dropped { Dropped(3, [1, 0, 0, 0], [2]) }

  lemma EightBytes()
    ensures Be(0, 8) == [0, 0, 0, 0, 0, 0, 0, 0] && Be(1, 8) == [0, 0, 0, 0, 0, 0, 0, 1]
    ensures Be(3, 8) == [0, 0, 0, 0, 0, 0, 0, 3] && Be(6, 8) == [0, 0, 0, 0, 0, 0, 0, 6]
  {
    hide Be;
    BeIs([0, 0, 0, 0, 0, 0, 0, 0], [0, 0, 0, 0, 0, 0, 0, 0, 0]);
    BeIs([0, 0, 0, 0, 0, 0, 0, 1], [0, 0, 0, 0, 0, 0, 0, 0, 1]);
    BeIs([0, 0, 0, 0, 0, 0, 0, 3], [0, 0, 0, 0, 0, 0, 0, 0, 3]);
    BeIs([0, 0, 0, 0, 0, 0, 0, 6], [0, 0, 0, 0, 0, 0, 0, 0, 6]);
  }

  lemma Times()
    ensures Le(9, 8) == [9, 0, 0, 0, 0, 0, 0, 0] && Le(10, 8) == [0x0a, 0, 0, 0, 0, 0, 0, 0]
  {}

  lemma IdsAre()
    ensures IdBytes(StreamId(1, 0)) == KEY && IdBytes(StreamId(6, 3)) == ENTRY
  {
    EightBytes();
    hide Be;
  }

  lemma LengthIs(n: nat)
    requires n < 64
    ensures EncodeLen(n) == [n]
  {}

  lemma InfoIs()
    ensures InfoBytes(1, StreamId(6, 3), 1, true, Lost()) == INFO
  {
    LengthIs(0); LengthIs(1); LengthIs(3); LengthIs(6);
    LensAre(6, 3);
    LengthsOf();
    hide EncodeLen, LenBytes;
  }

  lemma LensAre(m: nat, n: nat)
    requires m < 64 && n < 64
    ensures LenBytes([m, n]) == [m] + [n] && LenBytes([m]) == [m]
  {
    LengthIs(m);
    LengthIs(n);
    hide EncodeLen;
    assert [m, n][1..] == [n] && [n][1..] == [] && [m][1..] == [];
    assert LenBytes([n]) == [n] + [] && LenBytes([m]) == [m] + [];
  }

  lemma LengthsOf()
    ensures LenBytes([1, 0, 0, 0]) == [1] + ([0] + ([0] + [0])) && LenBytes([1]) == [1]
  {
    LengthIs(1);
    LengthIs(0);
    LensAre(0, 0);
    LensAre(1, 0);
    hide EncodeLen;
    assert [1 as nat, 0, 0, 0][1..] == [0, 0, 0] && [0 as nat, 0, 0][1..] == [0, 0];
  }

  lemma GroupIs()
    ensures GroupFits(Readers()) && HeadBytes(Readers(), true, 2) == GROUP
    ensures RestBytes(Readers()) == PENDING + ([1] + CONSUMER)
  {
    LengthIs(1);
    LengthIs(2);
    LensAre(6, 3);
    IdsAre();
    Times();
    hide EncodeLen, LenBytes, IdBytes, Le, Be;
    OneEach();
  }

  lemma OneEach()
    ensures PendFits(Readers().pends[0]) && ConsFits(Readers().conss[0])
    ensures PendsBytes(Readers().pends) == PendBytes(Readers().pends[0])
    ensures ConssBytes(Readers().conss) == ConsBytes(Readers().conss[0])
    ensures IdsBytes([StreamId(6, 3)]) == IdBytes(StreamId(6, 3))
  {
    hide PendBytes, ConsBytes, IdBytes;
    assert Readers().pends[1..] == [] && Readers().conss[1..] == [] && [StreamId(6, 3)][1..] == [];
  }

  lemma BlockIs()
    ensures BlockFits(Doc()) && BlocksBytes([Doc()]) == [0x10] + KEY + ([0x36] + PACK)
  {
    DocFits();
    PackRead();
    IdsAre();
    LengthIs(16);
    LengthIs(54);
    hide IdBytes, EncodeLen, BlockFits, ListPackRead.IsPack;
    assert [Doc()][1..] == [];
  }

  lemma ValueIs()
    ensures StreamFits([Doc()], 1, StreamId(6, 3), [Readers()], Lost())
    ensures StreamBytes([Doc()], 1, StreamId(6, 3), [Readers()], true, Lost()) == VALUE
  {
    BlockIs();
    InfoIs();
    GroupIs();
    hide InfoBytes, BlockFits, GroupFits, BlocksBytes, HeadBytes, RestBytes;
    assert [Readers()][1..] == [] && [2 as nat][1..] == [];
    assert GroupsBytes([Readers()], true, [2]) == GROUP + ((PENDING + ([1] + CONSUMER)) + []);
  }

  /** The callbacks for the entry, its group, the pending entry and the consumer. */
  function Calls(): seq<Event> {
    [StreamStart(EntryList), StreamEntry(0, StreamId(6, 3), [(Str(A), Int(7))]), StreamEnd(EntryList)]
    + ([StreamInfo(StreamId(6, 3), 1, 1)]
       + ([StreamStart(GroupList)]
          + ([StreamGroup(0, [0x67], StreamId(6, 3), 1)]
             + ([StreamStart(PendingList), StreamPend(0, StreamId(6, 3), 9, 1), StreamEnd(PendingList)]
                + ([StreamStart(ConsumerList)]
                   + ([StreamCons(0, [0x68], 1, 10)]
                      + [StreamStart(ConsumerPendingList), StreamConsPend(0, StreamId(6, 3)), StreamEnd(ConsumerPendingList)]
                      + [StreamEnd(Consumer)])
                   + [StreamEnd(ConsumerList)]))
             + [StreamEnd(Group)])
          + [StreamEnd(GroupList)]))
  }

  lemma ConsumerCalls()
    ensures ConssEvents(Readers().conss, 0)
         == [StreamCons(0, [0x68], 1, 10)]
            + [StreamStart(ConsumerPendingList), StreamConsPend(0, StreamId(6, 3)), StreamEnd(ConsumerPendingList)]
            + [StreamEnd(Consumer)]
  {
    assert Readers().conss[1..] == [];
    assert IdEvents([StreamId(6, 3)]) == [StreamConsPend(0, StreamId(6, 3))];
  }

  lemma GroupCalls()
    ensures GroupsEvents([Readers()], 0)
         == [StreamGroup(0, [0x67], StreamId(6, 3), 1)]
            + ([StreamStart(PendingList), StreamPend(0, StreamId(6, 3), 9, 1), StreamEnd(PendingList)]
               + ([StreamStart(ConsumerList)] + ConssEvents(Readers().conss, 0) + [StreamEnd(ConsumerList)]))
            + [StreamEnd(Group)]
  {
    hide ConssEvents;
    assert [Readers()][1..] == [];
    assert PendEvents(Readers().pends) == [StreamPend(0, StreamId(6, 3), 9, 1)];
  }

  lemma DocCalls()
    ensures DocEvents(StreamDoc([Entry()], StreamId(6, 3), 1, [Readers()])) == Calls()
  {
    ConsumerCalls();
    GroupCalls();
    hide ConssEvents, GroupsEvents;
    assert EntryEvents([Entry()]) == [StreamEntry(0, Entry().id, Entry().fields)];
  }

  /** These bytes are that stream. */
  lemma SampleStream(rest: seq<Byte>, lzf: Inflater)
    ensures BodyOf(RStreamListpacks2, ZERO.(len := 1), Start(VALUE + rest), lzf)
         == (Done, [StartKey] + Calls() + [EndKey], Start(rest))
  {
    DocFits();
    DocLive();
    ValueIs();
    DocCalls();
    AsIs(Doc(), lzf);
    hide *;
    RestoreEncoded.StreamBody(1, Start(VALUE + rest), lzf, true);
    StreamRoundTrip([Doc()], 1, StreamId(6, 3), [Readers()], true, Lost(), rest, lzf);
  }
}
