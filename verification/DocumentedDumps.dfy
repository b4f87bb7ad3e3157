/** The dumps of the documentation (rdb.adoc:263-318, 404-540), byte by byte, as Redis wrote them. */
module DocumentedDumps {
  import opened Bytes
  import opened LengthCodec
  import opened Bufptr
  import opened ListValue
  import opened Events
  import opened Values
  import opened StreamDecode
  import opened Records
  import opened Encoded
  import opened Header
  import opened Crc64
  import CrcPoly
  import RestorePayload
  import F = FileRecords
  import P = PackMixed
  import Z = ZipMixed

  const STRING: seq<Byte> := [0x73, 0x74, 0x72, 0x69, 0x6e, 0x67]
  const FOUR: seq<Byte> := [0x66, 0x6f, 0x75, 0x72]
  const ONE: seq<Byte> := [0x6f, 0x6e, 0x65]
  const TWO: seq<Byte> := [0x74, 0x77, 0x6f]

  // ----- the checksum of a dump that Redis has made

  lemma Sum1()
    ensures ByteStep(0, 0) == 0
  {
    CrcPoly.EightAnswers(0, 0, [
      0, 0, 0,
      0, 0, 0,
      0, 0, 0]);
  }

  lemma Sum2()
    ensures ByteStep(0, 6) == 0x358804e3f82aa47d
  {
    CrcPoly.EightAnswers(0, 6, [
      6, 3, 0x95ac9329ac4bc9b4,
      0x4ad64994d625e4da, 0x256b24ca6b12f26d, 0x8719014c99c2b083,
      0xd620138fe0aa91f4, 0x6b1009c7f05548fa, 0x358804e3f82aa47d]);
  }

  lemma Sum3()
    ensures ByteStep(0x358804e3f82aa47d, 0x73) == 0x9e95605373c670ac
  {
    CrcPoly.EightAnswers(0x358804e3f82aa47d, 0x73, [
      0x358804e3f82aa40e, 0x1ac40271fc155207, 0x98ce9211524160b6,
      0x4c674908a920b05b, 0xb39f37adf8db9198, 0x59cf9bd6fc6dc8cc,
      0x2ce7cdeb7e36e466, 0x1673e6f5bf1b7233, 0x9e95605373c670ac]);
  }

  lemma Sum4()
    ensures ByteStep(0x9e95605373c670ac, 0x74) == 0x9c68cf7b65fcb35e
  {
    CrcPoly.EightAnswers(0x9e95605373c670ac, 0x74, [
      0x9e95605373c670d8, 0x4f4ab029b9e3386c, 0x27a55814dcf19c36,
      0x13d2ac0a6e78ce1b, 0x9c45c52c9b77aeb8, 0x4e22e2964dbbd75c,
      0x2711714b26ddebae, 0x1388b8a5936ef5d7, 0x9c68cf7b65fcb35e]);
  }

  lemma Sum5()
    ensures ByteStep(0x9c68cf7b65fcb35e, 0x72) == 0x919d9f7f9a4c6b4b
  {
    CrcPoly.EightAnswers(0x9c68cf7b65fcb35e, 0x72, [
      0x9c68cf7b65fcb32c, 0x4e3467bdb2fe5996, 0x271a33ded97f2ccb,
      0x86218ac6c0f45fd0, 0x4310c563607a2fe8, 0x218862b1b03d17f4,
      0x10c43158d81e8bfa, 0x086218ac6c0f45fd, 0x919d9f7f9a4c6b4b]);
  }

  lemma Sum6()
    ensures ByteStep(0x919d9f7f9a4c6b4b, 0x69) == 0x0f3082780e8d819b
  {
    CrcPoly.EightAnswers(0x919d9f7f9a4c6b4b, 0x69, [
      0x919d9f7f9a4c6b22, 0x48cecfbfcd263591, 0xb1cbf4f64ad8d37d,
      0xcd4969528927a00b, 0xf3082780e8d819b0, 0x798413c0746c0cd8,
      0x3cc209e03a36066c, 0x1e6104f01d1b0336, 0x0f3082780e8d819b]);
  }

  lemma Sum7()
    ensures ByteStep(0x0f3082780e8d819b, 0x6e) == 0x7720ede19f9de62e
  {
    CrcPoly.EightAnswers(0x0f3082780e8d819b, 0x6e, [
      0x0f3082780e8d81f5, 0x9234d215ab0d094f, 0xdcb6fa2379cd4d12,
      0x6e5b7d11bce6a689, 0xa2812da172389af1, 0xc4ec05f9155784cd,
      0xf7da91d526e00bd3, 0xee41dbc33f3bcc5c, 0x7720ede19f9de62e]);
  }

  lemma Sum8()
    ensures ByteStep(0x7720ede19f9de62e, 0x67) == 0x0efd662cc3d0c785
  {
    CrcPoly.EightAnswers(0x7720ede19f9de62e, 0x67, [
      0x7720ede19f9de649, 0xae3ce5d963853a91, 0xc2b2e1c51d8954fd,
      0xf4f5e3cb228f63cb, 0xefd662cc3d0c7850, 0x77eb31661e863c28,
      0x3bf598b30f431e14, 0x1dfacc5987a18f0a, 0x0efd662cc3d0c785]);
  }

  lemma Sum9()
    ensures ByteStep(0x0efd662cc3d0c785, 9) == 0xfeb2678870dd5188
  {
    CrcPoly.EightAnswers(0x0efd662cc3d0c785, 9, [
      0x0efd662cc3d0c78c, 0x077eb31661e863c6, 0x03bf598b30f431e3,
      0x94733fec3431d144, 0x4a399ff61a18e8a2, 0x251ccffb0d0c7451,
      0x8722f4d42acdf39d, 0xd63de943b92d307b, 0xfeb2678870dd5188]);
  }

  lemma Sum10()
    ensures ByteStep(0xfeb2678870dd5188, 0) == 0x3e7acdfa4c2fea91
  {
    CrcPoly.EightAnswers(0xfeb2678870dd5188, 0, [
      0xfeb2678870dd5188, 0x7f5933c4386ea8c4, 0x3fac99e21c375462,
      0x1fd64cf10e1baa31, 0x9a47b5512b461cad, 0xd88f498139e8c7e3,
      0xf9eb37e930bfaa44, 0x7cf59bf4985fd522, 0x3e7acdfa4c2fea91]);
  }

  lemma StringCrc()
    ensures Crc(0, [0, 6, 0x73, 0x74, 0x72, 0x69, 0x6e, 0x67, 9, 0]) == 0x3e7acdfa4c2fea91
  {
    hide ByteStep;
    Sum1(); Sum2(); Sum3(); Sum4(); Sum5();
    Sum6(); Sum7(); Sum8(); Sum9(); Sum10();
    assert [0, 6, 0x73, 0x74, 0x72, 0x69, 0x6e, 0x67, 9, 0][1..] == [6, 0x73, 0x74, 0x72, 0x69, 0x6e, 0x67, 9, 0];
    assert [6, 0x73, 0x74, 0x72, 0x69, 0x6e, 0x67, 9, 0][1..] == [0x73, 0x74, 0x72, 0x69, 0x6e, 0x67, 9, 0];
    assert [0x73, 0x74, 0x72, 0x69, 0x6e, 0x67, 9, 0][1..] == [0x74, 0x72, 0x69, 0x6e, 0x67, 9, 0];
    assert [0x74, 0x72, 0x69, 0x6e, 0x67, 9, 0][1..] == [0x72, 0x69, 0x6e, 0x67, 9, 0];
    assert [0x72, 0x69, 0x6e, 0x67, 9, 0][1..] == [0x69, 0x6e, 0x67, 9, 0];
    assert [0x69, 0x6e, 0x67, 9, 0][1..] == [0x6e, 0x67, 9, 0];
    assert [0x6e, 0x67, 9, 0][1..] == [0x67, 9, 0];
    assert [0x67, 9, 0][1..] == [9, 0];
    assert [9, 0][1..] == [0];
    assert [0][1..] == [];
  }

  lemma SumAsNumber()
    ensures (0x3e7acdfa4c2fea91 as bv64) as nat == 0x3e7acdfa4c2fea91
  {}

  lemma StringSum()
    ensures Checksum([0, 6, 0x73, 0x74, 0x72, 0x69, 0x6e, 0x67, 9, 0]) == 0x3e7acdfa4c2fea91
  {
    StringCrc();
    SumAsNumber();
    hide Crc;
  }

  lemma SumBytes()
    ensures Le(0x3e7acdfa4c2fea91, 8) == [0x91, 0xea, 0x2f, 0x4c, 0xfa, 0xcd, 0x7a, 0x3e]
  {
    hide Le;
    LeIs([0x91, 0xea, 0x2f, 0x4c, 0xfa, 0xcd, 0x7a, 0x3e],
      [0x3e7acdfa4c2fea91, 0x3e7acdfa4c2fea, 0x3e7acdfa4c2f, 0x3e7acdfa4c,
       0x3e7acdfa, 0x3e7acd, 0x3e7a, 0x3e, 0]);
  }

  // ----- a string

  function StringValue(): F.Value { F.Single(Plain(Str(STRING))) }

  lemma StringLayout(lzf: Inflater)
    ensures F.ValueFits(StringValue(), lzf) && F.ValueBytes(StringValue(), lzf) == [6] + STRING
    ensures F.TypeByte(StringValue()) == 0 && F.TypeName(StringValue()) == RString && F.ElemsOf(StringValue()) == [Str(STRING)]
  {}

  lemma StringParts(d: seq<Byte>)
    requires d == [0, 6] + STRING + [9, 0] + [0x91, 0xea, 0x2f, 0x4c, 0xfa, 0xcd, 0x7a, 0x3e] + [10]
    ensures [0] + ([6] + STRING) + [9, 0] == [0, 6, 0x73, 0x74, 0x72, 0x69, 0x6e, 0x67, 9, 0]
    ensures d == [0] + ([6] + STRING) + [9, 0] + Le(0x3e7acdfa4c2fea91, 8) + [10]
    ensures 0x3e7acdfa4c2fea91 < TWO64
  {
    SumBytes();
    hide Le;
  }

  /** redis-cli dump k: type, size, "string", version, checksum, and the line end. The checksum agrees. */
  lemma StringDump(d: seq<Byte>, lzf: Inflater)
    requires d == [0, 6] + STRING + [9, 0] + [0x91, 0xea, 0x2f, 0x4c, 0xfa, 0xcd, 0x7a, 0x3e] + [10]
    ensures var h := HdrOf(Version(0, false), Start(d), lzf);
      h.v == Version(9, false) && h.events == [StartType(RString)] && h.lead.err == Ok
      && var b := BodyOf(h.lead.t, h.lead.rlen, h.lead.c, lzf);
         b.0 == Done && b.1 == [StartKey, DString(Str(STRING)), EndKey] && b.2.main == []
  {
    hide *;
    StringParts(d);
    StringLayout(lzf);
    StringSum();
    F.DumpDecoded(StringValue(), 0x3e7acdfa4c2fea91, true, lzf);
    var h := HdrOf(Version(0, false), Start(d), lzf);
    StringTold(BodyOf(h.lead.t, h.lead.rlen, h.lead.c, lzf).1);
  }

  lemma StringTold(es: seq<Event>)
    ensures F.Told(StringValue(), es) ==> es == [StartKey, DString(Str(STRING)), EndKey]
  {}

  /** What a RESTORE of the key k sends for it is what redis-cli has dumped. */
  lemma StringRestored()
    ensures RestorePayload.Dump(0, [6] + STRING)
         == [0, 6] + STRING + [9, 0] + [0x91, 0xea, 0x2f, 0x4c, 0xfa, 0xcd, 0x7a, 0x3e]
  {
    hide Crc, Le;
    StringCrc();
    SumAsNumber();
    SumBytes();
    CrcConcat(0, [0], [6] + STRING);
    CrcConcat(0, [0] + ([6] + STRING), [9, 0]);
    assert [0] + ([6] + STRING) + [9, 0] == [0, 6, 0x73, 0x74, 0x72, 0x69, 0x6e, 0x67, 9, 0];
  }

  // ----- a set

  function SetValue(): F.Value {
    F.Members(2, [Plain(Int(3)), Plain(Int(1)), Plain(Int(2)), Plain(Str(STRING)), Plain(Str(FOUR))])
  }

  lemma SmallInts()
    ensures EncodeInt(1) == [0xc0, 1] && EncodeInt(2) == [0xc0, 2] && EncodeInt(3) == [0xc0, 3]
    ensures EncodeLen(1) == [1] && EncodeLen(4) == [4] && EncodeLen(5) == [5] && EncodeLen(6) == [6]
  {
    assert Pow256(1) == 256;
    LeIs([1], [1, 0]);
    LeIs([2], [2, 0]);
    LeIs([3], [3, 0]);
    hide Le, Pow256;
  }

  lemma SetStrings(lzf: Inflater)
    ensures AuxBytes(Plain(Int(1)), lzf) == [0xc0, 1] && AuxBytes(Plain(Int(2)), lzf) == [0xc0, 2]
    ensures AuxBytes(Plain(Int(3)), lzf) == [0xc0, 3]
    ensures AuxFits(Plain(Str(STRING)), lzf) && AuxBytes(Plain(Str(STRING)), lzf) == [6] + STRING
    ensures AuxFits(Plain(Str(FOUR)), lzf) && AuxBytes(Plain(Str(FOUR)), lzf) == [4] + FOUR
  {
    SmallInts();
    hide EncodeInt, EncodeLen;
  }

  lemma TwoStrings(a: AuxStr, b: AuxStr, lzf: Inflater)
    requires AuxFits(a, lzf) && AuxFits(b, lzf)
    ensures F.AllBytes([a, b], lzf) == AuxBytes(a, lzf) + AuxBytes(b, lzf)
    ensures F.AllElems([a, b]) == [AuxElem(a), AuxElem(b)]
  {
    hide AuxBytes, AuxFits, AuxElem;
    assert [a, b][1..] == [b] && [b][1..] == [];
    assert F.AllBytes([b], lzf) == AuxBytes(b, lzf) + [] && F.AllElems([b]) == [AuxElem(b)] + [];
  }

  lemma FiveStrings(a: AuxStr, b: AuxStr, c: AuxStr, d: AuxStr, e: AuxStr, lzf: Inflater)
    requires AuxFits(a, lzf) && AuxFits(b, lzf) && AuxFits(c, lzf) && AuxFits(d, lzf) && AuxFits(e, lzf)
    ensures F.AllBytes([a, b, c, d, e], lzf)
         == AuxBytes(a, lzf) + (AuxBytes(b, lzf) + (AuxBytes(c, lzf) + (AuxBytes(d, lzf) + AuxBytes(e, lzf))))
    ensures F.AllElems([a, b, c, d, e]) == [AuxElem(a), AuxElem(b), AuxElem(c), AuxElem(d), AuxElem(e)]
  {
    hide AuxBytes, AuxFits, AuxElem;
    TwoStrings(d, e, lzf);
    assert [a, b, c, d, e][1..] == [b, c, d, e] && [b, c, d, e][1..] == [c, d, e] && [c, d, e][1..] == [d, e];
    assert F.AllBytes([c, d, e], lzf) == AuxBytes(c, lzf) + F.AllBytes([d, e], lzf);
    assert F.AllElems([c, d, e]) == [AuxElem(c)] + F.AllElems([d, e]);
    assert F.AllElems([b, c, d, e]) == [AuxElem(b)] + F.AllElems([c, d, e]);
    assert F.AllBytes([b, c, d, e], lzf) == AuxBytes(b, lzf) + F.AllBytes([c, d, e], lzf);
  }

  /** redis-cli dump s. */
  lemma SetDump(lzf: Inflater)
    ensures F.ValueFits(SetValue(), lzf) && F.TypeByte(SetValue()) == 2
    ensures F.ValueBytes(SetValue(), lzf) == [5] + ([0xc0, 3] + ([0xc0, 1] + ([0xc0, 2] + ([6] + STRING + ([4] + FOUR)))))
    ensures F.ElemsOf(SetValue()) == [Int(3), Int(1), Int(2), Str(STRING), Str(FOUR)]
  {
    SmallInts();
    SetStrings(lzf);
    FiveStrings(Plain(Int(3)), Plain(Int(1)), Plain(Int(2)), Plain(Str(STRING)), Plain(Str(FOUR)), lzf);
    hide EncodeInt, EncodeLen, AuxBytes, F.AllBytes, F.AllElems;
  }

  // ----- a hash in a ziplist

  function HashItems(): seq<Z.Item> { [Z.Text(ONE), Z.Tiny(1), Z.Text(TWO), Z.Tiny(2)] }

  lemma HashEntries()
    ensures Z.AllFit(0, HashItems()) && Z.ItemElems(HashItems()) == [Str(ONE), Int(1), Str(TWO), Int(2)]
    ensures Z.MixedEntries(0, HashItems())
         == [0] + ([3] + ONE) + ([5] + [0xf2] + ([2] + ([3] + TWO) + ([5] + [0xf3] + [])))
  {
    var xs := HashItems();
    assert xs[1..] == [Z.Tiny(1), Z.Text(TWO), Z.Tiny(2)] && xs[1..][1..] == [Z.Text(TWO), Z.Tiny(2)];
    assert xs[1..][1..][1..] == [Z.Tiny(2)] && xs[1..][1..][1..][1..] == [];
    assert Z.SizeAfter(0, Z.Text(ONE)) == 5 && Z.SizeAfter(5, Z.Tiny(1)) == 2 && Z.SizeAfter(2, Z.Text(TWO)) == 5;
    assert Z.AllFit(5, [Z.Tiny(2)]);
    assert Z.AllFit(2, [Z.Text(TWO), Z.Tiny(2)]);
    assert Z.MixedEntries(5, [Z.Tiny(2)]) == [5] + [0xf3] + [];
    assert Z.MixedEntries(2, [Z.Text(TWO), Z.Tiny(2)]) == [2] + ([3] + TWO) + ([5] + [0xf3] + []);
    assert Z.ItemElems([Z.Text(TWO), Z.Tiny(2)]) == [Str(TWO), Int(2)];
  }

  function HashValue(): F.Value { F.InString(13, F.Stored(F.Zip(HashItems(), 0x16), None)) }

  const HASH: seq<Byte> :=
    [0x19, 0, 0, 0] + [0x16, 0, 0, 0] + [4, 0]
    + (([0] + ([3] + ONE) + ([5] + [0xf2] + ([2] + ([3] + TWO) + ([5] + [0xf3] + [])))) + [0xff])

  lemma HashSizes()
    ensures Le(25, 4) == [0x19, 0, 0, 0] && Le(22, 4) == [0x16, 0, 0, 0] && Le(4, 2) == [4, 0]
  {
    hide Le;
    LeIs([0x19, 0, 0, 0], [25, 0, 0, 0, 0]);
    LeIs([0x16, 0, 0, 0], [22, 0, 0, 0, 0]);
    LeIs([4, 0], [4, 0, 0]);
  }

  lemma HashText()
    ensures Z.MixedFits(HashItems()) && Z.MixedBytes(HashItems(), 0x16) == HASH && |HASH| == 25 && |HashItems()| == 4
  {
    HashEntries();
    HashSizes();
    hide Z.AllFit, Z.MixedEntries, Le;
  }

  lemma ShortLengths()
    ensures EncodeLen(25) == [0x19] && EncodeLen(21) == [0x15] && EncodeLen(28) == [0x1c] && EncodeLen(17) == [0x11]
    ensures EncodeLen(1) == [1]
  {}

  /** redis-cli dump h: the size of the ziplist, and the ziplist. */
  lemma HashDump(lzf: Inflater)
    ensures F.ValueFits(HashValue(), lzf) && F.TypeByte(HashValue()) == 13
    ensures F.ValueBytes(HashValue(), lzf) == [0x19] + HASH
    ensures F.ElemsOf(HashValue()) == [Str(ONE), Int(1), Str(TWO), Int(2)]
  {
    HashText();
    HashEntries();
    ShortLengths();
    hide Z.MixedFits, Z.MixedBytes, Z.ItemElems, EncodeLen, HashItems;
  }

  // ----- a list in one ziplist

  function ListItems(): seq<Z.Item> { [Z.Text(STRING), Z.Tiny(2)] }
  function Rpush(): F.Value { F.InNodes([F.Stored(F.Zip(ListItems(), 0x12), None)], false) }

  const LIST: seq<Byte> :=
    [0x15, 0, 0, 0] + [0x12, 0, 0, 0] + [2, 0] + (([0] + ([6] + STRING) + ([8] + [0xf3] + [])) + [0xff])

  lemma ListEntries()
    ensures Z.AllFit(0, ListItems()) && Z.ItemElems(ListItems()) == [Str(STRING), Int(2)] && |ListItems()| == 2
    ensures Z.MixedEntries(0, ListItems()) == [0] + ([6] + STRING) + ([8] + [0xf3] + [])
  {
    var xs := ListItems();
    assert xs[1..] == [Z.Tiny(2)] && [Z.Tiny(2)][1..] == [];
    assert Z.SizeAfter(0, Z.Text(STRING)) == 8;
    assert Z.AllFit(8, [Z.Tiny(2)]);
    assert Z.MixedEntries(8, [Z.Tiny(2)]) == [8] + [0xf3] + [];
  }

  lemma ListSizes()
    ensures Le(21, 4) == [0x15, 0, 0, 0] && Le(18, 4) == [0x12, 0, 0, 0] && Le(2, 2) == [2, 0]
  {
    hide Le;
    LeIs([0x15, 0, 0, 0], [21, 0, 0, 0, 0]);
    LeIs([0x12, 0, 0, 0], [18, 0, 0, 0, 0]);
    LeIs([2, 0], [2, 0, 0]);
  }

  lemma ListText()
    ensures Z.MixedFits(ListItems()) && Z.MixedBytes(ListItems(), 0x12) == LIST && |LIST| == 21
  {
    ListEntries();
    ListSizes();
    hide Z.AllFit, Z.MixedEntries, Le, ListItems;
  }

  /** redis-cli dump l: one node, its size, and the ziplist. */
  lemma ListDump(lzf: Inflater)
    ensures F.ValueFits(Rpush(), lzf) && F.TypeByte(Rpush()) == 14
    ensures F.ValueBytes(Rpush(), lzf) == [1] + ([0x15] + LIST)
    ensures F.ElemsOf(Rpush()) == [Str(STRING), Int(2)]
  {
    ListText();
    ListEntries();
    ShortLengths();
    hide Z.MixedFits, Z.MixedBytes, Z.ItemElems, EncodeLen, ListItems;
    OneNode(F.Stored(F.Zip(ListItems(), 0x12), None), lzf);
  }

  lemma OneNode(b: F.Stored, lzf: Inflater)
    requires F.StoredFits(b, lzf)
    ensures F.AllNodes([b], lzf) == F.NodeBytes(b, lzf) && F.NodesElems([b]) == F.ItemsElems(b.items)
    ensures b.items.Zip? ==> F.NodeBytes(b, lzf) == AuxBytes(F.AsString(b), lzf)
  {
    hide F.StoredFits, F.ItemsElems, AuxBytes, F.AsString;
    assert [b][1..] == [];
  }

  // ----- the same list, and a hash, in listpacks

  function PackedListItems(): seq<P.Item> { [P.Text(STRING), P.Seven(2)] }
  function PackedRpush(): F.Value { F.InNodes([F.Stored(F.Pack(PackedListItems()), None)], true) }

  const PACKED_LIST: seq<Byte> :=
    [0x11, 0, 0, 0] + [2, 0] + ((([0x86] + STRING + [7]) + [2, 1]) + [0xff])

  lemma TwoItems(a: P.Item, b: P.Item)
    requires P.ItemFits(a) && P.ItemFits(b)
    ensures P.AllItemsFit([a, b]) && P.MixedEntries([a, b]) == P.EntryOf(a) + P.EntryOf(b)
    ensures P.ItemElems([a, b]) == [P.ItemElem(a), P.ItemElem(b)]
  {
    hide P.ItemFits, P.EntryOf, P.ItemElem, P.MixedEntries, P.AllItemsFit, P.ItemElems;
    P.OneItem(a);
    P.OneItem(b);
    P.MixedConcat([a], [b]);
    assert [a] + [b] == [a, b];
  }

  lemma PackedListText()
    ensures P.MixedFits(PackedListItems()) && P.MixedBytes(PackedListItems()) == PACKED_LIST && |PACKED_LIST| == 17
    ensures P.ItemElems(PackedListItems()) == [Str(STRING), Int(2)]
  {
    PackedSizes();
    P.TextEntry(STRING);
    P.SevenEntry(2);
    hide P.EntryOf, P.ItemFits, P.ItemElem, P.MixedEntries, P.AllItemsFit, P.ItemElems, Le;
    TwoItems(P.Text(STRING), P.Seven(2));
  }

  lemma PackedSizes()
    ensures Le(17, 4) == [0x11, 0, 0, 0] && Le(2, 2) == [2, 0] && Le(28, 4) == [0x1c, 0, 0, 0] && Le(4, 2) == [4, 0]
  {
    hide Le;
    LeIs([0x11, 0, 0, 0], [17, 0, 0, 0, 0]);
    LeIs([2, 0], [2, 0, 0]);
    LeIs([0x1c, 0, 0, 0], [28, 0, 0, 0, 0]);
    LeIs([4, 0], [4, 0, 0]);
  }

  /** redis-cli dump l of a later version: one node, the kind of its container, its size, and the listpack. */
  lemma PackedListDump(lzf: Inflater)
    ensures F.ValueFits(PackedRpush(), lzf) && F.TypeByte(PackedRpush()) == 18
    ensures F.ValueBytes(PackedRpush(), lzf) == [1] + ([2] + ([0x11] + PACKED_LIST))
    ensures F.ElemsOf(PackedRpush()) == [Str(STRING), Int(2)]
  {
    PackedListText();
    ShortLengths();
    hide P.MixedFits, P.MixedBytes, P.ItemElems, EncodeLen, PackedListItems;
    OneNode(F.Stored(F.Pack(PackedListItems()), None), lzf);
  }

  const AAA: seq<Byte> := [0x61, 0x61, 0x61]
  const HELLO: seq<Byte> := [0x68, 0x65, 0x6c, 0x6c, 0x6f]
  const WORLD: seq<Byte> := [0x77, 0x6f, 0x72, 0x6c, 0x64]

  function PackedHashItems(): seq<P.Item> { [P.Text(AAA), P.Seven(10)] + [P.Text(HELLO), P.Text(WORLD)] }
  function PackedHashValue(): F.Value { F.InString(16, F.Stored(F.Pack(PackedHashItems()), None)) }

  const PACKED_HASH: seq<Byte> :=
    [0x1c, 0, 0, 0] + [4, 0]
    + (((([0x83] + AAA + [4]) + [0x0a, 1]) + (([0x85] + HELLO + [6]) + ([0x85] + WORLD + [6]))) + [0xff])

  lemma PackedHashEntries()
    ensures P.AllItemsFit(PackedHashItems()) && |PackedHashItems()| == 4
    ensures P.MixedEntries(PackedHashItems())
         == (([0x83] + AAA + [4]) + [0x0a, 1]) + (([0x85] + HELLO + [6]) + ([0x85] + WORLD + [6]))
    ensures P.ItemElems(PackedHashItems()) == [Str(AAA), Int(10)] + [Str(HELLO), Str(WORLD)]
  {
    P.TextEntry(AAA);
    P.SevenEntry(10);
    P.TextEntry(HELLO);
    P.TextEntry(WORLD);
    hide P.EntryOf, P.ItemFits, P.ItemElem, P.MixedEntries, P.AllItemsFit, P.ItemElems;
    TwoItems(P.Text(AAA), P.Seven(10));
    TwoItems(P.Text(HELLO), P.Text(WORLD));
    P.MixedConcat([P.Text(AAA), P.Seven(10)], [P.Text(HELLO), P.Text(WORLD)]);
  }

  lemma PackedHashText()
    ensures P.MixedFits(PackedHashItems()) && P.MixedBytes(PackedHashItems()) == PACKED_HASH && |PACKED_HASH| == 28
  {
    PackedHashEntries();
    PackedSizes();
    hide P.MixedEntries, P.AllItemsFit, P.ItemElems, Le, PackedHashItems;
  }

  /** redis-cli dump hash. */
  lemma PackedHashDump(lzf: Inflater)
    ensures F.ValueFits(PackedHashValue(), lzf) && F.TypeByte(PackedHashValue()) == 16
    ensures F.ValueBytes(PackedHashValue(), lzf) == [0x1c] + PACKED_HASH
    ensures F.ElemsOf(PackedHashValue()) == [Str(AAA), Int(10)] + [Str(HELLO), Str(WORLD)]
  {
    PackedHashText();
    PackedHashEntries();
    ShortLengths();
    hide P.MixedFits, P.MixedBytes, P.ItemElems, EncodeLen, PackedHashItems;
  }
}
