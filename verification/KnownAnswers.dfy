/** Small inputs and outputs of the codecs, byte by byte. */
module KnownAnswers {
  import opened Bytes
  import opened LengthCodec
  import opened ListValue
  import ZipList
  import ZipRead
  import ZipMixed
  import ListPack
  import PackMixed

  /** Every form of a length, one value each (rdb.adoc:182-240). */
  lemma Lengths()
    ensures EncodeLen(10) == [0x0a]
    ensures EncodeLen(300) == [0x41, 0x2c]
    ensures EncodeLen(0x1_1170) == [0x80, 0, 1, 0x11, 0x70]
    ensures EncodeLen(0x1_0203_0405) == [0x81, 0, 0, 0, 1, 2, 3, 4, 5]
  {
    BigEndians();
    hide Be;
  }

  lemma BigEndians()
    ensures Be(0x1_1170, 4) == [0, 1, 0x11, 0x70] && Be(0x1_0203_0405, 8) == [0, 0, 0, 1, 2, 3, 4, 5]
  {
    hide Be;
    BeIs([0, 1, 0x11, 0x70], [0, 0, 1, 0x111, 0x1_1170]);
    BeIs([0, 0, 0, 1, 2, 3, 4, 5], [0, 0, 0, 0, 1, 0x102, 0x1_0203, 0x102_0304, 0x1_0203_0405]);
  }

  lemma Powers()
    ensures Pow256(1) == 0x100 && Pow256(2) == 0x1_0000 && Pow256(4) == 0x1_0000_0000
  {}

  /** Negative numbers in two's complement. */
  lemma Complements()
    ensures Unsigned(5, 1) == 5 && Unsigned(-2, 1) == 0xfe
    ensures Unsigned(300, 2) == 300 && Unsigned(-300, 2) == 0xfed4
    ensures Unsigned(0x1_1170, 4) == 0x1_1170 && Unsigned(-0x1_1170, 4) == 0xfffe_ee90
  {
    Powers();
    hide Pow256;
  }

  lemma LittleEndians()
    ensures Le(5, 1) == [5] && Le(0xfe, 1) == [0xfe] && Le(300, 2) == [0x2c, 1] && Le(0xfed4, 2) == [0xd4, 0xfe]
    ensures Le(0x1_1170, 4) == [0x70, 0x11, 1, 0] && Le(0xfffe_ee90, 4) == [0x90, 0xee, 0xfe, 0xff]
  {
    hide Le;
    LeIs([5], [5, 0]);
    LeIs([0xfe], [0xfe, 0]);
    LeIs([0x2c, 1], [300, 1, 0]);
    LeIs([0xd4, 0xfe], [0xfed4, 0xfe, 0]);
    LeIs([0x70, 0x11, 1, 0], [0x1_1170, 0x111, 1, 0, 0]);
    LeIs([0x90, 0xee, 0xfe, 0xff], [0xfffe_ee90, 0xff_feee, 0xfffe, 0xff, 0]);
  }

  /** Every form of an integer, with either sign (rdb.adoc:204-216). */
  lemma Integers()
    ensures EncodeInt(5) == [0xc0, 5] && EncodeInt(-2) == [0xc0, 0xfe]
    ensures EncodeInt(300) == [0xc1, 0x2c, 1] && EncodeInt(-300) == [0xc1, 0xd4, 0xfe]
    ensures EncodeInt(0x1_1170) == [0xc2, 0x70, 0x11, 1, 0] && EncodeInt(-0x1_1170) == [0xc2, 0x90, 0xee, 0xfe, 0xff]
  {
    Complements();
    LittleEndians();
    hide Le, Unsigned, Pow256;
  }

  // ----- ziplists

  /** The links of a ziplist: the size of the entry before, and that of the string (rdb.adoc:341-402). */
  lemma ZipLinks()
    ensures ZipList.PrevBytes(253) == [253] && ZipList.PrevBytes(254) == [0xfe, 254, 0, 0, 0]
    ensures ZipList.NextBytes(63) == [63] && ZipList.NextBytes(300) == [0x41, 0x2c]
    ensures ZipList.NextBytes(0x1_1170) == [0x80, 0, 1, 0x11, 0x70]
  {
    LeIs([254, 0, 0, 0], [254, 0, 0, 0, 0]);
    BigEndians();
    hide Le, Be;
  }

  lemma WideBytes()
    ensures Complement(-2, 1) == [0xfe] && Complement(-300, 2) == [0xd4, 0xfe] && Complement(0x1170, 2) == [0x70, 0x11]
    ensures Complement(0x12_3456, 3) == [0x56, 0x34, 0x12]
    ensures Complement(0x1234_5678, 4) == [0x78, 0x56, 0x34, 0x12]
    ensures Complement(0x12_3456_789a, 8) == [0x9a, 0x78, 0x56, 0x34, 0x12, 0, 0, 0]
  {
    LittleEndians();
    MoreLittleEndians();
    LeIs([0x56, 0x34, 0x12], [0x12_3456, 0x1234, 0x12, 0]);
    hide Le;
  }

  /** And what its bits are read as. */
  lemma Signs()
    ensures Signed(0xfe, 1) == -2 && Signed(0x7f, 1) == 127 && Signed(0xfed4, 2) == -300
    ensures Signed(0x80_0000, 3) == -0x80_0000 && Signed(0xffff_ffff, 4) == -1
  {
    Powers();
    assert Pow256(3) == 0x100_0000;
    hide Pow256;
  }

  /** The six codes of an integer in a ziplist. */
  lemma ZipCodes()
    ensures ZipMixed.ItemBytes(ZipMixed.Wide(-2, 1)) == [0xfe, 0xfe]
    ensures ZipMixed.ItemBytes(ZipMixed.Wide(-300, 2)) == [0xc0, 0xd4, 0xfe]
    ensures ZipMixed.ItemBytes(ZipMixed.Wide(0x12_3456, 3)) == [0xf0, 0x56, 0x34, 0x12]
    ensures ZipMixed.ItemBytes(ZipMixed.Wide(0x1234_5678, 4)) == [0xd0, 0x78, 0x56, 0x34, 0x12]
    ensures ZipMixed.ItemBytes(ZipMixed.Wide(0x12_3456_789a, 8)) == [0xe0, 0x9a, 0x78, 0x56, 0x34, 0x12, 0, 0, 0]
    ensures ZipMixed.ItemBytes(ZipMixed.Tiny(0)) == [0xf1] && ZipMixed.ItemBytes(ZipMixed.Tiny(12)) == [0xfd]
  {
    WideBytes();
    hide Complement;
  }

  /** The five bytes of a list of one integer, behind the header, as a Redis server writes it. */
  lemma FiveInAZiplist()
    ensures ZipRead.ZipInit([0x0e, 0, 0, 0] + [0x0a, 0, 0, 0] + [1, 0] + [0, 0xfe, 5, 0xff]).Opened?
    ensures var mem := [0x0e, 0, 0, 0] + [0x0a, 0, 0, 0] + [1, 0] + [0, 0xfe, 5, 0xff];
      ZipRead.ZipInit(mem).zip.mem == mem && Inside(mem, ZipRead.HEADER, ZipRead.FIRST)
      && ZipRead.ZipElems(mem, ZipRead.FIRST) == [Int(5)]
  {
    FiveBytes();
    hide ZipRead.ZipInit, ZipRead.ZipElems, ZipMixed.MixedBytes, ZipMixed.MixedFits, ZipMixed.ItemElems;
    ZipMixed.MixedRead([ZipMixed.Wide(5, 1)], 10);
  }

  lemma FiveEntry()
    ensures ZipMixed.AllFit(0, [ZipMixed.Wide(5, 1)]) && ZipMixed.ItemElems([ZipMixed.Wide(5, 1)]) == [Int(5)]
    ensures ZipMixed.MixedEntries(0, [ZipMixed.Wide(5, 1)]) == [0, 0xfe, 5]
  {
    LeIs([5], [5, 0]);
    hide Le;
    assert [ZipMixed.Wide(5, 1)][1..] == [];
    assert ZipMixed.MixedEntries(0, [ZipMixed.Wide(5, 1)]) == [0] + ([0xfe] + [5]) + [];
  }

  lemma FiveSizes()
    ensures Le(14, 4) == [0x0e, 0, 0, 0] && Le(10, 4) == [0x0a, 0, 0, 0] && Le(1, 2) == [1, 0]
  {
    hide Le;
    LeIs([0x0e, 0, 0, 0], [14, 0, 0, 0, 0]);
    LeIs([0x0a, 0, 0, 0], [10, 0, 0, 0, 0]);
    LeIs([1, 0], [1, 0, 0]);
  }

  lemma FiveBytes()
    ensures ZipMixed.MixedFits([ZipMixed.Wide(5, 1)]) && ZipMixed.ItemElems([ZipMixed.Wide(5, 1)]) == [Int(5)]
    ensures ZipMixed.MixedBytes([ZipMixed.Wide(5, 1)], 10)
         == [0x0e, 0, 0, 0] + [0x0a, 0, 0, 0] + [1, 0] + [0, 0xfe, 5, 0xff]
  {
    FiveEntry();
    FiveSizes();
    hide Le, ZipMixed.AllFit, ZipMixed.MixedEntries, ZipMixed.ItemElems;
  }

  // ----- listpacks

  /** The sizes in the documentation (rdb.adoc:578-590), and where the groups become two. */
  lemma BackCodes()
    ensures ListPack.BackBytes(500) == [3, 0xf4] && ListPack.BackBytes(32000) == [1, 0xfa, 0x80]
    ensures ListPack.BackBytes(127) == [127] && ListPack.BackBytes(128) == [1, 0x80]
  {}

  /** The documented codes of integers, the 13-bit one with its sign, and of sizes. */
  lemma DocumentedCodes()
    ensures PackMixed.ItemBytes(PackMixed.Thirteen(300)) == [0xc1, 0x2c]
    ensures PackMixed.ItemBytes(PackMixed.Thirteen(-1)) == [0xdf, 0xff]
    ensures PackMixed.ItemBytes(PackMixed.Wide(0x1170, 2)) == [0xf1, 0x70, 0x11]
    ensures PackMixed.ItemBytes(PackMixed.Wide(0x12_3456, 3)) == [0xf2, 0x56, 0x34, 0x12]
    ensures PackMixed.ItemBytes(PackMixed.Wide(0x1234_5678, 4)) == [0xf3, 0x78, 0x56, 0x34, 0x12]
    ensures PackMixed.ItemBytes(PackMixed.Wide(0x12_3456_789a, 8)) == [0xf4, 0x9a, 0x78, 0x56, 0x34, 0x12, 0, 0, 0]
    ensures PackMixed.TextHead(3) == [0x83] && PackMixed.TextHead(300) == [0xe1, 0x2c]
    ensures PackMixed.TextHead(0x1_1170) == [0xf0, 0x70, 0x11, 1, 0]
    ensures PackMixed.ItemElem(PackMixed.Thirteen(-1)) == Int(-4_294_966_785)
  {
    WideBytes();
    LittleEndians();
    hide Complement, Le;
  }

  /** What the encoder writes: strings of 6, 12 and 32 bits of size. */
  lemma PackHeads()
    ensures ListPack.StrHead(3) == [0x83] && ListPack.StrHead(300) == [0xe1, 0x2c]
    ensures ListPack.StrHead(0x1_1170) == [0xf0, 0, 1, 0x11, 0x70]
  {
    BigEndians();
    hide Be;
  }

  lemma Cuts()
    ensures Unsigned(0x1170, 2) == 0x1170 && Unsigned(0x12_3456, 2) == 0x3456
    ensures Unsigned(0x1234_5678, 4) == 0x1234_5678 && Unsigned(0x12_3456_789a, 8) == 0x12_3456_789a
  {
    Powers();
    assert Pow256(8) == 0x1_0000_0000_0000_0000;
    hide Pow256;
  }

  lemma MoreLittleEndians()
    ensures Le(0x1170, 2) == [0x70, 0x11] && Le(0x3456, 2) == [0x56, 0x34]
    ensures Le(0x1234_5678, 4) == [0x78, 0x56, 0x34, 0x12]
    ensures Le(0x12_3456_789a, 8) == [0x9a, 0x78, 0x56, 0x34, 0x12, 0, 0, 0]
  {
    hide Le;
    LeIs([0x70, 0x11], [0x1170, 0x11, 0]);
    LeIs([0x56, 0x34], [0x3456, 0x34, 0]);
    LeIs([0x78, 0x56, 0x34, 0x12], [0x1234_5678, 0x12_3456, 0x1234, 0x12, 0]);
    LeIs([0x9a, 0x78, 0x56, 0x34, 0x12, 0, 0, 0],
      [0x12_3456_789a, 0x1234_5678, 0x12_3456, 0x1234, 0x12, 0, 0, 0, 0]);
  }

  /** And integers in 7 and 13 bits: the 13-bit code drops the sign. */
  lemma PackBits()
    ensures ListPack.ImmBytes(5) == [5] && ListPack.ImmBytes(300) == [0xc1, 0x2c] && ListPack.ImmBytes(-1) == [0xcf, 0xff]
  {}

  /** And in whole bytes: the 24-bit code has its high byte first. */
  lemma PackWide()
    ensures ListPack.ImmBytes(0x1170) == [0xf1, 0x70, 0x11] && ListPack.ImmBytes(0x12_3456) == [0xf2, 0x12, 0x56, 0x34]
    ensures ListPack.ImmBytes(0x1234_5678) == [0xf3, 0x78, 0x56, 0x34, 0x12]
    ensures ListPack.ImmBytes(0x12_3456_789a) == [0xf4, 0x9a, 0x78, 0x56, 0x34, 0x12, 0, 0, 0]
  {
    Cuts();
    MoreLittleEndians();
    hide Le, Unsigned;
  }
}
