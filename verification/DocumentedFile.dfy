/** The database file of the documentation (rdb.adoc:76-126), byte by byte, and what a decoder finds in it. */
module DocumentedFile {
  import opened Bytes
  import opened LengthCodec
  import opened Bufptr
  import opened ListValue
  import opened Events
  import opened Values
  import opened StreamDecode
  import opened Records
  import opened Encoded
  import opened Header
  import opened FileFormat
  import F = FileRecords

  const REDIS_VER: seq<Byte> := [0x72, 0x65, 0x64, 0x69, 0x73, 0x2d, 0x76, 0x65, 0x72]
  const VER: seq<Byte> := [0x39, 0x39, 0x39, 0x2e, 0x39, 0x39, 0x39, 0x2e, 0x39, 0x39, 0x39]
  const REDIS_BITS: seq<Byte> := [0x72, 0x65, 0x64, 0x69, 0x73, 0x2d, 0x62, 0x69, 0x74, 0x73]
  const CTIME: seq<Byte> := [0x63, 0x74, 0x69, 0x6d, 0x65]
  const USED_MEM: seq<Byte> := [0x75, 0x73, 0x65, 0x64, 0x2d, 0x6d, 0x65, 0x6d]
  const AOF_PREAMBLE: seq<Byte> := [0x61, 0x6f, 0x66, 0x2d, 0x70, 0x72, 0x65, 0x61, 0x6d, 0x62, 0x6c, 0x65]
  const STRING: seq<Byte> := [0x73, 0x74, 0x72, 0x69, 0x6e, 0x67]

  /** REDIS0009 */
  const HEAD: seq<Byte> := [0x52, 0x45, 0x44, 0x49, 0x53, 0x30, 0x30, 0x30, 0x39]

  /** Five pairs of strings, the number of the database, its size, and the time at which the key expires. */
  const META: seq<Byte> :=
    [0xfa] + ([9] + REDIS_VER + ([0x0b] + VER))
    + ([0xfa] + ([0x0a] + REDIS_BITS + [0xc0, 0x40])
    + ([0xfa] + ([5] + CTIME + [0xc2, 0xbb, 0x14, 0x49, 0x5e])
    + ([0xfa] + ([8] + USED_MEM + [0xc2, 0x78, 0x2e, 0x0d, 0])
    + ([0xfa] + ([0x0c] + AOF_PREAMBLE + [0xc0, 0])
    + ([0xfe, 0]
    + ([0xfb, 1, 1]
    + ([0xfc, 0x45, 0x6e, 0x11, 0x4e, 0x70, 1, 0, 0] + [])))))))

  /** Type, key and value. */
  const RECORD: seq<Byte> := [0] + ([1, 0x6b] + ([6] + STRING))

  // ----- the meta codes

  function Metas(): seq<MetaDoc> {
    [AuxCode(Plain(Str(REDIS_VER)), Plain(Str(VER))), AuxCode(Plain(Str(REDIS_BITS)), Plain(Int(64))),
     AuxCode(Plain(Str(CTIME)), Plain(Int(1581847739))), AuxCode(Plain(Str(USED_MEM)), Plain(Int(863864))),
     AuxCode(Plain(Str(AOF_PREAMBLE)), Plain(Int(0))), Code(Dbselect(0)), Code(Dbresize(1, 1)),
     Code(ExpiredMs(1581857730117))]
  }

  lemma Cuts()
    ensures Unsigned(64, 1) == 64 && Unsigned(0, 1) == 0 && Unsigned(1581847739, 4) == 1581847739 && Unsigned(863864, 4) == 863864
  {
    assert Pow256(1) == 256 && Pow256(4) == 0x1_0000_0000;
    hide Pow256;
  }

  lemma NumberBytes()
    ensures Le(64, 1) == [0x40] && Le(0, 1) == [0] && Le(1581847739, 4) == [0xbb, 0x14, 0x49, 0x5e]
    ensures Le(863864, 4) == [0x78, 0x2e, 0x0d, 0]
    ensures Le(1581857730117, 8) == [0x45, 0x6e, 0x11, 0x4e, 0x70, 1, 0, 0]
  {
    hide Le;
    LeIs([0x40], [64, 0]);
    LeIs([0], [0, 0]);
    LeIs([0xbb, 0x14, 0x49, 0x5e], [0x5e49_14bb, 0x5e_4914, 0x5e49, 0x5e, 0]);
    LeIs([0x78, 0x2e, 0x0d, 0], [0xd_2e78, 0xd2e, 0xd, 0, 0]);
    LeIs([0x45, 0x6e, 0x11, 0x4e, 0x70, 1, 0, 0],
      [0x170_4e11_6e45, 0x1_704e_116e, 0x170_4e11, 0x1_704e, 0x170, 1, 0, 0, 0]);
  }

  lemma Numbers()
    ensures EncodeInt(64) == [0xc0, 0x40] && EncodeInt(0) == [0xc0, 0]
    ensures EncodeInt(1581847739) == [0xc2, 0xbb, 0x14, 0x49, 0x5e] && EncodeInt(863864) == [0xc2, 0x78, 0x2e, 0x0d, 0]
    ensures Le(1581857730117, 8) == [0x45, 0x6e, 0x11, 0x4e, 0x70, 1, 0, 0]
  {
    Cuts();
    NumberBytes();
    hide Le, Unsigned;
  }

  lemma ShortText(s: seq<Byte>, lzf: Inflater)
    requires |s| < 64
    ensures AuxFits(Plain(Str(s)), lzf) && AuxBytes(Plain(Str(s)), lzf) == [|s|] + s
  {
    assert EncodeLen(|s|) == [|s|];
  }

  lemma Pairs(lzf: Inflater)
    ensures forall i | 0 <= i < 5 :: MetaFits(Metas()[i], lzf)
    ensures MetaBytes(Metas()[0], lzf) == [0xfa] + ([9] + REDIS_VER + ([0x0b] + VER))
    ensures MetaBytes(Metas()[1], lzf) == [0xfa] + ([0x0a] + REDIS_BITS + [0xc0, 0x40])
    ensures MetaBytes(Metas()[2], lzf) == [0xfa] + ([5] + CTIME + [0xc2, 0xbb, 0x14, 0x49, 0x5e])
    ensures MetaBytes(Metas()[3], lzf) == [0xfa] + ([8] + USED_MEM + [0xc2, 0x78, 0x2e, 0x0d, 0])
    ensures MetaBytes(Metas()[4], lzf) == [0xfa] + ([0x0c] + AOF_PREAMBLE + [0xc0, 0])
  {
    Numbers();
    ShortText(REDIS_VER, lzf); ShortText(VER, lzf); ShortText(REDIS_BITS, lzf); ShortText(CTIME, lzf);
    ShortText(USED_MEM, lzf); ShortText(AOF_PREAMBLE, lzf);
    IntText(64, lzf); IntText(1581847739, lzf); IntText(863864, lzf); IntText(0, lzf);
    hide AuxFits, AuxBytes, EncodeInt, Le;
  }

  lemma IntText(i: int, lzf: Inflater)
    requires IsInt32(i)
    ensures AuxFits(Plain(Int(i)), lzf) && AuxBytes(Plain(Int(i)), lzf) == EncodeInt(i)
  {
    hide EncodeInt;
  }

  lemma Codes(lzf: Inflater)
    ensures forall i | 5 <= i < 8 :: MetaFits(Metas()[i], lzf)
    ensures MetaBytes(Metas()[5], lzf) == [0xfe, 0] && MetaBytes(Metas()[6], lzf) == [0xfb, 1, 1]
    ensures MetaBytes(Metas()[7], lzf) == [0xfc, 0x45, 0x6e, 0x11, 0x4e, 0x70, 1, 0, 0]
  {
    Numbers();
    assert EncodeLen(0) == [0] && EncodeLen(1) == [1];
    hide EncodeLen, EncodeInt, Le;
  }

  /** The other codes: idle time, frequency, and an expiry in seconds. */
  lemma OtherCodes(lzf: Inflater)
    ensures MetaFits(Code(Idle(7)), lzf) && MetaBytes(Code(Idle(7)), lzf) == [0xf8, 7]
    ensures MetaFits(Code(Freq(5)), lzf) && MetaBytes(Code(Freq(5)), lzf) == [0xf9, 5]
    ensures MetaFits(Code(Expired(0x5e49_14bb)), lzf)
    ensures MetaBytes(Code(Expired(0x5e49_14bb)), lzf) == [0xfd, 0xbb, 0x14, 0x49, 0x5e]
  {
    NumberBytes();
    SevenIs();
    hide EncodeLen, Le;
  }

  lemma SevenIs()
    ensures EncodeLen(7) == [7]
  {}

  lemma MetasStep(ms: seq<MetaDoc>, k: nat, lzf: Inflater)
    requires k < |ms| && AllMetaFit(ms[k..], lzf)
    ensures AllMetaFit(ms[k + 1..], lzf) && MetaFits(ms[k], lzf)
    ensures MetasBytes(ms[k..], lzf) == MetaBytes(ms[k], lzf) + MetasBytes(ms[k + 1..], lzf)
    ensures MetaEvents(ms[k..]) == [MetaEvent(ms[k])] + MetaEvents(ms[k + 1..])
  {
    hide MetaFits, MetaBytes, MetaEvent;
    assert ms[k..][1..] == ms[k + 1..] && ms[k] == ms[k..][0];
  }

  lemma NoMore(ms: seq<MetaDoc>, lzf: Inflater)
    ensures AllMetaFit(ms[|ms|..], lzf) && MetasBytes(ms[|ms|..], lzf) == [] && MetaEvents(ms[|ms|..]) == []
    ensures ms[0..] == ms
  {}

  lemma AllFitFile(lzf: Inflater)
    ensures AllMetaFit(Metas(), lzf) && forall m | m in Metas() :: !Stops(m)
  {
    Pairs(lzf);
    Codes(lzf);
    hide MetaFits, MetaBytes;
    forall m | m in Metas() ensures MetaFits(m, lzf) {
      var i :| 0 <= i < 8 && m == Metas()[i];
    }
  }

  lemma FitFrom(ms: seq<MetaDoc>, k: nat, lzf: Inflater)
    requires AllMetaFit(ms, lzf) && k <= |ms|
    ensures AllMetaFit(ms[k..], lzf)
  {
    hide MetaFits;
  }

  lemma MetaIs(lzf: Inflater)
    ensures AllMetaFit(Metas(), lzf) && MetasBytes(Metas(), lzf) == META
  {
    AllFitFile(lzf);
    Pairs(lzf);
    Codes(lzf);
    var ms := Metas();
    NoMore(ms, lzf);
    assert |ms| == 8;
    forall k | 0 <= k < 8 ensures AllMetaFit(ms[k..], lzf) {
      FitFrom(ms, k, lzf);
    }
    hide MetaFits, MetaBytes, MetasBytes, MetaEvents, AllMetaFit, Metas, MetaEvent;
    MetasStep(ms, 0, lzf); MetasStep(ms, 1, lzf); MetasStep(ms, 2, lzf); MetasStep(ms, 3, lzf);
    MetasStep(ms, 4, lzf); MetasStep(ms, 5, lzf); MetasStep(ms, 6, lzf); MetasStep(ms, 7, lzf);
  }

  /** What the decoder reports before the record. */
  function Reports(): seq<Event> {
    [Aux(Str(REDIS_VER), Str(VER)), Aux(Str(REDIS_BITS), Int(64)), Aux(Str(CTIME), Int(1581847739)),
     Aux(Str(USED_MEM), Int(863864)), Aux(Str(AOF_PREAMBLE), Int(0)), Dbselect(0), Dbresize(1, 1),
     ExpiredMs(1581857730117)]
  }

  lemma {:induction false} EventsAre(ms: seq<MetaDoc>)
    ensures |MetaEvents(ms)| == |ms| && forall i | 0 <= i < |ms| :: MetaEvents(ms)[i] == MetaEvent(ms[i])
    decreases ms
  {
    hide MetaEvent;
    if ms != [] {
      EventsAre(ms[1..]);
    }
  }

  lemma ReportsAre()
    ensures MetaEvents(Metas()) == Reports()
  {
    EventsAre(Metas());
    hide MetaEvents;
  }

  // ----- the record

  function StringValue(): F.Value { F.Single(Plain(Str(STRING))) }

  lemma ValueIs(lzf: Inflater)
    ensures F.ValueFits(StringValue(), lzf) && F.ValueBytes(StringValue(), lzf) == [6] + STRING
    ensures F.TypeByte(StringValue()) == 0 && F.TypeName(StringValue()) == RString && !F.EndsPacked(StringValue())
  {
    ShortText(STRING, lzf);
    hide AuxBytes, AuxFits;
  }

  lemma RecordIs(rest: seq<Byte>, lzf: Inflater)
    ensures AuxFits(Plain(Str([0x6b])), lzf) && F.ValueFits(StringValue(), lzf)
    ensures [F.TypeByte(StringValue())]
      + (AuxBytes(Plain(Str([0x6b])), lzf) + (F.ValueBytes(StringValue(), lzf) + rest)) == RECORD + rest
    ensures F.TypeName(StringValue()) == RString && AuxElem(Plain(Str([0x6b]))) == Str([0x6b])
    ensures !F.EndsPacked(StringValue())
  {
    ShortText([0x6b], lzf);
    ValueIs(lzf);
    hide AuxBytes, AuxFits, F.ValueFits, F.ValueBytes, F.TypeByte, F.TypeName, F.EndsPacked, StringValue;
    assert [1] + [0x6b] == [1, 0x6b];
    Regroup([0], [1, 0x6b] + ([6] + STRING), rest);
    Regroup([1, 0x6b], [6] + STRING, rest);
  }

  lemma HeadIs()
    ensures FileHead(9) == HEAD
  {}

  lemma StringTold(es: seq<Event>)
    ensures F.Told(StringValue(), es) ==> es == [StartKey, DString(Str(STRING)), EndKey]
  {}

  lemma AtRest(rest: seq<Byte>)
    ensures Left(rest, false) == Start(rest)
  {}

  /** The whole file up to its end mark: version 9, the meta codes, and the string of the key k. */
  lemma FileDecoded(file: seq<Byte>, rest: seq<Byte>, lzf: Inflater)
    requires file == HEAD + (META + (RECORD + rest))
    ensures var h := HdrOf(Version(0, false), Start(file), lzf);
      h.v == Version(9, true) && h.events == Reports() + [StartType(RString)]
      && h.lead.err == Ok && h.lead.t == RString && h.lead.key == Some(Str([0x6b]))
      && var b := BodyOf(h.lead.t, h.lead.rlen, h.lead.c, lzf);
         b.0 == Done && b.1 == [StartKey, DString(Str(STRING)), EndKey] && b.2 == Start(rest)
  {
    hide *;
    HeadIs();
    AllFitFile(lzf);
    MetaIs(lzf);
    ReportsAre();
    RecordIs(rest, lzf);
    AtRest(rest);
    F.RecordDecoded(9, Metas(), Plain(Str([0x6b])), StringValue(), rest, lzf);
    var h := HdrOf(Version(0, false), Start(file), lzf);
    StringTold(BodyOf(h.lead.t, h.lead.rlen, h.lead.c, lzf).1);
  }
}
