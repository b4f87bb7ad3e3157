/** RESTORE of records that were laid out by the encoders: they are in the domain of module RestorePayload,
    and the payload is known byte by byte (src/rdb_restore.cpp:25-100, rdb.adoc:18-45). */
module RestoreEncoded {
  import opened Bytes
  import opened LengthCodec
  import opened Bufptr
  import opened ListValue
  import opened Events
  import opened StreamDecode
  import opened Records
  import opened Encoded
  import opened Header
  import opened FileFormat
  import opened RestorePayload
  import opened StreamFormat
  import opened StreamLayout
  import opened Values
  import StreamJson
  import StreamLife
  import ZipList

  /** A record between other bytes of a file: type, plain key, length and value. */
  function Record(t: Byte, key: seq<Byte>, n: nat, value: seq<Byte>): seq<Byte>
    requires |key| < TWO64 && n < TWO64
  {
    LeadBytes(t, Str(key), n) + value
  }

  /** The value is decoded to its end and leaves what follows it. */
  predicate Complete(t: Byte, n: nat, value: seq<Byte>, after: seq<Byte>, events: seq<Event>, lzf: Inflater) {
    GetRdbType(t) != BadType && after != []
    && BodyOf(GetRdbType(t), ZERO.(len := n), Start(value + after), lzf) == (Done, events, Start(after))
  }

  lemma Suffix(before: seq<Byte>, s: seq<Byte>)
    ensures (before + s)[|before|..] == s
    ensures s != [] ==> (before + s)[|before| + 1..] == s[1..] && (before + s)[|before|] == s[0]
  {
    assert s != [] ==> (before + s)[|before| + 1..] == s[1..];
  }

  lemma LeadFrom(t: Byte, key: seq<Byte>, n: nat, rest: seq<Byte>)
    requires |key| < TWO64 && n < TWO64
    ensures var s := LeadBytes(t, Str(key), n) + rest;
      s != [] && s[0] == t && s[1..] == EncodeLen(|key|) + (key + (EncodeLen(n) + rest))
  {
    hide EncodeLen;
    var s := LeadBytes(t, Str(key), n) + rest;
    assert s == [t] + (EncodeLen(|key|) + (key + (EncodeLen(n) + rest)));
  }

  lemma HeadIs(x: nat, rest: seq<Byte>)
    requires x < TWO64
    ensures HeadSize(EncodeLen(x) + rest) == |EncodeLen(x)|
  {
    hide EncodeLen, DecodeBuf, Padded;
    EncodedSize(x);
    PaddedHead(EncodeLen(x), rest);
    LenRoundTrip(ZERO, x, Padded(EncodeLen(x) + rest, MAX_HDRLEN)[|EncodeLen(x)|..]);
  }

  /** Such a record can be restored, and its payload is the dump of its length and value. */
  lemma RecordRestorable(before: seq<Byte>, t: Byte, key: seq<Byte>, n: nat, value: seq<Byte>, after: seq<Byte>,
                         events: seq<Event>, lzf: Inflater)
    requires |key| < TWO64 && n < TWO64 && Complete(t, n, value, after, events, lzf)
    ensures var file, p := before + (Record(t, key, n, value) + after), |before|;
      p < |file| && Restorable(file, p, lzf)
      && Payload(file, p, lzf) == Dump(t, EncodeLen(n) + value)
      && RecordAt(file, p, lzf).body.1 == events
  {
    hide EncodeLen, LeadBytes, LeadOf, BodyOf, DecodeLen, HeadSize, Dump, GetRdbType;
    var rest := value + after;
    var s := LeadBytes(t, Str(key), n) + rest;
    var file, p := before + (Record(t, key, n, value) + after), |before|;
    Regroup(LeadBytes(t, Str(key), n), value, after);
    Suffix(before, s);
    LeadFrom(t, key, n, rest);
    LeadRead(t, Str(key), n, rest, lzf);
    LenHeader(ZERO, |key|, key + (EncodeLen(n) + rest));
    HeadIs(|key|, key + (EncodeLen(n) + rest));
    assert |file| - |after| == p + 1 + |EncodeLen(|key|)| + |key| + |EncodeLen(n)| + |value|;
    assert EncodeLen(|key|) + (key + (EncodeLen(n) + rest)) == (EncodeLen(|key|) + key) + ((EncodeLen(n) + value) + after);
    BodyCutOut(before, t, EncodeLen(|key|) + key, EncodeLen(n) + value, after, s);
  }

  /** The bytes between the key and what follows. */
  lemma BodyCutOut(before: seq<Byte>, t: Byte, key: seq<Byte>, body: seq<Byte>, after: seq<Byte>, s: seq<Byte>)
    requires s != [] && s[0] == t && s[1..] == key + (body + after)
    ensures var start := |before| + 1 + |key|;
      start + |body| <= |before + s| && (before + s)[start..start + |body|] == body
  {
    var all := before + s;
    assert all[|before| + 1..] == s[1..];
    var start := |before| + 1 + |key|;
    assert all[start..] == s[1..][|key|..] == body + after;
  }

  /** decode_hdr and decode_body on a payload. */
  predicate Decodes(payload: seq<Byte>, events: seq<Event>, lzf: Inflater) {
    var h := HdrOf(Version(0, false), Start(payload), lzf);
    h.v == Version(9, false) && h.lead.err == Ok
    && var b := BodyOf(h.lead.t, h.lead.rlen, h.lead.c, lzf);
       b.0 == Done && b.1 == events && b.2.main == []
  }

  /** From the encoders through a file and a RESTORE command to a decoder: the value arrives as it was. */
  lemma RecordRestored(before: seq<Byte>, t: Byte, key: seq<Byte>, n: nat, value: seq<Byte>, after: seq<Byte>,
                       events: seq<Event>, lzf: Inflater)
    requires |key| < TWO64 && n < TWO64 && Complete(t, n, value, after, events, lzf)
    ensures var file := before + (Record(t, key, n, value) + after);
      |before| < |file| && Restorable(file, |before|, lzf) && Decodes(Payload(file, |before|, lzf), events, lzf)
  {
    hide Restorable, Payload, RecordAt, Record, Complete, HdrOf, BodyOf;
    RecordRestorable(before, t, key, n, value, after, events, lzf);
    RestorePreserves(before + (Record(t, key, n, value) + after), |before|, lzf);
  }

  const QUICKLIST := 14
  const STREAM := 15
  const STREAM_2 := 19

  lemma TypeCodes()
    ensures GetRdbType(QUICKLIST) == RListQuicklist
    ensures GetRdbType(STREAM) == RStreamListpack && GetRdbType(STREAM_2) == RStreamListpacks2
  {}

  lemma QuicklistComplete(nodes: seq<seq<seq<Byte>>>, after: seq<Byte>, lzf: Inflater)
    requires NodesFit(nodes) && after != []
    ensures |nodes| < TWO64
    ensures Complete(QUICKLIST, |nodes|, ZipNodes(nodes), after,
      [StartKey] + ListEvents(Strings(Flatten(nodes))) + [EndKey], lzf)
  {
    hide ZipNodes, BodyOf, ListEvents, Flatten, Nodes, ZipList.ListFits, GetRdbType, Strings;
    TypeCodes();
    ZipNodesRoundTrip(nodes, after, lzf);
    NodesBody(RListQuicklist, |nodes|, Start(ZipNodes(nodes) + after), lzf);
  }

  /** A list, split into ziplist nodes in any way. */
  lemma QuicklistRestored(before: seq<Byte>, key: seq<Byte>, nodes: seq<seq<seq<Byte>>>, after: seq<Byte>, lzf: Inflater)
    requires |key| < TWO64 && NodesFit(nodes) && after != []
    ensures var file := before + (Record(QUICKLIST, key, |nodes|, ZipNodes(nodes)) + after);
      |before| < |file| && Restorable(file, |before|, lzf)
      && Decodes(Payload(file, |before|, lzf), [StartKey] + ListEvents(Strings(Flatten(nodes))) + [EndKey], lzf)
  {
    hide ZipNodes, Complete, Restorable, Payload, Record, Decodes, ListEvents, Flatten, NodesFit;
    QuicklistComplete(nodes, after, lzf);
    RecordRestored(before, QUICKLIST, key, |nodes|, ZipNodes(nodes), after,
      [StartKey] + ListEvents(Strings(Flatten(nodes))) + [EndKey], lzf);
  }

  lemma StreamBody(n: nat, c: Cursor, lzf: Inflater, v2: bool)
    ensures var x := StreamRun(c, lzf, v2, n);
      x.0 == Done ==>
        BodyOf(if v2 then RStreamListpacks2 else RStreamListpack, ZERO.(len := n), c, lzf)
          == (Done, [StartKey] + x.1 + [EndKey], x.2)
  {
    hide StreamRun;
  }

  /** A stream of either format whose blocks keep the rule of module StreamLife. */
  lemma StreamRestored(before: seq<Byte>, key: seq<Byte>, bs: seq<BlockDoc>, numElems: nat, last: StreamId,
                       groups: seq<StreamJson.GroupDoc>, v2: bool, x: Dropped, after: seq<Byte>, lzf: Inflater)
    requires |key| < TWO64 && StreamFits(bs, numElems, last, groups, x) && after != []
    requires Inflates(bs, lzf) && StreamLife.Safe(DocTrace(bs))
    ensures var file := before + (Record(if v2 then STREAM_2 else STREAM, key, |bs|,
                                         StreamBytes(bs, numElems, last, groups, v2, x)) + after);
      var doc := StreamJson.StreamDoc(AllLive(bs), last, numElems, groups);
      |before| < |file| && Restorable(file, |before|, lzf)
      && Decodes(Payload(file, |before|, lzf), [StartKey] + StreamJson.DocEvents(doc) + [EndKey], lzf)
  {
    hide StreamBytes, BodyOf, Restorable, Payload, Record, Decodes, StreamJson.DocEvents, AllLive, StreamRun, BlockFits,
      StreamLife.Safe, DocTrace, Inflates, IsReported, GetRdbType;
    TypeCodes();
    var value, doc := StreamBytes(bs, numElems, last, groups, v2, x), StreamJson.StreamDoc(AllLive(bs), last, numElems, groups);
    StreamRoundTrip(bs, numElems, last, groups, v2, x, after, lzf);
    StreamBody(|bs|, Start(value + after), lzf, v2);
    RecordRestored(before, if v2 then STREAM_2 else STREAM, key, |bs|, value, after,
      [StartKey] + StreamJson.DocEvents(doc) + [EndKey], lzf);
  }
}
