/** What RestoreOutput cuts out of a file and frames as a dump (src/rdb_restore.cpp:25-100): the dump is
    accepted again, and holds the same value. */
module RestorePayload {
  import opened Bytes
  import opened LengthCodec
  import opened Bufptr
  import opened ListValue
  import opened Events
  import opened StreamDecode
  import opened Values
  import opened Records
  import opened Header
  import Crc64

  // ----- the dump

  const VERSION9: seq<Byte> := [9, 0]

  /** The checksum, over three calls. */
  function DumpCrc(t: Byte, body: seq<Byte>): bv64 {
    Crc64.Crc(Crc64.Crc(Crc64.Crc(0, [t]), body), VERSION9)
  }

  /** Type, body, version and checksum. */
  function Dump(t: Byte, body: seq<Byte>): seq<Byte> {
    [t] + body + VERSION9 + Le(DumpCrc(t, body) as nat, 8)
  }

  lemma DumpCrcIs(t: Byte, body: seq<Byte>)
    ensures DumpCrc(t, body) as nat == Checksum([t] + body + VERSION9) < TWO64
  {
    hide Crc64.Crc;
    Crc64.CrcConcat(0, [t], body);
    Crc64.CrcConcat(0, [t] + body, VERSION9);
  }

  lemma DumpParts(t: Byte, body: seq<Byte>, crc: seq<Byte>)
    requires |crc| == 8
    ensures var b := [t] + body + VERSION9 + crc;
      var n := |b| - 8;
      n == |body| + 3 && b[..n] == [t] + body + VERSION9 && b[n..n + 8] == crc && b[..n - 2] == [t] + body
      && b[n - 2] == 9 && b[n - 1] == 0 && b[0] == t
  {
    var b := [t] + body + VERSION9 + crc;
    var n := |b| - 8;
    assert b[..n] == [t] + body + VERSION9;
    assert b[n..n + 8] == crc;
    assert b[..n - 2] == [t] + body;
    assert b[n - 2] == VERSION9[0] && b[n - 1] == VERSION9[1];
  }

  lemma NotAFile(b: seq<Byte>)
    requires |b| >= 7 && b[0] != 0x52
    ensures b[..7] != MAGIC
  {
    assert b[..7][0] == b[0];
  }

  lemma ClosedParts(s: seq<Byte>, crc: seq<Byte>, tail: seq<Byte>)
    requires |crc| == 8
    ensures var b := s + [9, 0] + crc + tail;
      var n := |s| + 2;
      |b| == n + 8 + |tail| && b[..n] == s + [9, 0] && b[n..n + 8] == crc && b[..n - 2] == s && b[n - 2] == 9 && b[n - 1] == 0
      && (s != [] ==> b[0] == s[0]) && (tail != [] ==> b[|b| - 1] == tail[|tail| - 1])
  {
    var b := s + [9, 0] + crc + tail;
    var n := |s| + 2;
    assert b[..n] == s + [9, 0];
    assert b[n..n + 8] == crc;
    assert b[..n - 2] == s;
    assert b[n - 2] == [9, 0][0] && b[n - 1] == [9, 0][1];
  }

  /** A dump of version 9 is refused if and only if it has a checksum, and another one than its bytes have. A line
      end behind it, as redis-cli appends one, makes no difference. */
  lemma ChecksumDecides(s: seq<Byte>, crc: nat, newline: bool)
    requires s != [] && s[0] != 0x52 && crc < TWO64
    ensures var o := Open(Start(s + [9, 0] + Le(crc, 8) + (if newline then [10] else [])), false);
      !o.isFile && o.ver == 9 && o.crc == crc
      && (o.err == Ok <==> crc == 0 || crc == Checksum(s + [9, 0]))
      && (o.err == Ok ==> o.c == Start(s)) && (o.err != Ok ==> o.err == ErrCrc)
  {
    hide Checksum, Le, FromLe, Digits;
    var tail: seq<Byte> := if newline then [10] else [];
    ClosedParts(s, Le(crc, 8), tail);
    NotAFile(s + [9, 0] + Le(crc, 8) + tail);
    EightBytes();
    LeRoundTrip(crc, 8);
  }

  /** decode_hdr takes a dump for what it is: version 9, with a checksum that agrees. */
  lemma DumpOpens(t: Byte, body: seq<Byte>)
    requires t <= 19
    ensures Open(Start(Dump(t, body)), false)
         == Opening(Ok, false, 9, DumpCrc(t, body) as nat, Start([t] + body))
  {
    hide DumpCrc, Checksum, Le, FromLe, Digits;
    var crc := DumpCrc(t, body) as nat;
    DumpParts(t, body, Le(crc, 8));
    NotAFile(Dump(t, body));
    DumpCrcIs(t, body);
    EightBytes();
    LeRoundTrip(crc, 8);
  }

  lemma EightBytes()
    ensures Pow256(8) == TWO64
  {}

  // ----- where the value is in the file

  /** A record in a file, decoded to its end. The cursor starts at the type byte in the main buffer. */
  datatype Cut = Cut(lead: Lead, body: Run, head: nat, end: nat)

  /** The record at offset p of a file; head is the size of the header of its key, end where the next
      record starts. */
  function RecordAt(file: seq<Byte>, p: nat, lzf: Inflater): Cut
    requires p < |file|
  {
    var lead := LeadOf(Start(file[p..]), lzf, true);
    var body := BodyOf(lead.t, lead.rlen, lead.c, lzf);
    Cut(lead, body, HeadSize(file[p + 1..]), if |body.2.main| <= |file| then |file| - |body.2.main| else 0)
  }

  /** decode_buf on the header of the key. */
  function HeadSize(s: seq<Byte>): nat {
    var n := DecodeBuf(ZERO, Padded(s, MAX_HDRLEN)).1;
    if n < 0 then 0 else n
  }

  /** The domain: the key is a plain string, the run was clean and complete, its blocks are used up, and
      more bytes follow. */
  predicate Restorable(file: seq<Byte>, p: nat, lzf: Inflater)
    requires p < |file|
  {
    var r := RecordAt(file, p, lzf);
    r.lead.err == Ok && r.lead.key.Some? && r.lead.key.value.Str?
    && !DecodeLen(Start(file[p + 1..]), ZERO).1.isLzf
    && r.body.0 == Done && r.body.2.clean && r.body.2.main != []
    && (r.body.2.block == None || r.body.2.block == Some([]))
  }

  /** What write_restore_cmd sends as the value. */
  function Payload(file: seq<Byte>, p: nat, lzf: Inflater): seq<Byte>
    requires p < |file| && Restorable(file, p, lzf)
  {
    BodyFits(file, p, lzf);
    var r := RecordAt(file, p, lzf);
    Dump(file[p], file[p + 1 + r.head + |r.lead.key.value.s|..r.end])
  }

  /** A plain key is its header and its bytes. */
  lemma KeyCut(s: seq<Byte>, lzf: Inflater)
    requires KeyOf(Start(s), lzf).0 == Ok && KeyOf(Start(s), lzf).1.value.Str?
    requires !DecodeLen(Start(s), ZERO).1.isLzf
    ensures var n := HeadSize(s) + |KeyOf(Start(s), lzf).1.value.s|;
      0 < n <= |s| && KeyOf(Start(s), lzf).2.main == s[n..] && KeyOf(Start(s), lzf).2.block == None
  {
    hide DecodeBuf, Padded;
    var c := Start(s);
    assert At(c) == c;
    var d := DecodeLen(c, ZERO);
    var h := HeadSize(s);
    assert d.2.main == s[h..];
    var key := Consume(d.2, lzf, d.1);
    assert s[h..][|key.1|..] == s[h + |key.1|..];
  }

  lemma LeadParts(c: Cursor, lzf: Inflater, t: Byte, rest: seq<Byte>, isFile: bool)
    requires c == Start([t] + rest) && GetRdbType(t) != BadType
    ensures LeadOf(c, lzf, isFile) ==
      if isFile then
        var k := KeyOf(Start(rest), lzf);
        if k.0 != Ok then Lead(k.0, GetRdbType(t), None, ZERO, k.2) else RlenOf(k.2, lzf, GetRdbType(t), k.1)
      else RlenOf(Start(rest), lzf, GetRdbType(t), None)
  {
    hide KeyOf, RlenOf, GetRdbType;
    assert ([t] + rest)[1..] == rest;
  }

  lemma RlenOfKey(c: Cursor, lzf: Inflater, t: RdbType, key: Option<Elem>)
    ensures RlenOf(c, lzf, t, key) == RlenOf(c, lzf, t, None).(key := key)
    ensures RlenOf(c, lzf, t, key).t == t
  {
    hide DecodeLen, Unzip;
  }

  /** The length and the value, read from the file and from the bytes that are cut out of it. */
  lemma ValueCut(rest: seq<Byte>, lzf: Inflater, t: RdbType, key: Option<Elem>, m: nat)
    requires RlenOf(Start(rest), lzf, t, key).err == Ok
    requires var lead := RlenOf(Start(rest), lzf, t, key);
      var body := BodyOf(t, lead.rlen, lead.c, lzf);
      body.0 == Done && body.2.clean && |body.2.main| == m
    ensures m <= |rest|
    ensures var long := RlenOf(Start(rest), lzf, t, key);
      var short := RlenOf(Start(rest[..|rest| - m]), lzf, t, None);
      short.err == Ok && short.rlen == long.rlen
      && var a, b := BodyOf(t, long.rlen, long.c, lzf), BodyOf(t, short.rlen, short.c, lzf);
         b.0 == Done && b.1 == a.1 && b.2.main == [] && b.2.block == a.2.block
  {
    hide RlenOf, BodyOf;
    var lead := RlenOf(Start(rest), lzf, t, key);
    var body := BodyOf(t, lead.rlen, lead.c, lzf);
    RlenOfLeads(Start(rest), lzf, t, key);
    BodyLeads(t, lead.rlen, lead.c, lzf);
    var s, tail := rest[..|rest| - m], rest[|rest| - m..];
    assert s + tail == rest;
    RlenOfKey(Start(s), lzf, t, key);
    RlenOfCut(Start(s), lzf, t, key, tail);
    BodyCut(t, lead.rlen, RlenOf(Start(s), lzf, t, key).c, lzf, tail);
  }

  /** RESTORE preserves meaning: the payload is a version 9 dump that decode_hdr accepts, and decode_body
      makes the same callbacks for it as for the record in the file, using it up. */
  lemma RestorePreserves(file: seq<Byte>, p: nat, lzf: Inflater)
    requires p < |file| && Restorable(file, p, lzf)
    ensures var r := RecordAt(file, p, lzf);
      var h := HdrOf(Version(0, false), Start(Payload(file, p, lzf)), lzf);
      h.v == Version(9, false) && h.events == [StartType(r.lead.t)]
      && h.lead.err == Ok && h.lead.t == r.lead.t && h.lead.rlen == r.lead.rlen
      && var b := BodyOf(h.lead.t, h.lead.rlen, h.lead.c, lzf);
         b.0 == Done && b.1 == r.body.1 && b.2.main == []
  {
    hide KeyOf, RlenOf, BodyOf, GetRdbType, Dump, DumpCrc, Open, MetaLoop, DecodeLen, HeadSize;
    var t, rest, r := file[p], file[p + 1..], RecordAt(file, p, lzf);
    assert file[p..] == [t] + rest;
    KnownType(t, rest, lzf);
    LeadParts(Start(file[p..]), lzf, t, rest, true);
    var k := KeyOf(Start(rest), lzf);
    RlenOfKey(k.2, lzf, GetRdbType(t), k.1);
    KeyCut(rest, lzf);
    RlenOfLeads(k.2, lzf, GetRdbType(t), k.1);
    BodyLeads(r.lead.t, r.lead.rlen, r.lead.c, lzf);
    var n, m := HeadSize(rest) + |k.1.value.s|, |r.body.2.main|;
    ValueCut(rest[n..], lzf, GetRdbType(t), k.1, m);
    var body := rest[n..][..|rest| - n - m];
    assert body == file[p + 1 + n..r.end];
    DumpOpens(t, body);
    LeadParts(Start([t] + body), lzf, t, body, false);
    RlenOfKey(Start(body), lzf, GetRdbType(t), None);
    FreshHdr(t, body, lzf);
  }

  /** The body that is cut out lies in the file. */
  lemma BodyFits(file: seq<Byte>, p: nat, lzf: Inflater)
    requires p < |file| && Restorable(file, p, lzf)
    ensures var r := RecordAt(file, p, lzf);
      p + 1 + r.head + |r.lead.key.value.s| <= r.end == |file| - |r.body.2.main|
  {
    hide KeyOf, RlenOf, BodyOf, GetRdbType, DecodeLen, HeadSize;
    var t, rest, r := file[p], file[p + 1..], RecordAt(file, p, lzf);
    assert file[p..] == [t] + rest;
    KnownType(t, rest, lzf);
    LeadParts(Start(file[p..]), lzf, t, rest, true);
    var k := KeyOf(Start(rest), lzf);
    RlenOfKey(k.2, lzf, GetRdbType(t), k.1);
    KeyCut(rest, lzf);
    RlenOfLeads(k.2, lzf, GetRdbType(t), k.1);
    BodyLeads(r.lead.t, r.lead.rlen, r.lead.c, lzf);
  }

  lemma KnownType(t: Byte, rest: seq<Byte>, lzf: Inflater)
    requires LeadOf(Start([t] + rest), lzf, true).err == Ok
    ensures t <= 19 && GetRdbType(t) != BadType
  {}

  lemma FreshHdr(t: Byte, body: seq<Byte>, lzf: Inflater)
    requires Open(Start(Dump(t, body)), false) == Opening(Ok, false, 9, DumpCrc(t, body) as nat, Start([t] + body))
    requires GetRdbType(t) != BadType
    ensures var lead := LeadOf(Start([t] + body), lzf, false);
      lead.t == GetRdbType(t) ==>
        HdrOf(Version(0, false), Start(Dump(t, body)), lzf) == Hdr(Version(9, false), [StartType(lead.t)], lead)
  {
    hide Open, LeadOf, Dump, DumpCrc, MetaLoop;
  }
}
