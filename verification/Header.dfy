/** decode_hdr (src/rdb_decode.cpp:237-421): the version and checksum of the input, the meta codes
    between records, and the type, key and length in front of a value. */
module Header {
  import opened Bytes
  import opened LengthCodec
  import opened Bufptr
  import opened ListValue
  import opened Events
  import opened Values
  import Crc64

  // ----- version and checksum

  /** The checksum of a whole buffer, as a number. */
  function Checksum(s: seq<Byte>): nat {
    Crc64.Crc(0, s) as nat
  }

  /** REDIS00 */
  const MAGIC: seq<Byte> := [0x52, 0x45, 0x44, 0x49, 0x53, 0x30, 0x30]

  function Digits(s: seq<Byte>): (r: Option<nat>)
  {
    if s == [] then Some(0)
    else
      var d := s[|s| - 1];
      match Digits(s[..|s| - 1])
      case None => None
      case Some(n) => if 0x30 <= d <= 0x39 then Some(10 * n + (d - 0x30)) else None
  }

  /** What the first call finds out: a file or a dump, its version, and where decoding starts. */
  datatype Opening = Opening(err: Status, isFile: bool, ver: nat, crc: nat, c: Cursor)

  /** A file starts with its version; a checksum that differs is reported but no error. */
  function OpenFile(c: Cursor): Opening {
    var b := c.Cur();
    if |b| < 10 then Opening(ErrTrunc, true, 0, 0, c)
    else
      var crc := if b[|b| - 9] == 0xff then FromLe(b[|b| - 8..]) else 0;
      match Digits(b[5..9])
      case None => Opening(ErrVersion, true, 0, 0, c)
      case Some(v) => Opening(Ok, true, v, crc, c.WithCur(b[9..]))
  }

  /** A dump ends with its version and its checksum. A newline that redis-cli appends is dropped if the
      two bytes before the last eight are not version 9. was is true if an earlier call, whose version
      was zero, has found a file: then the rest is treated as one. */
  function OpenDump(c: Cursor, was: bool): Opening {
    var b := c.Cur();
    if |b| < 10 then Opening(ErrTrunc, was, 0, 0, c)
    else if b[|b| - 10] == 9 && b[|b| - 9] == 0 then CloseDump(c, was, 8)
    else if b[|b| - 1] != 0xa then CloseDump(c, was, 8)
    else if |b| == 10 then Opening(OutOfBounds, was, 0, 0, c) // the byte before the buffer is looked at
    else CloseDump(c, was, 9)
  }

  function CloseDump(c: Cursor, was: bool, off: nat): Opening
    requires 8 <= off && off + 2 <= |c.Cur()|
  {
    var b := c.Cur();
    var n := |b| - off;
    var ver, crc := b[n - 2] as int + 256 * b[n - 1] as int, FromLe(b[n..n + 8]);
    if crc != 0 && Checksum(b[..n]) != crc && !was then Opening(ErrCrc, was, ver, crc, c)
    else Opening(Ok, was, ver, crc, c.WithCur(if was then b[9..] else b[..n - 2]))
  }

  function Open(c: Cursor, was: bool): Opening {
    var b := c.Cur();
    if |b| >= 10 && b[..7] == MAGIC then OpenFile(c) else OpenDump(c, was)
  }

  // ----- meta codes

  type Metas = (Status, seq<Event>, Cursor)

  /** A length that must be plain. */
  function PlainLen(c: Cursor): (r: (Status, seq<nat>, Cursor))
    ensures r.0 == Ok ==> |r.1| == 1
  {
    var d := DecodeLen(c, ZERO);
    if d.0 != Ok then (d.0, [], d.2)
    else if d.1.isLzf || d.1.isEnc != 0 then (ErrHdr, [], d.2)
    else (Ok, [d.1.len], d.2)
  }

  /** A string or an integer, with the data of a string consumed. */
  function AuxOf(c: Cursor, lzf: Inflater): (r: Piece)
    ensures r.0 == Ok ==> |r.1| == 1
  {
    var d := DecodeLen(c, ZERO);
    if d.0 != Ok then (d.0, [], d.2)
    else if d.1.isEnc != 0 then (Ok, [Int(d.1.ival)], d.2)
    else
      var b := Consume(d.2, lzf, d.1);
      if b.0 != Ok then (b.0, [], b.2) else (Ok, [Str(b.1)], b.2)
  }

  /** The meta code at the front, which is 0xf7 or above. */
  function Meta(c: Cursor, lzf: Inflater): Metas
    requires c.Cur() != [] && c.Cur()[0] >= 0xf7
  {
    var code, at := c.Cur()[0], c.WithCur(c.Cur()[1..]);
    if code == 0xf8 then
      var l := PlainLen(at);
      (l.0, if l.0 == Ok then [Idle(l.1[0])] else [], l.2)
    else if code == 0xf9 then
      match Incr(at, 1)
      case None => (ErrTrunc, [], at)
      case Some(x) => (Ok, [Freq(x.0[0])], x.1)
    else if code == 0xfa then
      var x := AuxOf(at, lzf);
      if x.0 != Ok then (x.0, [], x.2)
      else
        var y := AuxOf(x.2, lzf);
        (y.0, if y.0 == Ok then [Aux(x.1[0], y.1[0])] else [], y.2)
    else if code == 0xfb then
      var x := PlainLen(at);
      if x.0 != Ok then (x.0, [], x.2)
      else
        var y := PlainLen(x.2);
        (y.0, if y.0 == Ok then [Dbresize(x.1[0], y.1[0])] else [], y.2)
    else if code == 0xfc then
      match Incr(at, 8)
      case None => (ErrTrunc, [], at)
      case Some(x) => (Ok, [ExpiredMs(FromLe(x.0))], x.1)
    else if code == 0xfd then
      match Incr(at, 4)
      case None => (ErrTrunc, [], at)
      case Some(x) => (Ok, [Expired(FromLe(x.0))], x.1)
    else if code == 0xfe then
      var l := PlainLen(at);
      (l.0, if l.0 == Ok then [Dbselect(l.1[0] % TWO32)] else [], l.2)
    else if code == 0xff then (EofMark, [], at)
    else (ErrNotsup, [], at)
  }

  /** The loop over meta codes: it ends at a type byte or where the current buffer is used up. */
  function MetaLoop(c: Cursor, lzf: Inflater): Metas
    decreases |c.Remaining()|
  {
    if c.Cur() == [] || c.Cur()[0] < 0xf7 then (Ok, [], c)
    else
      var m := Meta(c, lzf);
      if m.0 != Ok then m
      else
        MetaShrinks(c, lzf);
        var rest := MetaLoop(m.2, lzf);
        (rest.0, m.1 + rest.1, rest.2)
  }

  // ----- each meta code takes bytes off the stream

  lemma LenShrinks(c: Cursor)
    requires DecodeLen(c, ZERO).0 == Ok
    ensures |DecodeLen(c, ZERO).2.Remaining()| < |c.Remaining()|
  {
    hide DecodeLen;
    DecodeLenConserves(c, ZERO);
    var h: seq<Byte> :| 0 < |h| && h + DecodeLen(c, ZERO).2.Remaining() == c.Remaining();
  }

  lemma IncrShrinks(c: Cursor, n: nat)
    requires Incr(c, n).Some?
    ensures |Incr(c, n).value.1.Remaining()| == |c.Remaining()| - n
  {
    IncrConserves(c, n);
  }

  /** consume takes a decompressed block whole. */
  lemma ConsumeShrinks(c: Cursor, lzf: Inflater, l: Length)
    requires Consume(c, lzf, l).0 == Ok
    ensures |Consume(c, lzf, l).2.Remaining()| <= |c.Remaining()|
  {
    if l.isLzf {
      var d := Decompress(c, lzf, l.zlen, l.len).1;
      IncrShrinks(d, l.len);
      assert |d.Remaining()| <= |c.Remaining()| + l.len;
    } else {
      IncrShrinks(c, l.len);
    }
  }

  lemma AuxShrinks(c: Cursor, lzf: Inflater)
    requires AuxOf(c, lzf).0 == Ok
    ensures |AuxOf(c, lzf).2.Remaining()| < |c.Remaining()|
  {
    hide DecodeLen, Consume;
    LenShrinks(c);
    var d := DecodeLen(c, ZERO);
    if d.1.isEnc == 0 {
      ConsumeShrinks(d.2, lzf, d.1);
    }
  }

  lemma PlainShrinks(c: Cursor)
    requires PlainLen(c).0 == Ok
    ensures |PlainLen(c).2.Remaining()| < |c.Remaining()|
  {
    hide DecodeLen;
    LenShrinks(c);
  }

  lemma MetaShrinks(c: Cursor, lzf: Inflater)
    requires c.Cur() != [] && c.Cur()[0] >= 0xf7 && Meta(c, lzf).0 == Ok
    ensures |Meta(c, lzf).2.Remaining()| < |c.Remaining()|
  {
    hide PlainLen, AuxOf, FromLe;
    var code, at := c.Cur()[0], c.WithCur(c.Cur()[1..]);
    assert |at.Remaining()| < |c.Remaining()|;
    if code in {0xf8, 0xfb, 0xfe} {
      PlainShrinks(at);
      if code == 0xfb {
        PlainShrinks(PlainLen(at).2);
      }
    } else if code == 0xfa {
      AuxShrinks(at, lzf);
      AuxShrinks(AuxOf(at, lzf).2, lzf);
    }
  }

  // ----- type, key and length

  /** What decode_hdr leaves for decode_body. */
  datatype Lead = Lead(err: Status, t: RdbType, key: Option<Elem>, rlen: Length, c: Cursor)

  /** The type byte, in a file the key, the length, and the block of a compressed value. */
  function LeadOf(c: Cursor, lzf: Inflater, isFile: bool): Lead {
    if c.Cur() == [] then Lead(ErrTrunc, BadType, None, ZERO, c)
    else
      var t := GetRdbType(c.Cur()[0]);
      if t == BadType then Lead(ErrType, t, None, ZERO, c)
      else
        var at := c.WithCur(c.Cur()[1..]);
        var k := if isFile then KeyOf(at, lzf) else (Ok, None, at);
        if k.0 != Ok then Lead(k.0, t, None, ZERO, k.2) else RlenOf(k.2, lzf, t, k.1)
  }

  function KeyOf(c: Cursor, lzf: Inflater): (Status, Option<Elem>, Cursor) {
    var x := AuxOf(c, lzf);
    if x.0 != Ok then (x.0, None, x.2) else (Ok, Some(x.1[0]), x.2)
  }

  function RlenOf(c: Cursor, lzf: Inflater, t: RdbType, key: Option<Elem>): Lead {
    var d := DecodeLen(c, ZERO);
    if d.0 != Ok then Lead(d.0, t, key, d.1, d.2)
    else
      var u := Unzip(d.2, lzf, d.1);
      Lead(if u.0 then Ok else ErrLzf, t, key, d.1, u.1)
  }

  lemma RlenOfLeads(c: Cursor, lzf: Inflater, t: RdbType, key: Option<Elem>)
    ensures Leads(c, RlenOf(c, lzf, t, key).c)
  {
    hide DecodeLen, Unzip;
    DecodeLenLeads(c, ZERO);
    UnzipLeads(DecodeLen(c, ZERO).2, lzf, DecodeLen(c, ZERO).1);
  }

  lemma RlenOfCut(c: Cursor, lzf: Inflater, t: RdbType, key: Option<Elem>, s: seq<Byte>)
    requires RlenOf(c.Extend(s), lzf, t, key).err == Ok && Spares(RlenOf(c.Extend(s), lzf, t, key).c, |s|)
    ensures var long, short := RlenOf(c.Extend(s), lzf, t, key), RlenOf(c, lzf, t, key);
      short.err == Ok && long == short.(c := short.c.Extend(s))
  {
    hide DecodeLen, Unzip;
    var d := DecodeLen(c.Extend(s), ZERO);
    UnzipLeads(d.2, lzf, d.1);
    DecodeLenCut(c, ZERO, s);
    UnzipCut(DecodeLen(c, ZERO).2, lzf, d.1, s);
  }

  // ----- the whole

  /** The decoder's own state between calls. */
  datatype Version = Version(ver: nat, isFile: bool)

  datatype Hdr = Hdr(v: Version, events: seq<Event>, lead: Lead)

  /** The cursor at the type byte, if decode_hdr gets that far. */
  function TypeCursor(v: Version, c: Cursor, lzf: Inflater): Cursor {
    var o := if v.ver == 0 then Open(c, v.isFile) else Opening(Ok, v.isFile, v.ver, 0, c);
    if o.isFile then MetaLoop(o.c, lzf).2 else o.c
  }

  /** decode_hdr: the events end with the type of the record, if it has one. */
  function HdrOf(v: Version, c: Cursor, lzf: Inflater): Hdr {
    var o := if v.ver == 0 then Open(c, v.isFile) else Opening(Ok, v.isFile, v.ver, 0, c);
    var w := Version(o.ver, o.isFile);
    if o.err != Ok then Hdr(w, [], Lead(o.err, BadType, None, ZERO, o.c))
    else
      var m := if o.isFile then MetaLoop(o.c, lzf) else (Ok, [], o.c);
      if m.0 != Ok then Hdr(w, m.1, Lead(m.0, BadType, None, ZERO, m.2))
      else
        var lead := LeadOf(m.2, lzf, o.isFile);
        Hdr(w, m.1 + (if m.2.Cur() != [] && lead.t != BadType then [StartType(lead.t)] else []), lead)
  }
}
