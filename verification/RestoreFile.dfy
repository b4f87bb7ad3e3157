/** A whole file through the loop that writes RESTORE commands (src/rdb_main.cpp:267-301): for a file that is
    laid out as documented (rdb.adoc:18-300), every record is found and sent. */
module RestoreFile {
  import opened Bytes
  import opened LengthCodec
  import opened Bufptr
  import opened ListValue
  import opened Events
  import opened Records
  import opened Encoded
  import opened Header
  import opened FileFormat
  import opened RestorePayload
  import opened RestoreEncoded
  import opened Restore
  import RdbDecode

  /** A record with the meta codes in front of it, and the callbacks that its value stands for. */
  datatype Rec = Rec(metas: seq<MetaDoc>, t: Byte, key: seq<Byte>, n: nat, value: seq<Byte>, events: seq<Event>)

  ghost predicate RecFits(r: Rec, lzf: Inflater) {
    AllMetaFit(r.metas, lzf) && (forall m | m in r.metas :: !Stops(m)) && |r.key| < TWO64 && r.n < TWO64
    && forall after: seq<Byte> | after != [] :: Complete(r.t, r.n, r.value, after, r.events, lzf)
  }

  function RecBytes(r: Rec, lzf: Inflater): seq<Byte>
    requires RecFits(r, lzf)
  {
    MetasBytes(r.metas, lzf) + Record(r.t, r.key, r.n, r.value)
  }

  ghost predicate AllRecFit(rs: seq<Rec>, lzf: Inflater) {
    forall r | r in rs :: RecFits(r, lzf)
  }

  function RecsBytes(rs: seq<Rec>, lzf: Inflater): seq<Byte>
    requires AllRecFit(rs, lzf)
  {
    if rs == [] then []
    else
      assert RecFits(rs[0], lzf);
      RecBytes(rs[0], lzf) + RecsBytes(rs[1..], lzf)
  }

  /** Where the records start, behind their meta codes. */
  function Offsets(at: nat, rs: seq<Rec>, lzf: Inflater): seq<nat>
    requires AllRecFit(rs, lzf)
    decreases rs
  {
    if rs == [] then []
    else
      assert RecFits(rs[0], lzf);
      [at + |MetasBytes(rs[0].metas, lzf)|] + Offsets(at + |RecBytes(rs[0], lzf)|, rs[1..], lzf)
  }

  /** RESTORE of every key, with the dump of its length and value. */
  function AllCommands(rs: seq<Rec>, lzf: Inflater, replace: bool): seq<Byte>
    requires AllRecFit(rs, lzf)
  {
    if rs == [] then []
    else
      assert RecFits(rs[0], lzf);
      RestoreCommand(rs[0].key, Dump(rs[0].t, EncodeLen(rs[0].n) + rs[0].value), replace) + AllCommands(rs[1..], lzf, replace)
  }

  /** decode_hdr on a record. */
  lemma RecHdr(r: Rec, after: seq<Byte>, v: Version, lzf: Inflater)
    requires RecFits(r, lzf) && after != [] && v.ver != 0 && v.isFile
    ensures var c := Start(RecBytes(r, lzf) + after);
      HdrOf(v, c, lzf).lead.err == Ok && HdrOf(v, c, lzf).v == v
      && TypeCursor(v, c, lzf) == Start(Record(r.t, r.key, r.n, r.value) + after)
  {
    hide MetasBytes, Record, Complete, MetaLoop, LeadOf, GetRdbType, MetaFits;
    assert Complete(r.t, r.n, r.value, after, r.events, lzf);
    var rec := Record(r.t, r.key, r.n, r.value);
    Regroup(MetasBytes(r.metas, lzf), rec, after);
    RecordFront(r, after, lzf);
    MetasRead(r.metas, rec + after, lzf);
  }


  /** A record in a file, behind its meta codes. */
  lemma RecPlaced(file: seq<Byte>, at: seq<Byte>, r: Rec, after: seq<Byte>, lzf: Inflater)
    requires RecFits(r, lzf) && after != []
    requires |r.key| < TWO64 && r.n < TWO64 && file == at + (Record(r.t, r.key, r.n, r.value) + after)
    ensures |at| < |file| && file[|at|..] == Record(r.t, r.key, r.n, r.value) + after
    ensures Restorable(file, |at|, lzf) && RecordAt(file, |at|, lzf).end == |file| - |after|
    ensures RecordAt(file, |at|, lzf).lead.key == Some(Str(r.key))
    ensures Payload(file, |at|, lzf) == Dump(r.t, EncodeLen(r.n) + r.value)
  {
    hide Record, Restorable, Payload, RecordAt, Complete, EncodeLen, Dump, MetaFits;
    assert Complete(r.t, r.n, r.value, after, r.events, lzf);
    RecordRestorable(at, r.t, r.key, r.n, r.value, after, r.events, lzf);
    RecordEnd(at, r.t, r.key, r.n, r.value, after, r.events, lzf);
    Suffix(at, Record(r.t, r.key, r.n, r.value) + after);
  }

  lemma SameFile<T>(before: seq<T>, metas: seq<T>, rec: seq<T>, after: seq<T>)
    ensures before + (metas + rec + after) == before + metas + (rec + after)
  {}

  /** One record of a file. */
  lemma RecFound(file: seq<Byte>, p: nat, before: seq<Byte>, r: Rec, after: seq<Byte>, v: Version, lzf: Inflater)
    requires RecFits(r, lzf) && after != [] && v.ver != 0 && v.isFile
    requires AllMetaFit(r.metas, lzf) && |r.key| < TWO64 && r.n < TWO64
    requires file == before + (RecBytes(r, lzf) + after) && p == |before| + |MetasBytes(r.metas, lzf)|
    ensures var c := Start(RecBytes(r, lzf) + after);
      HdrOf(v, c, lzf).lead.err == Ok && HdrOf(v, c, lzf).v == v
      && p < |file| && TypeCursor(v, c, lzf) == Start(file[p..])
    ensures Restorable(file, p, lzf) && RecordAt(file, p, lzf).end == |file| - |after|
    ensures RecordAt(file, p, lzf).lead.key == Some(Str(r.key))
    ensures Payload(file, p, lzf) == Dump(r.t, EncodeLen(r.n) + r.value)
  {
    hide *;
    RecHdr(r, after, v, lzf);
    RecIs(r, lzf);
    SameFile(before, MetasBytes(r.metas, lzf), Record(r.t, r.key, r.n, r.value), after);
    RecPlaced(file, before + MetasBytes(r.metas, lzf), r, after, lzf);
  }

  lemma RecIs(r: Rec, lzf: Inflater)
    requires RecFits(r, lzf)
    ensures AllMetaFit(r.metas, lzf) && |r.key| < TWO64 && r.n < TWO64
    ensures RecBytes(r, lzf) == MetasBytes(r.metas, lzf) + Record(r.t, r.key, r.n, r.value)
  {
    hide MetasBytes, Record, MetaFits, Complete;
  }

  lemma RecordFront(r: Rec, after: seq<Byte>, lzf: Inflater)
    requires |r.key| < TWO64 && r.n < TWO64 && Complete(r.t, r.n, r.value, after, r.events, lzf)
    ensures var b := Record(r.t, r.key, r.n, r.value) + after;
      b != [] && b[0] == r.t < 0xf7 && LeadOf(Start(b), lzf, true).err == Ok && LeadOf(Start(b), lzf, true).t != BadType
  {
    hide LeadBytes, LeadOf, BodyOf, GetRdbType;
    Regroup(LeadBytes(r.t, Str(r.key), r.n), r.value, after);
    LeadFront(r.t, Str(r.key), r.n, r.value + after);
    LeadRead(r.t, Str(r.key), r.n, r.value + after, lzf);
    FileFormat.KnownType(r.t);
  }

  lemma RecordEnd(before: seq<Byte>, t: Byte, key: seq<Byte>, n: nat, value: seq<Byte>, after: seq<Byte>,
                  events: seq<Event>, lzf: Inflater)
    requires |key| < TWO64 && n < TWO64 && Complete(t, n, value, after, events, lzf)
    ensures var file := before + (Record(t, key, n, value) + after);
      |before| < |file|
      && RecordAt(file, |before|, lzf).end == |file| - |after|
      && RecordAt(file, |before|, lzf).lead.key == Some(Str(key))
  {
    hide LeadBytes, LeadOf, BodyOf, GetRdbType, HeadSize;
    var rec := Record(t, key, n, value);
    var file := before + (rec + after);
    Regroup(LeadBytes(t, Str(key), n), value, after);
    LeadFront(t, Str(key), n, value + after);
    LeadRead(t, Str(key), n, value + after, lzf);
    Suffix(before, rec + after);
  }

  /** One record, and the others. */
  lemma RecsCons(at: nat, rs: seq<Rec>, lzf: Inflater, replace: bool)
    requires AllRecFit(rs, lzf) && rs != []
    ensures var r := rs[0];
      RecFits(r, lzf) && AllMetaFit(r.metas, lzf) && |r.key| < TWO64 && r.n < TWO64
      && AllRecFit(rs[1..], lzf)
      && RecsBytes(rs, lzf) == RecBytes(r, lzf) + RecsBytes(rs[1..], lzf)
      && Offsets(at, rs, lzf)
         == [at + |MetasBytes(r.metas, lzf)|] + Offsets(at + |RecBytes(r, lzf)|, rs[1..], lzf)
      && AllCommands(rs, lzf, replace)
         == RestoreCommand(r.key, Dump(r.t, EncodeLen(r.n) + r.value), replace) + AllCommands(rs[1..], lzf, replace)
  {
    hide MetasBytes, RecBytes, RestoreCommand, Dump, EncodeLen, MetaFits, Complete;
    assert RecFits(rs[0], lzf);
  }

  lemma ChainCons(file: seq<Byte>, v: Version, c: Cursor, p: nat, ps: seq<nat>, lzf: Inflater, replace: bool)
    requires HdrOf(v, c, lzf).lead.err == Ok && HdrOf(v, c, lzf).v == v && v.isFile
    requires p < |file| && TypeCursor(v, c, lzf) == Start(file[p..]) && Restorable(file, p, lzf)
    requires RecordAt(file, p, lzf).end <= |file|
    requires Chain(file, v, Start(file[RecordAt(file, p, lzf).end..]), ps, lzf)
    ensures Chain(file, v, c, [p] + ps, lzf)
    ensures Commands(file, [p] + ps, lzf, replace) == CommandAt(file, p, lzf, replace) + Commands(file, ps, lzf, replace)
  {
    hide HdrOf, TypeCursor, Restorable, RecordAt, CommandAt;
    assert ([p] + ps)[1..] == ps;
  }

  /** The command for a record. */
  lemma CommandIs(file: seq<Byte>, p: nat, r: Rec, lzf: Inflater, replace: bool)
    requires p < |file| && Restorable(file, p, lzf) && r.n < TWO64
    requires RecordAt(file, p, lzf).lead.key == Some(Str(r.key))
    requires Payload(file, p, lzf) == Dump(r.t, EncodeLen(r.n) + r.value)
    ensures CommandAt(file, p, lzf, replace) == RestoreCommand(r.key, Dump(r.t, EncodeLen(r.n) + r.value), replace)
  {
    hide Restorable, RecordAt, Payload, Dump, EncodeLen, RestoreCommand;
  }

  lemma {:induction false} NoRecs(before: seq<Byte>, tail: seq<Byte>, v: Version, lzf: Inflater, replace: bool)
    requires tail != [] && tail[0] == 0xff && v.ver != 0 && v.isFile
    ensures AllRecFit([], lzf) && RecsBytes([], lzf) + tail == tail && Offsets(|before|, [], lzf) == []
    ensures Chain(before + tail, v, Start(tail), [], lzf) && AllCommands([], lzf, replace) == []
    ensures Commands(before + tail, [], lzf, replace) == []
  {
    hide HdrOf;
    EndFound(tail, v, lzf);
    assert [] + tail == tail;
  }

  /** The records of a file, up to an end mark. */
  lemma {:induction false} RecsFound(before: seq<Byte>, rs: seq<Rec>, tail: seq<Byte>, v: Version, lzf: Inflater, replace: bool)
    requires AllRecFit(rs, lzf) && tail != [] && tail[0] == 0xff && v.ver != 0 && v.isFile
    ensures var file, ps := before + (RecsBytes(rs, lzf) + tail), Offsets(|before|, rs, lzf);
      Chain(file, v, Start(RecsBytes(rs, lzf) + tail), ps, lzf)
      && Commands(file, ps, lzf, replace) == AllCommands(rs, lzf, replace)
    decreases rs
  {
    hide *;
    if rs == [] {
      NoRecs(before, tail, v, lzf, replace);
    } else {
      RecsCons(|before|, rs, lzf, replace);
      var r, first, more := rs[0], RecBytes(rs[0], lzf), RecsBytes(rs[1..], lzf);
      Regroup(first, more, tail);
      Regroup(before, first, more + tail);
      var file, p := before + (first + (more + tail)), |before| + |MetasBytes(r.metas, lzf)|;
      Suffix(before + first, more + tail);
      RecFound(file, p, before, r, more + tail, v, lzf);
      RecsFound(before + first, rs[1..], tail, v, lzf, replace);
      CommandIs(file, p, r, lzf, replace);
      assert |file| - |more + tail| == |before + first|;
      ChainCons(file, v, Start(first + (more + tail)), p, Offsets(|before + first|, rs[1..], lzf), lzf, replace);
    }
  }

  lemma EndFound(tail: seq<Byte>, v: Version, lzf: Inflater)
    requires tail != [] && tail[0] == 0xff && v.ver != 0 && v.isFile
    ensures HdrOf(v, Start(tail), lzf).lead.err == EofMark
  {
    hide PlainLen, AuxOf, LeadOf;
    assert Meta(Start(tail), lzf).0 == EofMark;
  }

  /** A file: its version, its records, and an end mark with whatever follows it. */
  function FileBytes(ver: nat, rs: seq<Rec>, tail: seq<Byte>, lzf: Inflater): seq<Byte>
    requires 0 < ver < 100 && AllRecFit(rs, lzf)
  {
    FileHead(ver) + (RecsBytes(rs, lzf) + tail)
  }

  /** From the first call on, a decoder finds the records of a file one after the other, and the commands that
      RestoreOutput.RestoreAll sends for them are RESTORE of every key with the dump of its value. */
  lemma FileRestored(ver: nat, rs: seq<Rec>, tail: seq<Byte>, lzf: Inflater, replace: bool)
    requires 0 < ver < 100 && AllRecFit(rs, lzf) && tail != [] && tail[0] == 0xff
    ensures var file, ps := FileBytes(ver, rs, tail, lzf), Offsets(9, rs, lzf);
      Chain(file, Version(0, false), Start(file), ps, lzf)
      && Commands(file, ps, lzf, replace) == AllCommands(rs, lzf, replace)
  {
    hide HdrOf, TypeCursor, FileHead, RecsBytes, Offsets, Commands, AllCommands, Restorable, RecordAt, AllRecFit;
    RecsFound(FileHead(ver), rs, tail, Version(ver, true), lzf, replace);
    Reopened(ver, RecsBytes(rs, lzf) + tail, lzf);
  }

  /** The first call reads the version and goes on as the later ones do. */
  lemma Reopened(ver: nat, rest: seq<Byte>, lzf: Inflater)
    requires 0 < ver < 100 && rest != []
    ensures var c := Start(FileHead(ver) + rest);
      HdrOf(Version(0, false), c, lzf) == HdrOf(Version(ver, true), Start(rest), lzf)
      && TypeCursor(Version(0, false), c, lzf) == TypeCursor(Version(ver, true), Start(rest), lzf)
  {
    hide Open, MetaLoop, LeadOf, FileHead;
    FileOpens(ver, rest);
  }

  /** The whole program on such a file. */
  method RestoreAllOf(ver: nat, rs: seq<Rec>, tail: seq<Byte>, lzf: Inflater, dec: RdbDecode.RdbDecode, address: nat,
                      replace: bool)
    returns (err: Status, out: RestoreOutput)
    requires 0 < ver < 100 && AllRecFit(rs, lzf) && tail != [] && tail[0] == 0xff
    requires |FileBytes(ver, rs, tail, lzf)| < MAX_SIZE - 11
    requires dec.ver == 0 && !dec.isRdbFile && dec.tables.Valid()
    modifies dec, dec.rlen, dec.out, dec.tables.tab
    ensures err == EofMark && out.stdout == AllCommands(rs, lzf, replace)
  {
    hide FileBytes, AllRecFit, Chain, Commands, AllCommands, Offsets;
    FileRestored(ver, rs, tail, lzf, replace);
    var bptr := new RdbBufptr(FileBytes(ver, rs, tail, lzf), lzf);
    out := new RestoreOutput(dec, bptr, replace);
    err := out.RestoreAll(address, Offsets(9, rs, lzf));
    assert [] + AllCommands(rs, lzf, replace) == AllCommands(rs, lzf, replace);
  }
}
