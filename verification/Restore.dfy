/** RestoreOutput writes a RESTORE command for every key (src/rdb_restore.cpp:24-100), called after each
    record by the loop over the input (src/rdb_main.cpp:267-285). */
module Restore {
  import opened Bytes
  import opened LengthCodec
  import opened Bufptr
  import opened ListValue
  import opened Events
  import opened StreamDecode
  import opened Records
  import opened Header
  import opened RestorePayload
  import opened RdbDecode
  import opened JonesCrc
  import Crc64

  // ----- the command as the server reads it

  const CRLF: seq<Byte> := [0x0d, 0x0a]
  const RESTORE: seq<Byte> := [0x52, 0x45, 0x53, 0x54, 0x4f, 0x52, 0x45]
  const REPLACE: seq<Byte> := [0x52, 0x45, 0x50, 0x4c, 0x41, 0x43, 0x45]

  function Decimal(n: nat): (r: seq<Byte>)
    ensures r != []
  {
    (if n < 10 then [] else Decimal(n / 10)) + [0x30 + n % 10]
  }

  /** A string of the Redis protocol: its size, and its bytes. */
  function Bulk(s: seq<Byte>): seq<Byte> {
    [0x24] + Decimal(|s|) + CRLF + s + CRLF
  }

  function Bulks(args: seq<seq<Byte>>): seq<Byte> {
    if args == [] then [] else Bulk(args[0]) + Bulks(args[1..])
  }

  /** A command of the Redis protocol: the number of its arguments, and each of them. */
  function Command(args: seq<seq<Byte>>): seq<Byte> {
    [0x2a] + Decimal(|args|) + CRLF + Bulks(args)
  }

  /** RESTORE key 0 value, with REPLACE if asked for. */
  function RestoreCommand(key: seq<Byte>, value: seq<Byte>, replace: bool): seq<Byte> {
    Command([RESTORE, key, [0x30], value] + (if replace then [REPLACE] else []))
  }

  /** What is written before the value. */
  function Head(key: seq<Byte>, replace: bool): seq<Byte> {
    [0x2a] + [if replace then 0x35 else 0x34] + CRLF + Bulk(RESTORE) + Bulk(key) + Bulk([0x30])
  }

  lemma BulksCons(a: seq<Byte>, rest: seq<seq<Byte>>)
    ensures Bulks([a] + rest) == Bulk(a) + Bulks(rest)
    ensures Bulks([a]) == Bulk(a)
  {
    hide Bulk;
    assert ([a] + rest)[1..] == rest && [a][1..] == [];
  }

  lemma FourBulks(a: seq<Byte>, b: seq<Byte>, c: seq<Byte>, d: seq<Byte>)
    ensures Bulks([a, b, c, d]) == Bulk(a) + Bulk(b) + Bulk(c) + Bulk(d)
  {
    hide Bulk, Bulks;
    BulksCons(c, [d]);
    BulksCons(d, []);
    BulksCons(b, [c] + [d]);
    BulksCons(a, [b] + ([c] + [d]));
    assert [a, b, c, d] == [a] + ([b] + ([c] + [d]));
  }

  lemma FiveBulks(a: seq<Byte>, b: seq<Byte>, c: seq<Byte>, d: seq<Byte>, e: seq<Byte>)
    ensures Bulks([a, b, c, d, e]) == Bulk(a) + Bulk(b) + Bulk(c) + Bulk(d) + Bulk(e)
  {
    hide Bulk, Bulks;
    FourBulks(b, c, d, e);
    BulksCons(a, [b, c, d, e]);
    assert [a, b, c, d, e] == [a] + [b, c, d, e];
  }

  /** The pieces in which the command is written, behind what was written before. */
  lemma PiecesAre(before: seq<Byte>, key: seq<Byte>, value: seq<Byte>, replace: bool)
    ensures before + Head(key, replace) + Bulk(value) + (if replace then Bulk(REPLACE) else [])
         == before + RestoreCommand(key, value, replace)
  {
    hide Bulk, Bulks, Decimal;
    var head := [0x2a] + [if replace then 0x35 else 0x34] + CRLF;
    var bulks, tail := Bulk(RESTORE) + Bulk(key) + Bulk([0x30]) + Bulk(value), if replace then Bulk(REPLACE) else [];
    Digit(4);
    Digit(5);
    ArgBulks(key, value, replace);
    assert Head(key, replace) + Bulk(value) + tail == head + (bulks + tail);
    Regroup(before, Head(key, replace), Bulk(value));
    Regroup(before, Head(key, replace) + Bulk(value), tail);
  }

  lemma ArgBulks(key: seq<Byte>, value: seq<Byte>, replace: bool)
    ensures Bulks([RESTORE, key, [0x30], value] + (if replace then [REPLACE] else []))
         == Bulk(RESTORE) + Bulk(key) + Bulk([0x30]) + Bulk(value) + (if replace then Bulk(REPLACE) else [])
  {
    hide Bulk, Bulks;
    if replace {
      FiveBulks(RESTORE, key, [0x30], value, REPLACE);
      assert [RESTORE, key, [0x30], value] + [REPLACE] == [RESTORE, key, [0x30], value, REPLACE];
    } else {
      FourBulks(RESTORE, key, [0x30], value);
      assert [RESTORE, key, [0x30], value] + [] == [RESTORE, key, [0x30], value];
    }
  }

  lemma Digit(n: nat)
    requires n < 10
    ensures Decimal(n) == [0x30 + n]
  {}

  /** What snprintf puts into tmp[ 16 ], which has room for twelve digits. */
  const MAX_SIZE := 1_000_000_000_000

  // ----- the writer

  class RestoreOutput {
    const dec: RdbDecode
    const bptr: RdbBufptr
    const useReplace: bool
    var stdout: seq<Byte>

    constructor (d: RdbDecode, b: RdbBufptr, replace: bool)
      ensures dec == d && bptr == b && useReplace == replace && stdout == []
    {
      dec, bptr, useReplace, stdout := d, b, replace, [];
    }

    method Write(s: seq<Byte>)
      modifies this`stdout
      ensures stdout == old(stdout) + s
    {
      stdout := stdout + s;
    }

    /** The command name, the key and the ttl, which is always 0. */
    method WriteHead(key: seq<Byte>)
      requires |key| < MAX_SIZE
      modifies this`stdout
      ensures stdout == old(stdout) + Head(key, useReplace)
    {
      hide Decimal, Bulk;
      ghost var before, sizeLine := stdout, [0x24] + Decimal(|key|) + CRLF;
      FixedBulks();
      KeyBulk(key);
      if useReplace {
        Write([0x2a, 0x35]);
      } else {
        Write([0x2a, 0x34]);
      }
      Write(CRLF + [0x24, 0x37] + CRLF + RESTORE + CRLF);
      Write([0x24] + Decimal(|key|) + CRLF);
      Write(key);
      Write(CRLF + [0x24, 0x31] + CRLF + [0x30] + CRLF);
      HeadParts(before, [0x2a], [if useReplace then 0x35 else 0x34], CRLF, Bulk(RESTORE), sizeLine, key, Bulk([0x30]));
    }

    /** The value: its size, type byte, body, version and checksum, and the line end. */
    method WriteValue(t: Byte, body: seq<Byte>)
      requires dec.tables.Valid() && |body| + 11 < MAX_SIZE
      modifies this`stdout, dec.tables.tab
      ensures dec.tables.Valid()
      ensures stdout == old(stdout) + Bulk(Dump(t, body))
    {
      hide Decimal, Le, Crc64.Crc, Bulk, Checksum;
      ghost var before, sizeLine := stdout, [0x24] + Decimal(|body| + 1 + 10) + CRLF;
      Write([0x24] + Decimal(|body| + 1 + 10) + CRLF);
      Write([t]);
      var crc := dec.tables.JonesCrc64(0, 0, [t]);
      Write(body);
      crc := dec.tables.JonesCrc64(crc, 0, body);
      Write(VERSION9);
      crc := dec.tables.JonesCrc64(crc, 0, VERSION9);
      Write(Le(crc as nat, 8));
      Write(CRLF);
      KeyBulk(Dump(t, body));
      ValueParts(before, sizeLine, [t], body, VERSION9, Le(crc as nat, 8), CRLF);
    }

    /** The command, piece by piece. */
    method WriteCommand(key: seq<Byte>, t: Byte, body: seq<Byte>)
      requires dec.tables.Valid() && |key| < MAX_SIZE && |body| + 11 < MAX_SIZE
      modifies this`stdout, dec.tables.tab
      ensures dec.tables.Valid()
      ensures stdout == old(stdout) + RestoreCommand(key, Dump(t, body), useReplace)
    {
      hide Decimal, Bulk, Dump, RestoreCommand, Head, Tables.Valid;
      PiecesAre(stdout, key, Dump(t, body), useReplace);
      WriteHead(key);
      WriteValue(t, body);
      if useReplace {
        ReplaceBulk();
        Write([0x24, 0x37] + CRLF + REPLACE + CRLF);
      } else {
        Regroup(stdout, [], []);
      }
    }

    /** write_restore_cmd, for a key of a file that is buffered whole: the offset of the cursor is where it
        points to in the buffer. */
    method WriteRestoreCmd()
      requires bptr.Valid() && dec.tables.Valid() && bptr.pos == bptr.offset
      requires dec.out.isMatched && dec.out.typeOffset < bptr.offset ==>
        (dec.isRdbFile && dec.key.Some? && dec.key.value.Str? && |bptr.mem| < MAX_SIZE - 11
         && BodyStart() <= bptr.offset && |dec.key.value.s| < MAX_SIZE)
      modifies this`stdout, dec.out, dec.tables.tab
      ensures dec.tables.Valid() && !dec.out.isMatched
      ensures stdout == old(stdout) +
        (if old(dec.out.isMatched) && old(dec.out.typeOffset) < bptr.offset then
           RestoreCommand(dec.key.value.s,
             Dump(bptr.mem[old(dec.out.typeOffset)], bptr.mem[old(BodyStart())..bptr.offset]), useReplace)
         else [])
    {
      hide Dump, HeadSize, RestoreCommand;
      if !dec.out.isMatched {
        dec.out.ResetState();
        return;
      }
      var end, at := bptr.offset, dec.out.typeOffset;
      if at >= end {
        dec.out.ResetState();
        return;
      }
      var start, key := BodyStart(), dec.key.value.s;
      WriteCommand(key, bptr.mem[at], bptr.mem[start..end]);
      dec.out.ResetState();
    }

    /** The state in front of the records at the offsets ps of the file, the first one included. */
    ghost predicate Before(ps: seq<nat>)
      reads this, bptr, dec
    {
      bptr.Valid() && bptr.Located() && Chain(bptr.file, Version(dec.ver, dec.isRdbFile), bptr.View(), ps, bptr.lzf)
    }

    /** One turn of the loop over the records of a file: the value is sent as it was cut out, and the
        cursor is left where the next record is looked for; or the end of the file is found. */
    method RestoreKey(address: nat, ghost ps: seq<nat>) returns (err: Status)
      requires Before(ps) && |bptr.file| < MAX_SIZE - 11 && dec.tables.Valid()
      modifies this`stdout, bptr, dec, dec.rlen, dec.out, dec.tables.tab
      ensures dec.tables.Valid()
      ensures ps == [] ==> err == EofMark && stdout == old(stdout)
      ensures ps != [] ==>
        (err == Ok && Before(ps[1..]) && bptr.avail > 0
         && stdout == old(stdout) + CommandAt(bptr.file, ps[0], bptr.lzf, useReplace))
    {
      hide HdrOf, LeadOf, BodyOf, HeadSize, RestoreCommand, Dump, DecodeLen, TypeCursor, Tables.Valid, Restorable, Chain;
      ghost var file, lzf, v, c := bptr.file, bptr.lzf, Version(dec.ver, dec.isRdbFile), bptr.View();
      ChainStep(file, v, c, ps, lzf);
      err := dec.DecodeHdr(bptr, address);
      if err != Ok {
        return;
      }
      Domain(file, ps[0], lzf);
      HdrLead(v, c, lzf);
      SameSuffix(file, ps[0], dec.out.typeOffset);
      err := RestoreValue(ps[0]);
    }

    /** The value of a record whose header has been read, and the command for it. */
    method RestoreValue(ghost p: nat) returns (err: Status)
      requires bptr.Valid() && bptr.Located() && |bptr.file| < MAX_SIZE - 11 && dec.tables.Valid()
      requires p < |bptr.file| && Restorable(bptr.file, p, bptr.lzf) && dec.isRdbFile && dec.out.typeOffset == p
      requires var lead := RecordAt(bptr.file, p, bptr.lzf).lead;
        dec.t == lead.t != BadType && dec.rlen.View() == lead.rlen && bptr.View() == lead.c && dec.key == lead.key
      modifies this`stdout, bptr, dec.out, dec.tables.tab
      ensures dec.tables.Valid() && err == Ok && bptr.Valid() && bptr.Located() && bptr.avail > 0
      ensures RecordAt(bptr.file, p, bptr.lzf).end <= |bptr.file|
      ensures bptr.View() == Start(bptr.file[RecordAt(bptr.file, p, bptr.lzf).end..])
      ensures stdout == old(stdout) + CommandAt(bptr.file, p, bptr.lzf, useReplace)
    {
      hide LeadOf, BodyOf, HeadSize, RestoreCommand, Dump, DecodeLen, Tables.Valid, Restorable;
      ghost var r := RecordAt(bptr.file, p, bptr.lzf);
      Domain(bptr.file, p, bptr.lzf);
      BodyFits(bptr.file, p, bptr.lzf);
      ghost var e;
      err, e := dec.DecodeBody(bptr);
      if bptr.alloced {
        bptr.FreeAlloced();
      }
      AtEnd(bptr, r.end);
      WriteRestoreCmd();
    }

    /** The loop over the records of a file: every command is sent, in order. */
    method RestoreAll(address: nat, ghost ps: seq<nat>) returns (err: Status)
      requires Before(ps) && |bptr.file| < MAX_SIZE - 11 && dec.tables.Valid()
      modifies this`stdout, bptr, dec, dec.rlen, dec.out, dec.tables.tab
      ensures err == EofMark && stdout == old(stdout) + Commands(bptr.file, ps, bptr.lzf, useReplace)
    {
      hide Chain, CommandAt, Restorable, RestoreOutput.Before, Tables.Valid;
      ghost var rest, file, lzf := ps, bptr.file, bptr.lzf;
      assert old(stdout) + Commands(file, ps, lzf, useReplace) == stdout + Commands(file, rest, lzf, useReplace);
      while true
        invariant Before(rest) && dec.tables.Valid()
        invariant old(stdout) + Commands(file, ps, lzf, useReplace) == stdout + Commands(file, rest, lzf, useReplace)
        decreases |rest|
      {
        ghost var sent := stdout;
        err := RestoreKey(address, rest);
        if err != Ok {
          break;
        }
        if bptr.avail == 0 {
          break;
        }
        CommandsStep(file, rest, lzf, useReplace, sent);
        rest := rest[1..];
      }
    }

    /** Where the body starts: behind the type byte and the key. */
    function BodyStart(): nat
      reads this, bptr, dec, dec.out
      requires bptr.Valid() && dec.out.typeOffset < bptr.offset == bptr.pos && dec.key.Some? && dec.key.value.Str?
    {
      dec.out.typeOffset + 1 + HeadSize(bptr.mem[dec.out.typeOffset + 1..]) + |dec.key.value.s|
    }
  }

  /** From a state of the decoder on, records of the domain at the offsets ps of a file follow one another up
      to the end mark. Between calls the decoder keeps its version. */
  predicate Chain(file: seq<Byte>, v: Version, c: Cursor, ps: seq<nat>, lzf: Inflater)
    decreases ps
  {
    var h := HdrOf(v, c, lzf);
    if ps == [] then h.lead.err == EofMark
    else
      h.lead.err == Ok && h.v.isFile && ps[0] < |file| && TypeCursor(v, c, lzf) == Start(file[ps[0]..])
      && Restorable(file, ps[0], lzf) && RecordAt(file, ps[0], lzf).end <= |file|
      && Chain(file, h.v, Start(file[RecordAt(file, ps[0], lzf).end..]), ps[1..], lzf)
  }

  lemma ChainStep(file: seq<Byte>, v: Version, c: Cursor, ps: seq<nat>, lzf: Inflater)
    requires Chain(file, v, c, ps, lzf)
    ensures var h := HdrOf(v, c, lzf);
      if ps == [] then h.lead.err == EofMark
      else
        h.lead.err == Ok && h.v.isFile && ps[0] < |file| && TypeCursor(v, c, lzf) == Start(file[ps[0]..])
        && Restorable(file, ps[0], lzf) && RecordAt(file, ps[0], lzf).end <= |file|
        && Chain(file, h.v, Start(file[RecordAt(file, ps[0], lzf).end..]), ps[1..], lzf)
  {
    hide HdrOf, TypeCursor, Restorable, RecordAt;
  }

  /** The command for the record at offset p. */
  function CommandAt(file: seq<Byte>, p: nat, lzf: Inflater, replace: bool): seq<Byte> {
    if p < |file| && Restorable(file, p, lzf) then
      RestoreCommand(RecordAt(file, p, lzf).lead.key.value.s, Payload(file, p, lzf), replace)
    else []
  }

  function Commands(file: seq<Byte>, ps: seq<nat>, lzf: Inflater, replace: bool): seq<Byte> {
    if ps == [] then [] else CommandAt(file, ps[0], lzf, replace) + Commands(file, ps[1..], lzf, replace)
  }

  lemma CommandsStep(file: seq<Byte>, ps: seq<nat>, lzf: Inflater, replace: bool, sent: seq<Byte>)
    requires ps != []
    ensures sent + Commands(file, ps, lzf, replace)
         == sent + CommandAt(file, ps[0], lzf, replace) + Commands(file, ps[1..], lzf, replace)
  {
    hide CommandAt;
    Regroup(sent, CommandAt(file, ps[0], lzf, replace), Commands(file, ps[1..], lzf, replace));
  }

  lemma HdrLead(v: Version, c: Cursor, lzf: Inflater)
    requires HdrOf(v, c, lzf).v.isFile && HdrOf(v, c, lzf).lead.err == Ok
    ensures HdrOf(v, c, lzf).lead == LeadOf(TypeCursor(v, c, lzf), lzf, true)
    ensures HdrOf(v, c, lzf).lead.t != BadType
  {
    hide MetaLoop, KeyOf, RlenOf, Open;
    var at := TypeCursor(v, c, lzf);
    if at.Cur() != [] {
      RlenType(KeyOf(at.WithCur(at.Cur()[1..]), lzf).2, lzf, GetRdbType(at.Cur()[0]),
        KeyOf(at.WithCur(at.Cur()[1..]), lzf).1);
    }
  }

  lemma Domain(file: seq<Byte>, p: nat, lzf: Inflater)
    requires p < |file| && Restorable(file, p, lzf)
    ensures var r := RecordAt(file, p, lzf);
      r.lead.err == Ok && r.lead.key.Some? && r.lead.key.value.Str? && r.body.0 == Done
      && r.body.2.clean && r.body.2.main != [] && Free(r.body.2) == Start(r.body.2.main)
      && (r.body.2.block == None || r.body.2.block == Some([]))
  {
    hide RecordAt;
  }

  lemma SameSuffix(file: seq<Byte>, p: nat, q: nat)
    requires p <= |file| && q <= |file| && file[p..] == file[q..]
    ensures p == q
  {
    assert |file[p..]| == |file[q..]|;
  }

  /** A clean cursor in the main buffer is at the offset that it has counted. */
  lemma AtEnd(bptr: RdbBufptr, end: nat)
    requires bptr.Valid() && bptr.Located() && bptr.View().clean && bptr.View().block.None? && bptr.View().main != []
    requires end == |bptr.file| - |bptr.View().main|
    ensures bptr.mem == bptr.file && bptr.pos == bptr.offset == end && bptr.View() == Start(bptr.file[end..])
  {}

  lemma FixedBulks()
    ensures CRLF + [0x24, 0x37] + CRLF + RESTORE + CRLF == CRLF + Bulk(RESTORE)
    ensures CRLF + [0x24, 0x31] + CRLF + [0x30] + CRLF == CRLF + Bulk([0x30])
    ensures [0x2a, 0x35] == [0x2a] + [0x35] && [0x2a, 0x34] == [0x2a] + [0x34]
  {
    hide Decimal;
    Digit(7);
    Digit(1);
  }

  lemma KeyBulk(s: seq<Byte>)
    ensures Bulk(s) == ([0x24] + Decimal(|s|) + CRLF) + s + CRLF
  {}

  lemma HeadParts<T>(b: seq<T>, a1: seq<T>, a2: seq<T>, c: seq<T>, r: seq<T>, k: seq<T>, key: seq<T>, z: seq<T>)
    ensures b + (a1 + a2) + (c + r) + k + key + (c + z) == b + (a1 + a2 + c + r + (k + key + c) + z)
  {
    var x := b + (a1 + a2) + (c + r);
    assert x == b + (a1 + a2 + c + r);
    assert x + k + key + (c + z) == x + (k + key + c) + z;
    Regroup(b, a1 + a2 + c + r, k + key + c);
    Regroup(b, a1 + a2 + c + r + (k + key + c), z);
  }

  lemma ValueParts<T>(b: seq<T>, size: seq<T>, t: seq<T>, body: seq<T>, v: seq<T>, crc: seq<T>, e: seq<T>)
    ensures b + size + t + body + v + crc + e == b + (size + (t + body + v + crc) + e)
  {
    assert size + (t + body + v + crc) == size + t + body + v + crc;
    assert b + size + t + body + v + crc == b + (size + t + body + v + crc);
    Regroup(b, size + t + body + v + crc, e);
  }

  lemma ReplaceBulk()
    ensures Bulk(REPLACE) == [0x24, 0x37] + CRLF + REPLACE + CRLF
  {
    Digit(7);
  }
}
