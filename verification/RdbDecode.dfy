/** RdbDecode, the decoder of records (include/rdbparser/rdb_decode.h:742-795, src/rdb_decode.cpp:237-1144). */
module RdbDecode {
  import opened Bytes
  import opened LengthCodec
  import opened Bufptr
  import opened ListValue
  import opened Events
  import opened Values
  import opened StreamDecode
  import opened Records
  import opened Outputs
  import ZipRead
  import ListPackRead
  import ListPack
  import opened Header
  import opened JonesCrc
  import Crc64
  import StreamRead

  /** Elements that were taken so far, as callbacks. */
  lemma ShapedOne(t: RdbType, xs: seq<Elem>, x: Elem)
    requires t in {RString, RSet, RList, RListZiplist, RListQuicklist, RListQuicklist2}
    ensures Shaped(t, xs + [x]) == Shaped(t, xs) + [One(t, x)]
  {}

  lemma ShapedTwo(t: RdbType, xs: seq<Elem>, x: Elem, y: Elem)
    requires InPairs(t) && |xs| % 2 == 0
    ensures Shaped(t, xs + [x]) == Shaped(t, xs)
    ensures Shaped(t, xs + [x] + [y]) == Shaped(t, xs) + [Two(t, x, y)]
  {
    hide HashEvents, ZsetEvents;
    if t == RZsetZiplist || t == RZsetListpack {
      ZsetTwo(xs, x, y);
    } else {
      HashTwo(xs, x, y);
    }
  }

  lemma HashTwo(xs: seq<Elem>, x: Elem, y: Elem)
    requires |xs| % 2 == 0
    ensures HashEvents(xs + [x]) == HashEvents(xs) && HashEvents(xs + [x] + [y]) == HashEvents(xs) + [DHash(x, y)]
  {}

  lemma ZsetTwo(xs: seq<Elem>, x: Elem, y: Elem)
    requires |xs| % 2 == 0
    ensures ZsetEvents(xs + [x]) == ZsetEvents(xs) && ZsetEvents(xs + [x] + [y]) == ZsetEvents(xs) + [DZset(x, y)]
  {}

  predicate InPairs(t: RdbType) {
    t in {RHash, RHashZiplist, RHashListpack, RZsetZiplist, RZsetListpack}
  }

  function One(t: RdbType, x: Elem): Event {
    match t
    case RString => DString(x)
    case RSet => DSet(x)
    case _ => DList(x)
  }

  function Two(t: RdbType, x: Elem, y: Elem): Event {
    if t == RZsetZiplist || t == RZsetListpack then DZset(x, y) else DHash(x, y)
  }

  class RdbDecode {
    const out: Output
    const rlen: RdbLength
    const tables: Tables
    var t: RdbType
    var crc: nat
    var key: Option<Elem>
    var ver: nat
    var isRdbFile: bool

    constructor (output: Output)
      ensures out == output && fresh(rlen) && fresh(tables) && fresh(tables.tab) && tables.Valid()
      ensures ver == 0 && !isRdbFile
    {
      out, t, crc, key, ver, isRdbFile := output, BadType, 0, None, 0, false;
      rlen := new RdbLength();
      tables := new Tables();
    }

    // ----- strings

    method DecodeStr(bptr: RdbBufptr, l: RdbLength) returns (err: Status, str: Elem)
      requires bptr.Valid()
      modifies bptr
      ensures bptr.Valid() && (old(bptr.Located()) ==> bptr.Located())
      ensures (err, if err == Ok then [str] else [], bptr.View()) == StrOf(old(bptr.View()), l.View())
    {
      hide Incr;
      if l.isEnc != 0 {
        return Ok, Int(l.ival);
      }
      var b := bptr.IncrBy(l.len);
      if b.None? {
        return ErrTrunc, Int(0);
      }
      return Ok, Str(b.value);
    }

    method DecodeRlen(bptr: RdbBufptr) returns (err: Status, str: Elem)
      requires bptr.Valid()
      modifies bptr
      ensures bptr.Valid() && (old(bptr.Located()) ==> bptr.Located())
      ensures (err, if err == Ok then [str] else [], bptr.View()) == Rlen(old(bptr.View()), bptr.lzf)
    {
      hide StrOf, DecodeLen, Decompress;
      str := Int(0);
      var len := new RdbLength();
      err := bptr.Decode(len);
      if err != Ok {
        return;
      }
      if len.isLzf {
        var ok := bptr.DecompressBlock(len.zlen, len.len);
        if !ok {
          return ErrLzf, Int(0);
        }
      }
      err, str := DecodeStr(bptr, len);
    }

    /** The loops of decode_body for sets, lists and hashes. */
    method DecodeMembers(bptr: RdbBufptr) returns (err: Status)
      requires bptr.Valid() && t in {RSet, RList, RHash}
      modifies bptr, out`events
      ensures bptr.Valid() && (old(bptr.Located()) ==> bptr.Located())
      ensures var r := Rlens(old(bptr.View()), bptr.lzf, if t == RHash then 2 * rlen.len else rlen.len);
        err == r.0 && bptr.View() == r.2 && out.events == old(out.events) + Shaped(t, r.1)
    {
      hide Rlen, Shaped, Rlens;
      var num := 0;
      ghost var xs, c, k := [], bptr.View(), if t == RHash then 2 else 1;
      ghost var before := out.events;
      ShapedNone(t);
      RlensNone(c, bptr.lzf);
      while num < rlen.len
        invariant 0 <= num <= rlen.len && bptr.Valid() && (old(bptr.Located()) ==> bptr.Located())
        invariant Rlens(c, bptr.lzf, k * num) == (Ok, xs, bptr.View()) && |xs| == k * num
        invariant out.events == before + Shaped(t, xs)
      {
        var x;
        RlensSnoc(c, bptr.lzf, k * num, k * rlen.len);
        err, x := DecodeRlen(bptr);
        if err != Ok {
          return;
        }
        if t == RHash {
          err, xs := FinishPair(bptr, x, c, xs, k * rlen.len, before);
          if err != Ok {
            return;
          }
        } else {
          out.Value(One(t, x));
          ShapedOne(t, xs, x);
          xs := xs + [x];
        }
        num := num + 1;
      }
      return Ok;
    }

    /** The value of a hash field, and the callback for both. */
    method FinishPair(bptr: RdbBufptr, x: Elem, ghost c: Cursor, ghost xs: seq<Elem>, ghost more: nat,
                      ghost before: seq<Event>)
      returns (err: Status, ghost ys: seq<Elem>)
      requires bptr.Valid() && t == RHash && |xs| % 2 == 0 && |xs| + 1 < more
      requires Rlens(c, bptr.lzf, |xs| + 1) == (Ok, xs + [x], bptr.View()) && out.events == before + Shaped(t, xs)
      modifies bptr, out`events
      ensures bptr.Valid() && (old(bptr.Located()) ==> bptr.Located())
      ensures err == Ok ==>
        (|ys| == |xs| + 2 && Rlens(c, bptr.lzf, |xs| + 2) == (Ok, ys, bptr.View())
         && out.events == before + Shaped(t, ys))
      ensures err != Ok ==>
        (var r := Rlens(c, bptr.lzf, more);
         r.0 == err && r.2 == bptr.View() && out.events == before + Shaped(t, r.1))
    {
      hide Rlen, Shaped, Rlens;
      RlensSnoc(c, bptr.lzf, |xs| + 1, more);
      ShapedTwo(t, xs, x, x);
      var y;
      err, y := DecodeRlen(bptr);
      if err != Ok {
        return err, [];
      }
      out.Value(DHash(x, y));
      ShapedTwo(t, xs, x, y);
      ys := xs + [x] + [y];
    }

    /** The loops of decode_ziplist and decode_quicklist: every element, or every pair, is handed on. */
    method EmitZipList(list: ZipRead.RdbZipList, ghost before: seq<Event>)
      requires list.Valid() && (InPairs(t) || InList(t)) && out.events == before
      modifies out`events
      ensures out.events == before + Shaped(t, ZipRead.ZipElems(list.Bytes(), ZipRead.FIRST))
    {
      hide Shaped, ZipRead.ZipNext, ZipRead.ZipElems, ElemAt;
      var lval := new RdbListValue();
      ghost var mem, v, xs := list.Bytes(), ZipRead.FIRST, [];
      ghost var all := ZipRead.ZipElems(mem, v);
      ShapedNone(t);
      ZipListStart(mem);
      var more := list.First(lval);
      while more
        invariant Inside(mem, ZipRead.HEADER, v) && (more, lval.View()) == ZipRead.ZipNext(mem, v)
        invariant all == xs + ZipRead.ZipElems(mem, v) && (more && InPairs(t) ==> |xs| % 2 == 0)
        invariant out.events == before + Shaped(t, xs)
        decreases list.zlbytes - EndOf(v)
      {
        ZipListOne(mem, v, xs);
        var x := ElemAt(list.Bytes(), lval.View());
        v := lval.View();
        if InPairs(t) {
          more, v, xs := EmitZipListPair(list, lval, x, xs, before);
        } else {
          out.Value(One(t, x));
          ShapedOne(t, xs, x);
          xs := xs + [x];
          more := list.Next(lval);
        }
      }
      ZipListOne(mem, v, xs);
    }

    /** The second element of a pair, if there is one, and the next element. */
    method EmitZipListPair(list: ZipRead.RdbZipList, lval: RdbListValue, x: Elem, ghost xs: seq<Elem>, ghost before: seq<Event>)
      returns (more: bool, ghost v: Lval, ghost xs': seq<Elem>)
      requires list.Valid() && InPairs(t) && |xs| % 2 == 0 && out.events == before + Shaped(t, xs)
      requires Inside(list.Bytes(), ZipRead.HEADER, lval.View())
      modifies lval, out`events
      ensures Inside(list.Bytes(), ZipRead.HEADER, v) && (more, lval.View()) == ZipRead.ZipNext(list.Bytes(), v)
      ensures EndOf(old(lval.View())) <= EndOf(v)
      ensures xs + [x] + ZipRead.ZipElems(list.Bytes(), old(lval.View())) == xs' + ZipRead.ZipElems(list.Bytes(), v)
      ensures (more ==> |xs'| % 2 == 0) && out.events == before + Shaped(t, xs')
    {
      hide Shaped, ZipRead.ZipNext, ZipRead.ZipElems, ElemAt;
      v := lval.View();
      ShapedTwo(t, xs, x, x);
      ZipListOne(list.Bytes(), v, xs + [x]);
      more := list.Next(lval);
      if !more {
        return more, v, xs + [x];
      }
      var y := ElemAt(list.Bytes(), lval.View());
      v := lval.View();
      out.Value(Two(t, x, y));
      ShapedTwo(t, xs, x, y);
      xs' := xs + [x] + [y];
      more := list.Next(lval);
    }

    /** The loops of decode_listpack and decode_quicklist_2: every element, or every pair, is handed on. */
    method EmitListPack(list: ListPackRead.RdbListPack, ghost before: seq<Event>)
      requires list.Valid() && (InPairs(t) || InList(t)) && out.events == before
      modifies out`events
      ensures out.events == before + Shaped(t, ListPackRead.LpElems(list.Bytes(), ListPackRead.FIRST))
    {
      hide Shaped, ListPackRead.LpNext, ListPackRead.LpElems, ElemAt;
      var lval := new RdbListValue();
      ghost var mem, v, xs := list.Bytes(), ListPackRead.FIRST, [];
      ghost var all := ListPackRead.LpElems(mem, v);
      ShapedNone(t);
      ListPackStart(mem);
      var more := list.First(lval);
      while more
        invariant Inside(mem, ListPack.LP_HEADER, v) && (more, lval.View()) == ListPackRead.LpNext(mem, v)
        invariant all == xs + ListPackRead.LpElems(mem, v) && (more && InPairs(t) ==> |xs| % 2 == 0)
        invariant out.events == before + Shaped(t, xs)
        decreases list.lpbytes - EndOf(v)
      {
        ListPackOne(mem, v, xs);
        var x := ElemAt(list.Bytes(), lval.View());
        v := lval.View();
        if InPairs(t) {
          more, v, xs := EmitListPackPair(list, lval, x, xs, before);
        } else {
          out.Value(One(t, x));
          ShapedOne(t, xs, x);
          xs := xs + [x];
          more := list.Next(lval);
        }
      }
      ListPackOne(mem, v, xs);
    }

    /** The second element of a pair, if there is one, and the next element. */
    method EmitListPackPair(list: ListPackRead.RdbListPack, lval: RdbListValue, x: Elem, ghost xs: seq<Elem>, ghost before: seq<Event>)
      returns (more: bool, ghost v: Lval, ghost xs': seq<Elem>)
      requires list.Valid() && InPairs(t) && |xs| % 2 == 0 && out.events == before + Shaped(t, xs)
      requires Inside(list.Bytes(), ListPack.LP_HEADER, lval.View())
      modifies lval, out`events
      ensures Inside(list.Bytes(), ListPack.LP_HEADER, v) && (more, lval.View()) == ListPackRead.LpNext(list.Bytes(), v)
      ensures EndOf(old(lval.View())) <= EndOf(v)
      ensures xs + [x] + ListPackRead.LpElems(list.Bytes(), old(lval.View())) == xs' + ListPackRead.LpElems(list.Bytes(), v)
      ensures (more ==> |xs'| % 2 == 0) && out.events == before + Shaped(t, xs')
    {
      hide Shaped, ListPackRead.LpNext, ListPackRead.LpElems, ElemAt;
      v := lval.View();
      ShapedTwo(t, xs, x, x);
      ListPackOne(list.Bytes(), v, xs + [x]);
      more := list.Next(lval);
      if !more {
        return more, v, xs + [x];
      }
      var y := ElemAt(list.Bytes(), lval.View());
      v := lval.View();
      out.Value(Two(t, x, y));
      ShapedTwo(t, xs, x, y);
      xs' := xs + [x] + [y];
      more := list.Next(lval);
    }

    /** The elements of a list in a piece of memory. */
    method EmitZipIn(b: seq<Byte>) returns (err: Status)
      requires InPairs(t) || InList(t)
      modifies out`events
      ensures err == ZipIn(b).0 && out.events == old(out.events) + Shaped(t, ZipIn(b).1)
    {
      hide Shaped, ZipRead.ZipInit, ZipRead.ZipElems;
      ShapedNone(t);
      var zip := new ZipRead.RdbZipList();
      var ok := zip.Init(b);
      if !ok {
        return ErrTrunc;
      }
      if !zip.Valid() {
        return OutOfBounds;
      }
      EmitZipList(zip, out.events);
      return Ok;
    }

    method EmitLpIn(b: seq<Byte>) returns (err: Status)
      requires InPairs(t) || InList(t)
      modifies out`events
      ensures err == LpIn(b).0 && out.events == old(out.events) + Shaped(t, LpIn(b).1)
    {
      hide Shaped, ListPackRead.LpInit, ListPackRead.LpElems;
      ShapedNone(t);
      var lp := new ListPackRead.RdbListPack();
      var ok := lp.Init(b);
      if !ok {
        return ErrTrunc;
      }
      if !lp.Valid() {
        return OutOfBounds;
      }
      EmitListPack(lp, out.events);
      return Ok;
    }

    /** decode_ziplist and decode_listpack. */
    method DecodeWhole(bptr: RdbBufptr, packed: bool) returns (err: Status)
      requires bptr.Valid() && (InPairs(t) || InList(t))
      modifies bptr, out`events
      ensures bptr.Valid() && (old(bptr.Located()) ==> bptr.Located())
      ensures var r := Whole(old(bptr.View()), rlen.len, packed);
        err == r.0 && bptr.View() == r.2 && out.events == old(out.events) + Shaped(t, r.1)
    {
      hide Shaped, ZipIn, LpIn;
      ShapedNone(t);
      var b := bptr.IncrBy(rlen.len);
      if b.None? {
        return ErrTrunc;
      }
      if packed {
        err := EmitLpIn(b.value);
      } else {
        err := EmitZipIn(b.value);
      }
    }

    // ----- quicklists

    method DecodeNode(bptr: RdbBufptr, packed: bool) returns (err: Status)
      requires bptr.Valid() && InList(t)
      modifies bptr, out`events
      ensures bptr.Valid() && (old(bptr.Located()) ==> bptr.Located())
      ensures var r := Node(old(bptr.View()), bptr.lzf, packed);
        err == r.0 && bptr.View() == r.2 && out.events == old(out.events) + Shaped(t, r.1)
    {
      hide Shaped, ZipIn, LpIn, DecodeLen, Blob;
      ShapedNone(t);
      var container := new RdbLength();
      if packed {
        err := bptr.Decode(container);
        if err != Ok {
          return;
        }
      }
      var b;
      err, b := StreamRead.DecodeBlob(bptr);
      if err != Ok {
        return;
      }
      if !packed {
        err := EmitZipIn(b);
      } else if container.len == 2 {
        err := EmitLpIn(b);
      } else {
        return ErrNotsup;
      }
    }

    /** decode_quicklist and decode_quicklist_2. */
    method DecodeNodes(bptr: RdbBufptr, packed: bool) returns (err: Status)
      requires bptr.Valid() && InList(t)
      modifies bptr, out`events
      ensures bptr.Valid() && (old(bptr.Located()) ==> bptr.Located())
      ensures var r := Nodes(old(bptr.View()), bptr.lzf, rlen.len, packed);
        err == r.0 && bptr.View() == r.2 && out.events == old(out.events) + Shaped(t, r.1)
    {
      hide Shaped, Nodes, Node;
      ghost var c, lzf, before := bptr.View(), bptr.lzf, out.events;
      ShapedNone(t);
      NodesNone(c, lzf, packed);
      var cnt := rlen.len;
      while cnt > 0
        invariant 0 <= cnt <= rlen.len && bptr.Valid() && (old(bptr.Located()) ==> bptr.Located())
        invariant var r := Nodes(c, lzf, rlen.len - cnt, packed);
          r.0 == Ok && r.2 == bptr.View() && out.events == before + Shaped(t, r.1)
      {
        ghost var xs := Nodes(c, lzf, rlen.len - cnt, packed).1;
        NodesSnoc(c, lzf, rlen.len - cnt, rlen.len, packed);
        ShapedMore(t, xs, Node(bptr.View(), lzf, packed).1);
        err := DecodeNode(bptr, packed);
        if err != Ok {
          return;
        }
        cnt := cnt - 1;
      }
      return Ok;
    }

    // ----- the value of a record

    /** The branches of decode_body for values that are no streams. */
    method DecodeElements(bptr: RdbBufptr) returns (err: Status)
      requires bptr.Valid() && !IsStream(t)
      modifies bptr, out`events
      ensures bptr.Valid() && (old(bptr.Located()) ==> bptr.Located())
      ensures var r := Elements(t, rlen.View(), old(bptr.View()), bptr.lzf);
        err == r.0 && bptr.View() == r.2 && out.events == old(out.events) + Shaped(t, r.1)
    {
      hide Shaped, StrOf, Rlens, Whole, Nodes;
      ShapedNone(t);
      if t == RString {
        var str;
        err, str := DecodeStr(bptr, rlen);
        ShapedOne(t, [], str);
        assert [] + [str] == [str];
        if err == Ok {
          out.Value(DString(str));
        }
      } else if t in {RSet, RList, RHash} {
        err := DecodeMembers(bptr);
      } else if t in {RHashZiplist, RZsetZiplist, RListZiplist} {
        err := DecodeWhole(bptr, false);
      } else if t in {RHashListpack, RZsetListpack} {
        err := DecodeWhole(bptr, true);
      } else if t in {RListQuicklist, RListQuicklist2} {
        err := DecodeNodes(bptr, t == RListQuicklist2);
      } else {
        err := Unmodelled;
      }
    }

    method DecodeValue(bptr: RdbBufptr) returns (e: Ended)
      requires bptr.Valid()
      modifies bptr, out`events
      ensures bptr.Valid() && (old(bptr.Located()) ==> bptr.Located())
      ensures var r := ValueRun(t, rlen.View(), old(bptr.View()), bptr.lzf);
        e == r.0 && (e != Released ==> bptr.View() == r.2 && out.events == old(out.events) + r.1)
    {
      hide Elements, StreamRun, Shaped;
      if IsStream(t) {
        e := StreamRead.DecodeStream(bptr, out, t == RStreamListpacks2, rlen.len);
      } else {
        var err := DecodeElements(bptr);
        e := if err == Ok then Done else Fail(err);
      }
    }

    /** decode_body; e tells a completed run from one that stream names ended early. */
    method DecodeBody(bptr: RdbBufptr) returns (err: Status, ghost e: Ended)
      requires bptr.Valid()
      modifies bptr, out
      ensures bptr.Valid() && (old(bptr.Located()) ==> bptr.Located())
      ensures var r := BodyOf(t, rlen.View(), old(bptr.View()), bptr.lzf);
        e == r.0 && err == StatusOf(e)
        && (e != Released ==> bptr.View() == r.2 && out.events == old(out.events) + r.1)
      ensures t != BadType ==> out.isMatched && out.typeOffset == old(out.typeOffset)
    {
      hide ValueRun;
      if t == BadType {
        return ErrNotsup, Fail(ErrNotsup);
      }
      out.Notify(StartKey, bptr.offset); // no filter
      var r := DecodeValue(bptr);
      if r == Done {
        out.Value(EndKey);
      }
      return StatusOf(r), r;
    }

    // ----- the header

    /** The digits of the version. */
    method ReadVersion(b: seq<Byte>) returns (err: Status)
      requires |b| >= 9
      modifies this`ver
      ensures err == if Digits(b[5..9]).Some? then Ok else ErrVersion
      ensures err == Ok ==> Digits(b[5..9]) == Some(ver)
    {
      hide Digits;
      ver := 0;
      DigitsNone();
      var i := 5;
      assert b[5..5] == [];
      while i <= 8
        invariant 5 <= i <= 9 && Digits(b[5..i]) == Some(ver)
      {
        var d := b[i];
        assert b[5..i + 1] == b[5..i] + [d];
        DigitsSnoc(b[5..i], d);
        if d < 0x30 || d > 0x39 {
          assert b[5..9][..i - 4] == b[5..i + 1];
          DigitsStay(b[5..9], i - 4);
          return ErrVersion;
        }
        ver := ver * 10 + (d - 0x30);
        i := i + 1;
      }
      return Ok;
    }

    /** The start of a file. */
    method OpenRdbFile(bptr: RdbBufptr, address: nat, b: seq<Byte>) returns (err: Status)
      requires bptr.Valid() && tables.Valid() && b == bptr.View().Cur() && |b| >= 10 && crc == 0
      modifies bptr`avail, bptr`pos, bptr`offset, this`ver, this`isRdbFile, this`crc, tables.tab
      ensures bptr.Valid() && tables.Valid() && (old(bptr.Located()) ==> bptr.Located())
      ensures var o := OpenFile(old(bptr.View()));
        err == o.err && bptr.View() == o.c && (err == Ok ==> (ver, isRdbFile, crc) == (o.ver, o.isFile, o.crc))
    {
      hide Digits, Checksum, FromLe, Crc64.Crc, RdbBufptr.View, RdbBufptr.Located, Tables.Valid, Tables.Built;
      isRdbFile := true;
      err := ReadVersion(b);
      if err != Ok {
        return;
      }
      var n := |b|;
      if b[n - 9] == 0xff {
        crc := FromLe(b[n - 8..]);
      }
      var agrees := ChecksumAgrees(address, b[..n - 8]);
      var eaten := bptr.IncrBy(9);
    }

    /** Whether redis-cli has appended a newline to a dump. */
    static method TrailerSize(b: seq<Byte>) returns (off: nat)
      requires |b| >= 10
      ensures off == if b[|b| - 10] == 9 && b[|b| - 9] == 0 then 8 else if b[|b| - 1] == 0xa then 9 else 8
    {
      var v := b[|b| - 10] as int + 256 * b[|b| - 9] as int;
      off := if v != 9 && b[|b| - 1] == 0xa then 9 else 8;
    }

    /** The version and the checksum at the end of a dump. */
    method OpenTrailer(bptr: RdbBufptr, address: nat, b: seq<Byte>, off: nat) returns (err: Status)
      requires bptr.Valid() && tables.Valid() && b == bptr.View().Cur() && 8 <= off && |b| >= off + 2
      modifies bptr`avail, bptr`pos, bptr`offset, this`ver, this`crc, tables.tab
      ensures bptr.Valid() && tables.Valid()
      ensures isRdbFile && old(bptr.Located()) ==> bptr.Located()
      ensures var o := CloseDump(old(bptr.View()), isRdbFile, off);
        err == o.err && bptr.View() == o.c && (err == Ok ==> (ver, isRdbFile, crc) == (o.ver, o.isFile, o.crc))
    {
      hide Checksum, FromLe, RdbBufptr.View, RdbBufptr.Located, Tables.Valid;
      var n := |b| - off;
      ver, crc := b[n - 2] as int + 256 * b[n - 1] as int, FromLe(b[n..n + 8]);
      var agrees := ChecksumAgrees(address, b[..n]);
      if !agrees {
        return ErrCrc;
      }
      Eat(bptr, b, off + 2);
      return Ok;
    }

    /** Zero stands for no checksum; in a file a difference is only reported. */
    method ChecksumAgrees(address: nat, s: seq<Byte>) returns (ok: bool)
      requires tables.Valid()
      modifies tables.tab
      ensures tables.Valid() && (ok <==> crc == 0 || Checksum(s) == crc || isRdbFile)
    {
      hide Checksum;
      ok := true;
      if crc != 0 {
        var computed := tables.JonesCrc64(0, address, s);
        ChecksumIs(s, computed);
        ok := computed as nat == crc || isRdbFile;
      }
    }

    /** The trailer of a dump is cut off; the version of a file is skipped. */
    method Eat(bptr: RdbBufptr, b: seq<Byte>, trailer: nat)
      requires bptr.Valid() && b == bptr.View().Cur() && |b| >= 10 && trailer <= |b|
      modifies bptr`avail, bptr`pos, bptr`offset
      ensures bptr.Valid() && (isRdbFile && old(bptr.Located()) ==> bptr.Located())
      ensures bptr.View() == old(bptr.View()).WithCur(if isRdbFile then b[9..] else b[..|b| - trailer])
    {
      if !isRdbFile {
        assert b == bptr.mem[bptr.pos..bptr.pos + bptr.avail];
        FrontOf(bptr.mem, bptr.pos, bptr.avail, bptr.avail - trailer);
        bptr.avail := bptr.avail - trailer;
      } else {
        var eaten := bptr.IncrBy(9);
      }
    }

    /** The first call: version and checksum. */
    method OpenInput(bptr: RdbBufptr, address: nat) returns (err: Status)
      requires bptr.Valid() && tables.Valid()
      modifies bptr`avail, bptr`pos, bptr`offset, this`ver, this`isRdbFile, this`crc, tables.tab
      ensures bptr.Valid() && tables.Valid()
      ensures isRdbFile && old(bptr.Located()) ==> bptr.Located()
      ensures var o := Open(old(bptr.View()), old(isRdbFile));
        err == o.err && bptr.View() == o.c && (err == Ok ==> (ver, isRdbFile, crc) == (o.ver, o.isFile, o.crc))
    {
      hide OpenFile, CloseDump;
      crc := 0;
      var n := bptr.avail;
      var b := bptr.mem[bptr.pos..bptr.pos + n];
      assert bptr.View().Cur() == b;
      if n < 10 {
        return ErrTrunc;
      }
      if b[..7] == MAGIC {
        err := OpenRdbFile(bptr, address, b);
      } else {
        var off := TrailerSize(b);
        if n < off + 2 {
          return OutOfBounds;
        }
        err := OpenTrailer(bptr, address, b, off);
      }
    }

    // ----- meta codes

    method DecodePlain(bptr: RdbBufptr) returns (err: Status, n: nat)
      requires bptr.Valid()
      modifies bptr
      ensures bptr.Valid() && (old(bptr.Located()) ==> bptr.Located())
      ensures var r := PlainLen(old(bptr.View()));
        err == r.0 && bptr.View() == r.2 && r.1 == (if err == Ok then [n] else [])
    {
      hide DecodeLen;
      n := 0;
      var sz := new RdbLength();
      err := bptr.Decode(sz);
      if err != Ok {
        return;
      }
      if sz.isLzf || sz.isEnc != 0 {
        return ErrHdr, n;
      }
      n := sz.len;
    }

    method DecodeAux(bptr: RdbBufptr, aux: RdbLength) returns (err: Status, str: Elem)
      requires bptr.Valid()
      modifies bptr, aux
      ensures bptr.Valid() && (old(bptr.Located()) ==> bptr.Located())
      ensures var r := AuxOf(old(bptr.View()), bptr.lzf);
        err == r.0 && bptr.View() == r.2 && r.1 == (if err == Ok then [str] else [])
    {
      hide DecodeLen, Consume;
      str := Int(0);
      aux.Zero();
      err := bptr.Decode(aux);
      if err != Ok {
        return;
      }
      if aux.isEnc != 0 {
        str := Int(aux.ival);
      } else {
        var b;
        err, b := bptr.ConsumeData(aux);
        str := Str(b);
      }
    }

    /** The codes that carry numbers in fixed places. */
    method DecodeFixed(bptr: RdbBufptr, next: Byte) returns (err: Status)
      requires bptr.Valid() && next in {0xf9, 0xfc, 0xfd}
      modifies bptr, out
      ensures bptr.Valid() && (old(bptr.Located()) ==> bptr.Located())
      ensures var r := Incr(old(bptr.View()), if next == 0xf9 then 1 else if next == 0xfc then 8 else 4);
        if r.None? then err == ErrTrunc && bptr.View() == old(bptr.View()) && out.events == old(out.events)
        else
          err == Ok && bptr.View() == r.value.1
          && |r.value.0| > 0
          && out.events == old(out.events)
            + [if next == 0xf9 then Freq(r.value.0[0])
               else if next == 0xfc then ExpiredMs(FromLe(r.value.0)) else Expired(FromLe(r.value.0))]
    {
      hide FromLe;
      var b := bptr.IncrBy(if next == 0xf9 then 1 else if next == 0xfc then 8 else 4);
      if b.None? {
        return ErrTrunc;
      }
      out.Notify(if next == 0xf9 then Freq(b.value[0])
                 else if next == 0xfc then ExpiredMs(FromLe(b.value)) else Expired(FromLe(b.value)), bptr.offset);
      return Ok;
    }

    /** One meta code. */
    method DecodeMeta(bptr: RdbBufptr) returns (err: Status)
      requires bptr.Valid() && bptr.View().Cur() != [] && bptr.View().Cur()[0] >= 0xf7
      modifies bptr, out
      ensures bptr.Valid() && (old(bptr.Located()) ==> bptr.Located())
      ensures var r := Meta(old(bptr.View()), bptr.lzf);
        err == r.0 && bptr.View() == r.2 && out.events == old(out.events) + r.1
    {
      hide PlainLen, AuxOf, FromLe, RdbBufptr.View;
      ghost var c := bptr.View();
      var b := bptr.IncrBy(1);
      FirstByte(c);
      var next := b.value[0];
      if next in {0xf8, 0xfe} {
        var n;
        err, n := DecodePlain(bptr);
        if err == Ok {
          out.Notify(if next == 0xf8 then Idle(n) else Dbselect(n % TWO32), bptr.offset);
        }
      } else if next == 0xfa {
        err := DecodeAuxes(bptr);
      } else if next == 0xfb {
        err := DecodeSizes(bptr);
      } else if next in {0xf9, 0xfc, 0xfd} {
        err := DecodeFixed(bptr, next);
      } else if next == 0xff {
        return EofMark;
      } else {
        return ErrNotsup;
      }
    }

    method DecodeAuxes(bptr: RdbBufptr) returns (err: Status)
      requires bptr.Valid()
      modifies bptr, out
      ensures bptr.Valid() && (old(bptr.Located()) ==> bptr.Located())
      ensures var x := AuxOf(old(bptr.View()), bptr.lzf);
        var y := AuxOf(x.2, bptr.lzf);
        if x.0 != Ok then err == x.0 && bptr.View() == x.2 && out.events == old(out.events)
        else
          err == y.0 && bptr.View() == y.2
          && out.events == old(out.events) + (if y.0 == Ok then [Aux(x.1[0], y.1[0])] else [])
    {
      hide AuxOf;
      var aux := new RdbLength();
      var x, y;
      err, x := DecodeAux(bptr, aux);
      if err != Ok {
        return;
      }
      err, y := DecodeAux(bptr, aux);
      if err == Ok {
        out.Notify(Aux(x, y), bptr.offset);
      }
    }

    method DecodeSizes(bptr: RdbBufptr) returns (err: Status)
      requires bptr.Valid()
      modifies bptr, out
      ensures bptr.Valid() && (old(bptr.Located()) ==> bptr.Located())
      ensures var x := PlainLen(old(bptr.View()));
        var y := PlainLen(x.2);
        if x.0 != Ok then err == x.0 && bptr.View() == x.2 && out.events == old(out.events)
        else
          err == y.0 && bptr.View() == y.2
          && out.events == old(out.events) + (if y.0 == Ok then [Dbresize(x.1[0], y.1[0])] else [])
    {
      hide PlainLen;
      var x, y;
      err, x := DecodePlain(bptr);
      if err != Ok {
        return;
      }
      err, y := DecodePlain(bptr);
      if err == Ok {
        out.Notify(Dbresize(x, y), bptr.offset);
      }
    }

    /** The loop over meta codes. */
    method DecodeMetas(bptr: RdbBufptr) returns (err: Status)
      requires bptr.Valid()
      modifies bptr, out
      ensures bptr.Valid() && (old(bptr.Located()) ==> bptr.Located())
      ensures var r := MetaLoop(old(bptr.View()), bptr.lzf);
        err == r.0 && bptr.View() == r.2 && out.events == old(out.events) + r.1
    {
      hide Meta, MetaLoop, RdbBufptr.View, RdbBufptr.Located, Cursor.Remaining, Cursor.Cur;
      ghost var c, lzf, before, es := bptr.View(), bptr.lzf, out.events, [];
      while bptr.avail > 0
        invariant bptr.Valid() && (old(bptr.Located()) ==> bptr.Located())
        invariant var r, all := MetaLoop(bptr.View(), lzf), MetaLoop(c, lzf);
          all.0 == r.0 && all.2 == r.2 && all.1 == es + r.1
        invariant out.events == before + es
        decreases |bptr.View().Remaining()|
      {
        ghost var at := bptr.View();
        MetaStep(at, lzf, es);
        CurIs(bptr);
        var next := bptr.mem[bptr.pos];
        if next < 0xf7 {
          break;
        }
        err := DecodeMeta(bptr);
        if err != Ok {
          return;
        }
        es := es + Meta(at, lzf).1;
      }
      CurIs(bptr);
      MetaStep(bptr.View(), lzf, es);
      err := Ok;
    }

    // ----- type, key and length

    method DecodeLength(bptr: RdbBufptr, ghost k: Option<Elem>) returns (err: Status)
      requires bptr.Valid()
      modifies bptr, rlen
      ensures bptr.Valid() && (old(bptr.Located()) ==> bptr.Located())
      ensures var r := RlenOf(old(bptr.View()), bptr.lzf, t, k);
        err == r.err && bptr.View() == r.c && rlen.View() == r.rlen
    {
      hide DecodeLen, Decompress;
      rlen.Zero();
      err := bptr.Decode(rlen);
      if err != Ok {
        return;
      }
      if rlen.isLzf {
        var ok := bptr.DecompressBlock(rlen.zlen, rlen.len);
        err := if ok then Ok else ErrLzf;
      }
    }

    method DecodeLead(bptr: RdbBufptr) returns (err: Status)
      requires bptr.Valid()
      modifies bptr, this`t, this`key, rlen, out
      ensures bptr.Valid() && (old(bptr.Located()) ==> bptr.Located())
      ensures var c := old(bptr.View());
        var r := LeadOf(c, bptr.lzf, isRdbFile);
        err == r.err && bptr.View() == r.c
        && out.events == old(out.events) + (if c.Cur() != [] && r.t != BadType then [StartType(r.t)] else [])
        && (err == Ok ==>
              t == r.t && rlen.View() == r.rlen && (isRdbFile ==> key == r.key)
              && out.typeOffset == old(bptr.offset) && !out.isMatched)
      ensures err == Ok && old(bptr.Located()) && old(bptr.View()).clean && old(bptr.View()).block.None? ==>
        out.typeOffset < |bptr.file| && old(bptr.View()).main == bptr.file[out.typeOffset..]
    {
      hide KeyOf, RlenOf, GetRdbType;
      ghost var c := bptr.View();
      CurIs(bptr);
      if bptr.avail == 0 {
        return ErrTrunc;
      }
      t := GetRdbType(bptr.mem[bptr.pos]);
      if t == BadType {
        return ErrType;
      }
      out.Notify(StartType(t), bptr.offset);
      FirstByte(c);
      var b := bptr.IncrBy(1);
      RlenType(c.WithCur(c.Cur()[1..]), bptr.lzf, t, None);
      if isRdbFile {
        err := DecodeKey(bptr);
        if err != Ok {
          return;
        }
      }
      ghost var k := if isRdbFile then key else None;
      RlenType(bptr.View(), bptr.lzf, t, k);
      err := DecodeLength(bptr, k);
    }

    method DecodeKey(bptr: RdbBufptr) returns (err: Status)
      requires bptr.Valid()
      modifies bptr, this`key, rlen
      ensures bptr.Valid() && (old(bptr.Located()) ==> bptr.Located())
      ensures var r := KeyOf(old(bptr.View()), bptr.lzf);
        err == r.0 && bptr.View() == r.2 && (err == Ok ==> key == r.1)
    {
      hide AuxOf;
      var k;
      err, k := DecodeAux(bptr, rlen);
      if err == Ok {
        key := Some(k);
      }
    }

    /** decode_hdr. */
    method DecodeHdr(bptr: RdbBufptr, address: nat) returns (err: Status)
      requires bptr.Valid() && tables.Valid()
      modifies bptr, this, rlen, out, tables.tab
      ensures bptr.Valid() && tables.Valid()
      ensures isRdbFile && old(bptr.Located()) ==> bptr.Located()
      ensures var h := HdrOf(Version(old(ver), old(isRdbFile)), old(bptr.View()), bptr.lzf);
        err == h.lead.err && bptr.View() == h.lead.c && out.events == old(out.events) + h.events
        && (err == Ok ==>
              Version(ver, isRdbFile) == h.v && t == h.lead.t && rlen.View() == h.lead.rlen
              && (isRdbFile ==> key == h.lead.key) && !out.isMatched)
      ensures var m := TypeCursor(Version(old(ver), old(isRdbFile)), old(bptr.View()), bptr.lzf);
        err == Ok && isRdbFile && old(bptr.Located()) && m.clean && m.block.None? ==>
          out.typeOffset < |bptr.file| && m.main == bptr.file[out.typeOffset..]
    {
      hide Open, MetaLoop, LeadOf, RdbBufptr.View, RdbBufptr.Located, Tables.Valid, Cursor.Cur;
      if ver == 0 {
        err := OpenInput(bptr, address);
        if err != Ok {
          return;
        }
      }
      if isRdbFile {
        err := DecodeMetas(bptr);
        if err != Ok {
          return;
        }
      }
      err := DecodeLead(bptr);
    }
  }

  lemma RlenType(c: Cursor, lzf: Inflater, t: RdbType, k: Option<Elem>)
    ensures RlenOf(c, lzf, t, k).t == t && RlenOf(c, lzf, t, k).key == k
  {
    hide DecodeLen, Unzip;
  }

  lemma FrontOf(s: seq<Byte>, at: nat, n: nat, k: nat)
    requires k <= n && at + n <= |s|
    ensures s[at..at + n][..k] == s[at..at + k]
  {}

  lemma FirstByte(c: Cursor)
    requires c.Cur() != []
    ensures Incr(c, 1) == Some(([c.Cur()[0]], c.WithCur(c.Cur()[1..])))
  {
    assert c.Cur()[..1] == [c.Cur()[0]];
  }

  lemma CurIs(bptr: RdbBufptr)
    requires bptr.Valid()
    ensures bptr.View().Cur() == bptr.mem[bptr.pos..bptr.pos + bptr.avail]
    ensures bptr.avail > 0 ==> bptr.View().Cur() != [] && bptr.View().Cur()[0] == bptr.mem[bptr.pos]
    ensures bptr.avail == 0 ==> bptr.View().Cur() == []
  {}

  /** One turn of the loop over meta codes. */
  lemma MetaStep(c: Cursor, lzf: Inflater, es: seq<Event>)
    ensures if c.Cur() == [] || c.Cur()[0] < 0xf7 then MetaLoop(c, lzf) == (Ok, [], c) && es + [] == es
      else
        var m := Meta(c, lzf);
        if m.0 != Ok then MetaLoop(c, lzf) == m
        else
          |m.2.Remaining()| < |c.Remaining()|
          && var rest, all := MetaLoop(m.2, lzf), MetaLoop(c, lzf);
             all.0 == rest.0 && all.2 == rest.2 && es + all.1 == (es + m.1) + rest.1
  {
    hide Meta;
    if c.Cur() != [] && c.Cur()[0] >= 0xf7 && Meta(c, lzf).0 == Ok {
      MetaShrinks(c, lzf);
    }
  }

  lemma ChecksumIs(s: seq<Byte>, computed: bv64)
    requires computed == Crc64.Crc(0, s)
    ensures computed as nat == Checksum(s)
  {
    hide Crc64.Crc;
  }

  lemma DigitsNone()
    ensures Digits([]) == Some(0)
  {}

  lemma DigitsSnoc(s: seq<Byte>, d: Byte)
    ensures Digits(s + [d]) ==
      match Digits(s)
      case None => None
      case Some(n) => if 0x30 <= d <= 0x39 then Some(10 * n + (d - 0x30)) else None
  {
    assert (s + [d])[..|s|] == s;
  }

  lemma {:induction false} DigitsStay(s: seq<Byte>, n: nat)
    requires n <= |s| && Digits(s[..n]).None?
    ensures Digits(s).None?
    decreases |s|
  {
    if n < |s| {
      assert s[..|s| - 1][..n] == s[..n];
      DigitsStay(s[..|s| - 1], n);
    } else {
      assert s[..n] == s;
    }
  }

  lemma ShapedNone(t: RdbType)
    ensures Shaped(t, []) == []
  {}

  lemma RlensNone(c: Cursor, lzf: Inflater)
    ensures Rlens(c, lzf, 0) == (Ok, [], c)
  {}

  /** One more string after n of them; an error ends them all. */
  lemma {:induction false} RlensSnoc(c: Cursor, lzf: Inflater, n: nat, more: nat)
    requires Rlens(c, lzf, n).0 == Ok && n < more
    ensures var r := Rlens(c, lzf, n); var x := Rlen(r.2, lzf);
      if x.0 == Ok then Rlens(c, lzf, n + 1) == (Ok, r.1 + x.1, x.2)
      else Rlens(c, lzf, more) == (x.0, r.1, x.2)
    decreases n
  {
    hide Rlen;
    if n > 0 {
      RlensSnoc(Rlen(c, lzf).2, lzf, n - 1, more - 1);
      var x := Rlen(c, lzf);
      var rest := Rlens(x.2, lzf, n - 1);
      Regroup(x.1, rest.1, Rlen(rest.2, lzf).1);
    } else {
      var x := Rlen(c, lzf);
      RlensNone(x.2, lzf);
      Regroup(x.1, [], []);
      assert x.0 == Ok ==> Rlens(c, lzf, 1) == (Ok, x.1 + [], x.2);
    }
  }

  /** One more element of a traversal, or its end. */
  lemma ZipListOne(mem: seq<Byte>, v: Lval, xs: seq<Elem>)
    requires Inside(mem, ZipRead.HEADER, v)
    ensures var r := ZipRead.ZipNext(mem, v);
      if r.0 then xs + ZipRead.ZipElems(mem, v) == (xs + [ElemAt(mem, r.1)]) + ZipRead.ZipElems(mem, r.1)
      else xs + ZipRead.ZipElems(mem, v) == xs
  {
    hide ZipRead.ZipNext, ElemAt;
  }

  lemma ZipListStart(mem: seq<Byte>)
    requires |mem| >= ZipRead.HEADER
    ensures Inside(mem, ZipRead.HEADER, ZipRead.FIRST)
    ensures ZipRead.ZipElems(mem, ZipRead.FIRST) == [] + ZipRead.ZipElems(mem, ZipRead.FIRST)
  {
    hide ZipRead.ZipNext, ZipRead.ZipElems;
  }

  /** One more element of a traversal, or its end. */
  lemma ListPackOne(mem: seq<Byte>, v: Lval, xs: seq<Elem>)
    requires Inside(mem, ListPack.LP_HEADER, v)
    ensures var r := ListPackRead.LpNext(mem, v);
      if r.0 then xs + ListPackRead.LpElems(mem, v) == (xs + [ElemAt(mem, r.1)]) + ListPackRead.LpElems(mem, r.1)
      else xs + ListPackRead.LpElems(mem, v) == xs
  {
    hide ListPackRead.LpNext, ElemAt;
  }

  lemma ListPackStart(mem: seq<Byte>)
    requires |mem| >= ListPack.LP_HEADER
    ensures Inside(mem, ListPack.LP_HEADER, ListPackRead.FIRST)
    ensures ListPackRead.LpElems(mem, ListPackRead.FIRST) == [] + ListPackRead.LpElems(mem, ListPackRead.FIRST)
  {
    hide ListPackRead.LpNext, ListPackRead.LpElems;
  }

  predicate InList(t: RdbType) {
    t in {RListZiplist, RListQuicklist, RListQuicklist2}
  }

  lemma ShapedMore(t: RdbType, xs: seq<Elem>, ys: seq<Elem>)
    requires InList(t)
    ensures Shaped(t, xs + ys) == Shaped(t, xs) + Shaped(t, ys)
  {}

  lemma NodesNone(c: Cursor, lzf: Inflater, packed: bool)
    ensures Nodes(c, lzf, 0, packed) == (Ok, [], c)
  {}

  /** One more node after n of them; an error ends them all. */
  lemma {:induction false} NodesSnoc(c: Cursor, lzf: Inflater, n: nat, more: nat, packed: bool)
    requires Nodes(c, lzf, n, packed).0 == Ok && n < more
    ensures var r := Nodes(c, lzf, n, packed); var x := Node(r.2, lzf, packed);
      if x.0 == Ok then Nodes(c, lzf, n + 1, packed) == (Ok, r.1 + x.1, x.2)
      else Nodes(c, lzf, more, packed) == (x.0, r.1 + x.1, x.2)
    decreases n
  {
    hide Node;
    var x := Node(c, lzf, packed);
    if n > 0 {
      NodesSnoc(x.2, lzf, n - 1, more - 1, packed);
      var rest := Nodes(x.2, lzf, n - 1, packed);
      Regroup(x.1, rest.1, Node(rest.2, lzf, packed).1);
    } else {
      NodesNone(x.2, lzf, packed);
      Regroup(x.1, [], []);
      assert x.0 == Ok ==> Nodes(c, lzf, 1, packed) == (Ok, x.1 + [], x.2);
    }
  }
}
