/** decode_stream as the loops it is made of (src/rdb_decode.cpp:969-1144), against module StreamDecode. */
module StreamRead {
  import opened Bytes
  import opened LengthCodec
  import opened Bufptr
  import opened ListValue
  import opened Events
  import opened Values
  import opened Outputs
  import opened StreamDecode
  import ListPack
  import ListPackRead
  import Stream
  import StreamArena
  import opened StreamLife

  method DecodeBlob(bptr: RdbBufptr) returns (err: Status, b: seq<Byte>)
    requires bptr.Valid()
    modifies bptr
    ensures bptr.Valid() && (old(bptr.Located()) ==> bptr.Located())
    ensures (err, b, bptr.View()) == Blob(old(bptr.View()), bptr.lzf)
  {
    hide DecodeLen, Consume;
    b := [];
    var l := new RdbLength();
    err := bptr.Decode(l);
    if err == Ok {
      err, b := bptr.ConsumeData(l);
    }
  }

  // ----- entries

  /** The callbacks for the entries so far: the list is opened with the first one. */
  ghost function Opened(es: seq<LiveEntry>): seq<Event> {
    (if |es| != 0 then [StreamStart(EntryList)] else []) + EntryEvents(es)
  }

  lemma OpenedMore(es: seq<LiveEntry>, e: LiveEntry)
    ensures Opened(es + [e])
         == Opened(es) + (if es == [] then [StreamStart(EntryList)] else []) + [StreamEntry(|es|, e.id, e.fields)]
  {
    assert EntryEvents(es + [e]) == EntryEvents(es) + [StreamEntry(|es|, e.id, e.fields)];
  }

  /** The rest of a block is read entry by entry. */
  lemma LiveStep(mem: seq<Byte>, id: StreamId, v: Lval, master: seq<Lval>, n: nat, es: seq<LiveEntry>)
    requires Inside(mem, ListPack.LP_HEADER, v) && AllInside(mem, ListPack.LP_HEADER, master) && n > 0
    ensures var r := Stream.RecordOf(mem, v, master);
      if r.None? then Live(mem, id, v, master, n) == (false, [])
      else
        var rec := r.value.0;
        |rec.fields| == |rec.values| && AllInside(mem, ListPack.LP_HEADER, rec.fields)
        && AllInside(mem, ListPack.LP_HEADER, rec.values)
        && var rest := Live(mem, id, r.value.1, master, n - 1);
           var all := Live(mem, id, v, master, n);
           all.0 == rest.0
           && es + all.1 == (if Stream.Deleted(rec.flags) then es else es + [EntryOf(mem, id, rec)]) + rest.1
  {
    hide Stream.RecordOf, FieldPairs, Stream.Deleted, Inside;
    if Stream.RecordOf(mem, v, master).Some? {
      Stream.RecordInside(mem, v, master);
    }
  }

  function EntryOf(mem: seq<Byte>, id: StreamId, rec: Stream.Record): LiveEntry
    requires |rec.fields| == |rec.values|
    requires AllInside(mem, ListPack.LP_HEADER, rec.fields) && AllInside(mem, ListPack.LP_HEADER, rec.values)
  {
    LiveEntry(StreamId(Added(id.ms, rec.ms), Added(id.ser, rec.ser)), FieldPairs(mem, rec.fields, rec.values))
  }

  /** One entry that is not deleted goes to the output. */
  method EmitEntry(out: Output, num: nat, e: LiveEntry, ghost es: seq<LiveEntry>, ghost before: seq<Event>)
    requires num == |es| && out.events == before + Opened(es)
    modifies out`events
    ensures out.events == before + Opened(es + [e])
  {
    hide Opened;
    OpenedMore(es, e);
    if num == 0 {
      out.Value(StreamStart(EntryList));
    }
    out.Value(StreamEntry(num, e.id, e.fields));
  }

  /** The entry that was read goes to the output, unless it is flagged as deleted. */
  method ShowEntry(list: ListPackRead.RdbListPack, entry: StreamArena.RdbStreamEntry, out: Output, id: StreamId, num: nat,
                   ghost rec: Stream.Record, ghost es: seq<LiveEntry>, ghost before: seq<Event>)
    returns (num': nat, ghost es': seq<LiveEntry>)
    requires list.Valid() && entry.Valid() && num == |es| && out.events == before + Opened(es)
    requires StreamArena.Room(entry.fields, entry.entryFieldCount) && StreamArena.Room(entry.values, entry.entryFieldCount)
    requires entry.Shows(rec)
    requires |rec.fields| == |rec.values| && AllInside(list.Bytes(), ListPack.LP_HEADER, rec.fields)
    requires AllInside(list.Bytes(), ListPack.LP_HEADER, rec.values)
    modifies entry`fault, out`events
    ensures entry.Valid()
    ensures entry.LifeOf() == if Stream.Deleted(rec.flags) then old(entry.LifeOf()) else Looked(old(entry.LifeOf()))
    ensures !entry.fault ==>
      (es' == (if Stream.Deleted(rec.flags) then es else es + [EntryOf(list.Bytes(), id, rec)])
       && num' == |es'| && out.events == before + Opened(es'))
  {
    hide Opened, Inside, AllInside, FieldPairs, StreamArena.RdbStreamEntry.Valid;
    num', es' := num, es;
    if !Stream.Deleted(entry.flags) {
      entry.See();
      if entry.fault {
        return;
      }
      var e := EntryOf(list.Bytes(), id,
        Stream.Record(entry.flags, entry.diffMs, entry.diffSer, StreamArena.Slots(entry.fields, entry.entryFieldCount),
                      StreamArena.Slots(entry.values, entry.entryFieldCount)));
      EmitEntry(out, num', e, es', before);
      num', es' := num' + 1, es' + [e];
    }
  }

  /** What the entries of a block do to the memory, one entry further on. */
  lemma KindsStep(l: Life, mem: seq<Byte>, v: Lval, master: seq<Lval>, n: nat)
    requires Inside(mem, ListPack.LP_HEADER, v) && n > 0
    ensures var r, k := Stream.RecordOf(mem, v, master), KindAt(mem, v, |master|, false);
      var turned := if k.None? then l else Turned(l, |master|, k.value);
      var seen := if IsRead(r) then Looked(turned) else turned;
      (r.None? ==> RunKinds(l, |master|, Kinds(mem, v, master, n)) == turned)
      && (r.Some? ==> k.Some? && RunKinds(l, |master|, Kinds(mem, v, master, n))
                                 == RunKinds(seen, |master|, Kinds(mem, r.value.1, master, n - 1)))
  {
    hide Stream.HeadOf, Stream.CountOf, StreamArena.RestOf, Stream.RecordOf, Inside, Stream.Deleted, Stream.SameFields;
    StreamArena.RecordParts(mem, v, master);
    var r := Stream.RecordOf(mem, v, master);
    var k := KindAt(mem, v, |master|, IsRead(r));
    if k.Some? {
      var rest := if r.None? then [] else Kinds(mem, r.value.1, master, n - 1);
      assert ([k.value] + rest)[1..] == rest;
    }
  }

  /** The entries of a block whose header has been read. They are known as long as the memory is intact. */
  method ReadEntries(list: ListPackRead.RdbListPack, lval: RdbListValue, entry: StreamArena.RdbStreamEntry, out: Output,
                     id: StreamId, num: nat, ghost ms: seq<Lval>, ghost es: seq<LiveEntry>, ghost before: seq<Event>)
    returns (ok: bool, num': nat, ghost es': seq<LiveEntry>)
    requires list.Valid() && entry.Open() && !entry.fault && Inside(list.Bytes(), ListPack.LP_HEADER, lval.View())
    requires |ms| == entry.masterFieldCount && (entry.master.a !in entry.freed ==> entry.Masters() == ms)
    requires AllInside(list.Bytes(), ListPack.LP_HEADER, ms)
    requires num == |es| && out.events == before + Opened(es)
    modifies lval, entry, entry.tmp, out`events
    ensures entry.Valid()
    ensures var l := RunKinds(old(entry.LifeOf()), |ms|, Kinds(list.Bytes(), old(lval.View()), ms, old(entry.itemsCount)));
      if entry.fault then !ok && l.fault else entry.LifeOf() == l
    ensures !entry.fault ==>
      (var r := Live(list.Bytes(), id, old(lval.View()), ms, old(entry.itemsCount));
       ok == r.0 && es' == es + r.1 && num' == |es'| && out.events == before + Opened(es'))
  {
    hide Live, Stream.RecordOf, FieldPairs, Stream.Deleted, Inside, AllInside, EntryOf, RunKinds, Kinds, Turned, Looked,
      KindAt, Opened, StreamArena.RdbStreamEntry.Shows, StreamArena.RdbStreamEntry.Valid,
      StreamArena.RdbStreamEntry.LifeOf, StreamArena.RdbStreamEntry.Masters;
    ghost var mem, n := list.Bytes(), entry.itemsCount;
    ghost var v0, l0 := lval.View(), entry.LifeOf();
    num', es' := num, es;
    var i := 0;
    while i < entry.itemsCount
      invariant 0 <= i <= n == entry.itemsCount && entry.Open() && !entry.fault && entry.masterFieldCount == |ms|
      invariant entry.master.a !in entry.freed ==> entry.Masters() == ms
      invariant Inside(mem, ListPack.LP_HEADER, lval.View())
      invariant RunKinds(l0, |ms|, Kinds(mem, v0, ms, n))
        == RunKinds(entry.LifeOf(), |ms|, Kinds(mem, lval.View(), ms, n - i))
      invariant var r, all := Live(mem, id, lval.View(), ms, n - i), Live(mem, id, v0, ms, n);
        all.0 == r.0 && es + all.1 == es' + r.1
      invariant num' == |es'| && out.events == before + Opened(es')
    {
      ghost var r := Stream.RecordOf(mem, lval.View(), ms);
      LiveStep(mem, id, lval.View(), ms, n - i, es');
      KindsStep(entry.LifeOf(), mem, lval.View(), ms, n - i);
      ok := entry.ReadEntry(list, lval, ms);
      if !ok {
        FaultOf(entry);
        assert es + Live(mem, id, v0, ms, n).1 == es' + [];
        return;
      }
      num', es' := ShowEntry(list, entry, out, id, num', r.value.0, es', before);
      FaultOf(entry);
      if entry.fault {
        KindsFault(entry.LifeOf(), |ms|, Kinds(mem, lval.View(), ms, n - i - 1));
        ok := false;
        return;
      }
      i := i + 1;
    }
    LiveNone(mem, id, lval.View(), ms);
    KindsNone(entry.LifeOf(), mem, lval.View(), ms);
    ok := true;
  }

  lemma FaultOf(entry: StreamArena.RdbStreamEntry)
    ensures entry.LifeOf().fault == entry.fault
  {}

  lemma KindsNone(l: Life, mem: seq<Byte>, v: Lval, master: seq<Lval>)
    requires Inside(mem, ListPack.LP_HEADER, v)
    ensures RunKinds(l, |master|, Kinds(mem, v, master, 0)) == l
  {}

  lemma LiveNone(mem: seq<Byte>, id: StreamId, v: Lval, master: seq<Lval>)
    requires Inside(mem, ListPack.LP_HEADER, v) && AllInside(mem, ListPack.LP_HEADER, master)
    ensures Live(mem, id, v, master, 0) == (true, [])
  {}

  /** The listpack of a block. */
  method ReadBlock(b: seq<Byte>, entry: StreamArena.RdbStreamEntry, out: Output, id: StreamId, num: nat,
                   ghost es: seq<LiveEntry>, ghost before: seq<Event>)
    returns (err: Status, num': nat, ghost es': seq<LiveEntry>)
    requires entry.Valid() && !entry.fault && num == |es| && out.events == before + Opened(es)
    modifies entry, entry.tmp, out`events
    ensures entry.Valid()
    ensures var l := RunBlocks(old(entry.LifeOf()), TraceIn(b));
      if entry.fault then err != Ok && l.fault else entry.LifeOf() == l
    ensures !entry.fault ==>
      (err == EntriesIn(b, id).0 && es' == es + EntriesIn(b, id).1
       && num' == |es'| && out.events == before + Opened(es'))
  {
    hide Live, ListPackRead.LpInit, Stream.HeaderOf, Stream.Counts, Opened, Inside, AllInside, RunBlocks, TraceIn, Kinds,
      EntriesIn, Headed, RunKinds, StreamArena.RdbStreamEntry.Valid, StreamArena.RdbStreamEntry.Masters,
      StreamArena.RdbStreamEntry.LifeOf;
    num', es' := num, es;
    ghost var l := entry.LifeOf();
    FaultOf(entry);
    EntriesParts(b, id, es);
    TraceParts(b, l);
    var list := new ListPackRead.RdbListPack();
    var lval := new RdbListValue();
    var ok := list.Init(b);
    if !ok {
      return Ok, num', es';
    }
    if !list.Valid() {
      return OutOfBounds, num', es';
    }
    ok := entry.ReadHeader(list, lval);
    HeadedFault(l, list.Bytes());
    FaultOf(entry);
    if !ok {
      return ErrHdr, num', es';
    }
    ok, num', es' := ReadEntries(list, lval, entry, out, id, num, entry.Masters(), es, before);
    err := if ok then Ok else ErrTrunc;
  }

  lemma EntriesParts(b: seq<Byte>, id: StreamId, es: seq<LiveEntry>)
    ensures match ListPackRead.LpInit(b)
      case Refused => EntriesIn(b, id) == (Ok, [])
      case Overrun => EntriesIn(b, id) == (OutOfBounds, [])
      case Opened(pack) =>
        |pack.mem| >= ListPack.LP_HEADER
        && (match Stream.HeaderOf(pack.mem)
            case None => EntriesIn(b, id) == (ErrHdr, [])
            case Some(h) =>
              Inside(pack.mem, ListPack.LP_HEADER, h.1) && AllInside(pack.mem, ListPack.LP_HEADER, h.0.master)
              && var r := Live(pack.mem, id, h.1, h.0.master, h.0.items);
                 EntriesIn(b, id) == (if r.0 then Ok else ErrTrunc, r.1))
    ensures es + [] == es
  {
    hide Live, Stream.HeaderOf, Inside, AllInside;
  }

  lemma TraceParts(b: seq<Byte>, l: Life)
    ensures match ListPackRead.LpInit(b)
      case Refused => RunBlocks(l, TraceIn(b)) == l
      case Overrun => RunBlocks(l, TraceIn(b)) == l
      case Opened(pack) =>
        |pack.mem| >= ListPack.LP_HEADER
        && var c := Stream.Counts(pack.mem);
           (match Stream.HeaderOf(pack.mem)
            case None => RunBlocks(l, TraceIn(b)) == (if c.None? then l else Headed(l, c.value.2))
            case Some(h) =>
              Inside(pack.mem, ListPack.LP_HEADER, h.1) && c.Some? && c.value.2 == |h.0.master|
              && RunBlocks(l, TraceIn(b))
                 == RunKinds(Headed(l, c.value.2), |h.0.master|, Kinds(pack.mem, h.1, h.0.master, h.0.items)))
  {
    hide Kinds, Inside, AllInside, Stream.HeaderOf, Stream.Counts, Headed;
    var p := ListPackRead.LpInit(b);
    if p.Opened? {
      CountsFirst(p.pack.mem);
      assert |TraceIn(b)| <= 1;
      OneBlock(l, TraceIn(b));
    }
  }

  lemma OneBlock(l: Life, bs: seq<BlockLife>)
    requires |bs| <= 1
    ensures RunBlocks(l, bs) == if bs == [] then l else RunKinds(Headed(l, bs[0].count), bs[0].count, bs[0].kinds)
  {
    hide RunKinds, Headed;
  }

  /** The header counts its master fields. */
  lemma CountsFirst(mem: seq<Byte>)
    requires |mem| >= ListPack.LP_HEADER
    ensures Stream.HeaderOf(mem).Some? ==>
      Stream.Counts(mem).Some? && Stream.Counts(mem).value.2 == |Stream.HeaderOf(mem).value.0.master|
  {
    hide Stream.Take, ListPackRead.LpNext, Unsigned;
  }

  lemma HeadedFault(l: Life, mem: seq<Byte>)
    requires |mem| >= ListPack.LP_HEADER
    ensures Stream.Counts(mem).Some? ==> Headed(l, Stream.Counts(mem).value.2).fault == l.fault
  {
    hide Stream.Counts;
  }

  method DecodeBlock(bptr: RdbBufptr, entry: StreamArena.RdbStreamEntry, out: Output, num: nat,
                     ghost es: seq<LiveEntry>, ghost before: seq<Event>)
    returns (err: Status, num': nat, ghost es': seq<LiveEntry>)
    requires bptr.Valid() && entry.Valid() && !entry.fault && num == |es| && out.events == before + Opened(es)
    modifies bptr, entry, entry.tmp, out`events
    ensures bptr.Valid() && (old(bptr.Located()) ==> bptr.Located()) && entry.Valid()
    ensures var l := RunBlocks(old(entry.LifeOf()), TraceOf(old(bptr.View()), bptr.lzf));
      if entry.fault then err != Ok && l.fault else entry.LifeOf() == l
    ensures !entry.fault ==>
      (var r := Block(old(bptr.View()), bptr.lzf);
       err == r.0 && es' == es + r.1 && bptr.View() == r.2 && num' == |es'| && out.events == before + Opened(es'))
  {
    hide Blob, EntriesIn, Opened, FromBe, RunBlocks, TraceIn, StreamArena.RdbStreamEntry.Valid,
      StreamArena.RdbStreamEntry.LifeOf;
    num', es' := num, es;
    NoBlocks(entry.LifeOf());
    var k, b;
    err, k := DecodeBlob(bptr);
    if err != Ok {
      return;
    }
    if |k| < 16 {
      return OutOfBounds, num', es';
    }
    var id := IdAt(k);
    err, b := DecodeBlob(bptr);
    if err != Ok {
      return;
    }
    err, num', es' := ReadBlock(b, entry, out, id, num, es, before);
  }

  lemma NoBlocks(l: Life)
    ensures RunBlocks(l, []) == l
  {}

  lemma BlocksStep(c: Cursor, lzf: Inflater, n: nat, es: seq<LiveEntry>)
    requires n > 0
    ensures var x, all := Block(c, lzf), Blocks(c, lzf, n);
      if x.0 != Ok then all == x
      else
        var rest := Blocks(x.2, lzf, n - 1);
        all.0 == rest.0 && all.2 == rest.2 && es + all.1 == (es + x.1) + rest.1
  {
    hide Block;
  }

  /** What the blocks do to the memory, one block further on. */
  lemma TraceStep(l: Life, c: Cursor, lzf: Inflater, n: nat)
    requires n > 0
    ensures var x, l' := Block(c, lzf), RunBlocks(l, TraceOf(c, lzf));
      RunBlocks(l, Trace(c, lzf, n)) == (if x.0 != Ok then l' else RunBlocks(l', Trace(x.2, lzf, n - 1)))
    ensures RunBlocks(l, TraceOf(c, lzf)).fault ==> RunBlocks(l, Trace(c, lzf, n)).fault
  {
    hide Block, TraceOf, RunBlocks;
    var rest := if Block(c, lzf).0 != Ok then [] else Trace(Block(c, lzf).2, lzf, n - 1);
    NoBlocks(RunBlocks(l, TraceOf(c, lzf)));
    BlocksConcat(l, TraceOf(c, lzf), rest);
    BlocksFault(RunBlocks(l, TraceOf(c, lzf)), rest);
  }

  lemma BlocksNone(c: Cursor, lzf: Inflater)
    ensures Blocks(c, lzf, 0) == (Ok, [], c) && Trace(c, lzf, 0) == []
  {}

  method DecodeBlocks(bptr: RdbBufptr, entry: StreamArena.RdbStreamEntry, out: Output, n: nat)
    returns (err: Status, num: nat)
    requires bptr.Valid() && entry.Valid() && !entry.fault
    modifies bptr, entry, entry.tmp, out`events
    ensures bptr.Valid() && (old(bptr.Located()) ==> bptr.Located()) && entry.Valid()
    ensures var l := RunBlocks(old(entry.LifeOf()), Trace(old(bptr.View()), bptr.lzf, n));
      if entry.fault then err != Ok && l.fault else entry.LifeOf() == l
    ensures !entry.fault ==>
      (var r := Blocks(old(bptr.View()), bptr.lzf, n);
       err == r.0 && num == |r.1| && bptr.View() == r.2 && out.events == old(out.events) + Opened(r.1))
  {
    hide Block, Blocks, Opened, TraceOf, Trace, RunBlocks, StreamArena.RdbStreamEntry.Valid,
      StreamArena.RdbStreamEntry.LifeOf;
    ghost var c, lzf, before, es := bptr.View(), bptr.lzf, out.events, [];
    ghost var l0 := entry.LifeOf();
    num := 0;
    NoneOpened();
    var cnt := n;
    while cnt > 0
      invariant 0 <= cnt <= n && bptr.Valid() && (old(bptr.Located()) ==> bptr.Located())
      invariant entry.Valid() && !entry.fault
      invariant RunBlocks(l0, Trace(c, lzf, n)) == RunBlocks(entry.LifeOf(), Trace(bptr.View(), lzf, cnt))
      invariant var r, all := Blocks(bptr.View(), lzf, cnt), Blocks(c, lzf, n);
        all.0 == r.0 && all.2 == r.2 && all.1 == es + r.1
      invariant num == |es| && out.events == before + Opened(es)
    {
      BlocksStep(bptr.View(), lzf, cnt, es);
      TraceStep(entry.LifeOf(), bptr.View(), lzf, cnt);
      err, num, es := DecodeBlock(bptr, entry, out, num, es, before);
      if err != Ok {
        return;
      }
      cnt := cnt - 1;
    }
    BlocksNone(bptr.View(), lzf);
    NoBlocks(entry.LifeOf());
    assert es + [] == es;
    err := Ok;
  }

  lemma NoneOpened()
    ensures Opened([]) == []
  {}

  // ----- what is known about the stream

  lemma LensStep(c: Cursor, n: nat)
    requires n > 0
    ensures var x := DecodeLen(c, ZERO);
      if x.0 != Ok then Lens(c, n).0 == x.0 && Lens(c, n).2 == x.2
      else
        var rest := Lens(x.2, n - 1);
        Lens(c, n) == (rest.0, [x.1.len] + rest.1, rest.2)
  {
    hide DecodeLen;
  }

  lemma LensNone(c: Cursor)
    ensures Lens(c, 0) == (Ok, [], c)
  {}

  /** Two lengths, such as the parts of an id. */
  method DecodeTwo(bptr: RdbBufptr) returns (err: Status, a: nat, b: nat)
    requires bptr.Valid()
    modifies bptr
    ensures bptr.Valid() && (old(bptr.Located()) ==> bptr.Located())
    ensures err == Lens(old(bptr.View()), 2).0 && bptr.View() == Lens(old(bptr.View()), 2).2
    ensures err == Ok ==> [a, b] == Lens(old(bptr.View()), 2).1
  {
    hide DecodeLen, Lens;
    a, b := 0, 0;
    var ms := new RdbLength();
    var ser := new RdbLength();
    LensStep(bptr.View(), 2);
    err := bptr.Decode(ms);
    if err != Ok {
      return;
    }
    LensStep(bptr.View(), 1);
    err := bptr.Decode(ser);
    if err != Ok {
      return;
    }
    LensNone(bptr.View());
    a, b := ms.len, ser.len;
    assert [a] + ([b] + []) == [a, b];
  }

  lemma {:induction false} LensConcat(c: Cursor, m: nat, n: nat)
    ensures var x := Lens(c, m); var y := Lens(x.2, n); var all := Lens(c, m + n);
      if x.0 != Ok then all.0 == x.0 && all.2 == x.2 else all.0 == y.0 && all.2 == y.2
    decreases m
  {
    hide DecodeLen;
    if m > 0 {
      LensConcat(DecodeLen(c, ZERO).2, m - 1, n);
    }
  }

  /** The lengths of the second format; the element count is decoded over the first one. */
  method DecodeRecount(bptr: RdbBufptr, num: RdbLength, v2: bool) returns (err: Status)
    requires bptr.Valid()
    modifies bptr, num
    ensures bptr.Valid() && (old(bptr.Located()) ==> bptr.Located())
    ensures var r := Recount(old(bptr.View()), v2, old(num.View()));
      err == r.0 && bptr.View() == r.2 && (err == Ok ==> num.len == r.1)
  {
    hide DecodeLen, Lens;
    if v2 {
      LensConcat(bptr.View(), 2, 2);
      var a, b;
      err, a, b := DecodeTwo(bptr); // first
      if err != Ok {
        return;
      }
      err, a, b := DecodeTwo(bptr); // max deleted
      if err != Ok {
        return;
      }
      err := bptr.Decode(num);
      return;
    }
    return Ok;
  }

  method DecodeInfo(bptr: RdbBufptr, v2: bool) returns (err: Status, info: Info)
    requires bptr.Valid()
    modifies bptr
    ensures bptr.Valid() && (old(bptr.Located()) ==> bptr.Located())
    ensures var r := InfoOf(old(bptr.View()), v2);
      err == r.0 && bptr.View() == r.2 && (err == Ok ==> r.1 == [info])
  {
    hide DecodeLen, Lens, Recount;
    info := Info(StreamId(0, 0), 0, 0);
    var num := new RdbLength();
    var groups := new RdbLength();
    err := bptr.Decode(num);
    if err != Ok {
      return;
    }
    var ms, ser;
    err, ms, ser := DecodeTwo(bptr);
    if err != Ok {
      return;
    }
    err := DecodeRecount(bptr, num, v2);
    if err != Ok {
      return;
    }
    LensStep(bptr.View(), 1);
    err := bptr.Decode(groups);
    if err != Ok {
      return;
    }
    LensNone(bptr.View());
    info := Info(StreamId(ms, ser), num.len, groups.len);
  }

  // ----- pending entries

  method DecodePend(bptr: RdbBufptr) returns (err: Status, p: Pend)
    requires bptr.Valid()
    modifies bptr
    ensures bptr.Valid() && (old(bptr.Located()) ==> bptr.Located())
    ensures var r := PendOf(old(bptr.View()));
      err == r.0 && bptr.View() == r.2 && r.1 == (if err == Ok then [p] else [])
  {
    hide DecodeLen, Incr, FromBe, FromLe;
    p := Pend(StreamId(0, 0), 0, 0);
    var id := bptr.IncrBy(16);
    if id.None? {
      return ErrTrunc, p;
    }
    IncrSize(old(bptr.View()), 16);
    var last := bptr.IncrBy(8);
    if last.None? {
      return ErrTrunc, p;
    }
    var deliv := new RdbLength();
    err := bptr.Decode(deliv);
    if err != Ok {
      return;
    }
    p := Pend(StreamId(FromBe(id.value[..8]), FromBe(id.value[8..])), FromLe(last.value), deliv.len);
  }

  /** A list that is not closed. */
  lemma WrappedOpen(part: StreamPart, cnt: nat, body: seq<Event>, before: seq<Event>)
    requires cnt != 0
    ensures before + [StreamStart(part)] + body == before + Wrapped(part, cnt, false, body)
  {}

  lemma IncrSize(c: Cursor, n: nat)
    ensures Incr(c, n).Some? ==> |Incr(c, n).value.0| == n
  {}

  lemma PendsStep(c: Cursor, n: nat, ps: seq<Pend>)
    requires n > 0
    ensures var x, all := PendOf(c), Pends(c, n);
      if x.0 != Ok then all == x
      else
        var rest := Pends(x.2, n - 1);
        all.0 == rest.0 && all.2 == rest.2 && ps + all.1 == (ps + x.1) + rest.1
  {
    hide PendOf;
  }

  lemma PendsNone(c: Cursor)
    ensures Pends(c, 0) == (Ok, [], c)
  {}

  lemma PendEventsMore(ps: seq<Pend>, p: Pend)
    ensures PendEvents(ps + [p]) == PendEvents(ps) + [StreamPend(|ps|, p.id, p.lastDelivery, p.deliveryCnt)]
    ensures PendEvents([]) == []
  {}

  lemma PendError(c: Cursor)
    ensures PendOf(c).0 != Ok ==> PendOf(c).1 == []
  {
    hide DecodeLen, Incr, FromBe, FromLe;
  }

  method DecodePends(bptr: RdbBufptr, out: Output, cnt: nat) returns (err: Status)
    requires bptr.Valid()
    modifies bptr, out`events
    ensures bptr.Valid() && (old(bptr.Located()) ==> bptr.Located())
    ensures var r := Pends(old(bptr.View()), cnt);
      err == r.0 && bptr.View() == r.2
      && out.events == old(out.events) + Wrapped(PendingList, cnt, err == Ok, PendEvents(r.1))
  {
    hide PendOf, Pends, PendEvents;
    if cnt != 0 {
      out.Value(StreamStart(PendingList));
    }
    ghost var c, before, ps: seq<Pend> := bptr.View(), out.events, [];
    PendEventsMore([], Pend(StreamId(0, 0), 0, 0));
    var num := 0;
    while num < cnt
      invariant 0 <= num <= cnt && num == |ps| && bptr.Valid() && (old(bptr.Located()) ==> bptr.Located())
      invariant var r, all := Pends(bptr.View(), cnt - num), Pends(c, cnt);
        all.0 == r.0 && all.2 == r.2 && all.1 == ps + r.1
      invariant out.events == before + PendEvents(ps)
    {
      var p;
      PendsStep(bptr.View(), cnt - num, ps);
      PendError(bptr.View());
      err, p := DecodePend(bptr);
      if err != Ok {
        assert ps + [] == ps;
        WrappedOpen(PendingList, cnt, PendEvents(ps), old(out.events));
        return;
      }
      out.Value(StreamPend(num, p.id, p.lastDelivery, p.deliveryCnt));
      PendEventsMore(ps, p);
      ps := ps + [p];
      num := num + 1;
    }
    PendsNone(bptr.View());
    assert ps + [] == ps;
    if cnt != 0 {
      out.Value(StreamEnd(PendingList));
    }
    err := Ok;
  }

  // ----- consumers

  lemma IdsStep(c: Cursor, n: nat, ids: seq<StreamId>)
    requires n > 0
    ensures match Incr(c, 16)
      case None => Ids(c, n) == (ErrTrunc, [], c)
      case Some(x) =>
        |x.0| == 16
        && var rest, all := Ids(x.1, n - 1), Ids(c, n);
           all.0 == rest.0 && all.2 == rest.2
           && ids + all.1 == (ids + [StreamId(FromBe(x.0[..8]), FromBe(x.0[8..]))]) + rest.1
  {
    hide FromBe;
    IncrSize(c, 16);
  }

  lemma IdsNone(c: Cursor)
    ensures Ids(c, 0) == (Ok, [], c)
  {}

  lemma IdEventsMore(ids: seq<StreamId>, id: StreamId)
    ensures IdEvents(ids + [id]) == IdEvents(ids) + [StreamConsPend(|ids|, id)]
    ensures IdEvents([]) == []
  {}

  method DecodeIds(bptr: RdbBufptr, out: Output, cnt: nat) returns (err: Status)
    requires bptr.Valid()
    modifies bptr, out`events
    ensures bptr.Valid() && (old(bptr.Located()) ==> bptr.Located())
    ensures var r := Ids(old(bptr.View()), cnt);
      err == r.0 && bptr.View() == r.2
      && out.events == old(out.events) + Wrapped(ConsumerPendingList, cnt, err == Ok, IdEvents(r.1))
  {
    hide Incr, Ids, IdEvents, FromBe;
    if cnt != 0 {
      out.Value(StreamStart(ConsumerPendingList));
    }
    ghost var c, before, ids := bptr.View(), out.events, [];
    IdEventsMore([], StreamId(0, 0));
    var num := 0;
    while num < cnt
      invariant 0 <= num <= cnt && num == |ids| && bptr.Valid() && (old(bptr.Located()) ==> bptr.Located())
      invariant var r, all := Ids(bptr.View(), cnt - num), Ids(c, cnt);
        all.0 == r.0 && all.2 == r.2 && all.1 == ids + r.1
      invariant out.events == before + IdEvents(ids)
    {
      IdsStep(bptr.View(), cnt - num, ids);
      var b := bptr.IncrBy(16);
      if b.None? {
        assert ids + [] == ids;
        WrappedOpen(ConsumerPendingList, cnt, IdEvents(ids), old(out.events));
        return ErrTrunc;
      }
      var id := StreamId(FromBe(b.value[..8]), FromBe(b.value[8..]));
      out.Value(StreamConsPend(num, id));
      IdEventsMore(ids, id);
      ids := ids + [id];
      num := num + 1;
    }
    IdsNone(bptr.View());
    assert ids + [] == ids;
    if cnt != 0 {
      out.Value(StreamEnd(ConsumerPendingList));
    }
    err := Ok;
  }

  method DecodeConsHead(bptr: RdbBufptr) returns (e: Ended, h: ConsHead)
    requires bptr.Valid()
    modifies bptr
    ensures bptr.Valid() && (old(bptr.Located()) ==> bptr.Located())
    ensures var r := ConsHeadOf(old(bptr.View()), bptr.lzf);
      e == r.0 && bptr.View() == r.2 && (e == Done ==> r.1 == [h])
  {
    hide Blob, Incr, DecodeLen, FromLe;
    h := ConsHead([], 0, 0);
    var err, name := DecodeBlob(bptr);
    if err != Ok {
      return Early, h;
    }
    var seen := bptr.IncrBy(8);
    if seen.None? {
      return Fail(ErrTrunc), h;
    }
    var cpend := new RdbLength();
    err := bptr.Decode(cpend);
    if err != Ok {
      return Fail(err), h;
    }
    return Done, ConsHead(name, cpend.len, FromLe(seen.value));
  }

  method DecodeConsumer(bptr: RdbBufptr, out: Output, num: nat) returns (e: Ended)
    requires bptr.Valid()
    modifies bptr, out`events
    ensures bptr.Valid() && (old(bptr.Located()) ==> bptr.Located())
    ensures var r := ConsumerRun(old(bptr.View()), bptr.lzf, num);
      e == r.0 && bptr.View() == r.2 && out.events == old(out.events) + r.1
  {
    hide ConsHeadOf, Ids, Wrapped, IdEvents;
    var h;
    e, h := DecodeConsHead(bptr);
    if e != Done {
      return;
    }
    out.Value(StreamCons(num, h.name, h.pendCnt, h.lastSeen));
    var err := DecodeIds(bptr, out, h.pendCnt);
    if err != Ok {
      return Fail(err);
    }
    out.Value(StreamEnd(Consumer));
    return Done;
  }

  lemma ConsumersStep(c: Cursor, lzf: Inflater, n: nat, num: nat, es: seq<Event>)
    requires n > 0
    ensures var x, all := ConsumerRun(c, lzf, num), ConsumersRun(c, lzf, n, num);
      if x.0 != Done then all == x
      else
        var rest := ConsumersRun(x.2, lzf, n - 1, num + 1);
        all.0 == rest.0 && all.2 == rest.2 && es + all.1 == (es + x.1) + rest.1
  {
    hide ConsumerRun;
  }

  lemma ConsumersNone(c: Cursor, lzf: Inflater, num: nat)
    ensures ConsumersRun(c, lzf, 0, num) == (Done, [], c)
  {}

  method DecodeConsumers(bptr: RdbBufptr, out: Output, cnt: nat) returns (e: Ended)
    requires bptr.Valid()
    modifies bptr, out`events
    ensures bptr.Valid() && (old(bptr.Located()) ==> bptr.Located())
    ensures var r := ConsumersRun(old(bptr.View()), bptr.lzf, cnt, 0);
      e == r.0 && bptr.View() == r.2
      && out.events == old(out.events) + Wrapped(ConsumerList, cnt, e == Done, r.1)
  {
    hide ConsumerRun, ConsumersRun;
    if cnt != 0 {
      out.Value(StreamStart(ConsumerList));
    }
    ghost var c, lzf, before, es := bptr.View(), bptr.lzf, out.events, [];
    var num := 0;
    while num < cnt
      invariant 0 <= num <= cnt && bptr.Valid() && (old(bptr.Located()) ==> bptr.Located())
      invariant var r, all := ConsumersRun(bptr.View(), lzf, cnt - num, num), ConsumersRun(c, lzf, cnt, 0);
        all.0 == r.0 && all.2 == r.2 && all.1 == es + r.1
      invariant out.events == before + es
    {
      ConsumersStep(bptr.View(), lzf, cnt - num, num, es);
      ghost var shown := ConsumerRun(bptr.View(), lzf, num).1;
      e := DecodeConsumer(bptr, out, num);
      if e != Done {
        return;
      }
      es := es + shown;
      num := num + 1;
    }
    ConsumersNone(bptr.View(), lzf, num);
    if cnt != 0 {
      out.Value(StreamEnd(ConsumerList));
    }
    e := Done;
  }

  // ----- groups

  method DecodeGroupHead(bptr: RdbBufptr, v2: bool, off: RdbLength) returns (e: Ended, h: GroupHead)
    requires bptr.Valid()
    modifies bptr, off
    ensures bptr.Valid() && (old(bptr.Located()) ==> bptr.Located())
    ensures var r := GroupHeadOf(old(bptr.View()), bptr.lzf, v2, old(off.View()));
      e == r.0 && bptr.View() == r.2 && off.View() == r.3 && (e == Done ==> r.1 == [h])
  {
    hide Blob, Lens, DecodeLen;
    h := GroupHead([], StreamId(0, 0), 0);
    var err, name := DecodeBlob(bptr);
    if err != Ok {
      return Early, h;
    }
    var ms, ser;
    err, ms, ser := DecodeTwo(bptr);
    if err != Ok {
      return Fail(err), h;
    }
    if v2 {
      err := bptr.Decode(off);
      if err != Ok {
        return Fail(err), h;
      }
    }
    var pend := new RdbLength();
    err := bptr.Decode(pend);
    if err != Ok {
      return Fail(err), h;
    }
    return Done, GroupHead(name, StreamId(ms, ser), pend.len);
  }

  method DecodeGroupRest(bptr: RdbBufptr, out: Output, pendingCnt: nat) returns (e: Ended)
    requires bptr.Valid()
    modifies bptr, out`events
    ensures bptr.Valid() && (old(bptr.Located()) ==> bptr.Located())
    ensures var r := GroupRest(old(bptr.View()), bptr.lzf, pendingCnt);
      e == r.0 && bptr.View() == r.2 && out.events == old(out.events) + r.1
  {
    hide Pends, DecodeLen, ConsumersRun, Wrapped, PendEvents;
    var err := DecodePends(bptr, out, pendingCnt);
    if err != Ok {
      return Fail(err);
    }
    var cnt := new RdbLength();
    err := bptr.Decode(cnt);
    if err != Ok {
      return Fail(err);
    }
    e := DecodeConsumers(bptr, out, cnt.len);
  }

  lemma GroupsStep(c: Cursor, lzf: Inflater, v2: bool, n: nat, num: nat, off: Length, es: seq<Event>)
    requires n > 0
    ensures var h, all := GroupHeadOf(c, lzf, v2, off), GroupsRun(c, lzf, v2, n, num, off);
      if h.0 != Done then all == (h.0, [], h.2)
      else
        var head := h.1[0];
        var x := GroupRest(h.2, lzf, head.pendingCnt);
        var shown := [StreamGroup(num, head.name, head.last, head.pendingCnt)] + x.1;
        if x.0 != Done then all == (x.0, shown, x.2)
        else
          var rest := GroupsRun(x.2, lzf, v2, n - 1, num + 1, h.3);
          all.0 == rest.0 && all.2 == rest.2 && es + all.1 == (es + (shown + [StreamEnd(Group)])) + rest.1
  {
    hide GroupHeadOf, GroupRest;
  }

  lemma GroupsNone(c: Cursor, lzf: Inflater, v2: bool, num: nat, off: Length)
    ensures GroupsRun(c, lzf, v2, 0, num, off) == (Done, [], c)
  {}

  /** One group; the callbacks that it makes. */
  method DecodeGroup(bptr: RdbBufptr, out: Output, v2: bool, num: nat, off: RdbLength)
    returns (e: Ended, ghost shown: seq<Event>)
    requires bptr.Valid()
    modifies bptr, off, out`events
    ensures bptr.Valid() && (old(bptr.Located()) ==> bptr.Located())
    ensures out.events == old(out.events) + shown
    ensures var h := GroupHeadOf(old(bptr.View()), bptr.lzf, v2, old(off.View()));
      if h.0 != Done then e == h.0 && shown == [] && bptr.View() == h.2
      else
        var head := h.1[0];
        var x := GroupRest(h.2, bptr.lzf, head.pendingCnt);
        e == x.0 && bptr.View() == x.2 && off.View() == h.3
        && shown == [StreamGroup(num, head.name, head.last, head.pendingCnt)] + x.1
                    + (if e == Done then [StreamEnd(Group)] else [])
  {
    hide GroupHeadOf, GroupRest;
    shown := [];
    var h;
    e, h := DecodeGroupHead(bptr, v2, off);
    if e != Done {
      return;
    }
    ghost var x := GroupRest(bptr.View(), bptr.lzf, h.pendingCnt);
    out.Value(StreamGroup(num, h.name, h.last, h.pendingCnt));
    e := DecodeGroupRest(bptr, out, h.pendingCnt);
    shown := [StreamGroup(num, h.name, h.last, h.pendingCnt)] + x.1;
    if e == Done {
      out.Value(StreamEnd(Group));
      shown := shown + [StreamEnd(Group)];
    }
  }

  /** The loop over the groups. */
  method DecodeGroupList(bptr: RdbBufptr, out: Output, v2: bool, cnt: nat, off: RdbLength) returns (e: Ended)
    requires bptr.Valid()
    modifies bptr, out`events, off
    ensures bptr.Valid() && (old(bptr.Located()) ==> bptr.Located())
    ensures var r := GroupsRun(old(bptr.View()), bptr.lzf, v2, cnt, 0, old(off.View()));
      e == r.0 && bptr.View() == r.2 && out.events == old(out.events) + r.1
  {
    hide GroupHeadOf, GroupRest, GroupsRun;
    ghost var c, lzf, before, es, first := bptr.View(), bptr.lzf, out.events, [], off.View();
    var num := 0;
    while num < cnt
      invariant 0 <= num <= cnt && bptr.Valid() && (old(bptr.Located()) ==> bptr.Located())
      invariant var r, all := GroupsRun(bptr.View(), lzf, v2, cnt - num, num, off.View()), GroupsRun(c, lzf, v2, cnt, 0, first);
        all.0 == r.0 && all.2 == r.2 && all.1 == es + r.1
      invariant out.events == before + es
    {
      GroupsStep(bptr.View(), lzf, v2, cnt - num, num, off.View(), es);
      ghost var shown;
      e, shown := DecodeGroup(bptr, out, v2, num, off);
      if e != Done {
        return;
      }
      es := es + shown;
      num := num + 1;
    }
    GroupsNone(bptr.View(), lzf, v2, num, off.View());
    e := Done;
  }

  method DecodeGroups(bptr: RdbBufptr, out: Output, v2: bool, cnt: nat) returns (e: Ended)
    requires bptr.Valid()
    modifies bptr, out`events
    ensures bptr.Valid() && (old(bptr.Located()) ==> bptr.Located())
    ensures var r := GroupsRun(old(bptr.View()), bptr.lzf, v2, cnt, 0, ZERO);
      e == r.0 && bptr.View() == r.2
      && out.events == old(out.events) + Wrapped(GroupList, cnt, e == Done, r.1)
  {
    hide GroupsRun;
    if cnt != 0 {
      out.Value(StreamStart(GroupList));
    }
    var off := new RdbLength();
    e := DecodeGroupList(bptr, out, v2, cnt, off);
    if cnt != 0 && e == Done {
      out.Value(StreamEnd(GroupList));
    }
  }

  method DecodeAfterBlocks(bptr: RdbBufptr, out: Output, v2: bool) returns (e: Ended)
    requires bptr.Valid()
    modifies bptr, out`events
    ensures bptr.Valid() && (old(bptr.Located()) ==> bptr.Located())
    ensures var r := AfterBlocks(old(bptr.View()), bptr.lzf, v2);
      e == r.0 && bptr.View() == r.2 && out.events == old(out.events) + r.1
  {
    hide InfoOf, GroupsRun, Wrapped;
    var err, info := DecodeInfo(bptr, v2);
    if err != Ok {
      return Fail(err);
    }
    out.Value(StreamInfo(info.last, info.numElems, info.numCgroups));
    e := DecodeGroups(bptr, out, v2, info.numCgroups);
  }

  lemma WrappedEntries(es: seq<LiveEntry>, done: bool)
    ensures Wrapped(EntryList, |es|, done, EntryEvents(es))
         == Opened(es) + (if done && |es| != 0 then [StreamEnd(EntryList)] else [])
  {}

  /** The body of decode_stream. */
  method DecodeIntact(bptr: RdbBufptr, entry: StreamArena.RdbStreamEntry, out: Output, v2: bool, n: nat)
    returns (e: Ended)
    requires bptr.Valid() && entry.Valid() && !entry.fault
    modifies bptr, entry, entry.tmp, out`events
    ensures bptr.Valid() && (old(bptr.Located()) ==> bptr.Located()) && entry.Valid()
    ensures var l := RunBlocks(old(entry.LifeOf()), Trace(old(bptr.View()), bptr.lzf, n));
      if entry.fault then l.fault else entry.LifeOf() == l
    ensures !entry.fault ==>
      (var r := IntactRun(old(bptr.View()), bptr.lzf, v2, n);
       e == r.0 && bptr.View() == r.2 && out.events == old(out.events) + r.1)
  {
    hide Blocks, AfterBlocks, EntryEvents, Wrapped, Opened, Trace, RunBlocks, StreamArena.RdbStreamEntry.Valid,
      StreamArena.RdbStreamEntry.LifeOf;
    ghost var es := Blocks(bptr.View(), bptr.lzf, n).1;
    var err, num := DecodeBlocks(bptr, entry, out, n);
    WrappedEntries(es, err == Ok);
    if err != Ok {
      return Fail(err);
    }
    if num != 0 {
      out.Value(StreamEnd(EntryList));
    }
    e := DecodeAfterBlocks(bptr, out, v2);
  }

  /** decode_stream between d_start_key and d_end_key, and the destructor of its entry. */
  method DecodeStream(bptr: RdbBufptr, out: Output, v2: bool, n: nat) returns (e: Ended)
    requires bptr.Valid()
    modifies bptr, out`events
    ensures bptr.Valid() && (old(bptr.Located()) ==> bptr.Located())
    ensures var r := StreamRun(old(bptr.View()), bptr.lzf, v2, n);
      e == r.0 && (e != Released ==> bptr.View() == r.2 && out.events == old(out.events) + r.1)
  {
    hide IntactRun, Trace, RunBlocks;
    ghost var c := bptr.View();
    NeverReleased(c, bptr.lzf, v2, n);
    var entry := new StreamArena.RdbStreamEntry();
    e := DecodeIntact(bptr, entry, out, v2, n);
    entry.Destroy();
    if entry.fault {
      e := Released;
    }
  }
}
