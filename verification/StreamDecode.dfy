/** decode_stream (src/rdb_decode.cpp:969-1144) on the cursor: blocks of entries, then what is known
    about the stream, its groups, their pending entries and their consumers. */
module StreamDecode {
  import opened Bytes
  import opened LengthCodec
  import opened Bufptr
  import opened ListValue
  import opened Events
  import opened Values
  import ListPack
  import ListPackRead
  import Stream
  import StreamLife

  /** How a decoder ends. Early is an error in the name of a group or consumer, which decode_stream
      reports as success without closing what it has opened. Released is not in the source: memory that is
      not allocated was read or given back, and nothing can be said about the run. */
  datatype Ended = Done | Early | Released | Fail(err: Status)

  // ----- entries

  datatype LiveEntry = LiveEntry(id: StreamId, fields: seq<(Elem, Elem)>)

  function Added(a: nat, b: nat): nat { (a + b) % TWO64 }

  function FieldPairs(mem: seq<Byte>, fields: seq<Lval>, values: seq<Lval>): seq<(Elem, Elem)>
    requires |fields| == |values|
    requires AllInside(mem, ListPack.LP_HEADER, fields) && AllInside(mem, ListPack.LP_HEADER, values)
  {
    seq(|fields|, i requires 0 <= i < |fields| => (ElemAt(mem, fields[i]), ElemAt(mem, values[i])))
  }

  /** n entries of a block, without those that are flagged as deleted. */
  function Live(mem: seq<Byte>, id: StreamId, v: Lval, master: seq<Lval>, n: nat): (bool, seq<LiveEntry>)
    requires Inside(mem, ListPack.LP_HEADER, v) && AllInside(mem, ListPack.LP_HEADER, master)
    decreases n
  {
    if n == 0 then (true, [])
    else
      match Stream.RecordOf(mem, v, master)
      case None => (false, [])
      case Some(first) =>
        Stream.RecordInside(mem, v, master);
        var rec := first.0;
        var rest := Live(mem, id, first.1, master, n - 1);
        if Stream.Deleted(rec.flags) then rest
        else
          (rest.0, [LiveEntry(StreamId(Added(id.ms, rec.ms), Added(id.ser, rec.ser)),
                              FieldPairs(mem, rec.fields, rec.values))] + rest.1)
  }

  /** The entries in the listpack of a block; one that is no listpack is passed over. */
  function EntriesIn(b: seq<Byte>, id: StreamId): (Status, seq<LiveEntry>) {
    match ListPackRead.LpInit(b)
    case Refused => (Ok, [])
    case Overrun => (OutOfBounds, [])
    case Opened(pack) =>
      match Stream.HeaderOf(pack.mem)
      case None => (ErrHdr, [])
      case Some(h) =>
        var r := Live(pack.mem, id, h.1, h.0.master, h.0.items);
        (if r.0 then Ok else ErrTrunc, r.1)
  }

  function IdAt(b: seq<Byte>): StreamId
    requires |b| >= 16
  {
    StreamId(FromBe(b[..8]), FromBe(b[8..16]))
  }

  type Entries = (Status, seq<LiveEntry>, Cursor)

  /** A stream key, and a listpack of entries whose ids count from it. */
  function Block(c: Cursor, lzf: Inflater): Entries {
    var k := Blob(c, lzf);
    if k.0 != Ok then (k.0, [], k.2)
    else if |k.1| < 16 then (OutOfBounds, [], k.2)
    else
      var lp := Blob(k.2, lzf);
      if lp.0 != Ok then (lp.0, [], lp.2)
      else
        var r := EntriesIn(lp.1, IdAt(k.1));
        (r.0, r.1, lp.2)
  }

  function Blocks(c: Cursor, lzf: Inflater, n: nat): Entries
    decreases n
  {
    if n == 0 then (Ok, [], c)
    else
      var x := Block(c, lzf);
      if x.0 != Ok then x
      else
        var rest := Blocks(x.2, lzf, n - 1);
        (rest.0, x.1 + rest.1, rest.2)
  }

  // ----- what the entries do to the memory

  function TraceOf(c: Cursor, lzf: Inflater): seq<StreamLife.BlockLife> {
    var k := Blob(c, lzf);
    if k.0 != Ok || |k.1| < 16 then []
    else
      var lp := Blob(k.2, lzf);
      if lp.0 != Ok then [] else StreamLife.TraceIn(lp.1)
  }

  /** The blocks whose headers are read. */
  function Trace(c: Cursor, lzf: Inflater, n: nat): seq<StreamLife.BlockLife>
    decreases n
  {
    if n == 0 then []
    else
      var x := Block(c, lzf);
      TraceOf(c, lzf) + (if x.0 != Ok then [] else Trace(x.2, lzf, n - 1))
  }

  // ----- what is known about the stream

  /** n lengths one after the other. */
  function Lens(c: Cursor, n: nat): (r: (Status, seq<nat>, Cursor))
    ensures r.0 == Ok ==> |r.1| == n
    decreases n
  {
    if n == 0 then (Ok, [], c)
    else
      var x := DecodeLen(c, ZERO);
      if x.0 != Ok then (x.0, [], x.2)
      else
        var rest := Lens(x.2, n - 1);
        (rest.0, [x.1.len] + rest.1, rest.2)
  }

  datatype Info = Info(last: StreamId, numElems: nat, numCgroups: nat)

  /** The second format has four more lengths, and the element count a second time: it is decoded over
      the first one. */
  function InfoOf(c: Cursor, v2: bool): (r: (Status, seq<Info>, Cursor))
    ensures r.0 == Ok ==> |r.1| == 1
  {
    var num := DecodeLen(c, ZERO);
    if num.0 != Ok then (num.0, [], num.2)
    else
      var last := Lens(num.2, 2);
      if last.0 != Ok then (last.0, [], last.2)
      else
        var count := Recount(last.2, v2, num.1);
        if count.0 != Ok then (count.0, [], count.2)
        else
          var groups := Lens(count.2, 1);
          if groups.0 != Ok then (groups.0, [], groups.2)
          else (Ok, [Info(StreamId(last.1[0], last.1[1]), count.1, groups.1[0])], groups.2)
  }

  function Recount(c: Cursor, v2: bool, num: Length): (Status, nat, Cursor) {
    if !v2 then (Ok, num.len, c)
    else
      var more := Lens(c, 4);
      if more.0 != Ok then (more.0, 0, more.2)
      else
        var again := DecodeLen(more.2, num);
        (again.0, again.1.len, again.2)
  }

  // ----- groups and consumers

  datatype Pend = Pend(id: StreamId, lastDelivery: nat, deliveryCnt: nat)

  function PendOf(c: Cursor): (r: (Status, seq<Pend>, Cursor))
    ensures r.0 == Ok ==> |r.1| == 1
  {
    match Incr(c, 16)
    case None => (ErrTrunc, [], c)
    case Some(x) =>
      match Incr(x.1, 8)
      case None => (ErrTrunc, [], x.1)
      case Some(y) =>
        var d := DecodeLen(y.1, ZERO);
        if d.0 != Ok then (d.0, [], d.2)
        else (Ok, [Pend(StreamId(FromBe(x.0[..8]), FromBe(x.0[8..])), FromLe(y.0), d.1.len)], d.2)
  }

  function Pends(c: Cursor, n: nat): (r: (Status, seq<Pend>, Cursor))
    ensures r.0 == Ok ==> |r.1| == n
    decreases n
  {
    if n == 0 then (Ok, [], c)
    else
      var x := PendOf(c);
      if x.0 != Ok then x
      else
        var rest := Pends(x.2, n - 1);
        (rest.0, x.1 + rest.1, rest.2)
  }

  /** The pending list of a consumer. */
  function Ids(c: Cursor, n: nat): (r: (Status, seq<StreamId>, Cursor))
    ensures r.0 == Ok ==> |r.1| == n
    decreases n
  {
    if n == 0 then (Ok, [], c)
    else
      match Incr(c, 16)
      case None => (ErrTrunc, [], c)
      case Some(x) =>
        var rest := Ids(x.1, n - 1);
        (rest.0, [StreamId(FromBe(x.0[..8]), FromBe(x.0[8..]))] + rest.1, rest.2)
  }

  type Run = (Ended, seq<Event>, Cursor)

  /** A list of count parts: opened and closed only if it is not empty. */
  function Wrapped(part: StreamPart, count: nat, done: bool, body: seq<Event>): seq<Event> {
    (if count != 0 then [StreamStart(part)] else []) + body
    + (if done && count != 0 then [StreamEnd(part)] else [])
  }

  function PendEvents(ps: seq<Pend>): (r: seq<Event>)
    ensures |r| == |ps|
  {
    seq(|ps|, i requires 0 <= i < |ps| => StreamPend(i, ps[i].id, ps[i].lastDelivery, ps[i].deliveryCnt))
  }

  function IdEvents(ids: seq<StreamId>): (r: seq<Event>)
    ensures |r| == |ids|
  {
    seq(|ids|, i requires 0 <= i < |ids| => StreamConsPend(i, ids[i]))
  }

  datatype ConsHead = ConsHead(name: seq<Byte>, pendCnt: nat, lastSeen: nat)

  function ConsHeadOf(c: Cursor, lzf: Inflater): (r: (Ended, seq<ConsHead>, Cursor))
    ensures r.0 == Done ==> |r.1| == 1
  {
    var name := Blob(c, lzf);
    if name.0 != Ok then (Early, [], name.2)
    else
      match Incr(name.2, 8)
      case None => (Fail(ErrTrunc), [], name.2)
      case Some(x) =>
        var d := DecodeLen(x.1, ZERO);
        if d.0 != Ok then (Fail(d.0), [], d.2)
        else (Done, [ConsHead(name.1, d.1.len, FromLe(x.0))], d.2)
  }

  function ConsumerRun(c: Cursor, lzf: Inflater, num: nat): Run {
    var h := ConsHeadOf(c, lzf);
    if h.0 != Done then (h.0, [], h.2)
    else
      var head := h.1[0];
      var ids := Ids(h.2, head.pendCnt);
      var shown := [StreamCons(num, head.name, head.pendCnt, head.lastSeen)]
        + Wrapped(ConsumerPendingList, head.pendCnt, ids.0 == Ok, IdEvents(ids.1));
      if ids.0 != Ok then (Fail(ids.0), shown, ids.2) else (Done, shown + [StreamEnd(Consumer)], ids.2)
  }

  function ConsumersRun(c: Cursor, lzf: Inflater, n: nat, num: nat): Run
    decreases n
  {
    if n == 0 then (Done, [], c)
    else
      var x := ConsumerRun(c, lzf, num);
      if x.0 != Done then x
      else
        var rest := ConsumersRun(x.2, lzf, n - 1, num + 1);
        (rest.0, x.1 + rest.1, rest.2)
  }

  datatype GroupHead = GroupHead(name: seq<Byte>, last: StreamId, pendingCnt: nat)

  /** off is the group offset of the second format, one variable for all groups. */
  function GroupHeadOf(c: Cursor, lzf: Inflater, v2: bool, off: Length): (r: (Ended, seq<GroupHead>, Cursor, Length))
    ensures r.0 == Done ==> |r.1| == 1
  {
    var name := Blob(c, lzf);
    if name.0 != Ok then (Early, [], name.2, off)
    else
      var last := Lens(name.2, 2);
      if last.0 != Ok then (Fail(last.0), [], last.2, off)
      else
        var o := if v2 then DecodeLen(last.2, off) else (Ok, off, last.2);
        if o.0 != Ok then (Fail(o.0), [], o.2, o.1)
        else
          var p := DecodeLen(o.2, ZERO);
          if p.0 != Ok then (Fail(p.0), [], p.2, o.1)
          else (Done, [GroupHead(name.1, StreamId(last.1[0], last.1[1]), p.1.len)], p.2, o.1)
  }

  /** The rest of a group: its pending entries and its consumers. */
  function GroupRest(c: Cursor, lzf: Inflater, pendingCnt: nat): Run {
    var ps := Pends(c, pendingCnt);
    var shown := Wrapped(PendingList, pendingCnt, ps.0 == Ok, PendEvents(ps.1));
    if ps.0 != Ok then (Fail(ps.0), shown, ps.2)
    else
      var n := DecodeLen(ps.2, ZERO);
      if n.0 != Ok then (Fail(n.0), shown, n.2)
      else
        var cs := ConsumersRun(n.2, lzf, n.1.len, 0);
        (cs.0, shown + Wrapped(ConsumerList, n.1.len, cs.0 == Done, cs.1), cs.2)
  }

  function GroupsRun(c: Cursor, lzf: Inflater, v2: bool, n: nat, num: nat, off: Length): Run
    decreases n
  {
    if n == 0 then (Done, [], c)
    else
      var h := GroupHeadOf(c, lzf, v2, off);
      if h.0 != Done then (h.0, [], h.2)
      else
        var head := h.1[0];
        var x := GroupRest(h.2, lzf, head.pendingCnt);
        var shown := [StreamGroup(num, head.name, head.last, head.pendingCnt)] + x.1;
        if x.0 != Done then (x.0, shown, x.2)
        else
          var rest := GroupsRun(x.2, lzf, v2, n - 1, num + 1, h.3);
          (rest.0, shown + [StreamEnd(Group)] + rest.1, rest.2)
  }

  // ----- the whole

  function EntryEvents(es: seq<LiveEntry>): (r: seq<Event>)
    ensures |r| == |es|
  {
    seq(|es|, i requires 0 <= i < |es| => StreamEntry(i, es[i].id, es[i].fields))
  }

  /** What follows the blocks. */
  function AfterBlocks(c: Cursor, lzf: Inflater, v2: bool): Run {
    var i := InfoOf(c, v2);
    if i.0 != Ok then (Fail(i.0), [], i.2)
    else
      var info := i.1[0];
      var g := GroupsRun(i.2, lzf, v2, info.numCgroups, 0, ZERO);
      (g.0, [StreamInfo(info.last, info.numElems, info.numCgroups)]
            + Wrapped(GroupList, info.numCgroups, g.0 == Done, g.1), g.2)
  }

  /** decode_stream between d_start_key and d_end_key, while the memory of its entries is intact. */
  function IntactRun(c: Cursor, lzf: Inflater, v2: bool, n: nat): Run {
    var b := Blocks(c, lzf, n);
    var shown := Wrapped(EntryList, |b.1|, b.0 == Ok, EntryEvents(b.1));
    if b.0 != Ok then (Fail(b.0), shown, b.2)
    else
      var r := AfterBlocks(b.2, lzf, v2);
      (r.0, shown + r.1, r.2)
  }

  function StreamRun(c: Cursor, lzf: Inflater, v2: bool, n: nat): Run {
    if StreamLife.Faults(Trace(c, lzf, n)) then (Released, [], c) else IntactRun(c, lzf, v2, n)
  }

  /** A run ends as Released exactly if the blocks break the rule of module StreamLife. */
  lemma ReleasedExactly(c: Cursor, lzf: Inflater, v2: bool, n: nat)
    ensures StreamRun(c, lzf, v2, n).0 == Released <==> !StreamLife.Safe(Trace(c, lzf, n))
  {
    hide Trace, StreamLife.Faults, StreamLife.Safe, IntactRun;
    StreamLife.FaultsExactly(Trace(c, lzf, n));
    NeverReleased(c, lzf, v2, n);
  }

  lemma NeverReleased(c: Cursor, lzf: Inflater, v2: bool, n: nat)
    ensures IntactRun(c, lzf, v2, n).0 !in {Released, Fail(Ok)}
  {
    hide Blocks, InfoOf, Wrapped, EntryEvents, GroupsRun;
    var b := Blocks(c, lzf, n);
    if b.0 == Ok && InfoOf(b.2, v2).0 == Ok {
      GroupsIntact(InfoOf(b.2, v2).2, lzf, v2, InfoOf(b.2, v2).1[0].numCgroups, 0, ZERO);
    }
  }

  lemma {:induction false} GroupsIntact(c: Cursor, lzf: Inflater, v2: bool, n: nat, num: nat, off: Length)
    ensures GroupsRun(c, lzf, v2, n, num, off).0 !in {Released, Fail(Ok)}
    decreases n
  {
    hide Blob, Lens, DecodeLen, Pends, Wrapped, PendEvents, ConsumersRun;
    if n > 0 {
      var h := GroupHeadOf(c, lzf, v2, off);
      if h.0 == Done {
        var pendingCnt := h.1[0].pendingCnt;
        var cs := DecodeLen(Pends(h.2, pendingCnt).2, ZERO);
        ConsumersIntact(cs.2, lzf, cs.1.len, 0);
        GroupsIntact(GroupRest(h.2, lzf, pendingCnt).2, lzf, v2, n - 1, num + 1, h.3);
      }
    }
  }

  lemma {:induction false} ConsumersIntact(c: Cursor, lzf: Inflater, n: nat, num: nat)
    ensures ConsumersRun(c, lzf, n, num).0 !in {Released, Fail(Ok)}
    decreases n
  {
    hide Blob, DecodeLen, Incr, Ids, Wrapped, IdEvents, FromLe;
    if n > 0 {
      ConsumersIntact(ConsumerRun(c, lzf, num).2, lzf, n - 1, num + 1);
    }
  }

  // ----- a clean result means that the whole run was clean

  lemma BlockLeads(c: Cursor, lzf: Inflater)
    ensures Leads(c, Block(c, lzf).2)
  {
    hide Blob, EntriesIn;
    BlobLeads(c, lzf);
    BlobLeads(Blob(c, lzf).2, lzf);
  }

  lemma {:induction false} BlocksLeads(c: Cursor, lzf: Inflater, n: nat)
    ensures Leads(c, Blocks(c, lzf, n).2)
    decreases n
  {
    hide Block;
    if n > 0 {
      BlockLeads(c, lzf);
      BlocksLeads(Block(c, lzf).2, lzf, n - 1);
    }
  }

  lemma {:induction false} LensLeads(c: Cursor, n: nat)
    ensures Leads(c, Lens(c, n).2)
    decreases n
  {
    hide DecodeLen;
    if n > 0 {
      DecodeLenLeads(c, ZERO);
      LensLeads(DecodeLen(c, ZERO).2, n - 1);
    }
  }

  lemma RecountLeads(c: Cursor, v2: bool, num: Length)
    ensures Leads(c, Recount(c, v2, num).2)
  {
    hide DecodeLen, Lens;
    LensLeads(c, 4);
    DecodeLenLeads(Lens(c, 4).2, num);
  }

  lemma InfoLeads(c: Cursor, v2: bool)
    ensures Leads(c, InfoOf(c, v2).2)
  {
    hide DecodeLen, Lens, Recount;
    var num := DecodeLen(c, ZERO);
    DecodeLenLeads(c, ZERO);
    LensLeads(num.2, 2);
    RecountLeads(Lens(num.2, 2).2, v2, num.1);
    LensLeads(Recount(Lens(num.2, 2).2, v2, num.1).2, 1);
  }

  lemma PendLeads(c: Cursor)
    ensures Leads(c, PendOf(c).2)
  {
    hide DecodeLen, Incr, FromBe, FromLe;
    IncrLeads(c, 16);
    if Incr(c, 16).Some? {
      var x := Incr(c, 16).value.1;
      IncrLeads(x, 8);
      if Incr(x, 8).Some? {
        DecodeLenLeads(Incr(x, 8).value.1, ZERO);
      }
    }
  }

  lemma {:induction false} PendsLeads(c: Cursor, n: nat)
    ensures Leads(c, Pends(c, n).2)
    decreases n
  {
    hide PendOf;
    if n > 0 {
      PendLeads(c);
      PendsLeads(PendOf(c).2, n - 1);
    }
  }

  lemma {:induction false} IdsLeads(c: Cursor, n: nat)
    ensures Leads(c, Ids(c, n).2)
    decreases n
  {
    hide Incr, FromBe;
    if n > 0 {
      IncrLeads(c, 16);
      if Incr(c, 16).Some? {
        IdsLeads(Incr(c, 16).value.1, n - 1);
      }
    }
  }

  lemma ConsHeadLeads(c: Cursor, lzf: Inflater)
    ensures Leads(c, ConsHeadOf(c, lzf).2)
  {
    hide Blob, Incr, DecodeLen, FromLe;
    BlobLeads(c, lzf);
    var x := Blob(c, lzf).2;
    IncrLeads(x, 8);
    if Incr(x, 8).Some? {
      DecodeLenLeads(Incr(x, 8).value.1, ZERO);
    }
  }

  lemma ConsumerLeads(c: Cursor, lzf: Inflater, num: nat)
    ensures Leads(c, ConsumerRun(c, lzf, num).2)
  {
    hide ConsHeadOf, Ids, Wrapped, IdEvents;
    ConsHeadLeads(c, lzf);
    if ConsHeadOf(c, lzf).0 == Done {
      IdsLeads(ConsHeadOf(c, lzf).2, ConsHeadOf(c, lzf).1[0].pendCnt);
    }
  }

  lemma {:induction false} ConsumersLeads(c: Cursor, lzf: Inflater, n: nat, num: nat)
    ensures Leads(c, ConsumersRun(c, lzf, n, num).2)
    decreases n
  {
    hide ConsumerRun;
    if n > 0 {
      ConsumerLeads(c, lzf, num);
      ConsumersLeads(ConsumerRun(c, lzf, num).2, lzf, n - 1, num + 1);
    }
  }

  lemma GroupHeadLeads(c: Cursor, lzf: Inflater, v2: bool, off: Length)
    ensures var r := GroupHeadOf(c, lzf, v2, off); Leads(c, r.2)
  {
    hide Blob, Lens, DecodeLen;
    BlobLeads(c, lzf);
    var last := Lens(Blob(c, lzf).2, 2);
    LensLeads(Blob(c, lzf).2, 2);
    DecodeLenLeads(last.2, off);
    DecodeLenLeads(last.2, ZERO);
    DecodeLenLeads(DecodeLen(last.2, off).2, ZERO);
  }

  lemma GroupRestLeads(c: Cursor, lzf: Inflater, pendingCnt: nat)
    ensures Leads(c, GroupRest(c, lzf, pendingCnt).2)
  {
    hide Pends, DecodeLen, ConsumersRun, Wrapped, PendEvents;
    PendsLeads(c, pendingCnt);
    var n := DecodeLen(Pends(c, pendingCnt).2, ZERO);
    DecodeLenLeads(Pends(c, pendingCnt).2, ZERO);
    ConsumersLeads(n.2, lzf, n.1.len, 0);
  }

  lemma {:induction false} GroupsLeads(c: Cursor, lzf: Inflater, v2: bool, n: nat, num: nat, off: Length)
    ensures Leads(c, GroupsRun(c, lzf, v2, n, num, off).2)
    decreases n
  {
    hide GroupHeadOf, GroupRest;
    if n > 0 {
      var h := GroupHeadOf(c, lzf, v2, off);
      GroupHeadLeads(c, lzf, v2, off);
      if h.0 == Done {
        GroupRestLeads(h.2, lzf, h.1[0].pendingCnt);
        GroupsLeads(GroupRest(h.2, lzf, h.1[0].pendingCnt).2, lzf, v2, n - 1, num + 1, h.3);
      }
    }
  }

  lemma AfterLeads(c: Cursor, lzf: Inflater, v2: bool)
    ensures Leads(c, AfterBlocks(c, lzf, v2).2)
  {
    hide InfoOf, GroupsRun, Wrapped;
    InfoLeads(c, v2);
    if InfoOf(c, v2).0 == Ok {
      GroupsLeads(InfoOf(c, v2).2, lzf, v2, InfoOf(c, v2).1[0].numCgroups, 0, ZERO);
    }
  }

  lemma StreamLeads(c: Cursor, lzf: Inflater, v2: bool, n: nat)
    ensures Leads(c, StreamRun(c, lzf, v2, n).2)
  {
    hide Blocks, AfterBlocks, Wrapped, EntryEvents, Trace;
    BlocksLeads(c, lzf, n);
    AfterLeads(Blocks(c, lzf, n).2, lzf, v2);
  }

  // ----- bytes behind a stream do not matter

  /** A completed run over a buffer with t at its end, and the same run over the buffer without t. */
  ghost predicate SameDone<T>(long: (Ended, T, Cursor), short: (Ended, T, Cursor), t: seq<Byte>) {
    short.0 == Done && long == (Done, short.1, short.2.Extend(t))
  }

  lemma BlockCut(c: Cursor, lzf: Inflater, t: seq<Byte>)
    requires Block(c.Extend(t), lzf).0 == Ok && Spares(Block(c.Extend(t), lzf).2, |t|)
    ensures SameRun(Block(c.Extend(t), lzf), Block(c, lzf), t) && TraceOf(c.Extend(t), lzf) == TraceOf(c, lzf)
  {
    hide Blob, EntriesIn, IdAt, StreamLife.TraceIn;
    BlobLeads(Blob(c.Extend(t), lzf).2, lzf);
    BlobCut(c, lzf, t);
    BlobCut(Blob(c, lzf).2, lzf, t);
  }

  lemma {:induction false} BlocksCut(c: Cursor, lzf: Inflater, n: nat, t: seq<Byte>)
    requires Blocks(c.Extend(t), lzf, n).0 == Ok && Spares(Blocks(c.Extend(t), lzf, n).2, |t|)
    ensures SameRun(Blocks(c.Extend(t), lzf, n), Blocks(c, lzf, n), t)
    ensures Trace(c.Extend(t), lzf, n) == Trace(c, lzf, n)
    decreases n
  {
    hide Block, TraceOf;
    if n > 0 {
      BlocksLeads(Block(c.Extend(t), lzf).2, lzf, n - 1);
      BlockCut(c, lzf, t);
      BlocksCut(Block(c, lzf).2, lzf, n - 1, t);
    }
  }

  lemma {:induction false} LensCut(c: Cursor, n: nat, t: seq<Byte>)
    requires Lens(c.Extend(t), n).0 == Ok && Spares(Lens(c.Extend(t), n).2, |t|)
    ensures SameRun(Lens(c.Extend(t), n), Lens(c, n), t)
    decreases n
  {
    hide DecodeLen;
    if n > 0 {
      LensLeads(DecodeLen(c.Extend(t), ZERO).2, n - 1);
      DecodeLenCut(c, ZERO, t);
      LensCut(DecodeLen(c, ZERO).2, n - 1, t);
    }
  }

  lemma RecountCut(c: Cursor, v2: bool, num: Length, t: seq<Byte>)
    requires !num.torn
    requires Recount(c.Extend(t), v2, num).0 == Ok && Spares(Recount(c.Extend(t), v2, num).2, |t|)
    ensures SameRun(Recount(c.Extend(t), v2, num), Recount(c, v2, num), t)
  {
    hide DecodeLen, Lens;
    if v2 {
      DecodeLenLeads(Lens(c.Extend(t), 4).2, num);
      LensCut(c, 4, t);
      DecodeLenCut(Lens(c, 4).2, num, t);
    }
  }

  lemma InfoCut(c: Cursor, v2: bool, t: seq<Byte>)
    requires InfoOf(c.Extend(t), v2).0 == Ok && Spares(InfoOf(c.Extend(t), v2).2, |t|)
    ensures SameRun(InfoOf(c.Extend(t), v2), InfoOf(c, v2), t)
  {
    hide DecodeLen, Lens, Recount;
    var num := DecodeLen(c.Extend(t), ZERO);
    var last := Lens(num.2, 2);
    LensLeads(Recount(last.2, v2, num.1).2, 1);
    RecountLeads(last.2, v2, num.1);
    LensLeads(num.2, 2);
    DecodeLenLeads(c.Extend(t), ZERO);
    DecodeLenCut(c, ZERO, t);
    var d := DecodeLen(c, ZERO);
    LensCut(d.2, 2, t);
    RecountCut(Lens(d.2, 2).2, v2, d.1, t);
    LensCut(Recount(Lens(d.2, 2).2, v2, d.1).2, 1, t);
  }

  lemma PendCut(c: Cursor, t: seq<Byte>)
    requires PendOf(c.Extend(t)).0 == Ok && Spares(PendOf(c.Extend(t)).2, |t|)
    ensures SameRun(PendOf(c.Extend(t)), PendOf(c), t)
  {
    hide DecodeLen, Incr, FromBe, FromLe;
    var x := Incr(c.Extend(t), 16).value.1;
    DecodeLenLeads(Incr(x, 8).value.1, ZERO);
    IncrLeads(x, 8);
    IncrCut(c, 16, t);
    IncrCut(Incr(c, 16).value.1, 8, t);
    DecodeLenCut(Incr(Incr(c, 16).value.1, 8).value.1, ZERO, t);
  }

  lemma {:induction false} PendsCut(c: Cursor, n: nat, t: seq<Byte>)
    requires Pends(c.Extend(t), n).0 == Ok && Spares(Pends(c.Extend(t), n).2, |t|)
    ensures SameRun(Pends(c.Extend(t), n), Pends(c, n), t)
    decreases n
  {
    hide PendOf;
    if n > 0 {
      PendsLeads(PendOf(c.Extend(t)).2, n - 1);
      PendCut(c, t);
      PendsCut(PendOf(c).2, n - 1, t);
    }
  }

  lemma {:induction false} IdsCut(c: Cursor, n: nat, t: seq<Byte>)
    requires Ids(c.Extend(t), n).0 == Ok && Spares(Ids(c.Extend(t), n).2, |t|)
    ensures SameRun(Ids(c.Extend(t), n), Ids(c, n), t)
    decreases n
  {
    hide Incr, FromBe;
    if n > 0 {
      IdsLeads(Incr(c.Extend(t), 16).value.1, n - 1);
      IncrCut(c, 16, t);
      IdsCut(Incr(c, 16).value.1, n - 1, t);
    }
  }

  lemma ConsHeadCut(c: Cursor, lzf: Inflater, t: seq<Byte>)
    requires ConsHeadOf(c.Extend(t), lzf).0 == Done && Spares(ConsHeadOf(c.Extend(t), lzf).2, |t|)
    ensures SameDone(ConsHeadOf(c.Extend(t), lzf), ConsHeadOf(c, lzf), t)
  {
    hide Blob, Incr, DecodeLen, FromLe;
    var x := Blob(c.Extend(t), lzf).2;
    DecodeLenLeads(Incr(x, 8).value.1, ZERO);
    IncrLeads(x, 8);
    BlobCut(c, lzf, t);
    IncrCut(Blob(c, lzf).2, 8, t);
    DecodeLenCut(Incr(Blob(c, lzf).2, 8).value.1, ZERO, t);
  }

  lemma ConsumerCut(c: Cursor, lzf: Inflater, num: nat, t: seq<Byte>)
    requires ConsumerRun(c.Extend(t), lzf, num).0 == Done && Spares(ConsumerRun(c.Extend(t), lzf, num).2, |t|)
    ensures SameDone(ConsumerRun(c.Extend(t), lzf, num), ConsumerRun(c, lzf, num), t)
  {
    hide ConsHeadOf, Ids, Wrapped, IdEvents;
    var h := ConsHeadOf(c.Extend(t), lzf);
    IdsLeads(h.2, h.1[0].pendCnt);
    ConsHeadCut(c, lzf, t);
    IdsCut(ConsHeadOf(c, lzf).2, h.1[0].pendCnt, t);
  }

  lemma {:induction false} ConsumersCut(c: Cursor, lzf: Inflater, n: nat, num: nat, t: seq<Byte>)
    requires ConsumersRun(c.Extend(t), lzf, n, num).0 == Done
    requires Spares(ConsumersRun(c.Extend(t), lzf, n, num).2, |t|)
    ensures SameDone(ConsumersRun(c.Extend(t), lzf, n, num), ConsumersRun(c, lzf, n, num), t)
    decreases n
  {
    hide ConsumerRun;
    if n > 0 {
      ConsumersLeads(ConsumerRun(c.Extend(t), lzf, num).2, lzf, n - 1, num + 1);
      ConsumerCut(c, lzf, num, t);
      ConsumersCut(ConsumerRun(c, lzf, num).2, lzf, n - 1, num + 1, t);
    }
  }

  lemma GroupHeadCut(c: Cursor, lzf: Inflater, v2: bool, off: Length, t: seq<Byte>)
    requires !off.torn && GroupHeadOf(c.Extend(t), lzf, v2, off).0 == Done
    requires var r := GroupHeadOf(c.Extend(t), lzf, v2, off); Spares(r.2, |t|)
    ensures var long, short := GroupHeadOf(c.Extend(t), lzf, v2, off), GroupHeadOf(c, lzf, v2, off);
      short.0 == Done && long == (Done, short.1, short.2.Extend(t), short.3) && !short.3.torn
  {
    hide Blob, Lens, DecodeLen;
    var name := Blob(c.Extend(t), lzf);
    var last := Lens(name.2, 2);
    var o := if v2 then DecodeLen(last.2, off) else (Ok, off, last.2);
    DecodeLenLeads(o.2, ZERO);
    DecodeLenLeads(last.2, off);
    LensLeads(name.2, 2);
    BlobCut(c, lzf, t);
    LensCut(Blob(c, lzf).2, 2, t);
    var l := Lens(Blob(c, lzf).2, 2).2;
    if v2 {
      DecodeLenCut(l, off, t);
      DecodeLenCut(DecodeLen(l, off).2, ZERO, t);
    } else {
      DecodeLenCut(l, ZERO, t);
    }
  }

  lemma GroupRestCut(c: Cursor, lzf: Inflater, pendingCnt: nat, t: seq<Byte>)
    requires GroupRest(c.Extend(t), lzf, pendingCnt).0 == Done && Spares(GroupRest(c.Extend(t), lzf, pendingCnt).2, |t|)
    ensures SameDone(GroupRest(c.Extend(t), lzf, pendingCnt), GroupRest(c, lzf, pendingCnt), t)
  {
    hide Pends, DecodeLen, ConsumersRun, Wrapped, PendEvents;
    var ps := Pends(c.Extend(t), pendingCnt);
    var n := DecodeLen(ps.2, ZERO);
    ConsumersLeads(n.2, lzf, n.1.len, 0);
    DecodeLenLeads(ps.2, ZERO);
    PendsCut(c, pendingCnt, t);
    DecodeLenCut(Pends(c, pendingCnt).2, ZERO, t);
    ConsumersCut(DecodeLen(Pends(c, pendingCnt).2, ZERO).2, lzf, n.1.len, 0, t);
  }

  lemma {:induction false} GroupsCut(c: Cursor, lzf: Inflater, v2: bool, n: nat, num: nat, off: Length, t: seq<Byte>)
    requires !off.torn && GroupsRun(c.Extend(t), lzf, v2, n, num, off).0 == Done
    requires Spares(GroupsRun(c.Extend(t), lzf, v2, n, num, off).2, |t|)
    ensures SameDone(GroupsRun(c.Extend(t), lzf, v2, n, num, off), GroupsRun(c, lzf, v2, n, num, off), t)
    decreases n
  {
    hide GroupHeadOf, GroupRest;
    if n > 0 {
      var h := GroupHeadOf(c.Extend(t), lzf, v2, off);
      var x := GroupRest(h.2, lzf, h.1[0].pendingCnt);
      GroupsLeads(x.2, lzf, v2, n - 1, num + 1, h.3);
      GroupRestLeads(h.2, lzf, h.1[0].pendingCnt);
      GroupHeadCut(c, lzf, v2, off, t);
      var k := GroupHeadOf(c, lzf, v2, off);
      GroupRestCut(k.2, lzf, h.1[0].pendingCnt, t);
      GroupsCut(GroupRest(k.2, lzf, h.1[0].pendingCnt).2, lzf, v2, n - 1, num + 1, h.3, t);
    }
  }

  lemma AfterCut(c: Cursor, lzf: Inflater, v2: bool, t: seq<Byte>)
    requires AfterBlocks(c.Extend(t), lzf, v2).0 == Done && Spares(AfterBlocks(c.Extend(t), lzf, v2).2, |t|)
    ensures SameDone(AfterBlocks(c.Extend(t), lzf, v2), AfterBlocks(c, lzf, v2), t)
  {
    hide InfoOf, GroupsRun, Wrapped;
    var i := InfoOf(c.Extend(t), v2);
    GroupsLeads(i.2, lzf, v2, i.1[0].numCgroups, 0, ZERO);
    InfoCut(c, v2, t);
    GroupsCut(InfoOf(c, v2).2, lzf, v2, i.1[0].numCgroups, 0, ZERO, t);
  }

  lemma StreamCut(c: Cursor, lzf: Inflater, v2: bool, n: nat, t: seq<Byte>)
    requires StreamRun(c.Extend(t), lzf, v2, n).0 == Done && Spares(StreamRun(c.Extend(t), lzf, v2, n).2, |t|)
    ensures SameDone(StreamRun(c.Extend(t), lzf, v2, n), StreamRun(c, lzf, v2, n), t)
  {
    hide Blocks, AfterBlocks, Wrapped, EntryEvents, Trace, StreamLife.Faults;
    AfterLeads(Blocks(c.Extend(t), lzf, n).2, lzf, v2);
    BlocksCut(c, lzf, n, t);
    AfterCut(Blocks(c, lzf, n).2, lzf, v2, t);
  }
}
