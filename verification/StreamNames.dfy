/** decode_stream returns success without closing its lists when the name of a group or consumer cannot be
    read (src/rdb_decode.cpp:1052-1054 and 1107-1109): when that happens, and what is printed then. */
module StreamNames {
  import opened Bytes
  import opened LengthCodec
  import opened Bufptr
  import opened ListValue
  import opened Events
  import opened Values
  import opened StreamDecode
  import opened Records
  import opened Json
  import opened StreamJson
  import StreamRead

  // ----- the names

  /** A plain or compressed string header, and its data. */
  predicate Readable(c: Cursor, lzf: Inflater) {
    var d := DecodeLen(c, ZERO);
    var cur := d.2.Cur();
    d.0 == Ok && d.1.isEnc == 0
    && if d.1.isLzf then d.1.zlen <= |cur| && lzf(cur[..d.1.zlen], d.1.len).Some? else d.1.len <= |cur|
  }

  lemma ReadableName(c: Cursor, lzf: Inflater)
    ensures Blob(c, lzf).0 == Ok <==> Readable(c, lzf)
  {
    hide DecodeLen;
  }

  /** Where the names of n consumers are read. */
  function ConsumerNames(c: Cursor, lzf: Inflater, n: nat, num: nat): seq<Cursor>
    decreases n
  {
    if n == 0 then []
    else
      var x := ConsumerRun(c, lzf, num);
      [c] + (if x.0 != Done then [] else ConsumerNames(x.2, lzf, n - 1, num + 1))
  }

  /** Where those of a group's consumers are read. */
  function RestNames(c: Cursor, lzf: Inflater, pendingCnt: nat): seq<Cursor> {
    var ps := Pends(c, pendingCnt);
    var n := DecodeLen(ps.2, ZERO);
    if ps.0 != Ok || n.0 != Ok then [] else ConsumerNames(n.2, lzf, n.1.len, 0)
  }

  function GroupNames(c: Cursor, lzf: Inflater, v2: bool, n: nat, off: Length): seq<Cursor>
    decreases n
  {
    if n == 0 then []
    else
      var h := GroupHeadOf(c, lzf, v2, off);
      [c] + (if h.0 != Done then []
             else
               var x := GroupRest(h.2, lzf, h.1[0].pendingCnt);
               RestNames(h.2, lzf, h.1[0].pendingCnt)
               + (if x.0 != Done then [] else GroupNames(x.2, lzf, v2, n - 1, h.3)))
  }

  /** Where decode_stream reads names. */
  function NamesOf(c: Cursor, lzf: Inflater, v2: bool, n: nat): seq<Cursor> {
    var b := Blocks(c, lzf, n);
    var i := InfoOf(b.2, v2);
    if b.0 != Ok || i.0 != Ok then [] else GroupNames(i.2, lzf, v2, i.1[0].numCgroups, ZERO)
  }

  predicate AllReadable(names: seq<Cursor>, lzf: Inflater) {
    forall k | 0 <= k < |names| :: Readable(names[k], lzf)
  }

  lemma AllReadableConcat(a: seq<Cursor>, b: seq<Cursor>, lzf: Inflater)
    ensures AllReadable(a + b, lzf) <==> AllReadable(a, lzf) && AllReadable(b, lzf)
  {
    hide Readable;
    if AllReadable(a + b, lzf) {
      assert forall k | 0 <= k < |a| :: a[k] == (a + b)[k];
      assert forall k | 0 <= k < |b| :: b[k] == (a + b)[|a| + k];
    }
  }

  /** All names are readable, or the run ends early at one that is not. */
  predicate Told(e: Ended, names: seq<Cursor>, lzf: Inflater) {
    (e == Done ==> AllReadable(names, lzf)) && (e == Early ==> !AllReadable(names, lzf))
  }

  lemma OneName(c: Cursor, lzf: Inflater)
    ensures AllReadable([c], lzf) <==> Readable(c, lzf)
    ensures AllReadable([], lzf)
  {
    hide Readable;
    assert [c][0] == c;
  }

  lemma {:induction false} ConsumersTold(c: Cursor, lzf: Inflater, n: nat, num: nat)
    ensures Told(ConsumersRun(c, lzf, n, num).0, ConsumerNames(c, lzf, n, num), lzf)
    decreases n
  {
    hide AllReadable, Readable, Blob, Incr, DecodeLen, FromLe, Ids, Wrapped, IdEvents;
    OneName(c, lzf);
    if n > 0 {
      ReadableName(c, lzf);
      var x := ConsumerRun(c, lzf, num);
      ConsumersTold(x.2, lzf, n - 1, num + 1);
      AllReadableConcat([c], if x.0 != Done then [] else ConsumerNames(x.2, lzf, n - 1, num + 1), lzf);
    }
  }

  lemma RestTold(c: Cursor, lzf: Inflater, pendingCnt: nat)
    ensures Told(GroupRest(c, lzf, pendingCnt).0, RestNames(c, lzf, pendingCnt), lzf)
  {
    hide AllReadable, Pends, DecodeLen, ConsumersRun, ConsumerNames, Wrapped, PendEvents;
    var n := DecodeLen(Pends(c, pendingCnt).2, ZERO);
    ConsumersTold(n.2, lzf, n.1.len, 0);
  }

  lemma HeadTold(c: Cursor, lzf: Inflater, v2: bool, off: Length)
    ensures var h := GroupHeadOf(c, lzf, v2, off);
      (h.0 == Done ==> Readable(c, lzf)) && (h.0 == Early ==> !Readable(c, lzf))
  {
    hide Readable, Blob, Lens, DecodeLen;
    ReadableName(c, lzf);
  }

  lemma {:induction false} GroupsTold(c: Cursor, lzf: Inflater, v2: bool, n: nat, num: nat, off: Length)
    ensures Told(GroupsRun(c, lzf, v2, n, num, off).0, GroupNames(c, lzf, v2, n, off), lzf)
    decreases n
  {
    hide AllReadable, Readable, GroupHeadOf, GroupRest, RestNames;
    OneName(c, lzf);
    if n > 0 {
      HeadTold(c, lzf, v2, off);
      var h := GroupHeadOf(c, lzf, v2, off);
      if h.0 != Done {
        assert [c] + [] == [c];
      } else {
        var x := GroupRest(h.2, lzf, h.1[0].pendingCnt);
        RestTold(h.2, lzf, h.1[0].pendingCnt);
        GroupsTold(x.2, lzf, v2, n - 1, num + 1, h.3);
        var names, more := RestNames(h.2, lzf, h.1[0].pendingCnt), if x.0 != Done then [] else GroupNames(x.2, lzf, v2, n - 1, h.3);
        AllReadableConcat([c], names + more, lzf);
        AllReadableConcat(names, more, lzf);
      }
    }
  }

  /** A run that decode_body reports as Ok is complete if and only if all names on it are readable. */
  lemma CompleteExactly(c: Cursor, lzf: Inflater, v2: bool, n: nat)
    requires StatusOf(StreamRun(c, lzf, v2, n).0) == Ok
    ensures StreamRun(c, lzf, v2, n).0 == Done <==> AllReadable(NamesOf(c, lzf, v2, n), lzf)
  {
    hide AllReadable, Blocks, InfoOf, GroupsRun, GroupNames, Wrapped, EntryEvents, Trace;
    NeverReleased(c, lzf, v2, n);
    var b := Blocks(c, lzf, n);
    if b.0 == Ok && InfoOf(b.2, v2).0 == Ok {
      var i := InfoOf(b.2, v2);
      GroupsTold(i.2, lzf, v2, i.1[0].numCgroups, 0, ZERO);
    }
  }

  // ----- a run that ends early leaves braces open

  function Braces(es: seq<Event>): int {
    Depth(Tokens(es))
  }

  lemma BracesConcat(a: seq<Event>, b: seq<Event>)
    ensures Braces(a + b) == Braces(a) + Braces(b)
  {
    hide Depth, Tokens;
    TokensConcat(a, b);
    DepthConcat(Tokens(a), Tokens(b));
  }

  /** What one callback opens or closes. */
  function Opens(e: Event): int {
    match e
    case StartKey => 1
    case EndKey => -1
    case StreamGroup(_, _, _, _) => 1
    case StreamCons(_, _, _, _) => 1
    case StreamEnd(Group) => -1
    case StreamEnd(Consumer) => -1
    case _ => 0
  }

  lemma {:induction false} FieldsFlat(fields: seq<(Elem, Elem)>)
    ensures LBrace !in FieldTokens(fields) && RBrace !in FieldTokens(fields)
    decreases |fields|
  {
    if fields != [] {
      FieldsFlat(fields[..|fields| - 1]);
    }
  }

  lemma SepFlat(num: nat)
    ensures Depth(Sep(num)) == 0
  {
    hide Depth;
    DepthFlat(Sep(num));
  }

  lemma EntryBraces(num: nat, id: StreamId, fields: seq<(Elem, Elem)>)
    ensures Depth(Shown(StreamEntry(num, id, fields))) == 0
  {
    hide FieldTokens, Depth, Sep;
    var head := [Text(Lit("id")), Colon, Text(OfId(id)), Comma];
    FieldsFlat(fields);
    DepthFlat(head + FieldTokens(fields));
    DepthFrame(LBrace, head + FieldTokens(fields), RBrace);
    SepFlat(num);
    DepthConcat(Sep(num), [LBrace] + (head + FieldTokens(fields)) + [RBrace]);
    assert Shown(StreamEntry(num, id, fields)) == Sep(num) + ([LBrace] + (head + FieldTokens(fields)) + [RBrace]);
  }

  /** A callback that opens an object, with no brace behind. */
  lemma OpeningBraces(ts: seq<Token>, num: nat, rest: seq<Token>)
    requires ts == Sep(num) + [LBrace] + rest && LBrace !in rest && RBrace !in rest
    ensures Depth(ts) == 1
  {
    hide Depth;
    DepthFlat(Sep(num));
    DepthFlat(rest);
    DepthOne(LBrace);
    DepthConcat(Sep(num) + [LBrace], rest);
    DepthConcat(Sep(num), [LBrace]);
  }

  lemma GroupOpens(e: Event)
    requires e.StreamGroup?
    ensures Depth(Shown(e)) == 1
  {
    hide Depth, Sep;
    OpeningBraces(Shown(e), e.num, [Text(Lit("group")), Colon, Text(OfElem(Str(e.gname))), Comma,
      Text(Lit("pending")), Colon, Num(e.pendingCnt), Comma, Text(Lit("last_id")), Colon, Text(OfId(e.last))]);
  }

  lemma ConsOpens(e: Event)
    requires e.StreamCons?
    ensures Depth(Shown(e)) == 1
  {
    hide Depth, Sep;
    OpeningBraces(Shown(e), e.num, [Text(Lit("name")), Colon, Text(OfElem(Str(e.cname))), Comma,
      Text(Lit("pending")), Colon, Num(e.pendCnt), Comma, Text(Lit("last_seen")), Colon, Num(e.lastSeen)]);
  }

  lemma PendOpens(e: Event)
    requires e.StreamPend?
    ensures Depth(Shown(e)) == 0
  {
    hide Depth;
    var body := [Text(Lit("id")), Colon, Text(OfId(e.id)), Comma, Text(Lit("last_d")), Colon, Num(e.lastDelivery), Comma,
      Text(Lit("d_cnt")), Colon, Num(e.deliveryCnt)];
    DepthFlat(Sep(e.num));
    DepthFlat(body);
    DepthFrame(LBrace, body, RBrace);
    DepthConcat(Sep(e.num), [LBrace] + body + [RBrace]);
    assert Shown(e) == Sep(e.num) + ([LBrace] + body + [RBrace]);
  }

  lemma EndOpens(part: StreamPart)
    ensures Depth(Shown(StreamEnd(part))) == if part == Group || part == Consumer then -1 else 0
  {
    hide Depth;
    DepthOne(RBrace);
    if part != Group && part != Consumer {
      DepthFlat(Shown(StreamEnd(part)));
    }
  }

  /** Every other callback prints no brace. */
  lemma FlatOpens(e: Event)
    requires e != StartKey && e != EndKey && !e.StreamEntry? && !e.StreamGroup? && !e.StreamCons? && !e.StreamPend?
    requires !e.StreamEnd?
    ensures Depth(Shown(e)) == 0
  {
    hide Depth;
    DepthFlat(Shown(e));
  }

  lemma OneOpens(e: Event)
    ensures Braces([e]) == Opens(e)
  {
    hide Depth, Tokens, Shown;
    TokensOne(e);
    match e
    case StreamEntry(num, id, fields) => EntryBraces(num, id, fields);
    case StreamGroup(_, _, _, _) => GroupOpens(e);
    case StreamCons(_, _, _, _) => ConsOpens(e);
    case StreamPend(_, _, _, _) => PendOpens(e);
    case StreamEnd(part) => EndOpens(part);
    case StartKey => KeyOpens();
    case EndKey => KeyOpens();
    case _ => FlatOpens(e);
  }

  lemma KeyOpens()
    ensures Depth(Shown(StartKey)) == 1 && Depth(Shown(EndKey)) == -1
  {
    hide Depth;
    DepthOne(LBrace);
    DepthOne(RBrace);
  }

  /** Callbacks that open and close nothing. */
  lemma {:induction false} FlatBraces(es: seq<Event>)
    requires forall i | 0 <= i < |es| :: Opens(es[i]) == 0
    ensures Braces(es) == 0
    decreases |es|
  {
    hide Opens;
    if es == [] {
      NoBraces();
    } else {
      var n := |es| - 1;
      assert es == es[..n] + [es[n]];
      FlatBraces(es[..n]);
      OneOpens(es[n]);
      BracesConcat(es[..n], [es[n]]);
    }
  }

  lemma NoBraces()
    ensures Braces([]) == 0
  {}

  lemma WrappedBraces(part: StreamPart, count: nat, done: bool, body: seq<Event>)
    requires part != Group && part != Consumer
    ensures Braces(Wrapped(part, count, done, body)) == Braces(body)
  {
    hide Braces;
    var open, close := if count != 0 then [StreamStart(part)] else [], if done && count != 0 then [StreamEnd(part)] else [];
    OneOpens(StreamStart(part));
    OneOpens(StreamEnd(part));
    NoBraces();
    BracesConcat(open + body, close);
    BracesConcat(open, body);
  }

  lemma ConsumerBraces(c: Cursor, lzf: Inflater, num: nat)
    ensures Braces(ConsumerRun(c, lzf, num).1) >= 0
  {
    hide ConsHeadOf, Ids, Wrapped, IdEvents, Braces;
    NoBraces();
    var h := ConsHeadOf(c, lzf);
    if h.0 == Done {
      var head := h.1[0];
      var ids := Ids(h.2, head.pendCnt);
      var e, w := StreamCons(num, head.name, head.pendCnt, head.lastSeen),
                  Wrapped(ConsumerPendingList, head.pendCnt, ids.0 == Ok, IdEvents(ids.1));
      IdBraces(ids.1);
      WrappedBraces(ConsumerPendingList, head.pendCnt, ids.0 == Ok, IdEvents(ids.1));
      OneOpens(e);
      OneOpens(StreamEnd(Consumer));
      BracesConcat([e], w);
      BracesConcat([e] + w, [StreamEnd(Consumer)]);
    }
  }

  lemma IdBraces(ids: seq<StreamId>)
    ensures Braces(IdEvents(ids)) == 0
  {
    hide Braces;
    FlatBraces(IdEvents(ids));
  }

  lemma PendBraces(ps: seq<Pend>)
    ensures Braces(PendEvents(ps)) == 0
  {
    hide Braces;
    FlatBraces(PendEvents(ps));
  }

  lemma EntriesBraces(es: seq<LiveEntry>)
    ensures Braces(EntryEvents(es)) == 0
  {
    hide Braces;
    FlatBraces(EntryEvents(es));
  }

  lemma {:induction false} ConsumersBraces(c: Cursor, lzf: Inflater, n: nat, num: nat)
    ensures Braces(ConsumersRun(c, lzf, n, num).1) >= 0
    decreases n
  {
    hide ConsumerRun, Braces;
    NoBraces();
    if n > 0 {
      var x := ConsumerRun(c, lzf, num);
      ConsumerBraces(c, lzf, num);
      ConsumersBraces(x.2, lzf, n - 1, num + 1);
      BracesConcat(x.1, ConsumersRun(x.2, lzf, n - 1, num + 1).1);
    }
  }

  lemma RestBraces(c: Cursor, lzf: Inflater, pendingCnt: nat)
    ensures Braces(GroupRest(c, lzf, pendingCnt).1) >= 0
  {
    hide Pends, DecodeLen, ConsumersRun, Wrapped, PendEvents, Braces;
    var ps := Pends(c, pendingCnt);
    PendBraces(ps.1);
    WrappedBraces(PendingList, pendingCnt, ps.0 == Ok, PendEvents(ps.1));
    var n := DecodeLen(ps.2, ZERO);
    var cs := ConsumersRun(n.2, lzf, n.1.len, 0);
    ConsumersBraces(n.2, lzf, n.1.len, 0);
    WrappedBraces(ConsumerList, n.1.len, cs.0 == Done, cs.1);
    BracesConcat(Wrapped(PendingList, pendingCnt, ps.0 == Ok, PendEvents(ps.1)),
      Wrapped(ConsumerList, n.1.len, cs.0 == Done, cs.1));
  }

  lemma {:induction false} GroupsBraces(c: Cursor, lzf: Inflater, v2: bool, n: nat, num: nat, off: Length)
    ensures Braces(GroupsRun(c, lzf, v2, n, num, off).1) >= 0
    decreases n
  {
    hide GroupHeadOf, GroupRest, Braces;
    NoBraces();
    if n > 0 {
      var h := GroupHeadOf(c, lzf, v2, off);
      if h.0 == Done {
        var head := h.1[0];
        var x := GroupRest(h.2, lzf, head.pendingCnt);
        var e := StreamGroup(num, head.name, head.last, head.pendingCnt);
        var rest := GroupsRun(x.2, lzf, v2, n - 1, num + 1, h.3).1;
        RestBraces(h.2, lzf, head.pendingCnt);
        GroupsBraces(x.2, lzf, v2, n - 1, num + 1, h.3);
        OneOpens(e);
        OneOpens(StreamEnd(Group));
        BracesConcat([e], x.1);
        BracesConcat([e] + x.1, [StreamEnd(Group)]);
        BracesConcat([e] + x.1 + [StreamEnd(Group)], rest);
      }
    }
  }

  lemma StreamBraces(c: Cursor, lzf: Inflater, v2: bool, n: nat)
    ensures Braces(StreamRun(c, lzf, v2, n).1) >= 0
  {
    hide Blocks, Trace, InfoOf, GroupsRun, Wrapped, EntryEvents, Braces;
    NoBraces();
    var b := Blocks(c, lzf, n);
    EntriesBraces(b.1);
    WrappedBraces(EntryList, |b.1|, b.0 == Ok, EntryEvents(b.1));
    BracesConcat(Wrapped(EntryList, |b.1|, b.0 == Ok, EntryEvents(b.1)), AfterBlocks(b.2, lzf, v2).1);
    if InfoOf(b.2, v2).0 == Ok {
      var info := InfoOf(b.2, v2).1[0];
      var g := GroupsRun(InfoOf(b.2, v2).2, lzf, v2, info.numCgroups, 0, ZERO);
      GroupsBraces(InfoOf(b.2, v2).2, lzf, v2, info.numCgroups, 0, ZERO);
      WrappedBraces(GroupList, info.numCgroups, g.0 == Done, g.1);
      OneOpens(StreamInfo(info.last, info.numElems, info.numCgroups));
      BracesConcat([StreamInfo(info.last, info.numElems, info.numCgroups)],
        Wrapped(GroupList, info.numCgroups, g.0 == Done, g.1));
    }
  }

  /** What a run that ends early prints is no rendering of any document. */
  lemma EarlyOpen(c: Cursor, lzf: Inflater, v2: bool, n: nat, j: Json)
    ensures Tokens([StartKey] + StreamRun(c, lzf, v2, n).1) != Render(j)
  {
    hide StreamRun, Tokens, Depth, Render;
    StreamBraces(c, lzf, v2, n);
    OneOpens(StartKey);
    BracesConcat([StartKey], StreamRun(c, lzf, v2, n).1);
    RenderCloses(j);
  }

  /** On every run that decode_body reports as Ok, what is printed for a stream from its opening brace on is
      one well-formed object if and only if every group and consumer name is readable and every live entry
      has a field; then it is the document of the stream's contents. */
  lemma ReportedJson(t: RdbType, l: Length, c: Cursor, lzf: Inflater)
    requires IsStream(t) && StatusOf(BodyOf(t, l, c, lzf).0) == Ok
    ensures var r, es := BodyOf(t, l, c, lzf), Blocks(c, lzf, l.len).1;
      var good := AllReadable(NamesOf(c, lzf, t == RStreamListpacks2, l.len), lzf) && forall e | e in es :: e.fields != [];
      ((exists j :: Render(j) == Tokens(r.1)) <==> good)
      && (good ==>
            exists d: StreamDoc :: d.entries == es && r.1 == [StartKey] + DocEvents(d) + [EndKey] && Tokens(r.1) == Render(DocJson(d)))
  {
    hide StreamRun, Blocks, DocEvents, Tokens, Render, DocJson, AllReadable, NamesOf;
    var v2 := t == RStreamListpacks2;
    var x := StreamRun(c, lzf, v2, l.len);
    CompleteExactly(c, lzf, v2, l.len);
    if x.0 == Done {
      CompletedJson(c, lzf, v2, l.len);
    } else {
      assert [StartKey] + x.1 + [] == [StartKey] + x.1;
      forall j ensures Render(j) != Tokens([StartKey] + x.1) {
        EarlyOpen(c, lzf, v2, l.len, j);
      }
    }
  }
}
