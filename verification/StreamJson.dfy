/** The JSON of a stream: what the stream callbacks of JsonOutput print, as tokens
    (src/rdb_json.cpp:275-406), and when that is one well-formed object. */
module StreamJson {
  import opened Bytes
  import LengthCodec
  import opened Bufptr
  import opened ListValue
  import opened Events
  import opened StreamDecode
  import opened Json

  // ----- what is printed

  function Scalar(x: Elem): Token {
    match x
    case Str(_) => Text(OfElem(x))
    case Int(i) => Num(i)
  }

  /** The fields of an entry, with commas between them. */
  function FieldTokens(fields: seq<(Elem, Elem)>): seq<Token>
    decreases |fields|
  {
    if fields == [] then []
    else
      var n := |fields| - 1;
      FieldTokens(fields[..n]) + Sep(n) + [Text(OfElem(fields[n].0)), Colon, Scalar(fields[n].1)]
  }

  /** The tokens of one callback. */
  function Shown(e: Event): seq<Token> {
    match e
    case StreamEntry(num, id, fields) =>
      Sep(num) + [LBrace, Text(Lit("id")), Colon, Text(OfId(id)), Comma] + FieldTokens(fields) + [RBrace]
    case StreamInfo(last, numElems, numCgroups) =>
      [Text(Lit("last_id")), Colon, Text(OfId(last)), Comma,
       Text(Lit("num_elems")), Colon, Num(numElems), Comma,
       Text(Lit("num_cgroups")), Colon, Num(numCgroups)]
    case StreamStart(part) =>
      (match part
       case EntryList => [Text(Lit("entries")), Colon, LBracket]
       case GroupList => [Comma, Text(Lit("groups")), Colon, LBracket]
       case PendingList => [Comma, Text(Lit("pel")), Colon, LBracket]
       case ConsumerList => [Comma, Text(Lit("consumers")), Colon, LBracket]
       case ConsumerPendingList => [Comma, Text(Lit("pel")), Colon, LBracket]
       case _ => [])
    case StreamEnd(part) =>
      (match part
       case EntryList => [RBracket, Comma]
       case Consumer => [RBrace]
       case Group => [RBrace]
       case _ => [RBracket])
    case StreamGroup(num, gname, last, pendingCnt) =>
      Sep(num) + [LBrace, Text(Lit("group")), Colon, Text(OfElem(Str(gname))), Comma,
       Text(Lit("pending")), Colon, Num(pendingCnt), Comma,
       Text(Lit("last_id")), Colon, Text(OfId(last))]
    case StreamPend(num, id, lastDelivery, deliveryCnt) =>
      Sep(num) + [LBrace, Text(Lit("id")), Colon, Text(OfId(id)), Comma,
       Text(Lit("last_d")), Colon, Num(lastDelivery), Comma,
       Text(Lit("d_cnt")), Colon, Num(deliveryCnt), RBrace]
    case StreamCons(num, cname, pendCnt, lastSeen) =>
      Sep(num) + [LBrace, Text(Lit("name")), Colon, Text(OfElem(Str(cname))), Comma,
       Text(Lit("pending")), Colon, Num(pendCnt), Comma,
       Text(Lit("last_seen")), Colon, Num(lastSeen)]
    case StreamConsPend(num, id) => Sep(num) + [Text(OfId(id))]
    case StartKey => [LBrace] // of a stream; its name and colon come before
    case EndKey => [RBrace]
    case _ => []
  }

  /** The callbacks of JsonOutput between d_start_key and d_end_key of a stream. */
  predicate InStream(e: Event) {
    e.StreamStart? || e.StreamEnd? || e.StreamEntry? || e.StreamInfo? || e.StreamGroup? || e.StreamPend?
    || e.StreamCons? || e.StreamConsPend?
  }

  function Tokens(es: seq<Event>): seq<Token>
    decreases |es|
  {
    if es == [] then [] else Tokens(es[..|es| - 1]) + Shown(es[|es| - 1])
  }

  lemma TokensSnoc(es: seq<Event>, e: Event)
    ensures Tokens(es + [e]) == Tokens(es) + Shown(e)
  {
    assert (es + [e])[..|es|] == es;
  }

  lemma {:induction false} TokensConcat(a: seq<Event>, b: seq<Event>)
    ensures Tokens(a + b) == Tokens(a) + Tokens(b)
    decreases |b|
  {
    hide Shown;
    if b == [] {
      assert a + b == a;
    } else {
      var n := |b| - 1;
      assert a + b == (a + b[..n]) + [b[n]];
      TokensSnoc(a + b[..n], b[n]);
      TokensConcat(a, b[..n]);
      Regroup(Tokens(a), Tokens(b[..n]), Shown(b[n]));
    }
  }

  lemma TokensOne(e: Event)
    ensures Tokens([e]) == Shown(e)
  {
    assert [e][..0] == [];
  }

  // ----- what a completed run has decoded

  datatype ConsDoc = ConsDoc(name: seq<Byte>, lastSeen: nat, ids: seq<StreamId>)
  datatype GroupDoc = GroupDoc(name: seq<Byte>, last: StreamId, pends: seq<Pend>, conss: seq<ConsDoc>)
  datatype StreamDoc = StreamDoc(entries: seq<LiveEntry>, last: StreamId, numElems: nat, groups: seq<GroupDoc>)

  function ConsEvents(d: ConsDoc, num: nat): seq<Event> {
    [StreamCons(num, d.name, |d.ids|, d.lastSeen)]
    + Wrapped(ConsumerPendingList, |d.ids|, true, IdEvents(d.ids)) + [StreamEnd(Consumer)]
  }

  function ConssEvents(ds: seq<ConsDoc>, num: nat): seq<Event>
    decreases ds
  {
    if ds == [] then [] else ConsEvents(ds[0], num) + ConssEvents(ds[1..], num + 1)
  }

  function RestEvents(d: GroupDoc): seq<Event> {
    Wrapped(PendingList, |d.pends|, true, PendEvents(d.pends))
    + Wrapped(ConsumerList, |d.conss|, true, ConssEvents(d.conss, 0))
  }

  function GroupsEvents(ds: seq<GroupDoc>, num: nat): seq<Event>
    decreases ds
  {
    if ds == [] then []
    else
      [StreamGroup(num, ds[0].name, ds[0].last, |ds[0].pends|)] + RestEvents(ds[0]) + [StreamEnd(Group)]
      + GroupsEvents(ds[1..], num + 1)
  }

  function DocEvents(d: StreamDoc): seq<Event> {
    Wrapped(EntryList, |d.entries|, true, EntryEvents(d.entries))
    + ([StreamInfo(d.last, d.numElems, |d.groups|)]
       + Wrapped(GroupList, |d.groups|, true, GroupsEvents(d.groups, 0)))
  }

  lemma {:induction false} ConsumersDoc(c: Cursor, lzf: Inflater, n: nat, num: nat) returns (ds: seq<ConsDoc>)
    requires ConsumersRun(c, lzf, n, num).0 == Done
    ensures |ds| == n && ConsumersRun(c, lzf, n, num).1 == ConssEvents(ds, num)
    decreases n
  {
    hide ConsHeadOf, Ids, Wrapped, IdEvents;
    if n == 0 {
      ds := [];
    } else {
      var h := ConsHeadOf(c, lzf);
      var x := ConsumerRun(c, lzf, num);
      var d := ConsDoc(h.1[0].name, h.1[0].lastSeen, Ids(h.2, h.1[0].pendCnt).1);
      var rest := ConsumersDoc(x.2, lzf, n - 1, num + 1);
      ds := [d] + rest;
      assert ds[1..] == rest;
      assert x.1 == ConsEvents(d, num);
    }
  }

  lemma RestDoc(c: Cursor, lzf: Inflater, h: GroupHead) returns (d: GroupDoc)
    requires GroupRest(c, lzf, h.pendingCnt).0 == Done
    ensures d.name == h.name && d.last == h.last && |d.pends| == h.pendingCnt
    ensures GroupRest(c, lzf, h.pendingCnt).1 == RestEvents(d)
  {
    hide Pends, DecodeLen, ConsumersRun, Wrapped, PendEvents, ConssEvents;
    var ps := Pends(c, h.pendingCnt);
    var n := DecodeLen(ps.2, LengthCodec.ZERO);
    var conss := ConsumersDoc(n.2, lzf, n.1.len, 0);
    d := GroupDoc(h.name, h.last, ps.1, conss);
  }

  lemma {:induction false} GroupsDoc(c: Cursor, lzf: Inflater, v2: bool, n: nat, num: nat, off: LengthCodec.Length)
    returns (ds: seq<GroupDoc>)
    requires GroupsRun(c, lzf, v2, n, num, off).0 == Done
    ensures |ds| == n && GroupsRun(c, lzf, v2, n, num, off).1 == GroupsEvents(ds, num)
    decreases n
  {
    hide GroupHeadOf, GroupRest, RestEvents;
    if n == 0 {
      ds := [];
    } else {
      var h := GroupHeadOf(c, lzf, v2, off);
      var x := GroupRest(h.2, lzf, h.1[0].pendingCnt);
      var d := RestDoc(h.2, lzf, h.1[0]);
      var rest := GroupsDoc(x.2, lzf, v2, n - 1, num + 1, h.3);
      ds := [d] + rest;
      assert ds[1..] == rest;
    }
  }

  /** The events of a completed run are those of some contents. */
  lemma CompletedRun(c: Cursor, lzf: Inflater, v2: bool, n: nat) returns (d: StreamDoc)
    requires StreamRun(c, lzf, v2, n).0 == Done
    ensures d.entries == Blocks(c, lzf, n).1 && StreamRun(c, lzf, v2, n).1 == DocEvents(d)
  {
    hide Blocks, InfoOf, GroupsRun, Wrapped, EntryEvents, GroupsEvents;
    var b := Blocks(c, lzf, n);
    var i := InfoOf(b.2, v2);
    var info := i.1[0];
    var groups := GroupsDoc(i.2, lzf, v2, info.numCgroups, 0, LengthCodec.ZERO);
    d := StreamDoc(b.1, info.last, info.numElems, groups);
  }

  // ----- the document those contents stand for

  function ScalarJson(x: Elem): Json {
    match x
    case Str(_) => JText(OfElem(x))
    case Int(i) => JNum(i)
  }

  function FieldMembers(fields: seq<(Elem, Elem)>): (r: seq<(Label, Json)>)
    ensures |r| == |fields|
  {
    seq(|fields|, i requires 0 <= i < |fields| => (OfElem(fields[i].0), ScalarJson(fields[i].1)))
  }

  function EntryJson(e: LiveEntry): Json {
    JObj([(Lit("id"), JText(OfId(e.id)))] + FieldMembers(e.fields))
  }

  function EntryItems(es: seq<LiveEntry>): (r: seq<Json>)
    ensures |r| == |es|
  {
    seq(|es|, i requires 0 <= i < |es| => EntryJson(es[i]))
  }

  function PendJson(p: Pend): Json {
    JObj([(Lit("id"), JText(OfId(p.id))), (Lit("last_d"), JNum(p.lastDelivery)), (Lit("d_cnt"), JNum(p.deliveryCnt))])
  }

  function PendItems(ps: seq<Pend>): (r: seq<Json>)
    ensures |r| == |ps|
  {
    seq(|ps|, i requires 0 <= i < |ps| => PendJson(ps[i]))
  }

  function IdItems(ids: seq<StreamId>): (r: seq<Json>)
    ensures |r| == |ids|
  {
    seq(|ids|, i requires 0 <= i < |ids| => JText(OfId(ids[i])))
  }

  /** A member that is left out when its list is empty. */
  function ListMember(name: string, items: seq<Json>): seq<(Label, Json)> {
    if items == [] then [] else [(Lit(name), JArr(items))]
  }

  function ConsJson(d: ConsDoc): Json {
    JObj([(Lit("name"), JText(OfElem(Str(d.name)))), (Lit("pending"), JNum(|d.ids|)), (Lit("last_seen"), JNum(d.lastSeen))]
         + ListMember("pel", IdItems(d.ids)))
  }

  function ConsItems(ds: seq<ConsDoc>): (r: seq<Json>)
    ensures |r| == |ds|
  {
    seq(|ds|, i requires 0 <= i < |ds| => ConsJson(ds[i]))
  }

  function GroupJson(d: GroupDoc): Json {
    JObj([(Lit("group"), JText(OfElem(Str(d.name)))), (Lit("pending"), JNum(|d.pends|)), (Lit("last_id"), JText(OfId(d.last)))]
         + ListMember("pel", PendItems(d.pends)) + ListMember("consumers", ConsItems(d.conss)))
  }

  function GroupItems(ds: seq<GroupDoc>): (r: seq<Json>)
    ensures |r| == |ds|
  {
    seq(|ds|, i requires 0 <= i < |ds| => GroupJson(ds[i]))
  }

  function DocJson(d: StreamDoc): Json {
    JObj(ListMember("entries", EntryItems(d.entries))
         + [(Lit("last_id"), JText(OfId(d.last))), (Lit("num_elems"), JNum(d.numElems)), (Lit("num_cgroups"), JNum(|d.groups|))]
         + ListMember("groups", GroupItems(d.groups)))
  }

  // ----- the tokens render the document

  lemma OneMember(m: (Label, Json), t: Token)
    requires Render(m.1) == [t]
    ensures RenderMembers([m]) == [Text(m.0), Colon, t]
  {
    hide Render;
    assert RenderMembers([m]) == RenderMember(m);
    assert [Text(m.0), Colon] + [t] == [Text(m.0), Colon, t];
  }

  lemma ScalarMember(l: Label, x: Elem)
    ensures RenderMembers([(l, ScalarJson(x))]) == [Text(l), Colon, Scalar(x)]
  {
    OneMember((l, ScalarJson(x)), Scalar(x));
  }

  lemma TextMember(l: Label, x: Label)
    ensures RenderMembers([(l, JText(x))]) == [Text(l), Colon, Text(x)]
  {
    OneMember((l, JText(x)), Text(x));
  }

  lemma {:induction false} FieldsRender(fields: seq<(Elem, Elem)>)
    ensures FieldTokens(fields) == RenderMembers(FieldMembers(fields))
    decreases |fields|
  {
    hide ScalarJson, Scalar, RenderMembers;
    if fields == [] {
      NoMembers();
    } else {
      var n := |fields| - 1;
      FieldsRender(fields[..n]);
      ScalarMember(OfElem(fields[n].0), fields[n].1);
      var last := (OfElem(fields[n].0), ScalarJson(fields[n].1));
      assert FieldMembers(fields) == FieldMembers(fields[..n]) + [last];
      if n > 0 {
        MembersConcat(FieldMembers(fields[..n]), [last]);
      } else {
        assert FieldMembers(fields) == [last];
      }
    }
  }

  lemma NoMembers()
    ensures RenderMembers([]) == []
  {}

  lemma ObjRender(ms: seq<(Label, Json)>)
    ensures Render(JObj(ms)) == [LBrace] + RenderMembers(ms) + [RBrace]
  {}

  lemma ArrRender(xs: seq<Json>)
    ensures Render(JArr(xs)) == [LBracket] + RenderItems(xs) + [RBracket]
  {}

  lemma EntryRenders(num: nat, e: LiveEntry)
    requires e.fields != []
    ensures Shown(StreamEntry(num, e.id, e.fields)) == Sep(num) + Render(EntryJson(e))
  {
    hide RenderMembers, FieldMembers, FieldTokens, Render, Sep;
    var id := [(Lit("id"), JText(OfId(e.id)))];
    FieldsRender(e.fields);
    TextMember(Lit("id"), OfId(e.id));
    MembersConcat(id, FieldMembers(e.fields));
    ObjRender(id + FieldMembers(e.fields));
  }

  /** Three scalar members. */
  lemma ThreeMembers(a: (Label, Json), b: (Label, Json), c: (Label, Json), s: Token, t: Token, u: Token)
    requires Render(a.1) == [s] && Render(b.1) == [t] && Render(c.1) == [u]
    ensures RenderMembers([a, b, c])
         == [Text(a.0), Colon, s, Comma, Text(b.0), Colon, t, Comma, Text(c.0), Colon, u]
  {
    hide Render, RenderMembers, RenderMember;
    OneMember(a, s);
    OneMember(b, t);
    OneMember(c, u);
    MembersConcat([a], [b]);
    MembersConcat([a] + [b], [c]);
    assert [a] + [b] + [c] == [a, b, c];
  }

  lemma ScalarsRender(l: Label, n: int)
    ensures Render(JText(l)) == [Text(l)] && Render(JNum(n)) == [Num(n)]
  {}

  lemma PendRenders(num: nat, p: Pend)
    ensures Shown(StreamPend(num, p.id, p.lastDelivery, p.deliveryCnt)) == Sep(num) + Render(PendJson(p))
  {
    hide RenderMembers, Sep, Render;
    var id, last, cnt := (Lit("id"), JText(OfId(p.id))), (Lit("last_d"), JNum(p.lastDelivery)), (Lit("d_cnt"), JNum(p.deliveryCnt));
    ScalarsRender(OfId(p.id), p.lastDelivery);
    ScalarsRender(OfId(p.id), p.deliveryCnt);
    ThreeMembers(id, last, cnt, Text(OfId(p.id)), Num(p.lastDelivery), Num(p.deliveryCnt));
    ObjRender([id, last, cnt]);
    PendTokens(num, p);
  }

  lemma PendTokens(num: nat, p: Pend)
    ensures Shown(StreamPend(num, p.id, p.lastDelivery, p.deliveryCnt))
         == Sep(num) + ([LBrace] + [Text(Lit("id")), Colon, Text(OfId(p.id)), Comma, Text(Lit("last_d")), Colon,
              Num(p.lastDelivery), Comma, Text(Lit("d_cnt")), Colon, Num(p.deliveryCnt)] + [RBrace])
  {
    hide Sep;
  }

  lemma {:induction false} EntriesRender(es: seq<LiveEntry>)
    requires forall e | e in es :: e.fields != []
    ensures Tokens(EntryEvents(es)) == RenderItems(EntryItems(es))
    decreases |es|
  {
    hide Shown, RenderItems, EntryJson, Render;
    if es == [] {
      ItemsNone();
      assert EntryItems(es) == [];
    } else {
      var n, e := |es| - 1, es[|es| - 1];
      EntriesRender(es[..n]);
      assert EntryEvents(es) == EntryEvents(es[..n]) + [StreamEntry(n, e.id, e.fields)];
      assert EntryItems(es) == EntryItems(es[..n]) + [EntryJson(e)];
      TokensSnoc(EntryEvents(es[..n]), StreamEntry(n, e.id, e.fields));
      EntryRenders(n, e);
      ItemsSnoc(EntryItems(es[..n]), EntryJson(e));
      Regroup(Tokens(EntryEvents(es[..n])), Sep(n), Render(EntryJson(e)));
    }
  }

  lemma {:induction false} PendsRender(ps: seq<Pend>)
    ensures Tokens(PendEvents(ps)) == RenderItems(PendItems(ps))
    decreases |ps|
  {
    hide Shown, RenderItems, PendJson, Render;
    if ps == [] {
      ItemsNone();
      assert PendItems(ps) == [];
    } else {
      var n, p := |ps| - 1, ps[|ps| - 1];
      PendsRender(ps[..n]);
      assert PendEvents(ps) == PendEvents(ps[..n]) + [StreamPend(n, p.id, p.lastDelivery, p.deliveryCnt)];
      assert PendItems(ps) == PendItems(ps[..n]) + [PendJson(p)];
      TokensSnoc(PendEvents(ps[..n]), StreamPend(n, p.id, p.lastDelivery, p.deliveryCnt));
      PendRenders(n, p);
      ItemsSnoc(PendItems(ps[..n]), PendJson(p));
      Regroup(Tokens(PendEvents(ps[..n])), Sep(n), Render(PendJson(p)));
    }
  }

  lemma {:induction false} IdsRender(ids: seq<StreamId>)
    ensures Tokens(IdEvents(ids)) == RenderItems(IdItems(ids))
    decreases |ids|
  {
    hide Shown, RenderItems, Render, Tokens;
    if ids == [] {
      ItemsNone();
      NoTokens();
      assert IdItems(ids) == [] && IdEvents(ids) == [];
    } else {
      var n, id := |ids| - 1, ids[|ids| - 1];
      IdsRender(ids[..n]);
      assert IdEvents(ids) == IdEvents(ids[..n]) + [StreamConsPend(n, id)];
      assert IdItems(ids) == IdItems(ids[..n]) + [JText(OfId(id))];
      TokensSnoc(IdEvents(ids[..n]), StreamConsPend(n, id));
      IdRenders(n, id);
      ItemsSnoc(IdItems(ids[..n]), JText(OfId(id)));
      Regroup(Tokens(IdEvents(ids[..n])), Sep(n), Render(JText(OfId(id))));
    }
  }

  lemma IdRenders(num: nat, id: StreamId)
    ensures Shown(StreamConsPend(num, id)) == Sep(num) + Render(JText(OfId(id)))
  {}

  /** A list in the middle of an object: a comma, its name, and its items between brackets. */
  lemma ListRenders(part: StreamPart, name: string, before: seq<(Label, Json)>, events: seq<Event>, items: seq<Json>)
    requires before != [] && (events == [] <==> items == [])
    requires Shown(StreamStart(part)) == [Comma, Text(Lit(name)), Colon, LBracket] && Shown(StreamEnd(part)) == [RBracket]
    requires Tokens(events) == RenderItems(items)
    ensures RenderMembers(before + ListMember(name, items))
         == RenderMembers(before) + Tokens(Wrapped(part, |items|, true, events))
  {
    hide RenderMembers, RenderItems, Shown, Tokens, Render;
    if items == [] {
      assert before + [] == before && [] + events + [] == [];
      NoTokens();
      Regroup(RenderMembers(before), [], []);
    } else {
      var member := (Lit(name), JArr(items));
      MembersConcat(before, [member]);
      ArrayMember(name, items);
      TokensConcat([StreamStart(part)] + events, [StreamEnd(part)]);
      TokensConcat([StreamStart(part)], events);
      TokensOne(StreamStart(part));
      TokensOne(StreamEnd(part));
      var head, body := [Text(Lit(name)), Colon, LBracket], RenderItems(items);
      assert [Comma] + head == [Comma, Text(Lit(name)), Colon, LBracket];
      FiveParts(RenderMembers(before), [Comma], head, body, [RBracket]);
      FiveParts([], [], [Comma] + head, body, [RBracket]);
      assert RenderMembers(before) + [Comma] + (head + body + [RBracket])
          == RenderMembers(before) + ([Comma] + head + body + [RBracket]);
    }
  }

  lemma NoTokens()
    ensures Tokens([]) == []
  {}

  lemma ArrayMember(name: string, items: seq<Json>)
    ensures RenderMembers([(Lit(name), JArr(items))])
         == [Text(Lit(name)), Colon, LBracket] + RenderItems(items) + [RBracket]
  {
    hide RenderItems;
    assert RenderMembers([(Lit(name), JArr(items))]) == RenderMember((Lit(name), JArr(items)));
    ArrRender(items);
  }

  // ----- consumers, groups and the whole

  /** Items that are numbered from num on, each with its comma before it. */
  function Numbered(xs: seq<Json>, num: nat): seq<Token>
    decreases xs
  {
    if xs == [] then [] else Sep(num) + Render(xs[0]) + Numbered(xs[1..], num + 1)
  }

  lemma {:induction false} NumberedLater(xs: seq<Json>, num: nat)
    requires xs != [] && num > 0
    ensures Numbered(xs, num) == [Comma] + RenderItems(xs)
    decreases xs
  {
    hide Render, RenderItems;
    ItemsCons(xs[0], xs[1..]);
    assert [xs[0]] + xs[1..] == xs;
    if |xs| > 1 {
      NumberedLater(xs[1..], num + 1);
    }
  }

  lemma NumberedRenders(xs: seq<Json>)
    ensures Numbered(xs, 0) == RenderItems(xs)
  {
    hide Render, RenderItems;
    if xs == [] {
      ItemsNone();
    } else {
      ItemsCons(xs[0], xs[1..]);
      assert [xs[0]] + xs[1..] == xs;
      if |xs| > 1 {
        NumberedLater(xs[1..], 1);
      }
    }
  }

  /** An object that is opened with three scalars by one callback, and closed by another. */
  lemma ObjectRenders(first: Event, num: nat, ms: seq<(Label, Json)>, more: seq<(Label, Json)>, middle: seq<Event>, last: Event)
    requires Shown(first) == Sep(num) + ([LBrace] + RenderMembers(ms)) && Shown(last) == [RBrace]
    requires RenderMembers(ms + more) == RenderMembers(ms) + Tokens(middle)
    ensures Tokens([first] + middle + [last]) == Sep(num) + Render(JObj(ms + more))
  {
    hide Shown, Render, RenderMembers, Tokens, Sep;
    TokensConcat([first] + middle, [last]);
    TokensConcat([first], middle);
    TokensOne(first);
    TokensOne(last);
    ObjRender(ms + more);
    Regroup(Sep(num), [LBrace] + RenderMembers(ms), Tokens(middle));
    Regroup([LBrace], RenderMembers(ms), Tokens(middle));
    Regroup(Sep(num), [LBrace] + (RenderMembers(ms) + Tokens(middle)), [RBrace]);
  }

  function ConsScalars(d: ConsDoc): seq<(Label, Json)> {
    [(Lit("name"), JText(OfElem(Str(d.name)))), (Lit("pending"), JNum(|d.ids|)), (Lit("last_seen"), JNum(d.lastSeen))]
  }

  lemma ConsShown(d: ConsDoc, num: nat)
    ensures Shown(StreamCons(num, d.name, |d.ids|, d.lastSeen)) == Sep(num) + ([LBrace] + RenderMembers(ConsScalars(d)))
  {
    hide RenderMembers, Sep;
    var s := ConsScalars(d);
    ThreeMembers(s[0], s[1], s[2], Text(OfElem(Str(d.name))), Num(|d.ids|), Num(d.lastSeen));
    assert s == [s[0], s[1], s[2]];
  }

  lemma ConsRenders(d: ConsDoc, num: nat)
    ensures Tokens(ConsEvents(d, num)) == Sep(num) + Render(ConsJson(d))
  {
    hide RenderMembers, Tokens, Render, Sep, Wrapped, IdEvents, IdItems, RenderItems;
    ConsShown(d, num);
    IdsRender(d.ids);
    ListRenders(ConsumerPendingList, "pel", ConsScalars(d), IdEvents(d.ids), IdItems(d.ids));
    ObjectRenders(StreamCons(num, d.name, |d.ids|, d.lastSeen), num, ConsScalars(d), ListMember("pel", IdItems(d.ids)),
      Wrapped(ConsumerPendingList, |d.ids|, true, IdEvents(d.ids)), StreamEnd(Consumer));
  }

  lemma {:induction false} ConssRender(ds: seq<ConsDoc>, num: nat)
    ensures Tokens(ConssEvents(ds, num)) == Numbered(ConsItems(ds), num)
    decreases ds
  {
    hide Tokens, ConsEvents, Render, ConsJson, Sep;
    if ds == [] {
      NoTokens();
    } else {
      assert ConsItems(ds)[1..] == ConsItems(ds[1..]);
      TokensConcat(ConsEvents(ds[0], num), ConssEvents(ds[1..], num + 1));
      ConsRenders(ds[0], num);
      ConssRender(ds[1..], num + 1);
    }
  }

  function GroupScalars(d: GroupDoc): seq<(Label, Json)> {
    [(Lit("group"), JText(OfElem(Str(d.name)))), (Lit("pending"), JNum(|d.pends|)), (Lit("last_id"), JText(OfId(d.last)))]
  }

  lemma GroupShown(d: GroupDoc, num: nat)
    ensures Shown(StreamGroup(num, d.name, d.last, |d.pends|)) == Sep(num) + ([LBrace] + RenderMembers(GroupScalars(d)))
  {
    hide RenderMembers, Sep;
    var s := GroupScalars(d);
    ThreeMembers(s[0], s[1], s[2], Text(OfElem(Str(d.name))), Num(|d.pends|), Text(OfId(d.last)));
    assert s == [s[0], s[1], s[2]];
  }

  lemma GroupRenders(d: GroupDoc, num: nat)
    ensures Tokens([StreamGroup(num, d.name, d.last, |d.pends|)] + RestEvents(d) + [StreamEnd(Group)])
         == Sep(num) + Render(GroupJson(d))
  {
    hide RenderMembers, Tokens, Render, Sep, Wrapped, PendEvents, PendItems, ConssEvents, ConsItems, RenderItems, Numbered,
      ListMember;
    GroupShown(d, num);
    PendsRender(d.pends);
    ConssRender(d.conss, 0);
    NumberedRenders(ConsItems(d.conss));
    ConssEmpty(d.conss);
    var s, pel, conss := GroupScalars(d), ListMember("pel", PendItems(d.pends)), ListMember("consumers", ConsItems(d.conss));
    var w1, w2 := Wrapped(PendingList, |d.pends|, true, PendEvents(d.pends)),
                  Wrapped(ConsumerList, |d.conss|, true, ConssEvents(d.conss, 0));
    ListRenders(PendingList, "pel", s, PendEvents(d.pends), PendItems(d.pends));
    ListRenders(ConsumerList, "consumers", s + pel, ConssEvents(d.conss, 0), ConsItems(d.conss));
    TokensConcat(w1, w2);
    Regroup(RenderMembers(s), Tokens(w1), Tokens(w2));
    Regroup(s, pel, conss);
    ObjectRenders(StreamGroup(num, d.name, d.last, |d.pends|), num, s, pel + conss, w1 + w2, StreamEnd(Group));
  }

  lemma ConssEmpty(ds: seq<ConsDoc>)
    ensures ConssEvents(ds, 0) == [] <==> ds == []
  {}

  lemma GroupsEmpty(ds: seq<GroupDoc>)
    ensures GroupsEvents(ds, 0) == [] <==> ds == []
  {}

  lemma {:induction false} GroupsRender(ds: seq<GroupDoc>, num: nat)
    ensures Tokens(GroupsEvents(ds, num)) == Numbered(GroupItems(ds), num)
    decreases ds
  {
    hide Tokens, RestEvents, Render, GroupJson, Sep;
    if ds == [] {
      NoTokens();
    } else {
      assert GroupItems(ds)[1..] == GroupItems(ds[1..]);
      var first := [StreamGroup(num, ds[0].name, ds[0].last, |ds[0].pends|)] + RestEvents(ds[0]) + [StreamEnd(Group)];
      TokensConcat(first, GroupsEvents(ds[1..], num + 1));
      GroupRenders(ds[0], num);
      GroupsRender(ds[1..], num + 1);
    }
  }

  function StreamScalars(d: StreamDoc): seq<(Label, Json)> {
    [(Lit("last_id"), JText(OfId(d.last))), (Lit("num_elems"), JNum(d.numElems)), (Lit("num_cgroups"), JNum(|d.groups|))]
  }

  lemma StreamShown(d: StreamDoc)
    ensures Shown(StreamInfo(d.last, d.numElems, |d.groups|)) == RenderMembers(StreamScalars(d))
  {
    hide RenderMembers;
    var s := StreamScalars(d);
    ThreeMembers(s[0], s[1], s[2], Text(OfId(d.last)), Num(d.numElems), Num(|d.groups|));
    assert s == [s[0], s[1], s[2]];
  }

  /** The list of entries comes first; its comma comes after it. */
  lemma EntryListRenders(es: seq<LiveEntry>, rest: seq<(Label, Json)>)
    requires (forall e | e in es :: e.fields != []) && rest != []
    ensures Tokens(Wrapped(EntryList, |es|, true, EntryEvents(es))) + RenderMembers(rest)
         == RenderMembers(ListMember("entries", EntryItems(es)) + rest)
  {
    hide RenderMembers, RenderItems, Tokens, EntryEvents, EntryItems, Shown;
    NoTokens();
    var events, items := EntryEvents(es), EntryItems(es);
    if es == [] {
      assert [] + rest == rest && [] + events + [] == [];
    } else {
      EntriesRender(es);
      MembersConcat([(Lit("entries"), JArr(items))], rest);
      ArrayMember("entries", items);
      TokensConcat([StreamStart(EntryList)] + events, [StreamEnd(EntryList)]);
      TokensConcat([StreamStart(EntryList)], events);
      TokensOne(StreamStart(EntryList));
      TokensOne(StreamEnd(EntryList));
      EntryListShown();
      Regroup([Text(Lit("entries")), Colon, LBracket] + RenderItems(items), [RBracket], [Comma]);
      assert [RBracket] + [Comma] == [RBracket, Comma];
    }
  }

  lemma EntryListShown()
    ensures Shown(StreamStart(EntryList)) == [Text(Lit("entries")), Colon, LBracket]
    ensures Shown(StreamEnd(EntryList)) == [RBracket, Comma]
  {}

  /** What the callbacks print between and including d_start_key and d_end_key, after the key. */
  function ObjectTokens(events: seq<Event>): seq<Token> {
    Tokens([StartKey] + events + [EndKey])
  }

  /** The tokens of a document with fields in every entry. */
  lemma DocRenders(d: StreamDoc)
    requires forall e | e in d.entries :: e.fields != []
    ensures ObjectTokens(DocEvents(d)) == Render(DocJson(d))
  {
    hide RenderMembers, RenderItems, Tokens, EntryEvents, EntryItems, GroupsEvents, GroupItems, Shown, Render, Wrapped,
      ListMember, Numbered;
    var s, entries, groups := StreamScalars(d), ListMember("entries", EntryItems(d.entries)), ListMember("groups", GroupItems(d.groups));
    var w1, info, w2 := Wrapped(EntryList, |d.entries|, true, EntryEvents(d.entries)),
                        [StreamInfo(d.last, d.numElems, |d.groups|)],
                        Wrapped(GroupList, |d.groups|, true, GroupsEvents(d.groups, 0));
    StreamShown(d);
    TokensOne(StreamInfo(d.last, d.numElems, |d.groups|));
    GroupsRender(d.groups, 0);
    NumberedRenders(GroupItems(d.groups));
    GroupsEmpty(d.groups);
    GroupListShown();
    ListRenders(GroupList, "groups", s, GroupsEvents(d.groups, 0), GroupItems(d.groups));
    EntryListRenders(d.entries, s + groups);
    Regroup(entries, s, groups);
    TokensConcat(info, w2);
    TokensConcat(w1, info + w2);
    ObjectFrame(DocEvents(d));
    ObjRender(entries + s + groups);
  }

  lemma GroupListShown()
    ensures Shown(StreamStart(GroupList)) == [Comma, Text(Lit("groups")), Colon, LBracket]
    ensures Shown(StreamEnd(GroupList)) == [RBracket]
  {}

  lemma ObjectFrame(events: seq<Event>)
    ensures ObjectTokens(events) == [LBrace] + Tokens(events) + [RBrace]
  {
    TokensConcat([StartKey] + events, [EndKey]);
    TokensConcat([StartKey], events);
    TokensOne(StartKey);
    TokensOne(EndKey);
  }

  // ----- an entry without fields is never well-formed

  lemma BareEntry(num: nat, id: StreamId)
    ensures !Tidy(Shown(StreamEntry(num, id, [])))
  {
    var head := [LBrace, Text(Lit("id")), Colon, Text(OfId(id)), Comma];
    var ts := Shown(StreamEntry(num, id, []));
    assert ts == Sep(num) + head + [] + [RBrace];
    assert ts[|Sep(num)| + 5] == RBrace && ts[|Sep(num)| + 4] == Comma;
  }

  lemma BareAmong(events: seq<Event>, k: nat)
    requires k < |events| && events[k].StreamEntry? && events[k].fields == []
    ensures !Tidy(Tokens(events))
  {
    hide Tokens, Shown, Tidy;
    var e := events[k];
    assert events == events[..k] + [e] + events[k + 1..];
    TokensConcat(events[..k] + [e], events[k + 1..]);
    TokensConcat(events[..k], [e]);
    TokensOne(e);
    BareEntry(e.num, e.id);
    Untidy(Tokens(events[..k]), Shown(e), Tokens(events[k + 1..]));
  }

  /** On any completed decode_stream run the tokens form one well-formed object if and only if every
      live entry has a field: then they render the document of the stream's contents. */
  lemma CompletedJson(c: Cursor, lzf: Inflater, v2: bool, n: nat)
    requires StreamRun(c, lzf, v2, n).0 == Done
    ensures var es, ts := Blocks(c, lzf, n).1, ObjectTokens(StreamRun(c, lzf, v2, n).1);
      ((exists j :: Render(j) == ts) <==> (forall e | e in es :: e.fields != []))
      && ((forall e | e in es :: e.fields != []) ==>
            (exists d: StreamDoc :: d.entries == es && StreamRun(c, lzf, v2, n).1 == DocEvents(d) && ts == Render(DocJson(d))))
  {
    hide StreamRun, Blocks, DocEvents, ObjectTokens, Render, DocJson;
    var d := CompletedRun(c, lzf, v2, n);
    var ts := ObjectTokens(StreamRun(c, lzf, v2, n).1);
    if forall e | e in d.entries :: e.fields != [] {
      DocRenders(d);
      assert Render(DocJson(d)) == ts;
    } else {
      var i :| 0 <= i < |d.entries| && d.entries[i].fields == [];
      var k := BareIn(d, i);
      BareAmong(DocEvents(d), k);
      Untidy([LBrace], Tokens(DocEvents(d)), [RBrace]);
      ObjectFrame(DocEvents(d));
      forall j ensures Render(j) != ts {
        RenderWhole(j);
      }
    }
  }

  lemma BareIn(d: StreamDoc, i: nat) returns (k: nat)
    requires i < |d.entries| && d.entries[i].fields == []
    ensures k < |DocEvents(d)| && DocEvents(d)[k].StreamEntry? && DocEvents(d)[k].fields == []
  {
    hide GroupsEvents;
    k := i + 1;
    assert Wrapped(EntryList, |d.entries|, true, EntryEvents(d.entries))[k] == EntryEvents(d.entries)[i];
  }
}
