/** JsonOutput, as far as streams go (src/rdb_json.cpp:64-69, 135-237 and 275-406): every callback appends
    tokens. */
module JsonOutput {
  import opened Bytes
  import opened ListValue
  import opened Events
  import opened Json
  import opened StreamJson

  class JsonOutput {
    var stdout: seq<Token>
    var dCnt: nat

    constructor ()
      ensures stdout == [] && dCnt == 0
    {
      stdout, dCnt := [], 0;
    }

    method Print(ts: seq<Token>)
      modifies this`stdout
      ensures stdout == old(stdout) + ts
    {
      stdout := stdout + ts;
    }

    /** A comma, unless nothing was printed on this level. */
    method Tab(test: bool)
      modifies this`stdout
      ensures stdout == old(stdout) + (if test then [Comma] else [])
    {
      if test {
        Print([Comma]);
      }
    }

    /** A comma, unless num is zero, and the tokens of one callback. */
    method PrintItem(num: nat, ts: seq<Token>)
      modifies this`stdout
      ensures stdout == old(stdout) + (Sep(num) + ts)
    {
      Tab(num != 0);
      Print(ts);
    }

    /** comma_nl. */
    method CommaNl()
      modifies this
      ensures stdout == old(stdout) + Sep(old(dCnt)) && dCnt == old(dCnt) + 1
    {
      Tab(dCnt != 0);
      dCnt := dCnt + 1;
    }

    /** d_start_key of a stream; key is the key, or the name of the type in a dump. */
    method DStartKey(key: Label)
      modifies this
      ensures dCnt == old(dCnt) + 1
      ensures stdout == old(stdout) + Sep(old(dCnt)) + [Text(key), Colon] + Shown(StartKey)
    {
      CommaNl();
      Print([Text(key)]);
      Print([Colon, LBrace]);
      assert [Text(key)] + [Colon, LBrace] == [Text(key), Colon] + [LBrace];
    }

    method DEndKey()
      modifies this`stdout
      ensures stdout == old(stdout) + Shown(EndKey)
    {
      Print([RBrace]);
    }

    method DStreamEntry(num: nat, id: StreamId, fields: seq<(Elem, Elem)>)
      modifies this`stdout
      ensures stdout == old(stdout) + Shown(StreamEntry(num, id, fields))
    {
      hide FieldTokens;
      ghost var before, head := stdout, [LBrace, Text(Lit("id")), Colon, Text(OfId(id)), Comma];
      Tab(num != 0);
      Print([LBrace, Text(Lit("id")), Colon, Text(OfId(id)), Comma]);
      PrintFields(fields);
      Print([RBrace]);
      EntryParts(before, Sep(num), head, FieldTokens(fields), [RBrace]);
    }

    /** The fields and values of an entry. */
    method PrintFields(fields: seq<(Elem, Elem)>)
      modifies this`stdout
      ensures stdout == old(stdout) + FieldTokens(fields)
    {
      hide FieldTokens, Scalar;
      ghost var before := stdout;
      NoFields();
      var i := 0;
      while i < |fields|
        invariant 0 <= i <= |fields| && stdout == before + FieldTokens(fields[..i])
      {
        FieldsMore(fields[..i], fields[i]);
        assert fields[..i + 1] == fields[..i] + [fields[i]];
        Tab(i > 0);
        Print([Text(OfElem(fields[i].0)), Colon, Scalar(fields[i].1)]);
        i := i + 1;
      }
      assert fields[..i] == fields;
    }

    method DStreamInfo(last: StreamId, numElems: nat, numCgroups: nat)
      modifies this`stdout
      ensures stdout == old(stdout) + Shown(StreamInfo(last, numElems, numCgroups))
    {
      Print([Text(Lit("last_id")), Colon, Text(OfId(last)), Comma, Text(Lit("num_elems")), Colon, Num(numElems), Comma,
             Text(Lit("num_cgroups")), Colon, Num(numCgroups)]);
    }

    method DStreamStart(part: StreamPart)
      modifies this`stdout
      ensures stdout == old(stdout) + Shown(StreamStart(part))
    {
      match part
      case EntryList => Print([Text(Lit("entries")), Colon, LBracket]);
      case GroupList => Print([Comma, Text(Lit("groups")), Colon, LBracket]);
      case PendingList => Print([Comma, Text(Lit("pel")), Colon, LBracket]);
      case ConsumerList => Print([Comma, Text(Lit("consumers")), Colon, LBracket]);
      case ConsumerPendingList => Print([Comma, Text(Lit("pel")), Colon, LBracket]);
      case Consumer => Print([]);
      case Group => Print([]);
    }

    method DStreamEnd(part: StreamPart)
      modifies this`stdout
      ensures stdout == old(stdout) + Shown(StreamEnd(part))
    {
      match part
      case EntryList => Print([RBracket, Comma]);
      case Consumer => Print([RBrace]);
      case Group => Print([RBrace]);
      case GroupList => Print([RBracket]);
      case PendingList => Print([RBracket]);
      case ConsumerList => Print([RBracket]);
      case ConsumerPendingList => Print([RBracket]);
    }

    method DStreamGroup(num: nat, gname: seq<Byte>, last: StreamId, pendingCnt: nat)
      modifies this`stdout
      ensures stdout == old(stdout) + Shown(StreamGroup(num, gname, last, pendingCnt))
    {
      PrintItem(num, [LBrace, Text(Lit("group")), Colon, Text(OfElem(Str(gname))), Comma, Text(Lit("pending")), Colon,
                      Num(pendingCnt), Comma, Text(Lit("last_id")), Colon, Text(OfId(last))]);
    }

    method DStreamPend(num: nat, id: StreamId, lastDelivery: nat, deliveryCnt: nat)
      modifies this`stdout
      ensures stdout == old(stdout) + Shown(StreamPend(num, id, lastDelivery, deliveryCnt))
    {
      PrintItem(num, [LBrace, Text(Lit("id")), Colon, Text(OfId(id)), Comma, Text(Lit("last_d")), Colon, Num(lastDelivery),
                      Comma, Text(Lit("d_cnt")), Colon, Num(deliveryCnt), RBrace]);
    }

    method DStreamCons(num: nat, cname: seq<Byte>, pendCnt: nat, lastSeen: nat)
      modifies this`stdout
      ensures stdout == old(stdout) + Shown(StreamCons(num, cname, pendCnt, lastSeen))
    {
      PrintItem(num, [LBrace, Text(Lit("name")), Colon, Text(OfElem(Str(cname))), Comma, Text(Lit("pending")), Colon,
                      Num(pendCnt), Comma, Text(Lit("last_seen")), Colon, Num(lastSeen)]);
    }

    method DStreamConsPend(num: nat, id: StreamId)
      modifies this`stdout
      ensures stdout == old(stdout) + Shown(StreamConsPend(num, id))
    {
      PrintItem(num, [Text(OfId(id))]);
    }

    /** The callback that a decoder makes for an event inside a stream, or at its end. */
    method Callback(e: Event)
      requires InStream(e) || e == EndKey
      modifies this`stdout
      ensures stdout == old(stdout) + Shown(e)
    {
      hide Shown;
      match e
      case StreamStart(part) => DStreamStart(part);
      case StreamEnd(part) => DStreamEnd(part);
      case StreamEntry(num, id, fields) => DStreamEntry(num, id, fields);
      case StreamInfo(last, numElems, numCgroups) => DStreamInfo(last, numElems, numCgroups);
      case StreamGroup(num, gname, last, pendingCnt) => DStreamGroup(num, gname, last, pendingCnt);
      case StreamPend(num, id, lastDelivery, deliveryCnt) => DStreamPend(num, id, lastDelivery, deliveryCnt);
      case StreamCons(num, cname, pendCnt, lastSeen) => DStreamCons(num, cname, pendCnt, lastSeen);
      case StreamConsPend(num, id) => DStreamConsPend(num, id);
      case EndKey => DEndKey();
    }

    /** What is printed for the callbacks of a stream: its name, and its tokens. */
    method Play(key: Label, es: seq<Event>)
      requires es != [] && es[0] == StartKey && forall i | 0 < i < |es| :: InStream(es[i]) || es[i] == EndKey
      modifies this
      ensures dCnt == old(dCnt) + 1
      ensures stdout == old(stdout) + Sep(old(dCnt)) + [Text(key), Colon] + Tokens(es)
    {
      hide Shown, Tokens;
      DStartKey(key);
      ghost var before := old(stdout) + Sep(old(dCnt)) + [Text(key), Colon];
      TokensOne(StartKey);
      var i := 1;
      assert es[..1] == [StartKey];
      while i < |es|
        invariant 1 <= i <= |es| && dCnt == old(dCnt) + 1 && stdout == before + Tokens(es[..i])
      {
        assert es[..i + 1] == es[..i] + [es[i]];
        TokensSnoc(es[..i], es[i]);
        Regroup(before, Tokens(es[..i]), Shown(es[i]));
        Callback(es[i]);
        i := i + 1;
      }
      assert es[..i] == es;
    }
  }

  lemma EntryParts<T>(before: seq<T>, sep: seq<T>, head: seq<T>, fields: seq<T>, close: seq<T>)
    ensures before + sep + head + fields + close == before + (sep + head + fields + close)
  {}

  lemma NoFields()
    ensures FieldTokens([]) == []
  {}

  lemma FieldsMore(fields: seq<(Elem, Elem)>, f: (Elem, Elem))
    ensures FieldTokens(fields + [f])
         == FieldTokens(fields) + Sep(|fields|) + [Text(OfElem(f.0)), Colon, Scalar(f.1)]
  {
    hide Scalar;
    assert (fields + [f])[..|fields|] == fields;
  }
}
