/** A stream value from its bytes to its JSON: decode_body (src/rdb_decode.cpp:515-609) with a JsonOutput as
    its output. */
module StreamPrint {
  import opened Bytes
  import opened LengthCodec
  import opened Bufptr
  import opened ListValue
  import opened Events
  import opened Values
  import opened StreamDecode
  import opened Records
  import opened Json
  import opened StreamJson
  import opened StreamNames
  import RdbDecode
  import JsonOutput

  // ----- decode_stream makes the callbacks of streams only

  predicate AllInStream(es: seq<Event>) {
    forall e | e in es :: InStream(e)
  }

  lemma NoneIn()
    ensures AllInStream([])
  {}

  lemma AllConcat(a: seq<Event>, b: seq<Event>)
    requires AllInStream(a) && AllInStream(b)
    ensures AllInStream(a + b)
  {}

  lemma WrappedIn(part: StreamPart, count: nat, done: bool, body: seq<Event>)
    requires AllInStream(body)
    ensures AllInStream(Wrapped(part, count, done, body))
  {}

  lemma ConsumerIn(c: Cursor, lzf: Inflater, num: nat)
    ensures AllInStream(ConsumerRun(c, lzf, num).1)
  {
    hide ConsHeadOf, Ids, Wrapped;
    var h := ConsHeadOf(c, lzf);
    if h.0 == Done {
      var ids := Ids(h.2, h.1[0].pendCnt);
      WrappedIn(ConsumerPendingList, h.1[0].pendCnt, ids.0 == Ok, IdEvents(ids.1));
    }
  }

  lemma {:induction false} ConsumersIn(c: Cursor, lzf: Inflater, n: nat, num: nat)
    ensures AllInStream(ConsumersRun(c, lzf, n, num).1)
    decreases n
  {
    hide ConsumerRun, AllInStream;
    NoneIn();
    if n > 0 {
      var x := ConsumerRun(c, lzf, num);
      ConsumerIn(c, lzf, num);
      ConsumersIn(x.2, lzf, n - 1, num + 1);
      AllConcat(x.1, ConsumersRun(x.2, lzf, n - 1, num + 1).1);
    }
  }

  lemma RestIn(c: Cursor, lzf: Inflater, pendingCnt: nat)
    ensures AllInStream(GroupRest(c, lzf, pendingCnt).1)
  {
    hide Pends, DecodeLen, ConsumersRun, Wrapped, AllInStream;
    var ps := Pends(c, pendingCnt);
    PendsIn(ps.1);
    WrappedIn(PendingList, pendingCnt, ps.0 == Ok, PendEvents(ps.1));
    var n := DecodeLen(ps.2, ZERO);
    var cs := ConsumersRun(n.2, lzf, n.1.len, 0);
    ConsumersIn(n.2, lzf, n.1.len, 0);
    WrappedIn(ConsumerList, n.1.len, cs.0 == Done, cs.1);
    AllConcat(Wrapped(PendingList, pendingCnt, ps.0 == Ok, PendEvents(ps.1)),
      Wrapped(ConsumerList, n.1.len, cs.0 == Done, cs.1));
  }

  lemma PendsIn(ps: seq<Pend>)
    ensures AllInStream(PendEvents(ps))
  {}

  lemma {:induction false} GroupsIn(c: Cursor, lzf: Inflater, v2: bool, n: nat, num: nat, off: Length)
    ensures AllInStream(GroupsRun(c, lzf, v2, n, num, off).1)
    decreases n
  {
    hide GroupHeadOf, GroupRest;
    if n > 0 {
      var h := GroupHeadOf(c, lzf, v2, off);
      if h.0 == Done {
        var x := GroupRest(h.2, lzf, h.1[0].pendingCnt);
        RestIn(h.2, lzf, h.1[0].pendingCnt);
        GroupsIn(x.2, lzf, v2, n - 1, num + 1, h.3);
      }
    }
  }

  lemma StreamIn(c: Cursor, lzf: Inflater, v2: bool, n: nat)
    ensures AllInStream(StreamRun(c, lzf, v2, n).1)
  {
    hide Blocks, Trace, InfoOf, GroupsRun, Wrapped;
    var b := Blocks(c, lzf, n);
    WrappedIn(EntryList, |b.1|, b.0 == Ok, EntryEvents(b.1));
    if InfoOf(b.2, v2).0 == Ok {
      var info := InfoOf(b.2, v2).1[0];
      var g := GroupsRun(InfoOf(b.2, v2).2, lzf, v2, info.numCgroups, 0, ZERO);
      GroupsIn(InfoOf(b.2, v2).2, lzf, v2, info.numCgroups, 0, ZERO);
      WrappedIn(GroupList, info.numCgroups, g.0 == Done, g.1);
    }
  }

  lemma BodyIn(t: RdbType, l: Length, c: Cursor, lzf: Inflater)
    requires IsStream(t)
    ensures var es := BodyOf(t, l, c, lzf).1;
      es != [] && es[0] == StartKey && forall i | 0 < i < |es| :: InStream(es[i]) || es[i] == EndKey
  {
    hide StreamRun, InStream;
    StreamIn(c, lzf, t == RStreamListpacks2, l.len);
  }

  // ----- from bytes to JSON

  /** A document was printed behind p: the tokens behind it are one well-formed object. */
  ghost predicate PrintedObject(p: seq<Token>, stdout: seq<Token>) {
    exists j :: p + Render(j) == stdout
  }

  /** The value of a stream is decoded and printed. If decode_body reports success, a well-formed object was
      printed if and only if every group and consumer name is readable and every live entry has a field. */
  method PrintStream(dec: RdbDecode.RdbDecode, bptr: RdbBufptr, json: JsonOutput.JsonOutput, key: Label)
    returns (err: Status)
    requires bptr.Valid() && IsStream(dec.t)
    modifies bptr, dec.out, json
    ensures bptr.Valid()
    ensures err == StatusOf(BodyOf(dec.t, dec.rlen.View(), old(bptr.View()), bptr.lzf).0)
    ensures err != OutOfBounds ==>
      json.stdout == old(json.stdout) + Sep(old(json.dCnt)) + [Text(key), Colon]
                     + Tokens(BodyOf(dec.t, dec.rlen.View(), old(bptr.View()), bptr.lzf).1)
    ensures err == Ok ==>
      (PrintedObject(old(json.stdout) + Sep(old(json.dCnt)) + [Text(key), Colon], json.stdout)
       <==> (AllReadable(NamesOf(old(bptr.View()), bptr.lzf, dec.t == RStreamListpacks2, dec.rlen.len), bptr.lzf)
             && forall e | e in Blocks(old(bptr.View()), bptr.lzf, dec.rlen.len).1 :: e.fields != []))
  {
    hide BodyOf, Tokens, AllReadable, NamesOf, Blocks, Render, InStream, Sep, DocEvents;
    ghost var c, l, before := bptr.View(), dec.rlen.View(), dec.out.events;
    ghost var p := json.stdout + Sep(json.dCnt) + [Text(key), Colon];
    BodyIn(dec.t, l, c, bptr.lzf);
    var n := |dec.out.events|;
    ghost var e;
    err, e := dec.DecodeBody(bptr);
    if err == OutOfBounds {
      return;
    }
    var es := dec.out.events[n..];
    assert es == BodyOf(dec.t, l, c, bptr.lzf).1;
    json.Play(key, es);
    if err == Ok {
      ReportedJson(dec.t, l, c, bptr.lzf);
      Behind(p, Tokens(es));
    }
  }

  lemma Behind(p: seq<Token>, ts: seq<Token>)
    ensures PrintedObject(p, p + ts) <==> exists j :: Render(j) == ts
  {
    hide Render;
    if PrintedObject(p, p + ts) {
      var j :| p + Render(j) == p + ts;
      assert (p + Render(j))[|p|..] == Render(j) && (p + ts)[|p|..] == ts;
    }
  }
}
