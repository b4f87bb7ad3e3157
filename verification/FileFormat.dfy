/** The layout of an RDB file up to the value of a record (rdb.adoc:18-300), and the proof that decode_hdr
    finds in it what was put there (src/rdb_decode.cpp:237-421). */
module FileFormat {
  import opened Bytes
  import opened LengthCodec
  import opened Bufptr
  import opened ListValue
  import opened Events
  import opened Encoded
  import opened Header

  // ----- meta codes

  /** A meta code with numbers in its range. */
  datatype MetaDoc = Code(e: Event) | AuxCode(name: AuxStr, value: AuxStr)

  predicate MetaFits(m: MetaDoc, lzf: Inflater) {
    match m
    case AuxCode(x, y) => AuxFits(x, lzf) && AuxFits(y, lzf)
    case Code(e) =>
      match e
      case Idle(i) => i < TWO64
      case Freq(_) => true
      case Dbresize(i, j) => i < TWO64 && j < TWO64
      case ExpiredMs(ms) => ms < TWO64
      case Expired(sec) => sec < TWO32
      case Dbselect(db) => db < TWO32
      case _ => false
  }

  predicate AllMetaFit(ms: seq<MetaDoc>, lzf: Inflater) {
    forall m | m in ms :: MetaFits(m, lzf)
  }

  function MetaBytes(m: MetaDoc, lzf: Inflater): (r: seq<Byte>)
    requires MetaFits(m, lzf)
    ensures r != [] && r[0] >= 0xf7
  {
    match m
    case AuxCode(x, y) => [0xfa] + (AuxBytes(x, lzf) + AuxBytes(y, lzf))
    case Code(e) =>
      match e
      case Idle(i) => [0xf8] + EncodeLen(i)
      case Freq(f) => [0xf9] + [f]
      case Dbresize(i, j) => [0xfb] + (EncodeLen(i) + EncodeLen(j))
      case ExpiredMs(ms) => [0xfc] + Le(ms, 8)
      case Expired(sec) => [0xfd] + Le(sec, 4)
      case Dbselect(db) => [0xfe] + EncodeLen(db)
  }

  function MetaEvent(m: MetaDoc): Event {
    match m
    case AuxCode(x, y) => Aux(AuxElem(x), AuxElem(y))
    case Code(e) => e
  }

  function MetasBytes(ms: seq<MetaDoc>, lzf: Inflater): seq<Byte>
    requires AllMetaFit(ms, lzf)
  {
    if ms == [] then [] else MetaBytes(ms[0], lzf) + MetasBytes(ms[1..], lzf)
  }

  function MetaEvents(ms: seq<MetaDoc>): seq<Event> {
    if ms == [] then [] else [MetaEvent(ms[0])] + MetaEvents(ms[1..])
  }

  /** Behind a compressed second string the block is used up. */
  predicate Stops(m: MetaDoc) { m.AuxCode? && m.value.Packed? }

  /** The first such code, or the number of codes if there is none. */
  function FirstStop(ms: seq<MetaDoc>): (r: nat)
    ensures r <= |ms|
    ensures r == |ms| <==> forall m | m in ms :: !Stops(m)
  {
    if ms == [] then 0 else if Stops(ms[0]) then 0 else 1 + FirstStop(ms[1..])
  }

  lemma PlainRead(x: nat, rest: seq<Byte>)
    requires x < TWO64
    ensures PlainLen(Start(EncodeLen(x) + rest)) == (Ok, [x], Start(rest))
  {
    hide EncodeLen, DecodeLen;
    LenHeader(ZERO, x, rest);
  }

  lemma AuxRead(x: Elem, rest: seq<Byte>, lzf: Inflater)
    requires Encodable(x)
    ensures AuxOf(Start(Encode(x) + rest), lzf) == (Ok, [x], Start(rest))
  {
    hide EncodeLen, EncodeInt, DecodeLen, Incr;
    match x
    case Str(s) =>
      Regroup(EncodeLen(|s|), s, rest);
      LenHeader(ZERO, |s|, s + rest);
      TakeData(s, rest);
    case Int(i) =>
      IntHeader(i, rest);
  }

  /** A string behind the aux code; a compressed one leaves its block, which the next header pops. */
  lemma AuxStrRead(a: AuxStr, rest: seq<Byte>, lzf: Inflater)
    requires AuxFits(a, lzf) && rest != []
    ensures AuxOf(Start(AuxBytes(a, lzf) + rest), lzf)
         == (Ok, [AuxElem(a)], if a.Packed? then Cursor(rest, Some([]), true) else Start(rest))
  {
    hide Encode, EncodeLen, DecodeLen, Encodable;
    match a
    case Plain(x) => AuxRead(x, rest, lzf);
    case Packed(z, s) =>
      LzfHeader(|z|, |s|, z + rest);
      Regroup([0xc3] + EncodeLen(|z|) + EncodeLen(|s|), z, rest);
      assert (z + rest)[..|z|] == z && (z + rest)[|z|..] == rest;
      assert s[..|s|] == s && s[|s|..] == [];
  }

  lemma Popped(rest: seq<Byte>, lzf: Inflater)
    requires rest != []
    ensures AuxOf(Cursor(rest, Some([]), true), lzf) == AuxOf(Start(rest), lzf)
  {
    hide DecodeAt, Consume;
  }

  lemma AuxCodeRead(x: AuxStr, y: AuxStr, rest: seq<Byte>, lzf: Inflater)
    requires AuxFits(x, lzf) && AuxFits(y, lzf) && rest != []
    ensures Meta(Start([0xfa] + (AuxBytes(x, lzf) + AuxBytes(y, lzf)) + rest), lzf)
         == (Ok, [Aux(AuxElem(x), AuxElem(y))], if y.Packed? then Cursor(rest, Some([]), true) else Start(rest))
  {
    hide AuxBytes, AuxOf, AuxFits;
    var a, b := AuxBytes(x, lzf), AuxBytes(y, lzf);
    Regroup([0xfa], a + b, rest);
    Regroup(a, b, rest);
    CodeCut(0xfa, a + (b + rest));
    AuxStrRead(x, b + rest, lzf);
    AuxStrRead(y, rest, lzf);
    Popped(b + rest, lzf);
  }

  lemma NumberRead(x: nat, n: nat, rest: seq<Byte>)
    requires x < Pow256(n)
    ensures Incr(Start(Le(x, n) + rest), n) == Some((Le(x, n), Start(rest))) && FromLe(Le(x, n)) == x
  {
    hide Incr, Le, FromLe;
    TakeData(Le(x, n), rest);
    LeRoundTrip(x, n);
  }

  lemma Powers()
    ensures Pow256(4) == TWO32 && Pow256(8) == TWO64
  {}

  /** The cursor behind the code byte. */
  lemma CodeCut(code: Byte, rest: seq<Byte>)
    ensures var c := Start([code] + rest);
      c.Cur() != [] && c.Cur()[0] == code && c.WithCur(c.Cur()[1..]) == Start(rest)
  {
    assert ([code] + rest)[1..] == rest;
  }

  lemma MetaRead(m: MetaDoc, rest: seq<Byte>, lzf: Inflater)
    requires MetaFits(m, lzf) && rest != []
    ensures (MetaBytes(m, lzf) + rest)[0] >= 0xf7
    ensures Meta(Start(MetaBytes(m, lzf) + rest), lzf)
         == (Ok, [MetaEvent(m)], if Stops(m) then Cursor(rest, Some([]), true) else Start(rest))
  {
    hide Meta, AuxBytes, AuxFits;
    match m
    case AuxCode(x, y) => AuxCodeRead(x, y, rest, lzf);
    case Code(e) => CodeRead(e, rest, lzf);
  }

  lemma CodeRead(e: Event, rest: seq<Byte>, lzf: Inflater)
    requires MetaFits(Code(e), lzf)
    ensures Meta(Start(MetaBytes(Code(e), lzf) + rest), lzf) == (Ok, [e], Start(rest))
  {
    hide EncodeLen, Le, FromLe, PlainLen, AuxOf, Incr, Pow256;
    Powers();
    match e
    case Idle(i) =>
      Regroup([0xf8], EncodeLen(i), rest);
      CodeCut(0xf8, EncodeLen(i) + rest);
      PlainRead(i, rest);
    case Freq(f) =>
      Regroup([0xf9], [f], rest);
      CodeCut(0xf9, [f] + rest);
      TakeData([f], rest);
    case Dbresize(i, j) =>
      Regroup([0xfb], EncodeLen(i) + EncodeLen(j), rest);
      Regroup(EncodeLen(i), EncodeLen(j), rest);
      CodeCut(0xfb, EncodeLen(i) + (EncodeLen(j) + rest));
      PlainRead(i, EncodeLen(j) + rest);
      PlainRead(j, rest);
    case ExpiredMs(ms) =>
      Regroup([0xfc], Le(ms, 8), rest);
      CodeCut(0xfc, Le(ms, 8) + rest);
      NumberRead(ms, 8, rest);
    case Expired(sec) =>
      Regroup([0xfd], Le(sec, 4), rest);
      CodeCut(0xfd, Le(sec, 4) + rest);
      NumberRead(sec, 4, rest);
    case Dbselect(db) =>
      Regroup([0xfe], EncodeLen(db), rest);
      CodeCut(0xfe, EncodeLen(db) + rest);
      PlainRead(db, rest);
  }

  /** What the loop over meta codes leaves: it reports them in order and ends at the type byte, unless one
      of them has a compressed second string; then it ends behind that one. */
  function LoopResult(ms: seq<MetaDoc>, rest: seq<Byte>, lzf: Inflater): Metas
    requires AllMetaFit(ms, lzf)
  {
    var k := FirstStop(ms);
    if k == |ms| then (Ok, MetaEvents(ms), Start(rest))
    else (Ok, MetaEvents(ms[..k + 1]), Cursor(MetasBytes(ms[k + 1..], lzf) + rest, Some([]), true))
  }

  /** The meta codes in front of a record. */
  lemma {:induction false} MetasRead(ms: seq<MetaDoc>, rest: seq<Byte>, lzf: Inflater)
    requires AllMetaFit(ms, lzf) && rest != [] && rest[0] < 0xf7
    ensures MetaLoop(Start(MetasBytes(ms, lzf) + rest), lzf) == LoopResult(ms, rest, lzf)
    decreases ms
  {
    hide Meta, MetaBytes, MetaFits, Stops, MetaEvent, LoopResult, MetaLoop;
    if ms == [] {
      NoMetas(rest, lzf);
      assert [] + rest == rest;
    } else {
      var first, more := MetaBytes(ms[0], lzf), MetasBytes(ms[1..], lzf) + rest;
      Regroup(first, MetasBytes(ms[1..], lzf), rest);
      MetaRead(ms[0], more, lzf);
      LoopUnfold(Start(first + more), lzf);
      ResultCons(ms, rest, lzf);
      if Stops(ms[0]) {
        UsedUp(more, lzf);
      } else {
        MetasRead(ms[1..], rest, lzf);
      }
    }
  }

  lemma NoMetas(rest: seq<Byte>, lzf: Inflater)
    requires rest != [] && rest[0] < 0xf7
    ensures MetaLoop(Start(rest), lzf) == LoopResult([], rest, lzf)
  {
    hide Meta;
  }

  lemma UsedUp(main: seq<Byte>, lzf: Inflater)
    ensures MetaLoop(Cursor(main, Some([]), true), lzf) == (Ok, [], Cursor(main, Some([]), true))
  {
    hide Meta;
  }

  lemma ResultCons(ms: seq<MetaDoc>, rest: seq<Byte>, lzf: Inflater)
    requires AllMetaFit(ms, lzf) && ms != []
    ensures var more := MetasBytes(ms[1..], lzf) + rest;
      LoopResult(ms, rest, lzf) ==
        if Stops(ms[0]) then (Ok, [MetaEvent(ms[0])] + [], Cursor(more, Some([]), true))
        else
          var r := LoopResult(ms[1..], rest, lzf);
          (r.0, [MetaEvent(ms[0])] + r.1, r.2)
  {
    hide MetaBytes, MetaFits, MetaEvent, Stops;
    var k := FirstStop(ms);
    if Stops(ms[0]) {
      assert ms[..1][1..] == [];
      assert MetaEvents(ms[..1]) == [MetaEvent(ms[0])] + MetaEvents([]);
    } else if k < |ms| {
      assert FirstStop(ms[1..]) == k - 1;
      assert ms[..k + 1][1..] == ms[1..][..k];
      assert MetaEvents(ms[..k + 1]) == [MetaEvent(ms[0])] + MetaEvents(ms[1..][..k]);
      assert ms[k + 1..] == ms[1..][k..];
    }
  }

  lemma LoopUnfold(c: Cursor, lzf: Inflater)
    requires c.Cur() != [] && c.Cur()[0] >= 0xf7 && Meta(c, lzf).0 == Ok
    ensures var m := Meta(c, lzf);
      MetaLoop(c, lzf) == (MetaLoop(m.2, lzf).0, m.1 + MetaLoop(m.2, lzf).1, MetaLoop(m.2, lzf).2)
  {
    hide Meta;
    MetaShrinks(c, lzf);
  }

  // ----- a record

  /** Type byte, key, and the length in front of the value. */
  function LeadBytes(t: Byte, key: Elem, n: nat): seq<Byte>
    requires Encodable(key) && n < TWO64
  {
    [t] + (Encode(key) + EncodeLen(n))
  }

  lemma LeadRead(t: Byte, key: Elem, n: nat, rest: seq<Byte>, lzf: Inflater)
    requires GetRdbType(t) != BadType && Encodable(key) && n < TWO64
    ensures LeadOf(Start(LeadBytes(t, key, n) + rest), lzf, true)
         == Lead(Ok, GetRdbType(t), Some(key), ZERO.(len := n), Start(rest))
  {
    hide EncodeLen, Encode, DecodeLen, AuxOf, GetRdbType;
    Regroup([t], Encode(key) + EncodeLen(n), rest);
    Regroup(Encode(key), EncodeLen(n), rest);
    CodeCut(t, Encode(key) + (EncodeLen(n) + rest));
    AuxRead(key, EncodeLen(n) + rest, lzf);
    LenHeader(ZERO, n, rest);
  }

  // ----- a file

  /** REDIS, and four digits. */
  function FileHead(ver: nat): (r: seq<Byte>)
    requires ver < 100
    ensures |r| == 9
  {
    MAGIC + [0x30 + ver / 10, 0x30 + ver % 10]
  }

  lemma VersionDigits(ver: nat)
    requires ver < 100
    ensures Digits(FileHead(ver)[5..9]) == Some(ver)
  {
    var a, b := 0x30 + ver / 10, 0x30 + ver % 10;
    assert FileHead(ver)[5..9] == [0x30, 0x30, a, b];
    assert [0x30, 0x30, a, b][..3] == [0x30, 0x30, a] && [0x30, 0x30, a][..2] == [0x30, 0x30];
    assert [0x30, 0x30][..1] == [0x30] && [0x30][..0] == [];
    assert Digits([0x30]) == Some(0);
    assert Digits([0x30, 0x30]) == Some(0);
    assert Digits([0x30, 0x30, a]) == Some(ver / 10);
  }

  lemma FileOpens(ver: nat, rest: seq<Byte>)
    requires ver < 100 && rest != []
    ensures var o := Open(Start(FileHead(ver) + rest), false);
      o.err == Ok && o.isFile && o.ver == ver && o.c == Start(rest)
  {
    hide Digits, FromLe;
    VersionDigits(ver);
    var b := FileHead(ver) + rest;
    assert b[..7] == MAGIC && b[5..9] == FileHead(ver)[5..9] && b[9..] == rest;
  }

  /** The first record of a file: its version, the meta codes, then type, key and length. A file needs no
      checksum to agree. If a meta code has a compressed second string, decode_hdr fails instead. */
  lemma FileRoundTrip(ver: nat, ms: seq<MetaDoc>, t: Byte, key: Elem, n: nat, rest: seq<Byte>, lzf: Inflater)
    requires ver < 100 && AllMetaFit(ms, lzf)
    requires GetRdbType(t) != BadType && Encodable(key) && n < TWO64
    ensures var h := HdrOf(Version(0, false), Start(FileHead(ver) + (MetasBytes(ms, lzf) + (LeadBytes(t, key, n) + rest))), lzf);
      if forall m | m in ms :: !Stops(m) then
        h == Hdr(Version(ver, true), MetaEvents(ms) + [StartType(GetRdbType(t))],
                 Lead(Ok, GetRdbType(t), Some(key), ZERO.(len := n), Start(rest)))
      else h.lead.err == ErrTrunc && h.v == Version(ver, true) && h.events == MetaEvents(ms[..FirstStop(ms) + 1])
  {
    hide FileHead, MetasBytes, Open, MetaLoop, LeadOf, GetRdbType, Encodable, MetaFits, Stops, MetaEvent, MetaEvents;
    KnownType(t);
    LeadFront(t, key, n, rest);
    FileOpens(ver, MetasBytes(ms, lzf) + (LeadBytes(t, key, n) + rest));
    MetasRead(ms, LeadBytes(t, key, n) + rest, lzf);
    LeadRead(t, key, n, rest, lzf);
    if FirstStop(ms) < |ms| {
      NoLead(MetasBytes(ms[FirstStop(ms) + 1..], lzf) + (LeadBytes(t, key, n) + rest), lzf);
    }
  }

  lemma NoLead(main: seq<Byte>, lzf: Inflater)
    ensures var lead := LeadOf(Cursor(main, Some([]), true), lzf, true); lead.err == ErrTrunc && lead.t == BadType
  {}

  lemma KnownType(t: Byte)
    requires GetRdbType(t) != BadType
    ensures t < 0xf7
  {}

  lemma LeadFront(t: Byte, key: Elem, n: nat, rest: seq<Byte>)
    requires Encodable(key) && n < TWO64
    ensures LeadBytes(t, key, n) + rest != [] && (LeadBytes(t, key, n) + rest)[0] == t
  {}
}
