/** Values written with the encoders and decoded again: strings and integers as members, and lists as
    nodes of a quicklist (include/rdbparser/rdb_encode.h, src/rdb_decode.cpp:531-569 and 838-914). */
module Encoded {
  import opened Bytes
  import opened LengthCodec
  import opened Bufptr
  import opened ListValue
  import opened Events
  import opened Values
  import opened StreamDecode
  import opened Records
  import ZipList
  import ZipRead
  import ListPack
  import ListPackRead

  // ----- headers

  lemma PaddedHead(head: seq<Byte>, rest: seq<Byte>)
    requires |head| <= MAX_HDRLEN
    ensures |head| <= |Padded(head + rest, MAX_HDRLEN)|
    ensures Padded(head + rest, MAX_HDRLEN) == head + Padded(head + rest, MAX_HDRLEN)[|head|..]
  {
    var p := Padded(head + rest, MAX_HDRLEN);
    assert p[..|head|] == (head + rest)[..|head|] == head;
  }

  /** decode behind an encoded header. */
  lemma Header(st: Length, head: seq<Byte>, rest: seq<Byte>, l: Length)
    requires 0 < |head| <= MAX_HDRLEN && !l.torn
    requires DecodeBuf(st, Padded(head + rest, MAX_HDRLEN)) == (l, |head|)
    ensures DecodeLen(Start(head + rest), st) == (Ok, l, Start(rest))
  {
    hide DecodeBuf, Padded;
    var c := Start(head + rest);
    assert At(c) == c;
    assert (head + rest)[|head|..] == rest;
  }

  lemma LenHeader(st: Length, x: nat, rest: seq<Byte>)
    requires x < TWO64 && !st.torn
    ensures DecodeLen(Start(EncodeLen(x) + rest), st) == (Ok, st.(len := x), Start(rest))
  {
    hide EncodeLen, DecodeLen, DecodeBuf, Padded;
    var head := EncodeLen(x);
    EncodedSize(x);
    PaddedHead(head, rest);
    LenRoundTrip(st, x, Padded(head + rest, MAX_HDRLEN)[|head|..]);
    Header(st, head, rest, st.(len := x));
  }

  predicate IsInt32(x: int) { -0x8000_0000 <= x <= 0x7fff_ffff }

  lemma IntHeader(x: int, rest: seq<Byte>)
    requires IsInt32(x)
    ensures var d := DecodeLen(Start(EncodeInt(x) + rest), ZERO);
      d.0 == Ok && d.1.isEnc != 0 && !d.1.isLzf && d.1.ival == x && d.2 == Start(rest)
  {
    hide EncodeInt, DecodeLen, DecodeBuf, Padded;
    var head := EncodeInt(x);
    IntSize(x);
    PaddedHead(head, rest);
    var b := Padded(head + rest, MAX_HDRLEN);
    IntRoundTrip(x, b[|head|..]);
    IntNotTorn(b);
    Header(ZERO, head, rest, DecodeBuf(ZERO, b).0);
  }

  lemma IntSize(x: int)
    requires IsInt32(x)
    ensures 0 < |EncodeInt(x)| <= 5
  {}

  lemma IntNotTorn(b: seq<Byte>)
    requires |b| >= MAX_HDRLEN && !DecodeBuf(ZERO, b).0.isLzf
    ensures !DecodeBuf(ZERO, b).0.torn
  {
    if LengthEncoding(b[0]) == Lzf {
      CodeKeepsLzf(ZERO.(isLzf := true), b[1..]);
    }
  }

  lemma LzfHeader(z: nat, n: nat, rest: seq<Byte>)
    requires z < TWO64 && n < TWO64
    ensures DecodeLen(Start([0xc3] + EncodeLen(z) + EncodeLen(n) + rest), ZERO)
         == (Ok, Length(n, z, 0, 0, true, false), Start(rest))
  {
    hide EncodeLen, DecodeLen, DecodeBuf, Padded;
    EncodedSize(z);
    EncodedSize(n);
    var head := [0xc3] + EncodeLen(z) + EncodeLen(n);
    PaddedHead(head, rest);
    LzfRoundTrip(z, n, Padded(head + rest, MAX_HDRLEN)[|head|..]);
    Header(ZERO, head, rest, Length(n, z, 0, 0, true, false));
  }

  /** A compressed string: its bytes are those that inflate from the block, which is used up. */
  lemma CompressedRoundTrip(z: seq<Byte>, s: seq<Byte>, rest: seq<Byte>, lzf: Inflater)
    requires |z| < TWO64 && |s| < TWO64 && lzf(z, |s|) == Some(s) && rest != []
    ensures var bytes := [0xc3] + EncodeLen(|z|) + EncodeLen(|s|) + z + rest;
      Rlen(Start(bytes), lzf) == (Ok, [Str(s)], Cursor(rest, Some([]), true))
      && Blob(Start(bytes), lzf) == (Ok, s, Cursor(rest, Some([]), true))
      && Pop(Cursor(rest, Some([]), true)) == Start(rest)
  {
    hide EncodeLen, DecodeLen;
    var head := [0xc3] + EncodeLen(|z|) + EncodeLen(|s|);
    Regroup(head, z, rest);
    LzfHeader(|z|, |s|, z + rest);
    TakeData(z, rest);
    assert s[..|s|] == s && s[|s|..] == [];
  }

  lemma HeaderInBlock(b: seq<Byte>, main: seq<Byte>)
    requires b != []
    ensures var d := DecodeLen(Start(b), ZERO);
      DecodeLen(Cursor(main, Some(b), true), ZERO)
        == (d.0, d.1, Cursor(main, Some(d.2.main), d.2.clean)) && d.2.block == None
  {
    hide DecodeBuf, Padded;
  }

  /** The same string inside a block that has more bytes: it is found, and the whole main buffer is lost. */
  lemma NestedLoss(z: seq<Byte>, s: seq<Byte>, rest: seq<Byte>, main: seq<Byte>, lzf: Inflater)
    requires |z| < TWO64 && |s| < TWO64 && lzf(z, |s|) == Some(s) && rest != []
    ensures var c := Cursor(main, Some([0xc3] + EncodeLen(|z|) + EncodeLen(|s|) + z + rest), true);
      Rlen(c, lzf) == (Ok, [Str(s)], Cursor(rest, Some([]), false))
      && Rlen(c, lzf).2.Remaining() == rest
  {
    hide EncodeLen, DecodeLen;
    var head := [0xc3] + EncodeLen(|z|) + EncodeLen(|s|);
    Regroup(head, z, rest);
    HeaderInBlock(head + z + rest, main);
    LzfHeader(|z|, |s|, z + rest);
    assert (z + rest)[..|z|] == z && (z + rest)[|z|..] == rest;
    assert s[..|s|] == s && s[|s|..] == [];
  }

  // ----- members

  predicate Encodable(x: Elem) {
    match x
    case Str(s) => |s| < TWO64
    case Int(i) => IsInt32(i)
  }

  /** str_encode or int_encode. */
  function Encode(x: Elem): seq<Byte>
    requires Encodable(x)
  {
    match x
    case Str(s) => EncodeStr(s)
    case Int(i) => EncodeInt(i)
  }

  function EncodeAll(xs: seq<Elem>): seq<Byte>
    requires forall x | x in xs :: Encodable(x)
  {
    if xs == [] then [] else Encode(xs[0]) + EncodeAll(xs[1..])
  }

  lemma TakeData(s: seq<Byte>, rest: seq<Byte>)
    ensures Incr(Start(s + rest), |s|) == Some((s, Start(rest)))
  {
    assert (s + rest)[..|s|] == s && (s + rest)[|s|..] == rest;
  }

  lemma MemberRoundTrip(x: Elem, rest: seq<Byte>, lzf: Inflater)
    requires Encodable(x)
    ensures Rlen(Start(Encode(x) + rest), lzf) == (Ok, [x], Start(rest))
  {
    hide EncodeLen, EncodeInt, DecodeLen, Incr;
    match x
    case Str(s) =>
      Regroup(EncodeLen(|s|), s, rest);
      LenHeader(ZERO, |s|, s + rest);
      TakeData(s, rest);
    case Int(i) =>
      IntHeader(i, rest);
  }

  /** The members of a list, set or hash, written with str_encode and int_encode, are decoded in
      order; what follows them is left in the buffer. */
  lemma {:induction false} MembersRoundTrip(xs: seq<Elem>, rest: seq<Byte>, lzf: Inflater)
    requires forall x | x in xs :: Encodable(x)
    ensures Rlens(Start(EncodeAll(xs) + rest), lzf, |xs|) == (Ok, xs, Start(rest))
    decreases xs
  {
    hide Rlen, Encode, Encodable;
    if xs == [] {
      assert [] + rest == rest;
    } else {
      Regroup(Encode(xs[0]), EncodeAll(xs[1..]), rest);
      MemberRoundTrip(xs[0], EncodeAll(xs[1..]) + rest, lzf);
      MembersRoundTrip(xs[1..], rest, lzf);
      assert [xs[0]] + xs[1..] == xs;
    }
  }

  // ----- strings that may be compressed

  /** A string or number, or a compressed string: z inflates to s. */
  datatype AuxStr = Plain(x: Elem) | Packed(z: seq<Byte>, s: seq<Byte>)

  predicate AuxFits(a: AuxStr, lzf: Inflater) {
    match a
    case Plain(x) => Encodable(x)
    case Packed(z, s) => |z| < TWO64 && |s| < TWO64 && lzf(z, |s|) == Some(s)
  }

  function AuxBytes(a: AuxStr, lzf: Inflater): (r: seq<Byte>)
    requires AuxFits(a, lzf)
  {
    match a
    case Plain(x) => Encode(x)
    case Packed(z, s) => [0xc3] + EncodeLen(|z|) + EncodeLen(|s|) + z
  }

  function AuxElem(a: AuxStr): Elem {
    if a.Plain? then a.x else Str(a.s)
  }

  /** The cursor behind a string: a compressed one leaves its block, used up. */
  function Left(rest: seq<Byte>, packed: bool): Cursor {
    if packed then Cursor(rest, Some([]), true) else Start(rest)
  }

  /** The next header makes up for that. */
  lemma LeftLen(rest: seq<Byte>, packed: bool, st: Length)
    requires rest != []
    ensures DecodeLen(Left(rest, packed), st) == DecodeLen(Start(rest), st)
  {
    hide DecodeAt;
  }

  lemma AuxNonempty(a: AuxStr, lzf: Inflater)
    requires AuxFits(a, lzf)
    ensures AuxBytes(a, lzf) != []
  {
    hide EncodeLen;
    match a
    case Plain(x) =>
      match x {
        case Str(s) => EncodedSize(|s|);
        case Int(i) => IntSize(i);
      }
    case Packed(_, _) =>
  }

  /** What a compressed string is taken from. */
  lemma Inflated(z: seq<Byte>, s: seq<Byte>, rest: seq<Byte>, lzf: Inflater)
    requires lzf(z, |s|) == Some(s)
    ensures Decompress(Start(z + rest), lzf, |z|, |s|) == (true, Cursor(rest, Some(s), true))
    ensures Incr(Cursor(rest, Some(s), true), |s|) == Some((s, Left(rest, true)))
  {
    TakeData(z, rest);
    assert s[..|s|] == s && s[|s|..] == [];
  }

  lemma AuxHeader(a: AuxStr, rest: seq<Byte>, lzf: Inflater)
    requires AuxFits(a, lzf)
    ensures var d := DecodeLen(Start(AuxBytes(a, lzf) + rest), ZERO);
      d.0 == Ok
      && match a
         case Plain(Str(s)) => d.1 == ZERO.(len := |s|) && d.2 == Start(s + rest)
         case Plain(Int(i)) => d.1.isEnc != 0 && !d.1.isLzf && d.1.ival == i && d.2 == Start(rest)
         case Packed(z, s) => d.1 == Length(|s|, |z|, 0, 0, true, false) && d.2 == Start(z + rest)
  {
    hide EncodeLen, EncodeInt, DecodeLen;
    match a
    case Plain(Str(s)) =>
      Regroup(EncodeLen(|s|), s, rest);
      LenHeader(ZERO, |s|, s + rest);
    case Plain(Int(i)) =>
      IntHeader(i, rest);
    case Packed(z, s) =>
      Regroup([0xc3] + EncodeLen(|z|) + EncodeLen(|s|), z, rest);
      LzfHeader(|z|, |s|, z + rest);
  }

  /** decode_rlen, compressed or not, behind a string that was compressed or not. */
  lemma AuxRlen(a: AuxStr, rest: seq<Byte>, was: bool, lzf: Inflater)
    requires AuxFits(a, lzf)
    ensures Rlen(Left(AuxBytes(a, lzf) + rest, was), lzf) == (Ok, [AuxElem(a)], Left(rest, a.Packed?))
  {
    AuxNonempty(a, lzf);
    AuxHeader(a, rest, lzf);
    LeftLen(AuxBytes(a, lzf) + rest, was, ZERO);
    hide AuxBytes, DecodeLen, Incr, Decompress, AuxFits;
    AuxTaken(a, rest, lzf);
  }

  lemma AuxTaken(a: AuxStr, rest: seq<Byte>, lzf: Inflater)
    requires AuxFits(a, lzf)
    ensures match a
      case Plain(Str(s)) => Incr(Start(s + rest), |s|) == Some((s, Start(rest)))
      case Plain(Int(i)) => true
      case Packed(z, s) =>
        Decompress(Start(z + rest), lzf, |z|, |s|) == (true, Cursor(rest, Some(s), true))
        && Incr(Cursor(rest, Some(s), true), |s|) == Some((s, Left(rest, true)))
  {
    hide Incr, Decompress, Left;
    match a
    case Plain(Str(s)) => TakeData(s, rest);
    case Plain(Int(_)) =>
    case Packed(z, s) => Inflated(z, s, rest, lzf);
  }

  predicate IsText(a: AuxStr) { a.Packed? || a.x.Str? }

  function TextOf(a: AuxStr): seq<Byte>
    requires IsText(a)
  {
    if a.Packed? then a.s else a.x.s
  }

  /** A length and the data it announces. */
  lemma AuxBlob(a: AuxStr, rest: seq<Byte>, was: bool, lzf: Inflater)
    requires AuxFits(a, lzf) && IsText(a)
    ensures Blob(Left(AuxBytes(a, lzf) + rest, was), lzf) == (Ok, TextOf(a), Left(rest, a.Packed?))
  {
    AuxNonempty(a, lzf);
    AuxHeader(a, rest, lzf);
    LeftLen(AuxBytes(a, lzf) + rest, was, ZERO);
    hide AuxBytes, DecodeLen, Incr, Decompress, AuxFits;
    AuxTaken(a, rest, lzf);
  }

  // ----- quicklists

  lemma BlobRoundTrip(s: seq<Byte>, rest: seq<Byte>, lzf: Inflater)
    requires |s| < TWO64
    ensures Blob(Start(EncodeStr(s) + rest), lzf) == (Ok, s, Start(rest))
  {
    hide EncodeLen, DecodeLen, Incr;
    Regroup(EncodeLen(|s|), s, rest);
    LenHeader(ZERO, |s|, s + rest);
    TakeData(s, rest);
  }

  predicate NodesFit(nodes: seq<seq<seq<Byte>>>) {
    |nodes| < TWO64 && forall xs | xs in nodes :: ZipList.ListFits(xs)
  }

  /** The nodes of a quicklist: each one a ziplist, written with str_encode. */
  function ZipNodes(nodes: seq<seq<seq<Byte>>>): seq<Byte>
    requires NodesFit(nodes)
  {
    if nodes == [] then []
    else EncodeStr(ZipList.ZipBytes(nodes[0], |nodes[0]|)) + ZipNodes(nodes[1..])
  }

  function Flatten<T>(xss: seq<seq<T>>): seq<T> {
    if xss == [] then [] else xss[0] + Flatten(xss[1..])
  }

  lemma ZipSize(xs: seq<seq<Byte>>)
    requires ZipList.ListFits(xs)
    ensures |ZipList.ZipBytes(xs, |xs|)| < TWO32
  {}

  lemma ZipNodeRoundTrip(xs: seq<seq<Byte>>, rest: seq<Byte>, lzf: Inflater)
    requires ZipList.ListFits(xs)
    ensures |ZipList.ZipBytes(xs, |xs|)| < TWO32
    ensures Node(Start(EncodeStr(ZipList.ZipBytes(xs, |xs|)) + rest), lzf, false) == (Ok, Strings(xs), Start(rest))
  {
    hide ZipList.ZipBytes, Blob, EncodeStr, ZipRead.ZipInit, ZipRead.ZipElems;
    ZipRead.HeaderRead(xs, |xs|);
    ZipRead.RoundTrip(xs, |xs|);
    BlobRoundTrip(ZipList.ZipBytes(xs, |xs|), rest, lzf);
  }

  lemma {:induction false} ZipNodesRoundTrip(nodes: seq<seq<seq<Byte>>>, rest: seq<Byte>, lzf: Inflater)
    requires NodesFit(nodes)
    ensures Nodes(Start(ZipNodes(nodes) + rest), lzf, |nodes|, false) == (Ok, Strings(Flatten(nodes)), Start(rest))
    decreases nodes
  {
    hide Node, EncodeStr, ZipList.ZipBytes, ZipList.ListFits;
    if nodes == [] {
      assert [] + rest == rest;
    } else {
      ZipSize(nodes[0]);
      var head, tail := EncodeStr(ZipList.ZipBytes(nodes[0], |nodes[0]|)), nodes[1..];
      Regroup(head, ZipNodes(tail), rest);
      ZipNodeRoundTrip(nodes[0], ZipNodes(tail) + rest, lzf);
      ZipNodesRoundTrip(tail, rest, lzf);
      assert Strings(Flatten(nodes)) == Strings(nodes[0]) + Strings(Flatten(tail));
    }
  }

  function ListEvents(xs: seq<Elem>): seq<Event> {
    seq(|xs|, i requires 0 <= i < |xs| => DList(xs[i]))
  }

  lemma NodesBody(t: RdbType, n: nat, c: Cursor, lzf: Inflater)
    requires t in {RListQuicklist, RListQuicklist2}
    ensures var x := Nodes(c, lzf, n, t == RListQuicklist2);
      x.0 == Ok ==>
        BodyOf(t, ZERO.(len := n), c, lzf) == (Done, [StartKey] + ListEvents(x.1) + [EndKey], x.2)
  {
    hide Nodes;
    assert Shaped(t, Nodes(c, lzf, n, t == RListQuicklist2).1) == ListEvents(Nodes(c, lzf, n, t == RListQuicklist2).1);
  }

  lemma MembersBody(t: RdbType, n: nat, c: Cursor, lzf: Inflater)
    requires t in {RList, RSet, RHash}
    ensures var x := Rlens(c, lzf, if t == RHash then 2 * n else n);
      x.0 == Ok ==> BodyOf(t, ZERO.(len := n), c, lzf) == (Done, [StartKey] + Shaped(t, x.1) + [EndKey], x.2)
  {
    hide Rlens, Shaped;
  }

  /** Quicklist round trip: a node count and then every node as a string, and decode_body makes exactly the
      callbacks for the flattened values in order, whatever the split into nodes. */
  lemma QuicklistRoundTrip(nodes: seq<seq<seq<Byte>>>, rest: seq<Byte>, lzf: Inflater)
    requires NodesFit(nodes)
    ensures var d := DecodeLen(Start(EncodeLen(|nodes|) + ZipNodes(nodes) + rest), ZERO);
      d.0 == Ok
      && BodyOf(RListQuicklist, d.1, d.2, lzf)
         == (Done, [StartKey] + ListEvents(Strings(Flatten(nodes))) + [EndKey], Start(rest))
  {
    hide EncodeLen, ZipNodes, Nodes, DecodeLen, BodyOf, ListEvents, Flatten;
    Regroup(EncodeLen(|nodes|), ZipNodes(nodes), rest);
    LenHeader(ZERO, |nodes|, ZipNodes(nodes) + rest);
    ZipNodesRoundTrip(nodes, rest, lzf);
    NodesBody(RListQuicklist, |nodes|, Start(ZipNodes(nodes) + rest), lzf);
  }

  predicate PacksFit(nodes: seq<seq<Elem>>) {
    |nodes| < TWO64 && forall xs | xs in nodes :: ListPack.ListFits(xs)
  }

  /** What is read where the elements xs were written as a listpack. */
  function ReadBack(xs: seq<Elem>): seq<Elem>
    requires ListPack.ListFits(xs)
  {
    ListPackRead.RoundTrip(xs);
    ListPackRead.LpElems(ListPack.LpBytes(xs), ListPackRead.FIRST)
  }

  function AllReadBack(nodes: seq<seq<Elem>>): seq<seq<Elem>>
    requires forall xs | xs in nodes :: ListPack.ListFits(xs)
  {
    if nodes == [] then [] else [ReadBack(nodes[0])] + AllReadBack(nodes[1..])
  }

  /** The nodes of the second quicklist format: a container kind, and a listpack. */
  function PackNodes(nodes: seq<seq<Elem>>): seq<Byte>
    requires PacksFit(nodes)
  {
    if nodes == [] then []
    else
      PackSize(nodes[0]);
      EncodeLen(2) + EncodeStr(ListPack.LpBytes(nodes[0])) + PackNodes(nodes[1..])
  }

  lemma PackSize(xs: seq<Elem>)
    requires ListPack.ListFits(xs)
    ensures |ListPack.LpBytes(xs)| < TWO32
  {}

  lemma PackNodeRead(xs: seq<Elem>, rest: seq<Byte>, lzf: Inflater)
    requires ListPack.ListFits(xs)
    ensures |ListPack.LpBytes(xs)| < TWO32
    ensures Node(Start(EncodeLen(2) + EncodeStr(ListPack.LpBytes(xs)) + rest), lzf, true)
         == (Ok, ReadBack(xs), Start(rest))
  {
    hide ListPack.LpBytes, Blob, EncodeStr, EncodeLen, ListPackRead.LpInit, ListPackRead.LpElems, DecodeLen;
    PackSize(xs);
    ListPackRead.RoundTrip(xs);
    var b := ListPack.LpBytes(xs);
    Regroup(EncodeLen(2), EncodeStr(b), rest);
    LenHeader(ZERO, 2, EncodeStr(b) + rest);
    BlobRoundTrip(b, rest, lzf);
  }

  lemma {:induction false} PackNodesRead(nodes: seq<seq<Elem>>, rest: seq<Byte>, lzf: Inflater)
    requires PacksFit(nodes)
    ensures Nodes(Start(PackNodes(nodes) + rest), lzf, |nodes|, true) == (Ok, Flatten(AllReadBack(nodes)), Start(rest))
    decreases nodes
  {
    hide Node, EncodeStr, ListPack.LpBytes, ListPack.ListFits, ReadBack;
    if nodes == [] {
      assert [] + rest == rest;
    } else {
      PackSize(nodes[0]);
      var head, tail := EncodeLen(2) + EncodeStr(ListPack.LpBytes(nodes[0])), nodes[1..];
      Regroup(head, PackNodes(tail), rest);
      PackNodeRead(nodes[0], PackNodes(tail) + rest, lzf);
      PackNodesRead(tail, rest, lzf);
      assert ([ReadBack(nodes[0])] + AllReadBack(tail))[1..] == AllReadBack(tail);
    }
  }

  /** Every node is read by itself, and as it was written if and only if the two sides agree on its elements. */
  lemma {:induction false} NodesReadBack(nodes: seq<seq<Elem>>, i: nat)
    requires i < |nodes| && forall xs | xs in nodes :: ListPack.ListFits(xs)
    ensures |AllReadBack(nodes)| == |nodes|
    ensures AllReadBack(nodes)[i] == nodes[i] <==> forall x | x in nodes[i] :: ListPackRead.Agrees(x)
    decreases |nodes|
  {
    hide ListPack.ListFits, ListPack.LpBytes, ListPackRead.LpElems, ListPackRead.Agrees;
    if i > 0 {
      NodesReadBack(nodes[1..], i - 1);
    } else {
      ListPackRead.RoundTrip(nodes[0]);
      if |nodes| > 1 {
        NodesReadBack(nodes[1..], 0);
      }
    }
  }

  /** The callbacks are those for what is read back of the nodes, in order, and what follows is left. */
  lemma Quicklist2RoundTrip(nodes: seq<seq<Elem>>, rest: seq<Byte>, lzf: Inflater)
    requires PacksFit(nodes)
    ensures var d := DecodeLen(Start(EncodeLen(|nodes|) + PackNodes(nodes) + rest), ZERO);
      d.0 == Ok
      && BodyOf(RListQuicklist2, d.1, d.2, lzf)
         == (Done, [StartKey] + ListEvents(Flatten(AllReadBack(nodes))) + [EndKey], Start(rest))
    ensures |AllReadBack(nodes)| == |nodes|
    ensures forall i | 0 <= i < |nodes| ::
      AllReadBack(nodes)[i] == nodes[i] <==> forall x | x in nodes[i] :: ListPackRead.Agrees(x)
  {
    hide EncodeLen, PackNodes, Nodes, DecodeLen, BodyOf, ListEvents, Flatten, AllReadBack, ListPackRead.Agrees,
      ListPack.ListFits;
    Regroup(EncodeLen(|nodes|), PackNodes(nodes), rest);
    LenHeader(ZERO, |nodes|, PackNodes(nodes) + rest);
    PackNodesRead(nodes, rest, lzf);
    NodesBody(RListQuicklist2, |nodes|, Start(PackNodes(nodes) + rest), lzf);
    NoNodes();
    forall i | 0 <= i < |nodes|
      ensures |AllReadBack(nodes)| == |nodes|
      ensures AllReadBack(nodes)[i] == nodes[i] <==> forall x | x in nodes[i] :: ListPackRead.Agrees(x)
    {
      NodesReadBack(nodes, i);
    }
    if nodes != [] {
      NodesReadBack(nodes, 0);
    }
  }

  lemma NoNodes()
    ensures AllReadBack([]) == []
  {}

  /** A list, set or hash of encoded members: the callbacks are those for the members in order. */
  lemma MembersDecoded(t: RdbType, xs: seq<Elem>, rest: seq<Byte>, lzf: Inflater)
    requires t in {RList, RSet, RHash} && |xs| < TWO64 && (forall x | x in xs :: Encodable(x))
    requires t == RHash ==> |xs| % 2 == 0
    ensures var n := if t == RHash then |xs| / 2 else |xs|;
      var d := DecodeLen(Start(EncodeLen(n) + EncodeAll(xs) + rest), ZERO);
      d.0 == Ok
      && BodyOf(t, d.1, d.2, lzf) == (Done, [StartKey] + Shaped(t, xs) + [EndKey], Start(rest))
  {
    hide EncodeLen, EncodeAll, Rlens, DecodeLen, Shaped, Encodable, BodyOf;
    var n := if t == RHash then |xs| / 2 else |xs|;
    Regroup(EncodeLen(n), EncodeAll(xs), rest);
    LenHeader(ZERO, n, EncodeAll(xs) + rest);
    MembersRoundTrip(xs, rest, lzf);
    MembersBody(t, n, Start(EncodeAll(xs) + rest), lzf);
  }

  /** The types whose value is one string: a plain one, a ziplist or a listpack. */
  predicate HoldsZip(t: RdbType) { t in {RListZiplist, RHashZiplist, RZsetZiplist} }
  predicate HoldsPack(t: RdbType) { t in {RHashListpack, RZsetListpack} }

  lemma WholeRead(b: seq<Byte>, rest: seq<Byte>, packed: bool, xs: seq<Elem>)
    requires (if packed then LpIn(b) else ZipIn(b)) == (Ok, xs)
    ensures Whole(Start(b + rest), |b|, packed) == (Ok, xs, Start(rest))
  {
    hide Incr, LpIn, ZipIn;
    TakeData(b, rest);
  }

  lemma WholeBody(t: RdbType, n: nat, c: Cursor, lzf: Inflater)
    requires HoldsZip(t) || HoldsPack(t)
    ensures var x := Whole(c, n, HoldsPack(t));
      x.0 == Ok ==> BodyOf(t, ZERO.(len := n), c, lzf) == (Done, [StartKey] + Shaped(t, x.1) + [EndKey], x.2)
  {
    hide Whole, Shaped;
  }

  /** A value that is one ziplist, as a string: the callbacks are those for its strings in order. */
  lemma ZiplistRoundTrip(t: RdbType, xs: seq<seq<Byte>>, rest: seq<Byte>, lzf: Inflater)
    requires HoldsZip(t) && ZipList.ListFits(xs)
    ensures |ZipList.ZipBytes(xs, |xs|)| < TWO32
    ensures var d := DecodeLen(Start(EncodeStr(ZipList.ZipBytes(xs, |xs|)) + rest), ZERO);
      d.0 == Ok && BodyOf(t, d.1, d.2, lzf) == (Done, [StartKey] + Shaped(t, Strings(xs)) + [EndKey], Start(rest))
  {
    hide ZipList.ZipBytes, EncodeLen, DecodeLen, BodyOf, Shaped, Whole, ZipRead.ZipInit, ZipRead.ZipElems;
    var b := ZipList.ZipBytes(xs, |xs|);
    ZipSize(xs);
    ZipRead.RoundTrip(xs, |xs|);
    Regroup(EncodeLen(|b|), b, rest);
    LenHeader(ZERO, |b|, b + rest);
    WholeRead(b, rest, false, Strings(xs));
    WholeBody(t, |b|, Start(b + rest), lzf);
  }

  /** The callbacks are those for what is read back, which is what was written if and only if the two sides agree
      on its elements. */
  lemma ListpackRoundTrip(t: RdbType, xs: seq<Elem>, rest: seq<Byte>, lzf: Inflater)
    requires HoldsPack(t) && ListPack.ListFits(xs)
    ensures |ListPack.LpBytes(xs)| < TWO32
    ensures var d := DecodeLen(Start(EncodeStr(ListPack.LpBytes(xs)) + rest), ZERO);
      d.0 == Ok && BodyOf(t, d.1, d.2, lzf) == (Done, [StartKey] + Shaped(t, ReadBack(xs)) + [EndKey], Start(rest))
    ensures ReadBack(xs) == xs <==> forall x | x in xs :: ListPackRead.Agrees(x)
  {
    hide ListPack.LpBytes, EncodeLen, DecodeLen, BodyOf, Shaped, Whole, ListPackRead.LpInit, ListPackRead.LpElems,
      ListPackRead.Agrees;
    var b := ListPack.LpBytes(xs);
    PackSize(xs);
    ListPackRead.RoundTrip(xs);
    Regroup(EncodeLen(|b|), b, rest);
    LenHeader(ZERO, |b|, b + rest);
    WholeRead(b, rest, true, ReadBack(xs));
    WholeBody(t, |b|, Start(b + rest), lzf);
  }
}
