/** Whole records of a file, by their type byte: what decode_hdr and decode_body make of each documented layout,
    callback by callback (rdb.adoc:29-540, include/rdbparser/rdb_decode.h:9-68, src/rdb_decode.cpp:237-421, 515-609). */
module FileRecords {
  import opened Bytes
  import opened LengthCodec
  import opened Bufptr
  import opened ListValue
  import opened Events
  import opened Values
  import opened StreamDecode
  import opened Records
  import opened Encoded
  import opened Header
  import opened FileFormat
  import ZipMixed
  import PackMixed
  import opened RestorePayload
  import opened RestoreEncoded

  // ----- the type bytes

  /** Which byte means which type. */
  lemma TypeBytes()
    ensures GetRdbType(0) == RString && GetRdbType(1) == RList && GetRdbType(2) == RSet && GetRdbType(3) == RZset
    ensures GetRdbType(4) == RHash && GetRdbType(5) == RZset2 && GetRdbType(6) == RModule && GetRdbType(7) == RModule2
    ensures GetRdbType(8) == BadType && GetRdbType(9) == RHashZipmap && GetRdbType(10) == RListZiplist
    ensures GetRdbType(11) == RSetIntset && GetRdbType(12) == RZsetZiplist && GetRdbType(13) == RHashZiplist
    ensures GetRdbType(14) == RListQuicklist && GetRdbType(15) == RStreamListpack && GetRdbType(16) == RHashListpack
    ensures GetRdbType(17) == RZsetListpack && GetRdbType(18) == RListQuicklist2 && GetRdbType(19) == RStreamListpacks2
  {
    FirstTypes();
    MoreTypes();
    LastTypes();
    hide GetRdbType;
  }

  lemma FirstTypes()
    ensures GetRdbType(0) == RString && GetRdbType(1) == RList && GetRdbType(2) == RSet && GetRdbType(3) == RZset
    ensures GetRdbType(4) == RHash && GetRdbType(5) == RZset2 && GetRdbType(6) == RModule && GetRdbType(7) == RModule2
  {}

  lemma MoreTypes()
    ensures GetRdbType(8) == BadType && GetRdbType(9) == RHashZipmap && GetRdbType(10) == RListZiplist
    ensures GetRdbType(11) == RSetIntset && GetRdbType(12) == RZsetZiplist && GetRdbType(13) == RHashZiplist
  {}

  lemma LastTypes()
    ensures GetRdbType(14) == RListQuicklist && GetRdbType(15) == RStreamListpack && GetRdbType(16) == RHashListpack
    ensures GetRdbType(17) == RZsetListpack && GetRdbType(18) == RListQuicklist2 && GetRdbType(19) == RStreamListpacks2
  {}

  /** 8 and everything from 20 on mean none. */
  lemma NoTypes(b: Byte)
    ensures GetRdbType(b) == BadType <==> b == 8 || b >= 20
  {}

  // ----- the callbacks

  /** One callback for the string. */
  predicate StringCalls(es: seq<Event>, x: Elem) {
    es == [StartKey, DString(x), EndKey]
  }

  /** One callback for each element of a list, in order. */
  predicate ListCalls(es: seq<Event>, xs: seq<Elem>) {
    |es| == |xs| + 2 && es[0] == StartKey && es[|es| - 1] == EndKey
    && forall i | 0 <= i < |xs| :: es[i + 1] == DList(xs[i])
  }

  predicate SetCalls(es: seq<Event>, xs: seq<Elem>) {
    |es| == |xs| + 2 && es[0] == StartKey && es[|es| - 1] == EndKey
    && forall i | 0 <= i < |xs| :: es[i + 1] == DSet(xs[i])
  }

  /** One callback for each pair, the field first; an odd last element is dropped. */
  predicate HashCalls(es: seq<Event>, xs: seq<Elem>) {
    |es| == |xs| / 2 + 2 && es[0] == StartKey && es[|es| - 1] == EndKey
    && forall i | 0 <= i < |xs| / 2 :: es[i + 1] == DHash(xs[2 * i], xs[2 * i + 1])
  }

  /** One callback for each pair, the member first and its score behind it. */
  predicate ZsetCalls(es: seq<Event>, xs: seq<Elem>) {
    |es| == |xs| / 2 + 2 && es[0] == StartKey && es[|es| - 1] == EndKey
    && forall i | 0 <= i < |xs| / 2 :: es[i + 1] == DZset(xs[2 * i], xs[2 * i + 1])
  }

  lemma ListShaped(t: RdbType, xs: seq<Elem>)
    requires t in {RList, RListZiplist, RListQuicklist, RListQuicklist2}
    ensures ListCalls([StartKey] + Shaped(t, xs) + [EndKey], xs)
  {}

  lemma SetShaped(xs: seq<Elem>)
    ensures SetCalls([StartKey] + Shaped(RSet, xs) + [EndKey], xs)
  {}

  lemma HashShaped(t: RdbType, xs: seq<Elem>)
    requires t in {RHash, RHashZiplist, RHashListpack}
    ensures HashCalls([StartKey] + Shaped(t, xs) + [EndKey], xs)
  {}

  lemma ZsetShaped(t: RdbType, xs: seq<Elem>)
    requires t in {RZsetZiplist, RZsetListpack}
    ensures ZsetCalls([StartKey] + Shaped(t, xs) + [EndKey], xs)
  {}

  // ----- the layouts

  /** The offset of the last entry of a ziplist is not looked at by the decoder. */
  datatype Items = Zip(zs: seq<ZipMixed.Item>, tail: nat) | Pack(ps: seq<PackMixed.Item>)

  /** A ziplist or listpack as a string, compressed or not. */
  datatype Stored = Stored(items: Items, z: Option<seq<Byte>>)

  /** The documented values; t is the type byte where there are several. */
  datatype Value =
    | Single(x: AuxStr) // 0
    | Members(t: Byte, xs: seq<AuxStr>) // 1 a list, 2 a set, 4 a hash
    | InString(t: Byte, b: Stored) // a ziplist: 10 a list, 12 a sorted set, 13 a hash; a listpack: 16 a hash, 17 a sorted set
    | InNodes(bs: seq<Stored>, packed: bool) // 14 of ziplists, 18 of listpacks

  function Text(i: Items): (r: seq<Byte>)
    requires ItemsFit(i)
    ensures |r| < TWO32
  {
    match i
    case Zip(zs, tail) => ZipMixed.MixedBytes(zs, tail)
    case Pack(ps) => PackMixed.MixedBytes(ps)
  }

  predicate ItemsFit(i: Items) {
    match i
    case Zip(zs, tail) => ZipMixed.MixedFits(zs) && tail < TWO32
    case Pack(ps) => PackMixed.MixedFits(ps)
  }

  function ItemsElems(i: Items): seq<Elem> {
    match i
    case Zip(zs, _) => ZipMixed.ItemElems(zs)
    case Pack(ps) => PackMixed.ItemElems(ps)
  }

  function AsString(b: Stored): (r: AuxStr)
    requires ItemsFit(b.items)
  {
    match b.z
    case None => Plain(Str(Text(b.items)))
    case Some(z) => Packed(z, Text(b.items))
  }

  predicate StoredFits(b: Stored, lzf: Inflater) {
    ItemsFit(b.items) && AuxFits(AsString(b), lzf)
  }

  predicate ValueFits(v: Value, lzf: Inflater) {
    match v
    case Single(x) => AuxFits(x, lzf)
    case Members(t, xs) =>
      t in {1, 2, 4} && (t == 4 ==> |xs| % 2 == 0) && |xs| < TWO64 && forall x | x in xs :: AuxFits(x, lzf)
    case InString(t, b) => (if b.items.Zip? then t in {10, 12, 13} else t in {16, 17}) && StoredFits(b, lzf)
    case InNodes(bs, packed) =>
      |bs| < TWO64 && forall b | b in bs :: StoredFits(b, lzf) && b.items.Pack? == packed
  }

  function TypeByte(v: Value): Byte {
    match v
    case Single(_) => 0
    case Members(t, _) => t
    case InString(t, _) => t
    case InNodes(_, packed) => if packed then 18 else 14
  }

  /** The type that is reported. */
  function TypeName(v: Value): RdbType {
    var t := TypeByte(v);
    if t == 0 then RString
    else if t == 1 then RList
    else if t == 2 then RSet
    else if t == 4 then RHash
    else if t == 10 then RListZiplist
    else if t == 12 then RZsetZiplist
    else if t == 13 then RHashZiplist
    else if t == 14 then RListQuicklist
    else if t == 16 then RHashListpack
    else if t == 17 then RZsetListpack
    else RListQuicklist2
  }

  function AllBytes(xs: seq<AuxStr>, lzf: Inflater): seq<Byte>
    requires forall x | x in xs :: AuxFits(x, lzf)
  {
    if xs == [] then [] else AuxBytes(xs[0], lzf) + AllBytes(xs[1..], lzf)
  }

  /** The second quicklist format has a container kind in front of each node, 2 for a listpack. */
  function NodeBytes(b: Stored, lzf: Inflater): seq<Byte>
    requires StoredFits(b, lzf)
  {
    (if b.items.Pack? then [2] else []) + AuxBytes(AsString(b), lzf)
  }

  function AllNodes(bs: seq<Stored>, lzf: Inflater): seq<Byte>
    requires forall b | b in bs :: StoredFits(b, lzf)
  {
    if bs == [] then [] else NodeBytes(bs[0], lzf) + AllNodes(bs[1..], lzf)
  }

  function ValueBytes(v: Value, lzf: Inflater): seq<Byte>
    requires ValueFits(v, lzf)
  {
    match v
    case Single(x) => AuxBytes(x, lzf)
    case Members(t, xs) => EncodeLen(if t == 4 then |xs| / 2 else |xs|) + AllBytes(xs, lzf)
    case InString(_, b) => AuxBytes(AsString(b), lzf)
    case InNodes(bs, _) => EncodeLen(|bs|) + AllNodes(bs, lzf)
  }

  function AllElems(xs: seq<AuxStr>): seq<Elem> {
    if xs == [] then [] else [AuxElem(xs[0])] + AllElems(xs[1..])
  }

  function NodesElems(bs: seq<Stored>): seq<Elem> {
    if bs == [] then [] else ItemsElems(bs[0].items) + NodesElems(bs[1..])
  }

  function ElemsOf(v: Value): seq<Elem> {
    match v
    case Single(x) => [AuxElem(x)]
    case Members(_, xs) => AllElems(xs)
    case InString(_, b) => ItemsElems(b.items)
    case InNodes(bs, _) => NodesElems(bs)
  }

  /** The last string of the value was compressed. */
  predicate EndsPacked(v: Value) {
    match v
    case Single(x) => x.Packed?
    case Members(_, xs) => xs != [] && xs[|xs| - 1].Packed?
    case InString(_, b) => b.z.Some?
    case InNodes(bs, _) => bs != [] && bs[|bs| - 1].z.Some?
  }

  /** What the output is told: which callback, by the type byte. */
  predicate Told(v: Value, es: seq<Event>) {
    var t, xs := TypeByte(v), ElemsOf(v);
    if t == 0 then xs != [] && StringCalls(es, xs[0])
    else if t in {1, 10, 14, 18} then ListCalls(es, xs)
    else if t == 2 then SetCalls(es, xs)
    else if t in {4, 13, 16} then HashCalls(es, xs)
    else ZsetCalls(es, xs)
  }

  // ----- lists in strings

  lemma ItemsRead(i: Items)
    requires ItemsFit(i)
    ensures (if i.Pack? then LpIn(Text(i)) else ZipIn(Text(i))) == (Ok, ItemsElems(i))
  {
    hide ZipMixed.MixedBytes, ZipMixed.MixedFits, ZipMixed.ItemElems, PackMixed.MixedBytes, PackMixed.MixedFits,
      PackMixed.ItemElems;
    match i
    case Zip(zs, tail) => ZipMixed.MixedRead(zs, tail);
    case Pack(ps) => PackMixed.MixedRead(ps);
  }

  lemma StringIs(b: Stored)
    requires ItemsFit(b.items)
    ensures IsText(AsString(b)) && TextOf(AsString(b)) == Text(b.items) && AsString(b).Packed? == b.z.Some?
    ensures AsString(b).Plain? ==> AsString(b).x == Str(Text(b.items))
  {
    hide Text;
  }

  /** The kind of container. */
  lemma KindRead(rest: seq<Byte>)
    ensures DecodeLen(Start([2] + rest), ZERO) == (Ok, ZERO.(len := 2), Start(rest))
  {
    LenHeader(ZERO, 2, rest);
    assert EncodeLen(2) == [2];
  }

  lemma NodeRead(b: Stored, rest: seq<Byte>, was: bool, lzf: Inflater)
    requires StoredFits(b, lzf)
    ensures Node(Left(NodeBytes(b, lzf) + rest, was), lzf, b.items.Pack?)
         == (Ok, ItemsElems(b.items), Left(rest, b.z.Some?))
  {
    hide Text, ItemsElems, Blob, AuxBytes, AuxFits, ZipIn, LpIn, DecodeLen, AsString, ItemsFit;
    var a := AsString(b);
    StringIs(b);
    ItemsRead(b.items);
    if b.items.Pack? {
      Regroup([2], AuxBytes(a, lzf), rest);
      LeftLen([2] + (AuxBytes(a, lzf) + rest), was, ZERO);
      KindRead(AuxBytes(a, lzf) + rest);
      AuxBlob(a, rest, false, lzf);
    } else {
      assert [] + AuxBytes(a, lzf) == AuxBytes(a, lzf);
      AuxBlob(a, rest, was, lzf);
    }
  }

  lemma NoNodesLeft(c: Cursor, lzf: Inflater, packed: bool)
    ensures Nodes(c, lzf, 0, packed) == (Ok, [], c)
  {}

  lemma {:induction false} NodesReadAll(bs: seq<Stored>, rest: seq<Byte>, was: bool, lzf: Inflater, packed: bool)
    requires forall b | b in bs :: StoredFits(b, lzf) && b.items.Pack? == packed
    ensures Nodes(Left(AllNodes(bs, lzf) + rest, was), lzf, |bs|, packed)
         == (Ok, NodesElems(bs), Left(rest, if bs == [] then was else bs[|bs| - 1].z.Some?))
    decreases bs
  {
    hide Node, NodeBytes, StoredFits, ItemsElems, Left;
    if bs == [] {
      assert [] + rest == rest;
      NoNodesLeft(Left(rest, was), lzf, packed);
    } else {
      Regroup(NodeBytes(bs[0], lzf), AllNodes(bs[1..], lzf), rest);
      NodeRead(bs[0], AllNodes(bs[1..], lzf) + rest, was, lzf);
      NodesReadAll(bs[1..], rest, bs[0].z.Some?, lzf, packed);
    }
  }

  // ----- strings one after the other

  lemma NoMembersLeft(c: Cursor, lzf: Inflater)
    ensures Rlens(c, lzf, 0) == (Ok, [], c)
  {}

  lemma {:induction false} MembersRead(xs: seq<AuxStr>, rest: seq<Byte>, was: bool, lzf: Inflater)
    requires forall x | x in xs :: AuxFits(x, lzf)
    ensures Rlens(Left(AllBytes(xs, lzf) + rest, was), lzf, |xs|)
         == (Ok, AllElems(xs), Left(rest, if xs == [] then was else xs[|xs| - 1].Packed?))
    decreases xs
  {
    hide Rlen, AuxBytes, AuxFits, AuxElem, Left;
    if xs == [] {
      assert [] + rest == rest;
      NoMembersLeft(Left(rest, was), lzf);
    } else {
      Regroup(AuxBytes(xs[0], lzf), AllBytes(xs[1..], lzf), rest);
      AuxRlen(xs[0], AllBytes(xs[1..], lzf) + rest, was, lzf);
      MembersRead(xs[1..], rest, xs[0].Packed?, lzf);
    }
  }

  // ----- the value, from its length on

  /** The header in front of the value, and the block of a compressed one. */
  function Unpacked(c: Cursor, lzf: Inflater): (Status, Length, Cursor) {
    var d := DecodeLen(c, ZERO);
    if d.0 != Ok then (d.0, d.1, d.2)
    else
      var u := Unzip(d.2, lzf, d.1);
      (if u.0 then Ok else ErrLzf, d.1, u.1)
  }

  lemma StringUnpacked(a: AuxStr, rest: seq<Byte>, lzf: Inflater)
    requires AuxFits(a, lzf)
    ensures var u := Unpacked(Start(AuxBytes(a, lzf) + rest), lzf);
      u.0 == Ok && StrOf(u.2, u.1) == (Ok, [AuxElem(a)], Left(rest, a.Packed?))
    ensures IsText(a) ==>
      var u := Unpacked(Start(AuxBytes(a, lzf) + rest), lzf);
      u.1.len == |TextOf(a)| && Incr(u.2, u.1.len) == Some((TextOf(a), Left(rest, a.Packed?)))
  {
    AuxHeader(a, rest, lzf);
    hide AuxBytes, DecodeLen, Incr, Decompress, AuxFits, Left;
    AuxTaken(a, rest, lzf);
  }

  lemma CountUnpacked(n: nat, rest: seq<Byte>, lzf: Inflater)
    requires n < TWO64
    ensures Unpacked(Start(EncodeLen(n) + rest), lzf) == (Ok, ZERO.(len := n), Start(rest))
  {
    hide EncodeLen, DecodeLen;
    LenHeader(ZERO, n, rest);
  }

  lemma WholeIs(b: Stored, u: (Status, Length, Cursor), rest: seq<Byte>)
    requires ItemsFit(b.items)
    requires u.1.len == |Text(b.items)| && Incr(u.2, u.1.len) == Some((Text(b.items), Left(rest, b.z.Some?)))
    ensures Values.Whole(u.2, u.1.len, b.items.Pack?) == (Ok, ItemsElems(b.items), Left(rest, b.z.Some?))
  {
    hide Text, ItemsElems, LpIn, ZipIn, Incr, Left;
    ItemsRead(b.items);
  }

  lemma SingleRead(v: Value, rest: seq<Byte>, lzf: Inflater)
    requires ValueFits(v, lzf) && v.Single?
    ensures var u := Unpacked(Start(ValueBytes(v, lzf) + rest), lzf);
      u.0 == Ok && Elements(RString, u.1, u.2, lzf) == (Ok, ElemsOf(v), Left(rest, EndsPacked(v)))
  {
    hide AuxBytes, AuxFits, Unpacked, StrOf, Left;
    StringUnpacked(v.x, rest, lzf);
  }

  lemma MembersValue(v: Value, rest: seq<Byte>, lzf: Inflater)
    requires ValueFits(v, lzf) && v.Members?
    ensures var u := Unpacked(Start(ValueBytes(v, lzf) + rest), lzf);
      u.0 == Ok && Elements(TypeName(v), u.1, u.2, lzf) == (Ok, ElemsOf(v), Left(rest, EndsPacked(v)))
  {
    hide AllBytes, AuxFits, Unpacked, Rlens, AllElems, EncodeLen;
    var n := if v.t == 4 then |v.xs| / 2 else |v.xs|;
    Regroup(EncodeLen(n), AllBytes(v.xs, lzf), rest);
    CountUnpacked(n, AllBytes(v.xs, lzf) + rest, lzf);
    MembersRead(v.xs, rest, false, lzf);
  }

  lemma WholeValue(v: Value, rest: seq<Byte>, lzf: Inflater)
    requires ValueFits(v, lzf) && v.InString?
    ensures var u := Unpacked(Start(ValueBytes(v, lzf) + rest), lzf);
      u.0 == Ok && Elements(TypeName(v), u.1, u.2, lzf) == (Ok, ElemsOf(v), Left(rest, EndsPacked(v)))
  {
    hide AuxBytes, AuxFits, Unpacked, Text, ItemsElems, Values.Whole, Left, Incr, AsString, ItemsFit;
    StringIs(v.b);
    StringUnpacked(AsString(v.b), rest, lzf);
    WholeIs(v.b, Unpacked(Start(AuxBytes(AsString(v.b), lzf) + rest), lzf), rest);
  }

  lemma NodesValue(v: Value, rest: seq<Byte>, lzf: Inflater)
    requires ValueFits(v, lzf) && v.InNodes?
    ensures var u := Unpacked(Start(ValueBytes(v, lzf) + rest), lzf);
      u.0 == Ok && Elements(TypeName(v), u.1, u.2, lzf) == (Ok, ElemsOf(v), Left(rest, EndsPacked(v)))
  {
    hide AllNodes, StoredFits, Unpacked, Nodes, NodesElems, EncodeLen;
    Regroup(EncodeLen(|v.bs|), AllNodes(v.bs, lzf), rest);
    CountUnpacked(|v.bs|, AllNodes(v.bs, lzf) + rest, lzf);
    NodesReadAll(v.bs, rest, false, lzf, v.packed);
  }

  /** Which elements decode_body takes from a value. */
  lemma ValueRead(v: Value, rest: seq<Byte>, lzf: Inflater)
    requires ValueFits(v, lzf)
    ensures var u := Unpacked(Start(ValueBytes(v, lzf) + rest), lzf);
      u.0 == Ok && Elements(TypeName(v), u.1, u.2, lzf) == (Ok, ElemsOf(v), Left(rest, EndsPacked(v)))
  {
    hide ValueFits, ValueBytes, Unpacked, Elements, ElemsOf, EndsPacked, Left;
    match v
    case Single(_) => SingleRead(v, rest, lzf);
    case Members(_, _) => MembersValue(v, rest, lzf);
    case InString(_, _) => WholeValue(v, rest, lzf);
    case InNodes(_, _) => NodesValue(v, rest, lzf);
  }

  lemma TypeIs(v: Value, lzf: Inflater)
    requires ValueFits(v, lzf)
    ensures GetRdbType(TypeByte(v)) == TypeName(v) != BadType && !IsStream(TypeName(v))
  {
    TypeBytes();
    hide AuxFits, StoredFits, GetRdbType;
  }

  lemma ToldIs(v: Value, lzf: Inflater)
    requires ValueFits(v, lzf)
    ensures Told(v, [StartKey] + Shaped(TypeName(v), ElemsOf(v)) + [EndKey])
  {
    hide AuxFits, StoredFits, Shaped, ElemsOf, ListCalls, SetCalls, HashCalls, ZsetCalls, StringCalls;
    var b, t, xs := TypeByte(v), TypeName(v), ElemsOf(v);
    if b == 0 {
      StringShaped(v);
    } else if b in {1, 10, 14, 18} {
      ListShaped(t, xs);
    } else if b == 2 {
      SetShaped(xs);
    } else if b in {4, 13, 16} {
      HashShaped(t, xs);
    } else {
      ZsetShaped(t, xs);
    }
  }

  lemma StringShaped(v: Value)
    requires v.Single?
    ensures var xs := ElemsOf(v);
      xs == [AuxElem(v.x)] && StringCalls([StartKey] + Shaped(RString, xs) + [EndKey], xs[0])
  {}

  // ----- the record

  lemma LeadBefore(t: Byte, key: AuxStr, value: seq<Byte>, lzf: Inflater)
    requires GetRdbType(t) != BadType && AuxFits(key, lzf) && value != []
    requires Unpacked(Start(value), lzf).0 == Ok
    ensures var u := Unpacked(Start(value), lzf);
      LeadOf(Start([t] + (AuxBytes(key, lzf) + value)), lzf, true) == Lead(Ok, GetRdbType(t), Some(AuxElem(key)), u.1, u.2)
    ensures t < 0xf7
  {
    hide AuxBytes, DecodeLen, AuxOf, AuxFits;
    FileFormat.KnownType(t);
    hide GetRdbType;
    CodeCut(t, AuxBytes(key, lzf) + value);
    AuxStrRead(key, value, lzf);
    LeftLen(value, key.Packed?, ZERO);
  }

  lemma ValueNonempty(v: Value, lzf: Inflater)
    requires ValueFits(v, lzf)
    ensures ValueBytes(v, lzf) != []
  {
    hide AuxFits, AuxBytes, AllBytes, AllNodes, EncodeLen, StoredFits;
    match v
    case Single(x) => AuxNonempty(x, lzf);
    case Members(t, xs) => EncodedSize(if t == 4 then |xs| / 2 else |xs|);
    case InString(_, b) => StoredNonempty(b, lzf);
    case InNodes(bs, _) => EncodedSize(|bs|);
  }

  lemma StoredNonempty(b: Stored, lzf: Inflater)
    requires StoredFits(b, lzf)
    ensures AuxBytes(AsString(b), lzf) != []
  {
    hide AuxFits, AsString;
    AuxNonempty(AsString(b), lzf);
  }

  /** The first record of a file, behind any meta codes: the type that its byte stands for is reported, the key is
      found, and decode_body makes the callbacks for the elements of the value in order and stops behind it. Any
      string may be compressed, the key included. */
  lemma RecordDecoded(ver: nat, ms: seq<MetaDoc>, key: AuxStr, v: Value, rest: seq<Byte>, lzf: Inflater)
    requires ver < 100 && AllMetaFit(ms, lzf) && (forall m | m in ms :: !Stops(m)) && AuxFits(key, lzf) && ValueFits(v, lzf)
    ensures var h := HdrOf(Version(0, false),
        Start(FileHead(ver) + (MetasBytes(ms, lzf)
              + ([TypeByte(v)] + (AuxBytes(key, lzf) + (ValueBytes(v, lzf) + rest))))), lzf);
      h.v == Version(ver, true) && h.events == MetaEvents(ms) + [StartType(TypeName(v))]
      && h.lead.err == Ok && h.lead.t == TypeName(v) && h.lead.key == Some(AuxElem(key))
      && var b := BodyOf(h.lead.t, h.lead.rlen, h.lead.c, lzf);
         b.0 == Done && Told(v, b.1) && b.2 == Left(rest, EndsPacked(v))
  {
    hide FileHead, MetasBytes, MetaEvents, MetaFits, Stops, Open, MetaLoop, LeadOf, Elements, Shaped, Told, ElemsOf, TypeName,
      GetRdbType, ValueBytes, ValueFits, AuxBytes, AuxFits, Unpacked, IsStream, EndsPacked, Left, AuxElem;
    var value := ValueBytes(v, lzf) + rest;
    var rec := [TypeByte(v)] + (AuxBytes(key, lzf) + value);
    TypeIs(v, lzf);
    ValueRead(v, rest, lzf);
    ValueNonempty(v, lzf);
    LeadBefore(TypeByte(v), key, value, lzf);
    ToldIs(v, lzf);
    FileOpens(ver, MetasBytes(ms, lzf) + rec);
    MetasRead(ms, rec, lzf);
  }

  // ----- a dump

  lemma DumpLead(v: Value, lzf: Inflater)
    requires ValueFits(v, lzf)
    ensures var u := Unpacked(Start(ValueBytes(v, lzf)), lzf);
      LeadOf(Start([TypeByte(v)] + ValueBytes(v, lzf)), lzf, false) == Lead(u.0, TypeName(v), None, u.1, u.2)
  {
    TypeIs(v, lzf);
    hide ValueFits, ValueBytes, TypeName, TypeByte, GetRdbType, DecodeLen;
    CodeCut(TypeByte(v), ValueBytes(v, lzf));
  }

  lemma DumpRead(v: Value, lzf: Inflater)
    requires ValueFits(v, lzf)
    ensures var u := Unpacked(Start(ValueBytes(v, lzf)), lzf);
      u.0 == Ok && Elements(TypeName(v), u.1, u.2, lzf) == (Ok, ElemsOf(v), Left([], EndsPacked(v)))
  {
    hide *;
    ValueRead(v, [], lzf);
    Regroup(ValueBytes(v, lzf), [], []);
  }

  lemma ByteOfType(v: Value, lzf: Inflater)
    requires ValueFits(v, lzf)
    ensures TypeByte(v) <= 19
  {
    hide AuxFits, StoredFits;
  }

  lemma DumpHdr(v: Value, crc: nat, newline: bool, lzf: Inflater)
    requires ValueFits(v, lzf) && crc < TWO64
    ensures var s := [TypeByte(v)] + ValueBytes(v, lzf);
      crc == 0 || crc == Checksum(s + [9, 0]) ==>
        HdrOf(Version(0, false), Start(s + [9, 0] + Le(crc, 8) + (if newline then [10] else [])), lzf)
          == Hdr(Version(9, false), [StartType(TypeName(v))], LeadOf(Start(s), lzf, false))
  {
    TypeIs(v, lzf);
    ByteOfType(v, lzf);
    DumpLead(v, lzf);
    hide ValueFits, ValueBytes, TypeByte, TypeName, Open, MetaLoop, LeadOf, Le, Checksum, Unpacked, GetRdbType;
    var s := [TypeByte(v)] + ValueBytes(v, lzf);
    RestorePayload.ChecksumDecides(s, crc, newline);
  }

  /** A dump of a documented value, with its checksum or without, with a line end behind it or without: it is taken
      for version 9, and decode_body makes the callbacks for the elements in order and uses it up. */
  lemma DumpDecoded(v: Value, crc: nat, newline: bool, lzf: Inflater)
    requires ValueFits(v, lzf) && crc < TWO64
    requires crc == 0 || crc == Checksum([TypeByte(v)] + ValueBytes(v, lzf) + [9, 0])
    ensures var h := HdrOf(Version(0, false),
        Start([TypeByte(v)] + ValueBytes(v, lzf) + [9, 0] + Le(crc, 8) + (if newline then [10] else [])), lzf);
      h.v == Version(9, false) && h.events == [StartType(TypeName(v))] && h.lead.err == Ok && h.lead.t == TypeName(v)
      && var b := BodyOf(h.lead.t, h.lead.rlen, h.lead.c, lzf);
         b.0 == Done && Told(v, b.1) && b.2.main == []
  {
    hide ValueFits, ValueBytes, TypeByte, TypeName, HdrOf, LeadOf, Le, Checksum, Unpacked, Elements, Shaped, Told, IsStream;
    DumpHdr(v, crc, newline, lzf);
    DumpLead(v, lzf);
    DumpRead(v, lzf);
    ToldIs(v, lzf);
    TypeIs(v, lzf);
  }

  // ----- RESTORE of any documented value

  lemma ValueBody(v: Value, rest: seq<Byte>, lzf: Inflater)
    requires ValueFits(v, lzf)
    ensures var u := Unpacked(Start(ValueBytes(v, lzf) + rest), lzf);
      u.0 == Ok
      && var b := BodyOf(TypeName(v), u.1, u.2, lzf); b.0 == Done && Told(v, b.1) && b.2 == Left(rest, EndsPacked(v))
  {
    hide ValueFits, ValueBytes, TypeName, Unpacked, Elements, Shaped, Told, Left, EndsPacked, IsStream, GetRdbType, TypeByte;
    ValueRead(v, rest, lzf);
    TypeIs(v, lzf);
    ToldIs(v, lzf);
  }

  /** Where the parts of such a record are. */
  lemma RecordParts(before: seq<Byte>, t: Byte, head: seq<Byte>, key: seq<Byte>, value: seq<Byte>, after: seq<Byte>)
    ensures var s := [t] + (head + key + (value + after)); var file, p := before + s, |before|;
      p < |file| && file[p..] == s && file[p + 1..] == head + (key + (value + after)) && file[p] == t
      && var start := p + 1 + |head| + |key|;
         start + |value| == |file| - |after| && file[start..|file| - |after|] == value
  {
    var s := [t] + (head + key + (value + after));
    Suffix(before, s);
    assert s[1..] == head + key + (value + after);
    Regroup(head, key, value + after);
    BodyCutOut(before, t, head + key, value, after, s);
  }

  /** A record that is decoded to its end can be restored. */
  lemma Restores(file: seq<Byte>, p: nat, key: seq<Byte>, after: seq<Byte>, packed: bool, lzf: Inflater)
    requires p < |file| && after != [] && |after| <= |file|
    requires var lead := LeadOf(Start(file[p..]), lzf, true);
      lead.err == Ok && lead.key == Some(Str(key))
      && var body := BodyOf(lead.t, lead.rlen, lead.c, lzf); body.0 == Done && body.2 == Left(after, packed)
    requires !DecodeLen(Start(file[p + 1..]), ZERO).1.isLzf
    ensures Restorable(file, p, lzf)
    ensures var start := p + 1 + HeadSize(file[p + 1..]) + |key|;
      start <= |file| - |after| && Payload(file, p, lzf) == Dump(file[p], file[start..|file| - |after|])
    ensures RecordAt(file, p, lzf).lead == LeadOf(Start(file[p..]), lzf, true)
    ensures var lead := LeadOf(Start(file[p..]), lzf, true);
      RecordAt(file, p, lzf).body == BodyOf(lead.t, lead.rlen, lead.c, lzf)
  {
    hide LeadOf, BodyOf, DecodeLen, HeadSize, Dump;
    BodyFits(file, p, lzf);
  }

  /** A record in a file with a plain key: the dump that a RESTORE sends for it is the type byte and the bytes of the
      value as they are in the file, compressed or not, framed. */
  lemma ValueRestorable(before: seq<Byte>, key: seq<Byte>, v: Value, after: seq<Byte>, lzf: Inflater)
    requires |key| < TWO64 && ValueFits(v, lzf) && after != []
    ensures var file := before + ([TypeByte(v)] + (EncodeStr(key) + (ValueBytes(v, lzf) + after)));
      |before| < |file| && Restorable(file, |before|, lzf)
      && Payload(file, |before|, lzf) == Dump(TypeByte(v), ValueBytes(v, lzf))
      && Told(v, RecordAt(file, |before|, lzf).body.1)
  {
    hide *;
    TypeIs(v, lzf);
    ValueBody(v, after, lzf);
    ValueNonempty(v, lzf);
    KeyAsAux(key, lzf);
    EncodedIs(key);
    NotLzf(|key|);
    var value, head := ValueBytes(v, lzf), EncodeLen(|key|);
    var file := before + ([TypeByte(v)] + (EncodeStr(key) + (value + after)));
    LeadBefore(TypeByte(v), Plain(Str(key)), value + after, lzf);
    RecordParts(before, TypeByte(v), head, key, value, after);
    LenHeader(ZERO, |key|, key + (value + after));
    HeadIs(|key|, key + (value + after));
    Restores(file, |before|, key, after, EndsPacked(v), lzf);
  }

  lemma EncodedIs(key: seq<Byte>)
    requires |key| < TWO64
    ensures EncodeStr(key) == EncodeLen(|key|) + key
  {
    hide EncodeLen;
  }

  lemma NotLzf(n: nat)
    ensures !ZERO.torn && !ZERO.(len := n).isLzf
  {}

  lemma KeyAsAux(key: seq<Byte>, lzf: Inflater)
    requires |key| < TWO64
    ensures AuxFits(Plain(Str(key)), lzf) && AuxBytes(Plain(Str(key)), lzf) == EncodeStr(key)
    ensures AuxElem(Plain(Str(key))) == Str(key)
  {}
}
