/** How values are decoded from the cursor (src/rdb_decode.cpp:515-638 and 765-967): which elements each
    record type yields, that decoding never leaves the track silently, and that bytes behind a value
    do not matter to it. */
module Values {
  import opened Bytes
  import opened LengthCodec
  import opened Bufptr
  import opened ListValue
  import ZipRead
  import ListPackRead

  /** A status, what was decoded until then, and the cursor. */
  type Piece = (Status, seq<Elem>, Cursor)

  // ----- strings

  function Unzip(c: Cursor, lzf: Inflater, l: Length): (bool, Cursor) {
    if l.isLzf then Decompress(c, lzf, l.zlen, l.len) else (true, c)
  }

  /** decode_str. */
  function StrOf(c: Cursor, l: Length): Piece {
    if l.isEnc != 0 then (Ok, [Int(l.ival)], c)
    else
      match Incr(c, l.len)
      case None => (ErrTrunc, [], c)
      case Some(x) => (Ok, [Str(x.0)], x.1)
  }

  /** decode_rlen. */
  function Rlen(c: Cursor, lzf: Inflater): Piece {
    var d := DecodeLen(c, ZERO);
    if d.0 != Ok then (d.0, [], d.2)
    else
      var u := Unzip(d.2, lzf, d.1);
      if !u.0 then (ErrLzf, [], u.1) else StrOf(u.1, d.1)
  }

  /** n strings one after the other. */
  function Rlens(c: Cursor, lzf: Inflater, n: nat): Piece
    decreases n
  {
    if n == 0 then (Ok, [], c)
    else
      var x := Rlen(c, lzf);
      if x.0 != Ok then (x.0, [], x.2)
      else
        var rest := Rlens(x.2, lzf, n - 1);
        (rest.0, x.1 + rest.1, rest.2)
  }

  // ----- lists in one piece of memory

  /** The elements of a ziplist in b. */
  function ZipIn(b: seq<Byte>): (Status, seq<Elem>) {
    match ZipRead.ZipInit(b)
    case Refused => (ErrTrunc, [])
    case Overrun => (OutOfBounds, [])
    case Opened(zip) => (Ok, ZipRead.ZipElems(zip.mem, ZipRead.FIRST))
  }

  /** The elements of a listpack in b. */
  function LpIn(b: seq<Byte>): (Status, seq<Elem>) {
    match ListPackRead.LpInit(b)
    case Refused => (ErrTrunc, [])
    case Overrun => (OutOfBounds, [])
    case Opened(pack) => (Ok, ListPackRead.LpElems(pack.mem, ListPackRead.FIRST))
  }

  /** decode_ziplist and decode_listpack take rlen.len bytes. */
  function Whole(c: Cursor, n: nat, packed: bool): Piece {
    match Incr(c, n)
    case None => (ErrTrunc, [], c)
    case Some(x) =>
      var r := if packed then LpIn(x.0) else ZipIn(x.0);
      (r.0, r.1, x.1)
  }

  // ----- lists in nodes

  /** A length and the data it announces. */
  function Blob(c: Cursor, lzf: Inflater): (Status, seq<Byte>, Cursor) {
    var d := DecodeLen(c, ZERO);
    if d.0 != Ok then (d.0, [], d.2) else Consume(d.2, lzf, d.1)
  }

  /** One node of decode_quicklist. */
  function ZipNode(c: Cursor, lzf: Inflater): Piece {
    var b := Blob(c, lzf);
    if b.0 != Ok then (b.0, [], b.2)
    else
      var r := ZipIn(b.1);
      (r.0, r.1, b.2)
  }

  /** One node of decode_quicklist_2: only packed containers are supported. */
  function PackNode(c: Cursor, lzf: Inflater): Piece {
    var d := DecodeLen(c, ZERO);
    if d.0 != Ok then (d.0, [], d.2)
    else
      var b := Blob(d.2, lzf);
      if b.0 != Ok then (b.0, [], b.2)
      else if d.1.len != 2 then (ErrNotsup, [], b.2)
      else
        var r := LpIn(b.1);
        (r.0, r.1, b.2)
  }

  function Node(c: Cursor, lzf: Inflater, packed: bool): Piece {
    if packed then PackNode(c, lzf) else ZipNode(c, lzf)
  }

  function Nodes(c: Cursor, lzf: Inflater, n: nat, packed: bool): Piece
    decreases n
  {
    if n == 0 then (Ok, [], c)
    else
      var x := Node(c, lzf, packed);
      if x.0 != Ok then x
      else
        var rest := Nodes(x.2, lzf, n - 1, packed);
        (rest.0, x.1 + rest.1, rest.2)
  }

  // ----- a clean result means that the whole run was clean

  lemma UnzipLeads(c: Cursor, lzf: Inflater, l: Length)
    ensures Leads(c, Unzip(c, lzf, l).1)
  {
    if l.isLzf {
      DecompressLeads(c, lzf, l.zlen, l.len);
    }
  }

  lemma StrOfLeads(c: Cursor, l: Length)
    ensures Leads(c, StrOf(c, l).2)
  {}

  lemma RlenLeads(c: Cursor, lzf: Inflater)
    ensures Leads(c, Rlen(c, lzf).2)
  {
    hide DecodeLen, Unzip, StrOf;
    var d := DecodeLen(c, ZERO);
    DecodeLenLeads(c, ZERO);
    UnzipLeads(d.2, lzf, d.1);
    StrOfLeads(Unzip(d.2, lzf, d.1).1, d.1);
  }

  lemma {:induction false} RlensLeads(c: Cursor, lzf: Inflater, n: nat)
    ensures Leads(c, Rlens(c, lzf, n).2)
    decreases n
  {
    hide Rlen;
    if n > 0 {
      RlenLeads(c, lzf);
      RlensLeads(Rlen(c, lzf).2, lzf, n - 1);
    }
  }

  lemma BlobLeads(c: Cursor, lzf: Inflater)
    ensures Leads(c, Blob(c, lzf).2)
  {
    hide DecodeLen, Consume;
    var d := DecodeLen(c, ZERO);
    DecodeLenLeads(c, ZERO);
    ConsumeLeads(d.2, lzf, d.1);
  }

  lemma NodeLeads(c: Cursor, lzf: Inflater, packed: bool)
    ensures Leads(c, Node(c, lzf, packed).2)
  {
    hide DecodeLen, Blob, ZipIn, LpIn;
    DecodeLenLeads(c, ZERO);
    BlobLeads(c, lzf);
    BlobLeads(DecodeLen(c, ZERO).2, lzf);
  }

  lemma {:induction false} NodesLeads(c: Cursor, lzf: Inflater, n: nat, packed: bool)
    ensures Leads(c, Nodes(c, lzf, n, packed).2)
    decreases n
  {
    hide Node;
    if n > 0 {
      NodeLeads(c, lzf, packed);
      NodesLeads(Node(c, lzf, packed).2, lzf, n - 1, packed);
    }
  }

  // ----- bytes behind a value do not matter

  /** A run over a buffer with t at its end, and the same run over the buffer without t. */
  ghost predicate SameRun<T>(long: (Status, T, Cursor), short: (Status, T, Cursor), t: seq<Byte>) {
    short.0 == Ok && long == (Ok, short.1, short.2.Extend(t))
  }

  lemma UnzipCut(c: Cursor, lzf: Inflater, l: Length, t: seq<Byte>)
    requires Unzip(c.Extend(t), lzf, l).0 && Spares(Unzip(c.Extend(t), lzf, l).1, |t|)
    ensures Unzip(c, lzf, l).0 && Unzip(c.Extend(t), lzf, l).1 == Unzip(c, lzf, l).1.Extend(t)
  {
    hide Decompress;
    if l.isLzf {
      DecompressCut(c, lzf, l.zlen, l.len, t);
    }
  }

  lemma StrOfCut(c: Cursor, l: Length, t: seq<Byte>)
    requires StrOf(c.Extend(t), l).0 == Ok && Spares(StrOf(c.Extend(t), l).2, |t|)
    ensures SameRun(StrOf(c.Extend(t), l), StrOf(c, l), t)
  {
    hide Incr;
    if l.isEnc == 0 {
      IncrCut(c, l.len, t);
    }
  }

  lemma RlenCut(c: Cursor, lzf: Inflater, t: seq<Byte>)
    requires Rlen(c.Extend(t), lzf).0 == Ok && Spares(Rlen(c.Extend(t), lzf).2, |t|)
    ensures SameRun(Rlen(c.Extend(t), lzf), Rlen(c, lzf), t)
  {
    hide DecodeLen, Unzip, StrOf;
    var d, e := DecodeLen(c.Extend(t), ZERO), DecodeLen(c, ZERO);
    StrOfLeads(Unzip(d.2, lzf, d.1).1, d.1);
    UnzipLeads(d.2, lzf, d.1);
    DecodeLenCut(c, ZERO, t);
    UnzipCut(e.2, lzf, e.1, t);
    StrOfCut(Unzip(e.2, lzf, e.1).1, e.1, t);
  }

  lemma {:induction false} RlensCut(c: Cursor, lzf: Inflater, n: nat, t: seq<Byte>)
    requires Rlens(c.Extend(t), lzf, n).0 == Ok && Spares(Rlens(c.Extend(t), lzf, n).2, |t|)
    ensures SameRun(Rlens(c.Extend(t), lzf, n), Rlens(c, lzf, n), t)
    decreases n
  {
    hide Rlen;
    if n > 0 {
      RlensLeads(Rlen(c.Extend(t), lzf).2, lzf, n - 1);
      RlenCut(c, lzf, t);
      RlensCut(Rlen(c, lzf).2, lzf, n - 1, t);
    }
  }

  lemma WholeCut(c: Cursor, n: nat, packed: bool, t: seq<Byte>)
    requires Whole(c.Extend(t), n, packed).0 == Ok && Spares(Whole(c.Extend(t), n, packed).2, |t|)
    ensures SameRun(Whole(c.Extend(t), n, packed), Whole(c, n, packed), t)
  {
    hide Incr, ZipIn, LpIn;
    IncrCut(c, n, t);
  }

  lemma BlobCut(c: Cursor, lzf: Inflater, t: seq<Byte>)
    requires Blob(c.Extend(t), lzf).0 == Ok && Spares(Blob(c.Extend(t), lzf).2, |t|)
    ensures SameRun(Blob(c.Extend(t), lzf), Blob(c, lzf), t)
  {
    hide DecodeLen, Consume;
    var d, e := DecodeLen(c.Extend(t), ZERO), DecodeLen(c, ZERO);
    ConsumeLeads(d.2, lzf, d.1);
    DecodeLenCut(c, ZERO, t);
    ConsumeCut(e.2, lzf, e.1, t);
  }

  lemma NodeCut(c: Cursor, lzf: Inflater, packed: bool, t: seq<Byte>)
    requires Node(c.Extend(t), lzf, packed).0 == Ok && Spares(Node(c.Extend(t), lzf, packed).2, |t|)
    ensures SameRun(Node(c.Extend(t), lzf, packed), Node(c, lzf, packed), t)
  {
    hide DecodeLen, Blob, ZipIn, LpIn;
    if packed {
      BlobLeads(DecodeLen(c.Extend(t), ZERO).2, lzf);
      DecodeLenCut(c, ZERO, t);
      BlobCut(DecodeLen(c, ZERO).2, lzf, t);
    } else {
      BlobCut(c, lzf, t);
    }
  }

  lemma {:induction false} NodesCut(c: Cursor, lzf: Inflater, n: nat, packed: bool, t: seq<Byte>)
    requires Nodes(c.Extend(t), lzf, n, packed).0 == Ok && Spares(Nodes(c.Extend(t), lzf, n, packed).2, |t|)
    ensures SameRun(Nodes(c.Extend(t), lzf, n, packed), Nodes(c, lzf, n, packed), t)
    decreases n
  {
    hide Node;
    if n > 0 {
      NodesLeads(Node(c.Extend(t), lzf, packed).2, lzf, n - 1, packed);
      NodeCut(c, lzf, packed, t);
      NodesCut(Node(c, lzf, packed).2, lzf, n - 1, packed, t);
    }
  }
}
