/** decode_body (src/rdb_decode.cpp:515-609): the callbacks for the value of a record of each type. */
module Records {
  import opened Bytes
  import opened LengthCodec
  import opened Bufptr
  import opened ListValue
  import opened Events
  import opened Values
  import opened StreamDecode

  /** How the elements of a value are handed to the output. An odd field without its value is not. */
  function Shaped(t: RdbType, xs: seq<Elem>): seq<Event> {
    match t
    case RString => seq(|xs|, i requires 0 <= i < |xs| => DString(xs[i]))
    case RSet => seq(|xs|, i requires 0 <= i < |xs| => DSet(xs[i]))
    case RHash => HashEvents(xs)
    case RHashZiplist => HashEvents(xs)
    case RHashListpack => HashEvents(xs)
    case RZsetZiplist => ZsetEvents(xs)
    case RZsetListpack => ZsetEvents(xs)
    case _ => seq(|xs|, i requires 0 <= i < |xs| => DList(xs[i]))
  }

  function HashEvents(xs: seq<Elem>): seq<Event> {
    seq(|xs| / 2, i requires 0 <= i < |xs| / 2 => DHash(xs[2 * i], xs[2 * i + 1]))
  }

  function ZsetEvents(xs: seq<Elem>): seq<Event> {
    seq(|xs| / 2, i requires 0 <= i < |xs| / 2 => DZset(xs[2 * i], xs[2 * i + 1]))
  }

  /** The elements of a value that is not a stream. */
  function Elements(t: RdbType, l: Length, c: Cursor, lzf: Inflater): Piece {
    match t
    case RString => StrOf(c, l)
    case RHash => Rlens(c, lzf, 2 * l.len)
    case RSet => Rlens(c, lzf, l.len)
    case RList => Rlens(c, lzf, l.len)
    case RHashZiplist => Whole(c, l.len, false)
    case RZsetZiplist => Whole(c, l.len, false)
    case RListZiplist => Whole(c, l.len, false)
    case RListQuicklist => Nodes(c, lzf, l.len, false)
    case RListQuicklist2 => Nodes(c, lzf, l.len, true)
    case RHashListpack => Whole(c, l.len, true)
    case RZsetListpack => Whole(c, l.len, true)
    case _ => (Unmodelled, [], c)
  }

  predicate IsStream(t: RdbType) { t == RStreamListpack || t == RStreamListpacks2 }

  /** decode_body between d_start_key and d_end_key. */
  function ValueRun(t: RdbType, l: Length, c: Cursor, lzf: Inflater): Run {
    if IsStream(t) then StreamRun(c, lzf, t == RStreamListpacks2, l.len)
    else
      var x := Elements(t, l, c, lzf);
      (if x.0 == Ok then Done else Fail(x.0), Shaped(t, x.1), x.2)
  }

  function BodyOf(t: RdbType, l: Length, c: Cursor, lzf: Inflater): Run {
    if t == BadType then (Fail(ErrNotsup), [], c)
    else
      var x := ValueRun(t, l, c, lzf);
      (x.0, [StartKey] + x.1 + (if x.0 == Done then [EndKey] else []), x.2)
  }

  /** What the caller of decode_body sees. */
  function StatusOf(e: Ended): Status {
    match e
    case Fail(err) => err
    case Released => OutOfBounds
    case _ => Ok
  }

  lemma WholeLeads(c: Cursor, n: nat, packed: bool)
    ensures Leads(c, Whole(c, n, packed).2)
  {
    hide ZipIn, LpIn, Incr;
    IncrLeads(c, n);
  }

  lemma ElementsLeads(t: RdbType, l: Length, c: Cursor, lzf: Inflater)
    ensures Leads(c, Elements(t, l, c, lzf).2)
  {
    hide StrOf, Rlens, Whole, Nodes;
    StrOfLeads(c, l);
    RlensLeads(c, lzf, 2 * l.len);
    RlensLeads(c, lzf, l.len);
    WholeLeads(c, l.len, false);
    WholeLeads(c, l.len, true);
    NodesLeads(c, lzf, l.len, false);
    NodesLeads(c, lzf, l.len, true);
  }

  lemma ElementsCut(t: RdbType, l: Length, c: Cursor, lzf: Inflater, s: seq<Byte>)
    requires Elements(t, l, c.Extend(s), lzf).0 == Ok && Spares(Elements(t, l, c.Extend(s), lzf).2, |s|)
    ensures SameRun(Elements(t, l, c.Extend(s), lzf), Elements(t, l, c, lzf), s)
  {
    hide StrOf, Rlens, Whole, Nodes;
    match t
    case RString => StrOfCut(c, l, s);
    case RHash => RlensCut(c, lzf, 2 * l.len, s);
    case RSet => RlensCut(c, lzf, l.len, s);
    case RList => RlensCut(c, lzf, l.len, s);
    case RHashZiplist => WholeCut(c, l.len, false, s);
    case RZsetZiplist => WholeCut(c, l.len, false, s);
    case RListZiplist => WholeCut(c, l.len, false, s);
    case RListQuicklist => NodesCut(c, lzf, l.len, false, s);
    case RListQuicklist2 => NodesCut(c, lzf, l.len, true, s);
    case RHashListpack => WholeCut(c, l.len, true, s);
    case RZsetListpack => WholeCut(c, l.len, true, s);
    case _ =>
  }

  lemma BodyLeads(t: RdbType, l: Length, c: Cursor, lzf: Inflater)
    ensures Leads(c, BodyOf(t, l, c, lzf).2)
  {
    hide Elements, StreamRun, Shaped;
    ElementsLeads(t, l, c, lzf);
    StreamLeads(c, lzf, t == RStreamListpacks2, l.len);
  }

  /** A record that is decoded to its end is decoded alike when the bytes behind it are cut off. */
  lemma BodyCut(t: RdbType, l: Length, c: Cursor, lzf: Inflater, s: seq<Byte>)
    requires BodyOf(t, l, c.Extend(s), lzf).0 == Done && Spares(BodyOf(t, l, c.Extend(s), lzf).2, |s|)
    ensures SameDone(BodyOf(t, l, c.Extend(s), lzf), BodyOf(t, l, c, lzf), s)
  {
    hide Elements, StreamRun, Shaped;
    if IsStream(t) {
      StreamCut(c, lzf, t == RStreamListpacks2, l.len, s);
    } else {
      ElementsCut(t, l, c, lzf, s);
    }
  }
}
