/** The listpack blocks of a stream: RdbStreamEntry::read_header and read_entry
    (src/rdb_decode.cpp:423-513) as a parser, and the layout it accepts (rdb.adoc:712-739). */
module Stream {
  import opened Bytes
  import opened ListValue
  import opened ListPack
  import opened ListPackRead

  // ----- the parser

  /** next n times, all of them true: the values, and the last one (v itself if n is zero). */
  function Take(mem: seq<Byte>, v: Lval, n: nat): (r: Option<(seq<Lval>, Lval)>)
    requires Inside(mem, LP_HEADER, v)
    ensures r.Some? ==> |r.value.0| == n && Inside(mem, LP_HEADER, r.value.1)
    ensures r.Some? ==> AllInside(mem, LP_HEADER, r.value.0)
    ensures r.Some? && n > 0 ==> r.value.1 == r.value.0[n - 1]
  {
    if n == 0 then Some(([], v))
    else
      match Take(mem, v, n - 1)
      case None => None
      case Some(t) =>
        var r := LpNext(mem, t.1);
        if r.0 then Some((t.0 + [r.1], r.1)) else None
  }

  /** The first n values are immediate integers. */
  predicate Immediate(vs: seq<Lval>, n: nat)
    requires n <= |vs|
  {
    forall i | 0 <= i < n :: vs[i].data == None
  }

  /** The header of a block; counts are the 64 bits of an immediate integer, taken as unsigned. */
  datatype Header = Header(items: nat, deleted: nat, master: seq<Lval>)

  /** read_header: three counts, the master fields, and one element that ends them. */
  function HeaderOf(mem: seq<Byte>): (r: Option<(Header, Lval)>)
    requires |mem| >= LP_HEADER
    ensures r.Some? ==> Inside(mem, LP_HEADER, r.value.1) && AllInside(mem, LP_HEADER, r.value.0.master)
  {
    match Take(mem, FIRST, 3)
    case None => None
    case Some(counts) =>
      if !Immediate(counts.0, 3) then None
      else
        match Take(mem, counts.1, Unsigned(counts.0[2].ival, 8))
        case None => None
        case Some(master) =>
          match Take(mem, master.1, 1)
          case None => None
          case Some(end) =>
            Some((Header(Unsigned(counts.0[0].ival, 8), Unsigned(counts.0[1].ival, 8), master.0), end.1))
  }

  /** An entry of a block; flags are the low 32 bits. */
  datatype Record = Record(flags: nat, ms: nat, ser: nat, fields: seq<Lval>, values: seq<Lval>)

  predicate Deleted(flags: int) { flags % 2 == 1 }
  predicate SameFields(flags: int) { flags / 2 % 2 == 1 }

  /** Every second value, from the first or from the second one on. */
  function Evens<T>(s: seq<T>): (r: seq<T>)
    ensures |r| == |s| / 2 && forall i | 0 <= i < |r| :: r[i] == s[2 * i]
  {
    seq(|s| / 2, i requires 0 <= i < |s| / 2 => s[2 * i])
  }

  function Odds<T>(s: seq<T>): (r: seq<T>)
    ensures |r| == |s| / 2 && forall i | 0 <= i < |r| :: r[i] == s[2 * i + 1]
  {
    seq(|s| / 2, i requires 0 <= i < |s| / 2 => s[2 * i + 1])
  }

  /** read_entry: flags and the id difference, then the values of the master fields, or a count and
      pairs; the last value must be the number of elements before it. */
  function RecordOf(mem: seq<Byte>, v: Lval, master: seq<Lval>): (r: Option<(Record, Lval)>)
    requires Inside(mem, LP_HEADER, v)
    ensures r.Some? ==> Inside(mem, LP_HEADER, r.value.1)
  {
    match Take(mem, v, 3)
    case None => None
    case Some(head) =>
      if !Immediate(head.0, 3) then None
      else
        var rec := Record(Unsigned(head.0[0].ival, 4), Unsigned(head.0[1].ival, 8), Unsigned(head.0[2].ival, 8), [], []);
        if SameFields(rec.flags) then SameRecord(mem, head.1, master, rec) else OwnRecord(mem, head.1, rec)
  }

  function SameRecord(mem: seq<Byte>, v: Lval, master: seq<Lval>, rec: Record): (r: Option<(Record, Lval)>)
    requires Inside(mem, LP_HEADER, v)
    ensures r.Some? ==> Inside(mem, LP_HEADER, r.value.1)
  {
    match Take(mem, v, |master|)
    case None => None
    case Some(values) => BackOf(mem, values.1, 3 + |master|, rec.(fields := master, values := values.0))
  }

  function OwnRecord(mem: seq<Byte>, v: Lval, rec: Record): (r: Option<(Record, Lval)>)
    requires Inside(mem, LP_HEADER, v)
    ensures r.Some? ==> Inside(mem, LP_HEADER, r.value.1)
  {
    match Take(mem, v, 1)
    case None => None
    case Some(count) =>
      if !Immediate(count.0, 1) then None
      else
        match Take(mem, count.1, 2 * Unsigned(count.0[0].ival, 8))
        case None => None
        case Some(pairs) =>
          BackOf(mem, pairs.1, 4 + |pairs.0|, rec.(fields := Evens(pairs.0), values := Odds(pairs.0)))
  }

  /** The check at the end of read_entry; the size of a string counts as its value. */
  function BackOf(mem: seq<Byte>, v: Lval, count: nat, rec: Record): (r: Option<(Record, Lval)>)
    requires Inside(mem, LP_HEADER, v)
    ensures r.Some? ==> Inside(mem, LP_HEADER, r.value.1)
  {
    var r := LpNext(mem, v);
    if r.0 && Unsigned(r.1.ival, 8) == count then Some((rec, r.1)) else None
  }

  /** read_entry n times, until it fails. */
  function Records(mem: seq<Byte>, v: Lval, master: seq<Lval>, n: nat): (r: (bool, seq<Record>))
    requires Inside(mem, LP_HEADER, v)
    ensures r.0 ==> |r.1| == n
    decreases n
  {
    if n == 0 then (true, [])
    else
      match RecordOf(mem, v, master)
      case None => (false, [])
      case Some(first) =>
        var rest := Records(mem, first.1, master, n - 1);
        (rest.0, [first.0] + rest.1)
  }

  // ----- the first steps of both

  /** The start of read_header. */
  function Counts(mem: seq<Byte>): (r: Option<(nat, nat, nat, Lval)>)
    requires |mem| >= LP_HEADER
    ensures r.Some? ==> Inside(mem, LP_HEADER, r.value.3)
  {
    var t := Take(mem, FIRST, 3);
    if t.Some? && Immediate(t.value.0, 3) then
      Some((Unsigned(t.value.0[0].ival, 8), Unsigned(t.value.0[1].ival, 8), Unsigned(t.value.0[2].ival, 8), t.value.1))
    else None
  }

  /** The start of read_entry. */
  function HeadOf(mem: seq<Byte>, v: Lval): (r: Option<(nat, nat, nat, Lval)>)
    requires Inside(mem, LP_HEADER, v)
    ensures r.Some? ==> Inside(mem, LP_HEADER, r.value.3)
  {
    var t := Take(mem, v, 3);
    if t.Some? && Immediate(t.value.0, 3) then
      Some((Unsigned(t.value.0[0].ival, 4), Unsigned(t.value.0[1].ival, 8), Unsigned(t.value.0[2].ival, 8), t.value.1))
    else None
  }

  /** The number of fields: that of the master fields, or one of the entry's own. */
  function CountOf(mem: seq<Byte>, v: Lval, same: bool, m: nat): (r: Option<(nat, Lval)>)
    requires Inside(mem, LP_HEADER, v)
    ensures r.Some? ==> Inside(mem, LP_HEADER, r.value.1)
  {
    if same then Some((m, v))
    else
      var r := LpNext(mem, v);
      if r.0 && r.1.data == None then Some((Unsigned(r.1.ival, 8), r.1)) else None
  }

  /** Fields and values of a record come in pairs, and lie in the list. */
  lemma RecordInside(mem: seq<Byte>, v: Lval, master: seq<Lval>)
    requires Inside(mem, LP_HEADER, v) && AllInside(mem, LP_HEADER, master) && RecordOf(mem, v, master).Some?
    ensures var rec := RecordOf(mem, v, master).value.0;
      |rec.fields| == |rec.values| && AllInside(mem, LP_HEADER, rec.fields) && AllInside(mem, LP_HEADER, rec.values)
    ensures EndOf(v) < EndOf(RecordOf(mem, v, master).value.1)
  {
    hide LpNext, Inside, Unsigned, SameFields;
    var head := Take(mem, v, 3).value;
    TakeAdvances(mem, v, 3);
    if SameFields(Unsigned(head.0[0].ival, 4)) {
      TakeAdvances(mem, head.1, |master|);
    } else {
      var count := Take(mem, head.1, 1).value;
      TakeAdvances(mem, head.1, 1);
      TakeAdvances(mem, count.1, 2 * Unsigned(count.0[0].ival, 8));
    }
  }

  lemma {:induction false} TakeAdvances(mem: seq<Byte>, v: Lval, n: nat)
    requires Inside(mem, LP_HEADER, v) && Take(mem, v, n).Some?
    ensures EndOf(v) + n <= EndOf(Take(mem, v, n).value.1)
    decreases n
  {
    hide LpNext, Inside, EndOf;
    if n > 0 {
      TakeAdvances(mem, v, n - 1);
    }
  }

  // ----- an entry ends with the number of its elements

  lemma {:induction false} TakeMore(mem: seq<Byte>, v: Lval, m: nat, n: nat)
    requires Inside(mem, LP_HEADER, v) && Take(mem, v, m).Some?
    ensures Take(mem, v, m + n).Some? <==> Take(mem, Take(mem, v, m).value.1, n).Some?
    ensures Take(mem, v, m + n).Some? ==>
      Take(mem, v, m + n).value.0 == Take(mem, v, m).value.0 + Take(mem, Take(mem, v, m).value.1, n).value.0
      && Take(mem, v, m + n).value.1 == Take(mem, Take(mem, v, m).value.1, n).value.1
    decreases n
  {
    hide LpNext, Inside;
    if n > 0 {
      TakeMore(mem, v, m, n - 1);
    }
  }

  /** An entry is accepted only if the element behind it counts the elements from its flags on. */
  lemma BackCount(mem: seq<Byte>, v: Lval, master: seq<Lval>)
    requires Inside(mem, LP_HEADER, v) && RecordOf(mem, v, master).Some?
    ensures var last := RecordOf(mem, v, master).value.1;
      var count := Unsigned(last.ival, 8);
      Take(mem, v, count + 1).Some? && Take(mem, v, count + 1).value.1 == last
  {
    hide LpNext, Inside, Evens, Odds, Unsigned;
    var head := Take(mem, v, 3).value;
    var flags := Unsigned(head.0[0].ival, 4);
    if SameFields(flags) {
      TakeMore(mem, v, 3, |master|);
    } else {
      var count := Take(mem, head.1, 1).value;
      TakeMore(mem, v, 3, 1);
      TakeMore(mem, v, 4, 2 * Unsigned(count.0[0].ival, 8));
    }
  }
}
