/** The commands on the other side of the connection: a reader of the Redis protocol that shares nothing with the
    writer finds the arguments in what RestoreOutput sends (src/rdb_restore.cpp:56-100). */
module RestoreRead {
  import opened Bytes
  import opened LengthCodec
  import opened Restore
  import opened RestorePayload
  import opened RestoreFile
  import opened Bufptr

  // ----- the reader

  /** A decimal number up to CR LF, n being the value of the digits so far; and what follows. */
  function ReadDigits(b: seq<Byte>, n: nat): Option<(nat, seq<Byte>)>
    decreases |b|
  {
    if b == [] then None
    else if 0x30 <= b[0] <= 0x39 then ReadDigits(b[1..], 10 * n + (b[0] - 0x30))
    else if |b| >= 2 && b[0] == 13 && b[1] == 10 then Some((n, b[2..]))
    else None
  }

  /** A mark and a number, which has at least one digit. */
  function ReadSize(b: seq<Byte>, mark: Byte): Option<(nat, seq<Byte>)> {
    if |b| >= 2 && b[0] == mark && 0x30 <= b[1] <= 0x39 then ReadDigits(b[1..], 0) else None
  }

  /** $ and a size, so many bytes, CR LF. */
  function ReadBulk(b: seq<Byte>): (r: Option<(seq<Byte>, seq<Byte>)>) {
    match ReadSize(b, 36)
    case None => None
    case Some((n, s)) =>
      if |s| >= n + 2 && s[n] == 13 && s[n + 1] == 10 then Some((s[..n], s[n + 2..])) else None
  }

  function ReadBulks(b: seq<Byte>, n: nat): Option<(seq<seq<Byte>>, seq<Byte>)>
    decreases n
  {
    if n == 0 then Some(([], b))
    else
      match ReadBulk(b)
      case None => None
      case Some((arg, s)) =>
        match ReadBulks(s, n - 1)
        case None => None
        case Some((args, t)) => Some(([arg] + args, t))
  }

  /** * and a number, and so many strings. */
  function ReadCommand(b: seq<Byte>): Option<(seq<seq<Byte>>, seq<Byte>)> {
    match ReadSize(b, 42)
    case None => None
    case Some((n, s)) => ReadBulks(s, n)
  }

  function ReadCommands(b: seq<Byte>, n: nat): Option<(seq<seq<seq<Byte>>>, seq<Byte>)>
    decreases n
  {
    if n == 0 then Some(([], b))
    else
      match ReadCommand(b)
      case None => None
      case Some((args, s)) =>
        match ReadCommands(s, n - 1)
        case None => None
        case Some((more, t)) => Some(([args] + more, t))
  }

  // ----- numbers

  lemma {:induction false} DigitsRead(n: nat, s: seq<Byte>)
    ensures ReadDigits(Decimal(n) + s, 0) == ReadDigits(s, n)
    decreases n
  {
    var d := [0x30 + n % 10];
    assert d + s != [] && (d + s)[1..] == s && (d + s)[0] == d[0];
    if n < 10 {
      assert Decimal(n) == d;
      assert ReadDigits(d + s, 0) == ReadDigits(s, n);
    } else {
      assert Decimal(n) + s == Decimal(n / 10) + (d + s);
      DigitsRead(n / 10, d + s);
      assert ReadDigits(d + s, n / 10) == ReadDigits(s, 10 * (n / 10) + n % 10);
    }
  }

  /** There are digits only, and the first one is 0 in the number 0 alone. */
  lemma {:induction false} DecimalDigits(n: nat)
    ensures Decimal(n) != [] && (forall i | 0 <= i < |Decimal(n)| :: 0x30 <= Decimal(n)[i] <= 0x39)
    ensures Decimal(n)[0] == 0x30 <==> n == 0
    ensures n < 10 ==> |Decimal(n)| == 1
  {
    if n >= 10 {
      DecimalDigits(n / 10);
    }
  }

  lemma SizeRead(mark: Byte, n: nat, rest: seq<Byte>)
    ensures ReadSize([mark] + Decimal(n) + CRLF + rest, mark) == Some((n, rest))
  {
    hide Decimal;
    DecimalDigits(n);
    var tail := CRLF + rest;
    assert tail[0] == 13 && tail[1] == 10 && tail[2..] == rest;
    var b := [mark] + Decimal(n) + CRLF + rest;
    assert b[1..] == Decimal(n) + tail;
    assert b[1] == Decimal(n)[0];
    DigitsRead(n, tail);
  }

  // ----- commands

  lemma BulkRead(s: seq<Byte>, rest: seq<Byte>)
    ensures ReadBulk(Bulk(s) + rest) == Some((s, rest))
  {
    hide Decimal, ReadSize;
    var tail := s + CRLF + rest;
    assert Bulk(s) + rest == [0x24] + Decimal(|s|) + CRLF + tail;
    SizeRead(0x24, |s|, tail);
    assert tail[..|s|] == s && tail[|s|..] == CRLF + rest && tail[|s| + 2..] == rest;
    assert tail[|s|] == CRLF[0] && tail[|s| + 1] == CRLF[1];
  }

  lemma {:induction false} BulksRead(args: seq<seq<Byte>>, rest: seq<Byte>)
    ensures ReadBulks(Bulks(args) + rest, |args|) == Some((args, rest))
    decreases args
  {
    hide Bulk, ReadBulk;
    if args == [] {
      assert [] + rest == rest;
    } else {
      Regroup(Bulk(args[0]), Bulks(args[1..]), rest);
      BulkRead(args[0], Bulks(args[1..]) + rest);
      BulksRead(args[1..], rest);
      assert [args[0]] + args[1..] == args;
    }
  }

  /** Every command is read as its arguments, whatever bytes they hold, and nothing behind it is touched. */
  lemma CommandRead(args: seq<seq<Byte>>, rest: seq<Byte>)
    ensures ReadCommand(Command(args) + rest) == Some((args, rest))
  {
    hide Decimal, Bulks, ReadSize, ReadBulks;
    assert Command(args) + rest == [0x2a] + Decimal(|args|) + CRLF + (Bulks(args) + rest);
    SizeRead(0x2a, |args|, Bulks(args) + rest);
    BulksRead(args, rest);
  }

  /** What the server is asked to do: RESTORE key 0 value, and REPLACE. */
  function Asked(key: seq<Byte>, value: seq<Byte>, replace: bool): seq<seq<Byte>> {
    if replace then [[82, 69, 83, 84, 79, 82, 69], key, [48], value, [82, 69, 80, 76, 65, 67, 69]]
    else [[82, 69, 83, 84, 79, 82, 69], key, [48], value]
  }

  lemma RequestRead(key: seq<Byte>, value: seq<Byte>, replace: bool, rest: seq<Byte>)
    ensures ReadCommand(RestoreCommand(key, value, replace) + rest) == Some((Asked(key, value, replace), rest))
  {
    hide Command, ReadCommand;
    var args := [RESTORE, key, [0x30], value] + (if replace then [REPLACE] else []);
    assert args == Asked(key, value, replace);
    CommandRead(args, rest);
  }

  /** The values of the records of a file. */
  function AllAsked(rs: seq<Rec>, replace: bool): seq<seq<seq<Byte>>>
    requires forall r | r in rs :: r.n < TWO64
  {
    if rs == [] then []
    else [Asked(rs[0].key, Dump(rs[0].t, EncodeLen(rs[0].n) + rs[0].value), replace)] + AllAsked(rs[1..], replace)
  }

  /** What RestoreAll leaves on the output is, to the server, one RESTORE for every record in order. */
  lemma {:induction false} AllRead(rs: seq<Rec>, lzf: Inflater, replace: bool, rest: seq<Byte>)
    requires AllRecFit(rs, lzf)
    ensures forall r | r in rs :: r.n < TWO64
    ensures ReadCommands(AllCommands(rs, lzf, replace) + rest, |rs|) == Some((AllAsked(rs, replace), rest))
    decreases rs
  {
    hide RestoreCommand, ReadCommand, Dump, EncodeLen, Asked, RecFits;
    RecsFit(rs, lzf);
    if rs == [] {
      assert [] + rest == rest;
    } else {
      RecsCons(0, rs, lzf, replace);
      var r, more := rs[0], AllCommands(rs[1..], lzf, replace);
      var value := Dump(r.t, EncodeLen(r.n) + r.value);
      Regroup(RestoreCommand(r.key, value, replace), more, rest);
      RequestRead(r.key, value, replace, more + rest);
      AllRead(rs[1..], lzf, replace, rest);
    }
  }

  lemma RecsFit(rs: seq<Rec>, lzf: Inflater)
    requires AllRecFit(rs, lzf)
    ensures forall r | r in rs :: r.n < TWO64
  {
    forall r | r in rs ensures r.n < TWO64 {
      assert RecFits(r, lzf);
    }
  }
}
