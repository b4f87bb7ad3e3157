/** The life of the memory of RdbStreamEntry (include/rdbparser/rdb_decode.h:604-623,
    src/rdb_decode.cpp:432-437, 460-494): with SAMEFIELDS the field pointer is the master pointer, and
    release gives back whatever does not lie in the arena. */
module StreamLife {
  import opened Bytes
  import opened ListValue
  import opened ListPack
  import opened ListPackRead
  import opened Stream

  const TMP_SIZE := 64

  /** Where the field pointer points: nowhere, into the arena or to memory of its own; to a master list on
      the heap; to one that was given back; or behind the arena, which release takes for the heap. */
  datatype Place = Fine | Master | Freed | Edge

  /** heap: the master list is not in the arena; gone: it was given back; fault: memory was read or given
      back that is not allocated. */
  datatype Life = Life(heap: bool, gone: bool, at: Place, fault: bool)

  const NEW := Life(false, false, Fine, false)

  /** read_header with m master fields; an older master list is now only what the fields point to. */
  function Headed(l: Life, m: nat): Life {
    Life(m > TMP_SIZE, false, if l.at == Master then Fine else l.at, l.fault)
  }

  /** What an entry does to the memory: its fields are those of the master, and are read or not; or n of
      its own; or it fails before either. */
  datatype Kind = Same(read: bool) | Own(n: nat) | Bare

  /** read_entry: the old fields are given back, and the new ones placed. */
  function Turned(l: Life, m: nat, k: Kind): Life {
    var gone := l.gone || l.at == Master;
    var at := match k
      case Same(_) => if !l.heap then Fine else if gone then Freed else Master
      case Own(n) => if m == TMP_SIZE && n == 0 then Edge else Fine
      case Bare => Fine;
    Life(l.heap, gone, at, l.fault || l.at == Freed || l.at == Edge)
  }

  /** The fields are read. */
  function Looked(l: Life): Life {
    l.(fault := l.fault || l.at == Freed)
  }

  function Step(l: Life, m: nat, k: Kind): Life {
    if k.Same? && k.read then Looked(Turned(l, m, k)) else Turned(l, m, k)
  }

  function RunKinds(l: Life, m: nat, ks: seq<Kind>): Life
    decreases |ks|
  {
    if ks == [] then l else RunKinds(Step(l, m, ks[0]), m, ks[1..])
  }

  /** A block whose header was read: the number of master fields, and its entries. */
  datatype BlockLife = BlockLife(count: nat, kinds: seq<Kind>)

  function RunBlock(l: Life, b: BlockLife): Life {
    RunKinds(Headed(l, b.count), b.count, b.kinds)
  }

  function RunBlocks(l: Life, bs: seq<BlockLife>): Life
    decreases |bs|
  {
    if bs == [] then l else RunBlocks(RunBlock(l, bs[0]), bs[1..])
  }

  /** The master list is given back by the destructor, and the fields point to it or did so. */
  predicate Owed(l: Life) { l.heap && (l.gone || l.at == Master) }

  predicate Doomed(l: Life) { l.fault || l.at == Freed || l.at == Edge }

  /** ~RdbStreamEntry gives back the master list and the fields. */
  predicate Dead(l: Life) { Doomed(l) || Owed(l) }

  /** Over these blocks and the destructor, memory that is not allocated is read or given back. */
  predicate Faults(bs: seq<BlockLife>) { Dead(RunBlocks(NEW, bs)) }

  // ----- the exact condition

  function Sames(ks: seq<Kind>): nat {
    if ks == [] then 0 else (if ks[0].Same? then 1 else 0) + Sames(ks[1..])
  }

  predicate Bad(b: BlockLife) {
    (b.count > TMP_SIZE && Sames(b.kinds) >= 2) || (b.count == TMP_SIZE && Own(0) in b.kinds)
  }

  /** With a master list on the heap, one entry with SAMEFIELDS and none in the last block; with a master
      list that fills the arena, no entry that has no fields. */
  predicate Safe(bs: seq<BlockLife>) {
    forall i | 0 <= i < |bs| ::
      (bs[i].count > TMP_SIZE ==> Sames(bs[i].kinds) <= if i == |bs| - 1 then 0 else 1)
      && (bs[i].count == TMP_SIZE ==> Own(0) !in bs[i].kinds)
  }

  lemma {:induction false} KindsLife(l: Life, m: nat, ks: seq<Kind>)
    requires l.heap == (m > TMP_SIZE)
    ensures var r, used := RunKinds(l, m, ks), if Owed(l) then 1 else 0;
      r.heap == l.heap
      && (Doomed(r) <==>
            Doomed(l) || (m > TMP_SIZE && Sames(ks) > 0 && Sames(ks) + used >= 2) || (m == TMP_SIZE && Own(0) in ks))
      && (!Doomed(r) ==> (Owed(r) <==> m > TMP_SIZE && Sames(ks) + used > 0))
    decreases |ks|
  {
    if ks != [] {
      KindsLife(Step(l, m, ks[0]), m, ks[1..]);
      assert Own(0) in ks <==> ks[0] == Own(0) || Own(0) in ks[1..];
    }
  }

  lemma BlockRun(l: Life, b: BlockLife)
    ensures var r := RunBlock(l, b);
      (Doomed(r) <==> Doomed(l) || Bad(b))
      && (!Doomed(r) ==> (Owed(r) <==> b.count > TMP_SIZE && Sames(b.kinds) > 0))
  {
    KindsLife(Headed(l, b.count), b.count, b.kinds);
  }

  lemma {:induction false} BlocksRun(l: Life, bs: seq<BlockLife>)
    ensures var r := RunBlocks(l, bs);
      (Doomed(r) <==> Doomed(l) || exists i :: 0 <= i < |bs| && Bad(bs[i]))
      && (!Doomed(r) ==> (Owed(r) <==>
            if bs == [] then Owed(l)
            else bs[|bs| - 1].count > TMP_SIZE && Sames(bs[|bs| - 1].kinds) > 0))
    decreases |bs|
  {
    hide Bad, RunBlock, Doomed, Owed, Sames;
    if bs != [] {
      BlockRun(l, bs[0]);
      BlocksRun(RunBlock(l, bs[0]), bs[1..]);
      assert forall i | 0 < i < |bs| :: bs[i] == bs[1..][i - 1];
      if i :| 0 <= i < |bs| && Bad(bs[i]) {
        assert i == 0 || Bad(bs[1..][i - 1]);
      }
      if j :| 0 <= j < |bs| - 1 && Bad(bs[1..][j]) {
        assert Bad(bs[j + 1]);
      }
    }
  }

  /** Memory that is not allocated is read or given back if and only if the blocks are not safe. */
  lemma FaultsExactly(bs: seq<BlockLife>)
    ensures Faults(bs) <==> !Safe(bs)
  {
    hide RunBlocks, Sames;
    BlocksRun(NEW, bs);
    if i :| 0 <= i < |bs| && Bad(bs[i]) {
      assert !Safe(bs);
    }
  }

  // ----- a fault stays

  lemma {:induction false} KindsFault(l: Life, m: nat, ks: seq<Kind>)
    ensures l.fault ==> RunKinds(l, m, ks).fault
    decreases |ks|
  {
    if ks != [] {
      KindsFault(Step(l, m, ks[0]), m, ks[1..]);
    }
  }

  lemma {:induction false} BlocksFault(l: Life, bs: seq<BlockLife>)
    ensures l.fault ==> RunBlocks(l, bs).fault
    decreases |bs|
  {
    if bs != [] {
      KindsFault(Headed(l, bs[0].count), bs[0].count, bs[0].kinds);
      BlocksFault(RunBlock(l, bs[0]), bs[1..]);
    }
  }

  lemma {:induction false} BlocksConcat(l: Life, a: seq<BlockLife>, b: seq<BlockLife>)
    ensures RunBlocks(l, a + b) == RunBlocks(RunBlocks(l, a), b)
    decreases |a|
  {
    hide RunBlock;
    if a == [] {
      assert a + b == b;
    } else {
      assert (a + b)[1..] == a[1..] + b;
      BlocksConcat(RunBlock(l, a[0]), a[1..], b);
    }
  }

  // ----- the entries in the bytes of a block

  /** What the entry behind v does; None if it fails before anything is given back. */
  function KindAt(mem: seq<Byte>, v: Lval, m: nat, read: bool): Option<Kind>
    requires Inside(mem, LP_HEADER, v)
  {
    match HeadOf(mem, v)
    case None => None
    case Some(h) =>
      if SameFields(h.0) then Some(Same(read))
      else
        match CountOf(mem, h.3, false, m)
        case None => Some(Bare)
        case Some(c) => Some(Own(c.0))
  }

  predicate IsRead(r: Option<(Record, Lval)>) {
    r.Some? && !Deleted(r.value.0.flags)
  }

  /** n entries, until one fails; the fields of those that are not deleted are read. */
  function Kinds(mem: seq<Byte>, v: Lval, master: seq<Lval>, n: nat): seq<Kind>
    requires Inside(mem, LP_HEADER, v)
    decreases n
  {
    if n == 0 then []
    else
      var r := RecordOf(mem, v, master);
      match KindAt(mem, v, |master|, IsRead(r))
      case None => []
      case Some(k) => [k] + (if r.None? then [] else Kinds(mem, r.value.1, master, n - 1))
  }

  /** The block in b; none if its header is refused before the master list is placed. */
  function TraceIn(b: seq<Byte>): seq<BlockLife> {
    match LpInit(b)
    case Refused => []
    case Overrun => []
    case Opened(pack) =>
      match Counts(pack.mem)
      case None => []
      case Some(c) =>
        match HeaderOf(pack.mem)
        case None => [BlockLife(c.2, [])]
        case Some(h) => [BlockLife(c.2, Kinds(pack.mem, h.1, h.0.master, h.0.items))]
  }
}
