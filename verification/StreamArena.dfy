/** RdbStreamEntry (include/rdbparser/rdb_decode.h:592-624, src/rdb_decode.cpp:423-513): the parser of
    module Stream over an arena of 64 slots that the master fields, the fields and the values share. */
module StreamArena {
  import opened Bytes
  import opened ListValue
  import opened ListPack
  import opened ListPackRead
  import opened Stream
  import opened StreamLife

  /** A pointer into an array of values. */
  datatype Ptr = Null | At(a: array<Lval>, off: nat)

  /** n values from a pointer on. */
  predicate Room(p: Ptr, n: nat) {
    p.At? && p.off + n <= p.a.Length
  }

  function Slots(p: Ptr, n: nat): (r: seq<Lval>)
    requires Room(p, n)
    reads if p.At? then {p.a} else {}
    ensures |r| == n
  {
    p.a[p.off..p.off + n]
  }

  /** m slots from p on and n slots from q on have none in common. */
  predicate Apart(p: Ptr, m: nat, q: Ptr, n: nat) {
    p.At? && q.At? && (p.a != q.a || p.off + m <= q.off || q.off + n <= p.off)
  }

  // ----- two values a turn

  lemma EvensMore<T>(s: seq<T>, x: T, y: T)
    requires |s| % 2 == 0
    ensures Evens(s + [x]) == Evens(s) && Odds(s + [x]) == Odds(s)
    ensures Evens(s + [x] + [y]) == Evens(s) + [x] && Odds(s + [x] + [y]) == Odds(s) + [y]
  {}

  lemma TakeOneMore(mem: seq<Byte>, v: Lval, n: nat)
    requires Inside(mem, LP_HEADER, v)
    ensures var t := Take(mem, v, n);
      if t.Some? && LpNext(mem, t.value.1).0 then
        Take(mem, v, n + 1) == Some((t.value.0 + [LpNext(mem, t.value.1).1], LpNext(mem, t.value.1).1))
      else Take(mem, v, n + 1).None?
  {
    hide LpNext, Inside;
  }

  /** first_ival and next_ival. */
  method FirstIval(list: RdbListPack, lval: RdbListValue) returns (ok: bool)
    requires list.Valid()
    modifies lval
    ensures LP_HEADER <= lval.entry
    ensures LpNext(list.Bytes(), FIRST).1 == lval.View()
    ensures ok <==> LpNext(list.Bytes(), FIRST).0 && lval.data == None
  {
    hide LpNext;
    ok := list.First(lval);
    ok := ok && lval.data == None;
  }

  method NextIval(list: RdbListPack, lval: RdbListValue) returns (ok: bool)
    requires list.Valid() && LP_HEADER <= lval.entry
    modifies lval
    ensures LP_HEADER <= lval.entry
    ensures LpNext(list.Bytes(), old(lval.View())).1 == lval.View()
    ensures ok <==> LpNext(list.Bytes(), old(lval.View())).0 && lval.data == None
  {
    hide LpNext;
    ok := list.Next(lval);
    ok := ok && lval.data == None;
  }

  class RdbStreamEntry {
    const tmp: array<Lval>
    var itemsCount: nat
    var deletedCount: nat
    var masterFieldCount: nat
    var entryFieldCount: nat
    var flags: nat
    var diffMs: nat
    var diffSer: nat
    var master: Ptr
    var fields: Ptr
    var values: Ptr
    var freed: set<array<Lval>> // observed: what release has given back
    var fault: bool // observed: it has given back what was not allocated, or that was read

    ghost predicate Valid()
      reads this`master, this`fields, this`values, this`freed
    {
      tmp.Length == TMP_SIZE && tmp !in freed && (master.At? ==> master.off == 0) && ValuesOwn()
    }

    /** What the values point to belongs to nothing else. */
    ghost predicate ValuesOwn()
      reads this`master, this`fields, this`values, this`freed
    {
      values.At? ==>
        if values.a == tmp then values.off >= TMP_SIZE ==> Spot() == Edge
        else values.a !in freed && (fields.At? ==> fields.a != values.a) && (master.At? ==> master.a != values.a)
    }

    /** Where the fields point. */
    ghost function Spot(): Place
      reads this`master, this`fields, this`freed
    {
      if fields.Null? then Fine
      else if fields.a == tmp then (if fields.off >= TMP_SIZE then Edge else Fine)
      else if fields.a in freed then Freed
      else if master.At? && master.a == fields.a then Master
      else Fine
    }

    /** The state of module StreamLife. */
    ghost function LifeOf(): Life
      reads this`master, this`fields, this`freed, this`fault
    {
      var heap := master.At? && master.a != tmp;
      Life(heap, heap && master.a in freed, Spot(), fault)
    }

    /** A header was read; up to 64 master fields lie at the start of the arena. */
    ghost predicate Open()
      reads this`master, this`fields, this`values, this`freed, this`masterFieldCount
    {
      Valid() && Room(master, masterFieldCount) && master.off == 0
      && (masterFieldCount <= TMP_SIZE <==> master.a == tmp)
    }

    function Masters(): (r: seq<Lval>)
      reads this`master, this`masterFieldCount, if master.At? then {master.a} else {}
      requires Room(master, masterFieldCount)
      ensures |r| == masterFieldCount
    {
      Slots(master, masterFieldCount)
    }

    constructor ()
      ensures Valid() && fresh(tmp) && LifeOf() == NEW
    {
      tmp := new Lval[TMP_SIZE](_ => Lval(0, 0, None, 0, 0));
      itemsCount, deletedCount, masterFieldCount, entryFieldCount, flags, diffMs, diffSer := 0, 0, 0, 0, 0, 0, 0;
      master, fields, values := Null, Null, Null;
      freed, fault := {}, false;
    }

    /** Only what does not lie in the arena is given back; a place behind it does not. */
    method Release(p: Ptr)
      modifies this`freed, this`fault
      ensures freed == old(freed) + (if p.At? && p.a != tmp then {p.a} else {})
      ensures fault == (old(fault) || (p.At? && if p.a == tmp then p.off >= TMP_SIZE else p.a in old(freed)))
    {
      if p.At? && (p.a != tmp || p.off >= TMP_SIZE) {
        fault := fault || p.a == tmp || p.a in freed;
        if p.a != tmp {
          freed := freed + {p.a};
        }
      }
    }

    /** The destructor. */
    method Destroy()
      requires Valid()
      modifies this`freed, this`fault
      ensures fault == Dead(old(LifeOf()))
    {
      Release(master);
      Release(fields);
      Release(values);
    }

    /** The fields are about to be read. */
    method See()
      requires Valid()
      modifies this`fault
      ensures Valid() && LifeOf() == Looked(old(LifeOf()))
    {
      fault := fault || (fields.At? && fields.a in freed);
    }

    /** The three counts. */
    method ReadCounts(list: RdbListPack, lval: RdbListValue) returns (ok: bool)
      requires list.Valid()
      modifies this`itemsCount, this`deletedCount, this`masterFieldCount, lval
      ensures ok <==> Counts(list.Bytes()).Some?
      ensures ok ==> Counts(list.Bytes()).value == (itemsCount, deletedCount, masterFieldCount, lval.View())
    {
      hide LpNext, Unsigned;
      ghost var mem := list.Bytes();
      TakeOneMore(mem, FIRST, 0);
      TakeOneMore(mem, FIRST, 1);
      TakeOneMore(mem, FIRST, 2);
      var a := FirstIval(list, lval);
      itemsCount := Unsigned(lval.ival, 8);
      var b := NextIval(list, lval);
      deletedCount := Unsigned(lval.ival, 8);
      var c := NextIval(list, lval);
      masterFieldCount := Unsigned(lval.ival, 8);
      ok := a && b && c;
    }

    /** The values of the master fields, stored one by one. */
    method ReadMaster(list: RdbListPack, lval: RdbListValue) returns (ok: bool)
      requires Open() && list.Valid() && Inside(list.Bytes(), LP_HEADER, lval.View())
      modifies lval, master.a
      ensures ok <==> Take(list.Bytes(), old(lval.View()), masterFieldCount).Some?
      ensures ok ==> Take(list.Bytes(), old(lval.View()), masterFieldCount).value == (Masters(), lval.View())
    {
      hide LpNext, Take, Inside;
      ghost var mem, v := list.Bytes(), lval.View();
      TakeStart(mem, v);
      var i := 0;
      while i < masterFieldCount
        invariant 0 <= i <= masterFieldCount && Take(mem, v, i).Some?
        invariant Take(mem, v, i).value == (master.a[..i], lval.View())
      {
        TakeOneMore(mem, v, i);
        TakeInside(mem, v, i);
        var more := list.Next(lval);
        if !more {
          TakeAll(mem, v, i + 1, masterFieldCount);
          return false;
        }
        ghost var before := master.a[..i];
        master.a[i] := lval.View();
        assert master.a[..i + 1] == before + [lval.View()];
        i := i + 1;
      }
      return true;
    }

    /** The master fields go to the arena if they fit, else to memory of their own; an allocation is
        taken to succeed. */
    method PlaceMaster()
      requires Valid()
      modifies this`master
      ensures Open() && master.a !in freed && (master.a == tmp || fresh(master.a))
      ensures LifeOf() == Headed(old(LifeOf()), masterFieldCount)
    {
      master := At(tmp, 0);
      if masterFieldCount > TMP_SIZE {
        var heap := new Lval[masterFieldCount](_ => Lval(0, 0, None, 0, 0));
        master := At(heap, 0);
      }
    }

    /** The header of a block. */
    method ReadHeader(list: RdbListPack, lval: RdbListValue) returns (ok: bool)
      requires Valid() && list.Valid()
      modifies this, tmp, lval
      ensures Valid()
      ensures var c := Counts(list.Bytes());
        LifeOf() == if c.None? then old(LifeOf()) else Headed(old(LifeOf()), c.value.2)
      ensures ok <==> HeaderOf(list.Bytes()).Some?
      ensures ok ==>
        (Open() && master.a !in freed && HeaderOf(list.Bytes()).value
          == (Header(itemsCount, deletedCount, Masters()), lval.View()))
    {
      hide Take, LpNext, Counts;
      ghost var mem := list.Bytes();
      HeaderParts(mem);
      ok := ReadCounts(list, lval);
      if !ok {
        return;
      }
      PlaceMaster();
      ok := ReadMaster(list, lval);
      if !ok {
        return;
      }
      ok := list.Next(lval); // skip the zero
    }

    /** One next of the loop of read_entry, the n-th one after v; its value goes to slot k of p whether
        it is true or not. */
    method ReadSlot(list: RdbListPack, lval: RdbListValue, p: Ptr, k: nat, b: bool, ghost v: Lval, ghost n: nat)
      returns (b': bool)
      requires list.Valid() && Inside(list.Bytes(), LP_HEADER, v) && LP_HEADER <= lval.entry
      requires p.At? && p.off + k < p.a.Length
      requires b <==> Take(list.Bytes(), v, n).Some?
      requires b ==> Take(list.Bytes(), v, n).value.1 == lval.View()
      modifies lval, p.a
      ensures LP_HEADER <= lval.entry && p.a[..] == old(p.a[..])[p.off + k := lval.View()]
      ensures b' <==> Take(list.Bytes(), v, n + 1).Some?
      ensures b' ==>
        (b && Take(list.Bytes(), v, n + 1).value == (Take(list.Bytes(), v, n).value.0 + [lval.View()], lval.View()))
    {
      hide LpNext, Take, Inside;
      TakeOneMore(list.Bytes(), v, n);
      var more := list.Next(lval);
      b' := b && more;
      p.a[p.off + k] := lval.View();
    }

    /** One turn of the loop: with SAMEFIELDS a value, else a field and a value. */
    method ReadTurn(list: RdbListPack, lval: RdbListValue, same: bool, f: Ptr, g: Ptr, i: nat, b: bool, ghost v: Lval)
      returns (b': bool)
      requires list.Valid() && Inside(list.Bytes(), LP_HEADER, v) && LP_HEADER <= lval.entry
      requires Room(g, i + 1) && Room(f, i + 1) && (!same ==> Apart(f, i + 1, g, i + 1))
      requires b <==> Take(list.Bytes(), v, Taken(same, i)).Some?
      requires b ==> Take(list.Bytes(), v, Taken(same, i)).value.1 == lval.View()
      requires b ==> Filled(same, Take(list.Bytes(), v, Taken(same, i)).value.0, Slots(f, i), Slots(g, i))
      modifies lval, g.a, if same then {} else {f.a}
      ensures LP_HEADER <= lval.entry
      ensures g.a != f.a ==> g.a[..] == old(g.a[..])[g.off + i := g.a[g.off + i]]
      ensures g.a != f.a && !same ==> f.a[..] == old(f.a[..])[f.off + i := f.a[f.off + i]]
      ensures g.a == f.a && !same ==>
        g.a[..] == old(g.a[..])[f.off + i := g.a[f.off + i]][g.off + i := g.a[g.off + i]]
      ensures g.a == f.a && same ==> g.a[..] == old(g.a[..])[g.off + i := g.a[g.off + i]]
      ensures b' <==> Take(list.Bytes(), v, Taken(same, i + 1)).Some?
      ensures b' ==> Take(list.Bytes(), v, Taken(same, i + 1)).value.1 == lval.View()
      ensures b' ==> Filled(same, Take(list.Bytes(), v, Taken(same, i + 1)).value.0, Slots(f, i + 1), Slots(g, i + 1))
    {
      hide LpNext, Take, Inside, Evens, Odds;
      ghost var fs, gs := Slots(f, i), Slots(g, i);
      if !same {
        ghost var t := Take(list.Bytes(), v, 2 * i);
        b' := ReadSlot(list, lval, f, i, b, v, 2 * i);
        ghost var x := lval.View();
        b' := ReadSlot(list, lval, g, i, b', v, 2 * i + 1);
        if b' {
          EvensMore(t.value.0, x, lval.View());
        }
        assert Slots(f, i + 1) == fs + [x];
      } else {
        b' := ReadSlot(list, lval, g, i, b, v, i);
      }
      assert Slots(g, i + 1) == gs + [lval.View()];
    }

    /** The loop of read_entry. It goes on after a failure. Slots apart from those that are filled are
        not touched. */
    method ReadSlots(list: RdbListPack, lval: RdbListValue, same: bool, f: Ptr, g: Ptr, n: nat,
                     ghost m: Ptr, ghost mn: nat)
      returns (b: bool)
      requires list.Valid() && Inside(list.Bytes(), LP_HEADER, lval.View()) && LP_HEADER <= lval.entry
      requires Room(g, n) && Room(f, n) && (!same ==> Apart(f, n, g, n))
      requires Room(m, mn) && Apart(m, mn, g, n) && (!same ==> Apart(m, mn, f, n))
      modifies lval, g.a, if same then {} else {f.a}
      ensures LP_HEADER <= lval.entry && Slots(m, mn) == old(Slots(m, mn))
      ensures b <==> Take(list.Bytes(), old(lval.View()), Taken(same, n)).Some?
      ensures b ==> Take(list.Bytes(), old(lval.View()), Taken(same, n)).value.1 == lval.View()
      ensures b ==> Filled(same, Take(list.Bytes(), old(lval.View()), Taken(same, n)).value.0, Slots(f, n), Slots(g, n))
    {
      hide LpNext, Take, Inside, Filled, Taken;
      ghost var mem, v := list.Bytes(), lval.View();
      TakeStart(mem, v);
      FilledNone(same);
      b := true;
      var i := 0;
      while i < n
        invariant 0 <= i <= n && LP_HEADER <= lval.entry && Slots(m, mn) == old(Slots(m, mn))
        invariant b <==> Take(mem, v, Taken(same, i)).Some?
        invariant b ==> Take(mem, v, Taken(same, i)).value.1 == lval.View()
        invariant b ==> Filled(same, Take(mem, v, Taken(same, i)).value.0, Slots(f, i), Slots(g, i))
      {
        b := ReadTurn(list, lval, same, f, g, i, b, v);
        i := i + 1;
      }
    }

    /** Flags and the difference to the id of the block. */
    method ReadHead(list: RdbListPack, lval: RdbListValue) returns (ok: bool)
      requires list.Valid() && Inside(list.Bytes(), LP_HEADER, lval.View())
      modifies this`flags, this`diffMs, this`diffSer, lval
      ensures LP_HEADER <= lval.entry
      ensures ok <==> HeadOf(list.Bytes(), old(lval.View())).Some?
      ensures ok ==> HeadOf(list.Bytes(), old(lval.View())).value == (flags, diffMs, diffSer, lval.View())
    {
      hide LpNext, Unsigned;
      ghost var mem, v := list.Bytes(), lval.View();
      TakeOneMore(mem, v, 0);
      TakeOneMore(mem, v, 1);
      TakeOneMore(mem, v, 2);
      var a := NextIval(list, lval);
      flags := Unsigned(lval.ival, 4);
      var b := NextIval(list, lval);
      diffMs := Unsigned(lval.ival, 8);
      var c := NextIval(list, lval);
      diffSer := Unsigned(lval.ival, 8);
      ok := a && b && c;
    }

    /** The field count, or the one of the master fields. */
    method ReadCount(list: RdbListPack, lval: RdbListValue, same: bool) returns (ok: bool)
      requires list.Valid() && Inside(list.Bytes(), LP_HEADER, lval.View())
      modifies this`entryFieldCount, lval
      ensures LP_HEADER <= lval.entry
      ensures ok <==> CountOf(list.Bytes(), old(lval.View()), same, masterFieldCount).Some?
      ensures ok ==>
        CountOf(list.Bytes(), old(lval.View()), same, masterFieldCount).value == (entryFieldCount, lval.View())
      ensures same ==> ok && entryFieldCount == masterFieldCount
    {
      hide LpNext, Unsigned;
      if !same {
        ok := NextIval(list, lval);
        entryFieldCount := Unsigned(lval.ival, 8);
      } else {
        entryFieldCount := masterFieldCount;
        ok := true;
      }
    }

    /** Whatever the fields and values were, what is not in the arena is given back. */
    method ReleaseBoth()
      requires Valid()
      modifies this`freed, this`fault, this`fields, this`values
      ensures Valid() && fields == values == Null && old(freed) <= freed
      ensures LifeOf() == Turned(old(LifeOf()), masterFieldCount, Bare)
    {
      Release(fields);
      Release(values);
      fields, values := Null, Null;
    }

    /** The fields are those of the master, or they go behind it in the arena, or to memory of their
        own; so do the values, behind the fields. */
    method Place(same: bool)
      requires Open() && fields == values == Null && (same ==> entryFieldCount == masterFieldCount)
      modifies this`fields, this`values
      ensures Valid() && Placed(same) && (same ==> fields == master)
      ensures !same ==> fields.a == tmp || fresh(fields.a)
      ensures values.a == tmp || fresh(values.a)
      ensures LifeOf() == Turned(old(LifeOf()), masterFieldCount, if same then Same(false) else Own(entryFieldCount))
    {
      var sz, fld := TMP_SIZE, At(tmp, 0);
      if master == At(tmp, 0) {
        sz, fld := TMP_SIZE - masterFieldCount, At(tmp, masterFieldCount);
      }
      if same {
        fields := master;
      } else if entryFieldCount <= sz {
        fields := fld;
        sz, fld := sz - entryFieldCount, At(tmp, fld.off + entryFieldCount);
      }
      if entryFieldCount <= sz {
        values := fld;
      }
      if fields == Null {
        var heap := new Lval[entryFieldCount](_ => Lval(0, 0, None, 0, 0));
        fields := At(heap, 0);
      }
      if values == Null {
        var heap := new Lval[entryFieldCount](_ => Lval(0, 0, None, 0, 0));
        values := At(heap, 0);
      }
    }

    /** The slots of an entry overlap neither each other nor those of the master fields, except that
        with SAMEFIELDS the fields are the master fields. */
    ghost predicate Placed(same: bool)
      reads this
    {
      Room(fields, entryFieldCount) && Room(values, entryFieldCount)
      && Apart(master, masterFieldCount, values, entryFieldCount)
      && Apart(fields, entryFieldCount, values, entryFieldCount)
      && (if same then fields == master else Apart(master, masterFieldCount, fields, entryFieldCount))
    }

    /** The entry that was read; fields that were given back say nothing. */
    ghost predicate Shows(rec: Record)
      reads this, if fields.At? then {fields.a} else {}, if values.At? then {values.a} else {}
      requires Room(fields, entryFieldCount) && Room(values, entryFieldCount)
    {
      (rec.flags, rec.ms, rec.ser) == (flags, diffMs, diffSer) && rec.values == Slots(values, entryFieldCount)
      && |rec.fields| == entryFieldCount && (fields.a !in freed ==> rec.fields == Slots(fields, entryFieldCount))
    }

    /** An entry is read as module Stream says, and the memory is used as module StreamLife says; ms are the
        master fields, which are found as they were unless they were given back. */
    method ReadEntry(list: RdbListPack, lval: RdbListValue, ghost ms: seq<Lval>) returns (ok: bool)
      requires Open() && list.Valid() && Inside(list.Bytes(), LP_HEADER, lval.View())
      requires |ms| == masterFieldCount && (master.a !in freed ==> Masters() == ms)
      modifies this, tmp, lval
      ensures Open() && (master, masterFieldCount) == old((master, masterFieldCount))
      ensures master.a !in freed ==> Masters() == ms
      ensures (itemsCount, deletedCount) == old((itemsCount, deletedCount))
      ensures ok <==> RecordOf(list.Bytes(), old(lval.View()), ms).Some?
      ensures ok ==>
        (Placed(SameFields(flags)) && RecordOf(list.Bytes(), old(lval.View()), ms).value.1 == lval.View()
         && Shows(RecordOf(list.Bytes(), old(lval.View()), ms).value.0))
      ensures var k := KindAt(list.Bytes(), old(lval.View()), |ms|, false);
        LifeOf() == if k.None? then old(LifeOf()) else Turned(old(LifeOf()), |ms|, k.value)
    {
      hide LpNext, Take, Unsigned, SameFields, Inside, HeadOf, CountOf, RecordOf, RestOf, Turned, RdbStreamEntry.Shows,
        RdbStreamEntry.Placed, RdbStreamEntry.LifeOf, RdbStreamEntry.Valid, RdbStreamEntry.Masters;
      RecordParts(list.Bytes(), lval.View(), ms);
      ok := ReadHead(list, lval);
      if ok {
        ok := ReadBody(list, lval, SameFields(flags), ms);
      }
    }

    /** What follows the head of an entry. */
    method ReadBody(list: RdbListPack, lval: RdbListValue, same: bool, ghost ms: seq<Lval>) returns (ok: bool)
      requires Open() && list.Valid() && Inside(list.Bytes(), LP_HEADER, lval.View())
      requires |ms| == masterFieldCount && (master.a !in freed ==> Masters() == ms)
      modifies this`entryFieldCount, this`fields, this`values, this`freed, this`fault, tmp, lval
      ensures Open() && (master.a !in freed ==> Masters() == ms)
      ensures match CountOf(list.Bytes(), old(lval.View()), same, |ms|)
        case None =>
          !ok && !same && LifeOf() == Turned(old(LifeOf()), |ms|, Bare)
        case Some(c) =>
          var r := RestOf(list.Bytes(), c.1, same, c.0, Record(flags, diffMs, diffSer, ms, []));
          (ok <==> r.Some?) && (ok ==> Placed(same) && r.value.1 == lval.View() && Shows(r.value.0))
          && LifeOf() == Turned(old(LifeOf()), |ms|, if same then Same(false) else Own(c.0))
    {
      hide LpNext, Take, Unsigned, Inside, CountOf, RestOf, RdbStreamEntry.Shows, RdbStreamEntry.Placed,
        RdbStreamEntry.LifeOf, RdbStreamEntry.Valid, RdbStreamEntry.Masters;
      ReleaseBoth();
      ok := ReadCount(list, lval, same);
      if ok {
        ok := ReadRest(list, lval, same, ms);
      }
    }

    /** The fields and values, and the back count. */
    method ReadRest(list: RdbListPack, lval: RdbListValue, same: bool, ghost ms: seq<Lval>) returns (ok: bool)
      requires Open() && list.Valid() && Inside(list.Bytes(), LP_HEADER, lval.View()) && LP_HEADER <= lval.entry
      requires fields == values == Null && (same ==> entryFieldCount == masterFieldCount)
      requires |ms| == masterFieldCount && (master.a !in freed ==> Masters() == ms)
      modifies this`fields, this`values, tmp, lval
      ensures Open() && (master.a !in freed ==> Masters() == ms)
      ensures var r := RestOf(list.Bytes(), old(lval.View()), same, entryFieldCount,
                              Record(flags, diffMs, diffSer, ms, []));
        (ok <==> r.Some?) && (ok ==> Placed(same) && r.value.1 == lval.View() && Shows(r.value.0))
      ensures LifeOf() == Turned(old(LifeOf()), masterFieldCount, if same then Same(false) else Own(entryFieldCount))
    {
      hide LpNext, Take, Unsigned, Inside, Evens, Odds, Turned, RdbStreamEntry.LifeOf, RdbStreamEntry.ValuesOwn;
      Place(same);
      ok := ReadSlots(list, lval, same, fields, values, entryFieldCount, master, masterFieldCount);
      var cnt := if same then 3 + entryFieldCount else 4 + 2 * entryFieldCount;
      var more := list.Next(lval);
      ok := ok && more && Unsigned(lval.ival, 8) == cnt;
    }
  }

  lemma RecordParts(mem: seq<Byte>, v: Lval, master: seq<Lval>)
    requires Inside(mem, LP_HEADER, v)
    ensures RecordOf(mem, v, master) ==
      match HeadOf(mem, v)
      case None => None
      case Some(h) =>
        var same := SameFields(h.0);
        match CountOf(mem, h.3, same, |master|)
        case None => None
        case Some(c) => RestOf(mem, c.1, same, c.0, Record(h.0, h.1, h.2, master, []))
  {
    hide LpNext, Unsigned, Take, SameFields, BackOf;
    if HeadOf(mem, v).Some? {
      var h := HeadOf(mem, v).value;
      TakeStart(mem, h.3);
      TakeOneMore(mem, h.3, 0);
    }
  }

  /** The rest of read_entry; rec has the master fields. */
  ghost function RestOf(mem: seq<Byte>, v: Lval, same: bool, n: nat, rec: Record): (r: Option<(Record, Lval)>)
    requires Inside(mem, LP_HEADER, v)
    ensures r.Some? ==> Inside(mem, LP_HEADER, r.value.1)
  {
    match Take(mem, v, Taken(same, n))
    case None => None
    case Some(t) =>
      if same then BackOf(mem, t.1, 3 + n, rec.(values := t.0))
      else BackOf(mem, t.1, 4 + 2 * n, rec.(fields := Evens(t.0), values := Odds(t.0)))
  }

  /** The elements taken in i turns. */
  ghost function Taken(same: bool, i: nat): nat {
    if same then i else 2 * i
  }

  /** The elements taken went to the values, or to fields and values alternately. */
  ghost predicate Filled(same: bool, taken: seq<Lval>, fields: seq<Lval>, values: seq<Lval>) {
    if same then values == taken else fields == Evens(taken) && values == Odds(taken)
  }

  lemma FilledNone(same: bool)
    ensures Taken(same, 0) == 0 && Filled(same, [], [], [])
  {}

  lemma HeaderParts(mem: seq<Byte>)
    requires |mem| >= LP_HEADER
    ensures HeaderOf(mem) ==
      match Counts(mem)
      case None => None
      case Some(c) =>
        match Take(mem, c.3, c.2)
        case None => None
        case Some(t) =>
          var r := LpNext(mem, t.1);
          if r.0 then Some((Header(c.0, c.1, t.0), r.1)) else None
  {
    hide LpNext, Unsigned, Take;
    if Counts(mem).Some? {
      var c := Counts(mem).value;
      if Take(mem, c.3, c.2).Some? {
        var t := Take(mem, c.3, c.2).value;
        TakeStart(mem, t.1);
        TakeOneMore(mem, t.1, 0);
      }
    }
  }

  lemma TakeStart(mem: seq<Byte>, v: Lval)
    requires Inside(mem, LP_HEADER, v)
    ensures Take(mem, v, 0) == Some(([], v))
  {}

  lemma TakeInside(mem: seq<Byte>, v: Lval, n: nat)
    requires Inside(mem, LP_HEADER, v) && Take(mem, v, n).Some?
    ensures LP_HEADER <= Take(mem, v, n).value.1.entry
  {
    hide Take, LpNext;
  }

  /** If fewer elements cannot be taken, more cannot either. */
  lemma {:induction false} TakeAll(mem: seq<Byte>, v: Lval, m: nat, n: nat)
    requires Inside(mem, LP_HEADER, v) && m <= n && Take(mem, v, m).None?
    ensures Take(mem, v, n).None?
    decreases n
  {
    hide LpNext, Inside;
    if m < n {
      TakeAll(mem, v, m, n - 1);
    }
  }
}
