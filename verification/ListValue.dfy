/** RdbListValue, the cursor and result of ziplist and listpack traversal
    (include/rdbparser/rdb_decode.h:206-222). */
module ListValue {
  import opened Bytes

  /** What a traversal hands to the outputs: the bytes of a string, or an immediate integer. */
  datatype Elem = Str(s: seq<Byte>) | Int(i: int)

  /** entry and data are offsets from the head of the list; data is None for an immediate integer. */
  datatype Lval = Lval(entry: nat, entryLen: nat, data: Option<nat>, dataLen: nat, ival: int)

  /** Where the entry ends and the next one starts. */
  function EndOf(v: Lval): nat { v.entry + v.entryLen }

  /** A position from which a list of |mem| bytes with the given header size can be traversed on. */
  predicate Inside(mem: seq<Byte>, header: nat, v: Lval) {
    header <= v.entry && EndOf(v) <= |mem|
    && (v.data.Some? ==> v.entry <= v.data.value && v.data.value + v.dataLen <= EndOf(v))
  }

  predicate AllInside(mem: seq<Byte>, header: nat, vs: seq<Lval>) {
    forall i | 0 <= i < |vs| :: Inside(mem, header, vs[i])
  }

  /** decode_lval (src/rdb_decode.cpp:765-772). */
  function ElemAt(mem: seq<Byte>, v: Lval): Elem
    requires v.data.Some? ==> v.data.value + v.dataLen <= |mem|
  {
    if v.data.Some? then Str(mem[v.data.value..v.data.value + v.dataLen]) else Int(v.ival)
  }

  function Strings(xs: seq<seq<Byte>>): (r: seq<Elem>)
    ensures |r| == |xs| && forall i | 0 <= i < |xs| :: r[i] == Str(xs[i])
  {
    seq(|xs|, i requires 0 <= i < |xs| => Str(xs[i]))
  }

  function Reversed(s: seq<nat>): seq<nat> {
    if s == [] then [] else Reversed(s[1..]) + [s[0]]
  }

  lemma ReversedCons(x: nat, s: seq<nat>)
    ensures Reversed([x] + s) == Reversed(s) + [x]
  {
    assert ([x] + s)[1..] == s;
  }

  lemma ReversedNone()
    ensures Reversed([]) == []
  {}

  lemma {:induction false} ReversedSnoc(s: seq<nat>, x: nat)
    ensures Reversed(s + [x]) == [x] + Reversed(s)
    decreases s
  {
    if s == [] {
      assert [x][1..] == [];
    } else {
      assert (s + [x])[1..] == s[1..] + [x];
      ReversedSnoc(s[1..], x);
    }
  }

  class RdbListValue {
    var entry: nat
    var entryLen: nat
    var data: Option<nat>
    var dataLen: nat
    var ival: int

    function View(): Lval
      reads this
    {
      Lval(entry, entryLen, data, dataLen, ival)
    }

    constructor () {
      entry, entryLen, data, dataLen, ival := 0, 0, None, 0, 0;
    }
  }
}
