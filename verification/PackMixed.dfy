/** Listpacks of strings and integers as Redis writes them (rdb.adoc:542-641): what the reader makes of every
    documented form (src/rdb_decode.cpp:202-235, include/rdbparser/rdb_decode.h:367-515). */
module PackMixed {
  import opened Bytes
  import opened ListValue
  import opened ListPack
  import opened ListPackRead

  // ----- the layout

  /** A string; an integer in 7 bits, in 13 bits, or behind a code byte in size bytes. */
  datatype Item = Text(s: seq<Byte>) | Seven(x: int) | Thirteen(x: int) | Wide(x: int, size: nat)

  predicate ItemFits(i: Item) {
    match i
    case Text(s) => |s| < TWO32 - 5
    case Seven(x) => 0 <= x <= 127
    case Thirteen(x) => -4096 <= x <= 4095
    case Wide(x, size) => size in {2, 3, 4, 8} && 0 - Half(size) <= x < Half(size)
  }

  function CodeOf(size: nat): Byte {
    if size == 2 then 0xf1 else if size == 3 then 0xf2 else if size == 4 then 0xf3 else 0xf4
  }

  /** The size of a string, in 6, 12 or 32 bits. The last one is little endian: that is how it is read. */
  function TextHead(n: nat): seq<Byte>
    requires n < TWO32
  {
    if n < 64 then [0x80 + n]
    else if n < 4096 then [0xe0 + n / 256, n % 256]
    else [0xf0] + Le(n, 4)
  }

  /** Two's complement; 13 bits with the high ones first, whole bytes with the low ones first. */
  function ItemBytes(i: Item): (r: seq<Byte>)
    requires ItemFits(i)
  {
    match i
    case Text(s) => TextHead(|s|) + s
    case Seven(x) => [x]
    case Thirteen(x) =>
      var v := if x < 0 then x + 8192 else x;
      [0xc0 + v / 256, v % 256]
    case Wide(x, size) => [CodeOf(size)] + Complement(x, size)
  }

  /** What is read: of the forms only the negative 13-bit integers are taken for something else. */
  function ItemElem(i: Item): Elem {
    match i
    case Text(s) => Str(s)
    case Seven(x) => Int(x)
    case Thirteen(x) => Int(if x >= 0 then x else 2 * (x % 256) - x - 0x1_0000_0000)
    case Wide(x, _) => Int(x)
  }

  function ItemElems(xs: seq<Item>): seq<Elem> {
    if xs == [] then [] else [ItemElem(xs[0])] + ItemElems(xs[1..])
  }

  predicate AllItemsFit(xs: seq<Item>) {
    xs != [] ==> ItemFits(xs[0]) && AllItemsFit(xs[1..])
  }

  /** Every entry ends with its own size, in groups of seven bits. */
  function MixedEntries(xs: seq<Item>): seq<Byte>
    requires AllItemsFit(xs)
  {
    if xs == [] then []
    else ItemBytes(xs[0]) + BackBytes(|ItemBytes(xs[0])|) + MixedEntries(xs[1..])
  }

  function MixedStarts(at: nat, xs: seq<Item>): seq<nat>
    requires AllItemsFit(xs)
    decreases xs
  {
    if xs == [] then []
    else [at] + MixedStarts(at + |ItemBytes(xs[0])| + |BackBytes(|ItemBytes(xs[0])|)|, xs[1..])
  }

  predicate MixedFits(xs: seq<Item>) {
    AllItemsFit(xs) && 7 + |MixedEntries(xs)| < TWO32
  }

  /** Size, count, the entries, and an end mark. */
  function MixedBytes(xs: seq<Item>): seq<Byte>
    requires MixedFits(xs)
  {
    Le(7 + |MixedEntries(xs)|, 4) + Le(if |xs| <= 0xffff then |xs| else 0xffff, 2) + (MixedEntries(xs) + [0xff])
  }

  // ----- one entry

  lemma WideIs(i: Item, rest: seq<Byte>)
    requires ItemFits(i) && i.Wide?
    ensures var p := ItemBytes(i) + rest; var n := LpCode(p[0]);
      n in {Lp16Int, Lp24Int, Lp32Int, Lp64Int} && LpSize(n) == |ItemBytes(i)| && LpVal(n, p) == i.x
  {
    ComplementIs(i.x, i.size);
    hide Complement, Le, FromLe, Signed, Unsigned, Pow256, Half;
    WideRead(i.x, i.size, CodeOf(i.size), rest);
  }

  lemma ThirteenIs(i: Item, rest: seq<Byte>)
    requires ItemFits(i) && i.Thirteen?
    ensures var p := ItemBytes(i) + rest;
      LpCode(p[0]) == Lp13Int && |ItemBytes(i)| == 2 && Int(LpVal(Lp13Int, p)) == ItemElem(i)
  {
    var v := if i.x < 0 then i.x + 8192 else i.x;
    var p := ItemBytes(i) + rest;
    assert p[0] == 0xc0 + v / 256 && p[1] == v % 256;
    assert 256 * (v / 256) + v % 256 == v;
    assert (i.x + 8192) % 256 == i.x % 256 by {
      UniqueMod(i.x + 8192, 256, i.x / 256 + 32, i.x % 256);
    }
    ThirteenBits(p);
    hide LpVal;
  }

  /** The code of an integer and its value. */
  lemma NumberRead(i: Item, rest: seq<Byte>)
    requires ItemFits(i) && !i.Text?
    ensures var p := ItemBytes(i) + rest; var n := LpCode(p[0]);
      LpIsImmed(n) && n != LpEnd && LpSize(n) == |ItemBytes(i)| && Int(LpVal(n, p)) == ItemElem(i)
  {
    if i.Wide? {
      WideIs(i, rest);
    } else if i.Thirteen? {
      ThirteenIs(i, rest);
    } else {
      assert (ItemBytes(i) + rest)[0] == i.x;
    }
  }

  lemma HeadRead(n: nat, rest: seq<Byte>)
    requires n < TWO32
    ensures TextHead(n) != []
    ensures var p := TextHead(n) + rest; var e := LpCode(p[0]);
      !LpIsImmed(e) && e != LpEnd && LpSize(e) == |TextHead(n)| && LpVal(e, p) == n
  {
    var p := TextHead(n) + rest;
    if n >= 4096 {
      assert p[1..5] == Le(n, 4);
      Powers();
      LeRoundTrip(n, 4);
    }
  }

  lemma BackSize(n: nat)
    ensures |BackBytes(n)| == LpBackSize(n)
  {}

  lemma NextText(mem: seq<Byte>, v: Lval, s: seq<Byte>, rest: seq<Byte>)
    requires Inside(mem, LP_HEADER, v) && |s| < TWO32
    requires var b := TextHead(|s|) + s; mem[EndOf(v)..] == b + BackBytes(|b|) + rest
    ensures var b := TextHead(|s|) + s; var r := LpNext(mem, v);
      r.0 && ElemAt(mem, r.1) == Str(s) && EndOf(r.1) == EndOf(v) + |b| + |BackBytes(|b|)| <= |mem|
      && mem[EndOf(v) + |b| + |BackBytes(|b|)|..] == rest
  {
    hide TextHead, BackBytes, LpNext, LpVal, LpCode, LpSize, LpIsImmed, LpBackSize;
    var at, h := EndOf(v), TextHead(|s|);
    var back := BackBytes(|h + s|);
    HeadRead(|s|, s + (back + rest));
    BackSize(|h + s|);
    FourSlices(mem, at, h, s, back, rest);
    assert (h + (s + (back + rest)))[0] == h[0];
    NextIs(mem, v, LpCode(h[0]), |s|);
  }

  lemma NextNumber(mem: seq<Byte>, v: Lval, i: Item, rest: seq<Byte>)
    requires Inside(mem, LP_HEADER, v) && ItemFits(i) && !i.Text?
    requires var b := ItemBytes(i); mem[EndOf(v)..] == b + BackBytes(|b|) + rest
    ensures var b := ItemBytes(i); var r := LpNext(mem, v);
      r.0 && ElemAt(mem, r.1) == ItemElem(i) && EndOf(r.1) == EndOf(v) + |b| + |BackBytes(|b|)| <= |mem|
      && mem[EndOf(v) + |b| + |BackBytes(|b|)|..] == rest
  {
    hide ItemBytes, ItemElem, BackBytes, LpNext, LpVal, LpCode, LpSize, LpIsImmed, LpBackSize;
    var at, b := EndOf(v), ItemBytes(i);
    var back := BackBytes(|b|);
    BackSize(|b|);
    NumberRead(i, back + rest);
    Regroup(b, back, rest);
    TwoSlices(mem, at, b + back, rest);
    TwoSlices(mem, at, b, back + rest);
    NonemptyItem(i);
    NextIs(mem, v, LpCode((b + (back + rest))[0]), LpVal(LpCode((b + (back + rest))[0]), b + (back + rest)));
  }

  lemma NonemptyItem(i: Item)
    requires ItemFits(i)
    ensures ItemBytes(i) != []
    ensures i.Text? ==> |i.s| < TWO32 && ItemBytes(i) == TextHead(|i.s|) + i.s && ItemElem(i) == Str(i.s)
  {}

  /** next on any documented entry. */
  lemma NextItem(mem: seq<Byte>, v: Lval, i: Item, rest: seq<Byte>)
    requires Inside(mem, LP_HEADER, v) && ItemFits(i)
    requires var b := ItemBytes(i); mem[EndOf(v)..] == b + BackBytes(|b|) + rest
    ensures LP_HEADER <= v.entry && Inside(mem, LP_HEADER, LpNext(mem, v).1)
    ensures var b := ItemBytes(i); var r := LpNext(mem, v);
      r.0 && ElemAt(mem, r.1) == ItemElem(i) && EndOf(r.1) == EndOf(v) + |b| + |BackBytes(|b|)| <= |mem|
      && mem[EndOf(v) + |b| + |BackBytes(|b|)|..] == rest
  {
    hide ItemBytes, ItemElem, ItemFits, BackBytes, LpNext, ElemAt, TextHead;
    NonemptyItem(i);
    if i.Text? {
      NextText(mem, v, i.s, rest);
    } else {
      NextNumber(mem, v, i, rest);
    }
  }

  // ----- the whole list

  lemma MixedCons(at: nat, xs: seq<Item>)
    requires AllItemsFit(xs) && xs != []
    ensures ItemFits(xs[0]) && AllItemsFit(xs[1..])
    ensures var b := ItemBytes(xs[0]);
      MixedEntries(xs) == b + BackBytes(|b|) + MixedEntries(xs[1..])
      && MixedStarts(at, xs) == [at] + MixedStarts(at + |b| + |BackBytes(|b|)|, xs[1..])
      && ItemElems(xs) == [ItemElem(xs[0])] + ItemElems(xs[1..])
  {
    hide ItemBytes, ItemFits, ItemElem;
  }

  lemma MixedNil(at: nat, xs: seq<Item>)
    requires AllItemsFit(xs) && xs == []
    ensures MixedEntries(xs) + [0xff] == [0xff] && MixedStarts(at, xs) == [] && ItemElems(xs) == []
  {}

  lemma {:induction false} ReadMixed(mem: seq<Byte>, v: Lval, xs: seq<Item>)
    requires Inside(mem, LP_HEADER, v) && AllItemsFit(xs)
    requires mem[EndOf(v)..] == MixedEntries(xs) + [0xff]
    ensures LpElems(mem, v) == ItemElems(xs) && ForwardStarts(mem, v) == MixedStarts(EndOf(v), xs)
    decreases xs
  {
    hide *;
    if xs == [] {
      MixedNil(EndOf(v), xs);
      ReadEnd(mem, v);
    } else {
      MixedCons(EndOf(v), xs);
      var b, rest := ItemBytes(xs[0]), MixedEntries(xs[1..]);
      Regroup(b + BackBytes(|b|), rest, [0xff]);
      NextItem(mem, v, xs[0], rest + [0xff]);
      ReadOne(mem, v);
      ReadMixed(mem, LpNext(mem, v).1, xs[1..]);
    }
  }

  /** Strings and integers in any order and in any documented form: first and next visit every entry where it was
      put and return what was put there, a negative 13-bit integer excepted; then false. */
  lemma MixedRead(xs: seq<Item>)
    requires MixedFits(xs)
    ensures var b := MixedBytes(xs);
      LpInit(b) == Opened(Pack(b, if |xs| <= 0xffff then |xs| else 0xffff)) && Inside(b, LP_HEADER, FIRST)
      && LpElems(b, FIRST) == ItemElems(xs) && ForwardStarts(b, FIRST) == MixedStarts(6, xs)
    ensures IsPack(MixedBytes(xs), ItemElems(xs))
  {
    hide AllItemsFit, MixedEntries, MixedStarts, ItemElems, LpElems, ForwardStarts;
    var total, n := 7 + |MixedEntries(xs)|, if |xs| <= 0xffff then |xs| else 0xffff;
    HeaderSlices(total, n, MixedEntries(xs) + [0xff]);
    hide Le, LpInit;
    ReadMixed(MixedBytes(xs), FIRST, xs);
  }

  // ----- lists put together

  function EntryOf(i: Item): seq<Byte>
    requires ItemFits(i)
  {
    ItemBytes(i) + BackBytes(|ItemBytes(i)|)
  }

  lemma {:induction false} MixedConcat(xs: seq<Item>, ys: seq<Item>)
    requires AllItemsFit(xs) && AllItemsFit(ys)
    ensures AllItemsFit(xs + ys) && MixedEntries(xs + ys) == MixedEntries(xs) + MixedEntries(ys)
    ensures ItemElems(xs + ys) == ItemElems(xs) + ItemElems(ys)
    decreases xs
  {
    hide ItemFits, EntryOf, ItemElem, MixedEntries, ItemElems, MixedStarts;
    EntriesParts(xs);
    EntriesParts(xs + ys);
    if xs == [] {
      assert xs + ys == ys;
      Regroup(MixedEntries(ys), [], []);
      Regroup(ItemElems(ys), [], []);
    } else {
      assert (xs + ys)[1..] == xs[1..] + ys;
      MixedConcat(xs[1..], ys);
      Regroup(EntryOf(xs[0]), MixedEntries(xs[1..]), MixedEntries(ys));
      Regroup([ItemElem(xs[0])], ItemElems(xs[1..]), ItemElems(ys));
    }
  }

  lemma EntriesParts(xs: seq<Item>)
    requires xs != [] ==> ItemFits(xs[0])
    ensures xs == [] ==> AllItemsFit(xs) && MixedEntries(xs) == [] && ItemElems(xs) == []
    ensures xs != [] && AllItemsFit(xs[1..]) ==>
      AllItemsFit(xs) && MixedEntries(xs) == EntryOf(xs[0]) + MixedEntries(xs[1..])
    ensures xs != [] ==> ItemElems(xs) == [ItemElem(xs[0])] + ItemElems(xs[1..])
  {
    hide ItemFits, ItemBytes, BackBytes, ItemElem;
  }

  lemma OneItem(a: Item)
    requires ItemFits(a)
    ensures AllItemsFit([a]) && MixedEntries([a]) == EntryOf(a) && ItemElems([a]) == [ItemElem(a)]
  {
    hide ItemFits, ItemBytes, BackBytes, ItemElem;
    assert [a][1..] == [];
  }

  lemma ThreeItems(a: Item, b: Item, c: Item)
    requires ItemFits(a) && ItemFits(b) && ItemFits(c)
    ensures AllItemsFit([a, b, c]) && MixedEntries([a, b, c]) == EntryOf(a) + EntryOf(b) + EntryOf(c)
    ensures ItemElems([a, b, c]) == [ItemElem(a), ItemElem(b), ItemElem(c)]
  {
    hide ItemFits, AllItemsFit, MixedEntries, ItemElems, EntryOf, ItemElem;
    OneItem(a);
    OneItem(b);
    OneItem(c);
    MixedConcat([a], [b]);
    MixedConcat([a] + [b], [c]);
    assert [a] + [b] + [c] == [a, b, c];
  }

  lemma SevenEntry(x: int)
    requires 0 <= x <= 127
    ensures ItemFits(Seven(x)) && EntryOf(Seven(x)) == [x, 1] && ItemElem(Seven(x)) == Int(x)
  {}

  lemma TextEntry(s: seq<Byte>)
    requires |s| < 64
    ensures ItemFits(Text(s)) && EntryOf(Text(s)) == [0x80 + |s|] + s + [|s| + 1] && ItemElem(Text(s)) == Str(s)
  {}

  lemma ThreeSevens(x: int, y: int, z: int)
    requires 0 <= x <= 127 && 0 <= y <= 127 && 0 <= z <= 127
    ensures AllItemsFit([Seven(x), Seven(y), Seven(z)])
    ensures ItemElems([Seven(x), Seven(y), Seven(z)]) == [Int(x), Int(y), Int(z)]
    ensures MixedEntries([Seven(x), Seven(y), Seven(z)]) == [x, 1, y, 1, z, 1]
  {
    SevenEntry(x);
    SevenEntry(y);
    SevenEntry(z);
    hide *;
    ThreeItems(Seven(x), Seven(y), Seven(z));
  }
}
