/** The input cursor: RdbBufptr (include/rdbparser/rdb_decode.h:69-103, src/rdb_decode.cpp:14-84), and
    the two ways a length header is used on it, RdbLength::decode and RdbLength::consume. */
module Bufptr {
  import opened Bytes
  import opened LengthCodec

  datatype Status =
    | Ok | ErrOutput | ErrTrunc | ErrVersion | ErrCrc | ErrType | ErrHdr | ErrLzf | ErrNotsup | EofMark
    | OutOfBounds // not in the source: memory is touched that the decoder was not given
    | Unmodelled // not in the source: a record type that this model leaves out

  /** lzf_decompress: foreign code that fails or fills a buffer of the requested length. */
  type Inflater = f: (seq<Byte>, nat) -> Option<seq<Byte>>
    | forall z, n :: f(z, n).Some? ==> |f(z, n).value| == n
    witness (z: seq<Byte>, n: nat) => None

  /** What is still to be read: the rest of the main buffer, and the rest of the decompressed block
      if the cursor is in one. clean turns false when an LZF header is torn, and when a block is
      decompressed inside another one that still has bytes, and when a block is released that still has
      some: from then on the cursor is off track. */
  datatype Cursor = Cursor(main: seq<Byte>, block: Option<seq<Byte>>, clean: bool) {

    /** The bytes at buf. */
    function Cur(): seq<Byte> {
      if block.Some? then block.value else main
    }

    function WithCur(s: seq<Byte>): Cursor {
      if block.Some? then this.(block := Some(s)) else this.(main := s)
    }

    /** The logical stream: the current buffer, then the saved one. */
    function Remaining(): seq<Byte> {
      if block.Some? then block.value + main else main
    }

    /** The same cursor with more input behind the main buffer. */
    function Extend(t: seq<Byte>): Cursor {
      this.(main := main + t)
    }
  }

  function Start(s: seq<Byte>): Cursor {
    Cursor(s, None, true)
  }

  function Incr(c: Cursor, n: nat): Option<(seq<Byte>, Cursor)> {
    if n > |c.Cur()| then None else Some((c.Cur()[..n], c.WithCur(c.Cur()[n..])))
  }

  /** look pops back to the main buffer when the block is used up. */
  function Pop(c: Cursor): Cursor {
    if c.block == Some([]) && c.main != [] then c.(block := None) else c
  }

  /** free_alloced goes back to the main buffer if the block is used up; otherwise the cursor is left in
      memory that has been released. */
  function Free(c: Cursor): Cursor {
    if c.block == Some([]) then c.(block := None) else c.(clean := c.clean && c.block.None?)
  }

  function Zeros(n: nat): (r: seq<Byte>)
    ensures |r| == n
  {
    seq(n, i => 0)
  }

  /** What look copies: n bytes, padded with zeros. */
  function Padded(s: seq<Byte>, n: nat): (r: seq<Byte>)
    ensures |r| == n
  {
    if |s| >= n then s[..n] else s + Zeros(n - |s|)
  }

  /** Where decode reads from. */
  function At(c: Cursor): Cursor {
    if |c.Cur()| >= MAX_HDRLEN then c else Pop(c)
  }

  /** decode, once the cursor is where it reads from. */
  function DecodeAt(at: Cursor, st: Length): (Status, Length, Cursor) {
    var r := DecodeBuf(st, Padded(at.Cur(), MAX_HDRLEN));
    if r.1 < 0 then (ErrHdr, r.0, at)
    else
      match Incr(at, r.1)
      case None => (ErrTrunc, r.0, at)
      case Some(x) => (Ok, r.0, x.1.(clean := at.clean && !r.0.torn))
  }

  /** RdbLength::decode. */
  function DecodeLen(c: Cursor, st: Length): (Status, Length, Cursor) {
    DecodeAt(At(c), st)
  }

  /** decompress: zlen bytes are consumed even if they do not inflate. */
  function Decompress(c: Cursor, lzf: Inflater, zlen: nat, len: nat): (bool, Cursor) {
    match Incr(c, zlen)
    case None => (false, c)
    case Some(x) =>
      match lzf(x.0, len)
      case None => (false, x.1)
      case Some(block) =>
        (true, Push(x.1, block))
  }

  /** A block in front; the buffer that was current is saved unless it is used up. */
  function Push(c: Cursor, block: seq<Byte>): Cursor {
    Cursor(if c.Cur() != [] then c.Cur() else c.main, Some(block), c.clean && !(c.block.Some? && c.Cur() != []))
  }

  /** RdbLength::consume. */
  function Consume(c: Cursor, lzf: Inflater, l: Length): (Status, seq<Byte>, Cursor) {
    if l.isEnc != 0 then (ErrHdr, [], c)
    else
      var d := if l.isLzf then Decompress(c, lzf, l.zlen, l.len) else (true, c);
      if !d.0 then (ErrLzf, [], d.1)
      else
        match Incr(d.1, l.len)
        case None => (ErrTrunc, [], d.1)
        case Some(x) => (Ok, x.0, x.1)
  }

  // ----- the logical stream is conserved

  lemma IncrConserves(c: Cursor, n: nat)
    requires Incr(c, n).Some?
    ensures Incr(c, n).value.0 + Incr(c, n).value.1.Remaining() == c.Remaining()
    ensures |Incr(c, n).value.0| == n
  {
    var cur := c.Cur();
    assert cur[..n] + cur[n..] == cur;
    if c.block.Some? {
      assert cur[..n] + (cur[n..] + c.main) == cur[..n] + cur[n..] + c.main;
    }
  }

  lemma PopConserves(c: Cursor)
    ensures Pop(c).Remaining() == c.Remaining() && Free(c).Remaining() == c.Remaining()
  {
  }

  /** decompress replaces the first zlen bytes by the inflated ones, and nothing else of the stream
      changes, exactly unless it starts in an unfinished block while the main buffer is saved. */
  lemma DecompressConserves(c: Cursor, lzf: Inflater, zlen: nat, len: nat)
    requires Decompress(c, lzf, zlen, len).0
    ensures zlen <= |c.Remaining()| && lzf(c.Remaining()[..zlen], len).Some?
    ensures Decompress(c, lzf, zlen, len).1.Remaining()
              == lzf(c.Remaining()[..zlen], len).value + c.Remaining()[zlen..]
            <==> !(c.block.Some? && zlen < |c.Cur()| && c.main != [])
  {
    var cur, all := c.Cur(), c.Remaining();
    assert all[..zlen] == cur[..zlen];
    var block := lzf(cur[..zlen], len).value;
    var after := Decompress(c, lzf, zlen, len).1;
    if c.block.Some? {
      assert all[zlen..] == cur[zlen..] + c.main;
      if zlen < |cur| {
        assert after.Remaining() == block + cur[zlen..];
        assert |after.Remaining()| == |block| + |cur| - zlen;
      } else {
        assert cur[zlen..] == [];
      }
    } else if zlen == |cur| {
      assert all[zlen..] == [];
    }
  }

  /** A decoded header takes its bytes off the stream. */
  lemma DecodeLenConserves(c: Cursor, st: Length)
    requires DecodeLen(c, st).0 == Ok
    ensures exists h: seq<Byte> :: 0 < |h| <= MAX_HDRLEN && h + DecodeLen(c, st).2.Remaining() == c.Remaining()
  {
    var at := At(c);
    var r := DecodeBuf(st, Padded(at.Cur(), MAX_HDRLEN));
    IncrConserves(at, r.1);
    PopConserves(c);
    var h := Incr(at, r.1).value.0;
    assert h + DecodeLen(c, st).2.Remaining() == c.Remaining();
  }

  // ----- what stands behind the bytes that are read does not matter

  lemma PadLocal(s: seq<Byte>, t: seq<Byte>, n: nat)
    requires n <= |s| && n <= MAX_HDRLEN
    ensures Padded(s, MAX_HDRLEN)[..n] == Padded(s + t, MAX_HDRLEN)[..n]
  {
    assert Padded(s, MAX_HDRLEN)[..n] == s[..n];
    assert Padded(s + t, MAX_HDRLEN)[..n] == s[..n];
  }

  /** Zero padding never looks like a torn second size, so a torn header lies in the real bytes. */
  lemma TornInside(st: Length, s: seq<Byte>)
    requires !st.torn
    requires var r := DecodeBuf(st, Padded(s, MAX_HDRLEN)); r.1 > 0 && r.0.torn && r.1 <= |s|
    ensures Examined(DecodeBuf(st, Padded(s, MAX_HDRLEN))) <= |s|
  {
    var b := Padded(s, MAX_HDRLEN);
    ExaminedBound(st, b);
    var st1 := st.(isLzf := true);
    var first := DecodeBuf(st1, b[1..]);
    CodeNotTorn(st1, b[1..]);
    var k := first.1 + 1;
    CodeNotTorn(first.0.(zlen := first.0.len), b[k..]);
    assert b[k..][0] == b[k];
    assert k + 1 <= |s|;
  }

  /** Two windows that agree on the examined bytes give the same header. */
  lemma SameHeader(st: Length, s: seq<Byte>, t: seq<Byte>)
    requires !st.torn
    requires var r := DecodeBuf(st, Padded(s, MAX_HDRLEN)); r.1 > 0 && r.1 <= |s|
    ensures DecodeBuf(st, Padded(s + t, MAX_HDRLEN)) == DecodeBuf(st, Padded(s, MAX_HDRLEN))
  {
    var b, c := Padded(s, MAX_HDRLEN), Padded(s + t, MAX_HDRLEN);
    var r := DecodeBuf(st, b);
    ExaminedBound(st, b);
    if r.0.torn {
      TornInside(st, s);
    }
    PadLocal(s, t, Examined(r));
    DecodeLocal(st, b, c);
  }

  lemma SameHeaderBack(st: Length, s: seq<Byte>, t: seq<Byte>)
    requires !st.torn
    requires var r := DecodeBuf(st, Padded(s + t, MAX_HDRLEN)); 0 < r.1 <= |s| && !r.0.torn
    ensures DecodeBuf(st, Padded(s + t, MAX_HDRLEN)) == DecodeBuf(st, Padded(s, MAX_HDRLEN))
  {
    var b, c := Padded(s, MAX_HDRLEN), Padded(s + t, MAX_HDRLEN);
    var r := DecodeBuf(st, c);
    PadLocal(s, t, r.1);
    DecodeLocal(st, c, b);
  }

  lemma DecodeAtStable(at: Cursor, st: Length, t: seq<Byte>)
    requires DecodeAt(at, st).0 == Ok && !st.torn
    ensures DecodeAt(at.Extend(t), st) == (Ok, DecodeAt(at, st).1, DecodeAt(at, st).2.Extend(t))
  {
    var s := at.Cur();
    var n := DecodeBuf(st, Padded(s, MAX_HDRLEN)).1;
    hide DecodeBuf, Padded;
    if at.block.None? {
      SameHeader(st, s, t);
      assert (s + t)[n..] == s[n..] + t;
    }
  }

  /** A header decoded from a short, zero-padded lookahead is the one that any longer buffer gives. */
  lemma DecodeLenStable(c: Cursor, st: Length, t: seq<Byte>)
    requires DecodeLen(c, st).0 == Ok && !st.torn
    ensures DecodeLen(c.Extend(t), st)
         == (Ok, DecodeLen(c, st).1, DecodeLen(c, st).2.Extend(t))
  {
    DecodeAtStable(At(c), st, t);
    hide DecodeBuf, Padded;
    assert At(c.Extend(t)) == At(c).Extend(t);
  }

  // ----- what a run left untouched can be cut off

  /** Along a clean run the main buffer only shrinks. */
  predicate Leads(c: Cursor, d: Cursor) {
    d.clean ==> c.clean && |d.main| <= |c.main|
  }

  /** A run that ends at d is on track and has not touched the last n bytes of the main buffer. */
  predicate Spares(d: Cursor, n: nat) {
    d.clean && |d.main| >= n
  }

  lemma IncrLeads(c: Cursor, n: nat)
    ensures Incr(c, n).Some? ==> Leads(c, Incr(c, n).value.1)
  {}

  lemma DecodeLenLeads(c: Cursor, st: Length)
    ensures Leads(c, DecodeLen(c, st).2)
    ensures DecodeLen(c, st).0 == Ok && DecodeLen(c, st).2.clean ==> !DecodeLen(c, st).1.torn
  {
    hide DecodeBuf;
  }

  lemma DecompressLeads(c: Cursor, lzf: Inflater, zlen: nat, len: nat)
    ensures Leads(c, Decompress(c, lzf, zlen, len).1)
  {}

  lemma ConsumeLeads(c: Cursor, lzf: Inflater, l: Length)
    ensures Leads(c, Consume(c, lzf, l).2)
  {
    if l.isEnc == 0 && l.isLzf {
      DecompressLeads(c, lzf, l.zlen, l.len);
    }
  }

  lemma IncrCut(c: Cursor, n: nat, t: seq<Byte>)
    requires Incr(c.Extend(t), n).Some? && |Incr(c.Extend(t), n).value.1.main| >= |t|
    ensures Incr(c, n).Some?
    ensures Incr(c.Extend(t), n).value
         == (Incr(c, n).value.0, Incr(c, n).value.1.Extend(t))
  {
    if c.block.None? {
      assert (c.main + t)[..n] == c.main[..n];
      assert (c.main + t)[n..] == c.main[n..] + t;
    }
  }

  lemma DecodeAtCut(at: Cursor, st: Length, t: seq<Byte>)
    requires !st.torn && DecodeAt(at.Extend(t), st).0 == Ok && Spares(DecodeAt(at.Extend(t), st).2, |t|)
    ensures DecodeAt(at.Extend(t), st) == (Ok, DecodeAt(at, st).1, DecodeAt(at, st).2.Extend(t))
    ensures DecodeAt(at, st).0 == Ok
  {
    var n := DecodeBuf(st, Padded(at.Extend(t).Cur(), MAX_HDRLEN)).1;
    hide DecodeBuf, Padded;
    if at.block.None? {
      SameHeaderBack(st, at.main, t);
      assert (at.main + t)[n..] == at.main[n..] + t;
    }
  }

  lemma DecodeLenCut(c: Cursor, st: Length, t: seq<Byte>)
    requires !st.torn && DecodeLen(c.Extend(t), st).0 == Ok && Spares(DecodeLen(c.Extend(t), st).2, |t|)
    ensures DecodeLen(c.Extend(t), st)
         == (Ok, DecodeLen(c, st).1, DecodeLen(c, st).2.Extend(t))
    ensures DecodeLen(c, st).0 == Ok
  {
    DecodeTakes(At(c.Extend(t)), st);
    hide DecodeAt;
    assert At(c.Extend(t)) == At(c).Extend(t);
    DecodeAtCut(At(c), st, t);
  }

  /** A decoded header is at least one byte of the current buffer. */
  lemma DecodeTakes(at: Cursor, st: Length)
    requires DecodeAt(at, st).0 == Ok
    ensures |DecodeAt(at, st).2.Cur()| < |at.Cur()|
    ensures DecodeAt(at, st).2.block.None? <==> at.block.None?
    ensures at.block.Some? ==> DecodeAt(at, st).2.main == at.main
  {
    hide DecodeBuf, Padded;
  }

  lemma DecompressCut(c: Cursor, lzf: Inflater, zlen: nat, len: nat, t: seq<Byte>)
    requires Decompress(c.Extend(t), lzf, zlen, len).0
    requires Spares(Decompress(c.Extend(t), lzf, zlen, len).1, |t|)
    ensures Decompress(c.Extend(t), lzf, zlen, len)
         == (true, Decompress(c, lzf, zlen, len).1.Extend(t))
    ensures Decompress(c, lzf, zlen, len).0
  {
    if c.block.None? {
      if zlen <= |c.main| {
        assert (c.main + t)[..zlen] == c.main[..zlen];
        assert (c.main + t)[zlen..] == c.main[zlen..] + t;
      }
    }
  }

  lemma ConsumeCut(c: Cursor, lzf: Inflater, l: Length, t: seq<Byte>)
    requires Consume(c.Extend(t), lzf, l).0 == Ok && Spares(Consume(c.Extend(t), lzf, l).2, |t|)
    ensures Consume(c.Extend(t), lzf, l)
         == (Ok, Consume(c, lzf, l).1, Consume(c, lzf, l).2.Extend(t))
    ensures Consume(c, lzf, l).0 == Ok
  {
    hide Decompress;
    if l.isLzf {
      var d := Decompress(c.Extend(t), lzf, l.zlen, l.len).1;
      IncrLeads(d, l.len);
      DecompressCut(c, lzf, l.zlen, l.len, t);
      IncrCut(Decompress(c, lzf, l.zlen, l.len).1, l.len, t);
    } else {
      IncrCut(c, l.len, t);
    }
  }

  // ----- the class

  /** buf is pos bytes into mem, the memory it points into; sav likewise. offset counts the bytes
      consumed of the buffer that buf is in. */
  class RdbBufptr {
    const lzf: Inflater
    ghost const file: seq<Byte> // the main buffer, whole
    var mem: seq<Byte>
    var pos: nat
    var avail: nat
    var offset: nat
    var alloced: bool // alloced_mem is not NULL
    var savMem: seq<Byte>
    var savPos: nat
    var savAvail: nat
    var savOffset: nat
    ghost var inBlock: bool
    ghost var clean: bool

    ghost predicate Valid()
      reads this
    {
      && pos + avail <= |mem| && savPos + savAvail <= |savMem|
      && (!inBlock ==> savAvail == 0)
    }

    /** On a clean run over a whole file, the offset locates what is left of the main buffer, which is
        the rest of the file, except when it ran out while a block was live. */
    ghost predicate Located()
      reads this
    {
      clean ==>
        (!inBlock && avail > 0 ==> mem == file && pos == offset && pos + avail == |file|)
        && (inBlock && savAvail > 0 ==> savMem == file && savPos == savOffset && savPos + savAvail == |file|)
        && (inBlock ==> alloced)
    }

    ghost function View(): Cursor
      reads this
      requires Valid()
    {
      if inBlock then Cursor(savMem[savPos..savPos + savAvail], Some(mem[pos..pos + avail]), clean)
      else Cursor(mem[pos..pos + avail], None, clean)
    }

    constructor (b: seq<Byte>, inflate: Inflater)
      ensures Valid() && Located() && View() == Start(b) && file == b && offset == 0 && lzf == inflate
      ensures mem == b && pos == 0 && avail == |b| && !inBlock
    {
      lzf, file, mem, pos, avail, offset := inflate, b, b, 0, |b|, 0;
      alloced, savMem, savPos, savAvail, savOffset, inBlock, clean := false, [], 0, 0, 0, false, true;
    }

    method IncrBy(amt: nat) returns (b: Option<seq<Byte>>)
      requires Valid()
      modifies this`avail, this`offset, this`pos
      ensures Valid() && (old(Located()) ==> Located())
      ensures match Incr(old(View()), amt)
        case None => b == None && View() == old(View()) && offset == old(offset)
        case Some(x) => b == Some(x.0) && View() == x.1 && offset == old(offset) + amt
    {
      if amt > avail {
        return None;
      }
      b := Some(mem[pos..pos + amt]);
      ghost var cur := mem[pos..pos + avail];
      assert cur[..amt] == mem[pos..pos + amt];
      assert cur[amt..] == mem[pos + amt..pos + avail];
      avail, offset, pos := avail - amt, offset + amt, pos + amt;
    }

    /** Go back to the main buffer. */
    method Restore()
      requires Valid() && avail == 0
      modifies this`mem, this`pos, this`avail, this`offset, this`savMem, this`savPos, this`savAvail, this`savOffset, this`inBlock
      ensures Valid() && (old(Located()) ==> Located()) && !inBlock
      ensures View() == old(View()).(block := None)
    {
      mem, pos, avail, offset := savMem, savPos, savAvail, savOffset;
      savMem, savPos, savAvail, savOffset := [], 0, 0, 0;
      inBlock := false;
    }

    method Look(n: nat) returns (lookahead: seq<Byte>)
      requires Valid()
      modifies this
      ensures Valid() && (old(Located()) ==> Located())
      ensures View() == Pop(old(View())) && lookahead == Padded(View().Cur(), n)
    {
      CurSize();
      if avail == 0 && savAvail > 0 {
        Restore();
      }
      CurSize();
      if avail >= n {
        lookahead := mem[pos..pos + n];
      } else {
        lookahead := mem[pos..pos + avail] + Zeros(n - avail);
      }
      assert lookahead == Padded(View().Cur(), n);
    }

    /** A block that is not used up stays current although its memory is released. */
    method FreeAlloced()
      requires Valid()
      modifies this
      ensures Valid() && !alloced && (old(Located()) ==> Located())
      ensures old(alloced) || !old(inBlock) ==> View() == Free(old(View()))
    {
      if !alloced {
        return;
      }
      CurSize();
      if avail == 0 {
        Restore();
      }
      alloced, clean := false, clean && !inBlock;
    }

    /** The current buffer goes to sav unless it is used up. */
    method SaveCurrent()
      requires Valid()
      modifies this`savMem, this`savPos, this`savAvail, this`savOffset
      ensures savPos + savAvail <= |savMem|
      ensures savMem[savPos..savPos + savAvail]
        == if old(View()).Cur() != [] then old(View()).Cur() else old(View()).main
      ensures avail > 0 ==> savMem == mem && savPos == pos && savOffset == offset
      ensures avail == 0 ==> (savMem, savPos, savAvail, savOffset) == old((savMem, savPos, savAvail, savOffset))
    {
      ghost var was := View();
      assert |was.Cur()| == avail;
      if avail > 0 {
        savMem, savPos, savAvail, savOffset := mem, pos, avail, offset;
      }
    }

    method PushBlock(block: seq<Byte>)
      requires Valid()
      modifies this
      ensures Valid() && (old(Located()) ==> Located())
      ensures View() == Push(old(View()), block)
    {
      ghost var was := View();
      CurSize();
      SaveCurrent();
      ghost var off := inBlock && avail > 0;
      clean := clean && !off;
      assert off <==> was.block.Some? && was.Cur() != [];
      Enter(block);
    }

    /** The bytes at buf. */
    lemma CurSize()
      requires Valid()
      ensures View().Cur() == mem[pos..pos + avail] && |View().Cur()| == avail
      ensures View().block.Some? <==> inBlock
      ensures View().main == if inBlock then savMem[savPos..savPos + savAvail] else mem[pos..pos + avail]
      ensures View().clean == clean
    {}

    /** buf is set to a new block. */
    method Enter(block: seq<Byte>)
      requires pos + avail <= |mem| && savPos + savAvail <= |savMem|
      modifies this`mem, this`pos, this`avail, this`offset, this`alloced, this`inBlock
      ensures Valid() && View() == Cursor(savMem[savPos..savPos + savAvail], Some(block), clean)
      ensures inBlock && alloced
    {
      mem, pos, avail, offset, alloced, inBlock := block, 0, |block|, 0, true, true;
      assert mem[pos..pos + avail] == block;
    }

    method DecompressBlock(zlen: nat, len: nat) returns (ok: bool)
      requires Valid()
      modifies this
      ensures Valid() && (old(Located()) ==> Located())
      ensures (ok, View()) == Decompress(old(View()), lzf, zlen, len)
    {
      hide Push, Located, View;
      var b := IncrBy(zlen);
      if b.None? {
        return false;
      }
      var block := lzf(b.value, len);
      if block.None? {
        return false;
      }
      PushBlock(block.value);
      return true;
    }

    /** The bytes a header is decoded from: the buffer itself if it is long enough, else look. */
    method Window(ghost st: Length) returns (b: seq<Byte>)
      requires Valid()
      modifies this
      ensures Valid() && (old(Located()) ==> Located())
      ensures View() == At(old(View()))
      ensures |b| >= MAX_HDRLEN && DecodeBuf(st, b) == DecodeBuf(st, Padded(View().Cur(), MAX_HDRLEN))
    {
      hide DecodeBuf, Padded, Located;
      assert |View().Cur()| == avail && View().Cur() == mem[pos..pos + avail];
      if avail >= MAX_HDRLEN {
        SameWindow(st, mem[pos..pos + avail]);
        b := mem[pos..pos + avail];
      } else {
        b := Look(MAX_HDRLEN);
      }
    }

    /** RdbLength::decode. */
    method Decode(l: RdbLength) returns (err: Status)
      requires Valid()
      modifies this, l
      ensures Valid() && (old(Located()) ==> Located())
      ensures (err, l.View(), View()) == DecodeLen(old(View()), old(l.View()))
    {
      hide DecodeBuf, Padded, Located;
      var b := Window(l.View());
      var sz := l.DecodeBuffer(b);
      if sz < 0 {
        return ErrHdr;
      }
      err := Advance(sz, l);
    }

    method Advance(sz: nat, l: RdbLength) returns (err: Status)
      requires Valid()
      modifies this`avail, this`offset, this`pos, this`clean
      ensures Valid() && (old(Located()) ==> Located())
      ensures match Incr(old(View()), sz)
        case None => err == ErrTrunc && View() == old(View())
        case Some(x) => err == Ok && View() == x.1.(clean := old(View()).clean && !l.torn)
    {
      hide Incr;
      var b := IncrBy(sz);
      if b.None? {
        return ErrTrunc;
      }
      ghost var v := View();
      clean := clean && !l.torn;
      assert View() == v.(clean := clean);
      return Ok;
    }

    /** RdbLength::consume. */
    method ConsumeData(l: RdbLength) returns (err: Status, b: seq<Byte>)
      requires Valid()
      modifies this
      ensures Valid() && (old(Located()) ==> Located())
      ensures (err, b, View()) == Consume(old(View()), lzf, l.View())
    {
      if l.isEnc != 0 {
        return ErrHdr, [];
      }
      if l.isLzf {
        var ok := DecompressBlock(l.zlen, l.len);
        if !ok {
          return ErrLzf, [];
        }
      }
      var data := IncrBy(l.len);
      if data.None? {
        return ErrTrunc, [];
      }
      return Ok, data.value;
    }
  }

  /** The decoder never looks past the lookahead. */
  lemma SameWindow(st: Length, s: seq<Byte>)
    requires |s| >= MAX_HDRLEN
    ensures DecodeBuf(st, s) == DecodeBuf(st, Padded(s, MAX_HDRLEN))
  {
    hide FromBe, FromLe, Signed;
    var t := s[..MAX_HDRLEN];
    assert s[..19] == t[..19];
    if LengthEncoding(s[0]) == Lzf && !st.isLzf {
      var st1 := st.(isLzf := true);
      var first := DecodeBuf(st1, s[1..]);
      Prefixes(s, t, 19, 1, 10);
      SameCode(st1, s[1..], t[1..]);
      if first.1 >= 0 {
        Prefixes(s, t, 19, first.1 + 1, first.1 + 10);
        SameCode(first.0.(zlen := first.0.len), s[first.1 + 1..], t[first.1 + 1..]);
      }
    } else {
      Prefixes(s, t, 19, 1, 2);
      Prefixes(s, t, 19, 1, 3);
      Prefixes(s, t, 19, 1, 5);
      Prefixes(s, t, 19, 1, 9);
    }
  }

  lemma SameCode(st: Length, b: seq<Byte>, c: seq<Byte>)
    requires |b| >= 9 && |c| >= 9 && st.isLzf && b[..9] == c[..9]
    ensures DecodeBuf(st, b) == DecodeBuf(st, c)
  {
    Prefixes(b, c, 9, 0, 1);
    assert b[0] == b[0..1][0] && c[0] == c[0..1][0];
    var r := DecodeBuf(st, b);
    if r.1 >= 0 {
      Prefixes(b, c, 9, 0, r.1);
      assert b[0..][..r.1] == b[..r.1] && c[0..][..r.1] == c[..r.1];
    }
    DecodeCode(st, b, c);
  }
}
