/** Bytes, byte order and two's complement, as used by every codec of the repository
    (include/rdbparser/rdb_int.h on a little-endian host). */
module Bytes {

  type Byte = b: int | 0 <= b < 256

  const TWO32 := 0x1_0000_0000
  const TWO64 := 0x1_0000_0000_0000_0000

  datatype Option<+T> = None | Some(value: T)

  /** 256 to the power n. */
  function Pow256(n: nat): (r: nat)
    ensures r >= 1
  {
    if n == 0 then 1 else 256 * Pow256(n - 1)
  }

  /** The n low-order bytes of v, least significant first. */
  function Le(v: nat, n: nat): (r: seq<Byte>)
    ensures |r| == n
  {
    if n == 0 then [] else [v % 256] + Le(v / 256, n - 1)
  }

  /** The number a little-endian byte string stands for. */
  function FromLe(s: seq<Byte>): nat {
    if s == [] then 0 else s[0] + 256 * FromLe(s[1..])
  }

  /** The n low-order bytes of v, most significant first. */
  function Be(v: nat, n: nat): (r: seq<Byte>)
    ensures |r| == n
  {
    if n == 0 then [] else Be(v / 256, n - 1) + [v % 256]
  }

  /** The number a big-endian byte string stands for. */
  function FromBe(s: seq<Byte>): nat {
    if s == [] then 0 else 256 * FromBe(s[..|s| - 1]) + s[|s| - 1]
  }

  /** The cast of a signed number to an unsigned one of n bytes. */
  function Unsigned(x: int, n: nat): (r: nat)
    ensures r < Pow256(n)
  {
    x % Pow256(n)
  }

  /** The sign extension of an unsigned number of n bytes. */
  function Signed(u: nat, n: nat): int {
    if 2 * u >= Pow256(n) then u - Pow256(n) else u
  }

  lemma {:induction false} LeRoundTrip(v: nat, n: nat)
    requires v < Pow256(n)
    ensures FromLe(Le(v, n)) == v
  {
    if n > 0 {
      LeRoundTrip(v / 256, n - 1);
      assert Le(v, n)[1..] == Le(v / 256, n - 1);
    }
  }

  lemma {:induction false} BeRoundTrip(v: nat, n: nat)
    requires v < Pow256(n)
    ensures FromBe(Be(v, n)) == v
  {
    if n > 0 {
      BeRoundTrip(v / 256, n - 1);
      assert Be(v, n)[..n - 1] == Be(v / 256, n - 1);
    }
  }

  /** The first byte of a little-endian number is the lowest one: each further byte counts 256 times as much. */
  lemma {:induction false} FromLeConcat(s: seq<Byte>, b: Byte)
    ensures FromLe([b]) == b
    ensures FromLe(s + [b]) == FromLe(s) + b * Pow256(|s|)
    ensures Pow256(0) == 1 && Pow256(|s| + 1) == 256 * Pow256(|s|)
    decreases s
  {
    assert [b][1..] == [];
    if s == [] {
      assert s + [b] == [b];
    } else {
      assert (s + [b])[1..] == s[1..] + [b];
      FromLeConcat(s[1..], b);
      MulAssoc(256, b, Pow256(|s| - 1));
    }
  }

  /** The last byte of a big-endian number is the lowest one. */
  lemma FromBeConcat(s: seq<Byte>, b: Byte)
    ensures FromBe([]) == 0 && FromBe(s + [b]) == 256 * FromBe(s) + b
  {
    assert (s + [b])[..|s|] == s;
  }

  /** Every byte string is the number it stands for, written out again. */
  lemma {:induction false} BeFromBe(s: seq<Byte>)
    ensures Be(FromBe(s), |s|) == s
  {
    if s != [] {
      BeFromBe(s[..|s| - 1]);
      assert s == s[..|s| - 1] + [s[|s| - 1]];
    } else {
      assert Be(0, 0) == [];
    }
  }

  /** Horner's rule: n are the numbers that the prefixes of s stand for. */
  lemma {:induction false} BeIs(s: seq<Byte>, n: seq<nat>)
    requires |n| == |s| + 1 && n[0] == 0 && forall k | 0 <= k < |s| :: n[k + 1] == 256 * n[k] + s[k]
    ensures FromBe(s) == n[|s|] && Be(n[|s|], |s|) == s
    decreases s
  {
    if s != [] {
      BeIs(s[..|s| - 1], n[..|s|]);
    }
    BeFromBe(s);
  }

  lemma {:induction false} LeFromLe(s: seq<Byte>)
    ensures Le(FromLe(s), |s|) == s
  {
    if s != [] {
      LeFromLe(s[1..]);
      assert s == [s[0]] + s[1..];
    } else {
      assert Le(0, 0) == [];
    }
  }

  /** The same from the other end: n are the numbers that the suffixes of s stand for. */
  lemma {:induction false} LeIs(s: seq<Byte>, n: seq<nat>)
    requires |n| == |s| + 1 && n[|s|] == 0 && forall k | 0 <= k < |s| :: n[k] == s[k] + 256 * n[k + 1]
    ensures FromLe(s) == n[0] && Le(n[0], |s|) == s
    decreases s
  {
    if s != [] {
      LeIs(s[1..], n[1..]);
    }
    LeFromLe(s);
  }

  lemma MulAssoc(a: nat, b: nat, c: nat)
    ensures a * (b * c) == b * (a * c)
  {}

  lemma {:induction false} FromLeBound(s: seq<Byte>)
    ensures FromLe(s) < Pow256(|s|)
  {
    if s != [] {
      FromLeBound(s[1..]);
    }
  }

  lemma {:induction false} FromBeBound(s: seq<Byte>)
    ensures FromBe(s) < Pow256(|s|)
  {
    if s != [] {
      FromBeBound(s[..|s| - 1]);
    }
  }

  /** Casting a signed n-byte number to unsigned and back gives it again. */
  lemma SignedRoundTrip(x: int, n: nat)
    requires n > 0
    requires 0 <= 2 * x + Pow256(n) && 2 * x < Pow256(n)
    ensures Signed(Unsigned(x, n), n) == x
  {
    assert Pow256(n) == 256 * Pow256(n - 1);
    if x < 0 {
      ModNegative(x, Pow256(n));
    } else {
      ModSmall(x, Pow256(n));
    }
  }

  lemma ModNegative(x: int, m: nat)
    requires x < 0 <= x + m
    ensures x % m == x + m
  {
    assert x == -1 * m + (x + m);
  }

  lemma UniqueMod(x: int, m: nat, q: int, r: int)
    requires m > 0 && x == q * m + r && 0 <= r < m
    ensures x % m == r
  {
    var d := x / m - q;
    assert d * m == (x / m) * m - q * m;
    SmallMultiple(d, m, r - x % m);
  }

  lemma SmallMultiple(d: int, m: nat, e: int)
    requires d * m == e && 0 - m < e < m
    ensures d == 0
  {}

  lemma ModAdd(a: nat, b: nat, m: nat)
    requires m > 0
    ensures (a % m + b) % m == (a + b) % m
  {
    var q, k := (a + b) / m, a / m;
    assert (q - k) * m == q * m - k * m;
    UniqueMod(a % m + b, m, q - k, (a + b) % m);
  }

  lemma ModSmall(x: nat, m: nat)
    requires x < m
    ensures x % m == x
  {
  }

  /** Half the number of values that size bytes have. */
  function Half(size: nat): nat
    requires size in {1, 2, 3, 4, 8}
  {
    if size == 1 then 0x80
    else if size == 2 then 0x8000
    else if size == 3 then 0x80_0000
    else if size == 4 then 0x8000_0000
    else 0x8000_0000_0000_0000
  }

  /** Two's complement, little endian. */
  function Complement(x: int, size: nat): seq<Byte>
    requires size in {1, 2, 3, 4, 8} && 0 - Half(size) <= x < Half(size)
  {
    Le(if x < 0 then x + 2 * Half(size) else x, size)
  }

  lemma ComplementIs(x: int, size: nat)
    requires size in {1, 2, 3, 4, 8} && 0 - Half(size) <= x < Half(size)
    ensures Complement(x, size) == Le(Unsigned(x, size), size)
    ensures 0 <= 2 * x + Pow256(size) && 2 * x < Pow256(size)
  {
    Halves();
    hide Le, Pow256;
    if x < 0 {
      ModNegative(x, Pow256(size));
    } else {
      ModSmall(x, Pow256(size));
    }
  }

  lemma Halves()
    ensures Pow256(1) == 2 * Half(1) && Pow256(2) == 2 * Half(2) && Pow256(3) == 2 * Half(3) && Pow256(4) == 2 * Half(4)
    ensures Pow256(8) == 2 * Half(8)
  {}

  /** s with the bytes from off on replaced by t: what memcpy( &a[ off ], t, |t| ) leaves in a. */
  function Splice(s: seq<Byte>, off: nat, t: seq<Byte>): (r: seq<Byte>)
    requires off + |t| <= |s|
    ensures |r| == |s|
    ensures r[..off] == s[..off] && r[off..off + |t|] == t && r[off + |t|..] == s[off + |t|..]
  {
    s[..off] + t + s[off + |t|..]
  }

  lemma SpliceTwice(s: seq<Byte>, off: nat, t: seq<Byte>, u: seq<Byte>)
    requires off + |t| + |u| <= |s|
    ensures Splice(Splice(s, off, t), off + |t|, u) == Splice(s, off, t + u)
  {
    var a, b := Splice(Splice(s, off, t), off + |t|, u), Splice(s, off, t + u);
    assert Splice(s, off, t)[..off + |t|] == s[..off] + t;
    assert Splice(s, off, t)[off + |t| + |u|..] == s[off + |t| + |u|..];
  }

  /** Writing at the end of the bytes from lo to off extends them. */
  lemma SpliceGrows(s: seq<Byte>, lo: nat, off: nat, t: seq<Byte>, r: seq<Byte>)
    requires lo <= off && off + |t| <= |s| && r == Splice(s, off, t)
    ensures r[lo..off + |t|] == s[lo..off] + t && r[..lo] == s[..lo]
  {
  }

  /** Writing leaves the bytes on either side alone, and the written bytes in place. */
  lemma SpliceKeeps(s: seq<Byte>, off: nat, t: seq<Byte>, lo: nat, hi: nat)
    requires off + |t| <= |s| && lo <= hi <= |s| && (hi <= off || off + |t| <= lo)
    ensures Splice(s, off, t)[lo..hi] == s[lo..hi]
    ensures Splice(s, off, t)[off..off + |t|] == t
  {
  }

  lemma Regroup<T>(a: seq<T>, b: seq<T>, c: seq<T>)
    ensures a + b + c == a + (b + c)
    ensures a + [] == a && [] + a == a
  {
  }

  /** A sequence that goes on at at with a, then b. */
  lemma TwoSlices<T>(mem: seq<T>, at: nat, a: seq<T>, b: seq<T>)
    requires at <= |mem| && mem[at..] == a + b
    ensures at + |a| <= |mem| && mem[at..at + |a|] == a && mem[at + |a|..] == b
    ensures a != [] ==> mem[at] == a[0]
  {
    assert mem[at..at + |a|] == (a + b)[..|a|];
    assert mem[at + |a|..] == (a + b)[|a|..];
    if a != [] {
      assert mem[at] == (a + b)[0];
    }
  }

  lemma FourSlices<T>(mem: seq<T>, at: nat, a: seq<T>, b: seq<T>, c: seq<T>, rest: seq<T>)
    requires at <= |mem| && mem[at..] == (a + b + c) + rest
    ensures at + |a + b + c| <= |mem| && mem[at + |a + b + c|..] == rest && |a + b + c| == |a| + |b| + |c|
    ensures mem[at..] == a + (b + (c + rest)) && (a != [] ==> mem[at] == a[0])
    ensures mem[at + |a|..] == b + (c + rest) && (b != [] ==> mem[at + |a|] == b[0])
    ensures mem[at + |a|..at + |a| + |b|] == b
    ensures mem[at + |a| + |b|..] == c + rest && mem[at + |a| + |b|..at + |a| + |b| + |c|] == c
  {
    Regroup(a + b, c, rest);
    Regroup(a, b, c + rest);
    TwoSlices(mem, at, a + b + c, rest);
    TwoSlices(mem, at, a, b + (c + rest));
    TwoSlices(mem, at + |a|, b, c + rest);
    TwoSlices(mem, at + |a| + |b|, c, rest);
  }

  /** memcpy into a buffer; the endian writers le( p, i ) and be( p, i ) are Store with Le and Be. */
  method Store(a: array<Byte>, off: nat, t: seq<Byte>)
    requires off + |t| <= a.Length
    modifies a
    ensures a[..] == Splice(old(a[..]), off, t)
  {
    forall i | 0 <= i < |t| {
      a[off + i] := t[i];
    }
  }

  /** The two copies of the two-buffer writers. */
  method StoreTwo(a: array<Byte>, off: nat, t: seq<Byte>, u: seq<Byte>)
    requires off + |t| + |u| <= a.Length
    modifies a
    ensures a[..] == Splice(old(a[..]), off, t + u)
  {
    hide Splice;
    ghost var was := a[..];
    Store(a, off, t);
    if |u| > 0 {
      SpliceTwice(was, off, t, u);
      Store(a, off + |t|, u);
    } else {
      assert t + u == t;
    }
  }
}
