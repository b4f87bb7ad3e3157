/** When two globs accept the same keys: a canonical form of the tokens, in which a star stands only right
    before a literal, a class, or the end. Equal forms mean equal globs, and without classes also the other way
    round. */
module GlobCanon {
  import opened GlobMatch

  function Lower(c: char): char { if IsUpper(c) then (c as int + 32) as char else c }

  function Norm(one: One, fold: bool): One {
    match one
    case Exactly(c) => Exactly(if fold then Lower(c) else c)
    case _ => one
  }

  function Stars(open: bool): seq<Token> { if open then [Star] else [] }

  /** The canonical form; open tells that a star stands before the tokens. */
  function Canon(ts: seq<Token>, open: bool, fold: bool): seq<Token>
    decreases |ts|
  {
    if ts == [] then Stars(open)
    else
      match ts[0]
      case Star => Canon(ts[1..], true, fold)
      case Single(one) =>
        if one == AnyByte then [ts[0]] + Canon(ts[1..], open, fold)
        else Stars(open) + [Single(Norm(one, fold))] + Canon(ts[1..], false, fold)
  }

  // ----- the canonical form accepts the same keys

  ghost predicate Same(a: seq<Token>, b: seq<Token>, key: string, fold: bool) {
    forall pos: nat :: Matches(a, true, key, pos, fold) <==> Matches(b, true, key, pos, fold)
  }

  lemma SameAfter(t: Token, u: Token, a: seq<Token>, b: seq<Token>, key: string, fold: bool)
    requires Same(a, b, key, fold)
    requires t == u || (t.Single? && u.Single? && forall c :: Accepts(t.one, c, fold) <==> Accepts(u.one, c, fold))
    ensures Same([t] + a, [u] + b, key, fold)
  {
    assert ([t] + a)[1..] == a && ([u] + b)[1..] == b;
    forall pos: nat
      ensures Matches([t] + a, true, key, pos, fold) <==> Matches([u] + b, true, key, pos, fold)
    {
      if t == Star {
        StarOpens([t] + a, true, key, pos, fold);
        StarOpens([u] + b, true, key, pos, fold);
      }
    }
  }

  lemma TwoStars(a: seq<Token>, key: string, fold: bool)
    ensures Same([Star] + ([Star] + a), [Star] + a, key, fold)
  {
    var one, two := [Star] + a, [Star] + ([Star] + a);
    assert two[1..] == one && one[1..] == a;
    forall pos: nat
      ensures Matches(two, true, key, pos, fold) <==> Matches(one, true, key, pos, fold)
    {
      StarOpens(two, true, key, pos, fold);
      StarOpens(one, true, key, pos, fold);
      if pos <= |key| && Matches(one, true, key, pos, fold) {
        assert Matches(two[1..], true, key, pos, fold);
      }
      if q :| pos <= q <= |key| && Matches(one, true, key, q, fold) {
        StarOpens(one, true, key, q, fold);
      }
    }
  }

  /** A star and any one character, in either order. */
  lemma StarPastAny(a: seq<Token>, key: string, fold: bool)
    ensures Same([Star] + ([Single(AnyByte)] + a), [Single(AnyByte)] + ([Star] + a), key, fold)
  {
    var any, star := [Single(AnyByte)] + a, [Star] + a;
    var x, y := [Star] + any, [Single(AnyByte)] + star;
    assert x[1..] == any && any[1..] == a && y[1..] == star && star[1..] == a;
    forall pos: nat
      ensures Matches(x, true, key, pos, fold) <==> Matches(y, true, key, pos, fold)
    {
      StarOpens(x, true, key, pos, fold);
      StarOpens(star, true, key, pos + 1, fold);
      if q :| pos <= q <= |key| && Matches(any, true, key, q, fold) {
        assert Matches(a, true, key, q + 1, fold) && q < |key|;
      }
      if q :| pos + 1 <= q <= |key| && Matches(a, true, key, q, fold) {
        assert Matches(any, true, key, q - 1, fold);
      }
    }
  }

  lemma SameTrans(a: seq<Token>, b: seq<Token>, c: seq<Token>, key: string, fold: bool)
    requires Same(a, b, key, fold) && Same(b, c, key, fold)
    ensures Same(a, c, key, fold)
  {}

  lemma NormAccepts(one: One, c: char, fold: bool)
    ensures Accepts(Norm(one, fold), c, fold) <==> Accepts(one, c, fold)
  {}

  lemma {:induction false} CanonMeans(ts: seq<Token>, open: bool, key: string, fold: bool)
    ensures Same(Stars(open) + ts, Canon(ts, open, fold), key, fold)
    decreases |ts|, 0
  {
    hide Same, Matches, Accepts, Norm;
    if ts == [] {
      assert Stars(open) + ts == Stars(open);
      SameSelf(Stars(open), key, fold);
    } else {
      var rest := ts[1..];
      assert ts == [ts[0]] + rest;
      match ts[0]
      case Star =>
        CanonMeans(rest, true, key, fold);
        if open {
          TwoStars(rest, key, fold);
          SameTrans(Stars(open) + ts, [Star] + rest, Canon(rest, true, fold), key, fold);
        } else {
          assert [] + ts == ts;
        }
      case Single(one) =>
        if one == AnyByte {
          CanonMeans(rest, open, key, fold);
          SameAfter(ts[0], ts[0], Stars(open) + rest, Canon(rest, open, fold), key, fold);
          if open {
            StarPastAny(rest, key, fold);
            SameTrans(Stars(open) + ts, [ts[0]] + ([Star] + rest), Canon(ts, open, fold), key, fold);
          } else {
            assert [] + ts == ts && [] + rest == rest;
          }
        } else {
          SingleMeans(ts[0], rest, open, key, fold);
        }
    }
  }

  lemma SameSelf(a: seq<Token>, key: string, fold: bool)
    ensures Same(a, a, key, fold)
  {}

  lemma {:induction false} SingleMeans(t: Token, rest: seq<Token>, open: bool, key: string, fold: bool)
    requires t.Single? && t.one != AnyByte
    ensures Same(Stars(open) + ([t] + rest), Stars(open) + [Single(Norm(t.one, fold))] + Canon(rest, false, fold), key, fold)
    decreases |rest|, 1
  {
    hide Same, Matches, Accepts, Norm;
    var u, more := Single(Norm(t.one, fold)), Canon(rest, false, fold);
    CanonMeans(rest, false, key, fold);
    assert [] + rest == rest;
    forall c ensures Accepts(t.one, c, fold) <==> Accepts(u.one, c, fold) {
      NormAccepts(t.one, c, fold);
    }
    SameAfter(t, u, rest, more, key, fold);
    assert Stars(open) + [u] + more == Stars(open) + ([u] + more);
    if open {
      SameAfter(Star, Star, [t] + rest, [u] + more, key, fold);
    } else {
      assert [] + ([t] + rest) == [t] + rest && [] + ([u] + more) == [u] + more;
    }
  }

  /** Globs with the same canonical form accept the same keys, classes or not. */
  lemma CanonDecides(ts: seq<Token>, us: seq<Token>, key: string, fold: bool)
    requires Canon(ts, false, fold) == Canon(us, false, fold)
    ensures Matches(ts, true, key, 0, fold) <==> Matches(us, true, key, 0, fold)
  {
    hide Matches, Canon;
    CanonMeans(ts, false, key, fold);
    CanonMeans(us, false, key, fold);
    assert [] + ts == ts && [] + us == us;
  }

  // ----- keys that tell two canonical forms apart

  function Singles(ts: seq<Token>): nat {
    if ts == [] then 0 else (if ts[0].Single? then 1 else 0) + Singles(ts[1..])
  }

  lemma {:induction false} SinglesConcat(a: seq<Token>, b: seq<Token>)
    ensures Singles(a + b) == Singles(a) + Singles(b)
  {
    if a == [] {
      assert a + b == b;
    } else {
      assert (a + b)[1..] == a[1..] + b;
      SinglesConcat(a[1..], b);
    }
  }

  predicate NoClass(ts: seq<Token>) {
    forall t | t in ts :: t.Star? || !t.one.OneOf?
  }

  /** A shortest key, with z for every free character. */
  function Fill(ts: seq<Token>, z: char): (key: string)
    ensures |key| == Singles(ts)
  {
    if ts == [] then ""
    else (match ts[0]
          case Star => ""
          case Single(Exactly(c)) => [c]
          case Single(_) => [z]) + Fill(ts[1..], z)
  }

  lemma {:induction false} FillConcat(a: seq<Token>, b: seq<Token>, z: char)
    ensures Fill(a + b, z) == Fill(a, z) + Fill(b, z)
  {
    if a == [] {
      assert a + b == b && "" + Fill(b, z) == Fill(b, z);
    } else {
      assert (a + b)[1..] == a[1..] + b;
      FillConcat(a[1..], b, z);
    }
  }

  /** The part of the shortest key that one token takes. */
  lemma FillOne(ts: seq<Token>, z: char) returns (head: string)
    requires ts != []
    ensures Fill(ts, z) == head + Fill(ts[1..], z) && |head| == (if ts[0].Single? then 1 else 0)
    ensures ts[0].Single? && !ts[0].one.OneOf? ==> forall fold: bool :: Accepts(ts[0].one, head[0], fold)
  {
    head := match ts[0]
      case Star => ""
      case Single(Exactly(c)) => [c]
      case Single(_) => [z];
  }

  /** The shortest key matches, and so does what comes behind if it does. */
  lemma {:induction false} FillMatches(ts: seq<Token>, rest: seq<Token>, before: string, tail: string, z: char, fold: bool)
    requires NoClass(ts) && Matches(rest, true, before + Fill(ts, z) + tail, |before| + Singles(ts), fold)
    ensures Matches(ts + rest, true, before + Fill(ts, z) + tail, |before|, fold)
    decreases |ts|
  {
    hide Accepts, Fill;
    if ts == [] {
      assert ts + rest == rest;
    } else {
      var key := before + Fill(ts, z) + tail;
      var head := FillOne(ts, z);
      assert key == (before + head) + Fill(ts[1..], z) + tail;
      assert (ts + rest)[1..] == ts[1..] + rest;
      FillMatches(ts[1..], rest, before + head, tail, z, fold);
      if ts[0] == Star {
        StarOpens(ts + rest, true, key, |before|, fold);
      } else {
        assert key[|before|] == head[0] && ts[0] in ts;
      }
    }
  }

  lemma {:induction false} MatchIsLong(ts: seq<Token>, key: string, pos: nat, fold: bool)
    requires Matches(ts, true, key, pos, fold)
    ensures pos + Singles(ts) <= |key|
    decreases |ts|
  {
    if ts != [] {
      match ts[0]
      case Single(_) =>
        MatchIsLong(ts[1..], key, pos + 1, fold);
      case Star =>
        var q :| pos <= q <= |key| && Matches(ts[1..], true, key, q, fold);
        MatchIsLong(ts[1..], key, q, fold);
    }
  }

  /** A match of two parts has a place where the first one ends. */
  lemma {:induction false} Split(a: seq<Token>, b: seq<Token>, key: string, pos: nat, fold: bool) returns (q: nat)
    requires Matches(a + b, true, key, pos, fold)
    ensures pos + Singles(a) <= q && q + Singles(b) <= |key|
    ensures Matches(a, true, key[..q], pos, fold) && Matches(b, true, key, q, fold)
    decreases |a|
  {
    if a == [] {
      assert a + b == b;
      q := pos;
      MatchIsLong(b, key, pos, fold);
    } else {
      assert (a + b)[1..] == a[1..] + b;
      match a[0]
      case Single(_) =>
        q := Split(a[1..], b, key, pos + 1, fold);
      case Star =>
        var r :| pos <= r <= |key| && Matches(a[1..] + b, true, key, r, fold);
        q := Split(a[1..], b, key, r, fold);
        StarOpens(a, true, key[..q], pos, fold);
    }
  }

  /** A key that is as short as possible, and wrong at one place. */
  lemma Rejects(a: seq<Token>, one: One, b: seq<Token>, key: string, fold: bool)
    requires |key| == Singles(a) + 1 + Singles(b) && !Accepts(one, key[Singles(a)], fold)
    ensures !Matches(a + ([Single(one)] + b), true, key, 0, fold)
  {
    assert ([Single(one)] + b)[1..] == b;
    if Matches(a + ([Single(one)] + b), true, key, 0, fold) {
      var q := Split(a, [Single(one)] + b, key, 0, fold);
      assert false;
    }
  }

  /** No star can stand at the end, not even on the other side of some free characters. */
  predicate Tight(ts: seq<Token>)
    decreases |ts|
  {
    var n := |ts| - 1;
    ts == [] || (ts[n].Single? && (ts[n].one == AnyByte ==> Tight(ts[..n])))
  }

  /** The last literal is not z. */
  predicate Avoids(ts: seq<Token>, z: char)
    decreases |ts|
  {
    var n := |ts| - 1;
    ts == [] || match ts[n]
      case Single(Exactly(c)) => c != z
      case Single(AnyByte) => Avoids(ts[..n], z)
      case _ => true
  }

  predicate IsDigit(z: char) { '0' <= z <= '9' }

  lemma LastUsed(t: Token, key: string, q: nat, fold: bool)
    requires t.Single? && Matches([t], true, key, q, fold)
    ensures q == |key| - 1 && Accepts(t.one, key[q], fold)
  {
    assert [t][1..] == [];
  }

  /** A shortest key that is one free character longer does not match. */
  lemma {:induction false} NoSlack(ts: seq<Token>, z: char, fold: bool)
    requires NoClass(ts) && Tight(ts) && Avoids(ts, z) && IsDigit(z)
    ensures !Matches(ts, true, Fill(ts, z) + [z], 0, fold)
    decreases |ts|
  {
    if ts != [] {
      var n := |ts| - 1;
      var a, t, key := ts[..n], ts[n], Fill(ts, z) + [z];
      assert ts == a + [t] && t in ts;
      FillConcat(a, [t], z);
      assert [t][1..] == [];
      if t.one == AnyByte {
        NoSlack(a, z, fold);
        assert key[..|key| - 1] == Fill(a, z) + [z];
      }
      if Matches(ts, true, key, 0, fold) {
        var q := Split(a, [t], key, 0, fold);
        LastUsed(t, key, q, fold);
        assert false;
      }
    }
  }

  // ----- canonical forms

  predicate IsLiteral(t: Token) { t.Single? && t.one != AnyByte }

  /** A star stands right before a literal or at the end. */
  predicate IsCanon(ts: seq<Token>) {
    forall i | 0 <= i < |ts| - 1 :: ts[i] == Star ==> IsLiteral(ts[i + 1])
  }

  /** Letters are in lower case if case does not count. */
  predicate Normal(ts: seq<Token>, fold: bool) {
    forall t | t in ts :: t.Single? ==> Norm(t.one, fold) == t.one
  }

  lemma {:induction false} CanonIs(ts: seq<Token>, open: bool, fold: bool)
    requires NoClass(ts)
    ensures var cs := Canon(ts, open, fold);
      IsCanon(cs) && Normal(cs, fold) && NoClass(cs) && Singles(cs) == Singles(ts)
    decreases |ts|
  {
    if ts != [] {
      assert ts[0] in ts;
      match ts[0]
      case Star => CanonIs(ts[1..], true, fold);
      case Single(one) =>
        if one == AnyByte {
          CanonIs(ts[1..], open, fold);
          CanonAfter([], ts[0], Canon(ts[1..], open, fold), fold);
          assert [] + [ts[0]] == [ts[0]];
        } else {
          CanonIs(ts[1..], false, fold);
          CanonAfter(Stars(open), Single(Norm(one, fold)), Canon(ts[1..], false, fold), fold);
        }
    }
  }

  lemma CanonAfter(stars: seq<Token>, t: Token, cs: seq<Token>, fold: bool)
    requires IsCanon(cs) && Normal(cs, fold) && NoClass(cs)
    requires t.Single? && Norm(t.one, fold) == t.one && !t.one.OneOf? && (stars == [] || (stars == [Star] && IsLiteral(t)))
    ensures var all := stars + [t] + cs;
      IsCanon(all) && Normal(all, fold) && NoClass(all) && Singles(all) == 1 + Singles(cs)
  {
    SinglesConcat(stars + [t], cs);
    SinglesConcat(stars, [t]);
    assert [t][1..] == [] && [Star][1..] == [];
  }

  lemma {:induction false} CanonTight(ts: seq<Token>)
    requires IsCanon(ts) && (ts == [] || ts[|ts| - 1] != Star)
    ensures Tight(ts)
    decreases |ts|
  {
    if ts != [] && ts[|ts| - 1].one == AnyByte {
      var a := ts[..|ts| - 1];
      if a != [] {
        assert a[|a| - 1] == ts[|ts| - 2];
      }
      CanonTight(a);
    }
  }

  /** One of three digits is neither the last literal of ts nor c. */
  lemma {:induction false} Digit(ts: seq<Token>, c: char) returns (z: char)
    requires Tight(ts)
    ensures IsDigit(z) && z != c && Avoids(ts, z)
    decreases |ts|
  {
    if ts == [] {
      z := if c == '0' then '1' else '0';
    } else {
      match ts[|ts| - 1].one
      case Exactly(d) => z := if c != '0' && d != '0' then '0' else if c != '1' && d != '1' then '1' else '2';
      case AnyByte => z := Digit(ts[..|ts| - 1], c);
      case OneOf(_) => z := if c == '0' then '1' else '0';
    }
  }

  /** The first star that only one of two forms has. */
  lemma StarApart(p: seq<Token>, a: seq<Token>, b: seq<Token>, fold: bool) returns (key: string)
    requires NoClass(p + ([Star] + a)) && NoClass(p + b) && IsCanon(p + ([Star] + a)) && Singles(a) == Singles(b)
    requires (b == [] || b[0] != Star) && Normal(a, fold) && Normal(b, fold)
    ensures Matches(p + ([Star] + a), true, key, 0, fold) != Matches(p + b, true, key, 0, fold)
  {
    var cs, ds := p + ([Star] + a), p + b;
    PartsFit(p, a, b);
    CanonTight(p);
    if b == [] {
      var z := Digit(p, '0');
      key := Inserted(p, a, z, fold);
      StarRejects(p, a, b, z, fold);
    } else {
      assert a != [];
      var c, more := a[0].one.c, b[1..];
      assert a == [a[0]] + a[1..] && b == [b[0]] + more;
      if b[0].one == a[0].one {
        var z := Digit(p, c);
        key := Inserted(p, a, z, fold);
        StarRejects(p, a, b, z, fold);
      } else if b[0].one == AnyByte {
        var z := Digit(p, c);
        key := Fill(ds, z);
        WholeFill(ds, z, fold);
        FillConcat(p, b, z);
        SinglesConcat(p, b);
        SinglesConcat(p, [Star]);
        assert key[Singles(p)] == z;
        assert cs == (p + [Star]) + ([Single(Exactly(c))] + a[1..]);
        assert [Star][1..] == [];
        Rejects(p + [Star], Exactly(c), a[1..], key, fold);
      } else {
        key := LiteralApart(p, a, b, fold);
      }
    }
  }

  lemma PartsFit(p: seq<Token>, a: seq<Token>, b: seq<Token>)
    requires NoClass(p + ([Star] + a)) && NoClass(p + b) && IsCanon(p + ([Star] + a)) && Singles(a) == Singles(b)
    requires b == [] || b[0] != Star
    ensures NoClass(p) && NoClass(a) && NoClass(b) && IsCanon(p) && (p == [] || p[|p| - 1] != Star)
    ensures a != [] ==> a[0].Single? && a[0].one.Exactly?
    ensures a == [] <==> b == []
    ensures b != [] ==> b[0].Single? && !b[0].one.OneOf?
  {
    var cs := p + ([Star] + a);
    forall i | 0 <= i < |p| ensures cs[i] == p[i] {}
    assert cs[|p|] == Star;
    forall t | t in p ensures t in cs {}
    forall t | t in a ensures t in cs {}
    forall t | t in b ensures t in p + b {}
    if a != [] {
      assert cs[|p| + 1] == a[0] && a[0] in a;
    }
  }

  lemma WholeFill(ts: seq<Token>, z: char, fold: bool)
    requires NoClass(ts)
    ensures Matches(ts, true, Fill(ts, z), 0, fold)
  {
    assert "" + Fill(ts, z) + "" == Fill(ts, z) && ts + [] == ts;
    FillMatches(ts, [], "", "", z, fold);
  }

  /** A free character where the star is. */
  lemma Inserted(p: seq<Token>, a: seq<Token>, z: char, fold: bool) returns (key: string)
    requires NoClass(p) && NoClass(a)
    ensures key == Fill(p, z) + [z] + Fill(a, z)
    ensures Matches(p + ([Star] + a), true, key, 0, fold)
  {
    var before := Fill(p, z) + [z];
    key := before + Fill(a, z);
    assert before + Fill(a, z) + "" == key && a + [] == a;
    FillMatches(a, [], before, "", z, fold);
    var starred := [Star] + a;
    assert starred[1..] == a;
    StarOpens(starred, true, key, |Fill(p, z)|, fold);
    assert "" + Fill(p, z) + ([z] + Fill(a, z)) == key;
    FillMatches(p, starred, "", [z] + Fill(a, z), z, fold);
  }

  /** Without the star there is no room for it. */
  lemma StarRejects(p: seq<Token>, a: seq<Token>, b: seq<Token>, z: char, fold: bool)
    requires NoClass(p) && Tight(p) && Avoids(p, z) && IsDigit(z) && Singles(a) == Singles(b)
    requires b != [] ==> b[0].Single? && b[0].one.Exactly? && b[0].one.c != z
    ensures !Matches(p + b, true, Fill(p, z) + [z] + Fill(a, z), 0, fold)
  {
    var key, i := Fill(p, z) + [z] + Fill(a, z), Singles(p);
    assert key[i] == z && key[..i + 1] == Fill(p, z) + [z];
    NoSlack(p, z, fold);
    if Matches(p + b, true, key, 0, fold) {
      var q := Split(p, b, key, 0, fold);
      assert false;
    }
  }

  /** Two different literals behind the star. */
  lemma LiteralApart(p: seq<Token>, a: seq<Token>, b: seq<Token>, fold: bool) returns (key: string)
    requires NoClass(p) && NoClass(a) && Singles(a) == Singles(b)
    requires a != [] && b != [] && a[0].Single? && b[0].Single? && a[0].one.Exactly? && b[0].one.Exactly?
    requires a[0].one != b[0].one && Norm(a[0].one, fold) == a[0].one && Norm(b[0].one, fold) == b[0].one
    ensures Matches(p + ([Star] + a), true, key, 0, fold) != Matches(p + b, true, key, 0, fold)
  {
    var z := '0';
    var starred := [Star] + a;
    assert starred[1..] == a;
    key := Fill(p, z) + Fill(a, z);
    assert key + "" == key && a + [] == a && "" + Fill(p, z) + Fill(a, z) == key;
    FillMatches(a, [], Fill(p, z), "", z, fold);
    StarOpens(starred, true, key, Singles(p), fold);
    FillMatches(p, starred, "", Fill(a, z), z, fold);
    assert b == [b[0]] + b[1..];
    assert key[Singles(p)] == a[0].one.c;
    Rejects(p, b[0].one, b[1..], key, fold);
  }

  /** Two different characters in the same place. */
  lemma SingleApart(p: seq<Token>, x: One, a: seq<Token>, y: One, b: seq<Token>, fold: bool) returns (key: string)
    requires NoClass(p + ([Single(x)] + a)) && NoClass(p + ([Single(y)] + b)) && Singles(a) == Singles(b)
    requires x != y && Norm(x, fold) == x && Norm(y, fold) == y
    ensures Matches(p + ([Single(x)] + a), true, key, 0, fold) != Matches(p + ([Single(y)] + b), true, key, 0, fold)
  {
    assert Single(x) in p + ([Single(x)] + a) && Single(y) in p + ([Single(y)] + b);
    if y == AnyByte {
      key := SingleApart'(p, y, b, x, a, fold);
    } else {
      key := SingleApart'(p, x, a, y, b, fold);
    }
  }

  lemma SingleApart'(p: seq<Token>, x: One, a: seq<Token>, y: One, b: seq<Token>, fold: bool) returns (key: string)
    requires NoClass(p + ([Single(x)] + a)) && Singles(a) == Singles(b)
    requires x != y && y.Exactly? && !x.OneOf? && Norm(x, fold) == x && Norm(y, fold) == y
    ensures Matches(p + ([Single(x)] + a), true, key, 0, fold) && !Matches(p + ([Single(y)] + b), true, key, 0, fold)
  {
    var z := if y.c == '0' then '1' else '0';
    var ts := p + ([Single(x)] + a);
    key := Fill(ts, z);
    WholeFill(ts, z, fold);
    FillConcat(p, [Single(x)] + a, z);
    SinglesConcat(p, [Single(x)] + a);
    assert ([Single(x)] + a)[1..] == a;
    assert key[Singles(p)] == if x == AnyByte then z else x.c;
    Rejects(p, y, b, key, fold);
  }

  lemma FirstDifference(cs: seq<Token>, ds: seq<Token>) returns (j: nat)
    requires cs != ds
    ensures j <= |cs| && j <= |ds| && cs[..j] == ds[..j]
    ensures j < |cs| || j < |ds|
    ensures j < |cs| && j < |ds| ==> cs[j] != ds[j]
    decreases |cs|
  {
    if cs == [] || ds == [] || cs[0] != ds[0] {
      j := 0;
    } else {
      assert cs == [cs[0]] + cs[1..] && ds == [ds[0]] + ds[1..];
      var i := FirstDifference(cs[1..], ds[1..]);
      j := i + 1;
      assert cs[..j] == [cs[0]] + cs[1..][..i] && ds[..j] == [ds[0]] + ds[1..][..i];
    }
  }

  /** Different canonical forms accept different keys. */
  lemma Apart(cs: seq<Token>, ds: seq<Token>, fold: bool) returns (key: string)
    requires cs != ds && NoClass(cs) && NoClass(ds) && IsCanon(cs) && IsCanon(ds) && Normal(cs, fold) && Normal(ds, fold)
    ensures Matches(cs, true, key, 0, fold) != Matches(ds, true, key, 0, fold)
  {
    if Singles(cs) < Singles(ds) {
      key := TooShort(cs, ds, fold);
    } else if Singles(ds) < Singles(cs) {
      key := TooShort(ds, cs, fold);
    } else {
      var j := FirstDifference(cs, ds);
      key := ApartAt(cs, ds, j, fold);
    }
  }

  lemma TooShort(cs: seq<Token>, ds: seq<Token>, fold: bool) returns (key: string)
    requires NoClass(cs) && Singles(cs) < Singles(ds)
    ensures Matches(cs, true, key, 0, fold) && !Matches(ds, true, key, 0, fold)
  {
    key := Fill(cs, '0');
    WholeFill(cs, '0', fold);
    if Matches(ds, true, key, 0, fold) {
      MatchIsLong(ds, key, 0, fold);
      assert false;
    }
  }

  lemma ApartAt(cs: seq<Token>, ds: seq<Token>, j: nat, fold: bool) returns (key: string)
    requires NoClass(cs) && NoClass(ds) && IsCanon(cs) && IsCanon(ds) && Normal(cs, fold) && Normal(ds, fold)
    requires Singles(cs) == Singles(ds)
    requires j <= |cs| && j <= |ds| && cs[..j] == ds[..j] && (j < |cs| || j < |ds|)
    requires j < |cs| && j < |ds| ==> cs[j] != ds[j]
    ensures Matches(cs, true, key, 0, fold) != Matches(ds, true, key, 0, fold)
  {
    var p := cs[..j];
    Parts(cs, j, fold);
    Parts(ds, j, fold);
    if j < |cs| && cs[j] == Star {
      key := StarApart(p, cs[j + 1..], ds[j..], fold);
    } else if j < |ds| && ds[j] == Star {
      key := StarApart(p, ds[j + 1..], cs[j..], fold);
    } else {
      assert j < |cs| && j < |ds|;
      key := SingleApart(p, cs[j].one, cs[j + 1..], ds[j].one, ds[j + 1..], fold);
    }
  }

  lemma Parts(ts: seq<Token>, j: nat, fold: bool)
    requires j <= |ts| && Normal(ts, fold)
    ensures ts == ts[..j] + ts[j..] && Normal(ts[j..], fold) && Singles(ts) == Singles(ts[..j]) + Singles(ts[j..])
    ensures j < |ts| ==>
      ts == ts[..j] + ([ts[j]] + ts[j + 1..]) && Normal(ts[j + 1..], fold)
      && Singles(ts) == Singles(ts[..j]) + (if ts[j].Single? then 1 else 0) + Singles(ts[j + 1..])
      && (ts[j].Single? ==> Norm(ts[j].one, fold) == ts[j].one)
  {
    assert ts == ts[..j] + ts[j..];
    SinglesConcat(ts[..j], ts[j..]);
    if j < |ts| {
      assert ts[j..][1..] == ts[j + 1..] && ts[j..] == [ts[j]] + ts[j + 1..];
    }
  }

  /** Globs without classes accept the same keys if and only if their canonical forms are equal. */
  lemma SameMeaning(ts: seq<Token>, us: seq<Token>, fold: bool)
    requires NoClass(ts) && NoClass(us)
    ensures Canon(ts, false, fold) == Canon(us, false, fold)
       <==> forall key :: Matches(ts, true, key, 0, fold) <==> Matches(us, true, key, 0, fold)
  {
    hide Matches, Canon, NoClass, IsCanon, Normal;
    var cs, ds := Canon(ts, false, fold), Canon(us, false, fold);
    if cs == ds {
      forall key ensures Matches(ts, true, key, 0, fold) <==> Matches(us, true, key, 0, fold) {
        CanonDecides(ts, us, key, fold);
      }
    } else {
      CanonIs(ts, false, fold);
      CanonIs(us, false, fold);
      var key := Apart(cs, ds, fold);
      CanonMeans(ts, false, key, fold);
      CanonMeans(us, false, key, fold);
      assert [] + ts == ts && [] + us == us;
      assert Matches(ts, true, key, 0, fold) != Matches(us, true, key, 0, fold);
    }
  }
}
