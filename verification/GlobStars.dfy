/** Exactly when convert_glob (include/rdbparser/glob_cvt.h:34-105) keeps the meaning of a pattern. It may lose it
    in two places: the duplicate-star branch (lines 74-75) drops the second star together with the next
    character, and takes the star of an escape for a first star; and an escaped dot is emitted bare
    (lines 61-68). */
module GlobStars {
  import opened Bytes
  import opened GlobMatch
  import opened GlobSyntax
  import opened GlobCanon
  import opened GlobCvt
  import opened GlobMeaning

  // ----- the condition

  /** The loop, run on the pattern alone: k is where it is; esc tells that the character before k is an escaped
      star, lost that a star was dropped and has not been made up for, and trail that a star follows the pattern.
      A lost star is made up for by a later one with nothing but question marks between. */
  predicate Keeps(s: string, k: nat, esc: bool, lost: bool, trail: bool)
    decreases |s| - k
  {
    if k >= |s| then lost ==> trail
    else if s[k] == '\\' then
      k + 1 < |s| && !lost && s[k + 1] != '.' && Keeps(s, k + 2, s[k + 1] == '*', false, trail)
    else if DuplicateStar(s, k) then
      var lost' := esc || lost;
      if k + 1 >= |s| then lost' ==> trail
      else if s[k + 1] == '*' then Keeps(s, k + 2, false, lost', trail)
      else s[k + 1] == '\\' && !lost' && Shifted(s, k + 2, trail)
    else if s[k] == '*' then Keeps(s, k + 1, false, false, trail)
    else if s[k] == '?' then Keeps(s, k + 1, false, lost, trail)
    else if s[k] == '[' then
      match ReadClass(s[k + 1..])
      case Some(c) => !lost && Keeps(s, k + 1 + c.1, false, false, trail)
      case None => false
    else !lost && Keeps(s, k + 1, false, false, trail)
  }

  /** The same behind a dropped backslash: the loop takes the escaped character at k for a bare one. */
  predicate Shifted(s: string, k: nat, trail: bool)
    decreases |s| - k
  {
    k < |s|
    && if s[k] == '\\' then k + 1 < |s| && s[k + 1] == '\\' && Shifted(s, k + 2, trail)
       else s[k] !in "?*" && Keeps(s, k + 1, false, false, trail)
  }

  // ----- the tokens of the glob, by position

  /** The pattern is in the fragment from k on. */
  predicate Parses(s: string, k: nat) {
    k >= |s| || ParseGlob(s[k..]).Some?
  }

  function Orig(s: string, k: nat): seq<Token>
    requires Parses(s, k)
  {
    if k >= |s| then [] else ParseGlob(s[k..]).value
  }

  lemma OrigStep(s: string, k: nat)
    requires k < |s| && Parses(s, k)
    ensures NextToken(s[k..]).Some?
    ensures var t := NextToken(s[k..]).value;
      k + t.1 <= |s| && Parses(s, k + t.1) && Orig(s, k) == [t.0] + Orig(s, k + t.1)
  {
    hide NextToken;
    var t := NextToken(s[k..]).value;
    assert s[k..][t.1..] == s[k + t.1..];
  }

  lemma OrigEscape(s: string, k: nat)
    requires k < |s| && Parses(s, k) && s[k] == '\\'
    ensures k + 1 < |s| && Parses(s, k + 2) && (Plain(s[k + 1]) || s[k + 1] in "\\?*.")
    ensures Orig(s, k) == [Single(Exactly(s[k + 1]))] + Orig(s, k + 2)
  {
    hide ParseGlob;
    OrigStep(s, k);
    assert s[k..][0] == s[k];
    assert |s| > k + 1 ==> s[k..][1] == s[k + 1];
  }

  function Bare(c: char): Token {
    if c == '*' then Star else if c == '?' then Single(AnyByte) else Single(Exactly(c))
  }

  lemma OrigBare(s: string, k: nat)
    requires k < |s| && Parses(s, k) && s[k] !in "\\["
    ensures Parses(s, k + 1) && (Plain(s[k]) || s[k] in "?*.") && Orig(s, k) == [Bare(s[k])] + Orig(s, k + 1)
  {
    hide ParseGlob;
    OrigStep(s, k);
    assert s[k..][0] == s[k];
  }

  lemma OrigClass(s: string, k: nat)
    requires k < |s| && Parses(s, k) && s[k] == '['
    ensures ReadClass(s[k + 1..]).Some?
    ensures var c := ReadClass(s[k + 1..]).value;
      k + 1 + c.1 <= |s| && Parses(s, k + 1 + c.1) && Orig(s, k) == [Single(OneOf(c.0))] + Orig(s, k + 1 + c.1)
  {
    hide ParseGlob, ReadClass;
    OrigStep(s, k);
    assert s[k..][0] == s[k] && s[k..][1..] == s[k + 1..];
  }

  /** One step of the loop, by the character it is at. */
  lemma EmitBare(s: string, k: nat)
    requires k < |s| && s[k] !in "\\[" && !DuplicateStar(s, k)
    ensures Emit(s, k) == [Bare(s[k])] + Emit(s, k + 1)
    ensures (Plain(s[k]) || s[k] in "?*.") ==> (Reads(s, k) <==> Reads(s, k + 1))
  {}

  lemma EmitEscape(s: string, k: nat)
    requires k + 1 < |s| && s[k] == '\\'
    ensures Emit(s, k) == [Single(if s[k + 1] == '.' then AnyByte else Exactly(s[k + 1]))] + Emit(s, k + 2)
    ensures (Plain(s[k + 1]) || s[k + 1] in "\\?*.") ==> (Reads(s, k) <==> Reads(s, k + 2))
  {}

  lemma EmitClass(s: string, k: nat)
    requires k < |s| && s[k] == '[' && ReadClass(s[k + 1..]).Some?
    ensures var c := ReadClass(s[k + 1..]).value;
      Emit(s, k) == [Single(OneOf(c.0))] + Emit(s, k + 1 + c.1) && (Reads(s, k) <==> Reads(s, k + 1 + c.1))
  {
    hide ReadClass;
  }

  lemma EmitEnd(s: string, k: nat)
    requires k >= |s|
    ensures Emit(s, k) == [] && Reads(s, k)
  {}

  // ----- no fewer characters in the glob than in what is emitted

  predicate Simple(s: string) {
    forall c | c in s :: Plain(c) || c in "\\.?*"
  }

  lemma {:induction false} Fewer(s: string, k: nat)
    requires Simple(s) && Parses(s, k)
    ensures Singles(Emit(s, k)) <= Singles(Orig(s, k))
    ensures k < |s| && s[k] != '\\' && DuplicateStar(s, k) && k + 1 < |s| && s[k + 1] !in "\\*" ==>
      Singles(Emit(s, k)) < Singles(Orig(s, k))
    decreases |s| - k
  {
    hide Emit, Parses, Orig, Reads, Singles, ParseGlob;
    if k >= |s| {
      EmitEnd(s, k);
      NoSingles();
    } else {
      assert s[k] in s;
      if s[k] == '\\' {
        OrigEscape(s, k);
        EmitEscape(s, k);
        Fewer(s, k + 2);
        OneMore(Emit(s, k)[0], Emit(s, k + 2));
        OneMore(Orig(s, k)[0], Orig(s, k + 2));
      } else {
        OrigBare(s, k);
        OneMore(Orig(s, k)[0], Orig(s, k + 1));
        if !DuplicateStar(s, k) {
          EmitBare(s, k);
          Fewer(s, k + 1);
          OneMore(Emit(s, k)[0], Emit(s, k + 1));
        } else {
          DuplicateDropped(s, k);
          if k + 1 >= |s| {
            EmitEnd(s, k + 2);
            NoSingles();
          } else {
            assert s[k + 1] in s;
            if s[k + 1] == '\\' {
              FewerShifted(s, k + 2);
            } else {
              OrigBare(s, k + 1);
              OneMore(Orig(s, k + 1)[0], Orig(s, k + 2));
              Fewer(s, k + 2);
            }
          }
        }
      }
    }
  }

  lemma NoSingles()
    ensures Singles([]) == 0
  {}

  lemma OneMore(t: Token, rest: seq<Token>)
    ensures Singles([t] + rest) == (if t.Single? then 1 else 0) + Singles(rest)
  {
    assert ([t] + rest)[1..] == rest;
  }

  /** The same behind a dropped backslash. */
  lemma {:induction false} FewerShifted(s: string, k: nat)
    requires Simple(s) && 0 < k && k - 1 < |s| && s[k - 1] == '\\' && Parses(s, k - 1)
    ensures k < |s| && Singles(Emit(s, k)) <= Singles(Orig(s, k - 1))
    ensures s[k] == '*' || (s[k] == '\\' && k + 1 >= |s|) ==> Singles(Emit(s, k)) < Singles(Orig(s, k - 1))
    decreases |s| - k
  {
    hide Emit, Parses, Orig, Reads, Singles, ParseGlob;
    OrigEscape(s, k - 1);
    OneMore(Orig(s, k - 1)[0], Orig(s, k + 1));
    assert s[k] in s;
    if s[k] != '\\' {
      EmitBare(s, k);
      OneMore(Emit(s, k)[0], Emit(s, k + 1));
      Fewer(s, k + 1);
    } else if k + 1 >= |s| {
      NothingMore(s, k);
      NoSingles();
    } else {
      assert s[k + 1] in s;
      EmitEscape(s, k);
      OneMore(Emit(s, k)[0], Emit(s, k + 2));
      if s[k + 1] == '\\' {
        FewerShifted(s, k + 2);
      } else {
        OrigBare(s, k + 1);
        OneMore(Orig(s, k + 1)[0], Orig(s, k + 2));
        Fewer(s, k + 2);
      }
    }
  }

  // ----- the canonical forms agree exactly if the loop keeps the meaning

  function Trail(trail: bool): seq<Token> { if trail then [Star] else [] }

  /** From k on, the glob with a star before it and the emitted tokens with one before them have the same
      canonical form. */
  predicate Agree(s: string, k: nat, glob: bool, emitted: bool, trail: bool, fold: bool)
    requires Parses(s, k)
  {
    Canon(Orig(s, k) + Trail(trail), glob, fold) == Canon(Emit(s, k) + Trail(trail), emitted, fold)
  }

  lemma CanonCons(t: Token, rest: seq<Token>, open: bool, fold: bool)
    ensures Canon([t] + rest, open, fold) ==
      match t
      case Star => Canon(rest, true, fold)
      case Single(one) =>
        if one == AnyByte then [t] + Canon(rest, open, fold)
        else Stars(open) + [Single(Norm(one, fold))] + Canon(rest, false, fold)
  {
    assert ([t] + rest)[1..] == rest;
  }

  lemma CanonEnd(trail: bool, open: bool, fold: bool)
    ensures Canon([] + Trail(trail), open, fold) == Stars(open || trail)
  {
    if trail {
      assert [] + [Star] == [Star] && [Star][1..] == [];
    }
  }

  /** A form with fewer characters is another form. */
  lemma CountApart(a: seq<Token>, b: seq<Token>, glob: bool, emitted: bool, trail: bool, fold: bool)
    requires NoClass(a) && NoClass(b) && Singles(a) != Singles(b)
    ensures Canon(a + Trail(trail), glob, fold) != Canon(b + Trail(trail), emitted, fold)
  {
    SinglesConcat(a, Trail(trail));
    SinglesConcat(b, Trail(trail));
    CanonIs(a + Trail(trail), glob, fold);
    CanonIs(b + Trail(trail), emitted, fold);
  }

  lemma {:induction false} OrigNoClass(s: string, k: nat)
    requires Simple(s) && Parses(s, k)
    ensures NoClass(Orig(s, k))
    decreases |s| - k
  {
    hide Parses, Orig, ParseGlob;
    if k >= |s| {
      OrigEnd(s, k);
    } else {
      assert s[k] in s;
      if s[k] == '\\' {
        OrigEscape(s, k);
        OrigNoClass(s, k + 2);
      } else {
        OrigBare(s, k);
        OrigNoClass(s, k + 1);
      }
    }
  }

  lemma OrigEnd(s: string, k: nat)
    requires k >= |s|
    ensures Parses(s, k) && Orig(s, k) == []
  {}

  lemma {:induction false} EmitNoClass(s: string, k: nat)
    requires Simple(s)
    ensures NoClass(Emit(s, k)) && Reads(s, k)
    decreases |s| - k
  {
    if k < |s| {
      assert s[k] in s;
      assert k + 1 < |s| ==> s[k + 1] in s;
      if s[k] == '\\' {
        if k + 1 < |s| {
          EmitNoClass(s, k + 2);
        }
      } else if DuplicateStar(s, k) {
        EmitNoClass(s, k + 2);
      } else {
        EmitNoClass(s, k + 1);
      }
    }
  }

  /** What is known in front of position k: after an escaped star nothing is open, and after another star the glob
      is; nothing is lost where the emitted tokens are open. */
  predicate At(s: string, k: nat, esc: bool, emitted: bool, lost: bool) {
    (lost ==> !emitted) && (esc ==> !emitted && !lost)
    && (0 < k < |s| && s[k - 1] == '*' && !esc ==> emitted || lost)
  }

  /** The condition is enough, and without classes it is needed. */
  predicate Exact(keeps: bool, agree: bool, simple: bool) {
    (keeps ==> agree) && (simple && !keeps ==> !agree)
  }

  lemma {:induction false} KeepsExactly(s: string, k: nat, esc: bool, emitted: bool, lost: bool, trail: bool, fold: bool)
    requires Parses(s, k) && At(s, k, esc, emitted, lost)
    ensures Exact(Keeps(s, k, esc, lost, trail), Agree(s, k, emitted || lost, emitted, trail, fold), Simple(s))
    decreases |s| - k, 2
  {
    hide Keeps, Emit, Parses, Orig, Canon, Agree, Simple;
    if k >= |s| {
      AtEnd(s, k, esc, emitted, lost, trail, fold);
    } else if s[k] == '\\' {
      OrigEscape(s, k);
      KeepsExactly(s, k + 2, s[k + 1] == '*', false, false, trail, fold);
      EscapeExactly(s, k, esc, emitted, lost, trail, fold);
    } else if DuplicateStar(s, k) {
      DuplicateExactly(s, k, esc, emitted, lost, trail, fold);
    } else if s[k] == '[' {
      OrigClass(s, k);
      ClassEnd(s, k);
      KeepsExactly(s, k + 1 + ReadClass(s[k + 1..]).value.1, false, false, false, trail, fold);
      ClassExactly(s, k, esc, emitted, lost, trail, fold);
    } else {
      OrigBare(s, k);
      var open := s[k] == '*' || (s[k] == '?' && emitted);
      KeepsExactly(s, k + 1, false, open, s[k] == '?' && lost, trail, fold);
      BareExactly(s, k, esc, emitted, lost, trail, fold);
    }
  }

  lemma ClassEnd(s: string, k: nat)
    requires k < |s| && ReadClass(s[k + 1..]).Some?
    ensures s[k + ReadClass(s[k + 1..]).value.1] == ']'
  {
    hide ReadClass;
    ClassText(s[k + 1..]);
  }

  lemma AtEnd(s: string, k: nat, esc: bool, emitted: bool, lost: bool, trail: bool, fold: bool)
    requires k >= |s| && Parses(s, k) && (lost ==> !emitted)
    ensures Keeps(s, k, esc, lost, trail) <==> Agree(s, k, emitted || lost, emitted, trail, fold)
  {
    CanonEnd(trail, emitted || lost, fold);
    CanonEnd(trail, emitted, fold);
  }

  /** Two tokens at the same place, and what is behind them. */
  lemma Heads(t: Token, a: seq<Token>, glob: bool, u: Token, b: seq<Token>, emitted: bool, trail: bool, fold: bool)
    ensures [t] + a + Trail(trail) == [t] + (a + Trail(trail)) && [u] + b + Trail(trail) == [u] + (b + Trail(trail))
    ensures t == u && t.Single? && t.one != AnyByte ==>
      (Canon([t] + a + Trail(trail), glob, fold) == Canon([u] + b + Trail(trail), emitted, fold)
       <==> glob == emitted && Canon(a + Trail(trail), false, fold) == Canon(b + Trail(trail), false, fold))
    ensures t == u == Single(AnyByte) ==>
      (Canon([t] + a + Trail(trail), glob, fold) == Canon([u] + b + Trail(trail), emitted, fold)
       <==> Canon(a + Trail(trail), glob, fold) == Canon(b + Trail(trail), emitted, fold))
    ensures t == u == Star ==>
      (Canon([t] + a + Trail(trail), glob, fold) == Canon([u] + b + Trail(trail), emitted, fold)
       <==> Canon(a + Trail(trail), true, fold) == Canon(b + Trail(trail), true, fold))
    ensures t.Single? && u.Single? && Norm(t.one, fold) != Norm(u.one, fold) ==>
      Canon([t] + a + Trail(trail), glob, fold) != Canon([u] + b + Trail(trail), emitted, fold)
  {
    hide Norm;
    assert [t] + a + Trail(trail) == [t] + (a + Trail(trail)) && [u] + b + Trail(trail) == [u] + (b + Trail(trail));
    CanonCons(t, a + Trail(trail), glob, fold);
    CanonCons(u, b + Trail(trail), emitted, fold);
    hide Canon;
    var x, y := Canon(a + Trail(trail), false, fold), Canon(b + Trail(trail), false, fold);
    if t.Single? && u.Single? && t.one != AnyByte && u.one != AnyByte {
      Prefixed(glob, Single(Norm(t.one, fold)), x, emitted, Single(Norm(u.one, fold)), y);
    }
    NormAny(fold);
    var x', y' := Canon(a + Trail(trail), glob, fold), Canon(b + Trail(trail), emitted, fold);
    if t == u == Single(AnyByte) && [t] + x' == [u] + y' {
      assert ([t] + x')[1..] == x' && ([u] + y')[1..] == y';
    }
  }

  lemma NormAny(fold: bool)
    ensures Norm(AnyByte, fold) == AnyByte
  {}

  lemma Prefixed(g: bool, t: Token, x: seq<Token>, e: bool, u: Token, y: seq<Token>)
    requires t.Single? && u.Single?
    ensures Stars(g) + [t] + x == Stars(e) + [u] + y <==> g == e && t == u && x == y
  {
    var l, r := Stars(g) + [t] + x, Stars(e) + [u] + y;
    if l == r {
      assert l[0] == r[0];
      assert g == e;
      assert l[|Stars(g)|] == t && r[|Stars(e)|] == u;
      assert l[|Stars(g)| + 1..] == x && r[|Stars(e)| + 1..] == y;
    }
  }

  lemma EscapeExactly(s: string, k: nat, esc: bool, emitted: bool, lost: bool, trail: bool, fold: bool)
    requires k + 1 < |s| && Parses(s, k) && s[k] == '\\' && (lost ==> !emitted) && Parses(s, k + 2)
    requires Exact(Keeps(s, k + 2, s[k + 1] == '*', false, trail), Agree(s, k + 2, false, false, trail, fold), Simple(s))
    ensures Exact(Keeps(s, k, esc, lost, trail), Agree(s, k, emitted || lost, emitted, trail, fold), Simple(s))
  {
    hide Emit, Parses, Orig, Canon, Simple, ParseGlob;
    OrigEscape(s, k);
    EmitEscape(s, k);
    Heads(Single(Exactly(s[k + 1])), Orig(s, k + 2), emitted || lost,
      Single(if s[k + 1] == '.' then AnyByte else Exactly(s[k + 1])), Emit(s, k + 2), emitted, trail, fold);
  }

  lemma ClassExactly(s: string, k: nat, esc: bool, emitted: bool, lost: bool, trail: bool, fold: bool)
    requires k < |s| && Parses(s, k) && s[k] == '[' && (lost ==> !emitted) && ReadClass(s[k + 1..]).Some?
    requires var n := k + 1 + ReadClass(s[k + 1..]).value.1;
      Parses(s, n) && Exact(Keeps(s, n, false, false, trail), Agree(s, n, false, false, trail, fold), Simple(s))
    ensures Exact(Keeps(s, k, esc, lost, trail), Agree(s, k, emitted || lost, emitted, trail, fold), Simple(s))
  {
    hide Emit, Parses, Orig, Canon, ParseGlob, ReadClass;
    assert s[k] in s;
    OrigClass(s, k);
    EmitClass(s, k);
    var c := ReadClass(s[k + 1..]).value;
    Heads(Single(OneOf(c.0)), Orig(s, k + 1 + c.1), emitted || lost, Single(OneOf(c.0)), Emit(s, k + 1 + c.1), emitted,
      trail, fold);
  }

  lemma BareExactly(s: string, k: nat, esc: bool, emitted: bool, lost: bool, trail: bool, fold: bool)
    requires k < |s| && Parses(s, k) && s[k] !in "\\[" && !DuplicateStar(s, k) && (lost ==> !emitted) && Parses(s, k + 1)
    requires var open, lost' := s[k] == '*' || (s[k] == '?' && emitted), s[k] == '?' && lost;
      Exact(Keeps(s, k + 1, false, lost', trail), Agree(s, k + 1, open || lost', open, trail, fold), Simple(s))
    ensures Exact(Keeps(s, k, esc, lost, trail), Agree(s, k, emitted || lost, emitted, trail, fold), Simple(s))
  {
    hide Emit, Parses, Orig, Canon, Simple, ParseGlob;
    OrigBare(s, k);
    EmitBare(s, k);
    Heads(Bare(s[k]), Orig(s, k + 1), emitted || lost, Bare(s[k]), Emit(s, k + 1), emitted, trail, fold);
  }

  /** A star that is dropped leaves the glob open. */
  lemma StarOpensGlob(a: seq<Token>, glob: bool, trail: bool, fold: bool)
    ensures Canon([Star] + a + Trail(trail), glob, fold) == Canon(a + Trail(trail), true, fold)
  {
    assert [Star] + a + Trail(trail) == [Star] + (a + Trail(trail));
    CanonCons(Star, a + Trail(trail), glob, fold);
  }

  lemma {:induction false} DuplicateExactly(s: string, k: nat, esc: bool, emitted: bool, lost: bool, trail: bool, fold: bool)
    requires k < |s| && Parses(s, k) && s[k] != '\\' && DuplicateStar(s, k) && At(s, k, esc, emitted, lost)
    ensures Exact(Keeps(s, k, esc, lost, trail), Agree(s, k, emitted || lost, emitted, trail, fold), Simple(s))
    decreases |s| - k, 1
  {
    hide Keeps, Emit, Parses, Orig, Canon, Simple, ParseGlob, Shifted;
    OrigBare(s, k);
    DuplicateDropped(s, k);
    StarOpensGlob(Orig(s, k + 1), emitted || lost, trail, fold);
    var lost' := esc || lost;
    assert emitted || lost';
    KeepsDuplicate(s, k, esc, lost, trail);
    if k + 1 >= |s| {
      OrigEnd(s, k + 1);
      EmitEnd(s, k + 2);
      CanonEnd(trail, true, fold);
      CanonEnd(trail, emitted, fold);
    } else if s[k + 1] == '*' {
      OrigBare(s, k + 1);
      StarOpensGlob(Orig(s, k + 2), true, trail, fold);
      KeepsExactly(s, k + 2, false, emitted, lost', trail, fold);
    } else if s[k + 1] == '\\' {
      OrigEscape(s, k + 1);
      ShiftedExactly(s, k + 2, true, emitted, trail, fold);
    } else if Simple(s) {
      Fewer(s, k);
      OrigNoClass(s, k);
      EmitNoClass(s, k);
      CountApart(Orig(s, k), Emit(s, k), emitted || lost, emitted, trail, fold);
    }
  }

  lemma KeepsDuplicate(s: string, k: nat, esc: bool, lost: bool, trail: bool)
    requires k < |s| && s[k] != '\\' && DuplicateStar(s, k)
    ensures var lost' := esc || lost;
      Keeps(s, k, esc, lost, trail) ==
        if k + 1 >= |s| then lost' ==> trail
        else if s[k + 1] == '*' then Keeps(s, k + 2, false, lost', trail)
        else s[k + 1] == '\\' && !lost' && Shifted(s, k + 2, trail)
  {
    hide Shifted;
  }

  /** Behind a dropped backslash the glob is at k - 1, the loop at k. */
  lemma {:induction false} ShiftedExactly(s: string, k: nat, glob: bool, emitted: bool, trail: bool, fold: bool)
    requires 0 < k < |s| && s[k - 1] == '\\' && Parses(s, k - 1) && (emitted ==> glob)
    ensures Exact(glob == emitted && Shifted(s, k, trail),
      Canon(Orig(s, k - 1) + Trail(trail), glob, fold) == Canon(Emit(s, k) + Trail(trail), emitted, fold), Simple(s))
    decreases |s| - k, 0
  {
    hide Keeps, Emit, Parses, Orig, Canon, Simple, ParseGlob, Shifted, Norm;
    OrigEscape(s, k - 1);
    ShiftedStep(s, k, trail);
    if Simple(s) {
      FewerShifted(s, k);
      OrigNoClass(s, k - 1);
      EmitNoClass(s, k);
    }
    if s[k] == '*' || (s[k] == '\\' && k + 1 >= |s|) {
      if Simple(s) {
        CountApart(Orig(s, k - 1), Emit(s, k), glob, emitted, trail, fold);
      }
    } else if s[k] != '\\' {
      EmitBare(s, k);
      Heads(Single(Exactly(s[k])), Orig(s, k + 1), glob, Bare(s[k]), Emit(s, k + 1), emitted, trail, fold);
      NormApart(s[k], AnyByte, fold);
      KeepsExactly(s, k + 1, false, false, false, trail, fold);
    } else {
      EmitEscape(s, k);
      var one := if s[k + 1] == '.' then AnyByte else Exactly(s[k + 1]);
      Heads(Single(Exactly('\\')), Orig(s, k + 1), glob, Single(one), Emit(s, k + 2), emitted, trail, fold);
      if s[k + 1] == '\\' {
        OrigEscape(s, k + 1);
        ShiftedExactly(s, k + 2, false, false, trail, fold);
      } else {
        NormApart('\\', one, fold);
      }
    }
  }

  lemma NormApart(c: char, one: One, fold: bool)
    requires one == AnyByte || (c == '\\' && one.Exactly? && one.c != '\\')
    ensures Norm(Exactly(c), fold) != Norm(one, fold)
  {}

  lemma ShiftedStep(s: string, k: nat, trail: bool)
    requires k < |s|
    ensures Shifted(s, k, trail) ==
      if s[k] == '\\' then k + 1 < |s| && s[k + 1] == '\\' && Shifted(s, k + 2, trail)
      else s[k] !in "?*" && Keeps(s, k + 1, false, false, trail)
  {
    hide Keeps;
  }

  // ----- what the loop keeps, it can read

  lemma {:induction false} KeepsReads(s: string, k: nat, esc: bool, lost: bool, trail: bool)
    requires Parses(s, k) && Keeps(s, k, esc, lost, trail)
    ensures Reads(s, k)
    decreases |s| - k
  {
    hide Emit, Parses, Orig, ParseGlob, Reads, ReadClass, Shifted, Keeps;
    if k >= |s| {
      EmitEnd(s, k);
    } else {
      KeepsStep(s, k, esc, lost, trail);
      if s[k] == '\\' {
        OrigEscape(s, k);
        EmitEscape(s, k);
        KeepsReads(s, k + 2, s[k + 1] == '*', false, trail);
      } else if DuplicateStar(s, k) {
        DuplicateDropped(s, k);
        OrigBare(s, k);
        if k + 1 >= |s| {
          EmitEnd(s, k + 2);
        } else if s[k + 1] == '*' {
          OrigBare(s, k + 1);
          KeepsReads(s, k + 2, false, esc || lost, trail);
        } else {
          ShiftedReads(s, k + 2, trail);
        }
      } else if s[k] == '[' {
        OrigClass(s, k);
        EmitClass(s, k);
        KeepsReads(s, k + 1 + ReadClass(s[k + 1..]).value.1, false, false, trail);
      } else {
        OrigBare(s, k);
        EmitBare(s, k);
        KeepsReads(s, k + 1, false, s[k] == '?' && lost, trail);
      }
    }
  }

  lemma KeepsStep(s: string, k: nat, esc: bool, lost: bool, trail: bool)
    requires k < |s| && Keeps(s, k, esc, lost, trail)
    ensures s[k] == '\\' ==> k + 1 < |s| && Keeps(s, k + 2, s[k + 1] == '*', false, trail)
    ensures s[k] != '\\' && DuplicateStar(s, k) && k + 1 < |s| ==>
      if s[k + 1] == '*' then Keeps(s, k + 2, false, esc || lost, trail) else s[k + 1] == '\\' && Shifted(s, k + 2, trail)
    ensures s[k] == '[' ==>
      ReadClass(s[k + 1..]).Some? && Keeps(s, k + 1 + ReadClass(s[k + 1..]).value.1, false, false, trail)
    ensures s[k] !in "\\[" && !DuplicateStar(s, k) ==> Keeps(s, k + 1, false, s[k] == '?' && lost, trail)
  {
    hide ReadClass, Shifted;
  }

  lemma {:induction false} ShiftedReads(s: string, k: nat, trail: bool)
    requires 0 < k && k - 1 < |s| && s[k - 1] == '\\' && Parses(s, k - 1) && Shifted(s, k, trail)
    ensures Reads(s, k)
    decreases |s| - k
  {
    hide Emit, Parses, Orig, ParseGlob, Reads, Keeps, Shifted;
    OrigEscape(s, k - 1);
    ShiftedStep(s, k, trail);
    if s[k] == '\\' {
      EmitEscape(s, k);
      OrigEscape(s, k + 1);
      ShiftedReads(s, k + 2, trail);
    } else {
      EmitBare(s, k);
      KeepsReads(s, k + 1, false, false, trail);
    }
  }

  // ----- the exact condition

  /** The pattern means, once translated, what it means as a glob. */
  ghost predicate Preserved(p: string, caseins: bool) {
    var re := CompileRegex(Translation(p, true, caseins));
    re.Some? && ParseGlob(p).Some?
    && forall key :: RegexAccepts(re.value, key) <==> GlobAccepts(ParseGlob(p).value, key, caseins)
  }

  /** What convert_glob keeps of the meaning of a pattern. */
  predicate KeepsMeaning(p: string) {
    p != "" && Keeps(Cut(p), Start(p), false, false, DropsTrailing(p))
  }

  /** The glob, with the outer stars taken off. */
  lemma OuterStars(p: string)
    requires p != "" && ParseGlob(p).Some?
    ensures Parses(Cut(p), Start(p))
    ensures ParseGlob(p).value == Stars(LeadingStar(p)) + (Orig(Cut(p), Start(p)) + Trail(DropsTrailing(p)))
  {
    hide ParseGlob, Orig;
    var cut := Cut(p);
    if DropsTrailing(p) {
      assert p == cut + "*";
      CutEnd(p);
      ParseTrailingStar(cut);
    }
    var whole := if cut == "" then [] else ParseGlob(cut).value;
    NoPattern();
    assert cut[0..] == cut;
    assert ParseGlob(p).value == whole + Trail(DropsTrailing(p));
    OrigAll(cut);
    if LeadingStar(p) {
      OrigBare(cut, 0);
      assert whole == [Star] + Orig(cut, 1);
      assert [Star] + Orig(cut, 1) + Trail(DropsTrailing(p)) == [Star] + (Orig(cut, 1) + Trail(DropsTrailing(p)));
    } else {
      assert [] + (whole + Trail(DropsTrailing(p))) == whole + Trail(DropsTrailing(p));
    }
  }

  lemma NoPattern()
    ensures ParseGlob("") == Some([])
  {}

  lemma OrigAll(s: string)
    requires ParseGlob(s).Some?
    ensures Parses(s, 0) && Orig(s, 0) == ParseGlob(s).value
  {
    assert s[0..] == s;
  }

  lemma CutEnd(p: string)
    requires DropsTrailing(p)
    ensures Cut(p) != "" ==> Cut(p)[|Cut(p)| - 1] != '\\'
  {}

  lemma CanonOuter(stars: bool, ts: seq<Token>, fold: bool)
    ensures Canon(Stars(stars) + ts, false, fold) == Canon(ts, stars, fold)
  {
    if stars {
      CanonCons(Star, ts, false, fold);
    } else {
      assert [] + ts == ts;
    }
  }

  /** The glob and the translated one have the same canonical form exactly if the loop keeps the meaning. */
  lemma FormsExactly(p: string, fold: bool)
    requires p != "" && ParseGlob(p).Some?
    ensures Exact(KeepsMeaning(p), Canon(ParseGlob(p).value, false, fold) == Canon(TranslatedGlob(p, true), false, fold),
      Simple(Cut(p)))
  {
    hide ParseGlob, Orig, Emit, Canon, Keeps, Simple;
    OuterStars(p);
    var cut, k, star, trail := Cut(p), Start(p), LeadingStar(p), DropsTrailing(p);
    KeepsExactly(cut, k, false, star, false, trail, fold);
    CanonOuter(star, Orig(cut, k) + Trail(trail), fold);
    CanonOuter(star, Emit(cut, k) + Trail(trail), fold);
    assert Stars(star) + Emit(cut, k) + Trail(trail) == Stars(star) + (Emit(cut, k) + Trail(trail));
  }

  /** The translation preserves meaning: for every glob of the fragment, classes included, on which the condition
      holds, the emitted pattern accepts a key exactly when the glob does. */
  lemma GlobPreserved(p: string, caseins: bool, key: string)
    requires ParseGlob(p).Some? && KeepsMeaning(p)
    ensures CompileRegex(Translation(p, true, caseins)).Some?
    ensures RegexAccepts(CompileRegex(Translation(p, true, caseins)).value, key)
       <==> GlobAccepts(ParseGlob(p).value, key, caseins)
  {
    hide ParseGlob, CompileRegex, Translation, Canon, Matches, Search, TranslatedGlob, Keeps, Parses, Orig;
    OuterStars(p);
    KeepsReads(Cut(p), Start(p), false, false, DropsTrailing(p));
    FormsExactly(p, caseins);
    TranslationMeaning(p, true, caseins, key);
    CanonDecides(ParseGlob(p).value, TranslatedGlob(p, true), key, caseins);
  }

  /** A glob of the fragment without a bracket has no class. */
  lemma {:induction false} ParsedSimple(p: string)
    requires ParseGlob(p).Some? && '[' !in p
    ensures Simple(p)
    decreases |p|
  {
    hide ReadClass;
    if p != "" {
      var n := NextToken(p).value.1;
      assert p == p[..n] + p[n..];
      assert p[0] in p;
      ParsedSimple(p[n..]);
      forall c | c in p ensures Plain(c) || c in "\\.?*" {
        if c !in p[n..] {
          assert c in p[..n];
        }
      }
    }
  }

  lemma CutSimple(p: string)
    requires Simple(p)
    ensures Simple(Cut(p))
  {
    forall c | c in Cut(p) ensures c in p {
      var i :| 0 <= i < |Cut(p)| && Cut(p)[i] == c;
      assert p[i] == c;
    }
  }

  lemma TranslatedNoClass(p: string)
    requires p != "" && Simple(p) && ParseGlob(p).Some?
    ensures NoClass(ParseGlob(p).value) && NoClass(TranslatedGlob(p, true)) && Readable(p)
  {
    hide ParseGlob, Orig, Emit, Simple;
    OuterStars(p);
    CutSimple(p);
    OrigNoClass(Cut(p), Start(p));
    EmitNoClass(Cut(p), Start(p));
  }

  /** Where the condition fails, some key tells the emitted pattern from the glob. */
  lemma MeaningLost(p: string, caseins: bool)
    requires ParseGlob(p).Some? && '[' !in p && !KeepsMeaning(p)
    ensures !Preserved(p, caseins)
  {
    hide ParseGlob, CompileRegex, Translation, Canon, Matches, Search, TranslatedGlob, Keeps, NoClass, Simple, Emit;
    if p == "" {
      EmptyLost(caseins);
    } else {
      ParsedSimple(p);
      CutSimple(p);
      TranslatedNoClass(p);
      FormsExactly(p, caseins);
      SameMeaning(ParseGlob(p).value, TranslatedGlob(p, true), caseins);
      var key :| Matches(ParseGlob(p).value, true, key, 0, caseins) != Matches(TranslatedGlob(p, true), true, key, 0, caseins);
      TranslationMeaning(p, true, caseins, key);
      assert RegexAccepts(CompileRegex(Translation(p, true, caseins)).value, key)
          != GlobAccepts(ParseGlob(p).value, key, caseins);
    }
  }

  /** For every glob of the fragment without classes, translation preserves the meaning if and only if the
      condition holds. */
  lemma PreservedExactly(p: string, caseins: bool)
    requires ParseGlob(p).Some? && '[' !in p
    ensures Preserved(p, caseins) <==> KeepsMeaning(p)
  {
    hide ParseGlob, CompileRegex, Translation, Search, Keeps;
    if KeepsMeaning(p) {
      GlobPreserved(p, caseins, "");
      forall key
        ensures RegexAccepts(CompileRegex(Translation(p, true, caseins)).value, key)
           <==> GlobAccepts(ParseGlob(p).value, key, caseins)
      {
        GlobPreserved(p, caseins, key);
      }
    } else {
      MeaningLost(p, caseins);
    }
  }

  /** No star right behind a star and no dot right behind a backslash. */
  predicate Ordinary(s: string) {
    forall i | 0 < i < |s| :: (s[i] == '*' ==> s[i - 1] != '*') && (s[i] == '.' ==> s[i - 1] != '\\')
  }

  /** On such globs the condition holds. */
  lemma {:induction false} OrdinaryKept(s: string, k: nat, esc: bool, trail: bool)
    requires Ordinary(s) && Parses(s, k)
    ensures Keeps(s, k, esc, false, trail)
    decreases |s| - k
  {
    hide ParseGlob, Parses, Orig, ReadClass;
    if k < |s| {
      if s[k] == '\\' {
        OrigEscape(s, k);
        OrdinaryKept(s, k + 2, s[k + 1] == '*', trail);
      } else if s[k] == '[' {
        OrigClass(s, k);
        OrdinaryKept(s, k + 1 + ReadClass(s[k + 1..]).value.1, false, trail);
      } else {
        OrigBare(s, k);
        OrdinaryKept(s, k + 1, false, trail);
      }
    }
  }

  lemma OrdinaryPreserved(p: string, caseins: bool, key: string)
    requires p != "" && ParseGlob(p).Some? && Ordinary(Cut(p))
    ensures KeepsMeaning(p) && CompileRegex(Translation(p, true, caseins)).Some?
    ensures RegexAccepts(CompileRegex(Translation(p, true, caseins)).value, key)
       <==> GlobAccepts(ParseGlob(p).value, key, caseins)
  {
    hide ParseGlob, Parses, Orig, Keeps, CompileRegex, Translation, Search, Matches, Ordinary;
    OuterStars(p);
    OrdinaryKept(Cut(p), Start(p), false, DropsTrailing(p));
    GlobPreserved(p, caseins, key);
  }

  // ----- examples

  /** An empty pattern translates to options alone, which accept every key. */
  lemma EmptyPattern(caseins: bool, key: string)
    ensures CompileRegex(Translation("", true, caseins)) == Some(Regex(caseins, []))
    ensures RegexAccepts(Regex(caseins, []), key)
  {
    CompilesOptions("", caseins);
  }

  lemma EmptyLost(caseins: bool)
    ensures !Preserved("", caseins)
  {
    EmptyPattern(caseins, "a");
    assert !GlobAccepts([], "a", caseins);
  }

  lemma EscapedDotText(caseins: bool)
    ensures Translation("\\.", true, caseins) == Options(caseins) + ("\\A" + ("." + "\\z"))
  {
    hide Options;
    assert Body("\\.", 2, false) == "" && Body("\\.", 0, false) == ".";
    assert Options(caseins) + "\\A" + ("." + "\\z") == Options(caseins) + ("\\A" + ("." + "\\z"));
  }

  lemma EscapedDotItems()
    ensures ParseRegex("\\A" + ("." + "\\z")) == Some([AnchorStart, Item.One(AnyByte), AnchorEnd])
  {
    hide ParseRegex, Compile;
    EndAnchorItems(true);
    CompileEnd();
    TokenItems(Single(AnyByte), ".", "\\z");
    AnchorText(true, "." + "\\z");
    assert AnchorItems(true) + (ItemsOf(Single(AnyByte)) + [AnchorEnd]) == [AnchorStart, Item.One(AnyByte), AnchorEnd];
  }

  lemma CompileEnd()
    ensures Compile([], true) == [AnchorEnd]
  {}

  lemma OneByteRun(c: char, fold: bool)
    ensures Run([AnchorStart, Item.One(AnyByte), AnchorEnd], [c], 0, fold) == Matched
  {
    var items := [AnchorStart, Item.One(AnyByte), AnchorEnd];
    assert items[1..] == [Item.One(AnyByte), AnchorEnd] && items[1..][1..] == [AnchorEnd] && [AnchorEnd][1..] == [];
    assert Run([AnchorEnd], [c], 1, fold) == Matched;
    assert Run(items[1..], [c], 0, fold) == Matched;
  }

  /** An escaped dot is emitted as a bare one: the pattern for a single dot accepts every key of one character. */
  lemma EscapedDot(caseins: bool, c: char)
    ensures CompileRegex(Translation("\\.", true, caseins)).Some?
    ensures RegexAccepts(CompileRegex(Translation("\\.", true, caseins)).value, [c])
  {
    hide CompileRegex, ParseRegex, Translation, Options, Run;
    EscapedDotText(caseins);
    EscapedDotItems();
    CompilesOptions("\\A" + ("." + "\\z"), caseins);
    OneByteRun(c, caseins);
  }

  lemma ParseOne(t: Token, text: string, rest: string)
    requires text != "" && NextToken(text + rest) == Some((t, |text|)) && ParseGlob(rest).Some?
    ensures ParseGlob(text + rest) == Some([t] + ParseGlob(rest).value)
  {
    assert (text + rest)[|text|..] == rest;
  }

  lemma EscapedStarParses()
    ensures ParseGlob("\\**a") == Some([Single(Exactly('*')), Star, Single(Exactly('a'))])
  {
    hide ParseGlob;
    NoPattern();
    ParseOne(Single(Exactly('a')), "a", "");
    assert "a" + "" == "a" && "*" + "a" == "*a" && "\\*" + "*a" == "\\**a";
    ParseOne(Star, "*", "a");
    ParseOne(Single(Exactly('*')), "\\*", "*a");
    assert [Single(Exactly('*'))] + ([Star] + ([Single(Exactly('a'))] + []))
        == [Single(Exactly('*')), Star, Single(Exactly('a'))];
  }

  /** The star of an escape counts as a first star: the real star and the character behind it are dropped. */
  lemma EscapedStar(caseins: bool)
    ensures ParseGlob("\\**a") == Some([Single(Exactly('*')), Star, Single(Exactly('a'))])
    ensures TranslatedGlob("\\**a", true) == [Single(Exactly('*'))]
    ensures !Preserved("\\**a", caseins)
  {
    hide ParseGlob, Preserved;
    var p := "\\**a";
    EscapedStarParses();
    assert Emit(p, 4) == [] && Emit(p, 2) == Emit(p, 4) && Emit(p, 0) == [Single(Exactly('*'))] + Emit(p, 2);
    assert !Keeps(p, 2, true, false, false) && !Keeps(p, 0, false, false, false);
    PreservedExactly(p, caseins);
  }

  lemma BackslashParses()
    ensures ParseGlob("a**\\b") == Some([Single(Exactly('a')), Star, Star, Single(Exactly('b'))])
  {
    hide ParseGlob;
    NoPattern();
    assert "\\b" + "" == "\\b" && "*" + "\\b" == "*\\b" && "*" + "*\\b" == "**\\b" && "a" + "**\\b" == "a**\\b";
    ParseOne(Single(Exactly('b')), "\\b", "");
    ParseOne(Star, "*", "\\b");
    ParseOne(Star, "*", "*\\b");
    ParseOne(Single(Exactly('a')), "a", "**\\b");
    assert [Single(Exactly('a'))] + ([Star] + ([Star] + ([Single(Exactly('b'))] + [])))
        == [Single(Exactly('a')), Star, Star, Single(Exactly('b'))];
  }

  lemma BackslashKept()
    ensures KeepsMeaning("a**\\b")
  {
    var p := "a**\\b";
    assert Keeps(p, 5, false, false, false);
    assert Shifted(p, 4, false);
    assert Keeps(p, 2, false, false, false);
    assert Keeps(p, 1, false, false, false);
  }

  /** Two stars and an escaped letter: only the backslash is dropped, and nothing is lost. */
  lemma BackslashDropped(caseins: bool)
    ensures ParseGlob("a**\\b") == Some([Single(Exactly('a')), Star, Star, Single(Exactly('b'))])
    ensures TranslatedGlob("a**\\b", true) == [Single(Exactly('a')), Star, Single(Exactly('b'))]
    ensures Preserved("a**\\b", caseins)
  {
    hide ParseGlob, Preserved, KeepsMeaning, Keeps;
    var p := "a**\\b";
    BackslashParses();
    BackslashKept();
    assert Emit(p, 5) == [] && Emit(p, 4) == [Single(Exactly('b'))] + Emit(p, 5) && Emit(p, 2) == Emit(p, 4);
    assert Emit(p, 1) == [Star] + Emit(p, 2) && Emit(p, 0) == [Single(Exactly('a'))] + Emit(p, 1);
    PreservedExactly(p, caseins);
  }
}
