/** GlobCvt::convert_glob (include/rdbparser/glob_cvt.h) and the meaning of what it emits. */
module GlobCvt {
  import opened Bytes
  import opened GlobMatch
  import opened GlobSyntax

  // ----- the full translation, whether or not it fits the output buffer

  function Escaped(c: char): string {
    if c in "\\?*" then ['\\', c] else [c]
  }

  predicate DuplicateStar(p: string, k: nat)
    requires k < |p|
  {
    p[k] == '*' && k > 0 && p[k - 1] == '*'
  }

  /** One pass of the loop at k: what it emits, and where and in which state it goes on. */
  function Pass(p: string, k: nat, inside: bool): (r: (string, nat, bool))
    requires k < |p|
    ensures r.1 > k
  {
    if p[k] == '\\' then
      if k + 1 < |p| then (Escaped(p[k + 1]), k + 2, inside) else ("", k + 1, inside)
    else if inside then ([p[k]], k + 1, p[k] != ']')
    else if DuplicateStar(p, k) then ("", k + 2, false)
    else if p[k] == '*' then (COMMIT + LAZY, k + 1, false)
    else if p[k] == '?' then (".", k + 1, false)
    else if p[k] == '.' then ("\\.", k + 1, false)
    else ([p[k]], k + 1, p[k] == '[')
  }

  /** What the loop emits for p from k on. */
  function Body(p: string, k: nat, inside: bool): string
    decreases |p| - k
  {
    if k >= |p| then ""
    else
      var pass := Pass(p, k, inside);
      pass.0 + Body(p, pass.1, pass.2)
  }

  lemma Assoc(a: string, b: string, c: string)
    ensures a + b + c == a + (b + c)
    ensures a + "" == a && "" + a == a
  {
  }

  predicate LeadingStar(p: string) { p != "" && p[0] == '*' }

  /** The trailing star is dropped, with the end anchor, unless a backslash stands before it. */
  predicate DropsTrailing(p: string) {
    |p| > (if LeadingStar(p) then 1 else 0) && p[|p| - 1] == '*' && (|p| == 1 || p[|p| - 2] != '\\')
  }

  /** The part of the pattern the loop sees ends here. */
  function Cut(p: string): string {
    if DropsTrailing(p) then p[..|p| - 1] else p
  }

  function Options(caseins: bool): string {
    (if caseins then CASELESS else "") + DOTALL
  }

  /** The loop starts here. */
  function Start(p: string): nat {
    if LeadingStar(p) then 1 else 0
  }

  function Opening(p: string, anchorStart: bool, caseins: bool): string {
    Options(caseins) + (if p != "" && !LeadingStar(p) && anchorStart then "\\A" else "")
  }

  function EndAnchor(toEnd: bool): string {
    if toEnd then "\\z" else ""
  }

  function Translation(p: string, anchorStart: bool, caseins: bool): string {
    Opening(p, anchorStart, caseins)
    + (if p == "" then "" else Body(Cut(p), Start(p), false) + EndAnchor(!DropsTrailing(p)))
  }

  /** The output buffer of the translator. off may pass maxlen; nothing is stored from then on. */
  class GlobCvt {
    const out: array<char>
    const maxlen: nat
    var off: nat
    ghost var full: string // all that was emitted, stored or not
    ghost const beyond: string // the cells from maxlen on

    ghost predicate Valid()
      reads this, out
    {
      && maxlen <= out.Length
      && off == |full|
      && (off <= maxlen ==> out[..off] == full)
      && out[maxlen..] == beyond
    }

    constructor (o: array<char>, len: nat)
      requires len <= o.Length
      ensures Valid() && out == o && maxlen == len && off == 0 && full == "" && beyond == o[len..]
    {
      out, maxlen, off, full, beyond := o, len, 0, "", o[len..];
    }

    method CharOut(c: char)
      requires Valid()
      modifies this, out
      ensures Valid() && full == old(full) + [c]
    {
      off := off + 1;
      if off <= maxlen {
        out[off - 1] := c;
        assert out[..off] == out[..off - 1] + [c];
        assert out[..off - 1] == old(out[..off]);
      }
      full := full + [c];
    }

    method StrOut(s: string)
      requires Valid() && s != ""
      modifies this, out
      ensures Valid() && full == old(full) + s
    {
      var i := off;
      off := off + |s|;
      full := full + s;
      if off <= maxlen {
        var n := 0;
        while n < |s|
          invariant 0 <= n <= |s| && i == |old(full)| + n
          invariant off == |full| && full == old(full) + s
          invariant out[..|old(full)|] == old(full)
          invariant out[|old(full)|..i] == s[..n]
          invariant out[maxlen..] == beyond
        {
          out[i] := s[n];
          assert out[|old(full)|..i + 1] == out[|old(full)|..i] + [s[n]];
          i, n := i + 1, n + 1;
        }
        assert out[..off] == out[..|old(full)|] + out[|old(full)|..off];
      }
    }

    /** The body of the loop of convert_glob. */
    method Step(pattern: string, k: nat, inside: bool) returns (k': nat, inside': bool)
      requires Valid() && k < |pattern|
      modifies this, out
      ensures Valid() && full == old(full) + Pass(pattern, k, inside).0
      ensures k' == Pass(pattern, k, inside).1 && inside' == Pass(pattern, k, inside).2
    {
      k', inside' := k, inside;
      if pattern[k'] == '\\' {
        if k' + 1 < |pattern| {
          k' := k' + 1;
          if pattern[k'] in "\\?*" {
            CharOut('\\');
          }
          CharOut(pattern[k']);
          assert full == old(full) + Escaped(pattern[k']);
        }
      } else if !inside' {
        if pattern[k'] == '*' {
          if k' > 0 && pattern[k' - 1] == '*' {
            k' := k' + 1; // skips the character after a duplicate star
          } else {
            StrOut("(*COMMIT).*?");
          }
        } else if pattern[k'] == '?' {
          CharOut('.');
        } else if pattern[k'] == '.' {
          CharOut('\\');
          CharOut('.');
          assert full == old(full) + "\\.";
        } else {
          if pattern[k'] == '[' {
            inside' := true;
          }
          CharOut(pattern[k']);
        }
      } else {
        if pattern[k'] == ']' {
          inside' := false;
        }
        CharOut(pattern[k']);
      }
      k' := k' + 1;
      assert old(full) + "" == old(full);
    }

    /** The loop of convert_glob, over a pattern already cut to its patlen. */
    method EmitBody(pattern: string, start: nat)
      requires Valid()
      modifies this, out
      ensures Valid() && full == old(full) + Body(pattern, start, false)
    {
      var k, inside := start, false;
      ghost var target := full + Body(pattern, start, false);
      while k < |pattern|
        invariant Valid()
        invariant full + Body(pattern, k, inside) == target
        decreases |pattern| - k
      {
        ghost var was, pass := full, Pass(pattern, k, inside);
        k, inside := Step(pattern, k, inside);
        Assoc(was, pass.0, Body(pattern, k, inside));
      }
    }

    /** convert_glob: 0 exactly when the whole translation fits, and then the buffer holds it; off
        counts the full length either way, and no cell from maxlen on is written. */
    method ConvertGlob(pattern: string, anchorStart: bool, caseins: bool) returns (r: int)
      requires Valid() && off == 0
      modifies this, out
      ensures Valid()
      ensures off == |Translation(pattern, anchorStart, caseins)|
      ensures r == if |Translation(pattern, anchorStart, caseins)| <= maxlen then 0 else -1
      ensures r == 0 ==> out[..off] == Translation(pattern, anchorStart, caseins)
    {
      var anchorEnd := true;
      if caseins {
        StrOut("(?i)");
      }
      StrOut("(?s)");
      assert full == Options(caseins);
      if |pattern| > 0 {
        var patlen := |pattern|;
        var k := 0;
        if pattern[0] != '*' {
          if anchorStart {
            StrOut("\\A");
          }
        } else {
          k := 1;
        }
        if patlen > k && pattern[patlen - 1] == '*' {
          if patlen == 1 || pattern[patlen - 2] != '\\' {
            patlen := patlen - 1;
            anchorEnd := false;
          }
        }
        ghost var opening := full;
        assert pattern[..patlen] == Cut(pattern);
        EmitBody(pattern[..patlen], k);
        if anchorEnd {
          StrOut("\\z");
        }
        Assoc(opening, Body(Cut(pattern), Start(pattern), false), EndAnchor(anchorEnd));
      }
      assert full == Translation(pattern, anchorStart, caseins);
      r := if off > maxlen then -1 else 0;
    }
  }

  // ----- what the translation means

  /** The tokens that the loop emits from k on. A dot behind a backslash becomes any character, and the
      duplicate-star branch drops the second star and whatever stands after it. */
  function Emit(p: string, k: nat): seq<Token>
    decreases |p| - k
  {
    if k >= |p| then []
    else if p[k] == '\\' then
      if k + 1 < |p| then [Single(if p[k + 1] == '.' then AnyByte else Exactly(p[k + 1]))] + Emit(p, k + 2) else []
    else if DuplicateStar(p, k) then Emit(p, k + 2)
    else if p[k] == '*' then [Star] + Emit(p, k + 1)
    else if p[k] == '?' then [Single(AnyByte)] + Emit(p, k + 1)
    else if p[k] == '[' then
      match ReadClass(p[k + 1..])
      case Some(c) => [Single(OneOf(c.0))] + Emit(p, k + 1 + c.1)
      case None => []
    else [Single(Exactly(p[k]))] + Emit(p, k + 1)
  }

  /** What the loop looks at from k on is in the fragment of this model. */
  predicate Reads(p: string, k: nat)
    decreases |p| - k
  {
    if k >= |p| then true
    else if p[k] == '\\' then
      k + 1 < |p| ==> (Plain(p[k + 1]) || p[k + 1] in "\\?*.") && Reads(p, k + 2)
    else if DuplicateStar(p, k) then Reads(p, k + 2)
    else if p[k] == '[' then
      match ReadClass(p[k + 1..])
      case Some(c) => Reads(p, k + 1 + c.1)
      case None => false
    else (Plain(p[k]) || p[k] in "*?.") && Reads(p, k + 1)
  }

  lemma Prepend(p: string, k: nat, n: nat, rest: string)
    requires 0 < n && k + n <= |p|
    ensures [p[k]] + (p[k + 1..k + n] + rest) == p[k..k + n] + rest
  {
  }

  /** Inside a class, the loop emits the text up to the closing bracket. */
  lemma {:induction false} CopiesToBracket(p: string, k: nat, n: nat)
    requires 0 < n && k + n <= |p| && p[k + n - 1] == ']'
    requires forall i | k <= i < k + n - 1 :: p[i] !in "\\]"
    ensures Body(p, k, true) == p[k..k + n] + Body(p, k + n, false)
    decreases n
  {
    assert Body(p, k, true) == [p[k]] + Body(p, k + 1, p[k] != ']');
    hide Body;
    if n > 1 {
      CopiesToBracket(p, k + 1, n - 1);
      Prepend(p, k, n, Body(p, k + n, false));
    }
  }

  /** The text of a class holds no backslash, and ends at its first closing bracket. */
  lemma {:induction false} RangesText(s: string)
    requires ReadRanges(s).Some?
    ensures var n := ReadRanges(s).value.1;
      s[n - 1] == ']' && forall i | 0 <= i < n - 1 :: s[i] !in "\\]"
    decreases |s|
  {
    if s[0] != ']' {
      var step := if |s| >= 3 && s[1] == '-' then 3 else 1;
      RangesText(s[step..]);
      var n := ReadRanges(s).value.1;
      assert forall i | step <= i < n - 1 :: s[i] == s[step..][i - step];
    }
  }

  lemma ClassText(s: string)
    requires ReadClass(s).Some?
    ensures var n := ReadClass(s).value.1;
      0 < n <= |s| && s[n - 1] == ']' && forall i | 0 <= i < n - 1 :: s[i] !in "\\]"
  {
    hide ReadRanges;
    var hat := if s != [] && s[0] == '^' then 1 else 0;
    RangesText(s[hat..]);
    var n := ReadClass(s).value.1;
    assert forall i | hat <= i < n :: s[i] == s[hat..][i - hat];
  }

  lemma BracketBody(p: string, k: nat)
    requires k < |p| && p[k] == '['
    ensures Body(p, k, false) == ['['] + Body(p, k + 1, true)
  {}

  /** A class is emitted as it stands. */
  lemma CopiesClass(p: string, k: nat)
    requires k < |p| && p[k] == '[' && ReadClass(p[k + 1..]).Some?
    ensures var n := ReadClass(p[k + 1..]).value.1;
      k + 1 + n <= |p| && p[k + 1..][..n] == p[k + 1..k + 1 + n]
      && Body(p, k, false) == ['['] + p[k + 1..k + 1 + n] + Body(p, k + 1 + n, false)
  {
    hide Body, ReadClass;
    ClassText(p[k + 1..]);
    var s, n := p[k + 1..], ReadClass(p[k + 1..]).value.1;
    assert forall i | k + 1 <= i < k + 1 + n :: p[i] == s[i - k - 1];
    CopiesToBracket(p, k + 1, n);
    BracketBody(p, k);
    Assoc(['['], p[k + 1..k + 1 + n], Body(p, k + 1 + n, false));
  }

  /** Outside a class the emitted text never starts with a star, so a dot stays a dot. */
  lemma {:induction false} NoBareStar(p: string, k: nat)
    ensures Body(p, k, false) != "" ==> Body(p, k, false)[0] != '*'
    decreases |p| - k
  {
    if k < |p| && p[k] != '\\' && DuplicateStar(p, k) {
      NoBareStar(p, k + 2);
    }
  }

  lemma EndAnchorItems(toEnd: bool)
    ensures ParseRegex(EndAnchor(toEnd)) == Some(Compile([], toEnd))
    ensures EndAnchor(toEnd) == "" || EndAnchor(toEnd)[0] != '*'
  {
    if toEnd {
      ReadItem(AnchorEnd, "\\z", "");
      assert "\\z" + "" == "\\z";
      assert [AnchorEnd] + [] == [AnchorEnd];
    }
  }

  /** Reading s when it is the text of known items followed by more. */
  lemma ReadItem(item: Item, text: string, rest: string)
    requires text != "" && NextItem(text + rest) == Some((item, |text|))
    ensures ParseRegex(text + rest) == Cons(item, ParseRegex(rest))
  {
    assert (text + rest)[|text|..] == rest;
  }

  /** The text emitted for one token; rest is what the loop emits next. */
  predicate EmittedFor(t: Token, text: string, rest: string) {
    match t
    case Star => text == COMMIT + LAZY
    case Single(AnyByte) => text == "." && (rest != "" ==> rest[0] != '*')
    case Single(Exactly(c)) => (text == [c] && Plain(c)) || (text == ['\\', c] && c in "\\?*.")
    case Single(OneOf(cls)) =>
      text != "" && text[0] == '[' && ReadClass(text[1..] + rest) == Some((cls, |text| - 1))
  }

  lemma OneItem(one: One, text: string, rest: string)
    requires EmittedFor(Single(one), text, rest)
    ensures text != "" && NextItem(text + rest) == Some((Item.One(one), |text|))
  {
    var s := text + rest;
    match one
    case AnyByte =>
      assert |s| > 1 ==> s[1] == rest[0];
      assert LAZY[1] == '*';
    case Exactly(c) =>
    case OneOf(cls) =>
      assert s[1..] == text[1..] + rest;
  }

  lemma StarItems(rest: string)
    requires ParseRegex(rest).Some?
    ensures ParseRegex(COMMIT + LAZY + rest) == Some([Commit, LazyAny] + ParseRegex(rest).value)
  {
    hide ParseRegex;
    assert COMMIT + LAZY + rest == COMMIT + (LAZY + rest);
    ReadItem(Commit, COMMIT, LAZY + rest);
    ReadItem(LazyAny, LAZY, rest);
    assert [Commit] + ([LazyAny] + ParseRegex(rest).value) == [Commit, LazyAny] + ParseRegex(rest).value;
  }

  /** The text emitted for one token is read back as that token's items. */
  lemma TokenItems(t: Token, text: string, rest: string)
    requires EmittedFor(t, text, rest) && ParseRegex(rest).Some?
    ensures ParseRegex(text + rest) == Some(ItemsOf(t) + ParseRegex(rest).value)
  {
    hide ParseRegex, NextItem;
    match t
    case Star => StarItems(rest);
    case Single(one) =>
      OneItem(one, text, rest);
      ReadItem(Item.One(one), text, rest);
  }

  lemma TokenThenText(t: Token, text: string, more: string, tail: string)
    requires EmittedFor(t, text, more + tail) && ParseRegex(more + tail).Some?
    ensures ParseRegex(text + more + tail) == Some(ItemsOf(t) + ParseRegex(more + tail).value)
  {
    assert text + more + tail == text + (more + tail);
    TokenItems(t, text, more + tail);
  }

  // ----- from any point of the loop, the emitted text is read back as the items of the emitted tokens

  lemma ClassItems(p: string, k: nat, cls: Class, n: nat, toEnd: bool)
    requires k < |p| && p[k] == '[' && ReadClass(p[k + 1..]) == Some((cls, n))
    requires ParseRegex(Body(p, k + 1 + n, false) + EndAnchor(toEnd)).Some?
    ensures ParseRegex(Body(p, k, false) + EndAnchor(toEnd))
         == Some(ItemsOf(Single(OneOf(cls))) + ParseRegex(Body(p, k + 1 + n, false) + EndAnchor(toEnd)).value)
  {
    hide Body, ReadClass, ParseRegex, EndAnchor;
    CopiesClass(p, k);
    var inner, more := p[k + 1..k + 1 + n], Body(p, k + 1 + n, false);
    ClassLocal(p[k + 1..], more + EndAnchor(toEnd));
    assert (['['] + inner)[1..] == inner;
    TokenThenText(Single(OneOf(cls)), ['['] + inner, more, EndAnchor(toEnd));
  }

  /** One step that is neither a class nor a duplicate star nor a lone backslash. */
  lemma StepText(p: string, k: nat, tail: string) returns (t: Token, n: nat)
    requires k < |p| && Reads(p, k) && p[k] != '[' && (p[k] == '\\' ==> k + 1 < |p|)
    requires p[k] == '\\' || !DuplicateStar(p, k)
    requires tail == "" || tail[0] != '*'
    ensures n > 0 && Reads(p, k + n) && Emit(p, k) == [t] + Emit(p, k + n)
    ensures Body(p, k, false) == Pass(p, k, false).0 + Body(p, k + n, false)
    ensures EmittedFor(t, Pass(p, k, false).0, Body(p, k + n, false) + tail)
  {
    hide ReadClass, ReadRanges;
    t, n := Emit(p, k)[0], if p[k] == '\\' then 2 else 1;
    NoBareStar(p, k + n);
  }

  lemma CompileCons(t: Token, rest: seq<Token>, toEnd: bool)
    ensures Compile([t] + rest, toEnd) == ItemsOf(t) + Compile(rest, toEnd)
  {
    assert ([t] + rest)[1..] == rest;
  }

  lemma DuplicateDropped(p: string, k: nat)
    requires k < |p| && p[k] != '\\' && DuplicateStar(p, k)
    ensures Emit(p, k) == Emit(p, k + 2) && (Reads(p, k) <==> Reads(p, k + 2)) && Body(p, k, false) == Body(p, k + 2, false)
  {
    Assoc(Body(p, k + 2, false), "", "");
  }

  lemma NothingMore(p: string, k: nat)
    requires k >= |p| || (p[k] == '\\' && k + 1 >= |p|)
    ensures Emit(p, k) == [] && Body(p, k, false) == ""
  {}

  lemma ClassMore(p: string, k: nat)
    requires k < |p| && p[k] == '[' && Reads(p, k)
    ensures ReadClass(p[k + 1..]).Some?
    ensures var c := ReadClass(p[k + 1..]).value;
      Reads(p, k + 1 + c.1) && Emit(p, k) == [Single(OneOf(c.0))] + Emit(p, k + 1 + c.1)
  {
    hide ReadClass;
  }

  lemma {:induction false} BodyItems(p: string, k: nat, toEnd: bool)
    requires Reads(p, k)
    ensures ParseRegex(Body(p, k, false) + EndAnchor(toEnd)) == Some(Compile(Emit(p, k), toEnd))
    decreases |p| - k
  {
    hide Body, Reads, Emit, ParseRegex, ReadClass, Compile, Pass;
    EndAnchorItems(toEnd);
    if k >= |p| || (p[k] == '\\' && k + 1 >= |p|) {
      NothingMore(p, k);
      Assoc(EndAnchor(toEnd), "", "");
    } else if p[k] == '[' {
      ClassMore(p, k);
      var c := ReadClass(p[k + 1..]).value;
      BodyItems(p, k + 1 + c.1, toEnd);
      ClassItems(p, k, c.0, c.1, toEnd);
      CompileCons(Single(OneOf(c.0)), Emit(p, k + 1 + c.1), toEnd);
    } else if p[k] != '\\' && DuplicateStar(p, k) {
      DuplicateDropped(p, k);
      BodyItems(p, k + 2, toEnd);
    } else {
      var t, n := StepText(p, k, EndAnchor(toEnd));
      BodyItems(p, k + n, toEnd);
      TokenThenText(t, Pass(p, k, false).0, Body(p, k + n, false), EndAnchor(toEnd));
      CompileCons(t, Emit(p, k + n), toEnd);
    }
  }
}
