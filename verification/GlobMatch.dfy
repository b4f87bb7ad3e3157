/** What a glob means, what the emitted regular expression means, and why a matcher that never
    backtracks past a star still finds every match (the semantics behind
    include/rdbparser/glob_cvt.h). */
module GlobMatch {
  /** The members of a bracket class: byte ranges, possibly complemented. */
  datatype Class = Class(negated: bool, ranges: seq<(char, char)>)

  /** A token that consumes exactly one character of the key. */
  datatype One = Exactly(c: char) | AnyByte | OneOf(cls: Class)

  datatype Token = Single(one: One) | Star

  predicate IsUpper(b: char) { 'A' <= b <= 'Z' }
  predicate IsLower(b: char) { 'a' <= b <= 'z' }

  /** The same letter in the other case; every other byte is left alone. */
  function SwapCase(b: char): char {
    if IsUpper(b) then (b as int + 32) as char
    else if IsLower(b) then (b as int - 32) as char
    else b
  }

  /** Folding pairs the 26 letters of each case and nothing else. */
  lemma Cases(b: char)
    ensures var upper, lower := "ABCDEFGHIJKLMNOPQRSTUVWXYZ", "abcdefghijklmnopqrstuvwxyz";
      (forall i | 0 <= i < 26 :: SwapCase(upper[i]) == lower[i] && SwapCase(lower[i]) == upper[i])
      && (b !in upper && b !in lower ==> SwapCase(b) == b)
  {
    var upper, lower := "ABCDEFGHIJKLMNOPQRSTUVWXYZ", "abcdefghijklmnopqrstuvwxyz";
    assert forall i | 0 <= i < 26 :: upper[i] as int == 65 + i && lower[i] as int == 97 + i;
    if IsUpper(b) {
      assert b == upper[b as int - 65];
    } else if IsLower(b) {
      assert b == lower[b as int - 97];
    }
  }

  predicate InRanges(b: char, ranges: seq<(char, char)>) {
    exists i | 0 <= i < |ranges| :: ranges[i].0 <= b <= ranges[i].1
  }

  /** One token against one byte; fold is the (?i) option. */
  predicate Accepts(one: One, b: char, fold: bool) {
    match one
    case Exactly(c) => b == c || (fold && SwapCase(b) == c)
    case AnyByte => true
    case OneOf(cls) =>
      cls.negated != (InRanges(b, cls.ranges) || (fold && InRanges(SwapCase(b), cls.ranges)))
  }

  /** The declarative meaning of a glob: the tokens match the key from pos on, where a star stands
      for any run of bytes. With toEnd false, a match may stop before the end of the key. */
  ghost predicate Matches(glob: seq<Token>, toEnd: bool, key: string, pos: nat, fold: bool)
    decreases |glob|
  {
    if glob == [] then
      pos <= |key| && (toEnd ==> pos == |key|)
    else match glob[0]
      case Single(one) =>
        pos < |key| && Accepts(one, key[pos], fold) && Matches(glob[1..], toEnd, key, pos + 1, fold)
      case Star =>
        exists q | pos <= q <= |key| :: Matches(glob[1..], toEnd, key, q, fold)
  }

  // ----- the emitted fragment of PCRE2, with its backtracking verbs

  /** One item of a compiled pattern: \A, \z, (*COMMIT), .*? under (?s), or a one-byte item. */
  datatype Item = AnchorStart | AnchorEnd | Commit | LazyAny | One(one: One)

  /** NoMatch lets the matcher backtrack; Aborted is backtracking onto a (*COMMIT), which ends the
      whole search ("Backtracking control" in the pcre2pattern manual). */
  datatype Outcome = Matched | NoMatch | Aborted

  /** The backtracking matcher from position pos. */
  function Run(items: seq<Item>, key: string, pos: nat, fold: bool): Outcome
    requires pos <= |key|
    decreases |items|, |key| - pos
  {
    if items == [] then
      Matched
    else match items[0]
      case AnchorStart => if pos == 0 then Run(items[1..], key, pos, fold) else NoMatch
      case AnchorEnd => if pos == |key| then Run(items[1..], key, pos, fold) else NoMatch
      case Commit =>
        if Run(items[1..], key, pos, fold) == Matched then Matched else Aborted
      case LazyAny =>
        var here := Run(items[1..], key, pos, fold);
        if here != NoMatch then here
        else if pos < |key| then Run(items, key, pos + 1, fold)
        else NoMatch
      case One(one) =>
        if pos < |key| && Accepts(one, key[pos], fold) then Run(items[1..], key, pos + 1, fold)
        else NoMatch
  }

  /** pcre2_match: try every start position in turn, until a match or an abort. */
  predicate Search(items: seq<Item>, key: string, from: nat, fold: bool)
    requires from <= |key|
    decreases |key| - from
  {
    match Run(items, key, from, fold)
    case Matched => true
    case Aborted => false
    case NoMatch => from < |key| && Search(items, key, from + 1, fold)
  }

  // ----- the items a token list becomes

  function ItemsOf(t: Token): seq<Item> {
    match t
    case Single(one) => [One(one)]
    case Star => [Commit, LazyAny]
  }

  /** The body of the emitted pattern, with or without the end anchor. */
  function Compile(glob: seq<Token>, toEnd: bool): seq<Item> {
    if glob == [] then (if toEnd then [AnchorEnd] else [])
    else ItemsOf(glob[0]) + Compile(glob[1..], toEnd)
  }

  // ----- committed search finds a match exactly when there is one

  lemma {:induction false} StarIsMonotone(glob: seq<Token>, toEnd: bool, key: string, p: nat, q: nat, fold: bool)
    requires p <= q && glob != [] && glob[0] == Star
    requires Matches(glob, toEnd, key, q, fold)
    ensures Matches(glob, toEnd, key, p, fold)
  {
  }

  /** A star matches from pos if its tail matches from some later position. */
  lemma StarOpens(glob: seq<Token>, toEnd: bool, key: string, pos: nat, fold: bool)
    requires glob != [] && glob[0] == Star
    ensures Matches(glob, toEnd, key, pos, fold)
       <==> exists q | pos <= q <= |key| :: Matches(glob[1..], toEnd, key, q, fold)
  {
    if q :| pos <= q <= |key| && Matches(glob[1..], toEnd, key, q, fold) {
      assert Matches(glob[1..], toEnd, key, q, fold);
    }
  }

  /** A match the committed matcher reports is a match of the glob. */
  lemma {:induction false} RunIsSound(glob: seq<Token>, toEnd: bool, key: string, pos: nat, fold: bool)
    requires pos <= |key|
    requires Run(Compile(glob, toEnd), key, pos, fold) == Matched
    ensures Matches(glob, toEnd, key, pos, fold)
    decreases |glob|
  {
    if glob != [] {
      var tail := Compile(glob[1..], toEnd);
      match glob[0]
      case Single(one) =>
        assert Compile(glob, toEnd)[1..] == tail;
        RunIsSound(glob[1..], toEnd, key, pos + 1, fold);
      case Star =>
        assert Compile(glob, toEnd)[1..] == [LazyAny] + tail;
        var q := LazyFound(tail, key, pos, fold);
        RunIsSound(glob[1..], toEnd, key, q, fold);
    }
  }

  /** Where a successful .*? stopped. */
  lemma {:induction false} LazyFound(tail: seq<Item>, key: string, pos: nat, fold: bool) returns (q: nat)
    requires pos <= |key|
    requires Run([LazyAny] + tail, key, pos, fold) == Matched
    ensures pos <= q <= |key| && Run(tail, key, q, fold) == Matched
    decreases |key| - pos
  {
    assert ([LazyAny] + tail)[1..] == tail;
    if Run(tail, key, pos, fold) == Matched {
      q := pos;
    } else {
      q := LazyFound(tail, key, pos + 1, fold);
    }
  }

  /** If the glob matches from pos, so does the committed matcher: placing each run of one-byte
      tokens as early as possible never loses a match. */
  lemma {:induction false} RunIsComplete(glob: seq<Token>, toEnd: bool, key: string, pos: nat, fold: bool)
    requires Matches(glob, toEnd, key, pos, fold) && pos <= |key|
    ensures Run(Compile(glob, toEnd), key, pos, fold) == Matched
    decreases |glob|, 1
  {
    if glob == [] {
      if toEnd {
        assert [AnchorEnd][1..] == [];
      }
    } else {
      var tail := Compile(glob[1..], toEnd);
      match glob[0]
      case Single(one) =>
        assert Compile(glob, toEnd)[1..] == tail;
        RunIsComplete(glob[1..], toEnd, key, pos + 1, fold);
      case Star =>
        assert Compile(glob, toEnd)[1..] == [LazyAny] + tail;
        var q :| pos <= q <= |key| && Matches(glob[1..], toEnd, key, q, fold);
        LazyFinds(glob[1..], toEnd, key, pos, q, fold);
    }
  }

  /** An abort at p rules out every match from p on. */
  lemma {:induction false} AbortIsFinal(glob: seq<Token>, toEnd: bool, key: string, p: nat, q: nat, fold: bool)
    requires p <= q && p <= |key|
    requires Run(Compile(glob, toEnd), key, p, fold) == Aborted
    ensures !Matches(glob, toEnd, key, q, fold)
    decreases |glob|, 2
  {
    if glob != [] {
      var tail := Compile(glob[1..], toEnd);
      match glob[0]
      case Single(one) =>
        assert Compile(glob, toEnd)[1..] == tail;
        AbortIsFinal(glob[1..], toEnd, key, p + 1, q + 1, fold);
      case Star =>
        if Matches(glob, toEnd, key, q, fold) {
          StarIsMonotone(glob, toEnd, key, p, q, fold);
          RunIsComplete(glob, toEnd, key, p, fold);
          assert false;
        }
    }
  }

  /** The lazy search reaches the match at q, or an earlier one. */
  lemma {:induction false} LazyFinds(glob: seq<Token>, toEnd: bool, key: string, pos: nat, q: nat, fold: bool)
    requires pos <= q <= |key| && Matches(glob, toEnd, key, q, fold)
    ensures Run([LazyAny] + Compile(glob, toEnd), key, pos, fold) == Matched
    decreases |glob|, 3, q - pos
  {
    var items := Compile(glob, toEnd);
    assert ([LazyAny] + items)[1..] == items;
    match Run(items, key, pos, fold)
    case Matched =>
    case Aborted =>
      AbortIsFinal(glob, toEnd, key, pos, q, fold);
    case NoMatch =>
      if pos == q {
        RunIsComplete(glob, toEnd, key, pos, fold);
      } else {
        LazyFinds(glob, toEnd, key, pos + 1, q, fold);
      }
  }

  lemma {:induction false} SearchFinds(glob: seq<Token>, toEnd: bool, key: string, from: nat, q: nat, fold: bool)
    requires from <= q <= |key| && Matches(glob, toEnd, key, q, fold)
    ensures Search(Compile(glob, toEnd), key, from, fold)
    decreases q - from
  {
    match Run(Compile(glob, toEnd), key, from, fold)
    case Matched =>
    case Aborted =>
      AbortIsFinal(glob, toEnd, key, from, q, fold);
    case NoMatch =>
      if from == q {
        RunIsComplete(glob, toEnd, key, from, fold);
      } else {
        SearchFinds(glob, toEnd, key, from + 1, q, fold);
      }
  }

  lemma {:induction false} SearchFound(glob: seq<Token>, toEnd: bool, key: string, from: nat, fold: bool) returns (q: nat)
    requires from <= |key| && Search(Compile(glob, toEnd), key, from, fold)
    ensures from <= q <= |key| && Matches(glob, toEnd, key, q, fold)
    decreases |key| - from
  {
    if Run(Compile(glob, toEnd), key, from, fold) == Matched {
      RunIsSound(glob, toEnd, key, from, fold);
      q := from;
    } else {
      q := SearchFound(glob, toEnd, key, from + 1, fold);
    }
  }

  /** An unanchored committed search accepts exactly the keys that a leading star would. */
  lemma UnanchoredSearch(glob: seq<Token>, toEnd: bool, key: string, fold: bool)
    ensures Search(Compile(glob, toEnd), key, 0, fold) <==> Matches([Star] + glob, toEnd, key, 0, fold)
  {
    var starred := [Star] + glob;
    StarOpens(starred, toEnd, key, 0, fold);
    assert starred[1..] == glob;
    if Search(Compile(glob, toEnd), key, 0, fold) {
      var q := SearchFound(glob, toEnd, key, 0, fold);
    }
    if Matches([Star] + glob, toEnd, key, 0, fold) {
      var q :| 0 <= q <= |key| && Matches(glob, toEnd, key, q, fold);
      SearchFinds(glob, toEnd, key, 0, q, fold);
    }
  }

  /** With \A in front, the search accepts exactly the keys the glob matches from their start. */
  lemma AnchoredSearch(glob: seq<Token>, toEnd: bool, key: string, fold: bool)
    ensures Search([AnchorStart] + Compile(glob, toEnd), key, 0, fold) <==> Matches(glob, toEnd, key, 0, fold)
  {
    var items := [AnchorStart] + Compile(glob, toEnd);
    assert items[1..] == Compile(glob, toEnd);
    NoLaterStart(items, key, 1, fold);
    if Run(Compile(glob, toEnd), key, 0, fold) == Matched {
      RunIsSound(glob, toEnd, key, 0, fold);
    }
    if Matches(glob, toEnd, key, 0, fold) {
      RunIsComplete(glob, toEnd, key, 0, fold);
    }
  }

  lemma {:induction false} NoLaterStart(items: seq<Item>, key: string, from: nat, fold: bool)
    requires items != [] && items[0] == AnchorStart && from > 0
    ensures from <= |key| ==> !Search(items, key, from, fold)
    decreases |key| - from
  {
    if from < |key| {
      NoLaterStart(items, key, from + 1, fold);
    }
  }

  /** Dropping the end anchor is the same as a trailing star. */
  lemma {:induction false} TrailingStar(glob: seq<Token>, key: string, pos: nat, fold: bool)
    ensures Matches(glob + [Star], true, key, pos, fold) <==> Matches(glob, false, key, pos, fold)
    decreases |glob|
  {
    if glob == [] {
      assert [Star][1..] == [];
      if pos <= |key| {
        assert Matches([Star][1..], true, key, |key|, fold);
      }
    } else {
      assert (glob + [Star])[1..] == glob[1..] + [Star];
      match glob[0]
      case Single(one) =>
        TrailingStar(glob[1..], key, pos + 1, fold);
      case Star =>
        forall q | pos <= q <= |key|
          ensures Matches(glob[1..] + [Star], true, key, q, fold) <==> Matches(glob[1..], false, key, q, fold)
        {
          TrailingStar(glob[1..], key, q, fold);
        }
    }
  }
}
