/** How a glob and the fragment of PCRE2 that convert_glob emits are read as text. */
module GlobSyntax {
  import opened Bytes
  import opened GlobMatch

  predicate IsAlnum(c: char) { '0' <= c <= '9' || IsUpper(c) || IsLower(c) }

  /** A character that stands for itself in a glob and in a PCRE2 pattern, without escape. */
  predicate Plain(c: char) {
    c !in "^$|(){+[\\.?*"
  }

  /** Class members up to the closing bracket, and how many characters that takes: letters, digits
      and ranges of them, which both languages read alike. */
  function ReadRanges(s: string): (r: Option<(seq<(char, char)>, nat)>)
    ensures r.Some? ==> 0 < r.value.1 <= |s|
  {
    if s == [] then None
    else if s[0] == ']' then Some(([], 1))
    else if !IsAlnum(s[0]) then None
    else if |s| >= 3 && s[1] == '-' then
      if IsAlnum(s[2]) && s[0] <= s[2] then
        match ReadRanges(s[3..])
        case Some(rest) => Some(([(s[0], s[2])] + rest.0, 3 + rest.1))
        case None => None
      else None
    else
      match ReadRanges(s[1..])
      case Some(rest) => Some(([(s[0], s[0])] + rest.0, 1 + rest.1))
      case None => None
  }

  /** A bracket class after its opening bracket. */
  function ReadClass(s: string): (r: Option<(Class, nat)>)
    ensures r.Some? ==> 0 < r.value.1 <= |s|
  {
    var hat := if s != [] && s[0] == '^' then 1 else 0;
    match ReadRanges(s[hat..])
    case Some(body) => if body.0 == [] then None else Some((Class(hat == 1, body.0), hat + body.1))
    case None => None
  }

  function Cons<T>(x: T, rest: Option<seq<T>>): Option<seq<T>> {
    if rest.Some? then Some([x] + rest.value) else None
  }

  /** The first token of a glob and its length; None outside the fragment of this model. */
  function NextToken(p: string): (r: Option<(Token, nat)>)
    requires p != []
    ensures r.Some? ==> 0 < r.value.1 <= |p|
  {
    if p[0] == '\\' then
      if |p| >= 2 && (Plain(p[1]) || p[1] in "\\?*.") then Some((Single(Exactly(p[1])), 2)) else None
    else if p[0] == '*' then Some((Star, 1))
    else if p[0] == '?' then Some((Single(AnyByte), 1))
    else if p[0] == '[' then
      match ReadClass(p[1..])
      case Some(c) => Some((Single(OneOf(c.0)), 1 + c.1))
      case None => None
    else if p[0] == '.' || Plain(p[0]) then Some((Single(Exactly(p[0])), 1))
    else None
  }

  /** The tokens of a glob. */
  function ParseGlob(p: string): Option<seq<Token>>
    decreases |p|
  {
    if p == [] then Some([])
    else
      match NextToken(p)
      case Some(t) => Cons(t.0, ParseGlob(p[t.1..]))
      case None => None
  }

  const COMMIT := "(*COMMIT)"
  const LAZY := ".*?"

  /** The first item of a PCRE2 pattern and its length; None outside the fragment of this model. */
  function NextItem(s: string): (r: Option<(Item, nat)>)
    requires s != []
    ensures r.Some? ==> 0 < r.value.1 <= |s|
  {
    if s[0] == '(' && COMMIT <= s then Some((Commit, 9))
    else if s[0] == '.' && LAZY <= s then Some((LazyAny, 3))
    else if s[0] == '.' then Some((One(AnyByte), 1))
    else if s[0] == '\\' then
      if |s| < 2 then None
      else if s[1] == 'A' then Some((AnchorStart, 2))
      else if s[1] == 'z' then Some((AnchorEnd, 2))
      else if IsAlnum(s[1]) then None
      else Some((One(Exactly(s[1])), 2))
    else if s[0] == '[' then
      match ReadClass(s[1..])
      case Some(c) => Some((One(OneOf(c.0)), 1 + c.1))
      case None => None
    else if Plain(s[0]) then Some((One(Exactly(s[0])), 1))
    else None
  }

  /** The items of a PCRE2 pattern. */
  function ParseRegex(s: string): Option<seq<Item>>
    decreases |s|
  {
    if s == [] then Some([])
    else
      match NextItem(s)
      case Some(t) => Cons(t.0, ParseRegex(s[t.1..]))
      case None => None
  }

  /** A compiled pattern: its (?i) option and its items; (?s) is required. */
  datatype Regex = Regex(fold: bool, items: seq<Item>)

  const CASELESS := "(?i)"
  const DOTALL := "(?s)"

  function CompileRegex(s: string): Option<Regex> {
    var fold := CASELESS <= s;
    var rest := if fold then s[4..] else s;
    if DOTALL <= rest then
      match ParseRegex(rest[4..])
      case Some(items) => Some(Regex(fold, items))
      case None => None
    else None
  }

  /** What pcre2_match answers for a key: there is a match somewhere. */
  predicate RegexAccepts(re: Regex, key: string) {
    Search(re.items, key, 0, re.fold)
  }

  /** The key as a whole is matched by the glob. */
  ghost predicate GlobAccepts(glob: seq<Token>, key: string, fold: bool) {
    Matches(glob, true, key, 0, fold)
  }

  // ----- reading is local: what follows a closed class or a trailing star does not matter

  lemma {:induction false} RangesLocal(s: string, t: string)
    requires ReadRanges(s).Some?
    ensures ReadRanges(s[..ReadRanges(s).value.1] + t) == ReadRanges(s)
    decreases |s|
  {
    var n := ReadRanges(s).value.1;
    var u := s[..n] + t;
    if s[0] != ']' {
      var step := if |s| >= 3 && s[1] == '-' then 3 else 1;
      var m := ReadRanges(s[step..]).value.1;
      RangesLocal(s[step..], t);
      assert u[step..] == s[step..][..m] + t;
    }
  }

  lemma ClassLocal(s: string, t: string)
    requires ReadClass(s).Some?
    ensures ReadClass(s[..ReadClass(s).value.1] + t) == ReadClass(s)
  {
    var hat := if s != [] && s[0] == '^' then 1 else 0;
    var m := ReadRanges(s[hat..]).value.1;
    RangesLocal(s[hat..], t);
    assert (s[..hat + m] + t)[hat..] == s[hat..][..m] + t;
  }

  lemma {:induction false} RangesNoStar(s: string)
    requires ReadRanges(s + "*").Some?
    ensures ReadRanges(s) == ReadRanges(s + "*")
    decreases |s|
  {
    var u := s + "*";
    if s == [] {
    } else if s[0] != ']' {
      var step := if |u| >= 3 && u[1] == '-' then 3 else 1;
      assert step <= |s|;
      assert u[step..] == s[step..] + "*";
      RangesNoStar(s[step..]);
    }
  }

  lemma ClassNoStar(s: string)
    requires ReadClass(s + "*").Some?
    ensures ReadClass(s) == ReadClass(s + "*")
  {
    var hat := if s != [] && s[0] == '^' then 1 else 0;
    assert (s + "*")[hat..] == s[hat..] + "*";
    RangesNoStar(s[hat..]);
  }

  lemma TokenBeforeStar(p: string)
    requires p != [] && p[|p| - 1] != '\\' && NextToken(p + "*").Some?
    ensures NextToken(p) == NextToken(p + "*")
  {
    if p[0] == '[' {
      assert (p + "*")[1..] == p[1..] + "*";
      ClassNoStar(p[1..]);
    }
  }

  /** A star at the end that no backslash escapes is read as one more star token. */
  lemma {:induction false} ParseTrailingStar(p: string)
    requires p != [] ==> p[|p| - 1] != '\\'
    requires ParseGlob(p + "*").Some?
    ensures ParseGlob(p).Some? && ParseGlob(p + "*").value == ParseGlob(p).value + [Star]
    decreases |p|
  {
    if p == [] {
      assert "*"[1..] == [];
      assert p + "*" == "*";
    } else {
      TokenBeforeStar(p);
      var n := NextToken(p).value.1;
      assert (p + "*")[n..] == p[n..] + "*";
      ParseTrailingStar(p[n..]);
    }
  }
}
