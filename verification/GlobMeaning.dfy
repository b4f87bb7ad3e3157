/** The theorem convert_glob is for: the pattern it emits accepts the keys the glob accepts. */
module GlobMeaning {
  import opened Bytes
  import opened GlobMatch
  import opened GlobSyntax
  import opened GlobCvt

  /** The translated part of the pattern is in the fragment of this model. */
  predicate Readable(p: string) {
    Reads(Cut(p), Start(p))
  }

  /** The glob the emitted pattern really stands for. */
  function TranslatedGlob(p: string, anchorStart: bool): seq<Token> {
    (if LeadingStar(p) || !anchorStart then [Star] else [])
    + Emit(Cut(p), Start(p))
    + (if DropsTrailing(p) then [Star] else [])
  }

  function AnchorItems(anchored: bool): seq<Item> {
    if anchored then [AnchorStart] else []
  }

  lemma CompilesOptions(rest: string, caseins: bool)
    ensures CompileRegex(Options(caseins) + rest) ==
      match ParseRegex(rest) case Some(items) => Some(Regex(caseins, items)) case None => None
  {
    var s := Options(caseins) + rest;
    if caseins {
      assert s[..4] == CASELESS;
      assert s[4..] == DOTALL + rest;
    } else {
      assert s[2] == 's' && CASELESS[2] == 'i';
      assert s == DOTALL + rest;
    }
    assert (DOTALL + rest)[4..] == rest;
  }

  /** PCRE2 reads the translation as an optional \A, the items of the emitted tokens and an optional \z. */
  lemma TranslationCompiles(p: string, anchorStart: bool, caseins: bool)
    requires p != "" && Readable(p)
    ensures CompileRegex(Translation(p, anchorStart, caseins)) ==
      Some(Regex(caseins, AnchorItems(!LeadingStar(p) && anchorStart) + Compile(Emit(Cut(p), Start(p)), !DropsTrailing(p))))
  {
    var toEnd, anchored := !DropsTrailing(p), !LeadingStar(p) && anchorStart;
    var body := Body(Cut(p), Start(p), false) + EndAnchor(toEnd);
    BodyItems(Cut(p), Start(p), toEnd);
    var head := if anchored then "\\A" else "";
    AnchorText(anchored, body);
    CompilesOptions(head + body, caseins);
    Assoc(Options(caseins), head, body);
    hide CompileRegex, ParseRegex, Body, Emit, Compile;
  }

  lemma AnchorText(anchored: bool, body: string)
    requires ParseRegex(body).Some?
    ensures ParseRegex((if anchored then "\\A" else "") + body)
         == Some(AnchorItems(anchored) + ParseRegex(body).value)
  {
    if anchored {
      ReadItem(AnchorStart, "\\A", body);
    } else {
      assert "" + body == body;
      assert [] + ParseRegex(body).value == ParseRegex(body).value;
    }
  }

  /** For every non-empty pattern of the fragment, the emitted pattern compiles and accepts exactly the keys
      of the translated glob, although the matcher never backtracks past a star and the outer anchors are
      dropped next to a leading or trailing star. */
  lemma TranslationMeaning(p: string, anchorStart: bool, caseins: bool, key: string)
    requires p != "" && Readable(p)
    ensures CompileRegex(Translation(p, anchorStart, caseins)).Some?
    ensures var re := CompileRegex(Translation(p, anchorStart, caseins)).value;
      RegexAccepts(re, key) <==> GlobAccepts(TranslatedGlob(p, anchorStart), key, caseins)
  {
    hide Emit, Compile, Search, Matches, Readable;
    TranslationCompiles(p, anchorStart, caseins);
    var body, toEnd := Emit(Cut(p), Start(p)), !DropsTrailing(p);
    if !LeadingStar(p) && anchorStart {
      AnchoredSearch(body, toEnd, key, caseins);
      TrailingStar(body, key, 0, caseins);
      assert [] + body == body;
    } else {
      assert [] + Compile(body, toEnd) == Compile(body, toEnd);
      UnanchoredSearch(body, toEnd, key, caseins);
      TrailingStar([Star] + body, key, 0, caseins);
    }
    assert body + [] == body && [Star] + body + [] == [Star] + body;
  }

  // ----- one translation as text

  lemma Passes(p: string, k: nat, inside: bool)
    requires k <= |p|
    ensures k == |p| ==> Body(p, k, inside) == ""
    ensures k < |p| ==> Body(p, k, inside) == Pass(p, k, inside).0 + Body(p, Pass(p, k, inside).1, Pass(p, k, inside).2)
  {
    hide Pass;
  }

  const SAMPLE := "a*[b-c]\\?.?"

  lemma SamplePasses()
    ensures |SAMPLE| == 11
    ensures Pass(SAMPLE, 0, false) == ("a", 1, false) && Pass(SAMPLE, 1, false) == ("(*COMMIT).*?", 2, false)
    ensures Pass(SAMPLE, 2, false) == ("[", 3, true) && Pass(SAMPLE, 3, true) == ("b", 4, true)
    ensures Pass(SAMPLE, 4, true) == ("-", 5, true) && Pass(SAMPLE, 5, true) == ("c", 6, true)
    ensures Pass(SAMPLE, 6, true) == ("]", 7, false) && Pass(SAMPLE, 7, false) == ("\\?", 9, false)
    ensures Pass(SAMPLE, 9, false) == ("\\.", 10, false) && Pass(SAMPLE, 10, false) == (".", 11, false)
  {
    assert COMMIT + LAZY == "(*COMMIT).*?";
  }

  lemma Tail(t: string)
    requires t == ""
    ensures "\\?" + ("\\." + ("." + t)) == "\\?\\.."
  {}

  lemma Inside(t: string)
    ensures "[" + ("b" + ("-" + ("c" + ("]" + t)))) == "[b-c]" + t
  {}

  lemma Before(t: string)
    ensures "a" + ("(*COMMIT).*?" + t) == "a(*COMMIT).*?" + t
  {}

  lemma SampleBody()
    ensures Body(SAMPLE, 0, false) == "a(*COMMIT).*?" + ("[b-c]" + "\\?\\..")
  {
    SamplePasses();
    hide Pass, Body;
    Passes(SAMPLE, 0, false); Passes(SAMPLE, 1, false); Passes(SAMPLE, 2, false); Passes(SAMPLE, 3, true);
    Passes(SAMPLE, 4, true); Passes(SAMPLE, 5, true); Passes(SAMPLE, 6, true); Passes(SAMPLE, 7, false);
    Passes(SAMPLE, 9, false); Passes(SAMPLE, 10, false); Passes(SAMPLE, 11, false);
    hide *;
    Tail(Body(SAMPLE, 11, false));
    Inside(Body(SAMPLE, 7, false));
    Before(Body(SAMPLE, 2, false));
  }

  /** A letter, a star, a class, an escape, a dot and a question mark, with both options and both anchors. */
  lemma TranslatedText()
    ensures Translation(SAMPLE, true, true) == "(?i)(?s)\\Aa(*COMMIT).*?[b-c]\\?\\..\\z"
  {
    SampleBody();
    hide Body;
    assert Opening(SAMPLE, true, true) == "(?i)(?s)\\A";
  }

  /** Outer stars and their anchors are dropped; the empty pattern has its options alone. */
  lemma OuterStars()
    ensures Translation("*x*", true, false) == "(?s)x" && Translation("", true, true) == "(?i)(?s)"
  {
    Passes("*x", 1, false);
    Passes("*x", 2, false);
    assert "*x*"[..2] == "*x" && "x" + "" == "x";
    hide Body;
  }
}
