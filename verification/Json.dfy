/** JSON documents as token sequences: what a well-formed rendering is. */
module Json {
  import opened Bytes
  import opened ListValue
  import opened Events

  /** The text between quotes: a fixed name, a stream id, or a string or number from the input. */
  datatype Label = Lit(name: string) | OfId(id: StreamId) | OfElem(elem: Elem)

  datatype Token = LBrace | RBrace | LBracket | RBracket | Comma | Colon | Text(text: Label) | Num(n: int)

  datatype Json = JText(text: Label) | JNum(n: int) | JObj(members: seq<(Label, Json)>) | JArr(items: seq<Json>)

  function Render(j: Json): seq<Token>
    decreases j, 0
  {
    match j
    case JText(l) => [Text(l)]
    case JNum(n) => [Num(n)]
    case JObj(ms) => [LBrace] + RenderMembers(ms) + [RBrace]
    case JArr(xs) => [LBracket] + RenderItems(xs) + [RBracket]
  }

  function RenderMember(m: (Label, Json)): seq<Token>
    decreases m, 1
  {
    [Text(m.0), Colon] + Render(m.1)
  }

  /** Members, with commas exactly between them. */
  function RenderMembers(ms: seq<(Label, Json)>): seq<Token>
    decreases ms, 2
  {
    if ms == [] then []
    else if |ms| == 1 then RenderMember(ms[0])
    else RenderMember(ms[0]) + [Comma] + RenderMembers(ms[1..])
  }

  /** Items, with commas exactly between them. */
  function RenderItems(xs: seq<Json>): seq<Token>
    decreases xs, 2
  {
    if xs == [] then []
    else if |xs| == 1 then Render(xs[0])
    else Render(xs[0]) + [Comma] + RenderItems(xs[1..])
  }

  // ----- how renderings are put together

  lemma {:induction false} MembersConcat(a: seq<(Label, Json)>, b: seq<(Label, Json)>)
    requires a != [] && b != []
    ensures RenderMembers(a + b) == RenderMembers(a) + [Comma] + RenderMembers(b)
    decreases a
  {
    hide Render, RenderMember;
    if |a| == 1 {
      assert (a + b)[1..] == b;
    } else {
      assert (a + b)[1..] == a[1..] + b;
      MembersConcat(a[1..], b);
      Regroup(RenderMember(a[0]) + [Comma], RenderMembers(a[1..]), [Comma] + RenderMembers(b));
    }
  }

  /** A comma, unless the item is the first one. */
  function Sep(n: nat): seq<Token> { if n == 0 then [] else [Comma] }

  lemma ItemsCons(x: Json, xs: seq<Json>)
    ensures RenderItems([x] + xs) == (if xs == [] then Render(x) else Render(x) + [Comma] + RenderItems(xs))
  {
    hide Render;
    assert ([x] + xs)[1..] == xs;
  }

  lemma ItemsNone()
    ensures RenderItems([]) == []
  {}

  lemma {:induction false} ItemsSnoc(xs: seq<Json>, x: Json)
    ensures RenderItems(xs + [x]) == RenderItems(xs) + Sep(|xs|) + Render(x)
    decreases xs
  {
    hide Render, RenderItems;
    ItemsNone();
    if xs == [] {
      ItemsCons(x, []);
      assert xs + [x] == [x] + [];
    } else {
      var y, ys := xs[0], xs[1..];
      assert xs == [y] + ys && xs + [x] == [y] + (ys + [x]);
      ItemsCons(y, ys);
      ItemsCons(y, ys + [x]);
      ItemsSnoc(ys, x);
      FiveParts(Render(y), [Comma], RenderItems(ys), Sep(|ys|), Render(x));
      if ys == [] {
        assert Render(y) + Sep(1) + Render(x) == Render(y) + [Comma] + Render(x);
      }
    }
  }

  lemma FiveParts<T>(a: seq<T>, b: seq<T>, c: seq<T>, d: seq<T>, e: seq<T>)
    ensures a + b + (c + d + e) == a + b + c + d + e
  {}

  // ----- no rendering has a comma before a closing brace

  predicate Tidy(ts: seq<Token>) {
    forall i | 0 < i < |ts| :: ts[i] == RBrace ==> ts[i - 1] != Comma
  }

  /** A part that may stand before or after a comma, or before a brace. */
  predicate Whole(ts: seq<Token>) {
    Tidy(ts) && ts != [] && ts[0] != RBrace && ts[|ts| - 1] != Comma
  }

  lemma Glue(a: seq<Token>, b: seq<Token>)
    requires Tidy(a) && Tidy(b) && (a != [] && b != [] && b[0] == RBrace ==> a[|a| - 1] != Comma)
    ensures Tidy(a + b)
  {
    forall i | 0 < i < |a + b| && (a + b)[i] == RBrace
      ensures (a + b)[i - 1] != Comma
    {
      if i < |a| {
        assert a[i] == RBrace;
      } else if i > |a| {
        assert b[i - |a|] == RBrace;
      }
    }
  }

  lemma Joined(a: seq<Token>, b: seq<Token>)
    requires Whole(a) && Whole(b)
    ensures Whole(a + [Comma] + b)
  {
    Glue(a, [Comma]);
    Glue(a + [Comma], b);
  }

  lemma Closed(open: Token, a: seq<Token>, close: Token)
    requires open in {LBrace, LBracket} && close in {RBrace, RBracket} && (a == [] || Whole(a))
    ensures Whole([open] + a + [close])
  {
    Glue([open], a);
    Glue([open] + a, [close]);
  }

  lemma {:induction false} RenderWhole(j: Json)
    ensures Whole(Render(j))
    decreases j, 0
  {
    match j
    case JText(_) =>
    case JNum(_) =>
    case JObj(ms) =>
      MembersWhole(ms);
      Closed(LBrace, RenderMembers(ms), RBrace);
    case JArr(xs) =>
      ItemsWhole(xs);
      Closed(LBracket, RenderItems(xs), RBracket);
  }

  lemma {:induction false} MemberWhole(m: (Label, Json))
    ensures Whole(RenderMember(m))
    decreases m, 1
  {
    RenderWhole(m.1);
    Glue([Text(m.0), Colon], Render(m.1));
  }

  lemma {:induction false} MembersWhole(ms: seq<(Label, Json)>)
    ensures ms == [] || Whole(RenderMembers(ms))
    decreases ms, 2
  {
    hide Whole, RenderMember;
    if ms != [] {
      MemberWhole(ms[0]);
      if |ms| > 1 {
        MembersWhole(ms[1..]);
        Joined(RenderMember(ms[0]), RenderMembers(ms[1..]));
      }
    }
  }

  lemma {:induction false} ItemsWhole(xs: seq<Json>)
    ensures xs == [] || Whole(RenderItems(xs))
    decreases xs, 2
  {
    hide Whole, Render;
    if xs != [] {
      RenderWhole(xs[0]);
      if |xs| > 1 {
        ItemsWhole(xs[1..]);
        Joined(Render(xs[0]), RenderItems(xs[1..]));
      }
    }
  }

  /** An untidy part makes the whole untidy. */
  lemma Untidy(a: seq<Token>, b: seq<Token>, c: seq<Token>)
    requires !Tidy(b)
    ensures !Tidy(a + b + c)
  {
    var i :| 0 < i < |b| && b[i] == RBrace && b[i - 1] == Comma;
    var all := a + b + c;
    assert all[|a| + i] == RBrace && all[|a| + i - 1] == Comma;
  }

  // ----- renderings close what they open

  /** Opening minus closing braces. */
  function Depth(ts: seq<Token>): int
    decreases |ts|
  {
    if ts == [] then 0
    else
      var t := ts[|ts| - 1];
      Depth(ts[..|ts| - 1]) + (if t == LBrace then 1 else if t == RBrace then -1 else 0)
  }

  lemma {:induction false} DepthConcat(a: seq<Token>, b: seq<Token>)
    ensures Depth(a + b) == Depth(a) + Depth(b)
    decreases |b|
  {
    if b == [] {
      assert a + b == a;
    } else {
      assert (a + b)[..|a + b| - 1] == a + b[..|b| - 1];
      DepthConcat(a, b[..|b| - 1]);
    }
  }

  lemma {:induction false} DepthFlat(ts: seq<Token>)
    requires LBrace !in ts && RBrace !in ts
    ensures Depth(ts) == 0
    decreases |ts|
  {
    if ts != [] {
      DepthFlat(ts[..|ts| - 1]);
    }
  }

  lemma DepthFrame(open: Token, a: seq<Token>, close: Token)
    requires (open == LBrace && close == RBrace) || (open == LBracket && close == RBracket)
    requires Depth(a) == 0
    ensures Depth([open] + a + [close]) == 0
  {
    hide Depth;
    DepthConcat([open] + a, [close]);
    DepthConcat([open], a);
    DepthOne(open);
    DepthOne(close);
  }

  lemma DepthOne(t: Token)
    ensures Depth([t]) == if t == LBrace then 1 else if t == RBrace then -1 else 0
  {
    assert [t][..0] == [];
  }

  lemma DepthJoin(a: seq<Token>, b: seq<Token>)
    requires Depth(a) == 0 && Depth(b) == 0
    ensures Depth(a + [Comma] + b) == 0
  {
    hide Depth;
    DepthConcat(a + [Comma], b);
    DepthConcat(a, [Comma]);
    DepthOne(Comma);
  }

  lemma {:induction false} RenderCloses(j: Json)
    ensures Depth(Render(j)) == 0
    decreases j, 0
  {
    hide Depth, RenderMembers, RenderItems;
    match j
    case JText(l) => DepthOne(Text(l));
    case JNum(n) => DepthOne(Num(n));
    case JObj(ms) =>
      MembersClose(ms);
      DepthFrame(LBrace, RenderMembers(ms), RBrace);
    case JArr(xs) =>
      ItemsClose(xs);
      DepthFrame(LBracket, RenderItems(xs), RBracket);
  }

  lemma {:induction false} MemberCloses(m: (Label, Json))
    ensures Depth(RenderMember(m)) == 0
    decreases m, 1
  {
    hide Depth, Render;
    RenderCloses(m.1);
    DepthConcat([Text(m.0), Colon], Render(m.1));
    DepthFlat([Text(m.0), Colon]);
  }

  lemma {:induction false} MembersClose(ms: seq<(Label, Json)>)
    ensures Depth(RenderMembers(ms)) == 0
    decreases ms, 2
  {
    hide Depth, RenderMember;
    DepthFlat([]);
    if ms != [] {
      MemberCloses(ms[0]);
      MembersClose(ms[1..]);
      DepthJoin(RenderMember(ms[0]), RenderMembers(ms[1..]));
    }
  }

  lemma {:induction false} ItemsClose(xs: seq<Json>)
    ensures Depth(RenderItems(xs)) == 0
    decreases xs, 2
  {
    hide Depth, Render;
    DepthFlat([]);
    if xs != [] {
      RenderCloses(xs[0]);
      ItemsClose(xs[1..]);
      DepthJoin(Render(xs[0]), RenderItems(xs[1..]));
    }
  }
}
