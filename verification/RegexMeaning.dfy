/** How the nodes of compiled code correspond to the grammar tree of the pattern. */
module RegexMeaning {
  import opened Bytes
  import opened Closure
  import R = RegexSyntax
  import opened RegexNode
  import RegexFlow

  /** Node and pattern match the same texts at the same places. */
  ghost predicate Means(n: Node, e: R.Re) {
    forall text, i, j :: Accepts(n, text, i, j) <==> R.Matches(e, text, i, j)
  }

  /** Some bracket expression that is not negated lists one of the last eight characters. */
  predicate Limited(e: R.Re) {
    match e
    case Bracket(negated, _, items, _) => negated || forall k :: 0 <= k < |items| ==> LastByte(items[k]) < 248
    case Group(body) => Limited(body)
    case Repeat(body, _) => Limited(body)
    case Cat(left, right) => Limited(left) && Limited(right)
    case Alt(left, right) => Limited(left) && Limited(right)
    case _ => true
  }

  function LastByte(item: R.Item): Byte {
    match item
    case Single(c) => c
    case Range(_, hi) => hi
  }

  /** No group is repeated. */
  predicate Flat(e: R.Re) {
    match e
    case Group(body) => Flat(body)
    case Repeat(body, _) => !body.Group? && Flat(body)
    case Cat(left, right) => Flat(left) && Flat(right)
    case Alt(left, right) => Flat(left) && Flat(right)
    case _ => true
  }

  /** Everything the later theorems need of a node built for `e`. */
  ghost predicate Models(n: Node, e: R.Re) {
    && Sized(n)
    && Means(n, e)
    && GroupCount(n) == R.Groups(e)
    && (Flat(e) ==> RegexFlow.Flat(n))
    && (Limited(e) ==> RegexFlow.ShortSets(n))
    && (!e.Empty? ==> |Code(n)| > 0)
    && (Proper(e) ==> RegexFlow.Tight(n))
  }

  /** No alternation ends in an empty alternative. */
  predicate Proper(e: R.Re) {
    match e
    case Group(body) => Proper(body)
    case Repeat(body, _) => Proper(body)
    case Cat(left, right) => Proper(left) && Proper(right)
    case Alt(left, right) => Proper(left) && Proper(right) && !right.Empty?
    case _ => true
  }

  lemma {:induction false} MatchesForward(e: R.Re, text: seq<Byte>, i: nat, j: nat)
    requires R.WellFormed(e) && R.Matches(e, text, i, j)
    ensures i <= j
    decreases e, 0
  {
    match e
    case Group(body) => MatchesForward(body, text, i, j);
    case Repeat(body, ops) => RepeatForward(body, ops, text, i, j);
    case Cat(left, right) =>
    case Alt(left, right) =>
      if R.Matches(left, text, i, j) { MatchesForward(left, text, i, j); } else { MatchesForward(right, text, i, j); }
    case _ =>
  }

  ghost function ReSpans(e: R.Re, text: seq<Byte>): Span {
    (x: nat, y: nat) => R.Matches(e, text, x, y)
  }

  lemma {:induction false} RepeatForward(body: R.Re, ops: seq<Byte>, text: seq<Byte>, i: nat, j: nat)
    requires R.WellFormed(R.Repeat(body, ops)) && R.Matches(R.Repeat(body, ops), text, i, j)
    ensures i <= j
    decreases body, 2
  {
    SpansForward(body, text);
    RepeatCollapses(ReSpans(body, text), ops);
  }

  lemma {:induction false} SpansForward(e: R.Re, text: seq<Byte>)
    requires R.WellFormed(e)
    ensures Forward(ReSpans(e, text))
    decreases e, 1
  {
    forall i, j | ReSpans(e, text)(i, j) ensures i <= j { MatchesForward(e, text, i, j); }
  }

  lemma SplitNode(a: Node, b: Node, text: seq<Byte>, i: nat, j: nat) returns (m: nat)
    requires Accepts(Cat(a, b), text, i, j)
    ensures i <= m <= j && Accepts(a, text, i, m) && Accepts(b, text, m, j)
  {
    m :| i <= m <= j && Accepts(a, text, i, m) && Accepts(b, text, m, j);
  }

  lemma SplitRe(x: R.Re, y: R.Re, text: seq<Byte>, i: nat, j: nat) returns (m: nat)
    requires R.Matches(R.Cat(x, y), text, i, j)
    ensures i <= m <= j && R.Matches(x, text, i, m) && R.Matches(y, text, m, j)
  {
    m :| i <= m <= j && R.Matches(x, text, i, m) && R.Matches(y, text, m, j);
  }

  /** A branch extended by one more piece with a node of its own. */
  lemma CatModels(a: Node, b: Node, x: R.Re, y: R.Re)
    requires Models(a, x) && Models(b, y) && !y.Empty?
    ensures Models(Cat(a, b), R.Cat(x, y))
  {
    hide Accepts, R.Matches;
    forall text: seq<Byte>, i: nat, j: nat
      ensures Accepts(Cat(a, b), text, i, j) <==> R.Matches(R.Cat(x, y), text, i, j)
    {
      if Accepts(Cat(a, b), text, i, j) {
        var m := SplitNode(a, b, text, i, j);
        JoinRe(x, y, text, i, m, j);
      }
      if R.Matches(R.Cat(x, y), text, i, j) {
        var m := SplitRe(x, y, text, i, j);
        JoinNode(a, b, text, i, m, j);
      }
    }
  }

  lemma JoinRe(x: R.Re, y: R.Re, text: seq<Byte>, i: nat, m: nat, j: nat)
    requires i <= m <= j && R.Matches(x, text, i, m) && R.Matches(y, text, m, j)
    ensures R.Matches(R.Cat(x, y), text, i, j)
  {
  }

  lemma JoinNode(a: Node, b: Node, text: seq<Byte>, i: nat, m: nat, j: nat)
    requires i <= m <= j && Accepts(a, text, i, m) && Accepts(b, text, m, j)
    ensures Accepts(Cat(a, b), text, i, j)
  {
  }

  /** A branch whose last node, a run of literals, grows by one character. */
  lemma GrowRun(pre: Node, chars: seq<Byte>, c: Byte, x: R.Re, escaped: bool)
    requires Models(Cat(pre, Run(chars)), x) && |chars| < 255
    ensures Models(Cat(pre, Run(chars + [c])), R.Cat(x, R.Lit(c, escaped)))
  {
    GrowMeans(pre, chars, c, x, escaped);
    hide Means;
    var run := Run(chars + [c]);
    var n, e := Cat(pre, run), R.Cat(x, R.Lit(c, escaped));
    assert Code(run) == [EXACTN, |chars + [c]| % 256] + (chars + [c]);
    assert Code(n) == Code(pre) + Code(run);
    assert Sized(run) && Sized(n);
    assert Proper(e) ==> Proper(x);
    assert RegexFlow.Tight(Cat(pre, Run(chars))) ==> RegexFlow.Tight(pre);
    assert RegexFlow.Tight(run) && RegexFlow.Tight(n) == RegexFlow.Tight(pre);
    assert GroupCount(Cat(pre, Run(chars))) == GroupCount(pre) + GroupCount(Run(chars)) && GroupCount(Run(chars)) == 0;
    assert GroupCount(n) == GroupCount(pre) + GroupCount(run) && GroupCount(run) == 0;
    assert R.Groups(e) == R.Groups(x) + R.Groups(R.Lit(c, escaped));
    assert Flat(e) ==> RegexFlow.Flat(n);
    assert Limited(e) ==> RegexFlow.ShortSets(n);
  }

  lemma GrowMeans(pre: Node, chars: seq<Byte>, c: Byte, x: R.Re, escaped: bool)
    requires Means(Cat(pre, Run(chars)), x)
    ensures Means(Cat(pre, Run(chars + [c])), R.Cat(x, R.Lit(c, escaped)))
  {
    hide Accepts, R.Matches;
    var before, lit := Cat(pre, Run(chars)), R.Lit(c, escaped);
    forall text: seq<Byte>, i: nat, j: nat
      ensures Accepts(Cat(pre, Run(chars + [c])), text, i, j) <==> R.Matches(R.Cat(x, lit), text, i, j)
    {
      if Accepts(Cat(pre, Run(chars + [c])), text, i, j) {
        var m := SplitNode(pre, Run(chars + [c]), text, i, j);
        RunSnoc(text, m, j, chars, c);
        RunForward(text, m, j - 1, chars);
        JoinNode(pre, Run(chars), text, i, m, j - 1);
        LitMatches(text, j - 1, j, c, escaped);
        JoinRe(x, lit, text, i, j - 1, j);
      }
      if R.Matches(R.Cat(x, lit), text, i, j) {
        var k := SplitRe(x, lit, text, i, j);
        LitMatches(text, k, j, c, escaped);
        assert Accepts(before, text, i, k);
        var m := SplitNode(pre, Run(chars), text, i, k);
        RunSnoc(text, m, j, chars, c);
        JoinNode(pre, Run(chars + [c]), text, i, m, j);
      }
    }
  }

  lemma RunForward(text: seq<Byte>, m: nat, j: nat, chars: seq<Byte>)
    requires Accepts(Run(chars), text, m, j)
    ensures m <= j
  {
  }

  lemma LitMatches(text: seq<Byte>, k: nat, j: nat, c: Byte, escaped: bool)
    ensures R.Matches(R.Lit(c, escaped), text, k, j) <==> j == k + 1 <= |text| && text[k] == c
  {
  }

  lemma RunSnoc(text: seq<Byte>, m: nat, j: nat, chars: seq<Byte>, c: Byte)
    requires m <= j
    ensures Accepts(Run(chars + [c]), text, m, j) <==>
            j >= 1 && m <= j - 1 && Accepts(Run(chars), text, m, j - 1) && j <= |text| && text[j - 1] == c
  {
    if j == m + |chars| + 1 <= |text| {
      assert text[m..j] == text[m..j - 1] + [text[j - 1]];
      assert (chars + [c])[..|chars|] == chars;
    }
  }

  lemma LitModels(c: Byte, escaped: bool)
    ensures Models(Run([c]), R.Lit(c, escaped)) && RegexFlow.IsChar(Run([c]))
  {
    forall text: seq<Byte>, i: nat, j: nat
      ensures Accepts(Run([c]), text, i, j) <==> R.Matches(R.Lit(c, escaped), text, i, j)
    {
      if j == i + 1 <= |text| { assert text[i..j] == [text[i]]; }
    }
  }

  lemma AnyModels()
    ensures Models(Any, R.Any)
  {
  }

  lemma AnchorsModel()
    ensures Models(LineStart, R.LineStart) && Models(LineEnd, R.LineEnd)
  {
  }

  lemma SetModels(negated: bool, bits: seq<Byte>, e: R.Re)
    requires e.Bracket? && e.negated == negated && |bits| <= 32
    requires forall c: Byte :: SetHas(bits, c) <==> R.Listed(e.closeFirst, e.items, e.hyphenLast, c)
    requires Limited(e) ==> negated || |bits| < 32
    ensures Models(Set(negated, bits), e)
  {
  }

  lemma GroupModels(reg: Byte, inner: Byte, n: Node, e: R.Re)
    requires Models(n, e)
    ensures Models(Group(reg, inner, n), R.Group(e))
  {
    forall text: seq<Byte>, i: nat, j: nat
      ensures Accepts(Group(reg, inner, n), text, i, j) <==> R.Matches(R.Group(e), text, i, j)
    {
      assert Accepts(n, text, i, j) <==> R.Matches(e, text, i, j);
    }
  }

  lemma AltModels(a: Node, b: Node, x: R.Re, y: R.Re)
    requires Models(a, x) && Models(b, y)
    ensures Models(Alt(a, b), R.Alt(x, y))
  {
    forall text: seq<Byte>, i: nat, j: nat
      ensures Accepts(Alt(a, b), text, i, j) <==> R.Matches(R.Alt(x, y), text, i, j)
    {
      assert Accepts(a, text, i, j) <==> R.Matches(x, text, i, j);
      assert Accepts(b, text, i, j) <==> R.Matches(y, text, i, j);
    }
  }

  /** The one loop that stands for a run of repetition operators. */
  function Loop(n: Node, zero: bool, many: bool): Node {
    if zero && many then Star(n) else if many then Plus(n) else Opt(n)
  }

  lemma LoopModels(n: Node, e: R.Re, ops: seq<Byte>)
    requires R.WellFormed(R.Repeat(e, ops)) && Models(n, e) && (!e.Group? ==> RegexFlow.IsChar(n))
    ensures Models(Loop(n, ZeroOk(ops), ManyOk(ops)), R.Repeat(e, ops))
  {
    var zero, many := ZeroOk(ops), ManyOk(ops);
    assert zero || many by { assert ops[0] != 43 || ops[0] != 63; }
    forall text: seq<Byte>, i: nat, j: nat
      ensures Accepts(Loop(n, zero, many), text, i, j) <==> R.Matches(R.Repeat(e, ops), text, i, j)
    {
      LoopMatches(n, e, ops, text, i, j);
    }
  }

  lemma LoopMatches(n: Node, e: R.Re, ops: seq<Byte>, text: seq<Byte>, i: nat, j: nat)
    requires R.WellFormed(R.Repeat(e, ops)) && Means(n, e)
    requires ZeroOk(ops) || ManyOk(ops)
    ensures Accepts(Loop(n, ZeroOk(ops), ManyOk(ops)), text, i, j) <==> R.Matches(R.Repeat(e, ops), text, i, j)
  {
    var r, s := Spans(n, text), ReSpans(e, text);
    var zero, many := ZeroOk(ops), ManyOk(ops);
    RepeatMatches(e, ops, text, i, j);
    assert Same(r, s);
    LoopAccepts(n, zero, many, text, i, j);
    hide Accepts, R.Matches, Collapsed, ZeroOk, ManyOk, Closure.Star, Closure.Plus;
    if Collapsed(r, zero, many)(i, j) { CollapsedSame(r, s, zero, many, i, j); }
    if Collapsed(s, zero, many)(i, j) { CollapsedSame(s, r, zero, many, i, j); }
  }

  lemma RepeatMatches(e: R.Re, ops: seq<Byte>, text: seq<Byte>, i: nat, j: nat)
    requires R.WellFormed(R.Repeat(e, ops)) && (ZeroOk(ops) || ManyOk(ops))
    ensures R.Matches(R.Repeat(e, ops), text, i, j) <==> Collapsed(ReSpans(e, text), ZeroOk(ops), ManyOk(ops))(i, j)
  {
    SpansForward(e, text);
    RepeatCollapses(ReSpans(e, text), ops);
  }

  lemma LoopAccepts(n: Node, zero: bool, many: bool, text: seq<Byte>, i: nat, j: nat)
    requires zero || many
    ensures Accepts(Loop(n, zero, many), text, i, j) <==> Collapsed(Spans(n, text), zero, many)(i, j)
  {
  }

  lemma CollapsedSame(r: Span, s: Span, zero: bool, many: bool, i: nat, j: nat)
    requires Same(r, s) && Collapsed(r, zero, many)(i, j)
    ensures Collapsed(s, zero, many)(i, j)
  {
    if zero && many {
      StarSame(r, s, i, j);
    } else if many {
      var m: nat :| i <= m <= j && r(i, m) && Closure.Star(r, m, j);
      StarSame(r, s, m, j);
      assert s(i, m);
    }
  }
}
