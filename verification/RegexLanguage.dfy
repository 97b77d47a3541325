/**
 The nondeterministic reading of compiled code accepts exactly the language of the
 node it was compiled from.  Soundness is an invariant on (code position, text
 position) pairs that every move preserves; completeness builds the moves.
 */
module RegexLanguage {
  import opened Bytes
  import opened Closure
  import opened RegexNode
  import opened RegexNfa

  /** Code position `p` is one of the jumps that end the alternatives of `n`, a node at offset `i`. */
  predicate OnSpine(n: Node, i: nat, p: int)
    decreases n
  {
    n.Alt? && (p == i + 3 + |Code(n.left)| || OnSpine(n.right, i + 6 + |Code(n.left)|, p))
  }

  /**
   Position `p` lies in the code of `n`, which stands at offset `i`; if that code was
   entered at text position `s`, text position `d` is one it can be at when `p` is reached.
   */
  ghost predicate Inside(n: Node, i: nat, text: seq<Byte>, s: nat, c: Cfg)
    decreases n, 0
  {
    match n
    case Nothing => false
    case Group(_, _, body) =>
      var k := |Code(body)|;
      || c == Cfg(i, s)
      || Inside(body, i + 3, text, s, c)
      || ((c.p == i + 3 + k || (body.Alt? && c.p == i + 4 + k)) && Accepts(body, text, s, c.d))
    case Star(body) => InLoop(body, i, text, s, c)
    case Plus(body) =>
      || c == Cfg(i, s)
      || ((c.p == i + 3 || c.p == i + 6 + |Code(body)|) && Closure.Plus(Spans(body, text), s, c.d))
      || InnerLoop(body, i + 6, text, s, c)
    case Opt(body) => c == Cfg(i, s) || Inside(body, i + 3, text, s, c)
    case Cat(left, right) =>
      || Inside(left, i, text, s, c)
      || exists m: nat | m <= |text| :: Accepts(left, text, s, m) && Inside(right, i + |Code(left)|, text, m, c)
    case Alt(left, right) =>
      var k := |Code(left)|;
      || c == Cfg(i, s)
      || Inside(left, i + 3, text, s, c)
      || ((c.p == i + 3 + k || OnSpine(right, i + 6 + k, c.p)) && Accepts(left, text, s, c.d))
      || Inside(right, i + 6 + k, text, s, c)
    case _ => c == Cfg(i, s)
  }

  ghost predicate InLoop(body: Node, i: nat, text: seq<Byte>, s: nat, c: Cfg)
    decreases body, 2
  {
    || ((c.p == i || c.p == i + 3 + |Code(body)|) && Closure.Star(Spans(body, text), s, c.d))
    || InnerLoop(body, i + 3, text, s, c)
  }

  /** In the body of a loop, at offset `i`, after some rounds. */
  ghost predicate InnerLoop(body: Node, i: nat, text: seq<Byte>, s: nat, c: Cfg)
    decreases body, 1
  {
    exists m: nat | m <= |text| :: Closure.Star(Spans(body, text), s, m) && Inside(body, i, text, m, c)
  }

  /** In the second half of a sequence, after the first. */
  ghost predicate InSecond(n: Node, i: nat, text: seq<Byte>, s: nat, c: Cfg)
    requires n.Cat?
  {
    exists m: nat | m <= |text| :: Accepts(n.left, text, s, m) && Inside(n.right, i + |Code(n.left)|, text, m, c)
  }

  lemma InnerMid(body: Node, i: nat, text: seq<Byte>, s: nat, c: Cfg) returns (m: nat)
    requires InnerLoop(body, i, text, s, c)
    ensures m <= |text| && Closure.Star(Spans(body, text), s, m) && Inside(body, i, text, m, c)
  {
    m :| m <= |text| && Closure.Star(Spans(body, text), s, m) && Inside(body, i, text, m, c);
  }

  lemma InnerAt(body: Node, i: nat, text: seq<Byte>, s: nat, m: nat, c: Cfg)
    requires m <= |text| && Closure.Star(Spans(body, text), s, m) && Inside(body, i, text, m, c)
    ensures InnerLoop(body, i, text, s, c)
  {
  }

  lemma SecondMid(n: Node, i: nat, text: seq<Byte>, s: nat, c: Cfg) returns (m: nat)
    requires n.Cat? && InSecond(n, i, text, s, c)
    ensures m <= |text| && Accepts(n.left, text, s, m) && Inside(n.right, i + |Code(n.left)|, text, m, c)
  {
    m :| m <= |text| && Accepts(n.left, text, s, m) && Inside(n.right, i + |Code(n.left)|, text, m, c);
  }

  lemma SecondAt(n: Node, i: nat, text: seq<Byte>, s: nat, m: nat, c: Cfg)
    requires n.Cat? && m <= |text| && Accepts(n.left, text, s, m) && Inside(n.right, i + |Code(n.left)|, text, m, c)
    ensures InSecond(n, i, text, s, c)
  {
  }

  ghost predicate Done(n: Node, i: nat, text: seq<Byte>, s: nat, c: Cfg) {
    c.p == i + |Code(n)| && Accepts(n, text, s, c.d)
  }

  ghost predicate Here(n: Node, i: nat, text: seq<Byte>, s: nat, c: Cfg) {
    Inside(n, i, text, s, c) || Done(n, i, text, s, c)
  }

  lemma {:induction false} SpineRange(n: Node, i: nat, p: int)
    requires OnSpine(n, i, p)
    ensures i <= p < i + |Code(n)|
  {
    if p != i + 3 + |Code(n.left)| {
      SpineRange(n.right, i + 6 + |Code(n.left)|, p);
    }
  }

  lemma {:induction false} Enter(n: Node, i: nat, text: seq<Byte>, s: nat)
    requires Sized(n) && s <= |text|
    ensures Here(n, i, text, s, Cfg(i, s))
  {
    match n
    case Cat(left, right) =>
      Enter(left, i, text, s);
      if !Inside(left, i, text, s, Cfg(i, s)) {
        Enter(right, i, text, s);
      }
    case Star(body) => assert Closure.Star(Spans(body, text), s, s);
    case _ =>
  }

  // ----- one level of the definitions at a time -----

  lemma GroupParts(n: Node, i: nat, text: seq<Byte>, s: nat, c: Cfg)
    requires n.Group?
    ensures Inside(n, i, text, s, c) <==>
              var k := |Code(n.body)|;
              || c == Cfg(i, s)
              || Inside(n.body, i + 3, text, s, c)
              || ((c.p == i + 3 + k || (n.body.Alt? && c.p == i + 4 + k)) && Accepts(n.body, text, s, c.d))
    ensures Accepts(n, text, s, c.d) <==> Accepts(n.body, text, s, c.d)
  {
  }

  lemma StarParts(n: Node, i: nat, text: seq<Byte>, s: nat, c: Cfg)
    requires n.Star?
    ensures Inside(n, i, text, s, c) == InLoop(n.body, i, text, s, c)
    ensures Accepts(n, text, s, c.d) <==> Closure.Star(Spans(n.body, text), s, c.d)
  {
  }

  lemma PlusParts(n: Node, i: nat, text: seq<Byte>, s: nat, c: Cfg)
    requires n.Plus?
    ensures Inside(n, i, text, s, c) <==>
              || c == Cfg(i, s)
              || ((c.p == i + 3 || c.p == i + 6 + |Code(n.body)|) && Closure.Plus(Spans(n.body, text), s, c.d))
              || InnerLoop(n.body, i + 6, text, s, c)
    ensures Accepts(n, text, s, c.d) <==> Closure.Plus(Spans(n.body, text), s, c.d)
  {
  }

  lemma OptParts(n: Node, i: nat, text: seq<Byte>, s: nat, c: Cfg)
    requires n.Opt?
    ensures Inside(n, i, text, s, c) <==> c == Cfg(i, s) || Inside(n.body, i + 3, text, s, c)
    ensures Accepts(n, text, s, c.d) <==> s == c.d || Accepts(n.body, text, s, c.d)
  {
  }

  lemma AltParts(n: Node, i: nat, text: seq<Byte>, s: nat, c: Cfg)
    requires n.Alt?
    ensures Inside(n, i, text, s, c) <==>
              var k := |Code(n.left)|;
              || c == Cfg(i, s)
              || Inside(n.left, i + 3, text, s, c)
              || ((c.p == i + 3 + k || OnSpine(n.right, i + 6 + k, c.p)) && Accepts(n.left, text, s, c.d))
              || Inside(n.right, i + 6 + k, text, s, c)
    ensures Accepts(n, text, s, c.d) <==> Accepts(n.left, text, s, c.d) || Accepts(n.right, text, s, c.d)
  {
  }

  lemma CatParts(n: Node, i: nat, text: seq<Byte>, s: nat, c: Cfg)
    requires n.Cat?
    ensures Inside(n, i, text, s, c) <==> Inside(n.left, i, text, s, c) || InSecond(n, i, text, s, c)
  {
  }

  lemma CatSplit(n: Node, text: seq<Byte>, s: nat, e: nat) returns (m: nat)
    requires n.Cat? && Accepts(n, text, s, e)
    ensures s <= m <= e && Accepts(n.left, text, s, m) && Accepts(n.right, text, m, e)
  {
    m :| s <= m <= e && Accepts(n.left, text, s, m) && Accepts(n.right, text, m, e);
  }

  lemma CatJoin(n: Node, text: seq<Byte>, s: nat, m: nat, e: nat)
    requires n.Cat? && s <= m <= e && Accepts(n.left, text, s, m) && Accepts(n.right, text, m, e)
    ensures Accepts(n, text, s, e)
  {
  }

  lemma StarSplit(r: Span, s: nat, e: nat) returns (m: nat)
    requires Closure.Star(r, s, e) && s != e
    ensures s < m <= e && r(s, m) && Closure.Star(r, m, e)
  {
    m :| s < m <= e && r(s, m) && Closure.Star(r, m, e);
  }

  lemma PlusSplit(r: Span, s: nat, e: nat) returns (m: nat)
    requires Closure.Plus(r, s, e)
    ensures s <= m <= e && r(s, m) && Closure.Star(r, m, e)
  {
    m :| s <= m <= e && r(s, m) && Closure.Star(r, m, e);
  }

  lemma CodeSizes(n: Node)
    ensures n.Group? ==> |Code(n)| >= |Code(n.body)| + 6 && (n.body.Alt? ==> |Code(n)| == |Code(n.body)| + 7)
    ensures n.Star? ==> |Code(n)| == |Code(n.body)| + 6
    ensures n.Plus? ==> |Code(n)| == |Code(n.body)| + 9
    ensures n.Opt? ==> |Code(n)| == |Code(n.body)| + 3
    ensures n.Cat? ==> |Code(n)| == |Code(n.left)| + |Code(n.right)|
    ensures n.Alt? ==> |Code(n)| == |Code(n.left)| + 6 + |Code(n.right)|
  {
  }

  lemma TestInside(n: Node, i: nat, text: seq<Byte>, s: nat, c: Cfg)
    requires n.Run? || n.Any? || n.Set? || n.LineStart? || n.LineEnd? || n.Nothing?
    requires Inside(n, i, text, s, c)
    ensures i <= c.p < i + |Code(n)|
  {
  }

  lemma {:induction false} InsideRange(n: Node, i: nat, text: seq<Byte>, s: nat, c: Cfg)
    requires Inside(n, i, text, s, c)
    ensures i <= c.p < i + |Code(n)|
    decreases n, 0
  {
    hide Inside, Code, Closure.Star, Closure.Plus, Accepts, InnerLoop, InSecond, OnSpine;
    CodeSizes(n);
    match n
    case Group(_, _, body) =>
      GroupParts(n, i, text, s, c);
      if Inside(body, i + 3, text, s, c) { InsideRange(body, i + 3, text, s, c); }
    case Star(body) =>
      StarParts(n, i, text, s, c);
      if InnerLoop(body, i + 3, text, s, c) { LoopRange(body, i + 3, text, s, c); }
    case Plus(body) =>
      PlusParts(n, i, text, s, c);
      if InnerLoop(body, i + 6, text, s, c) { LoopRange(body, i + 6, text, s, c); }
    case Opt(body) =>
      OptParts(n, i, text, s, c);
      if Inside(body, i + 3, text, s, c) { InsideRange(body, i + 3, text, s, c); }
    case Cat(left, right) =>
      CatParts(n, i, text, s, c);
      if Inside(left, i, text, s, c) {
        InsideRange(left, i, text, s, c);
      } else {
        var m := SecondMid(n, i, text, s, c);
        InsideRange(right, i + |Code(left)|, text, m, c);
      }
    case Alt(left, right) =>
      AltParts(n, i, text, s, c);
      var k := |Code(left)|;
      if Inside(left, i + 3, text, s, c) {
        InsideRange(left, i + 3, text, s, c);
      } else if Inside(right, i + 6 + k, text, s, c) {
        InsideRange(right, i + 6 + k, text, s, c);
      } else if OnSpine(right, i + 6 + k, c.p) {
        SpineRange(right, i + 6 + k, c.p);
      }
    case _ => TestInside(n, i, text, s, c);
  }

  lemma {:induction false} LoopRange(body: Node, i: nat, text: seq<Byte>, s: nat, c: Cfg)
    requires InnerLoop(body, i, text, s, c)
    ensures i <= c.p < i + |Code(body)|
    decreases body, 1
  {
    var m := InnerMid(body, i, text, s, c);
    InsideRange(body, i, text, m, c);
  }

  // ----- every move stays inside or leaves at the end -----

  lemma StepTest(code: seq<Byte>, text: seq<Byte>, n: Node, i: nat, s: nat, c: Cfg, c': Cfg)
    requires At(code, i, n) && (n.Run? || n.Any? || n.Set? || n.LineStart? || n.LineEnd?)
    requires Inside(n, i, text, s, c) && Moves(code, text, c, c')
    ensures Here(n, i, text, s, c')
  {
    AtTest(code, i, n);
  }

  lemma StepGroup(code: seq<Byte>, text: seq<Byte>, n: Node, i: nat, s: nat, c: Cfg, c': Cfg)
    requires At(code, i, n) && n.Group? && s <= |text|
    requires Inside(n, i, text, s, c) && !Inside(n.body, i + 3, text, s, c) && Moves(code, text, c, c')
    ensures Here(n, i, text, s, c')
  {
    hide Decode, At, Inside, Accepts, Code;
    AtGroup(code, i, n);
    GroupParts(n, i, text, s, c);
    GroupParts(n, i, text, s, c');
    if c == Cfg(i, s) {
      Enter(n.body, i + 3, text, s);
    }
  }

  /** A loop at offset `i` of its `on_failure_jump`: moves made outside the body. */
  lemma StepLoop(code: seq<Byte>, text: seq<Byte>, body: Node, i: nat, s: nat, c: Cfg, c': Cfg)
    requires At(code, i, Star(body)) && s <= |text|
    requires (c.p == i || c.p == i + 3 + |Code(body)|) && Closure.Star(Spans(body, text), s, c.d)
    requires Moves(code, text, c, c')
    ensures c'.d == c.d
    ensures c.p == i ==> c'.p == i + 6 + |Code(body)| || (c'.p == i + 3 && Here(body, i + 3, text, c.d, c') && c.d <= |text|)
    ensures c.p != i ==> c'.p == i
  {
    hide Decode, At, Here, Accepts, Closure.Star;
    AtStar(code, i, Star(body));
    StarInText(body, text, s, c.d);
    Enter(body, i + 3, text, c.d);
  }

  lemma StarOrDone(body: Node, text: seq<Byte>, s: nat, m: nat, d: nat)
    requires s <= |text| && m <= |text| && Closure.Star(Spans(body, text), s, m) && Accepts(body, text, m, d)
    ensures Closure.Star(Spans(body, text), s, d) && Closure.Plus(Spans(body, text), s, d)
  {
    AcceptsForward(body, text, m, d);
    StarSnoc(Spans(body, text), s, m, d);
  }

  lemma StepStar(code: seq<Byte>, text: seq<Byte>, n: Node, i: nat, s: nat, c: Cfg, c': Cfg)
    requires At(code, i, n) && n.Star? && s <= |text|
    requires (c.p == i || c.p == i + 3 + |Code(n.body)|) && Closure.Star(Spans(n.body, text), s, c.d)
    requires Moves(code, text, c, c')
    ensures Here(n, i, text, s, c')
  {
    hide Decode, At, Moves, Inside, Accepts, Code, Closure.Star, Closure.Plus, InnerLoop;
    AtStar(code, i, n);
    StarParts(n, i, text, s, c');
    StepLoop(code, text, n.body, i, s, c, c');
    if c'.p == i + 3 && c.p == i && c'.p != i + 6 + |Code(n.body)| {
      if Inside(n.body, i + 3, text, c.d, c') {
        InnerAt(n.body, i + 3, text, s, c.d, c');
      } else {
        StarOrDone(n.body, text, s, c.d, c'.d);
      }
    }
  }

  lemma StepPlus(code: seq<Byte>, text: seq<Byte>, n: Node, i: nat, s: nat, c: Cfg, c': Cfg)
    requires At(code, i, n) && n.Plus? && s <= |text|
    requires c == Cfg(i, s) || ((c.p == i + 3 || c.p == i + 6 + |Code(n.body)|) && Closure.Plus(Spans(n.body, text), s, c.d))
    requires Moves(code, text, c, c')
    ensures Here(n, i, text, s, c')
  {
    hide Decode, At, Inside, Accepts, Code, Closure.Star, Closure.Plus, InnerLoop;
    AtPlus(code, i, n);
    PlusParts(n, i, text, s, c');
    if c == Cfg(i, s) {
      StarNone(Spans(n.body, text), s);
      Enter(n.body, i + 6, text, s);
      PlusEntered(text, n.body, i + 6, s, s, c');
    } else {
      hide Moves;
      PlusIsStar(Spans(n.body, text), s, c.d);
      AtStar(code, i + 3, Star(n.body));
      StepLoop(code, text, n.body, i + 3, s, c, c');
      if c.p == i + 3 && c'.p != i + 9 + |Code(n.body)| {
        PlusEntered(text, n.body, i + 6, s, c.d, c');
      }
    }
  }

  lemma StarNone(r: Span, s: nat)
    ensures Closure.Star(r, s, s)
  {
  }

  /** The body of a loop entered after some rounds: inside it, or a round later. */
  lemma PlusEntered(text: seq<Byte>, body: Node, i: nat, s: nat, m: nat, c: Cfg)
    requires s <= |text| && m <= |text| && Closure.Star(Spans(body, text), s, m) && Here(body, i, text, m, c)
    ensures InnerLoop(body, i, text, s, c)
         || (c.p == i + |Code(body)| && Closure.Plus(Spans(body, text), s, c.d) && Closure.Star(Spans(body, text), s, c.d))
  {
    hide Inside, Accepts, Code, Closure.Star, Closure.Plus, InnerLoop;
    if Inside(body, i, text, m, c) {
      InnerAt(body, i, text, s, m, c);
    } else {
      StarOrDone(body, text, s, m, c.d);
    }
  }

  lemma StepOpt(code: seq<Byte>, text: seq<Byte>, n: Node, i: nat, s: nat, c: Cfg, c': Cfg)
    requires At(code, i, n) && n.Opt? && s <= |text|
    requires c == Cfg(i, s) && Moves(code, text, c, c')
    ensures Here(n, i, text, s, c')
  {
    hide Decode, At, Inside, Accepts, Code;
    AtOpt(code, i, n);
    OptParts(n, i, text, s, c');
    Enter(n.body, i + 3, text, s);
  }

  lemma {:induction false} SpineJump(code: seq<Byte>, n: Node, i: nat, p: nat)
    requires At(code, i, n) && OnSpine(n, i, p)
    ensures p < |code| && Decode(code, p).Goto?
    ensures var to := Decode(code, p).to; to == i + |Code(n)| || OnSpine(n, i, to)
  {
    hide Decode, At, Code, PastAlt, OnSpine;
    SpineParts(n, i, p);
    AtAlt(code, i, n);
    var k := i + 6 + |Code(n.left)|;
    SpineNext(n.right, k);
    if p != k - 3 {
      SpineJump(code, n.right, k, p);
      SpineParts(n, i, Decode(code, p).to);
    } else {
      SpineParts(n, i, k + PastAlt(n.right));
    }
  }

  lemma SpineParts(n: Node, i: nat, p: int)
    ensures OnSpine(n, i, p) <==>
            n.Alt? && (p == i + 3 + |Code(n.left)| || OnSpine(n.right, i + 6 + |Code(n.left)|, p))
  {
  }

  lemma StepAltStart(code: seq<Byte>, text: seq<Byte>, n: Node, i: nat, s: nat, c': Cfg)
    requires At(code, i, n) && n.Alt? && s <= |text| && Moves(code, text, Cfg(i, s), c')
    ensures Here(n, i, text, s, c')
  {
    hide Decode, At, Code, Inside, Accepts, OnSpine;
    AtAlt(code, i, n);
    AltParts(n, i, text, s, c');
    Enter(n.left, i + 3, text, s);
    Enter(n.right, i + 6 + |Code(n.left)|, text, s);
  }

  lemma StepAltEnd(code: seq<Byte>, text: seq<Byte>, n: Node, i: nat, s: nat, c: Cfg, c': Cfg)
    requires At(code, i, n) && n.Alt? && Moves(code, text, c, c')
    requires var k := |Code(n.left)|; c.p == i + 3 + k || OnSpine(n.right, i + 6 + k, c.p)
    requires Accepts(n.left, text, s, c.d)
    ensures Here(n, i, text, s, c')
  {
    hide Decode, At, Code, Inside, Accepts;
    AtAlt(code, i, n);
    AltParts(n, i, text, s, c');
    var k := |Code(n.left)|;
    if c.p != i + 3 + k {
      SpineJump(code, n.right, i + 6 + k, c.p);
    }
  }

  lemma {:induction false} StepInside(code: seq<Byte>, text: seq<Byte>, n: Node, i: nat, s: nat, c: Cfg, c': Cfg)
    requires At(code, i, n) && s <= |text|
    requires Inside(n, i, text, s, c) && Moves(code, text, c, c')
    ensures Here(n, i, text, s, c')
    decreases n, 1
  {
    hide Decode, At, Moves, Here, Inside;
    match n
    case Nothing => NothingInside(n, i, text, s, c);
    case Group(_, _, _) => StepInGroup(code, text, n, i, s, c, c');
    case Star(_) => StepInStar(code, text, n, i, s, c, c');
    case Plus(_) => StepInPlus(code, text, n, i, s, c, c');
    case Opt(_) => StepInOpt(code, text, n, i, s, c, c');
    case Cat(_, _) => StepInCat(code, text, n, i, s, c, c');
    case Alt(_, _) => StepInAlt(code, text, n, i, s, c, c');
    case _ => StepTest(code, text, n, i, s, c, c');
  }

  lemma NothingInside(n: Node, i: nat, text: seq<Byte>, s: nat, c: Cfg)
    requires n.Nothing?
    ensures !Inside(n, i, text, s, c)
  {
  }

  lemma {:induction false} StepInGroup(code: seq<Byte>, text: seq<Byte>, n: Node, i: nat, s: nat, c: Cfg, c': Cfg)
    requires At(code, i, n) && n.Group? && s <= |text|
    requires Inside(n, i, text, s, c) && Moves(code, text, c, c')
    ensures Here(n, i, text, s, c')
    decreases n, 0
  {
    hide Decode, At, Moves, Inside, Accepts, Code;
    AtGroup(code, i, n);
    GroupParts(n, i, text, s, c');
    if Inside(n.body, i + 3, text, s, c) {
      StepInside(code, text, n.body, i + 3, s, c, c');
    } else {
      StepGroup(code, text, n, i, s, c, c');
    }
  }

  lemma {:induction false} StepInStar(code: seq<Byte>, text: seq<Byte>, n: Node, i: nat, s: nat, c: Cfg, c': Cfg)
    requires At(code, i, n) && n.Star? && s <= |text|
    requires Inside(n, i, text, s, c) && Moves(code, text, c, c')
    ensures Here(n, i, text, s, c')
    decreases n, 0
  {
    hide Decode, At, Moves, Inside, Accepts, Code, Closure.Star, Closure.Plus, InnerLoop;
    AtStar(code, i, n);
    var body := n.body;
    StarParts(n, i, text, s, c);
    StarParts(n, i, text, s, c');
    if (c.p == i || c.p == i + 3 + |Code(body)|) && Closure.Star(Spans(body, text), s, c.d) {
      StepStar(code, text, n, i, s, c, c');
    } else {
      var m := InnerMid(body, i + 3, text, s, c);
      StepInside(code, text, body, i + 3, m, c, c');
      PlusEntered(text, body, i + 3, s, m, c');
    }
  }

  lemma {:induction false} StepInPlus(code: seq<Byte>, text: seq<Byte>, n: Node, i: nat, s: nat, c: Cfg, c': Cfg)
    requires At(code, i, n) && n.Plus? && s <= |text|
    requires Inside(n, i, text, s, c) && Moves(code, text, c, c')
    ensures Here(n, i, text, s, c')
    decreases n, 0
  {
    hide Decode, At, Moves, Inside, Accepts, Code, Closure.Star, Closure.Plus, InnerLoop;
    AtPlus(code, i, n);
    var body := n.body;
    AtStar(code, i + 3, Star(body));
    PlusParts(n, i, text, s, c);
    PlusParts(n, i, text, s, c');
    if c == Cfg(i, s) || ((c.p == i + 3 || c.p == i + 6 + |Code(body)|) && Closure.Plus(Spans(body, text), s, c.d)) {
      StepPlus(code, text, n, i, s, c, c');
    } else {
      var m := InnerMid(body, i + 6, text, s, c);
      StepInside(code, text, body, i + 6, m, c, c');
      PlusEntered(text, body, i + 6, s, m, c');
    }
  }

  lemma {:induction false} StepInOpt(code: seq<Byte>, text: seq<Byte>, n: Node, i: nat, s: nat, c: Cfg, c': Cfg)
    requires At(code, i, n) && n.Opt? && s <= |text|
    requires Inside(n, i, text, s, c) && Moves(code, text, c, c')
    ensures Here(n, i, text, s, c')
    decreases n, 0
  {
    hide Decode, At, Moves, Inside, Accepts, Code;
    AtOpt(code, i, n);
    OptParts(n, i, text, s, c);
    OptParts(n, i, text, s, c');
    if c == Cfg(i, s) {
      StepOpt(code, text, n, i, s, c, c');
    } else {
      StepInside(code, text, n.body, i + 3, s, c, c');
    }
  }

  lemma {:induction false} StepInAlt(code: seq<Byte>, text: seq<Byte>, n: Node, i: nat, s: nat, c: Cfg, c': Cfg)
    requires At(code, i, n) && n.Alt? && s <= |text|
    requires Inside(n, i, text, s, c) && Moves(code, text, c, c')
    ensures Here(n, i, text, s, c')
    decreases n, 0
  {
    hide Decode, At, Moves, Inside, Accepts, Code, OnSpine;
    AtAlt(code, i, n);
    AltParts(n, i, text, s, c);
    AltParts(n, i, text, s, c');
    var k := |Code(n.left)|;
    if Inside(n.left, i + 3, text, s, c) {
      StepInside(code, text, n.left, i + 3, s, c, c');
    } else if Inside(n.right, i + 6 + k, text, s, c) {
      StepInside(code, text, n.right, i + 6 + k, s, c, c');
    } else if c == Cfg(i, s) {
      StepAltStart(code, text, n, i, s, c');
    } else {
      StepAltEnd(code, text, n, i, s, c, c');
    }
  }

  lemma {:induction false} StepInCat(code: seq<Byte>, text: seq<Byte>, n: Node, i: nat, s: nat, c: Cfg, c': Cfg)
    requires At(code, i, n) && n.Cat? && s <= |text|
    requires Inside(n, i, text, s, c) && Moves(code, text, c, c')
    ensures Here(n, i, text, s, c')
    decreases n, 0
  {
    hide Decode, At, Moves, Inside, Accepts, Code, InSecond;
    var left, right := n.left, n.right;
    AtCat(code, i, n);
    var mid := i + |Code(left)|;
    CatParts(n, i, text, s, c);
    CatParts(n, i, text, s, c');
    if Inside(left, i, text, s, c) {
      StepInside(code, text, left, i, s, c, c');
      if !Inside(left, i, text, s, c') {
        AcceptsForward(left, text, s, c'.d);
        Enter(right, mid, text, c'.d);
        SecondHere(n, i, text, s, c'.d, c');
      }
    } else {
      var m := SecondMid(n, i, text, s, c);
      StepInside(code, text, right, mid, m, c, c');
      AcceptsForward(left, text, s, m);
      SecondHere(n, i, text, s, m, c');
    }
  }

  lemma SecondHere(n: Node, i: nat, text: seq<Byte>, s: nat, m: nat, c: Cfg)
    requires n.Cat? && s <= m <= |text| && Accepts(n.left, text, s, m)
    requires Here(n.right, i + |Code(n.left)|, text, m, c)
    ensures InSecond(n, i, text, s, c) || (c.p == i + |Code(n.left)| + |Code(n.right)| && Accepts(n, text, s, c.d))
  {
    hide Inside, Accepts, Code, InSecond;
    if Inside(n.right, i + |Code(n.left)|, text, m, c) {
      SecondAt(n, i, text, s, m, c);
    } else {
      AcceptsForward(n.right, text, m, c.d);
      CatJoin(n, text, s, m, c.d);
    }
  }

  lemma MovesInside(code: seq<Byte>, text: seq<Byte>, n: Node, s: nat, c: Cfg, c': Cfg)
    requires |code| == |Code(n)| && Here(n, 0, text, s, c) && Moves(code, text, c, c')
    ensures Inside(n, 0, text, s, c)
  {
    hide Inside, Accepts, Code, Decode;
  }

  /** The whole pattern: what is reachable from its start is consistent with the node. */
  lemma {:induction false} StepsHere(code: seq<Byte>, text: seq<Byte>, n: Node, s: nat, c: Cfg, c': Cfg, k: nat)
    requires At(code, 0, n) && |code| == |Code(n)| && s <= |text|
    requires Here(n, 0, text, s, c) && Steps(code, text, c, c', k)
    ensures Here(n, 0, text, s, c')
    decreases k
  {
    hide Here, Moves, At, Code;
    if k > 0 {
      var m :| Moves(code, text, c, m) && Steps(code, text, m, c', k - 1);
      MovesInside(code, text, n, s, c, m);
      StepInside(code, text, n, 0, s, c, m);
      StepsHere(code, text, n, s, m, c', k - 1);
    }
  }

  lemma AtSized(code: seq<Byte>, i: nat, n: Node)
    requires At(code, i, n)
    ensures Sized(n)
  {
  }

  lemma ReachableHere(code: seq<Byte>, text: seq<Byte>, n: Node, s: nat, c: Cfg)
    requires At(code, 0, n) && |code| == |Code(n)| && s <= |text|
    requires Reaches(code, text, Cfg(0, s), c)
    ensures Here(n, 0, text, s, c)
  {
    hide Here, Moves, At, Code, Steps;
    var k: nat :| Steps(code, text, Cfg(0, s), c, k);
    AtSized(code, 0, n);
    Enter(n, 0, text, s);
    StepsHere(code, text, n, s, Cfg(0, s), c, k);
  }

  // ----- the moves that accept a text -----

  lemma {:induction false} Follow(code: seq<Byte>, text: seq<Byte>, n: Node, i: nat, s: nat, e: nat)
    requires At(code, i, n) && s <= |text| && Accepts(n, text, s, e)
    ensures Reaches(code, text, Cfg(i, s), Cfg(i + |Code(n)|, e))
    decreases n, 2, 0
  {
    hide Decode, At, Reaches, Moves, Accepts, Code;
    match n
    case Nothing => FollowNothing(code, text, n, i, s, e);
    case Group(_, _, _) => FollowGroup(code, text, n, i, s, e);
    case Star(body) =>
      AtStar(code, i, n);
      StarParts(n, i, text, s, Cfg(i, e));
      FollowStar(code, text, body, i, s, e);
    case Plus(_) => FollowPlus(code, text, n, i, s, e);
    case Opt(_) => FollowOpt(code, text, n, i, s, e);
    case Cat(_, _) => FollowCat(code, text, n, i, s, e);
    case Alt(_, _) => FollowAlt(code, text, n, i, s, e);
    case _ => FollowTest(code, text, n, i, s, e);
  }

  lemma FollowNothing(code: seq<Byte>, text: seq<Byte>, n: Node, i: nat, s: nat, e: nat)
    requires n.Nothing? && Accepts(n, text, s, e)
    ensures Reaches(code, text, Cfg(i, s), Cfg(i + |Code(n)|, e))
  {
    ReachesSelf(code, text, Cfg(i, e));
  }

  lemma FollowTest(code: seq<Byte>, text: seq<Byte>, n: Node, i: nat, s: nat, e: nat)
    requires At(code, i, n) && s <= |text| && Accepts(n, text, s, e)
    requires n.Run? || n.Any? || n.Set? || n.LineStart? || n.LineEnd?
    ensures Reaches(code, text, Cfg(i, s), Cfg(i + |Code(n)|, e))
  {
    hide Decode, At, Reaches, SetHas;
    var end := Cfg(i + |Code(n)|, e);
    AtTest(code, i, n);
    ReachesSelf(code, text, end);
    ReachesFirst(code, text, Cfg(i, s), end, end);
  }

  lemma {:induction false} FollowOpt(code: seq<Byte>, text: seq<Byte>, n: Node, i: nat, s: nat, e: nat)
    requires At(code, i, n) && s <= |text| && n.Opt? && Accepts(n, text, s, e)
    ensures Reaches(code, text, Cfg(i, s), Cfg(i + |Code(n)|, e))
    decreases n, 1, 0
  {
    hide Decode, At, Reaches, Accepts, Code;
    OptParts(n, i, text, s, Cfg(i, e));
    var end := Cfg(i + |Code(n)|, e);
    AtOpt(code, i, n);
    if s == e {
      ReachesSelf(code, text, end);
      ReachesFirst(code, text, Cfg(i, s), end, end);
    } else {
      Follow(code, text, n.body, i + 3, s, e);
      ReachesFirst(code, text, Cfg(i, s), Cfg(i + 3, s), end);
    }
  }

  lemma {:induction false} FollowCat(code: seq<Byte>, text: seq<Byte>, n: Node, i: nat, s: nat, e: nat)
    requires At(code, i, n) && s <= |text| && n.Cat? && Accepts(n, text, s, e)
    ensures Reaches(code, text, Cfg(i, s), Cfg(i + |Code(n)|, e))
    decreases n, 1, 0
  {
    hide Decode, At, Reaches, Accepts, Code;
    AtCat(code, i, n);
    var m := CatSplit(n, text, s, e);
    AcceptsForward(n.left, text, s, m);
    Follow(code, text, n.left, i, s, m);
    Follow(code, text, n.right, i + |Code(n.left)|, m, e);
    ReachesJoin(code, text, Cfg(i, s), Cfg(i + |Code(n.left)|, m), Cfg(i + |Code(n)|, e));
  }

  lemma {:induction false} FollowGroup(code: seq<Byte>, text: seq<Byte>, n: Node, i: nat, s: nat, e: nat)
    requires At(code, i, n) && s <= |text| && n.Group? && Accepts(n, text, s, e)
    ensures Reaches(code, text, Cfg(i, s), Cfg(i + |Code(n)|, e))
    decreases n, 1, 0
  {
    hide Decode, At, Reaches, Accepts, Code;
    GroupParts(n, i, text, s, Cfg(i, e));
    var j := i + |Code(n)|;
    AtGroup(code, i, n);
    Follow(code, text, n.body, i + 3, s, e);
    ReachesFirst(code, text, Cfg(i, s), Cfg(i + 3, s), Cfg(i + 3 + |Code(n.body)|, e));
    if n.body.Alt? {
      ReachesLast(code, text, Cfg(i, s), Cfg(i + 3 + |Code(n.body)|, e), Cfg(j - 3, e));
    }
    ReachesLast(code, text, Cfg(i, s), Cfg(j - 3, e), Cfg(j, e));
  }

  lemma {:induction false} FollowStar(code: seq<Byte>, text: seq<Byte>, body: Node, i: nat, s: nat, e: nat)
    requires At(code, i, Star(body)) && s <= |text| && Closure.Star(Spans(body, text), s, e)
    ensures Reaches(code, text, Cfg(i, s), Cfg(i + 6 + |Code(body)|, e))
    decreases body, 3, e - s
  {
    hide Decode, At, Reaches, Accepts, Code, Closure.Star;
    AtStar(code, i, Star(body));
    var k := |Code(body)|;
    var end := Cfg(i + 6 + k, e);
    if s == e {
      ReachesSelf(code, text, end);
      ReachesFirst(code, text, Cfg(i, s), end, end);
    } else {
      var m := StarSplit(Spans(body, text), s, e);
      AcceptsForward(body, text, s, m);
      Follow(code, text, body, i + 3, s, m);
      FollowStar(code, text, body, i, m, e);
      ReachesFirst(code, text, Cfg(i + 3 + k, m), Cfg(i, m), end);
      ReachesJoin(code, text, Cfg(i + 3, s), Cfg(i + 3 + k, m), end);
      ReachesFirst(code, text, Cfg(i, s), Cfg(i + 3, s), end);
    }
  }

  lemma {:induction false} FollowPlus(code: seq<Byte>, text: seq<Byte>, n: Node, i: nat, s: nat, e: nat)
    requires At(code, i, n) && s <= |text| && n.Plus? && Accepts(n, text, s, e)
    ensures Reaches(code, text, Cfg(i, s), Cfg(i + |Code(n)|, e))
    decreases n, 1, 0
  {
    hide Decode, At, Reaches, Accepts, Code, Closure.Star, Closure.Plus;
    PlusParts(n, i, text, s, Cfg(i, e));
    AtPlus(code, i, n);
    AtStar(code, i + 3, Star(n.body));
    var k := |Code(n.body)|;
    var r := Spans(n.body, text);
    var m := PlusSplit(r, s, e);
    AcceptsForward(n.body, text, s, m);
    Follow(code, text, n.body, i + 6, s, m);
    FollowStar(code, text, n.body, i + 3, m, e);
    var end := Cfg(i + 9 + k, e);
    ReachesFirst(code, text, Cfg(i + 6 + k, m), Cfg(i + 3, m), end);
    ReachesJoin(code, text, Cfg(i + 6, s), Cfg(i + 6 + k, m), end);
    ReachesFirst(code, text, Cfg(i, s), Cfg(i + 6, s), end);
  }

  lemma {:induction false} FollowAlt(code: seq<Byte>, text: seq<Byte>, n: Node, i: nat, s: nat, e: nat)
    requires At(code, i, n) && s <= |text| && n.Alt? && Accepts(n, text, s, e)
    ensures Reaches(code, text, Cfg(i, s), Cfg(i + |Code(n)|, e))
    decreases n, 1, 0
  {
    hide Decode, At, Reaches, Accepts, Code;
    AltParts(n, i, text, s, Cfg(i, e));
    AltSpine(n, i);
    AtAlt(code, i, n);
    var k := |Code(n.left)|;
    var end := Cfg(i + |Code(n)|, e);
    if Accepts(n.left, text, s, e) {
      Follow(code, text, n.left, i + 3, s, e);
      FollowSpine(code, text, n, i, i + 3 + k, e);
      ReachesJoin(code, text, Cfg(i + 3, s), Cfg(i + 3 + k, e), end);
      ReachesFirst(code, text, Cfg(i, s), Cfg(i + 3, s), end);
    } else {
      Follow(code, text, n.right, i + 6 + k, s, e);
      ReachesFirst(code, text, Cfg(i, s), Cfg(i + 6 + k, s), end);
    }
  }

  lemma AltSpine(n: Node, i: nat)
    requires n.Alt?
    ensures OnSpine(n, i, i + 3 + |Code(n.left)|)
  {
  }

  /** The jump before `n` leads to the jump that ends its first alternative, or past it. */
  lemma SpineNext(n: Node, i: nat)
    ensures n.Alt? ==> PastAlt(n) == 3 + |Code(n.left)| && OnSpine(n, i, i + PastAlt(n))
    ensures !n.Alt? ==> PastAlt(n) == |Code(n)|
  {
  }

  /** From the jump that ends an alternative, the chain of jumps leads past the last one. */
  lemma {:induction false} FollowSpine(code: seq<Byte>, text: seq<Byte>, n: Node, i: nat, p: nat, d: nat)
    requires At(code, i, n) && OnSpine(n, i, p)
    ensures Reaches(code, text, Cfg(p, d), Cfg(i + |Code(n)|, d))
    decreases n, 0, 0
  {
    hide Decode, At, Reaches, Code;
    SpineNext(n.right, i + 6 + |Code(n.left)|);
    AtAlt(code, i, n);
    var k := |Code(n.left)|;
    var end := Cfg(i + |Code(n)|, d);
    if p != i + 3 + k {
      FollowSpine(code, text, n.right, i + 6 + k, p, d);
    } else {
      var to := i + 6 + k + PastAlt(n.right);
      if n.right.Alt? {
        FollowSpine(code, text, n.right, i + 6 + k, to, d);
      } else {
        ReachesSelf(code, text, end);
      }
      ReachesFirst(code, text, Cfg(p, d), Cfg(to, d), end);
    }
  }

  /**
   Compiled code is correct: from its first byte at text position `s` the end of the
   code can be reached at text position `e` exactly when the node accepts text[s..e].
   */
  lemma CodeAcceptsLanguage(n: Node, text: seq<Byte>, s: nat, e: nat)
    requires Sized(n) && |Code(n)| < 32768 && s <= |text|
    ensures Reaches(Code(n), text, Cfg(0, s), Cfg(|Code(n)|, e)) <==> Accepts(n, text, s, e)
  {
    hide Code, Accepts, Reaches, Inside;
    var code := Code(n);
    assert At(code, 0, n);
    if Accepts(n, text, s, e) {
      Follow(code, text, n, 0, s, e);
    }
    if Reaches(code, text, Cfg(0, s), Cfg(|code|, e)) {
      ReachableHere(code, text, n, s, Cfg(|code|, e));
      if Inside(n, 0, text, s, Cfg(|code|, e)) {
        InsideRange(n, 0, text, s, Cfg(|code|, e));
      }
    }
  }
}
