/**
 How control flows in the code of patterns that repeat nothing but single characters, whatever their
 groups: no jump other than those of a loop itself leads into it.
 */
module RegexFlow {
  import opened Bytes
  import opened RegexNode
  import opened RegexNfa
  import opened RegexJumps

  predicate IsChar(n: Node) { (n.Run? && |n.chars| == 1) || n.Any? || n.Set? }

  /** Repetition only of single characters. */
  predicate Flat(n: Node) {
    match n
    case Group(_, _, body) => Flat(body)
    case Star(body) => IsChar(body)
    case Plus(body) => IsChar(body)
    case Opt(body) => IsChar(body)
    case Cat(left, right) => Flat(left) && Flat(right)
    case Alt(left, right) => Flat(left) && Flat(right)
    case _ => true
  }

  /** No bracket expression other than a negated one has a bitmap of the full 32 bytes, that is,
      lists one of the last eight characters. */
  predicate ShortSets(n: Node) {
    match n
    case Set(negated, bits) => negated || |bits| < 32
    case Group(_, _, body) => ShortSets(body)
    case Star(body) => ShortSets(body)
    case Plus(body) => ShortSets(body)
    case Opt(body) => ShortSets(body)
    case Cat(left, right) => ShortSets(left) && ShortSets(right)
    case Alt(left, right) => ShortSets(left) && ShortSets(right)
    case _ => true
  }

  /** No alternation ends in an alternative without code. */
  predicate Tight(n: Node) {
    match n
    case Group(_, _, body) => Tight(body)
    case Star(body) => Tight(body)
    case Plus(body) => Tight(body)
    case Opt(body) => Tight(body)
    case Cat(left, right) => Tight(left) && Tight(right)
    case Alt(left, right) => Tight(left) && Tight(right) && |Code(right)| > 0
    case _ => true
  }

  /** Group `reg`, which encloses `inner` others, is one of those of `n`. */
  predicate HasGroup(n: Node, reg: Byte, inner: Byte) {
    match n
    case Group(r, k, body) => (r == reg && k == inner) || HasGroup(body, reg, inner)
    case Star(body) => HasGroup(body, reg, inner)
    case Plus(body) => HasGroup(body, reg, inner)
    case Opt(body) => HasGroup(body, reg, inner)
    case Cat(left, right) => HasGroup(left, reg, inner) || HasGroup(right, reg, inner)
    case Alt(left, right) => HasGroup(left, reg, inner) || HasGroup(right, reg, inner)
    case _ => false
  }

  lemma {:induction false} GroupsInRange(n: Node, first: nat, reg: Byte, inner: Byte)
    requires Numbered(n, first) && HasGroup(n, reg, inner)
    ensures first < reg <= reg + inner <= first + GroupCount(n)
  {
    match n
    case Group(r, k, body) => if r != reg || k != inner { GroupsInRange(body, first + 1, reg, inner); }
    case Star(body) => GroupsInRange(body, first, reg, inner);
    case Plus(body) => GroupsInRange(body, first, reg, inner);
    case Opt(body) => GroupsInRange(body, first, reg, inner);
    case Cat(left, right) =>
      if HasGroup(left, reg, inner) { GroupsInRange(left, first, reg, inner); } else { GroupsInRange(right, first + GroupCount(left), reg, inner); }
    case Alt(left, right) =>
      if HasGroup(left, reg, inner) { GroupsInRange(left, first, reg, inner); } else { GroupsInRange(right, first + GroupCount(left), reg, inner); }
    case _ =>
  }

  /** Position `p` is the body or the closing jump of a loop of `n`, which stands at `i`. */
  predicate Inner(n: Node, i: int, p: int) {
    match n
    case Group(_, _, body) => Inner(body, i + 3, p)
    case Star(body) => p == i + 3 || p == i + 3 + |Code(body)|
    case Plus(body) => p == i + 6 || p == i + 6 + |Code(body)|
    case Cat(left, right) => Inner(left, i, p) || Inner(right, i + |Code(left)|, p)
    case Alt(left, right) => Inner(left, i + 3, p) || Inner(right, i + 6 + |Code(left)|, p)
    case _ => false
  }

  lemma CharCode(n: Node)
    requires IsChar(n)
    ensures |Code(n)| >= 1
  {
  }

  lemma {:induction false} InnerRange(n: Node, i: int, p: int)
    requires Flat(n) && Inner(n, i, p)
    ensures i < p < i + |Code(n)|
  {
    match n
    case Group(_, _, body) => InnerRange(body, i + 3, p);
    case Star(body) => CharCode(body);
    case Plus(body) => CharCode(body);
    case Cat(left, right) =>
      if Inner(left, i, p) { InnerRange(left, i, p); } else { InnerRange(right, i + |Code(left)|, p); }
    case Alt(left, right) =>
      if Inner(left, i + 3, p) { InnerRange(left, i + 3, p); } else { InnerRange(right, i + 6 + |Code(left)|, p); }
    case _ =>
  }

  /** An instruction that consumes exactly one character. */
  predicate OneChar(x: Instr) { (x.Exact? && |x.chars| == 1) || x.AnyChar? || x.CharSet? }

  /** A loop over one character whose `on_failure_jump` is at `p`. */
  predicate LoopHead(code: seq<Byte>, p: int) {
    && 0 <= p && p + 3 < |code|
    && Decode(code, p).OnFail?
    && OneChar(Decode(code, p + 3))
    && var e := p + 3 + Size(Decode(code, p + 3));
       && Decode(code, p).to == e + 3
       && e < |code| && Decode(code, e) == Goto(MAYBE_POP_JUMP, p)
  }

  /** What the instruction at `p` may do, in terms of the loops of `n`. */
  predicate Flows(code: seq<Byte>, n: Node, i: int, j: int, p: int)
    requires 0 <= p < |code|
  {
    var x := Decode(code, p);
    match x
    case OnFail(to) =>
      p < to <= j && p + 3 <= j && !Inner(n, i, p) && !Inner(n, i, to) && (Inner(n, i, p + 3) ==> LoopHead(code, p))
    case Goto(op, to) =>
      if op == MAYBE_POP_JUMP then Inner(n, i, p) && i <= to < p && LoopHead(code, to) && Decode(code, to).to == p + 3
      else if op == DUMMY_FAILURE_JUMP then !Inner(n, i, p) && to == p + 6 && p + 6 < j && LoopHead(code, p + 3)
      else op == JUMP_PAST_ALT && p < to <= j && !Inner(n, i, p) && !Inner(n, i, to) && (Tight(n) ==> p + 3 < to)
    case Memory(_, reg, inner) => HasGroup(n, reg, inner) && p + 3 <= j && !Inner(n, i, p) && !Inner(n, i, p + 3)
    case PushDummy => p + 1 <= j && !Inner(n, i, p) && !Inner(n, i, p + 1)
    case Bad => false
    case _ =>
      && p + Size(x) <= j
      && (x.CharSet? && ShortSets(n) ==> x.negated || |x.bits| < 32)
      && (if Inner(n, i, p) then LoopHead(code, p - 3) else !Inner(n, i, p + Size(x)))
  }

  lemma WithinLeft(code: seq<Byte>, n: Node, i: int, m: int, j: int, big: Node, bigI: int, p: int)
    requires 0 <= p < |code| && Flows(code, n, i, m, p) && i <= p < m <= j && bigI <= i
    requires forall q :: i <= q <= m ==> (Inner(big, bigI, q) <==> Inner(n, i, q))
    requires 0 <= i && (ShortSets(big) ==> ShortSets(n)) && (Tight(big) ==> Tight(n))
    requires forall reg, inner :: HasGroup(n, reg, inner) ==> HasGroup(big, reg, inner)
    ensures Flows(code, big, bigI, j, p)
  {
    hide Decode, LoopHead, Inner, ShortSets, Tight, HasGroup;
  }

  /** Every instruction of such a node flows as described. */
  lemma {:induction false} NodeFlows(code: seq<Byte>, n: Node, i: nat, p: int)
    requires At(code, i, n) && Flat(n) && Walk(code, i, p) && i <= p < i + |Code(n)|
    ensures 0 <= p < |code| && Flows(code, n, i, i + |Code(n)|, p)
    decreases n, 1
  {
    AtFits(code, i, n);
    hide Decode, At, Flows, Walk;
    match n
    case Nothing =>
    case Star(_) => StarFlows(code, n, i, p);
    case Plus(_) => PlusFlows(code, n, i, p);
    case Opt(_) => OptFlows(code, n, i, p);
    case Group(_, _, _) => NodeFlowsGroup(code, n, i, p);
    case Cat(_, _) => NodeFlowsCat(code, n, i, p);
    case Alt(_, _) => NodeFlowsAlt(code, n, i, p);
    case _ => TestFlows(code, n, i, p);
  }

  lemma {:induction false} NodeFlowsGroup(code: seq<Byte>, n: Node, i: nat, p: int)
    requires At(code, i, n) && n.Group? && Flat(n) && Walk(code, i, p) && i <= p < i + |Code(n)|
    ensures 0 <= p < |code| && Flows(code, n, i, i + |Code(n)|, p)
    decreases n, 0
  {
    hide Decode, At, Flows, Walk;
    AtGroup(code, i, n);
    NodeLands(code, n.body, i + 3);
    GroupWalk(code, n, i, p);
    var k := i + 3 + |Code(n.body)|;
    if i + 3 <= p < k {
      NodeFlows(code, n.body, i + 3, p);
    }
    GroupFlows(code, n, i, p);
  }

  lemma GroupWalk(code: seq<Byte>, n: Node, i: nat, p: int)
    requires At(code, i, n) && n.Group? && Walk(code, i, p) && i <= p < i + |Code(n)|
    requires AllLand(code, i + 3, i + 3 + |Code(n.body)|)
    ensures var k := i + 3 + |Code(n.body)|;
            || p == i || p == i + |Code(n)| - 3
            || (i + 3 <= p < k && Walk(code, i + 3, p)) || (n.body.Alt? && p == k)
  {
    hide Decode, At, Code;
    AtGroup(code, i, n);
    var k := i + 3 + |Code(n.body)|;
    if p != i {
      assert Walk(code, i + 3, p);
      WalkForward(code, i + 3, p);
      if p > k {
        WalkSplit(code, i + 3, k, p);
        if n.body.Alt? {
          assert Walk(code, k + 1, p);
          OnlyStart(code, k + 1, p);
        } else {
          OnlyStart(code, k, p);
        }
      }
    }
  }

  /** In a group, the loops are those of its body. */
  lemma GroupInner(n: Node, i: int, q: int)
    requires n.Group? && Flat(n)
    ensures Inner(n, i, q) <==> Inner(n.body, i + 3, q)
    ensures q <= i + 3 || q >= i + 3 + |Code(n.body)| ==> !Inner(n, i, q)
  {
    if Inner(n.body, i + 3, q) { InnerRange(n.body, i + 3, q); }
  }

  lemma GroupFlows(code: seq<Byte>, n: Node, i: nat, p: int)
    requires At(code, i, n) && n.Group? && Flat(n) && i <= p < i + |Code(n)| <= |code|
    requires var k := i + 3 + |Code(n.body)|;
      || p == i || p == i + |Code(n)| - 3 || (n.body.Alt? && p == k)
      || (i + 3 <= p < k && Flows(code, n.body, i + 3, k, p))
    ensures Flows(code, n, i, i + |Code(n)|, p)
  {
    hide Decode, At, Inner, Code, LoopHead;
    AtGroup(code, i, n);
    var k, j := i + 3 + |Code(n.body)|, i + |Code(n)|;
    if i + 3 <= p < k {
      forall q ensures Inner(n, i, q) <==> Inner(n.body, i + 3, q) { GroupInner(n, i, q); }
      WithinLeft(code, n.body, i + 3, k, j, n, i, p);
    } else {
      GroupInner(n, i, p);
      GroupInner(n, i, p + 1);
      GroupInner(n, i, p + 3);
    }
  }

  lemma {:induction false} NodeFlowsCat(code: seq<Byte>, n: Node, i: nat, p: int)
    requires At(code, i, n) && n.Cat? && Flat(n) && Walk(code, i, p) && i <= p < i + |Code(n)|
    ensures 0 <= p < |code| && Flows(code, n, i, i + |Code(n)|, p)
    decreases n, 0
  {
    hide Decode, At, Flows, Walk;
    AtCat(code, i, n);
    var m := i + |Code(n.left)|;
    NodeLands(code, n.left, i);
    WalkOfLand(code, i, m);
    if p < m {
      NodeFlows(code, n.left, i, p);
    } else {
      WalkSplit(code, i, m, p);
      NodeFlows(code, n.right, m, p);
    }
    CatFlows(code, n, i, p);
  }

  lemma {:induction false} NodeFlowsAlt(code: seq<Byte>, n: Node, i: nat, p: int)
    requires At(code, i, n) && n.Alt? && Flat(n) && Walk(code, i, p) && i <= p < i + |Code(n)|
    ensures 0 <= p < |code| && Flows(code, n, i, i + |Code(n)|, p)
    decreases n, 0
  {
    hide Decode, At, Flows, Walk;
    AtAlt(code, i, n);
    NodeLands(code, n.left, i + 3);
    var k := i + 3 + |Code(n.left)|;
    AltWalk(code, n, i, p);
    if i < p < k {
      NodeFlows(code, n.left, i + 3, p);
    } else if k + 3 <= p {
      NodeFlows(code, n.right, k + 3, p);
    }
    AltFlows(code, n, i, p);
  }

  lemma TestFlows(code: seq<Byte>, n: Node, i: nat, p: int)
    requires At(code, i, n) && (n.Run? || n.Any? || n.Set? || n.LineStart? || n.LineEnd?)
    requires Walk(code, i, p) && i <= p < i + |Code(n)|
    ensures 0 <= p < |code| && Flows(code, n, i, i + |Code(n)|, p)
  {
    hide Decode, At;
    AtTest(code, i, n);
    OnlyStart(code, i, p);
  }

  /** The only instruction of a one-character body. */
  lemma BodyIs(code: seq<Byte>, body: Node, i: nat, p: int)
    requires At(code, i, body) && IsChar(body)
    ensures i < |code| && OneChar(Decode(code, i)) && Size(Decode(code, i)) == |Code(body)|
    ensures Decode(code, i).CharSet? && ShortSets(body) ==> Decode(code, i).negated || |Decode(code, i).bits| < 32
    ensures Walk(code, i, p) && i <= p < i + |Code(body)| ==> p == i
  {
    hide Decode, At;
    AtTest(code, i, body);
    if Walk(code, i, p) && i <= p < i + |Code(body)| { OnlyStart(code, i, p); }
  }

  lemma StarHead(code: seq<Byte>, n: Node, i: nat)
    requires At(code, i, n) && n.Star? && IsChar(n.body)
    ensures LoopHead(code, i) && i + |Code(n)| <= |code|
  {
    hide Decode, At;
    AtStar(code, i, n);
    BodyIs(code, n.body, i + 3, i + 3);
  }

  lemma StarFlows(code: seq<Byte>, n: Node, i: nat, p: int)
    requires At(code, i, n) && n.Star? && IsChar(n.body) && Walk(code, i, p) && i <= p < i + |Code(n)|
    ensures 0 <= p < |code| && Flows(code, n, i, i + |Code(n)|, p)
    ensures p == i || p == i + 3 || p == i + 3 + |Code(n.body)|
  {
    hide Decode, At;
    AtStar(code, i, n);
    StarHead(code, n, i);
    var e := i + 3 + |Code(n.body)|;
    BodyIs(code, n.body, i + 3, p);
    if p != i && p != i + 3 {
      assert Walk(code, i + 3, p);
      WalkForward(code, i + 3, p);
      assert Walk(code, e, p);
      WalkForward(code, e, p);
      OnlyStart(code, e, p);
    }
  }

  lemma PlusFlows(code: seq<Byte>, n: Node, i: nat, p: int)
    requires At(code, i, n) && n.Plus? && IsChar(n.body) && Walk(code, i, p) && i <= p < i + |Code(n)|
    ensures 0 <= p < |code| && Flows(code, n, i, i + |Code(n)|, p)
  {
    hide Decode, At, LoopHead;
    AtPlus(code, i, n);
    var loop := Star(n.body);
    AtStar(code, i + 3, loop);
    StarHead(code, loop, i + 3);
    CharCode(n.body);
    if p != i {
      assert Walk(code, i + 3, p);
      WalkForward(code, i + 3, p);
      StarFlows(code, loop, i + 3, p);
    }
  }

  lemma OptFlows(code: seq<Byte>, n: Node, i: nat, p: int)
    requires At(code, i, n) && n.Opt? && IsChar(n.body) && Walk(code, i, p) && i <= p < i + |Code(n)|
    ensures 0 <= p < |code| && Flows(code, n, i, i + |Code(n)|, p)
  {
    hide Decode, At, LoopHead;
    AtOpt(code, i, n);
    CharCode(n.body);
    if p != i {
      assert Walk(code, i + 3, p);
      WalkForward(code, i + 3, p);
    }
    BodyIs(code, n.body, i + 3, p);
  }

  lemma CatFlows(code: seq<Byte>, n: Node, i: nat, p: int)
    requires n.Cat? && Flat(n) && i <= p < i + |Code(n)| <= |code|
    requires var m := i + |Code(n.left)|;
      if p < m then Flows(code, n.left, i, m, p) else Flows(code, n.right, m, i + |Code(n)|, p)
    ensures Flows(code, n, i, i + |Code(n)|, p)
  {
    hide Decode, LoopHead;
    var m, j := i + |Code(n.left)|, i + |Code(n)|;
    forall q ensures q <= m ==> (Inner(n, i, q) <==> Inner(n.left, i, q))
             ensures q >= m ==> (Inner(n, i, q) <==> Inner(n.right, m, q))
    {
      if Inner(n.left, i, q) { InnerRange(n.left, i, q); }
      if Inner(n.right, m, q) { InnerRange(n.right, m, q); }
    }
    if p < m {
      WithinLeft(code, n.left, i, m, j, n, i, p);
    } else {
      WithinLeft(code, n.right, m, j, j, n, i, p);
    }
  }

  lemma AltWalk(code: seq<Byte>, n: Node, i: nat, p: int)
    requires At(code, i, n) && n.Alt? && Walk(code, i, p) && i <= p < i + |Code(n)|
    requires AllLand(code, i + 3, i + 3 + |Code(n.left)|)
    ensures var k := i + 3 + |Code(n.left)|;
            p == i || p == k || (i + 3 <= p < k && Walk(code, i + 3, p)) || (k + 3 <= p && Walk(code, k + 3, p))
  {
    hide Decode, At;
    AtAlt(code, i, n);
    var k := i + 3 + |Code(n.left)|;
    if p != i {
      assert Walk(code, i + 3, p);
      WalkForward(code, i + 3, p);
      if p >= k {
        WalkSplit(code, i + 3, k, p);
        if p != k {
          assert Walk(code, k + 3, p);
          WalkForward(code, k + 3, p);
        }
      }
    }
  }

  /** In an alternation, the loops left of the middle jump are those of the left side. */
  lemma AltInner(n: Node, i: int, q: int)
    requires n.Alt? && Flat(n)
    ensures var k, j := i + 3 + |Code(n.left)|, i + |Code(n)|;
            && (q <= k + 3 ==> (Inner(n, i, q) <==> Inner(n.left, i + 3, q)))
            && (q >= k ==> (Inner(n, i, q) <==> Inner(n.right, k + 3, q)))
            && (q <= i + 3 || k <= q <= k + 3 || q >= j ==> !Inner(n, i, q))
  {
    var k := i + 3 + |Code(n.left)|;
    assert |Code(n)| == |Code(n.left)| + 6 + |Code(n.right)|;
    if Inner(n.left, i + 3, q) { InnerRange(n.left, i + 3, q); }
    if Inner(n.right, k + 3, q) { InnerRange(n.right, k + 3, q); }
  }

  lemma AltFlows(code: seq<Byte>, n: Node, i: nat, p: int)
    requires At(code, i, n) && n.Alt? && Flat(n) && i <= p < i + |Code(n)| <= |code|
    requires var k := i + 3 + |Code(n.left)|;
      || p == i || p == k
      || (i + 3 <= p < k && Flows(code, n.left, i + 3, k, p))
      || (k + 3 <= p && Flows(code, n.right, k + 3, i + |Code(n)|, p))
    ensures Flows(code, n, i, i + |Code(n)|, p)
  {
    hide Decode, At, Flows, Inner, Code;
    AtAlt(code, i, n);
    var k, j := i + 3 + |Code(n.left)|, i + |Code(n)|;
    forall q ensures q <= k + 3 ==> (Inner(n, i, q) <==> Inner(n.left, i + 3, q))
             ensures q >= k ==> (Inner(n, i, q) <==> Inner(n.right, k + 3, q))
    {
      AltInner(n, i, q);
    }
    if i + 3 <= p < k {
      WithinLeft(code, n.left, i + 3, k, j, n, i, p);
    } else if k + 3 <= p {
      WithinLeft(code, n.right, k + 3, j, j, n, i, p);
    } else if p == k {
      AltMiddleFlows(code, n, i);
    } else {
      AltHeadFlows(code, n, i);
    }
  }

  lemma AltHeadFlows(code: seq<Byte>, n: Node, i: nat)
    requires At(code, i, n) && n.Alt? && Flat(n) && i + |Code(n)| <= |code|
    ensures i < |code| && Flows(code, n, i, i + |Code(n)|, i)
  {
    hide Decode, At, LoopHead, Inner, Code;
    AtAlt(code, i, n);
    AltInner(n, i, i);
    AltInner(n, i, i + 3);
    AltInner(n, i, i + 6 + |Code(n.left)|);
  }

  lemma AltMiddleFlows(code: seq<Byte>, n: Node, i: nat)
    requires At(code, i, n) && n.Alt? && Flat(n) && i + |Code(n)| <= |code|
    ensures var k := i + 3 + |Code(n.left)|; k < |code| && Flows(code, n, i, i + |Code(n)|, k)
  {
    hide Decode, At, LoopHead, Inner, Code;
    AtAlt(code, i, n);
    var k := i + 3 + |Code(n.left)|;
    PastAltBound(n.right);
    PastAltOuter(n.right, k + 3);
    TightJump(n);
    AltInner(n, i, k);
    AltInner(n, i, k + 3 + PastAlt(n.right));
  }

  lemma TightJump(n: Node)
    requires n.Alt?
    ensures Tight(n) ==> PastAlt(n.right) > 0
  {
  }

  lemma PastAltOuter(n: Node, i: int)
    requires Flat(n)
    ensures !Inner(n, i, i + PastAlt(n))
  {
    if Inner(n, i, i + PastAlt(n)) {
      InnerRange(n, i, i + PastAlt(n));
      var q := i + PastAlt(n);
      if Inner(n.left, i + 3, q) { InnerRange(n.left, i + 3, q); } else { InnerRange(n.right, i + 6 + |Code(n.left)|, q); }
    }
  }
}
