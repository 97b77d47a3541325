/**
 Jump integrity: read from its first byte, compiled code is a sequence of whole
 instructions, and every stored displacement leads to the start of one of them or to
 the end of the code.
 */
module RegexJumps {
  import opened Bytes
  import opened RegexNode
  import opened RegexNfa

  /** Reading instruction after instruction from `i` arrives at `p`. */
  ghost predicate Walk(code: seq<Byte>, i: int, p: int)
    decreases p - i
  {
    i == p || (0 <= i < p && i < |code| && Walk(code, i + Size(Decode(code, i)), p))
  }

  /** The instruction at `p` is whole, its jump target (if any) is an instruction start or the end, and a
      repeat leads to the conditional jump at the head of its loop. */
  ghost predicate Lands(code: seq<Byte>, i: int, p: int, j: int)
    requires 0 <= p < |code|
  {
    var instr := Decode(code, p);
    && instr != Bad
    && p + Size(instr) <= j
    && (instr.OnFail? ==> i <= instr.to <= j && Walk(code, i, instr.to))
    && (instr.Goto? ==> i <= instr.to <= j && Walk(code, i, instr.to))
    && (instr.Goto? && instr.op == MAYBE_POP_JUMP ==> IsFork(code, instr.to))
  }

  predicate IsFork(code: seq<Byte>, p: int) { 0 <= p < |code| && Decode(code, p).OnFail? }

  ghost predicate AllLand(code: seq<Byte>, i: int, j: int) {
    && 0 <= i <= j <= |code|
    && Walk(code, i, j)
    && forall p :: i <= p < j && Walk(code, i, p) ==> Lands(code, i, p, j)
  }

  lemma {:induction false} WalkForward(code: seq<Byte>, i: int, p: int)
    requires Walk(code, i, p)
    ensures i <= p
  {
  }

  lemma {:induction false} WalkJoin(code: seq<Byte>, i: int, m: int, p: int)
    requires Walk(code, i, m) && Walk(code, m, p)
    ensures Walk(code, i, p)
    decreases m - i
  {
    WalkForward(code, m, p);
    if i != m {
      WalkJoin(code, i + Size(Decode(code, i)), m, p);
    }
  }

  lemma {:induction false} WalkSplit(code: seq<Byte>, i: int, m: int, p: int)
    requires Walk(code, i, m) && Walk(code, i, p) && m <= p
    ensures Walk(code, m, p)
    decreases m - i
  {
    if i != m {
      WalkForward(code, i + Size(Decode(code, i)), m);
      WalkSplit(code, i + Size(Decode(code, i)), m, p);
    }
  }

  lemma WalkOne(code: seq<Byte>, i: int)
    requires 0 <= i < |code|
    ensures Walk(code, i, i + Size(Decode(code, i)))
  {
  }

  /** Instructions read in one walk do not overlap. */
  lemma NoOverlap(code: seq<Byte>, i: int, p: int, q: int)
    requires Walk(code, i, p) && Walk(code, i, q) && 0 <= p < q <= |code|
    ensures p + Size(Decode(code, p)) <= q
  {
    WalkSplit(code, i, p, q);
    WalkForward(code, p + Size(Decode(code, p)), q);
  }

  /** Inside one instruction there is no other instruction start. */
  lemma OnlyStart(code: seq<Byte>, i: int, p: int)
    requires 0 <= i < |code| && Walk(code, i, p) && i <= p < i + Size(Decode(code, i))
    ensures p == i
  {
  }

  // ----- assembling segments -----

  /** A single instruction without a jump, or with one known to land. */
  lemma LandOne(code: seq<Byte>, i: int)
    requires 0 <= i < |code| && i + Size(Decode(code, i)) <= |code|
    requires var x := Decode(code, i); x != Bad && !x.OnFail? && !x.Goto?
    ensures AllLand(code, i, i + Size(Decode(code, i)))
  {
    var j := i + Size(Decode(code, i));
    WalkOne(code, i);
    forall p | i <= p < j && Walk(code, i, p) ensures Lands(code, i, p, j) {
      if p != i { NoOverlap(code, i, i, p); }
    }
  }

  /** Two neighbouring segments, each of which lands. */
  lemma LandJoin(code: seq<Byte>, i: int, m: int, j: int)
    requires AllLand(code, i, m) && AllLand(code, m, j)
    ensures AllLand(code, i, j)
  {
    hide Decode;
    WalkJoin(code, i, m, j);
    forall p | i <= p < j && Walk(code, i, p) ensures Lands(code, i, p, j) {
      if p < m {
        assert Lands(code, i, p, m);
      } else {
        WalkSplit(code, i, m, p);
        assert Lands(code, m, p, j);
        var instr := Decode(code, p);
        if instr.OnFail? || instr.Goto? { WalkJoin(code, i, m, instr.to); }
      }
    }
  }

  /** A jump put in front of a segment, leading to a place the walk meets. */
  lemma LandPrefix(code: seq<Byte>, i: int, j: int, to: int)
    requires 0 <= i && i + 3 <= |code| && AllLand(code, i + 3, j)
    requires Decode(code, i) == OnFail(to) || exists op :: op != MAYBE_POP_JUMP && Decode(code, i) == Goto(op, to)
    requires i + 3 <= to <= j && Walk(code, i + 3, to)
    ensures AllLand(code, i, j)
  {
    hide Decode;
    WalkOne(code, i);
    WalkJoin(code, i, i + 3, j);
    WalkJoin(code, i, i + 3, to);
    forall p | i <= p < j && Walk(code, i, p) ensures Lands(code, i, p, j) {
      if p != i {
        assert Walk(code, i + 3, p);
        WalkForward(code, i + 3, p);
        assert Lands(code, i + 3, p, j);
        var instr := Decode(code, p);
        if instr.OnFail? || instr.Goto? { WalkJoin(code, i, i + 3, instr.to); }
      }
    }
  }

  /** A loop: the jump back put behind the body, the conditional jump put in front. */
  lemma LandLoop(code: seq<Byte>, i: int, k: int)
    requires 0 <= i && 0 <= k && i + 6 + k <= |code| && AllLand(code, i + 3, i + 3 + k)
    requires Decode(code, i) == OnFail(i + 6 + k) && exists op :: Decode(code, i + 3 + k) == Goto(op, i)
    ensures AllLand(code, i, i + 6 + k)
  {
    hide Decode;
    var e := i + 3 + k;
    WalkOne(code, i);
    WalkOne(code, e);
    WalkJoin(code, i, i + 3, e);
    WalkJoin(code, i, e, e + 3);
    forall p | i <= p < e + 3 && Walk(code, i, p) ensures Lands(code, i, p, e + 3) {
      if p != i {
        if p < e {
          assert Walk(code, i + 3, p);
          WalkForward(code, i + 3, p);
          assert Lands(code, i + 3, p, e);
          var instr := Decode(code, p);
          if instr.OnFail? || instr.Goto? { WalkJoin(code, i, i + 3, instr.to); }
        } else if p != e {
          NoOverlap(code, i, e, p);
        }
      }
    }
  }

  /** The code of a node, wherever it stands. */
  lemma {:induction false} NodeLands(code: seq<Byte>, n: Node, i: nat)
    requires At(code, i, n)
    ensures AllLand(code, i, i + |Code(n)|)
    ensures n.Alt? ==> Walk(code, i, i + |Code(n.left)| + 3)
    decreases n
  {
    hide *;
    match n
    case Nothing => EmptyLands(code, i, n);
    case Group(_, _, body) =>
      AtGroup(code, i, n);
      NodeLands(code, body, i + 3);
      GroupLands(code, n, i);
    case Star(body) =>
      AtStar(code, i, n);
      NodeLands(code, body, i + 3);
      LandLoop(code, i, |Code(body)|);
    case Plus(body) =>
      AtPlus(code, i, n);
      AtStar(code, i + 3, Star(body));
      NodeLands(code, body, i + 6);
      PlusLands(code, n, i);
    case Opt(body) =>
      AtOpt(code, i, n);
      NodeLands(code, body, i + 3);
      OptLands(code, n, i);
    case Cat(left, right) =>
      AtCat(code, i, n);
      NodeLands(code, left, i);
      NodeLands(code, right, i + |Code(left)|);
      LandJoin(code, i, i + |Code(left)|, i + |Code(n)|);
    case Alt(left, right) =>
      AtAlt(code, i, n);
      NodeLands(code, left, i + 3);
      NodeLands(code, right, i + 6 + |Code(left)|);
      AltLands(code, n, i);
    case _ => TestLands(code, n, i);
  }

  lemma TestLands(code: seq<Byte>, n: Node, i: nat)
    requires At(code, i, n) && (n.Run? || n.Any? || n.Set? || n.LineStart? || n.LineEnd?)
    ensures AllLand(code, i, i + |Code(n)|)
  {
    AtTest(code, i, n);
    LandOne(code, i);
  }

  lemma PlusLands(code: seq<Byte>, n: Node, i: nat)
    requires At(code, i, n) && n.Plus? && AllLand(code, i + 6, i + 6 + |Code(n.body)|)
    ensures AllLand(code, i, i + |Code(n)|)
  {
    hide Decode, At, AllLand, Walk;
    AtPlus(code, i, n);
    AtStar(code, i + 3, Star(n.body));
    LandLoop(code, i + 3, |Code(n.body)|);
    WalkOne(code, i + 3);
    LandPrefix(code, i, i + |Code(n)|, i + 6);
  }

  lemma OptLands(code: seq<Byte>, n: Node, i: nat)
    requires At(code, i, n) && n.Opt? && AllLand(code, i + 3, i + 3 + |Code(n.body)|)
    ensures AllLand(code, i, i + |Code(n)|)
  {
    hide Decode, At, AllLand, Walk;
    AtOpt(code, i, n);
    WalkOfLand(code, i + 3, i + |Code(n)|);
    LandPrefix(code, i, i + |Code(n)|, i + |Code(n)|);
  }

  lemma EmptyLands(code: seq<Byte>, i: nat, n: Node)
    requires At(code, i, n) && n.Nothing?
    ensures AllLand(code, i, i + |Code(n)|)
  {
  }

  lemma WalkOfLand(code: seq<Byte>, i: int, j: int)
    requires AllLand(code, i, j)
    ensures Walk(code, i, j)
  {
  }

  lemma GroupLands(code: seq<Byte>, n: Node, i: nat)
    requires At(code, i, n) && n.Group? && AllLand(code, i + 3, i + 3 + |Code(n.body)|)
    ensures AllLand(code, i, i + |Code(n)|)
  {
    hide Decode, At, AllLand, Walk, Code;
    AtGroup(code, i, n);
    var k := i + 3 + |Code(n.body)|;
    LandOne(code, i);
    LandJoin(code, i, i + 3, k);
    if n.body.Alt? {
      LandOne(code, k);
      LandJoin(code, i, k, k + 1);
    }
    LandOne(code, i + |Code(n)| - 3);
    LandJoin(code, i, i + |Code(n)| - 3, i + |Code(n)|);
  }

  lemma AltLands(code: seq<Byte>, n: Node, i: nat)
    requires At(code, i, n) && n.Alt?
    requires var k := i + 3 + |Code(n.left)|;
             && AllLand(code, i + 3, k) && AllLand(code, k + 3, i + |Code(n)|)
             && (n.right.Alt? ==> Walk(code, k + 3, k + 3 + |Code(n.right.left)| + 3))
    ensures AllLand(code, i, i + |Code(n)|)
    ensures Walk(code, i, i + |Code(n.left)| + 3)
  {
    hide Decode, At, AllLand, Walk, Code;
    AltStart(n.right);
    AtAlt(code, i, n);
    var k, j := i + 3 + |Code(n.left)|, i + |Code(n)|;
    PastAltBound(n.right);
    WalkOfLand(code, k + 3, j);
    LandPrefix(code, k, j, k + 3 + PastAlt(n.right));
    LandJoin(code, i + 3, k, j);
    WalkOne(code, k);
    WalkOfLand(code, i + 3, k);
    WalkJoin(code, i + 3, k, k + 3);
    LandPrefix(code, i, j, k + 3);
    WalkOne(code, i);
    WalkJoin(code, i, i + 3, k);
  }

  lemma AltStart(n: Node)
    ensures n.Alt? ==> PastAlt(n) == |Code(n.left)| + 3
    ensures !n.Alt? ==> PastAlt(n) == |Code(n)|
  {
  }

  /** The whole compiled pattern. */
  lemma CodeLands(n: Node)
    requires Sized(n) && |Code(n)| < 32768
    ensures AllLand(Code(n), 0, |Code(n)|)
  {
    hide Code, AllLand;
    assert At(Code(n), 0, n);
    NodeLands(Code(n), n, 0);
  }
}
