/**
 The plain nondeterministic reading of compiled code: instructions decoded from bytes,
 one-step moves between (code position, text position) pairs, and the theorem that
 the code of a node moves from its start to its end exactly over the text the node
 accepts.
 */
module RegexNfa {
  import opened Bytes
  import opened Closure
  import opened RegexNode

  datatype Instr =
    | Exact(chars: seq<Byte>)
    | AnyChar
    | CharSet(negated: bool, bits: seq<Byte>)
    | Begin
    | End
    | Memory(start: bool, reg: Byte, inner: Byte)
    | OnFail(to: int)
    | Goto(op: Byte, to: int)
    | PushDummy
    | Bad

  predicate IsJump(op: Byte) {
    op == JUMP || op == JUMP_PAST_ALT || op == POP_FAILURE_JUMP || op == MAYBE_POP_JUMP || op == DUMMY_FAILURE_JUMP
  }

  /** The instruction that starts at `p`; `Bad` when it does not fit in the code. */
  function Decode(code: seq<Byte>, p: nat): Instr
    requires p < |code|
  {
    var op := code[p];
    if op == EXACTN then
      if p + 2 <= |code| && 0 < code[p + 1] && p + 2 + code[p + 1] <= |code|
      then Exact(code[p + 2..p + 2 + code[p + 1]]) else Bad
    else if op == CHARSET || op == CHARSET_NOT then
      if p + 2 <= |code| && p + 2 + code[p + 1] <= |code|
      then CharSet(op == CHARSET_NOT, code[p + 2..p + 2 + code[p + 1]]) else Bad
    else if op == ANYCHAR then AnyChar
    else if op == BEGLINE then Begin
    else if op == ENDLINE then End
    else if op == PUSH_DUMMY_FAILURE then PushDummy
    else if p + 3 > |code| then Bad
    else if op == START_MEMORY || op == STOP_MEMORY then Memory(op == START_MEMORY, code[p + 1], code[p + 2])
    else if op == ON_FAILURE_JUMP then OnFail(p + 3 + Number(code[p + 1], code[p + 2]))
    else if IsJump(op) then Goto(op, p + 3 + Number(code[p + 1], code[p + 2]))
    else Bad
  }

  function Size(i: Instr): nat {
    match i
    case Exact(chars) => 2 + |chars|
    case CharSet(_, bits) => 2 + |bits|
    case AnyChar => 1
    case Begin => 1
    case End => 1
    case PushDummy => 1
    case _ => 3
  }

  predicate IsTest(i: Instr) { i.Exact? || i.AnyChar? || i.CharSet? || i.Begin? || i.End? }

  /** Where a test instruction leaves the text position, if it succeeds. */
  function Eat(i: Instr, text: seq<Byte>, d: nat): (r: Option<nat>)
    requires IsTest(i)
    ensures r.Some? && d <= |text| ==> d <= r.value <= |text|
  {
    match i
    case Exact(chars) =>
      if d + |chars| <= |text| && text[d..d + |chars|] == chars then Some(d + |chars|) else None
    case AnyChar => if d < |text| && text[d] != 0 then Some(d + 1) else None
    case CharSet(negated, bits) =>
      if d < |text| && SetHas(bits, text[d]) != negated then Some(d + 1) else None
    case Begin => if d == 0 then Some(d) else None
    case End => if d == |text| then Some(d) else None
  }

  datatype Cfg = Cfg(p: int, d: nat)

  predicate Moves(code: seq<Byte>, text: seq<Byte>, c: Cfg, c': Cfg) {
    0 <= c.p < |code| &&
    var i := Decode(code, c.p);
    match i
    case Memory(_, _, _) => c' == Cfg(c.p + 3, c.d)
    case PushDummy => c' == Cfg(c.p + 1, c.d)
    case OnFail(to) => c' == Cfg(c.p + 3, c.d) || c' == Cfg(to, c.d)
    case Goto(_, to) => c' == Cfg(to, c.d)
    case Bad => false
    case _ =>
      var e := Eat(i, text, c.d);
      e.Some? && c' == Cfg(c.p + Size(i), e.value)
  }

  ghost predicate Steps(code: seq<Byte>, text: seq<Byte>, c: Cfg, c': Cfg, k: nat)
    decreases k
  {
    if k == 0 then c == c' else exists m :: Moves(code, text, c, m) && Steps(code, text, m, c', k - 1)
  }

  ghost predicate Reaches(code: seq<Byte>, text: seq<Byte>, c: Cfg, c': Cfg) {
    exists k: nat :: Steps(code, text, c, c', k)
  }

  lemma ReachesSelf(code: seq<Byte>, text: seq<Byte>, c: Cfg)
    ensures Reaches(code, text, c, c)
  {
    assert Steps(code, text, c, c, 0);
  }

  lemma ReachesFirst(code: seq<Byte>, text: seq<Byte>, c: Cfg, m: Cfg, c': Cfg)
    requires Moves(code, text, c, m) && Reaches(code, text, m, c')
    ensures Reaches(code, text, c, c')
  {
    var k: nat :| Steps(code, text, m, c', k);
    assert Steps(code, text, c, c', k + 1);
  }

  lemma {:induction false} StepsJoin(code: seq<Byte>, text: seq<Byte>, c: Cfg, m: Cfg, c': Cfg, k: nat, l: nat)
    requires Steps(code, text, c, m, k) && Steps(code, text, m, c', l)
    ensures Steps(code, text, c, c', k + l)
    decreases k
  {
    if k > 0 {
      var x :| Moves(code, text, c, x) && Steps(code, text, x, m, k - 1);
      StepsJoin(code, text, x, m, c', k - 1, l);
    }
  }

  lemma ReachesJoin(code: seq<Byte>, text: seq<Byte>, c: Cfg, m: Cfg, c': Cfg)
    requires Reaches(code, text, c, m) && Reaches(code, text, m, c')
    ensures Reaches(code, text, c, c')
  {
    var k: nat :| Steps(code, text, c, m, k);
    var l: nat :| Steps(code, text, m, c', l);
    StepsJoin(code, text, c, m, c', k, l);
  }

  lemma ReachesLast(code: seq<Byte>, text: seq<Byte>, c: Cfg, m: Cfg, c': Cfg)
    requires Reaches(code, text, c, m) && Moves(code, text, m, c')
    ensures Reaches(code, text, c, c')
  {
    ReachesSelf(code, text, c');
    ReachesFirst(code, text, m, c', c');
    ReachesJoin(code, text, c, m, c');
  }

  // ----- where the pieces of a node stand -----

  /** The code of `n` stands at offset `i`. */
  predicate At(code: seq<Byte>, i: nat, n: Node) {
    && Sized(n)
    && |code| < 32768
    && i + |Code(n)| <= |code|
    && code[i..i + |Code(n)|] == Code(n)
  }

  lemma AtFits(code: seq<Byte>, i: nat, n: Node)
    requires At(code, i, n)
    ensures i + |Code(n)| <= |code|
  {
  }

  /** The code of a middle part of a segment. */
  lemma Slice(code: seq<Byte>, i: nat, whole: seq<Byte>, a: seq<Byte>, b: seq<Byte>, c: seq<Byte>)
    requires whole == a + b + c && i + |whole| <= |code| && code[i..i + |whole|] == whole
    ensures code[i + |a|..i + |a| + |b|] == b
  {
    var s := code[i..i + |whole|];
    assert forall x :: 0 <= x < |b| ==> code[i + (|a| + x)] == s[|a| + x] == b[x];
  }

  lemma AtByte(code: seq<Byte>, i: nat, c: seq<Byte>, k: nat)
    requires i + |c| <= |code| && code[i..i + |c|] == c && k < |c|
    ensures code[i + k] == c[k]
  {
    assert code[i..i + |c|][k] == code[i + k];
  }

  /** An instruction with a count and that many bytes after it. */
  lemma AtCounted(code: seq<Byte>, i: nat, op: Byte, data: seq<Byte>)
    requires |data| < 256 && i + 2 + |data| <= |code| && code[i..i + 2 + |data|] == [op, |data|] + data
    ensures code[i] == op && code[i + 1] == |data| && code[i + 2..i + 2 + |data|] == data
  {
    var c := [op, |data|] + data;
    AtByte(code, i, c, 0);
    AtByte(code, i, c, 1);
    assert c == [op, |data|] + data + [];
    Slice(code, i, c, [op, |data|], data, []);
  }

  lemma AtTest(code: seq<Byte>, i: nat, n: Node)
    requires At(code, i, n) && (n.Run? || n.Any? || n.Set? || n.LineStart? || n.LineEnd?)
    ensures i < |code| && IsTest(Decode(code, i)) && Size(Decode(code, i)) == |Code(n)|
    ensures n.Run? ==> Decode(code, i) == Exact(n.chars)
    ensures n.Any? ==> Decode(code, i) == AnyChar
    ensures n.Set? ==> Decode(code, i) == CharSet(n.negated, n.bits)
    ensures n.LineStart? ==> Decode(code, i) == Begin
    ensures n.LineEnd? ==> Decode(code, i) == End
  {
    hide Number, IsJump, SetHas;
    if n.Run? {
      AtCounted(code, i, EXACTN, n.chars);
    } else if n.Set? {
      AtCounted(code, i, if n.negated then CHARSET_NOT else CHARSET, n.bits);
    } else {
      AtByte(code, i, Code(n), 0);
    }
  }

  lemma AtOp1(code: seq<Byte>, i: nat, op: Byte, n: int)
    requires i + 3 <= |code| && code[i..i + 3] == Op1(op, n) && -32768 <= n < 32768
    requires op == ON_FAILURE_JUMP || IsJump(op)
    ensures Decode(code, i) == if op == ON_FAILURE_JUMP then OnFail(i + 3 + n) else Goto(op, i + 3 + n)
  {
    NumberRoundTrip(n);
    var c := code[i..i + 3];
    assert code[i] == c[0] && code[i + 1] == c[1] && code[i + 2] == c[2];
  }

  lemma AtMemory(code: seq<Byte>, i: nat, start: bool, reg: Byte, inner: Byte)
    requires i + 3 <= |code| && code[i..i + 3] == [if start then START_MEMORY else STOP_MEMORY, reg, inner]
    ensures Decode(code, i) == Memory(start, reg, inner)
  {
    var c := code[i..i + 3];
    assert code[i] == c[0] && code[i + 1] == c[1] && code[i + 2] == c[2];
  }

  lemma AtGroup(code: seq<Byte>, i: nat, n: Node)
    requires At(code, i, n) && n.Group?
    ensures i + |Code(n)| <= |code| && Sized(n)
    ensures var k := |Code(n.body)|;
            && |Code(n)| == k + (if n.body.Alt? then 7 else 6)
            && Decode(code, i) == Memory(true, n.reg, n.inner)
            && At(code, i + 3, n.body)
            && (n.body.Alt? ==> Decode(code, i + 3 + k) == PushDummy)
            && Decode(code, i + |Code(n)| - 3) == Memory(false, n.reg, n.inner)
  {
    hide Decode, Code;
    GroupCode(n);
    var c, b := Code(n), Code(n.body);
    var dummy := if n.body.Alt? then [PUSH_DUMMY_FAILURE] else [];
    var open, close := [START_MEMORY, n.reg, n.inner], [STOP_MEMORY, n.reg, n.inner];
    Slices4(code, i, c, open, b, dummy, close);
    AtMemory(code, i, true, n.reg, n.inner);
    AtMemory(code, i + |c| - 3, false, n.reg, n.inner);
    if n.body.Alt? {
      AtByte(code, i + 3 + |b|, dummy, 0);
      DecodeDummy(code, i + 3 + |b|);
    }
  }

  lemma GroupCode(n: Node)
    requires n.Group?
    ensures Code(n) == [START_MEMORY, n.reg, n.inner] + Code(n.body)
                     + (if n.body.Alt? then [PUSH_DUMMY_FAILURE] else []) + [STOP_MEMORY, n.reg, n.inner]
  {
  }

  lemma DecodeDummy(code: seq<Byte>, p: nat)
    requires p < |code| && code[p] == PUSH_DUMMY_FAILURE
    ensures Decode(code, p) == PushDummy
  {
  }

  lemma Slices4(code: seq<Byte>, i: nat, whole: seq<Byte>, a: seq<Byte>, b: seq<Byte>, c: seq<Byte>, d: seq<Byte>)
    requires whole == a + b + c + d && i + |whole| <= |code| && code[i..i + |whole|] == whole
    ensures code[i..i + |a|] == a
    ensures code[i + |a|..i + |a| + |b|] == b
    ensures code[i + |a| + |b|..i + |a| + |b| + |c|] == c
    ensures code[i + |a| + |b| + |c|..i + |whole|] == d
  {
    assert whole == [] + a + (b + c + d) == a + b + (c + d) == (a + b) + c + d == (a + b + c) + d + [];
    Slice(code, i, whole, [], a, b + c + d);
    Slice(code, i, whole, a, b, c + d);
    Slice(code, i, whole, a + b, c, d);
    Slice(code, i, whole, a + b + c, d, []);
  }

  lemma AtStar(code: seq<Byte>, i: nat, n: Node)
    requires At(code, i, n) && n.Star?
    ensures i + |Code(n)| <= |code| && Sized(n)
    ensures var k := |Code(n.body)|;
            && |Code(n)| == k + 6
            && Decode(code, i) == OnFail(i + 6 + k)
            && At(code, i + 3, n.body)
            && Decode(code, i + 3 + k) == Goto(MAYBE_POP_JUMP, i)
  {
    var c, b := Code(n), Code(n.body);
    var k := |b|;
    var head, tail := Op1(ON_FAILURE_JUMP, k + 3), Op1(MAYBE_POP_JUMP, -(k + 6));
    assert c == head + b + tail;
    Slice(code, i, c, [], head, b + tail);
    Slice(code, i, c, head, b, tail);
    Slice(code, i, c, head + b, tail, []);
    AtOp1(code, i, ON_FAILURE_JUMP, k + 3);
    AtOp1(code, i + 3 + k, MAYBE_POP_JUMP, -(k + 6));
  }

  lemma AtPlus(code: seq<Byte>, i: nat, n: Node)
    requires At(code, i, n) && n.Plus?
    ensures i + |Code(n)| <= |code| && Sized(n)
    ensures |Code(n)| == |Code(n.body)| + 9
    ensures Decode(code, i) == Goto(DUMMY_FAILURE_JUMP, i + 6)
    ensures At(code, i + 3, Star(n.body))
  {
    var c := Code(n);
    var head, tail := Op1(DUMMY_FAILURE_JUMP, 3), Code(Star(n.body));
    assert c == head + tail;
    Slice(code, i, c, [], head, tail);
    Slice(code, i, c, head, tail, []);
    AtOp1(code, i, DUMMY_FAILURE_JUMP, 3);
  }

  lemma AtOpt(code: seq<Byte>, i: nat, n: Node)
    requires At(code, i, n) && n.Opt?
    ensures i + |Code(n)| <= |code| && Sized(n)
    ensures |Code(n)| == |Code(n.body)| + 3
    ensures Decode(code, i) == OnFail(i + |Code(n)|)
    ensures At(code, i + 3, n.body)
  {
    var c, b := Code(n), Code(n.body);
    var head := Op1(ON_FAILURE_JUMP, |b|);
    assert c == head + b;
    Slice(code, i, c, [], head, b);
    Slice(code, i, c, head, b, []);
    AtOp1(code, i, ON_FAILURE_JUMP, |b|);
  }

  lemma AtCat(code: seq<Byte>, i: nat, n: Node)
    requires At(code, i, n) && n.Cat?
    ensures i + |Code(n)| <= |code| && Sized(n)
    ensures |Code(n)| == |Code(n.left)| + |Code(n.right)|
    ensures At(code, i, n.left) && At(code, i + |Code(n.left)|, n.right)
  {
    var c, a, b := Code(n), Code(n.left), Code(n.right);
    assert c == [] + a + b == a + b + [];
    Slice(code, i, c, [], a, b);
    Slice(code, i, c, a, b, []);
  }

  lemma AtAlt(code: seq<Byte>, i: nat, n: Node)
    requires At(code, i, n) && n.Alt?
    ensures i + |Code(n)| <= |code| && Sized(n)
    ensures var k := |Code(n.left)|;
            && |Code(n)| == k + 6 + |Code(n.right)|
            && Decode(code, i) == OnFail(i + 6 + k)
            && At(code, i + 3, n.left)
            && Decode(code, i + 3 + k) == Goto(JUMP_PAST_ALT, i + 6 + k + PastAlt(n.right))
            && At(code, i + 6 + k, n.right)
  {
    var c, a, b := Code(n), Code(n.left), Code(n.right);
    var k := |a|;
    var head, mid := Op1(ON_FAILURE_JUMP, k + 3), Op1(JUMP_PAST_ALT, PastAlt(n.right));
    assert c == head + a + mid + b;
    Slices4(code, i, c, head, a, mid, b);
    PastAltBound(n.right);
    AtOp1(code, i, ON_FAILURE_JUMP, k + 3);
    AtOp1(code, i + 3 + k, JUMP_PAST_ALT, PastAlt(n.right));
  }

  lemma PastAltBound(n: Node)
    ensures PastAlt(n) <= |Code(n)|
  {
    if n.Alt? {
      assert |Code(n)| == |Code(n.left)| + 6 + |Code(n.right)|;
    }
  }
}
