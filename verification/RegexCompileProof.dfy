/**
 The one-pass compiler is right: for every grammar tree, compiling the bytes the tree is
 written with yields exactly the code of a node that means the same.  The insertions and
 the late filling-in of jumps come out as a definition that builds code from the inside
 out.
 */
module RegexCompileProof {
  import opened Bytes
  import opened Closure
  import opened RegexSyntax
  import opened RegexCompile
  import opened RegexMeaning
  import opened RegexBrackets
  import RegexNode
  import RegexFlow
  import N = RegexNode

  /** From `p` the compiler gets to `p'` in the state `st'`. */
  predicate Gets(pat: seq<Byte>, junk: seq<Byte>, p: nat, st: CState, p': nat, st': CState)
    requires |junk| == 3
  {
    p <= |pat| && p' <= |pat| && CompileFrom(pat, p, st, junk) == CompileFrom(pat, p', st', junk)
  }

  lemma GetsOne(pat: seq<Byte>, junk: seq<Byte>, p: nat, st: CState, p': nat, st': CState)
    requires |junk| == 3 && p < |pat| && CompileOne(pat, p, st, junk) == Result.Ok(Place(p', st'))
    ensures Gets(pat, junk, p, st, p', st')
  {
  }

  // ----- the state in the middle of a branch -----

  /** An `exactn` still open for more characters is the last node. */
  predicate PendingOk(st: CState, base: seq<Byte>, pre: N.Node, tail: N.Node) {
    st.pending.Some? ==>
      var q := st.pending.value;
      && q < |st.b|
      && q + st.b[q] + 1 <= |st.b|
      && (q + st.b[q] + 1 == |st.b| ==> tail.Run? && q == |base| + |N.Code(pre)| + 1)
  }

  /** The groups so far have the last numbers given out. */
  predicate Counted(st: CState, pre: N.Node, tail: N.Node) {
    var n := N.Cat(pre, tail);
    N.GroupCount(n) <= st.regnum && N.Numbered(n, st.regnum - N.GroupCount(n))
  }

  lemma CountedNode(st: CState, st': CState, pre: N.Node, tail: N.Node, node: N.Node)
    requires Counted(st, pre, tail) && N.Numbered(node, st.regnum) && st'.regnum == st.regnum + N.GroupCount(node)
    ensures Counted(st', N.Cat(pre, tail), node)
  {
    hide N.Numbered, N.GroupCount;
    NumberedCat(N.Cat(pre, tail), node, st.regnum - N.GroupCount(N.Cat(pre, tail)));
  }

  /** A node without groups in place of another. */
  lemma CountedPlain(st: CState, st': CState, pre: N.Node, tail: N.Node, node: N.Node)
    requires Counted(st, pre, tail) && N.GroupCount(tail) == N.GroupCount(node) && st'.regnum == st.regnum
    requires N.GroupCount(tail) <= st.regnum ==>
               var k := st.regnum - N.GroupCount(tail); N.Numbered(tail, k) ==> N.Numbered(node, k)
    ensures Counted(st', pre, node)
  {
    hide N.Numbered, N.GroupCount;
    var k := st.regnum - N.GroupCount(N.Cat(pre, tail));
    NumberedCat(pre, tail, k);
    NumberedCat(pre, node, k);
  }

  lemma NumberedCat(a: N.Node, b: N.Node, k: nat)
    ensures N.GroupCount(N.Cat(a, b)) == N.GroupCount(a) + N.GroupCount(b)
    ensures N.Numbered(N.Cat(a, b), k) <==> N.Numbered(a, k) && N.Numbered(b, k + N.GroupCount(a))
  {
  }

  lemma LoopNumbered(n: N.Node, zero: bool, many: bool, k: nat)
    ensures N.GroupCount(Loop(n, zero, many)) == N.GroupCount(n)
    ensures N.Numbered(Loop(n, zero, many), k) <==> N.Numbered(n, k)
  {
  }

  /** The buffer holds what stood there at the start of the branch, then the code of the
      pieces so far: all but the last, and the last. */
  predicate Holds(st: CState, base: seq<Byte>, pre: N.Node, tail: N.Node) {
    && st.b == base + N.Code(pre) + N.Code(tail)
    && N.Sized(pre) && N.Sized(tail)
    && PendingOk(st, base, pre, tail)
    && Counted(st, pre, tail)
  }

  /** What a piece leaves alone. */
  predicate Keeps(st: CState, st': CState, groups: nat) {
    && st'.begalt == st.begalt && st'.fixup == st.fixup && st'.opens == st.opens
    && st'.regnum == st.regnum + groups
  }

  // ----- single atoms -----

  /** A new node behind the others. */
  lemma AppendHolds(st: CState, st': CState, base: seq<Byte>, pre: N.Node, tail: N.Node, node: N.Node)
    requires Holds(st, base, pre, tail) && N.Sized(node) && |N.Code(node)| > 0
    requires st'.b == st.b + N.Code(node) && st'.pending == st.pending
    requires N.Numbered(node, st.regnum) && st'.regnum == st.regnum + N.GroupCount(node)
    ensures Holds(st', base, N.Cat(pre, tail), node)
  {
    hide N.Code, N.Sized, Counted, N.Numbered, N.GroupCount;
    CatCode(pre, tail);
    CountedNode(st, st', pre, tail, node);
    assert st'.b == base + N.Code(N.Cat(pre, tail)) + N.Code(node);
  }

  lemma CatCode(a: N.Node, b: N.Node)
    ensures N.Code(N.Cat(a, b)) == N.Code(a) + N.Code(b)
    ensures N.Sized(N.Cat(a, b)) <==> N.Sized(a) && N.Sized(b)
  {
  }

  lemma RunCode(chars: seq<Byte>)
    requires 1 <= |chars| <= 255
    ensures N.Code(N.Run(chars)) == [N.EXACTN, |chars|] + chars && N.Sized(N.Run(chars))
  {
  }

  /** One more literal: into the open run, or into a new one. */
  lemma LitStep(pat: seq<Byte>, p: nat, st: CState, base: seq<Byte>, pre: N.Node, tail: N.Node,
                c: Byte, escaped: bool, x: Re)
    returns (pre': N.Node, tail': N.Node, st': CState)
    requires Holds(st, base, pre, tail) && HasRoom(st.b, 3) && Models(N.Cat(pre, tail), x)
    ensures NormalChar(st, pat, p, c) == Result.Ok(Place(p, st'))
    ensures Holds(st', base, pre', tail') && Keeps(st, st', 0)
    ensures |st.b| < |st'.b| <= |st.b| + 3
    ensures Models(N.Cat(pre', tail'), Cat(x, Lit(c, escaped)))
    ensures IsOp(Peek(pat, p)) ==>
      && pre' == N.Cat(pre, tail) && Models(tail', Lit(c, escaped)) && RegexFlow.IsChar(tail')
      && st'.laststart == Some(|base| + |N.Code(pre')|)
  {
    if StartsRun(st, Peek(pat, p)) {
      pre', tail' := N.Cat(pre, tail), N.Run([c]);
      LitModels(c, escaped);
      CatModels(N.Cat(pre, tail), tail', x, Lit(c, escaped));
      st' := NormalChar(st, pat, p, c).value.st;
      NewRunHolds(st, st', base, pre, tail, c);
    } else {
      pre', tail', st' := GrowStep(pat, p, st, base, pre, tail, c, escaped, x);
    }
  }

  lemma NewRunHolds(st: CState, st': CState, base: seq<Byte>, pre: N.Node, tail: N.Node, c: Byte)
    requires Holds(st, base, pre, tail)
    requires st' == st.(laststart := Some(|st.b|), pending := Some(|st.b| + 1), b := st.b + [N.EXACTN, 1, c])
    ensures Holds(st', base, N.Cat(pre, tail), N.Run([c]))
    ensures st'.laststart == Some(|base| + |N.Code(N.Cat(pre, tail))|)
  {
    hide N.Code, N.Sized, Counted;
    CatCode(pre, tail);
    RunCode([c]);
    CountedNode(st, st', pre, tail, N.Run([c]));
    assert st'.b == base + N.Code(N.Cat(pre, tail)) + N.Code(N.Run([c]));
  }

  lemma GrowStep(pat: seq<Byte>, p: nat, st: CState, base: seq<Byte>, pre: N.Node, tail: N.Node,
                 c: Byte, escaped: bool, x: Re)
    returns (pre': N.Node, tail': N.Node, st': CState)
    requires Holds(st, base, pre, tail) && HasRoom(st.b, 3) && Models(N.Cat(pre, tail), x)
    requires !StartsRun(st, Peek(pat, p))
    ensures NormalChar(st, pat, p, c) == Result.Ok(Place(p, st'))
    ensures Holds(st', base, pre', tail') && Keeps(st, st', 0)
    ensures |st'.b| == |st.b| + 1
    ensures Models(N.Cat(pre', tail'), Cat(x, Lit(c, escaped)))
    ensures !IsOp(Peek(pat, p))
  {
    hide N.Code, Models, Counted;
    var chars := tail.chars;
    var q := st.pending.value;
    RunCode(chars);
    var k := |base| + |N.Code(pre)|;
    assert st.b[q] == N.Code(tail)[1] == |chars|;
    RunCode(chars + [c]);
    pre', tail' := pre, N.Run(chars + [c]);
    GrowRun(pre, chars, c, x, escaped);
    st' := NormalChar(st, pat, p, c).value.st;
    CountedPlain(st, st', pre, tail, tail');
    assert st'.b == base + N.Code(pre) + N.Code(tail') by {
      var old' := base + N.Code(pre) + ([N.EXACTN, |chars|] + chars);
      assert st.b == old';
      assert st'.b == old'[q := |chars| + 1] + [c];
    }
  }

  // ----- repetition -----

  function BackJump(c: seq<Byte>, many: bool): seq<Byte> {
    if many then c + N.Op1(N.MAYBE_POP_JUMP, -(|c| + 6)) else c
  }

  function Guarded(body: seq<Byte>): seq<Byte> { N.Op1(N.ON_FAILURE_JUMP, |body|) + body }

  lemma RepeatedParts(before: seq<Byte>, c: seq<Byte>, zero: bool, many: bool)
    ensures var g := Guarded(BackJump(c, many));
            Repeated(before + c, |before|, zero, many)
            == before + (if zero then g else N.Op1(N.DUMMY_FAILURE_JUMP, 3) + g)
  {
    hide N.Op1;
    var s := |before|;
    var b := before + c;
    var body := BackJump(c, many);
    var looped := if many then b + N.Op1(N.MAYBE_POP_JUMP, (s - 3) - |b| - 3) else b;
    assert looped == before + body;
    Op1Size(N.ON_FAILURE_JUMP, |body|);
    InsertBetween(before, body, N.Op1(N.ON_FAILURE_JUMP, |body|));
    if many { Op1Size(N.MAYBE_POP_JUMP, (s - 3) - |b| - 3); }
    InsertBetween(before, Guarded(body), N.Op1(N.DUMMY_FAILURE_JUMP, 3));
  }

  lemma Op1Size(op: Byte, n: int)
    ensures |N.Op1(op, n)| == 3
  {
  }

  lemma LoopCode(n: N.Node, zero: bool, many: bool)
    requires zero || many
    ensures var g := Guarded(BackJump(N.Code(n), many));
            N.Code(Loop(n, zero, many)) == if zero then g else N.Op1(N.DUMMY_FAILURE_JUMP, 3) + g
    ensures |N.Code(Loop(n, zero, many))| <= |N.Code(n)| + 9
  {
    hide N.Op1;
    var c := N.Code(n);
    Op1Size(N.DUMMY_FAILURE_JUMP, 3);
    Op1Size(N.MAYBE_POP_JUMP, -(|c| + 6));
    Op1Size(N.ON_FAILURE_JUMP, |c|);
    Op1Size(N.ON_FAILURE_JUMP, |c| + 3);
    if many {
      assert N.StarCode(c) == Guarded(BackJump(c, many));
    }
  }

  /** Wrapping the last node in a loop is what the insertions amount to. */
  lemma RepeatedCode(before: seq<Byte>, n: N.Node, zero: bool, many: bool)
    requires zero || many
    ensures Repeated(before + N.Code(n), |before|, zero, many) == before + N.Code(Loop(n, zero, many))
    ensures |N.Code(Loop(n, zero, many))| <= |N.Code(n)| + 9
  {
    hide *;
    RepeatedParts(before, N.Code(n), zero, many);
    LoopCode(n, zero, many);
  }

  lemma InsertBetween(a: seq<Byte>, b: seq<Byte>, x: seq<Byte>)
    ensures Insert(a + b, |a|, x) == a + (x + b)
  {
    assert (a + b)[..|a|] == a && (a + b)[|a|..] == b;
  }

  /** The operators behind an atom, taken in one go. */
  lemma OpsRun(pat: seq<Byte>, p: nat, ops: seq<Byte>)
    requires 0 < p <= |pat| && ops != [] && Reads(pat, p - 1, ops)
    requires forall k :: 0 <= k < |ops| ==> IsOp(ops[k])
    requires !IsOp(Peek(pat, p - 1 + |ops|))
    ensures OpsEnd(pat, p) == p - 1 + |ops| && pat[p - 1..OpsEnd(pat, p)] == ops
    decreases |ops|
  {
    if |ops| > 1 {
      ReadsAt(pat, p - 1, ops, 1);
      assert ops == ops[..1] + ops[1..];
      ReadsSplit(pat, p - 1, ops[..1], ops[1..]);
      OpsRun(pat, p + 1, ops[1..]);
    }
  }

  lemma RepeatStep(pat: seq<Byte>, junk: seq<Byte>, p: nat, st: CState, base: seq<Byte>, pre: N.Node, tail: N.Node,
                   e: Re, ops: seq<Byte>, x: Re)
    returns (st': CState)
    requires |junk| == 3 && WellFormed(Repeat(e, ops)) && Reads(pat, p, ops) && !IsOp(Peek(pat, p + |ops|))
    requires Holds(st, base, pre, tail) && st.laststart == Some(|base| + |N.Code(pre)|) && HasRoom(st.b, 9)
    requires Models(pre, x) && Models(tail, e) && (!e.Group? ==> RegexFlow.IsChar(tail))
    ensures Gets(pat, junk, p, st, p + |ops|, st')
    ensures Holds(st', base, pre, Loop(tail, ZeroOk(ops), ManyOk(ops))) && Keeps(st, st', 0) && |st'.b| <= |st.b| + 9
    ensures Models(N.Cat(pre, Loop(tail, ZeroOk(ops), ManyOk(ops))), Cat(x, Repeat(e, ops)))
  {
    hide Models, N.Code, Repeated, Holds, CompileFrom, Reads, RepeatOp;
    var zero, many := ZeroOk(ops), ManyOk(ops);
    OpsMeanSomething(e, ops);
    LoopModels(tail, e, ops);
    CatModels(pre, Loop(tail, zero, many), x, Repeat(e, ops));
    HeldBytes(st, base, pre, tail);
    st' := RepeatedState(pat, p, st, base, pre, tail, ops);
    RepeatHolds(st, st', base, pre, tail, zero, many);
    ReadsAt(pat, p, ops, 0);
    OpByte(pat, p, st, junk);
    GetsOne(pat, junk, p, st, p + |ops|, st');
  }

  lemma OpsMeanSomething(e: Re, ops: seq<Byte>)
    requires WellFormed(Repeat(e, ops))
    ensures ops != [] && IsOp(ops[0]) && (ZeroOk(ops) || ManyOk(ops))
    ensures forall k :: 0 <= k < |ops| ==> IsOp(ops[k])
  {
    assert ops[0] != 43 || ops[0] != 63;
  }

  lemma HeldBytes(st: CState, base: seq<Byte>, pre: N.Node, tail: N.Node)
    requires Holds(st, base, pre, tail)
    ensures st.b == base + N.Code(pre) + N.Code(tail)
  {
  }

  /** What the operators do to the compiler's state. */
  lemma RepeatedState(pat: seq<Byte>, p: nat, st: CState, base: seq<Byte>, pre: N.Node, tail: N.Node, ops: seq<Byte>)
    returns (st': CState)
    requires ops != [] && Reads(pat, p, ops) && !IsOp(Peek(pat, p + |ops|))
    requires forall k :: 0 <= k < |ops| ==> IsOp(ops[k])
    requires ZeroOk(ops) || ManyOk(ops)
    requires st.b == base + N.Code(pre) + N.Code(tail) && st.laststart == Some(|base| + |N.Code(pre)|) && HasRoom(st.b, 9)
    ensures p < |pat| && RepeatOp(st, pat, p + 1) == Result.Ok(Place(p + |ops|, st'))
    ensures st' == st.(b := base + N.Code(pre) + N.Code(Loop(tail, ZeroOk(ops), ManyOk(ops))), pending := None)
    ensures |st'.b| <= |st.b| + 9
  {
    hide N.Code, Repeated;
    ReadsAt(pat, p, ops, 0);
    OpsRun(pat, p + 1, ops);
    RepeatedCode(base + N.Code(pre), tail, ZeroOk(ops), ManyOk(ops));
    st' := RepeatOp(st, pat, p + 1).value.st;
  }

  lemma RepeatHolds(st: CState, st': CState, base: seq<Byte>, pre: N.Node, tail: N.Node, zero: bool, many: bool)
    requires Holds(st, base, pre, tail) && (zero || many)
    requires st' == st.(b := base + N.Code(pre) + N.Code(Loop(tail, zero, many)), pending := None)
    ensures Holds(st', base, pre, Loop(tail, zero, many))
  {
    hide N.Code, Counted, N.Numbered, N.GroupCount, N.Sized;
    LoopSized(tail, zero, many);
    LoopNumbered(tail, zero, many, if N.GroupCount(tail) <= st.regnum then st.regnum - N.GroupCount(tail) else 0);
    CountedPlain(st, st', pre, tail, Loop(tail, zero, many));
  }

  lemma LoopSized(n: N.Node, zero: bool, many: bool)
    requires N.Sized(n)
    ensures N.Sized(Loop(n, zero, many))
  {
  }

  lemma OpByte(pat: seq<Byte>, p: nat, st: CState, junk: seq<Byte>)
    requires |junk| == 3 && p < |pat| && IsOp(pat[p])
    ensures CompileOne(pat, p, st, junk) == RepeatOp(st, pat, p + 1)
  {
  }

  // ----- jumps past alternatives -----

  /** Patching a jump in the front part does not touch what follows. */
  lemma PatchFront(b: seq<Byte>, c: seq<Byte>, fixup: Option<nat>, to: int)
    requires fixup.Some? ==> fixup.value + 3 <= |b|
    ensures Patch(b + c, fixup, to) == Patch(b, fixup, to) + c
    ensures |Patch(b, fixup, to)| == |b|
  {
    if fixup.Some? {
      var s := fixup.value;
      assert (b + c)[s + 3..] == b[s + 3..] + c;
      assert (b + c)[..s] == b[..s];
    }
  }

  /** Filling in the three bytes left for a jump. */
  lemma PatchHole(b: seq<Byte>, junk: seq<Byte>, to: int)
    requires |junk| == 3
    ensures Patch(b + junk, Some(|b|), to) == b + N.Op1(N.JUMP_PAST_ALT, to - |b| - 3)
  {
    var s := |b|;
    assert (b + junk)[..s] == b && (b + junk)[s + 3..] == [];
  }

  // ----- the grammar, level by level -----

  predicate Fits(st: CState, e: Re) {
    |st.b| + 12 * |Print(e)| <= 40000 && st.regnum + Groups(e) <= 255
  }

  /** Reading `e` from `p` with something other than a repetition operator behind it. */
  predicate Ready(pat: seq<Byte>, p: nat, e: Re) {
    WellFormed(e) && Reads(pat, p, Print(e)) && !IsOp(Peek(pat, p + |Print(e)|))
  }

  predicate Fresh(st: CState) {
    && st.begalt == |st.b| && st.laststart == None && st.pending == None
    && (st.fixup.Some? ==> st.fixup.value + 3 <= |st.b|)
  }

  lemma AnchorStep(pat: seq<Byte>, junk: seq<Byte>, p: nat, st: CState, base: seq<Byte>, pre: N.Node, tail: N.Node, e: Re, x: Re)
    returns (tail': N.Node, st': CState)
    requires |junk| == 3 && (e.LineStart? || e.LineEnd?) && Reads(pat, p, Print(e))
    requires Holds(st, base, pre, tail) && Models(N.Cat(pre, tail), x) && HasRoom(st.b, 1)
    ensures Gets(pat, junk, p, st, p + 1, st') && |st'.b| == |st.b| + 1
    ensures Holds(st', base, N.Cat(pre, tail), tail') && Keeps(st, st', 0)
    ensures Models(N.Cat(N.Cat(pre, tail), tail'), Cat(x, e))
  {
    hide Models;
    ReadsAt(pat, p, Print(e), 0);
    AnchorsModel();
    tail' := if e.LineStart? then N.LineStart else N.LineEnd;
    st' := CompileOne(pat, p, st, junk).value.st;
    AppendHolds(st, st', base, pre, tail, tail');
    CatModels(N.Cat(pre, tail), tail', x, e);
    GetsOne(pat, junk, p, st, p + 1, st');
  }

  /** A node of its own for an atom that is not a literal. */
  ghost predicate OwnNode(st: CState, st': CState, base: seq<Byte>, pre: N.Node, tail: N.Node, tail': N.Node, e: Re) {
    && Holds(st', base, N.Cat(pre, tail), tail') && Keeps(st, st', Groups(e))
    && st'.laststart == Some(|base| + |N.Code(N.Cat(pre, tail))|)
    && Models(tail', e) && (!e.Group? ==> RegexFlow.IsChar(tail'))
  }

  lemma AnyStep(pat: seq<Byte>, junk: seq<Byte>, p: nat, st: CState, base: seq<Byte>, pre: N.Node, tail: N.Node)
    returns (st': CState)
    requires |junk| == 3 && Reads(pat, p, Print(Any)) && Holds(st, base, pre, tail) && HasRoom(st.b, 1)
    ensures Gets(pat, junk, p, st, p + 1, st') && |st'.b| == |st.b| + 1
    ensures OwnNode(st, st', base, pre, tail, N.Any, Any)
  {
    hide Models, CompileFrom;
    ReadsAt(pat, p, Print(Any), 0);
    AnyModels();
    st' := CompileOne(pat, p, st, junk).value.st;
    AppendHolds(st, st', base, pre, tail, N.Any);
    CatCode(pre, tail);
    GetsOne(pat, junk, p, st, p + 1, st');
  }

  lemma BracketStep(pat: seq<Byte>, junk: seq<Byte>, p: nat, st: CState, base: seq<Byte>, pre: N.Node, tail: N.Node, e: Re)
    returns (tail': N.Node, st': CState)
    requires |junk| == 3 && e.Bracket? && WellFormed(e) && Reads(pat, p, Print(e))
    requires Holds(st, base, pre, tail) && HasRoom(st.b, 34)
    ensures Gets(pat, junk, p, st, p + |Print(e)|, st') && |st'.b| <= |st.b| + 34
    ensures OwnNode(st, st', base, pre, tail, tail', e)
  {
    hide Models, N.Code;
    BracketByte(pat, p, st, junk, e);
    tail' := BracketCompiles(pat, p, st, e);
    st' := BracketExpr(st, pat, p + 1).value.st;
    SetCode(tail');
    SizedOf(tail', e);
    AppendHolds(st, st', base, pre, tail, tail');
    CatCode(pre, tail);
    GetsOne(pat, junk, p, st, p + |Print(e)|, st');
  }

  lemma BracketByte(pat: seq<Byte>, p: nat, st: CState, junk: seq<Byte>, e: Re)
    requires |junk| == 3 && e.Bracket? && WellFormed(e) && Reads(pat, p, Print(e))
    ensures p < |pat| && CompileOne(pat, p, st, junk) == BracketExpr(st, pat, p + 1)
    ensures |Print(e)| >= 3
  {
    assert Print(e)[0] == LBRACKET;
    ReadsAt(pat, p, Print(e), 0);
    if !e.closeFirst && !e.hyphenLast {
      assert |PrintItem(e.items[0])| >= 1;
    }
  }

  lemma SetCode(n: N.Node)
    requires n.Set?
    ensures |N.Code(n)| >= 2
  {
  }

  lemma SizedOf(n: N.Node, e: Re)
    requires Models(n, e)
    ensures N.Sized(n)
  {
  }

  /** A literal, escaped or not. */
  lemma LitByte(pat: seq<Byte>, p: nat, st: CState, junk: seq<Byte>, e: Re)
    requires |junk| == 3 && e.Lit? && WellFormed(e) && Reads(pat, p, Print(e))
    ensures p < |pat| && CompileOne(pat, p, st, junk) == NormalChar(st, pat, p + |Print(e)|, e.c)
  {
    ReadsAt(pat, p, Print(e), 0);
    if e.escaped { ReadsAt(pat, p, Print(e), 1); }
  }

  lemma {:induction false} Atom(pat: seq<Byte>, junk: seq<Byte>, p: nat, st: CState, base: seq<Byte>, pre: N.Node, tail: N.Node,
                                e: Re, x: Re)
    returns (pre': N.Node, tail': N.Node, st': CState)
    requires |junk| == 3 && IsAtom(e) && WellFormed(e) && Reads(pat, p, Print(e)) && Fits(st, e)
    requires Holds(st, base, pre, tail) && Models(N.Cat(pre, tail), x)
    ensures Gets(pat, junk, p, st, p + |Print(e)|, st')
    ensures Holds(st', base, pre', tail') && Keeps(st, st', Groups(e))
    ensures |st'.b| <= |st.b| + 12 * |Print(e)|
    ensures Models(N.Cat(pre', tail'), Cat(x, e))
    ensures IsOp(Peek(pat, p + |Print(e)|)) ==>
      && pre' == N.Cat(pre, tail) && Models(tail', e) && (!e.Group? ==> RegexFlow.IsChar(tail'))
      && st'.laststart == Some(|base| + |N.Code(pre')|)
    decreases e, 1
  {
    hide Models, Holds, Reads, N.Code, Gets, CompileFrom;
    pre' := N.Cat(pre, tail);
    match e
    case Lit(c, escaped) =>
      LitByte(pat, p, st, junk, e);
      pre', tail', st' := LitStep(pat, p + |Print(e)|, st, base, pre, tail, c, escaped, x);
      GetsOne(pat, junk, p, st, p + |Print(e)|, st');
    case Any =>
      tail' := N.Any;
      st' := AnyStep(pat, junk, p, st, base, pre, tail);
      CatModels(pre', tail', x, e);
    case Bracket(_, _, _, _) =>
      BracketByte(pat, p, st, junk, e);
      tail', st' := BracketStep(pat, junk, p, st, base, pre, tail, e);
      CatModels(pre', tail', x, e);
    case Group(body) =>
      tail', st' := GroupStep(pat, junk, p, st, base, pre, tail, e);
      CatModels(pre', tail', x, e);
  }

  lemma {:induction false} Piece(pat: seq<Byte>, junk: seq<Byte>, p: nat, st: CState, base: seq<Byte>, pre: N.Node, tail: N.Node,
                                 e: Re, x: Re)
    returns (pre': N.Node, tail': N.Node, st': CState)
    requires |junk| == 3 && IsPiece(e) && Ready(pat, p, e) && Fits(st, e)
    requires Holds(st, base, pre, tail) && Models(N.Cat(pre, tail), x)
    ensures Gets(pat, junk, p, st, p + |Print(e)|, st')
    ensures Holds(st', base, pre', tail') && Keeps(st, st', Groups(e))
    ensures |st'.b| <= |st.b| + 12 * |Print(e)|
    ensures Models(N.Cat(pre', tail'), Cat(x, e))
    decreases e, 2
  {
    hide Models, Holds, Reads, N.Code, CompileFrom;
    match e
    case LineStart =>
      pre' := N.Cat(pre, tail);
      tail', st' := AnchorStep(pat, junk, p, st, base, pre, tail, e, x);
    case LineEnd =>
      pre' := N.Cat(pre, tail);
      tail', st' := AnchorStep(pat, junk, p, st, base, pre, tail, e, x);
    case Repeat(body, ops) =>
      ReadsSplit(pat, p, Print(body), ops);
      ReadsAt(pat, p + |Print(body)|, ops, 0);
      PeekOp(pat, p + |Print(body)|);
      var st1;
      pre', tail', st1 := Atom(pat, junk, p, st, base, pre, tail, body, x);
      st' := RepeatStep(pat, junk, p + |Print(body)|, st1, base, pre', tail', body, ops, x);
      tail' := Loop(tail', ZeroOk(ops), ManyOk(ops));
    case _ =>
      pre', tail', st' := Atom(pat, junk, p, st, base, pre, tail, e, x);
  }

  lemma PeekOp(pat: seq<Byte>, p: nat)
    requires p < |pat| && IsOp(pat[p])
    ensures IsOp(Peek(pat, p))
  {
  }

  /** A piece starts with something that is not a repetition operator. */
  lemma {:induction false} PieceStarts(e: Re)
    requires IsPiece(e) && WellFormed(e)
    ensures Print(e) != [] && !IsOp(Print(e)[0])
  {
    if e.Repeat? { PieceStarts(e.body); }
  }

  lemma {:induction false} Branch(pat: seq<Byte>, junk: seq<Byte>, p: nat, st: CState, e: Re)
    returns (pre: N.Node, tail: N.Node, st': CState)
    requires |junk| == 3 && IsBranch(e) && Ready(pat, p, e) && Fits(st, e) && Fresh(st)
    ensures Gets(pat, junk, p, st, p + |Print(e)|, st')
    ensures Holds(st', st.b, pre, tail) && Keeps(st, st', Groups(e))
    ensures |st'.b| <= |st.b| + 12 * |Print(e)|
    ensures Models(N.Cat(pre, tail), e)
    decreases e, 3
  {
    hide Models, Holds, Reads, N.Code, Ready, IsPiece, Print, Groups, WellFormed, CompileFrom;
    match e
    case Empty => pre, tail, st' := EmptyBranch(pat, junk, p, st);
    case Cat(left, right) =>
      hide IsBranch, Fresh;
      var mid := p + |Print(left)|;
      BranchParts(pat, p, st, left, right);
      pre, tail, st' := Branch(pat, junk, p, st, left);
      pre, tail, st' := Piece(pat, junk, mid, st', st.b, pre, tail, right, left);
  }

  lemma EmptyBranch(pat: seq<Byte>, junk: seq<Byte>, p: nat, st: CState)
    returns (pre: N.Node, tail: N.Node, st': CState)
    requires |junk| == 3 && Ready(pat, p, Empty) && Fresh(st)
    ensures Gets(pat, junk, p, st, p + |Print(Empty)|, st')
    ensures Holds(st', st.b, pre, tail) && Keeps(st, st', Groups(Empty))
    ensures |st'.b| <= |st.b| + 12 * |Print(Empty)|
    ensures Models(N.Cat(pre, tail), Empty)
  {
    pre, tail, st' := N.Nothing, N.Nothing, st;
    assert st.b + [] + [] == st.b;
    NothingModels();
  }

  /** The two parts of a branch stand one after the other, and there is room for both. */
  lemma BranchParts(pat: seq<Byte>, p: nat, st: CState, left: Re, right: Re)
    requires IsBranch(Cat(left, right)) && Ready(pat, p, Cat(left, right)) && Fits(st, Cat(left, right))
    ensures |Print(Cat(left, right))| == |Print(left)| + |Print(right)|
    ensures Groups(Cat(left, right)) == Groups(left) + Groups(right)
    ensures IsBranch(left) && IsPiece(right) && Fits(st, left)
    ensures Ready(pat, p, left) && Ready(pat, p + |Print(left)|, right)
  {
    hide Reads, Print, Groups, WellFormed, IsOp, IsPiece, IsBranch;
    CatForm(left, right);
    PieceStarts(right);
    ReadsSplit(pat, p, Print(left), Print(right));
    ReadsAt(pat, p + |Print(left)|, Print(right), 0);
    ReadsFits(pat, p + |Print(left)|, Print(right));
  }

  lemma CatForm(left: Re, right: Re)
    ensures Print(Cat(left, right)) == Print(left) + Print(right)
    ensures Groups(Cat(left, right)) == Groups(left) + Groups(right)
    ensures WellFormed(Cat(left, right)) ==>
              IsBranch(left) && IsPiece(right) && WellFormed(left) && WellFormed(right)
  {
  }

  lemma AltForm(x: Re, y: Re)
    ensures Print(Alt(x, y)) == Print(x) + ([BAR] + Print(y))
    ensures Groups(Alt(x, y)) == Groups(x) + Groups(y)
  {
    assert Print(x) + [BAR] + Print(y) == Print(x) + ([BAR] + Print(y));
  }

  lemma AltWellFormed(x: Re, y: Re)
    ensures WellFormed(Alt(x, y)) ==>
              IsBranch(x) && (IsBranch(y) || y.Alt?) && WellFormed(x) && WellFormed(y)
  {
  }

  lemma ReadsFits(pat: seq<Byte>, p: nat, s: seq<Byte>)
    requires Reads(pat, p, s)
    ensures p + |s| <= |pat|
  {
  }

  lemma NothingModels()
    ensures Models(N.Cat(N.Nothing, N.Nothing), Empty)
  {
    forall text: seq<Byte>, i: nat, j: nat
      ensures N.Accepts(N.Cat(N.Nothing, N.Nothing), text, i, j) <==> Matches(Empty, text, i, j)
    {
      if i == j { assert N.Accepts(N.Nothing, text, i, i); }
      if N.Accepts(N.Cat(N.Nothing, N.Nothing), text, i, j) { var m := SplitNode(N.Nothing, N.Nothing, text, i, j); }
    }
  }

  // ----- alternatives -----

  /** What compiling alternatives amounts to once the last pending jump is filled in. */
  ghost predicate Built(st: CState, st': CState, n: N.Node, e: Re) {
    && |st'.b| == |st.b| + |N.Code(n)|
    && Patch(st'.b, st'.fixup, |st'.b|) == Patch(st.b, st.fixup, |st.b| + N.PastAlt(n)) + N.Code(n)
    && st'.opens == st.opens && st'.regnum == st.regnum + Groups(e)
    && (st'.fixup.Some? <==> st.fixup.Some? || n.Alt?)
    && (st'.fixup.Some? ==> st'.fixup.value + 3 <= |st'.b|)
    && Models(n, e) && (n.Alt? <==> e.Alt?)
    && N.Numbered(n, st.regnum)
  }

  lemma BranchBuilt(st: CState, st': CState, pre: N.Node, tail: N.Node, e: Re)
    requires Fresh(st) && Holds(st', st.b, pre, tail) && Keeps(st, st', Groups(e)) && Models(N.Cat(pre, tail), e) && !e.Alt?
    ensures Built(st, st', N.Cat(pre, tail), e)
  {
    hide Models, N.Code, Patch, N.Numbered, N.GroupCount;
    var n := N.Cat(pre, tail);
    CatCode(pre, tail);
    BranchNumbered(st, st', pre, tail, e);
    assert st'.b == st.b + N.Code(n);
    CatPast(n);
    PatchFront(st.b, N.Code(n), st.fixup, |st'.b|);
  }

  lemma BranchNumbered(st: CState, st': CState, pre: N.Node, tail: N.Node, e: Re)
    requires Holds(st', st.b, pre, tail) && Keeps(st, st', Groups(e)) && Models(N.Cat(pre, tail), e)
    ensures N.Numbered(N.Cat(pre, tail), st.regnum)
  {
    hide N.Numbered, N.GroupCount;
  }

  lemma CatPast(n: N.Node)
    requires n.Cat?
    ensures N.PastAlt(n) == |N.Code(n)|
  {
  }

  /** At a bar: the code of the finished alternative is `c`. */
  lemma BarStep(pat: seq<Byte>, junk: seq<Byte>, p: nat, st: CState, st1: CState, c: seq<Byte>) returns (st2: CState)
    requires |junk| == 3 && p < |pat| && pat[p] == BAR && Fresh(st)
    requires st1.b == st.b + c && st1.begalt == |st.b| && st1.fixup == st.fixup && HasRoom(st1.b, 6)
    ensures Gets(pat, junk, p, st1, p + 1, st2) && Fresh(st2)
    ensures var front := Patch(st.b, st.fixup, |st.b| + 3 + |c|) + (N.Op1(N.ON_FAILURE_JUMP, |c| + 3) + c);
            st2.b == front + junk && st2.fixup == Some(|front|)
    ensures |st2.b| == |st.b| + |c| + 6
    ensures st2.opens == st1.opens && st2.regnum == st1.regnum
  {
    hide Patch, N.Op1;
    var jump := N.Op1(N.ON_FAILURE_JUMP, |c| + 3);
    Op1Size(N.ON_FAILURE_JUMP, |c| + 3);
    InsertBetween(st.b, c, jump);
    PatchFront(st.b, jump + c, st.fixup, |st.b| + 3 + |c|);
    st2 := NextAlternative(st1, p + 1, junk).value.st;
    GetsOne(pat, junk, p, st1, p + 1, st2);
  }

  lemma AltCode(a: N.Node, b: N.Node)
    ensures N.Code(N.Alt(a, b)) == N.Op1(N.ON_FAILURE_JUMP, |N.Code(a)| + 3) + N.Code(a)
                                   + N.Op1(N.JUMP_PAST_ALT, N.PastAlt(b)) + N.Code(b)
    ensures N.PastAlt(N.Alt(a, b)) == |N.Code(a)| + 3
    ensures |N.Code(N.Alt(a, b))| == |N.Code(a)| + |N.Code(b)| + 6
  {
    hide N.Op1;
    Op1Size(N.ON_FAILURE_JUMP, |N.Code(a)| + 3);
    Op1Size(N.JUMP_PAST_ALT, N.PastAlt(b));
  }

  lemma AltBuilt(st: CState, st2: CState, st': CState, junk: seq<Byte>, a: N.Node, b: N.Node, x: Re, y: Re)
    requires |junk| == 3 && Models(a, x) && Built(st2, st', b, y) && N.Numbered(a, st.regnum)
    requires var c := N.Code(a);
      var front := Patch(st.b, st.fixup, |st.b| + 3 + |c|) + (N.Op1(N.ON_FAILURE_JUMP, |c| + 3) + c);
      && st2.b == front + junk && st2.fixup == Some(|front|) && |st2.b| == |st.b| + |c| + 6
    requires st2.opens == st.opens && st2.regnum == st.regnum + Groups(x)
    ensures Built(st, st', N.Alt(a, b), Alt(x, y))
  {
    hide Models, Patch, N.Op1, N.Code, N.PastAlt;
    var c := N.Code(a);
    var front := Patch(st.b, st.fixup, |st.b| + 3 + |c|) + (N.Op1(N.ON_FAILURE_JUMP, |c| + 3) + c);
    AltCode(a, b);
    AltModels(a, b, x, y);
    CountIs(a, x);
    PatchHole(front, junk, |st2.b| + N.PastAlt(b));
    var jump := N.Op1(N.JUMP_PAST_ALT, N.PastAlt(b));
    assert Patch(st'.b, st'.fixup, |st'.b|) == front + jump + N.Code(b);
    assert front + jump + N.Code(b) == Patch(st.b, st.fixup, |st.b| + 3 + |c|) + N.Code(N.Alt(a, b));
  }

  lemma CountIs(n: N.Node, e: Re)
    requires Models(n, e)
    ensures N.GroupCount(n) == Groups(e)
  {
  }

  /** The two sides of a bar. */
  lemma AltReady(pat: seq<Byte>, p: nat, st: CState, e: Re)
    requires e.Alt? && Ready(pat, p, e) && Fits(st, e)
    ensures var m := p + |Print(e.left)|;
      && Ready(pat, p, e.left) && Fits(st, e.left) && IsBranch(e.left)
      && m < |pat| && pat[m] == BAR
      && Ready(pat, m + 1, e.right) && (IsBranch(e.right) || e.right.Alt?)
    ensures |Print(e)| == |Print(e.left)| + 1 + |Print(e.right)| && Groups(e) == Groups(e.left) + Groups(e.right)
  {
    hide Reads, IsOp, Print, Groups, WellFormed;
    var x, y := e.left, e.right;
    AltForm(x, y);
    AltWellFormed(x, y);
    ReadsSplit(pat, p, Print(x), [BAR] + Print(y));
    ReadsSplit(pat, p + |Print(x)|, [BAR], Print(y));
    ReadsAt(pat, p + |Print(x)|, [BAR], 0);
    ReadsFits(pat, p + |Print(x)|, [BAR]);
    NotOp(BAR);
  }

  lemma NotOp(c: Byte)
    requires c == BAR || c == RPAREN
    ensures !IsOp(c)
  {
  }

  lemma {:induction false} Alternatives(pat: seq<Byte>, junk: seq<Byte>, p: nat, st: CState, e: Re)
    returns (n: N.Node, st': CState)
    requires |junk| == 3 && (IsBranch(e) || e.Alt?) && Ready(pat, p, e) && Fits(st, e) && Fresh(st)
    ensures Gets(pat, junk, p, st, p + |Print(e)|, st')
    ensures Built(st, st', n, e) && |N.Code(n)| <= 12 * |Print(e)|
    decreases e, 5
  {
    hide Models, Ready, N.Code, Built, Patch, Print, CompileFrom;
    if IsBranch(e) {
      var pre, tail;
      pre, tail, st' := Branch(pat, junk, p, st, e);
      n := N.Cat(pre, tail);
      BranchBuilt(st, st', pre, tail, e);
      BuiltSize(st, st', n, e);
    } else {
      n, st' := TwoSides(pat, junk, p, st, e);
    }
  }

  lemma {:induction false} TwoSides(pat: seq<Byte>, junk: seq<Byte>, p: nat, st: CState, e: Re)
    returns (n: N.Node, st': CState)
    requires |junk| == 3 && e.Alt? && Ready(pat, p, e) && Fits(st, e) && Fresh(st)
    ensures Gets(pat, junk, p, st, p + |Print(e)|, st')
    ensures Built(st, st', n, e) && |N.Code(n)| <= 12 * |Print(e)|
    decreases e, 4
  {
    hide Models, Ready, N.Code, Built, Patch, Print, CompileFrom;
    var m := p + |Print(e.left)|;
    AltReady(pat, p, st, e);
    var pre, tail, st1 := Branch(pat, junk, p, st, e.left);
    var a := N.Cat(pre, tail);
    CatCode(pre, tail);
    assert st1.b == st.b + N.Code(a);
    BranchNumbered(st, st1, pre, tail, e.left);
    var st2 := BarStep(pat, junk, m, st, st1, N.Code(a));
    var b;
    b, st' := Alternatives(pat, junk, m + 1, st2, e.right);
    n := N.Alt(a, b);
    AltBuilt(st, st2, st', junk, a, b, e.left, e.right);
    AltCode(a, b);
  }

  lemma BuiltSize(st: CState, st': CState, n: N.Node, e: Re)
    requires Built(st, st', n, e)
    ensures |st'.b| == |st.b| + |N.Code(n)|
  {
  }

  // ----- groups -----

  lemma OpenStep(pat: seq<Byte>, junk: seq<Byte>, p: nat, st: CState) returns (st1: CState)
    requires |junk| == 3 && p < |pat| && pat[p] == LPAREN && st.regnum < 255 && HasRoom(st.b, 3)
    ensures Gets(pat, junk, p, st, p + 1, st1) && Fresh(st1) && st1.fixup == None
    ensures st1.b == st.b + [N.START_MEMORY, st.regnum + 1, 0] && st1.regnum == st.regnum + 1
    ensures st1.opens == st.opens + [Open(st.begalt, st.fixup, |st.b|, st.regnum + 1)]
  {
    st1 := OpenGroup(st, p + 1).value.st;
    GetsOne(pat, junk, p, st, p + 1, st1);
  }

  lemma GroupCode(reg: Byte, inner: Byte, n: N.Node)
    ensures N.Code(N.Group(reg, inner, n)) ==
            [N.START_MEMORY, reg, inner] + N.Code(n) + (if n.Alt? then [N.PUSH_DUMMY_FAILURE] else []) + [N.STOP_MEMORY, reg, inner]
    ensures |N.Code(N.Group(reg, inner, n))| == |N.Code(n)| + (if n.Alt? then 7 else 6)
    ensures N.Sized(N.Group(reg, inner, n)) == N.Sized(n)
  {
  }

  /** The dummy failure point and the last jump, at the end of a group. */
  lemma EndStep(st1: CState, st2: CState, n: N.Node, e: Re)
    requires Fresh(st1) && st1.fixup == None && Built(st1, st2, n, e)
    ensures EndAlternatives(st2) == st2.(b := st1.b + N.Code(n) + (if n.Alt? then [N.PUSH_DUMMY_FAILURE] else []))
  {
    hide Models, N.Code;
    if n.Alt? {
      PatchFront(st2.b, [N.PUSH_DUMMY_FAILURE], st2.fixup, |st2.b|);
    }
  }

  lemma CloseStep(pat: seq<Byte>, junk: seq<Byte>, p: nat, st: CState, st1: CState, st2: CState, n: N.Node, e: Re)
    returns (st': CState, inner: Byte)
    requires |junk| == 3 && p < |pat| && pat[p] == RPAREN && st.regnum < 255
    requires st1.b == st.b + [N.START_MEMORY, st.regnum + 1, 0] && st1.regnum == st.regnum + 1
    requires st1.opens == st.opens + [Open(st.begalt, st.fixup, |st.b|, st.regnum + 1)]
    requires Fresh(st1) && st1.fixup == None && Built(st1, st2, n, e) && HasRoom(st2.b, 4) && st1.regnum + Groups(e) <= 255
    ensures Gets(pat, junk, p, st2, p + 1, st')
    ensures st'.b == st.b + N.Code(N.Group(st.regnum + 1, inner, n)) && st'.pending == None
    ensures st'.laststart == Some(|st.b|) && Keeps(st, st', 1 + Groups(e)) && inner == Groups(e)
  {
    hide Models, N.Code, Patch;
    EndStep(st1, st2, n, e);
    var s := EndAlternatives(st2);
    var reg := st.regnum + 1;
    inner := s.regnum - reg;
    var dummy := if n.Alt? then [N.PUSH_DUMMY_FAILURE] else [];
    GroupCode(reg, inner, n);
    FillInner(st.b, reg, inner, N.Code(n), dummy);
    assert s.opens[..|s.opens| - 1] == st.opens;
    BuiltFixup(st1, st2, n, e);
    st' := CloseGroup(st2, pat, p + 1).value.st;
    GetsOne(pat, junk, p, st2, p + 1, st');
  }

  lemma BuiltFixup(st: CState, st': CState, n: N.Node, e: Re)
    requires Built(st, st', n, e)
    ensures st'.opens == st.opens && st'.regnum == st.regnum + Groups(e)
  {
  }

  lemma FillInner(b: seq<Byte>, reg: Byte, inner: Byte, code: seq<Byte>, dummy: seq<Byte>)
    ensures var s := b + [N.START_MEMORY, reg, 0] + code + dummy;
      && |b| + 2 < |s|
      && s[|b| + 2 := inner] + [N.STOP_MEMORY, reg, inner]
         == b + ([N.START_MEMORY, reg, inner] + code + dummy + [N.STOP_MEMORY, reg, inner])
  {
  }

  lemma GroupReady(pat: seq<Byte>, p: nat, st: CState, e: Re)
    requires e.Group? && WellFormed(e) && Reads(pat, p, Print(e)) && Fits(st, e)
    ensures var m := p + 1 + |Print(e.body)|;
      && m < |pat| && pat[p] == LPAREN && pat[m] == RPAREN
      && Ready(pat, p + 1, e.body) && (IsBranch(e.body) || e.body.Alt?)
    ensures |Print(e)| == |Print(e.body)| + 2 && Groups(e) == 1 + Groups(e.body)
  {
    hide Reads, IsOp;
    var body := e.body;
    assert Print(e) == [LPAREN] + (Print(body) + [RPAREN]);
    ReadsSplit(pat, p, [LPAREN], Print(body) + [RPAREN]);
    ReadsSplit(pat, p + 1, Print(body), [RPAREN]);
    ReadsAt(pat, p, [LPAREN], 0);
    ReadsAt(pat, p + 1 + |Print(body)|, [RPAREN], 0);
    ReadsFits(pat, p + 1 + |Print(body)|, [RPAREN]);
    NotOp(RPAREN);
  }

  lemma {:induction false} GroupStep(pat: seq<Byte>, junk: seq<Byte>, p: nat, st: CState, base: seq<Byte>, pre: N.Node, tail: N.Node, e: Re)
    returns (tail': N.Node, st': CState)
    requires |junk| == 3 && e.Group? && WellFormed(e) && Reads(pat, p, Print(e)) && Fits(st, e)
    requires Holds(st, base, pre, tail)
    ensures Gets(pat, junk, p, st, p + |Print(e)|, st') && |st'.b| <= |st.b| + 12 * |Print(e)|
    ensures OwnNode(st, st', base, pre, tail, tail', e)
    decreases e, 0
  {
    hide Models, Reads, Ready, N.Code, Patch, Built, Print, Holds, CompileFrom;
    var body := e.body;
    GroupReady(pat, p, st, e);
    var st1 := OpenStep(pat, junk, p, st);
    var n, st2 := Alternatives(pat, junk, p + 1, st1, body);
    BuiltSize(st1, st2, n, body);
    var inner;
    st', inner := CloseStep(pat, junk, p + 1 + |Print(body)|, st, st1, st2, n, body);
    tail' := N.Group(st.regnum + 1, inner, n);
    BuiltModels(st1, st2, n, body);
    CountIs(n, body);
    GroupNumbered(tail', st.regnum);
    GroupModels(st.regnum + 1, inner, n, body);
    GroupCode(st.regnum + 1, inner, n);
    SizedOf(tail', e);
    GroupHolds(st, st', base, pre, tail, tail');
  }

  lemma BuiltModels(st: CState, st': CState, n: N.Node, e: Re)
    requires Built(st, st', n, e)
    ensures Models(n, e) && N.Numbered(n, st.regnum)
  {
  }

  lemma GroupNumbered(n: N.Node, first: nat)
    requires n.Group? && n.reg == first + 1 && n.inner == N.GroupCount(n.body) && N.Numbered(n.body, first + 1)
    ensures N.Numbered(n, first) && N.GroupCount(n) == 1 + N.GroupCount(n.body)
  {
  }

  lemma GroupHolds(st: CState, st': CState, base: seq<Byte>, pre: N.Node, tail: N.Node, node: N.Node)
    requires Holds(st, base, pre, tail) && N.Sized(node)
    requires st'.b == st.b + N.Code(node) && st'.pending == None && st'.laststart == Some(|st.b|)
    requires N.Numbered(node, st.regnum) && st'.regnum == st.regnum + N.GroupCount(node)
    ensures Holds(st', base, N.Cat(pre, tail), node) && st'.laststart == Some(|base| + |N.Code(N.Cat(pre, tail))|)
  {
    hide N.Code, N.Sized, Counted, N.Numbered, N.GroupCount;
    CatCode(pre, tail);
    CountedNode(st, st', pre, tail, node);
    assert st'.b == base + N.Code(N.Cat(pre, tail)) + N.Code(node);
  }

  // ----- the theorem -----

  /**
   For every pattern tree with at most 255 groups whose text is short enough, compiling the
   text succeeds, counts the groups, and yields exactly the code of a node that means what
   the tree means, whatever the three bytes held open for a jump contained before.
   */
  lemma CompileCorrect(e: Re, junk: seq<Byte>) returns (n: N.Node)
    requires |junk| == 3 && IsPattern(e) && Groups(e) <= 255 && 12 * |Print(e)| < 32768
    ensures Compile(Print(e), junk) == Result.Ok(Compiled(N.Code(n), Groups(e)))
    ensures Models(n, e) && |N.Code(n)| <= 12 * |Print(e)| && N.Numbered(n, 0)
  {
    hide Models, N.Code, Built, Patch;
    var pat := Print(e);
    assert pat[0..0 + |pat|] == pat;
    var st';
    n, st' := Alternatives(pat, junk, 0, FRESH, e);
    BuiltDone(st', n, e);
  }

  lemma BuiltDone(st': CState, n: N.Node, e: Re)
    requires Built(FRESH, st', n, e)
    ensures Models(n, e) && N.Numbered(n, 0)
    ensures Finish(st') == Result.Ok(Compiled(N.Code(n), Groups(e)))
  {
    assert [] + N.Code(n) == N.Code(n);
  }
}
