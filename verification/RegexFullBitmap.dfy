/**
 Why the completeness theorem needs the guard on pattern characters: the smart repeat
 computes the size of a bitmap in one byte, so a bitmap of the full 32 bytes counts as
 empty and the repeat wrongly decides that it never has to backtrack.
 */
module RegexFullBitmap {
  import opened Bytes
  import opened RegexNode
  import opened RegexNfa
  import opened RegexMachine
  import Closure

  /** The decision at the end of a loop over a set, before a literal `c`, is right unless the
      set is not negated, its bitmap is full, and `c` is in it. */
  lemma DecisionIsRight(code: seq<Byte>, to: int, c: Byte, negated: bool, bits: seq<Byte>)
    requires 0 <= to && to + 3 < |code| && Decode(code, to + 3) == CharSet(negated, bits) && |bits| <= 32
    ensures (CannotStart(code, to, c) ==> SetHas(bits, c) == negated) <==> !(|bits| == 32 && !negated && SetHas(bits, c))
  {
  }

  function Example(bits: seq<Byte>, c: Byte): Node { Cat(Star(Set(false, bits)), Run([c])) }

  /** The commands of the example. */
  lemma ExampleCode(bits: seq<Byte>, c: Byte)
    requires |bits| == 32
    ensures var code := Code(Example(bits, c));
      && |code| == 43
      && Decode(code, 0) == OnFail(40)
      && Decode(code, 3) == CharSet(false, bits)
      && Decode(code, 37) == Goto(MAYBE_POP_JUMP, 0)
      && Decode(code, 40) == Exact([c])
  {
    var n := Example(bits, c);
    var code := Code(n);
    var star := Star(Set(false, bits));
    assert |Code(Set(false, bits))| == 34;
    assert |Code(star)| == 40;
    assert |Code(Run([c]))| == 3;
    assert Sized(Set(false, bits)) && Sized(star) && Sized(Run([c]));
    assert |code| == 43 && Sized(n);
    assert code[0..0 + |code|] == code;
    assert n.left == star && |Code(n.left)| == 40;
    hide Decode, Code;
    AtCat(code, 0, n);
    AtStar(code, 0, star);
    AtTest(code, 3, Set(false, bits));
    AtTest(code, 40, Run([c]));
  }

  /** Deciding the repeat at 37 changes that one opcode. */
  lemma ExampleDecided(bits: seq<Byte>, c: Byte)
    requires |bits| == 32
    ensures |Code(Example(bits, c))| == 43
    ensures var code := Code(Example(bits, c))[37 := POP_FAILURE_JUMP];
      && |code| == 43
      && Decode(code, 0) == OnFail(40)
      && Decode(code, 3) == CharSet(false, bits)
      && Decode(code, 40) == Exact([c])
  {
    ExampleCode(bits, c);
    var a := Code(Example(bits, c));
    var b := a[37 := POP_FAILURE_JUMP];
    assert b[5..37] == a[5..37];
    assert b[42..43] == a[42..43];
  }

  lemma ExampleAccepts(bits: seq<Byte>, c: Byte)
    requires SetHas(bits, c)
    ensures Accepts(Example(bits, c), [c], 0, 1)
  {
    assert Closure.Star(Spans(Set(false, bits), [c]), 0, 0);
    assert Accepts(Star(Set(false, bits)), [c], 0, 0);
    assert [c][0..1] == [c];
    assert Accepts(Run([c]), [c], 0, 1);
  }

  /** What the lemma below follows of a state. */
  predicate Looks(s: State, code: seq<Byte>, p: int, d: nat, stack: seq<Cfg>) {
    && s.code == code && s.at == Cfg(p, d) && s.best == None
    && |s.stack| == |stack| && (forall k :: 0 <= k < |stack| ==>
          s.stack[k] == Frame(false, stack[k], NO_LOWEST_ACTIVE_REG, NO_HIGHEST_ACTIVE_REG, s.stack[k].info))
    && s.low == NO_LOWEST_ACTIVE_REG && s.high == NO_HIGHEST_ACTIVE_REG && s.size == 5 && s.avail == 4 * |stack|
  }

  lemma ForkFrom(s: State, code: seq<Byte>, text: seq<Byte>, p: nat, d: nat, to: int)
    requires Looks(s, code, p, d, []) && p + 3 < |code| && Decode(code, p) == OnFail(to) && !Decode(code, p + 3).Memory?
    ensures Step(s, text).Running? && Looks(Step(s, text).state, code, p + 3, d, [Cfg(to, d)])
  {
  }

  lemma TestFrom(s: State, code: seq<Byte>, text: seq<Byte>, p: nat, d: nat, stack: seq<Cfg>)
    requires Looks(s, code, p, d, stack) && p < |code| && IsTest(Decode(code, p)) && Eat(Decode(code, p), text, d).Some?
    ensures Step(s, text).Running?
    ensures Looks(Step(s, text).state, code, p + Size(Decode(code, p)), Eat(Decode(code, p), text, d).value, stack)
  {
    hide Decode, Eat;
  }

  lemma DecideFrom(s: State, code: seq<Byte>, text: seq<Byte>, p: nat, d: nat, to: int, top: Cfg)
    requires Looks(s, code, p, d, [top]) && p + 3 <= |code| && Decode(code, p) == Goto(MAYBE_POP_JUMP, to)
    requires NeverBacktracks(code, p, to)
    ensures Step(s, text).Running? && Looks(Step(s, text).state, code[p := POP_FAILURE_JUMP], to, d, [])
  {
    hide Decode, NeverBacktracks;
  }

  /** A test that fails, with one failure point left. */
  lemma FailFrom(s: State, code: seq<Byte>, text: seq<Byte>, p: nat, d: nat, top: Cfg)
    requires Looks(s, code, p, d, [top]) && p < |code| && IsTest(Decode(code, p)) && Eat(Decode(code, p), text, d).None?
    requires !AtLoopJump(code, top.p)
    ensures Step(s, text).Running? && Looks(Step(s, text).state, code, top.p, top.d, [])
  {
    hide Decode, Eat, AtLoopJump;
  }

  lemma GiveUpFrom(s: State, code: seq<Byte>, text: seq<Byte>, p: nat, d: nat)
    requires Looks(s, code, p, d, []) && p < |code| && IsTest(Decode(code, p)) && Eat(Decode(code, p), text, d).None?
    ensures Step(s, text) == NoMatch
  {
    hide Decode, Eat;
  }

  /** Whatever full bitmap the compiler emits, with a last byte that is not 0, and whatever character it holds. */
  lemma {:induction false} FullBitmapLosesMatch(bits: seq<Byte>, c: Byte)
    requires |bits| == 32 && bits[31] != 0 && SetHas(bits, c)
    ensures Accepts(Example(bits, c), [c], 0, 1)
    ensures Execute(Start(Code(Example(bits, c)), 0, 0), [c], 6) == NoMatch
  {
    hide Code, Step, Accepts, Execute;
    ExampleAccepts(bits, c);
    ExampleCode(bits, c);
    ExampleDecided(bits, c);
    var text, code := [c], Code(Example(bits, c));
    var after := code[37 := POP_FAILURE_JUMP];
    ExampleEats(bits, c);
    hide Decode, Eat;
    var s0 := Start(code, 0, 0);
    ForkFrom(s0, code, text, 0, 0, 40);
    var s1 := Step(s0, text).state;
    TestFrom(s1, code, text, 3, 0, [Cfg(40, 0)]);
    var s2 := Step(s1, text).state;
    DecideFrom(s2, code, text, 37, 1, 0, Cfg(40, 0));
    var s3 := Step(s2, text).state;
    ForkFrom(s3, after, text, 0, 1, 40);
    var s4 := Step(s3, text).state;
    FailFrom(s4, after, text, 3, 1, Cfg(40, 1));
    var s5 := Step(s4, text).state;
    GiveUpFrom(s5, after, text, 40, 1);
    SixSteps(s0, s1, s2, s3, s4, s5, text);
  }

  lemma ExampleEats(bits: seq<Byte>, c: Byte)
    requires |bits| == 32 && SetHas(bits, c)
    ensures Eat(CharSet(false, bits), [c], 0) == Some(1) && Eat(CharSet(false, bits), [c], 1) == None
    ensures Eat(Exact([c]), [c], 1) == None
  {
  }

  lemma SixSteps(s0: State, s1: State, s2: State, s3: State, s4: State, s5: State, text: seq<Byte>)
    requires Step(s0, text) == Running(s1) && Step(s1, text) == Running(s2) && Step(s2, text) == Running(s3)
    requires Step(s3, text) == Running(s4) && Step(s4, text) == Running(s5) && Step(s5, text) == NoMatch
    ensures Execute(s0, text, 6) == NoMatch
  {
    hide Step;
    assert Execute(s5, text, 1) == NoMatch;
    assert Execute(s4, text, 2) == NoMatch;
    assert Execute(s3, text, 3) == NoMatch;
    assert Execute(s2, text, 4) == NoMatch;
    assert Execute(s1, text, 5) == NoMatch;
  }
}
