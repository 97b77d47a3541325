/**
 When the matcher gives up: only when one more failure point does not fit in the limit, or when the register
 flags are so far apart that the space asked for wraps round.  Without groups the first takes 2000 failure
 points, and the second never happens; with groups the second can happen early in a short match.
 */
module RegexOverflow {
  import opened Bytes
  import opened RegexNode
  import opened RegexNfa
  import opened RegexJumps
  import opened RegexMachine
  import opened RegexSoundness
  import opened RegexFlow
  import opened RegexCompleteness
  import W = RegexWear

  /** The lowest active register is so far above the highest that the space asked for wraps round. */
  predicate Wraps(s: State) { s.low > s.high + 2 }

  /** A failure point is refused only if it does not fit in the limit, or asks for too much by wrapping round. */
  lemma PushRefused(s: State, dummy: bool, at: Cfg)
    requires s.size > 0 && Push(s, dummy, at).None?
    ensures Wraps(s) || s.avail + 3 * (s.high - s.low + 1) + 4 > StackLimit(|s.info|)
  {
    GrownFits(s.size, s.avail, ItemsAsked(s.low, s.high), StackLimit(|s.info|));
    if !Wraps(s) && s.high - s.low + 1 < WORD / 3 - 2 { AsksLittle(s.low, s.high); }
  }

  lemma AsksLittle(low: nat, high: nat)
    requires low <= high + 2 && high - low + 1 < WORD / 3 - 2
    ensures ItemsAsked(low, high) == 3 * (high - low + 1) + 4
  {
  }

  lemma {:induction false} GrownFits(size: nat, avail: nat, items: nat, limit: nat)
    requires size > 0
    ensures Grown(size, avail, items, limit).None? ==> avail + items > limit
    decreases limit + 1 - size
  {
    if avail + items > size && size <= limit { GrownFits(2 * size, avail, items, limit); }
  }

  /** What wraps round is always refused. */
  lemma WrapsIsRefused(s: State, dummy: bool, at: Cfg)
    requires Wraps(s) && s.low <= NO_LOWEST_ACTIVE_REG && |s.info| <= 256 && 0 < s.size <= 2 * StackLimit(|s.info|)
    ensures Push(s, dummy, at) == None
  {
    assert 3 * (s.high - s.low + 1) + 4 < 0;
    assert ItemsAsked(s.low, s.high) > 0xFFFF_FFFF;
    NeverFits(s.size, s.avail, ItemsAsked(s.low, s.high), StackLimit(|s.info|));
  }

  lemma {:induction false} NeverFits(size: nat, avail: nat, items: nat, limit: nat)
    requires 0 < size <= 2 * limit && items > 2 * limit
    ensures Grown(size, avail, items, limit) == None
    decreases limit + 1 - size
  {
    if size <= limit { NeverFits(2 * size, avail, items, limit); }
  }

  // ----- without groups -----

  /** No register was ever active: every failure point takes four items. */
  predicate Fits(s: State) {
    && |s.info| == 1 && s.size > 0 && s.avail == 4 * |s.stack|
    && s.low == NO_LOWEST_ACTIVE_REG && s.high == NO_HIGHEST_ACTIVE_REG
    && forall k | 0 <= k < |s.stack| :: s.stack[k].low == NO_LOWEST_ACTIVE_REG && s.stack[k].high == NO_HIGHEST_ACTIVE_REG
  }

  predicate Deep(s: State) { |s.stack| >= MAX_FAILURES }

  predicate Steady(s: State, o: Outcome) { (o.Running? ==> Fits(o.state)) && (o.Overflow? ==> Deep(s)) }

  lemma PushThenSteady(s: State, dummy: bool, saved: Cfg, next: Cfg)
    requires Fits(s)
    ensures Steady(s, PushThen(s, dummy, saved, next))
  {
    hide Grown, ItemsAsked;
    if Push(s, dummy, saved).Some? {
      GrownPositive(s.size, s.avail, ItemsAsked(s.low, s.high), StackLimit(|s.info|));
    } else {
      PushRefused(s, dummy, saved);
    }
  }

  lemma {:induction false} GrownPositive(size: nat, avail: nat, items: nat, limit: nat)
    requires size > 0 && Grown(size, avail, items, limit).Some?
    ensures Grown(size, avail, items, limit).value > 0
    decreases limit + 1 - size
  {
    if avail + items > size { GrownPositive(2 * size, avail, items, limit); }
  }

  lemma {:induction false} FailFits(s: State)
    requires Fits(s)
    ensures Fail(s).Running? ==> Fits(Fail(s).state)
    ensures !Fail(s).Overflow?
    decreases |s.stack|
  {
    hide AtLoopJump;
    if s.stack != [] && (Top(s).dummy || AtLoopJump(Restore(s).code, Restore(s).at.p)) { FailFits(Restore(s)); }
  }

  lemma TestSteady(s: State, text: seq<Byte>, i: Instr)
    requires Fits(s) && IsTest(i)
    ensures Steady(s, Test(s, text, i))
  {
    hide Fail, Eat;
    FailFits(s);
  }

  lemma AtEndSteady(s: State, text: seq<Byte>)
    requires Fits(s)
    ensures Steady(s, AtEnd(s, text))
  {
    hide Fail;
    FailFits(if s.best.None? || s.at.d > s.best.value then s.(best := Some(s.at.d)) else s);
  }

  lemma JumpSteady(s: State, op: Byte, to: int)
    requires Fits(s) && 0 <= s.at.p && s.at.p + 3 <= |s.code|
    ensures Steady(s, GoJump(s, op, to))
  {
    hide PushThen, NeverBacktracks;
    PushThenSteady(s, true, Cfg(0, 0), Cfg(to, s.at.d));
  }

  /** Code without groups has no group command. */
  lemma NoGroups(orig: seq<Byte>, n: Node, code: seq<Byte>, p: int)
    requires Frag(n, orig) && GroupCount(n) == 0 && Rewritten(orig, code) && 0 <= p < |orig| && Walk(orig, 0, p)
    ensures |code| == |orig| && !Decode(code, p).Memory?
  {
    hide Decode, Rewritten, Inner, LoopHead;
    FragLands(n, orig);
    W.SameRead(orig, code, p);
    FlowsAt(n, orig, p);
    var x := Decode(orig, p);
    if x.Memory? { GroupsInRange(n, 0, x.reg, x.inner); }
  }

  lemma ForkSteady(orig: seq<Byte>, n: Node, text: seq<Byte>, pos: nat, s: State)
    requires Frag(n, orig) && GroupCount(n) == 0 && CInv(orig, n, text, pos, s) && Fits(s)
    requires 0 <= s.at.p < |s.code| && Decode(s.code, s.at.p).OnFail?
    ensures Steady(s, OnFailure(s, Decode(s.code, s.at.p).to))
  {
    hide Frag, Decode, Rewritten, LoopTop, Decided, Reaches, Flows, Fits, PushThen;
    InstrAt(orig, n, text, pos, s);
    WalkOne(orig, s.at.p);
    WalkJoin(orig, 0, s.at.p, s.at.p + 3);
    if s.at.p + 3 < |orig| { NoGroups(orig, n, s.code, s.at.p + 3); }
    PushThenSteady(s, false, Cfg(Decode(s.code, s.at.p).to, s.at.d), Cfg(s.at.p + 3, s.at.d));
  }

  lemma StepSteady(orig: seq<Byte>, n: Node, text: seq<Byte>, pos: nat, s: State)
    requires Frag(n, orig) && GroupCount(n) == 0 && CInv(orig, n, text, pos, s) && Fits(s)
    ensures Steady(s, Step(s, text))
  {
    hide Frag, Decode, CInv, Fits, PushThen, OnFailure, GoJump, Test, AtEnd;
    if s.at.p == |s.code| {
      AtEndSteady(s, text);
    } else if 0 <= s.at.p < |s.code| {
      CInvWalk(orig, n, text, pos, s);
      NoGroups(orig, n, s.code, s.at.p);
      var i := Decode(s.code, s.at.p);
      if i.OnFail? { ForkSteady(orig, n, text, pos, s); }
      else if i.Goto? { if s.at.p + 3 <= |s.code| { JumpSteady(s, i.op, i.to); } }
      else if i.PushDummy? { PushThenSteady(s, true, Cfg(0, 0), Cfg(s.at.p + 1, s.at.d)); }
      else if !i.Bad? { TestSteady(s, text, i); }
    }
  }

  lemma CInvWalk(orig: seq<Byte>, n: Node, text: seq<Byte>, pos: nat, s: State)
    requires CInv(orig, n, text, pos, s)
    ensures Rewritten(orig, s.code) && |s.code| == |orig| && Walk(orig, 0, s.at.p)
  {
  }

  /** Some state of the run has 2000 failure points stacked. */
  ghost predicate GoesDeep(s: State, text: seq<Byte>, fuel: nat)
    decreases fuel
  {
    Deep(s) || (fuel > 0 && Step(s, text).Running? && GoesDeep(Step(s, text).state, text, fuel - 1))
  }

  lemma {:induction false} StackCounts(orig: seq<Byte>, text: seq<Byte>, stack: seq<Frame>)
    ensures StackWeight(orig, text, stack) >= |stack|
  {
    hide Weight;
    if stack != [] {
      StackCounts(orig, text, stack[..|stack| - 1]);
      if !stack[|stack| - 1].dummy { WeightPositive(orig, text, stack[|stack| - 1].at); }
    }
  }

  /** A run that gives up went deep, which takes that many commands still to be caused. */
  lemma {:induction false} RunGoesDeep(orig: seq<Byte>, n: Node, text: seq<Byte>, pos: nat, s: State, fuel: nat)
    requires Frag(n, orig) && GroupCount(n) == 0 && CInv(orig, n, text, pos, s) && Fits(s)
    ensures Execute(s, text, fuel).Overflow? ==> GoesDeep(s, text, fuel)
    ensures GoesDeep(s, text, fuel) ==> Load(orig, text, s) > MAX_FAILURES
    decreases fuel
  {
    hide Frag, CInv, Fits, Step, Weight;
    StackCounts(orig, text, s.stack);
    WeightPositive(orig, text, s.at);
    if fuel > 0 {
      StepGood(orig, n, text, 0, pos, s);
      StepSteady(orig, n, text, pos, s);
      if Step(s, text).Running? { RunGoesDeep(orig, n, text, pos, Step(s, text).state, fuel - 1); }
    }
  }

  /**
   On the code of a pattern without groups the matcher gives up only if 2000 failure points are stacked at some
   point, and that only if more than 2000 commands lay ahead at the start.
   */
  lemma GivesUpDeep(n: Node, text: seq<Byte>, pos: nat, fuel: nat)
    requires Sized(n) && Flat(n) && ShortSets(n) && Numbered(n, 0) && GroupCount(n) == 0 && |Code(n)| < 32768 && pos <= |text|
    ensures var s := Start(Code(n), 0, pos);
            && (Execute(s, text, fuel).Overflow? ==> GoesDeep(s, text, fuel))
            && (GoesDeep(s, text, fuel) ==> Bound(Code(n), text, pos) > MAX_FAILURES + 1)
  {
    hide Weight, CInv, Execute, Sized, Flat, ShortSets, Numbered, Code, GoesDeep;
    var orig := Code(n);
    var s := Start(orig, 0, pos);
    StartGood(n, orig, text, pos);
    RunGoesDeep(orig, n, text, pos, s, fuel);
  }
}
