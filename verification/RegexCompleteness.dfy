/**
 Completeness and termination on patterns that repeat no group: the machine halts, and it
 loses no match.  In particular a failure point thrown away by pop_failure_jump could
 not have led to a match that the rest of the search does not find.
 */
module RegexCompleteness {
  import opened Bytes
  import opened RegexNode
  import opened RegexNfa
  import opened RegexJumps
  import opened RegexLanguage
  import opened RegexMachine
  import opened RegexSoundness
  import opened RegexFlow
  import W = RegexWear

  /** The code compiled from `n` is in the fragment. */
  predicate Frag(n: Node, orig: seq<Byte>) {
    Sized(n) && Flat(n) && ShortSets(n) && Numbered(n, 0) && orig == Code(n) && |orig| < 32768
  }

  /** Some match that ends at `least` or later can be completed from `c`. */
  ghost predicate Can(orig: seq<Byte>, text: seq<Byte>, least: nat, c: Cfg) {
    exists e: nat :: e >= least && Reaches(orig, text, c, Cfg(|orig|, e))
  }

  ghost predicate HopefulFrame(orig: seq<Byte>, text: seq<Byte>, least: nat, f: Frame) {
    !f.dummy && Can(orig, text, least, f.at)
  }

  /** Such a match has been saved, or some failure point can still complete one. */
  ghost predicate Hope(orig: seq<Byte>, text: seq<Byte>, least: nat, s: State) {
    (s.best.Some? && s.best.value >= least) || exists k :: 0 <= k < |s.stack| && HopefulFrame(orig, text, least, s.stack[k])
  }

  ghost predicate Live(orig: seq<Byte>, text: seq<Byte>, least: nat, s: State) {
    Hope(orig, text, least, s) || Can(orig, text, least, s.at)
  }

  predicate FrameOutside(n: Node, text: seq<Byte>, f: Frame) {
    f.dummy || (!Inner(n, 0, f.at.p) && f.at.d <= |text|)
  }

  /** Inside a loop the top failure point is the loop's own: its exit, at the position where
      the current character was, or a dummy. */
  predicate LoopTop(orig: seq<Byte>, n: Node, text: seq<Byte>, s: State) {
    Inner(n, 0, s.at.p) ==>
      && s.stack != []
      && 0 <= s.at.p < |orig|
      && (Top(s).dummy ||
          (match Decode(orig, s.at.p)
           case Goto(_, to) =>
             && 0 <= to && to + 3 < |orig| && IsTest(Decode(orig, to + 3))
             && 1 <= s.at.d && Top(s).at == Cfg(s.at.p + 3, s.at.d - 1)
             && Eat(Decode(orig, to + 3), text, s.at.d - 1) == Some(s.at.d)
           case _ =>
             && 3 <= s.at.p && Decode(orig, s.at.p - 3).OnFail?
             && Top(s).at == Cfg(Decode(orig, s.at.p - 3).to, s.at.d)))
  }

  /** Every repeat turned into pop_failure_jump was one that never needs to backtrack. */
  predicate Decided(orig: seq<Byte>, code: seq<Byte>) {
    forall q :: 0 <= q < |orig| && q < |code| && code[q] != orig[q] && code[q] == POP_FAILURE_JUMP ==>
      q + 3 <= |orig| && Decode(orig, q).Goto? && NeverBacktracks(orig, q, Decode(orig, q).to)
  }

  ghost predicate CInv(orig: seq<Byte>, n: Node, text: seq<Byte>, pos: nat, s: State) {
    && Inv(orig, text, pos, s)
    && s.at.d <= |text|
    && (forall k :: 0 <= k < |s.stack| ==> FrameOutside(n, text, s.stack[k]))
    && LoopTop(orig, n, text, s)
    && Decided(orig, s.code)
    && |s.info| > GroupCount(n)
  }

  // ----- a measure: the commands a configuration can still cause -----

  function Rank(code: seq<Byte>, p: int): nat {
    if 0 <= p < |code| then
      match Decode(code, p)
      case Goto(_, to) => if 0 <= to <= p then 2 * (|code| - to) + 1 else 2 * (|code| - p)
      case _ => 2 * (|code| - p)
    else 0
  }

  predicate Lower(code: seq<Byte>, text: seq<Byte>, c': Cfg, c: Cfg) {
    c.d <= c'.d <= |text| && (c'.d > c.d || Rank(code, c'.p) < Rank(code, c.p))
  }

  function Weight(code: seq<Byte>, text: seq<Byte>, c: Cfg): nat
    decreases if c.d <= |text| then |text| - c.d else 0, Rank(code, c.p)
  {
    if c.p < 0 || c.p >= |code| || c.d > |text| then 1
    else
      match Decode(code, c.p)
      case OnFail(to) =>
        1 + (if Lower(code, text, Cfg(c.p + 3, c.d), c) then Weight(code, text, Cfg(c.p + 3, c.d)) else 0)
          + (if Lower(code, text, Cfg(to, c.d), c) then Weight(code, text, Cfg(to, c.d)) else 0)
      case Goto(_, to) =>
        2 + (if Lower(code, text, Cfg(to, c.d), c) then Weight(code, text, Cfg(to, c.d)) else 0)
      case Memory(_, _, _) =>
        1 + (if Lower(code, text, Cfg(c.p + 3, c.d), c) then Weight(code, text, Cfg(c.p + 3, c.d)) else 0)
      case PushDummy =>
        2 + (if Lower(code, text, Cfg(c.p + 1, c.d), c) then Weight(code, text, Cfg(c.p + 1, c.d)) else 0)
      case Bad => 1
      case i =>
        match Eat(i, text, c.d)
        case None => 1
        case Some(d) =>
          var c' := Cfg(c.p + Size(i), d);
          1 + (if Lower(code, text, c', c) then Weight(code, text, c') else 0)
  }

  lemma WeightPositive(code: seq<Byte>, text: seq<Byte>, c: Cfg)
    ensures Weight(code, text, c) >= 1
  {
  }

  function FrameWeight(code: seq<Byte>, text: seq<Byte>, f: Frame): nat {
    if f.dummy then 1 else Weight(code, text, f.at)
  }

  function StackWeight(code: seq<Byte>, text: seq<Byte>, stack: seq<Frame>): nat {
    if stack == [] then 0
    else StackWeight(code, text, stack[..|stack| - 1]) + FrameWeight(code, text, stack[|stack| - 1])
  }

  function Load(orig: seq<Byte>, text: seq<Byte>, s: State): nat {
    StackWeight(orig, text, s.stack) + Weight(orig, text, s.at)
  }

  /** What one command must not do: lose the last hope, settle for less, get stuck, or fail to make progress. */
  ghost predicate Good(orig: seq<Byte>, n: Node, text: seq<Byte>, least: nat, pos: nat, live: bool, load: nat, o: Outcome) {
    match o
    case Running(t) => CInv(orig, n, text, pos, t) && (live ==> Live(orig, text, least, t)) && Load(orig, text, t) < load
    case Matched(e) => live ==> e >= least
    case NoMatch => !live
    case Overflow => true
    case Stuck => false
  }

  // ----- what can be completed from where -----

  lemma CanFirst(orig: seq<Byte>, text: seq<Byte>, least: nat, c: Cfg)
    requires Can(orig, text, least, c) && 0 <= c.p < |orig|
    ensures exists m :: Moves(orig, text, c, m) && Can(orig, text, least, m)
  {
    hide Moves;
    var e: nat :| e >= least && Reaches(orig, text, c, Cfg(|orig|, e));
    var k: nat :| Steps(orig, text, c, Cfg(|orig|, e), k);
    var m :| Moves(orig, text, c, m) && Steps(orig, text, m, Cfg(|orig|, e), k - 1);
    assert Reaches(orig, text, m, Cfg(|orig|, e));
  }

  lemma CanMove(orig: seq<Byte>, text: seq<Byte>, least: nat, c: Cfg, m: Cfg)
    requires Moves(orig, text, c, m) && Can(orig, text, least, m)
    ensures Can(orig, text, least, c)
  {
    hide Moves, Reaches;
    var e: nat :| e >= least && Reaches(orig, text, m, Cfg(|orig|, e));
    ReachesFirst(orig, text, c, m, Cfg(|orig|, e));
  }

  lemma CanEnd(orig: seq<Byte>, text: seq<Byte>, least: nat, d: nat)
    ensures Can(orig, text, least, Cfg(|orig|, d)) <==> d >= least
  {
    ReachesSelf(orig, text, Cfg(|orig|, d));
    if Can(orig, text, least, Cfg(|orig|, d)) {
      var e: nat :| e >= least && Reaches(orig, text, Cfg(|orig|, d), Cfg(|orig|, e));
      var k: nat :| Steps(orig, text, Cfg(|orig|, d), Cfg(|orig|, e), k);
    }
  }

  // ----- the instruction at hand -----

  lemma FragLands(n: Node, orig: seq<Byte>)
    requires Frag(n, orig)
    ensures AllLand(orig, 0, |orig|)
  {
    CodeLands(n);
  }

  lemma FlowsAt(n: Node, orig: seq<Byte>, p: int)
    requires Frag(n, orig) && Walk(orig, 0, p) && 0 <= p < |orig|
    ensures Flows(orig, n, 0, |orig|, p)
  {
    hide Flows, Walk, Flat, ShortSets, Numbered;
    FragAt(n, orig);
    NodeFlows(orig, n, 0, p);
  }

  lemma FragAt(n: Node, orig: seq<Byte>)
    requires Frag(n, orig)
    ensures At(orig, 0, n)
  {
  }

  /** The closing jumps of loops are the only backward jumps. */
  lemma RankOutside(n: Node, orig: seq<Byte>, p: int)
    requires Frag(n, orig) && Walk(orig, 0, p) && 0 <= p <= |orig| && !Inner(n, 0, p)
    ensures Rank(orig, p) == 2 * (|orig| - p)
  {
    hide Frag, Walk, Inner, Decode, LoopHead;
    if p < |orig| { FlowsAt(n, orig, p); }
  }

  /** The parts of a loop, seen from its head. */
  lemma LoopParts(n: Node, orig: seq<Byte>, p: int)
    requires Frag(n, orig) && Walk(orig, 0, p) && 0 <= p < |orig| && LoopHead(orig, p)
    ensures Walk(orig, 0, p + 3) && Rank(orig, p + 3) == 2 * (|orig| - p - 3)
    ensures Rank(orig, p) == 2 * (|orig| - p)
  {
    hide Decode, Frag;
    WalkOne(orig, p);
    WalkJoin(orig, 0, p, p + 3);
  }

  // ----- failing -----

  lemma HopeDrops(orig: seq<Byte>, text: seq<Byte>, least: nat, s: State, t: State)
    requires s.stack != [] && t.stack == s.stack[..|s.stack| - 1] && t.best == s.best
    ensures Hope(orig, text, least, s) ==> Hope(orig, text, least, t) || HopefulFrame(orig, text, least, Top(s))
  {
    hide HopefulFrame;
    if Hope(orig, text, least, s) && !(s.best.Some? && s.best.value >= least) {
      var k :| 0 <= k < |s.stack| && HopefulFrame(orig, text, least, s.stack[k]);
      if k < |s.stack| - 1 { assert t.stack[k] == s.stack[k]; }
    }
  }

  /** A failure point never resumes at the closing jump of a loop. */
  lemma NotAtLoopJump(n: Node, orig: seq<Byte>, code: seq<Byte>, p: int)
    requires Frag(n, orig) && Rewritten(orig, code) && 0 <= p <= |orig| && Walk(orig, 0, p) && !Inner(n, 0, p)
    ensures !AtLoopJump(code, p)
  {
    hide Decode, Frag, Inner, LoopHead;
    if p < |orig| {
      FlowsAt(n, orig, p);
      FragLands(n, orig);
      assert Lands(orig, 0, p, |orig|);
      RewrittenDecode(orig, code, p);
    }
  }

  lemma {:induction false} FailGood(orig: seq<Byte>, n: Node, text: seq<Byte>, least: nat, pos: nat, s: State, load: nat)
    requires Frag(n, orig) && Inv(orig, text, pos, s) && s.at.d <= |text| && Decided(orig, s.code) && |s.info| > GroupCount(n)
    requires forall k :: 0 <= k < |s.stack| ==> FrameOutside(n, text, s.stack[k])
    requires StackWeight(orig, text, s.stack) < load
    ensures Good(orig, n, text, least, pos, Hope(orig, text, least, s), load, Fail(s))
    decreases |s.stack|
  {
    hide Frag, Seen, Rewritten, AtLoopJump, Decided, Weight, HopefulFrame, Inner, LoopHead;
    if s.stack != [] {
      var f, t := Top(s), Restore(s);
      FailPopped(orig, n, text, least, pos, s);
      HopeDrops(orig, text, least, s, t);
      if f.dummy {
        NoDummyHope(orig, text, least, f);
        FailGood(orig, n, text, least, pos, t, load);
      }
    } else {
      assert Hope(orig, text, least, s) ==> s.best.Some?;
    }
  }

  lemma NoDummyHope(orig: seq<Byte>, text: seq<Byte>, least: nat, f: Frame)
    ensures f.dummy ==> !HopefulFrame(orig, text, least, f)
    ensures HopefulFrame(orig, text, least, f) ==> Can(orig, text, least, f.at)
  {
  }

  /** The state after taking the top failure point. */
  lemma FailPopped(orig: seq<Byte>, n: Node, text: seq<Byte>, least: nat, pos: nat, s: State)
    requires Frag(n, orig) && Inv(orig, text, pos, s) && s.at.d <= |text| && Decided(orig, s.code) && s.stack != []
    requires |s.info| > GroupCount(n)
    requires forall k :: 0 <= k < |s.stack| ==> FrameOutside(n, text, s.stack[k])
    ensures var f, t := Top(s), Restore(s);
      && Inv(orig, text, pos, t) && t.at.d <= |text| && Decided(orig, t.code) && |t.info| > GroupCount(n)
      && (forall k :: 0 <= k < |t.stack| ==> FrameOutside(n, text, t.stack[k]))
      && t.stack == s.stack[..|s.stack| - 1] && t.best == s.best
      && StackWeight(orig, text, t.stack) < StackWeight(orig, text, s.stack)
      && (!f.dummy ==> t.at == f.at && CInv(orig, n, text, pos, t) && !AtLoopJump(t.code, t.at.p)
                       && Load(orig, text, t) == StackWeight(orig, text, s.stack))
      && (HopefulFrame(orig, text, least, f) ==> Can(orig, text, least, f.at))
  {
    hide Frag, Rewritten, AtLoopJump, Decided, Inner, Can, Weight, Reaches;
    var f, t := Top(s), Restore(s);
    assert FrameOutside(n, text, s.stack[|s.stack| - 1]);
    assert SeenFrame(orig, text, pos, s.stack[|s.stack| - 1]);
    WeightPositive(orig, text, f.at);
    if !f.dummy {
      NotAtLoopJump(n, orig, s.code, f.at.p);
    }
  }

  // ----- commands -----

  /** The match at hand is longer than the best one saved, and is about to be given up for it. */
  predicate Stale(s: State, text: seq<Byte>) {
    s.at.p == |s.code| && s.at.d != |text| && s.stack == [] && s.best.Some? && s.best.value < s.at.d
  }

  lemma AtEndGood(orig: seq<Byte>, n: Node, text: seq<Byte>, least: nat, pos: nat, s: State)
    requires Frag(n, orig) && CInv(orig, n, text, pos, s) && s.at.p == |orig|
    requires least <= |text| && (Stale(s, text) ==> least == 0 || least == |text|)
    ensures Good(orig, n, text, least, pos, Live(orig, text, least, s), Load(orig, text, s), AtEnd(s, text))
  {
    hide Frag, Seen, Rewritten, Weight, HopefulFrame, Inner, LoopHead, Fail, LoopTop, StackWeight, Decided, Can;
    CanEnd(orig, text, least, s.at.d);
    InvBasics(orig, text, pos, s);
    assert s.at == Cfg(|orig|, s.at.d);
    if s.at.d != |text| && s.stack != [] {
      var t := if s.best.None? || s.at.d > s.best.value then s.(best := Some(s.at.d)) else s;
      EndSeen(orig, text, pos, s, t);
      WeightPositive(orig, text, s.at);
      FailGood(orig, n, text, least, pos, t, Load(orig, text, s));
      SavedHope(orig, text, least, s, t);
    }
  }

  /** Saving the match at hand, if it is longer than the best so far, keeps every hope. */
  lemma SavedHope(orig: seq<Byte>, text: seq<Byte>, least: nat, s: State, t: State)
    requires s.at.p == |orig|
    requires t == if s.best.None? || s.at.d > s.best.value then s.(best := Some(s.at.d)) else s
    ensures Live(orig, text, least, s) ==> Hope(orig, text, least, t)
  {
    hide HopefulFrame, Can;
    CanEnd(orig, text, least, s.at.d);
    assert s.at == Cfg(|orig|, s.at.d);
    if Hope(orig, text, least, s) && !(s.best.Some? && s.best.value >= least) {
      var k :| 0 <= k < |s.stack| && HopefulFrame(orig, text, least, s.stack[k]);
      assert HopefulFrame(orig, text, least, t.stack[k]);
    }
  }

  lemma EndSeen(orig: seq<Byte>, text: seq<Byte>, pos: nat, s: State, t: State)
    requires Inv(orig, text, pos, s) && s.at.p == |orig|
    requires t == s || t == s.(best := Some(s.at.d))
    ensures Inv(orig, text, pos, t)
  {
    hide Reaches, Rewritten;
    assert s.at == Cfg(|orig|, s.at.d);
  }

  /** The machine sees the compiled instruction, except for decided repeats. */
  lemma InstrAt(orig: seq<Byte>, n: Node, text: seq<Byte>, pos: nat, s: State)
    requires Frag(n, orig) && CInv(orig, n, text, pos, s) && 0 <= s.at.p < |s.code|
    ensures |s.code| == |orig| && Flows(orig, n, 0, |orig|, s.at.p) && Walk(orig, 0, s.at.p)
    ensures SameInstr(Decode(orig, s.at.p), Decode(s.code, s.at.p)) && Decode(orig, s.at.p) != Bad
    ensures s.at.p + Size(Decode(orig, s.at.p)) <= |orig|
  {
    hide Frag, Decode, Reaches, Flows, Rewritten;
    FragLands(n, orig);
    SeenInstr(orig, text, pos, s);
    FlowsAt(n, orig, s.at.p);
  }

  lemma StackFrames(n: Node, orig: seq<Byte>, text: seq<Byte>, least: nat, s: State, t: State)
    requires forall k :: 0 <= k < |s.stack| ==> FrameOutside(n, text, s.stack[k])
    requires t.stack == s.stack && t.best == s.best
    ensures Hope(orig, text, least, t) == Hope(orig, text, least, s) && StackWeight(orig, text, t.stack) == StackWeight(orig, text, s.stack)
  {
  }

  /** A move to a successor that the measure counts. */
  lemma TestWeight(orig: seq<Byte>, text: seq<Byte>, c: Cfg)
    requires 0 <= c.p < |orig| && c.d <= |text| && IsTest(Decode(orig, c.p))
    ensures match Eat(Decode(orig, c.p), text, c.d)
      case None => true
      case Some(d) =>
        var c' := Cfg(c.p + Size(Decode(orig, c.p)), d);
        Lower(orig, text, c', c) ==> Weight(orig, text, c') < Weight(orig, text, c)
  {
    hide Decode, Rank;
  }

  lemma EatAdvances(i: Instr, text: seq<Byte>, d: nat)
    requires IsTest(i) && Eat(i, text, d).Some? && d <= |text|
    ensures d <= Eat(i, text, d).value <= |text|
    ensures OneChar(i) ==> Eat(i, text, d).value == d + 1
    ensures !i.Begin? && !i.End? && (i.Exact? ==> i.chars != []) ==> Eat(i, text, d).value > d
  {
  }

  lemma TestLower(orig: seq<Byte>, n: Node, text: seq<Byte>, c: Cfg)
    requires Frag(n, orig) && 0 <= c.p < |orig| && Walk(orig, 0, c.p) && c.d <= |text|
    requires IsTest(Decode(orig, c.p)) && Eat(Decode(orig, c.p), text, c.d).Some?
    ensures Lower(orig, text, Cfg(c.p + Size(Decode(orig, c.p)), Eat(Decode(orig, c.p), text, c.d).value), c)
  {
    hide Frag, Walk, LoopHead, Inner;
    var i := Decode(orig, c.p);
    EatAdvances(i, text, c.d);
    if i.Begin? || i.End? {
      FlowsAt(n, orig, c.p);
      if Inner(n, 0, c.p) { InnerHasChar(orig, n, c.p); }
      WalkOne(orig, c.p);
      WalkJoin(orig, 0, c.p, c.p + 1);
      RankOutside(n, orig, c.p);
      RankOutside(n, orig, c.p + 1);
    }
  }

  /** The body of a loop consumes one character. */
  lemma InnerHasChar(orig: seq<Byte>, n: Node, p: int)
    requires 0 <= p < |orig| && Flows(orig, n, 0, |orig|, p) && IsTest(Decode(orig, p)) && Inner(n, 0, p)
    ensures 3 <= p && LoopHead(orig, p - 3) && OneChar(Decode(orig, p))
  {
    hide Decode, Inner;
  }

  lemma TestGood(orig: seq<Byte>, n: Node, text: seq<Byte>, least: nat, pos: nat, s: State)
    requires Frag(n, orig) && CInv(orig, n, text, pos, s) && 0 <= s.at.p < |s.code| && IsTest(Decode(s.code, s.at.p))
    ensures Good(orig, n, text, least, pos, Live(orig, text, least, s), Load(orig, text, s), Test(s, text, Decode(s.code, s.at.p)))
  {
    hide Frag, Decode, Seen, Rewritten, Weight, HopefulFrame, Hope, Can, Inner, Flows, Fail, LoopTop, StackWeight, Walk, Lower, Decided;
    InstrAt(orig, n, text, pos, s);
    var i := Decode(orig, s.at.p);
    match Eat(i, text, s.at.d)
    case None =>
      TestDead(orig, text, least, s.at);
      WeightPositive(orig, text, s.at);
      FailGood(orig, n, text, least, pos, s, Load(orig, text, s));
    case Some(d) =>
      var t := Test(s, text, i).state;
      FragLands(n, orig);
      TestOk(orig, text, pos, s);
      TestLower(orig, n, text, s.at);
      TestWeight(orig, text, s.at);
      StackFrames(n, orig, text, least, s, t);
      TestCan(orig, text, least, s.at);
      EatAdvances(i, text, s.at.d);
      TestTop(orig, n, text, s, t);
  }

  lemma TestDead(orig: seq<Byte>, text: seq<Byte>, least: nat, c: Cfg)
    requires 0 <= c.p < |orig| && IsTest(Decode(orig, c.p)) && Eat(Decode(orig, c.p), text, c.d).None?
    ensures !Can(orig, text, least, c)
  {
    hide Decode, Can;
    if Can(orig, text, least, c) { CanFirst(orig, text, least, c); }
  }

  lemma TestCan(orig: seq<Byte>, text: seq<Byte>, least: nat, c: Cfg)
    requires 0 <= c.p < |orig| && IsTest(Decode(orig, c.p)) && Eat(Decode(orig, c.p), text, c.d).Some?
    ensures Can(orig, text, least, c) ==> Can(orig, text, least, Cfg(c.p + Size(Decode(orig, c.p)), Eat(Decode(orig, c.p), text, c.d).value))
  {
    hide Decode, Can;
    if Can(orig, text, least, c) { CanFirst(orig, text, least, c); }
  }

  /** After a test: still outside every loop, or at the closing jump of the loop just read. */
  lemma TestTop(orig: seq<Byte>, n: Node, text: seq<Byte>, s: State, t: State)
    requires 0 <= s.at.p < |orig| && Flows(orig, n, 0, |orig|, s.at.p) && LoopTop(orig, n, text, s)
    requires var i := Decode(orig, s.at.p);
      && IsTest(i) && Eat(i, text, s.at.d).Some? && s.at.d <= |text|
      && t.stack == s.stack && t.at == Cfg(s.at.p + Size(i), Eat(i, text, s.at.d).value)
    ensures LoopTop(orig, n, text, t)
  {
    hide Decode, Inner;
    var i := Decode(orig, s.at.p);
    if Inner(n, 0, s.at.p) {
      InnerHasChar(orig, n, s.at.p);
      EatAdvances(i, text, s.at.d);
    }
  }

  lemma PushedStack(orig: seq<Byte>, n: Node, text: seq<Byte>, s: State, f: Frame, stack: seq<Frame>)
    requires stack == s.stack + [f] && FrameOutside(n, text, f)
    requires forall k :: 0 <= k < |s.stack| ==> FrameOutside(n, text, s.stack[k])
    ensures forall k :: 0 <= k < |stack| ==> FrameOutside(n, text, stack[k])
    ensures StackWeight(orig, text, stack) == StackWeight(orig, text, s.stack) + FrameWeight(orig, text, f)
  {
    hide Weight, FrameWeight, FrameOutside;
    assert stack[..|stack| - 1] == s.stack;
  }

  lemma PushedHope(orig: seq<Byte>, text: seq<Byte>, least: nat, s: State, f: Frame, t: State)
    requires t.stack == s.stack + [f] && t.best == s.best
    ensures Hope(orig, text, least, t) <==> Hope(orig, text, least, s) || HopefulFrame(orig, text, least, f)
  {
    hide HopefulFrame;
    if HopefulFrame(orig, text, least, f) { assert t.stack[|s.stack|] == f; }
    if Hope(orig, text, least, s) && !(s.best.Some? && s.best.value >= least) {
      var k :| 0 <= k < |s.stack| && HopefulFrame(orig, text, least, s.stack[k]);
      assert t.stack[k] == s.stack[k];
    }
  }

  /** on_failure_jump: both successors are counted, and together keep every completion. */
  lemma ForkFacts(orig: seq<Byte>, n: Node, text: seq<Byte>, least: nat, c: Cfg)
    requires Frag(n, orig) && 0 <= c.p < |orig| && Walk(orig, 0, c.p) && c.d <= |text| && Decode(orig, c.p).OnFail?
    ensures var a, b := Cfg(c.p + 3, c.d), Cfg(Decode(orig, c.p).to, c.d);
      && Weight(orig, text, a) + Weight(orig, text, b) < Weight(orig, text, c)
      && (Can(orig, text, least, c) ==> Can(orig, text, least, a) || Can(orig, text, least, b))
      && !Inner(n, 0, b.p)
  {
    hide Frag, Walk, Inner, Can, LoopHead, Decode;
    FlowsAt(n, orig, c.p);
    FragLands(n, orig);
    assert Lands(orig, 0, c.p, |orig|);
    WalkOne(orig, c.p);
    WalkJoin(orig, 0, c.p, c.p + 3);
    RankOutside(n, orig, Decode(orig, c.p).to);
    if Inner(n, 0, c.p + 3) {
      LoopParts(n, orig, c.p);
    } else {
      RankOutside(n, orig, c.p + 3);
    }
    ForkWeight(orig, text, c);
    if Can(orig, text, least, c) { ForkCan(orig, text, least, c); }
  }

  lemma ForkCan(orig: seq<Byte>, text: seq<Byte>, least: nat, c: Cfg)
    requires 0 <= c.p < |orig| && Decode(orig, c.p).OnFail? && Can(orig, text, least, c)
    ensures Can(orig, text, least, Cfg(c.p + 3, c.d)) || Can(orig, text, least, Cfg(Decode(orig, c.p).to, c.d))
  {
    hide Can, Decode;
    CanFirst(orig, text, least, c);
  }

  lemma ForkWeight(orig: seq<Byte>, text: seq<Byte>, c: Cfg)
    requires 0 <= c.p < |orig| && c.d <= |text| && Decode(orig, c.p).OnFail?
    requires var a, b := Cfg(c.p + 3, c.d), Cfg(Decode(orig, c.p).to, c.d);
      Rank(orig, a.p) < Rank(orig, c.p) && Rank(orig, b.p) < Rank(orig, c.p)
    ensures var a, b := Cfg(c.p + 3, c.d), Cfg(Decode(orig, c.p).to, c.d);
      Weight(orig, text, a) + Weight(orig, text, b) < Weight(orig, text, c)
  {
    hide Decode, Rank;
  }

  /** Register flags have no part in what the machine can still find. */
  lemma FlagsDontMatter(orig: seq<Byte>, n: Node, text: seq<Byte>, least: nat, pos: nat, s: State, t: State)
    requires CInv(orig, n, text, pos, s) && t == s.(low := t.low, high := t.high, info := t.info) && |t.info| == |s.info|
    ensures CInv(orig, n, text, pos, t)
    ensures Live(orig, text, least, t) == Live(orig, text, least, s) && Load(orig, text, t) == Load(orig, text, s)
  {
    hide Seen, Rewritten, Weight, StackWeight, HopefulFrame, Can, Decided, Inner, Decode;
  }

  /** The state in which on_failure_jump pushes its failure point. */
  function Forked(s: State): State
    requires 0 <= s.at.p
  {
    var p1 := s.at.p + 3;
    if p1 < |s.code| && Decode(s.code, p1).Memory? && Decode(s.code, p1).start then
      var m := Decode(s.code, p1);
      s.(high := m.reg + m.inner, low := if s.low == NO_LOWEST_ACTIVE_REG then m.reg else s.low)
    else s
  }

  lemma OnFailureGood(orig: seq<Byte>, n: Node, text: seq<Byte>, least: nat, pos: nat, s: State)
    requires Frag(n, orig) && CInv(orig, n, text, pos, s) && 0 <= s.at.p < |s.code| && Decode(s.code, s.at.p).OnFail?
    ensures Good(orig, n, text, least, pos, Live(orig, text, least, s), Load(orig, text, s), OnFailure(s, Decode(s.code, s.at.p).to))
  {
    hide Frag, Decode, CInv, PushThen, Live, Load, Good, Flows;
    InstrAt(orig, n, text, pos, s);
    FragLands(n, orig);
    CInvInv(orig, n, text, pos, s);
    OnFailureOk(orig, text, pos, s);
    var t := Forked(s);
    FlagsDontMatter(orig, n, text, least, pos, s, t);
    ForkGood(orig, n, text, least, pos, t);
  }

  lemma CInvInv(orig: seq<Byte>, n: Node, text: seq<Byte>, pos: nat, s: State)
    requires CInv(orig, n, text, pos, s)
    ensures Inv(orig, text, pos, s) && s.at.d <= |text| && |s.info| > GroupCount(n)
  {
  }

  lemma ForkGood(orig: seq<Byte>, n: Node, text: seq<Byte>, least: nat, pos: nat, s: State)
    requires Frag(n, orig) && CInv(orig, n, text, pos, s) && 0 <= s.at.p < |s.code| && Decode(s.code, s.at.p).OnFail?
    requires Ok(orig, text, pos, PushThen(s, false, Cfg(Decode(s.code, s.at.p).to, s.at.d), Cfg(s.at.p + 3, s.at.d)))
    ensures Good(orig, n, text, least, pos, Live(orig, text, least, s), Load(orig, text, s),
                 PushThen(s, false, Cfg(Decode(s.code, s.at.p).to, s.at.d), Cfg(s.at.p + 3, s.at.d)))
  {
    hide Frag, Decode, Seen, Rewritten, Weight, HopefulFrame, Hope, Can, Inner, Flows, StackWeight, Walk, Decided, LoopHead, Push, LoopTop;
    InstrAt(orig, n, text, pos, s);
    var to, d := Decode(s.code, s.at.p).to, s.at.d;
    ForkFacts(orig, n, text, least, s.at);
    if Push(s, false, Cfg(to, d)).Some? {
      var t := PushThen(s, false, Cfg(to, d), Cfg(s.at.p + 3, d)).state;
      var f := Frame(false, Cfg(to, d), s.low, s.high, s.info);
      PushResult(s, false, Cfg(to, d));
      PushedStack(orig, n, text, s, f, t.stack);
      PushedHope(orig, text, least, s, f, t);
      ForkTop(orig, n, text, s, t, f);
      FrameHope(orig, text, least, f);
    }
  }

  lemma FrameHope(orig: seq<Byte>, text: seq<Byte>, least: nat, f: Frame)
    ensures HopefulFrame(orig, text, least, f) <==> !f.dummy && Can(orig, text, least, f.at)
  {
  }

  lemma PushResult(s: State, dummy: bool, at: Cfg)
    requires Push(s, dummy, at).Some?
    ensures var t := Push(s, dummy, at).value;
      && t.stack == s.stack + [Frame(dummy, at, s.low, s.high, s.info)]
      && t.code == s.code && t.best == s.best && t.at == s.at && t.info == s.info
  {
  }

  /** Entering a loop, its exit is on top of the stack. */
  lemma ForkTop(orig: seq<Byte>, n: Node, text: seq<Byte>, s: State, t: State, f: Frame)
    requires 0 <= s.at.p < |orig| && Flows(orig, n, 0, |orig|, s.at.p) && Decode(orig, s.at.p).OnFail?
    requires f == Frame(false, Cfg(Decode(orig, s.at.p).to, s.at.d), s.low, s.high, s.info)
    requires t.stack == s.stack + [f] && t.at == Cfg(s.at.p + 3, s.at.d)
    ensures LoopTop(orig, n, text, t)
  {
    hide Decode, Inner;
  }

  // ----- jumps -----

  lemma JumpFacts(orig: seq<Byte>, n: Node, text: seq<Byte>, least: nat, c: Cfg)
    requires Frag(n, orig) && 0 <= c.p < |orig| && Walk(orig, 0, c.p) && c.d <= |text| && Decode(orig, c.p).Goto?
    ensures var m := Cfg(Decode(orig, c.p).to, c.d);
      && Weight(orig, text, m) + 1 < Weight(orig, text, c)
      && (Can(orig, text, least, c) ==> Can(orig, text, least, m))
      && (Decode(orig, c.p).op != DUMMY_FAILURE_JUMP ==> !Inner(n, 0, m.p))
  {
    hide Frag, Walk, Inner, Can, LoopHead, Decode;
    FlowsAt(n, orig, c.p);
    FragLands(n, orig);
    assert Lands(orig, 0, c.p, |orig|);
    var x := Decode(orig, c.p);
    if x.op == MAYBE_POP_JUMP {
      LoopIsFork(orig, x.to);
      FlowsAt(n, orig, x.to);
      LoopParts(n, orig, x.to);
    } else if x.op == DUMMY_FAILURE_JUMP {
      WalkOne(orig, c.p);
      WalkJoin(orig, 0, c.p, c.p + 3);
      LoopParts(n, orig, c.p + 3);
    } else {
      RankOutside(n, orig, x.to);
    }
    JumpWeight(orig, text, c);
    if Can(orig, text, least, c) { CanFirst(orig, text, least, c); }
  }

  lemma LoopIsFork(orig: seq<Byte>, p: int)
    requires LoopHead(orig, p)
    ensures 0 <= p && p + 3 < |orig| && Decode(orig, p).OnFail?
  {
  }

  lemma JumpWeight(orig: seq<Byte>, text: seq<Byte>, c: Cfg)
    requires 0 <= c.p < |orig| && c.d <= |text| && Decode(orig, c.p).Goto?
    requires Rank(orig, Decode(orig, c.p).to) < Rank(orig, c.p)
    ensures Weight(orig, text, Cfg(Decode(orig, c.p).to, c.d)) + 1 < Weight(orig, text, c)
  {
    hide Decode, Rank;
  }

  /** A match can be completed from before group commands exactly when it can be from after them. */
  lemma {:induction false} SkipCan(orig: seq<Byte>, text: seq<Byte>, least: nat, p: nat, d: nat)
    requires AllLand(orig, 0, |orig|) && p <= |orig| && Walk(orig, 0, p)
    ensures Walk(orig, 0, SkipMemory(orig, p))
    ensures Can(orig, text, least, Cfg(p, d)) <==> Can(orig, text, least, Cfg(SkipMemory(orig, p), d))
    decreases |orig| - p
  {
    hide Can, AllLand, Walk;
    if p + 2 < |orig| && (orig[p] == START_MEMORY || orig[p] == STOP_MEMORY) {
      MemoryMove(orig, text, least, p, d);
      SkipCan(orig, text, least, p + 3, d);
    }
  }

  lemma MemoryMove(orig: seq<Byte>, text: seq<Byte>, least: nat, p: nat, d: nat)
    requires p + 2 < |orig| && (orig[p] == START_MEMORY || orig[p] == STOP_MEMORY) && Walk(orig, 0, p)
    ensures Decode(orig, p).Memory? && Walk(orig, 0, p + 3)
    ensures Can(orig, text, least, Cfg(p, d)) <==> Can(orig, text, least, Cfg(p + 3, d))
  {
    hide Can;
    assert Decode(orig, p).Memory?;
    hide Decode;
    WalkOne(orig, p);
    WalkJoin(orig, 0, p, p + 3);
    PassCan(orig, text, least, Cfg(p, d), Cfg(p + 3, d));
  }

  /** A command with one way on that reads nothing. */
  lemma PassCan(orig: seq<Byte>, text: seq<Byte>, least: nat, c: Cfg, m: Cfg)
    requires 0 <= c.p < |orig| && (Decode(orig, c.p).Memory? || Decode(orig, c.p).PushDummy?)
    requires m == Cfg(c.p + Size(Decode(orig, c.p)), c.d)
    ensures Can(orig, text, least, c) <==> Can(orig, text, least, m)
  {
    hide Decode, Can;
    if Can(orig, text, least, c) { CanFirst(orig, text, least, c); }
    if Can(orig, text, least, m) { CanMove(orig, text, least, c, m); }
  }

  /** The heart of the optimisation: when the text after a loop cannot start with a character
      of the loop, the failure point given up at the closing jump could not be completed, or
      going round the loop again can be completed as well. */
  lemma PopLosesNothing(orig: seq<Byte>, n: Node, text: seq<Byte>, least: nat, p: nat, to: int, d: nat)
    requires Frag(n, orig) && Walk(orig, 0, p) && p + 3 <= |orig| && 1 <= d <= |text|
    requires Decode(orig, p) == Goto(MAYBE_POP_JUMP, to) && NeverBacktracks(orig, p, to)
    requires LoopHead(orig, to) && Eat(Decode(orig, to + 3), text, d - 1) == Some(d)
    requires Can(orig, text, least, Cfg(p + 3, d - 1))
    ensures Can(orig, text, least, Cfg(to, d))
  {
    hide Frag, Decode, Inner, Can, Walk, CannotStart, Eat, SkipMemory, LoopHead;
    FlowsAt(n, orig, p);
    LoopIsFork(orig, to);
    FragLands(n, orig);
    WalkOne(orig, p);
    WalkJoin(orig, 0, p, p + 3);
    SkipCan(orig, text, least, p + 3, d - 1);
    SkipCan(orig, text, least, p + 3, d);
    var p2 := SkipMemory(orig, p + 3);
    if p2 == |orig| {
      CanEnd(orig, text, least, d - 1);
      CanEnd(orig, text, least, d);
      LoopLeaves(orig, text, least, to, p, d);
    } else {
      CanFirst(orig, text, least, Cfg(p2, d - 1));
      LoopParts(n, orig, to);
      FlowsAt(n, orig, to + 3);
      ShortLoop(orig, n, to);
      LoopIsOne(orig, to);
      DisjointStart(orig, text, to, d - 1, Decode(orig, p2).chars);
      assert false;
    }
  }

  /** A loop can be left from its head. */
  lemma LoopLeaves(orig: seq<Byte>, text: seq<Byte>, least: nat, to: int, p: int, d: nat)
    requires LoopHead(orig, to) && Decode(orig, to).to == p + 3 && Can(orig, text, least, Cfg(p + 3, d))
    ensures Can(orig, text, least, Cfg(to, d))
  {
    hide Can, Decode;
    CanMove(orig, text, least, Cfg(to, d), Cfg(p + 3, d));
  }

  lemma LoopIsOne(orig: seq<Byte>, to: int)
    requires LoopHead(orig, to)
    ensures 0 <= to && to + 3 < |orig| && OneChar(Decode(orig, to + 3))
  {
  }

  lemma ShortLoop(orig: seq<Byte>, n: Node, to: int)
    requires Frag(n, orig) && LoopHead(orig, to) && Flows(orig, n, 0, |orig|, to + 3)
    ensures Decode(orig, to + 3).CharSet? ==> Decode(orig, to + 3).negated || |Decode(orig, to + 3).bits| < 32
  {
    hide Decode, Inner;
  }

  lemma DisjointStart(orig: seq<Byte>, text: seq<Byte>, to: int, d: nat, chars: seq<Byte>)
    requires 0 <= to && to + 3 < |orig| && OneChar(Decode(orig, to + 3)) && chars != []
    requires Decode(orig, to + 3).CharSet? ==> Decode(orig, to + 3).negated || |Decode(orig, to + 3).bits| < 32
    requires CannotStart(orig, to, chars[0]) && Eat(Decode(orig, to + 3), text, d).Some?
    ensures Eat(Exact(chars), text, d).None?
  {
    hide Decode;
  }

  /** Dropping the loop's own failure point. */
  lemma PopGood(orig: seq<Byte>, n: Node, text: seq<Byte>, least: nat, pos: nat, s: State, t: State, load: nat)
    requires Frag(n, orig) && CInv(orig, n, text, pos, s) && 0 <= s.at.p && s.at.p + 3 <= |orig|
    requires Decode(orig, s.at.p).Goto? && Decode(orig, s.at.p).op == MAYBE_POP_JUMP
    requires NeverBacktracks(orig, s.at.p, Decode(orig, s.at.p).to)
    requires Inv(orig, text, pos, t) && Decided(orig, t.code) && load >= Load(orig, text, s)
    requires t.best == s.best && t.at == Cfg(Decode(orig, s.at.p).to, s.at.d) && |t.info| == |s.info|
    requires s.stack != [] ==> t.stack == s.stack[..|s.stack| - 1]
    ensures s.stack != []
    ensures Good(orig, n, text, least, pos, Live(orig, text, least, s), load, Running(t))
  {
    hide Frag, Decode, Seen, Rewritten, Weight, Can, Flows, Decided, NeverBacktracks, Walk, LoopHead;
    var p, d := s.at.p, s.at.d;
    SeenWalk(orig, text, pos, s);
    FlowsAt(n, orig, p);
    PopTop(orig, n, text, s);
    JumpFacts(orig, n, text, least, s.at);
    HopeDrops(orig, text, least, s, t);
    FrameHope(orig, text, least, Top(s));
    assert FrameOutside(n, text, s.stack[|s.stack| - 1]);
    if !Top(s).dummy && Can(orig, text, least, Top(s).at) {
      PopLosesNothing(orig, n, text, least, p, Decode(orig, p).to, d);
    }
  }

  lemma SeenWalk(orig: seq<Byte>, text: seq<Byte>, pos: nat, s: State)
    requires Inv(orig, text, pos, s)
    ensures Walk(orig, 0, s.at.p) && |s.code| == |orig|
  {
  }

  /** What is on top of the stack at the closing jump of a loop. */
  lemma PopTop(orig: seq<Byte>, n: Node, text: seq<Byte>, s: State)
    requires 0 <= s.at.p < |orig| && Flows(orig, n, 0, |orig|, s.at.p) && LoopTop(orig, n, text, s)
    requires Decode(orig, s.at.p).Goto? && Decode(orig, s.at.p).op == MAYBE_POP_JUMP
    ensures s.stack != []
    ensures var to := Decode(orig, s.at.p).to;
      && LoopHead(orig, to)
      && (Top(s).dummy ||
          (1 <= s.at.d && Top(s).at == Cfg(s.at.p + 3, s.at.d - 1) && Eat(Decode(orig, to + 3), text, s.at.d - 1) == Some(s.at.d)))
  {
    hide Decode, Inner;
  }

  lemma AdvanceGood(orig: seq<Byte>, n: Node, text: seq<Byte>, least: nat, pos: nat, s: State, t: State)
    requires Frag(n, orig) && CInv(orig, n, text, pos, s) && 0 <= s.at.p < |orig|
    requires Decode(orig, s.at.p).Goto? && Decode(orig, s.at.p).op != DUMMY_FAILURE_JUMP
    requires Inv(orig, text, pos, t) && Decided(orig, t.code)
    requires t.best == s.best && t.stack == s.stack && t.at == Cfg(Decode(orig, s.at.p).to, s.at.d) && |t.info| == |s.info|
    ensures Good(orig, n, text, least, pos, Live(orig, text, least, s), Load(orig, text, s), Running(t))
  {
    hide Frag, Decode, Seen, Rewritten, Weight, Can, Decided, Walk, StackWeight;
    SeenWalk(orig, text, pos, s);
    JumpFacts(orig, n, text, least, s.at);
    StackFrames(n, orig, text, least, s, t);
  }

  lemma DummyGood(orig: seq<Byte>, n: Node, text: seq<Byte>, least: nat, pos: nat, s: State)
    requires Frag(n, orig) && CInv(orig, n, text, pos, s) && 0 <= s.at.p < |orig|
    requires Decode(orig, s.at.p).Goto? && Decode(orig, s.at.p).op == DUMMY_FAILURE_JUMP
    requires var o := PushThen(s, true, Cfg(0, 0), Cfg(Decode(orig, s.at.p).to, s.at.d)); Ok(orig, text, pos, o)
    ensures var o := PushThen(s, true, Cfg(0, 0), Cfg(Decode(orig, s.at.p).to, s.at.d));
            Good(orig, n, text, least, pos, Live(orig, text, least, s), Load(orig, text, s), o)
  {
    hide Frag, Decode, Seen, Rewritten, Weight, Can, Decided, Walk, StackWeight, Push, HopefulFrame, Hope, Flows;
    SeenWalk(orig, text, pos, s);
    JumpFacts(orig, n, text, least, s.at);
    if Push(s, true, Cfg(0, 0)).Some? {
      var t := PushThen(s, true, Cfg(0, 0), Cfg(Decode(orig, s.at.p).to, s.at.d)).state;
      var f := Frame(true, Cfg(0, 0), s.low, s.high, s.info);
      PushResult(s, true, Cfg(0, 0));
      PushedStack(orig, n, text, s, f, t.stack);
      PushedHope(orig, text, least, s, f, t);
      FlowsAt(n, orig, s.at.p);
      SkipHead(orig, n, s.at.p);
    }
  }

  /** dummy_failure_jump leads to the body of a loop. */
  lemma SkipHead(orig: seq<Byte>, n: Node, p: int)
    requires 0 <= p < |orig| && Flows(orig, n, 0, |orig|, p)
    requires Decode(orig, p).Goto? && Decode(orig, p).op == DUMMY_FAILURE_JUMP
    ensures p + 6 < |orig| && Decode(orig, p).to == p + 6 && OneChar(Decode(orig, p + 6)) && Decode(orig, p + 3).OnFail?
  {
    hide Decode, Inner;
  }

  lemma DecideKeeps(orig: seq<Byte>, code: seq<Byte>, p: nat, op: Byte, to: int)
    requires Decided(orig, code) && p < |code| == |orig| && p + 3 <= |orig|
    requires Decode(orig, p) == Goto(MAYBE_POP_JUMP, to)
    requires op == JUMP || (op == POP_FAILURE_JUMP && NeverBacktracks(orig, p, to))
    ensures Decided(orig, code[p := op])
  {
    hide Decode, NeverBacktracks;
  }

  lemma DecidedPop(orig: seq<Byte>, code: seq<Byte>, p: nat)
    requires Rewritten(orig, code) && Decided(orig, code) && p + 3 <= |orig|
    requires Decode(orig, p).Goto? && Decode(orig, p).op == MAYBE_POP_JUMP
    requires Decode(code, p).Goto? && Decode(code, p).op == POP_FAILURE_JUMP
    ensures NeverBacktracks(orig, p, Decode(orig, p).to)
  {
    hide NeverBacktracks, Walk;
    assert code[p] == POP_FAILURE_JUMP && orig[p] == MAYBE_POP_JUMP;
  }

  lemma GoJumpGood(orig: seq<Byte>, n: Node, text: seq<Byte>, least: nat, pos: nat, s: State)
    requires Frag(n, orig) && CInv(orig, n, text, pos, s) && 0 <= s.at.p && s.at.p + 3 <= |s.code|
    requires Decode(s.code, s.at.p).Goto?
    ensures var i := Decode(s.code, s.at.p);
            Good(orig, n, text, least, pos, Live(orig, text, least, s), Load(orig, text, s), GoJump(s, i.op, i.to))
  {
    hide Frag, Decode, Seen, Rewritten, Can, Decided, Walk, StackWeight, Push, Hope, Flows, NeverBacktracks, Inv, LoopTop,
      Good, Weight, Load;
    InstrAt(orig, n, text, pos, s);
    var i, x := Decode(s.code, s.at.p), Decode(orig, s.at.p);
    var p, d := s.at.p, s.at.d;
    FragLands(n, orig);
    GoJumpOk(orig, text, pos, s);
    JumpKinds(orig, n, p);
    if x.op == DUMMY_FAILURE_JUMP {
      DummyGood(orig, n, text, least, pos, s);
    } else if x.op == JUMP_PAST_ALT {
      AdvanceGood(orig, n, text, least, pos, s, GoJump(s, i.op, i.to).state);
    } else if i.op == MAYBE_POP_JUMP {
      UndecidedGood(orig, n, text, least, pos, s);
    } else if i.op == JUMP {
      AdvanceGood(orig, n, text, least, pos, s, GoJump(s, i.op, i.to).state);
    } else {
      InvRewritten(orig, text, pos, s);
      DecidedPop(orig, s.code, p);
      PopAgainGood(orig, n, text, least, pos, s);
    }
  }

  lemma InvRewritten(orig: seq<Byte>, text: seq<Byte>, pos: nat, s: State)
    requires Inv(orig, text, pos, s)
    ensures Rewritten(orig, s.code)
  {
  }

  lemma JumpKinds(orig: seq<Byte>, n: Node, p: int)
    requires 0 <= p < |orig| && Flows(orig, n, 0, |orig|, p) && Decode(orig, p).Goto?
    ensures Decode(orig, p).op in {MAYBE_POP_JUMP, DUMMY_FAILURE_JUMP, JUMP_PAST_ALT}
  {
    hide Decode;
  }

  lemma PopAgainGood(orig: seq<Byte>, n: Node, text: seq<Byte>, least: nat, pos: nat, s: State)
    requires Frag(n, orig) && CInv(orig, n, text, pos, s) && 0 <= s.at.p && s.at.p + 3 <= |orig|
    requires Decode(orig, s.at.p).Goto? && Decode(orig, s.at.p).op == MAYBE_POP_JUMP
    requires NeverBacktracks(orig, s.at.p, Decode(orig, s.at.p).to)
    requires Ok(orig, text, pos, PopJump(s, Decode(orig, s.at.p).to))
    ensures Good(orig, n, text, least, pos, Live(orig, text, least, s), Load(orig, text, s), PopJump(s, Decode(orig, s.at.p).to))
  {
    hide Frag, Decode, Inv, Can, Decided, Walk, StackWeight, Hope, Flows, NeverBacktracks, LoopTop, Good, Load;
    SeenWalk(orig, text, pos, s);
    FlowsAt(n, orig, s.at.p);
    PopTop(orig, n, text, s);
    PopGood(orig, n, text, least, pos, s, PopJump(s, Decode(orig, s.at.p).to).state, Load(orig, text, s));
  }

  lemma UndecidedGood(orig: seq<Byte>, n: Node, text: seq<Byte>, least: nat, pos: nat, s: State)
    requires Frag(n, orig) && CInv(orig, n, text, pos, s) && 0 <= s.at.p && s.at.p + 3 <= |s.code|
    requires Decode(s.code, s.at.p).Goto? && Decode(s.code, s.at.p).op == MAYBE_POP_JUMP
    ensures Good(orig, n, text, least, pos, Live(orig, text, least, s), Load(orig, text, s), GoJump(s, MAYBE_POP_JUMP, Decode(s.code, s.at.p).to))
  {
    hide Frag, Decode, Seen, Rewritten, Can, Decided, Walk, StackWeight, Push, Hope, Flows, NeverBacktracks, Inv, LoopTop,
      Good, Weight, Load, LoopHead;
    var p, to := s.at.p, Decode(s.code, s.at.p).to;
    InstrAt(orig, n, text, pos, s);
    FragLands(n, orig);
    GoJumpOk(orig, text, pos, s);
    SeenWalk(orig, text, pos, s);
    InvRewritten(orig, text, pos, s);
    W.SameDecision(orig, s.code, p, to);
    PopTop(orig, n, text, s);
    var t := GoJump(s, MAYBE_POP_JUMP, to).state;
    if NeverBacktracks(s.code, p, to) {
      DecideKeeps(orig, s.code, p, POP_FAILURE_JUMP, to);
      PopGood(orig, n, text, least, pos, s, t, Load(orig, text, s));
    } else {
      DecideKeeps(orig, s.code, p, JUMP, to);
      AdvanceGood(orig, n, text, least, pos, s, t);
    }
  }

  // ----- groups -----

  /** A command with one way on that reads nothing: what follows counts less, and keeps every completion. */
  lemma PassFacts(orig: seq<Byte>, n: Node, text: seq<Byte>, least: nat, c: Cfg)
    requires Frag(n, orig) && 0 <= c.p < |orig| && Walk(orig, 0, c.p) && c.d <= |text|
    requires Decode(orig, c.p).Memory? || Decode(orig, c.p).PushDummy?
    ensures var m := Cfg(c.p + Size(Decode(orig, c.p)), c.d);
      && Weight(orig, text, m) + (if Decode(orig, c.p).PushDummy? then 1 else 0) < Weight(orig, text, c)
      && (Can(orig, text, least, c) <==> Can(orig, text, least, m))
      && !Inner(n, 0, m.p) && m.p <= |orig| && Walk(orig, 0, m.p)
  {
    hide Frag, Walk, Inner, Can, LoopHead, Decode;
    FlowsAt(n, orig, c.p);
    WalkOne(orig, c.p);
    var m := Cfg(c.p + Size(Decode(orig, c.p)), c.d);
    WalkJoin(orig, 0, c.p, m.p);
    RankOutside(n, orig, c.p);
    RankOutside(n, orig, m.p);
    PassWeight(orig, text, c);
    PassCan(orig, text, least, c, m);
  }

  lemma PassWeight(orig: seq<Byte>, text: seq<Byte>, c: Cfg)
    requires 0 <= c.p < |orig| && c.d <= |text| && (Decode(orig, c.p).Memory? || Decode(orig, c.p).PushDummy?)
    requires Rank(orig, c.p + Size(Decode(orig, c.p))) < Rank(orig, c.p)
    ensures Weight(orig, text, Cfg(c.p + Size(Decode(orig, c.p)), c.d)) + (if Decode(orig, c.p).PushDummy? then 1 else 0)
            < Weight(orig, text, c)
  {
    hide Decode, Rank;
  }

  /** The register of a group command is one the machine has. */
  lemma GroupOf(orig: seq<Byte>, n: Node, text: seq<Byte>, pos: nat, s: State)
    requires Frag(n, orig) && CInv(orig, n, text, pos, s) && 0 <= s.at.p < |s.code| && Decode(s.code, s.at.p).Memory?
    ensures 0 < Decode(s.code, s.at.p).reg < |s.info|
    ensures |s.code| == |orig| && Walk(orig, 0, s.at.p) && Decode(s.code, s.at.p) == Decode(orig, s.at.p)
    ensures Rewritten(orig, s.code)
  {
    hide Decode, Inv, LoopTop, Decided, LoopHead, Inner, Rewritten;
    InstrAt(orig, n, text, pos, s);
    InvRewritten(orig, text, pos, s);
    GroupsInRange(n, 0, Decode(orig, s.at.p).reg, Decode(orig, s.at.p).inner);
  }

  /** Going on behind a group command, with whatever flags. */
  lemma PassGood(orig: seq<Byte>, n: Node, text: seq<Byte>, least: nat, pos: nat, s: State, t: State)
    requires Frag(n, orig) && CInv(orig, n, text, pos, s) && 0 <= s.at.p < |orig| && Decode(orig, s.at.p).Memory?
    requires t == s.(at := Cfg(s.at.p + 3, s.at.d), low := t.low, high := t.high, info := t.info) && |t.info| == |s.info|
    requires Inv(orig, text, pos, t)
    ensures Good(orig, n, text, least, pos, Live(orig, text, least, s), Load(orig, text, s), Running(t))
  {
    hide Frag, Decode, Seen, Rewritten, Weight, Can, Decided, Walk, StackWeight, Inner, HopefulFrame;
    SeenWalk(orig, text, pos, s);
    PassFacts(orig, n, text, least, s.at);
    StackFrames(n, orig, text, least, s, t);
  }

  lemma StartMemoryGood(orig: seq<Byte>, n: Node, text: seq<Byte>, least: nat, pos: nat, s: State)
    requires Frag(n, orig) && CInv(orig, n, text, pos, s) && 0 <= s.at.p < |s.code| && Decode(s.code, s.at.p).Memory?
    ensures Good(orig, n, text, least, pos, Live(orig, text, least, s), Load(orig, text, s), StartMemory(s, Decode(s.code, s.at.p).reg))
  {
    hide Frag, Decode, Inv, LoopTop, Good, Load, Live, Decided;
    var reg := Decode(s.code, s.at.p).reg;
    GroupOf(orig, n, text, pos, s);
    FragLands(n, orig);
    StartMemoryOk(orig, text, pos, s, reg);
    PassGood(orig, n, text, least, pos, s, StartMemory(s, reg).state);
  }

  /** Behind a group there is no jump back to it. */
  lemma NoForcedExit(orig: seq<Byte>, n: Node, text: seq<Byte>, least: nat, pos: nat, s: State, reg: Byte)
    requires Frag(n, orig) && CInv(orig, n, text, pos, s) && 0 <= s.at.p < |s.code| && Decode(orig, s.at.p).Memory?
    requires |s.code| == |orig| && Walk(orig, 0, s.at.p) && 0 < reg < |s.info| && Rewritten(orig, s.code)
    ensures ForcedExit(s, reg) == None
  {
    hide Frag, Decode, Rewritten, Walk, LoopHead, Inner, Inv, LoopTop, Decided;
    PassFacts(orig, n, text, least, s.at);
    var p := s.at.p + 3;
    if p < |orig| {
      FragLands(n, orig);
      W.SameRead(orig, s.code, p);
      FlowsAt(n, orig, p);
    }
  }

  lemma StopMemoryGood(orig: seq<Byte>, n: Node, text: seq<Byte>, least: nat, pos: nat, s: State)
    requires Frag(n, orig) && CInv(orig, n, text, pos, s) && 0 <= s.at.p < |s.code| && Decode(s.code, s.at.p).Memory?
    ensures Good(orig, n, text, least, pos, Live(orig, text, least, s), Load(orig, text, s), StopMemory(s, Decode(s.code, s.at.p).reg))
  {
    hide Frag, Decode, CInv, Good, Load, Live, ForcedExit, HighestActive, Rewritten;
    var reg := Decode(s.code, s.at.p).reg;
    GroupOf(orig, n, text, pos, s);
    FragLands(n, orig);
    CInvInv(orig, n, text, pos, s);
    StopMemoryOk(orig, text, pos, s, reg);
    var t := CloseGroup(s, reg);
    FlagsDontMatter(orig, n, text, least, pos, s, t);
    NoForcedExit(orig, n, text, least, pos, t, reg);
    PassGood(orig, n, text, least, pos, s, StopMemory(s, reg).state);
  }

  lemma PushDummyGood(orig: seq<Byte>, n: Node, text: seq<Byte>, least: nat, pos: nat, s: State)
    requires Frag(n, orig) && CInv(orig, n, text, pos, s) && 0 <= s.at.p < |s.code| && Decode(s.code, s.at.p).PushDummy?
    ensures Good(orig, n, text, least, pos, Live(orig, text, least, s), Load(orig, text, s),
                 PushThen(s, true, Cfg(0, 0), Cfg(s.at.p + 1, s.at.d)))
  {
    hide Frag, Decode, Seen, Rewritten, Weight, Can, Decided, Walk, StackWeight, Push, HopefulFrame, Hope, Flows, Inner;
    InstrAt(orig, n, text, pos, s);
    FragLands(n, orig);
    PushDummyOk(orig, text, pos, s);
    PassFacts(orig, n, text, least, s.at);
    if Push(s, true, Cfg(0, 0)).Some? {
      var t := PushThen(s, true, Cfg(0, 0), Cfg(s.at.p + 1, s.at.d)).state;
      var f := Frame(true, Cfg(0, 0), s.low, s.high, s.info);
      PushResult(s, true, Cfg(0, 0));
      PushedStack(orig, n, text, s, f, t.stack);
      PushedHope(orig, text, least, s, f, t);
      NoDummyHope(orig, text, least, f);
    }
  }

  // ----- runs -----

  lemma StepGood(orig: seq<Byte>, n: Node, text: seq<Byte>, least: nat, pos: nat, s: State)
    requires Frag(n, orig) && CInv(orig, n, text, pos, s)
    requires least <= |text| && (Stale(s, text) ==> least == 0 || least == |text|)
    ensures Good(orig, n, text, least, pos, Live(orig, text, least, s), Load(orig, text, s), Step(s, text))
  {
    hide Frag, Decode, Inv, LoopTop, Good, Load, Live, Decided, PushThen, OnFailure, GoJump, Test, AtEnd, Flows, StartMemory, StopMemory;
    InvBasics(orig, text, pos, s);
    if s.at.p == |s.code| {
      AtEndGood(orig, n, text, least, pos, s);
    } else {
      InstrAt(orig, n, text, pos, s);
      match Decode(s.code, s.at.p)
      case Memory(start, _, _) => if start { StartMemoryGood(orig, n, text, least, pos, s); } else { StopMemoryGood(orig, n, text, least, pos, s); }
      case PushDummy => PushDummyGood(orig, n, text, least, pos, s);
      case Bad =>
      case OnFail(_) => OnFailureGood(orig, n, text, least, pos, s);
      case Goto(_, _) => GoJumpGood(orig, n, text, least, pos, s);
      case _ => TestGood(orig, n, text, least, pos, s);
    }
  }

  /** The run ends by giving up the match at hand for a shorter one. */
  ghost predicate EndsStale(s: State, text: seq<Byte>, fuel: nat)
    decreases fuel
  {
    fuel > 0 && if Step(s, text).Running? then EndsStale(Step(s, text).state, text, fuel - 1) else Stale(s, text)
  }

  lemma {:induction false} RunGood(orig: seq<Byte>, n: Node, text: seq<Byte>, least: nat, pos: nat, s: State, fuel: nat)
    requires Frag(n, orig) && CInv(orig, n, text, pos, s) && fuel > Load(orig, text, s)
    requires least <= |text| && (EndsStale(s, text, fuel) ==> least == 0 || least == |text|)
    ensures var o := Execute(s, text, fuel);
            || o.Overflow?
            || (o.Matched? && (Live(orig, text, least, s) ==> o.end >= least))
            || (o.NoMatch? && !Live(orig, text, least, s))
    decreases fuel
  {
    hide Frag, CInv, Load, Step, Live, Stale;
    if Stale(s, text) { StaleStops(s, text); }
    StepGood(orig, n, text, least, pos, s);
    match Step(s, text)
    case Running(t) => RunGood(orig, n, text, least, pos, t, fuel - 1);
    case _ =>
  }

  lemma StaleStops(s: State, text: seq<Byte>)
    requires Stale(s, text)
    ensures Step(s, text) == Matched(s.best.value)
  {
  }

  lemma StartGood(n: Node, orig: seq<Byte>, text: seq<Byte>, pos: nat)
    requires Frag(n, orig) && pos <= |text|
    ensures CInv(orig, n, text, pos, Start(orig, GroupCount(n), pos))
  {
    hide Reaches;
    StartOk(orig, text, GroupCount(n), pos);
    if Inner(n, 0, 0) { InnerRange(n, 0, 0); }
  }

  /** Enough commands for the matcher to come to an end. */
  function Bound(code: seq<Byte>, text: seq<Byte>, pos: nat): nat { Weight(code, text, Cfg(0, pos)) + 1 }

  /**
   On the code of a pattern that repeats no group the matcher halts, and unless the failure stack
   passes its limit it reports a match exactly when some text from `pos` on is accepted.
   */
  lemma MatcherComplete(n: Node, text: seq<Byte>, pos: nat, fuel: nat)
    requires Sized(n) && Flat(n) && ShortSets(n) && Numbered(n, 0) && |Code(n)| < 32768 && pos <= |text|
    requires fuel >= Bound(Code(n), text, pos)
    ensures var o := Execute(Start(Code(n), GroupCount(n), pos), text, fuel);
            && (o.Matched? || o.NoMatch? || o.Overflow?)
            && (!o.Overflow? ==> (o.Matched? <==> exists e: nat :: Accepts(n, text, pos, e)))
  {
    hide Weight, CInv, Execute, Can, Sized, Flat, ShortSets, Accepts, Numbered;
    var orig := Code(n);
    var s := Start(orig, GroupCount(n), pos);
    StartGood(n, orig, text, pos);
    RunGood(orig, n, text, 0, pos, s, fuel);
    MatcherSound(n, GroupCount(n), text, pos, fuel);
    if e: nat :| Accepts(n, text, pos, e) {
      CodeAcceptsLanguage(n, text, pos, e);
      CanIs(orig, text, 0, Cfg(0, pos), e);
    }
  }

  lemma CanIs(orig: seq<Byte>, text: seq<Byte>, least: nat, c: Cfg, e: nat)
    requires Reaches(orig, text, c, Cfg(|orig|, e)) && e >= least
    ensures Can(orig, text, least, c)
  {
  }

  // ----- the longest match -----

  /** A match up to the end of the text is always the one reported; a shorter one unless the run ends stale. */
  lemma MatcherReaches(n: Node, text: seq<Byte>, pos: nat, fuel: nat, e: nat)
    requires Sized(n) && Flat(n) && ShortSets(n) && Numbered(n, 0) && |Code(n)| < 32768 && pos <= |text|
    requires fuel >= Bound(Code(n), text, pos) && Accepts(n, text, pos, e)
    requires e == |text| || !EndsStale(Start(Code(n), GroupCount(n), pos), text, fuel)
    ensures var o := Execute(Start(Code(n), GroupCount(n), pos), text, fuel);
            o.Overflow? || (o.Matched? && o.end >= e)
  {
    hide Weight, CInv, Execute, Can, Sized, Flat, ShortSets, Accepts, Numbered, EndsStale;
    var orig := Code(n);
    var s := Start(orig, GroupCount(n), pos);
    StartGood(n, orig, text, pos);
    AcceptsForward(n, text, pos, e);
    CodeAcceptsLanguage(n, text, pos, e);
    CanIs(orig, text, e, Cfg(0, pos), e);
    RunGood(orig, n, text, e, pos, s, fuel);
  }

  /** A run that ends stale has seen a longer match than it reports. */
  lemma {:induction false} StaleRun(orig: seq<Byte>, text: seq<Byte>, pos: nat, s: State, fuel: nat) returns (d: nat)
    requires AllLand(orig, 0, |orig|) && Inv(orig, text, pos, s) && EndsStale(s, text, fuel)
    ensures Seen(orig, text, pos, Cfg(|orig|, d))
    ensures Execute(s, text, fuel).Matched? && Execute(s, text, fuel).end < d
    decreases fuel
  {
    hide AllLand, Seen, Rewritten;
    StepOk(orig, text, pos, s);
    if Step(s, text).Running? {
      d := StaleRun(orig, text, pos, Step(s, text).state, fuel - 1);
    } else {
      StaleStops(s, text);
      InvBasics(orig, text, pos, s);
      d := s.at.d;
      assert s.at == Cfg(|orig|, d);
    }
  }

  /** No text that the node accepts from `pos` on ends after `last`. */
  ghost predicate NoneLonger(n: Node, text: seq<Byte>, pos: nat, last: nat) {
    forall e: nat :: Accepts(n, text, pos, e) ==> e <= last
  }

  /** The match reported is the longest one exactly when the run does not end stale. */
  lemma MatcherLongest(n: Node, text: seq<Byte>, pos: nat, fuel: nat)
    requires Sized(n) && Flat(n) && ShortSets(n) && Numbered(n, 0) && |Code(n)| < 32768 && pos <= |text|
    requires fuel >= Bound(Code(n), text, pos)
    ensures var s := Start(Code(n), GroupCount(n), pos);
            var o := Execute(s, text, fuel);
            o.Matched? ==> (NoneLonger(n, text, pos, o.end) <==> !EndsStale(s, text, fuel))
  {
    hide Weight, CInv, Execute, Sized, Flat, ShortSets, Accepts, Numbered, EndsStale, Bound, Code, Inv;
    var orig := Code(n);
    var s := Start(orig, GroupCount(n), pos);
    if EndsStale(s, text, fuel) {
      CodeLands(n);
      StartOk(orig, text, GroupCount(n), pos);
      var d := StaleRun(orig, text, pos, s, fuel);
      CodeAcceptsLanguage(n, text, pos, d);
    } else {
      forall e: nat | Accepts(n, text, pos, e) ensures Execute(s, text, fuel).Matched? ==> e <= Execute(s, text, fuel).end {
        MatcherReaches(n, text, pos, fuel, e);
      }
    }
  }
}
