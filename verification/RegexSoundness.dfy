/**
 Soundness of the matcher, groups included: everything the machine visits, stacks or
 saves is reachable in the plain reading of the code as compiled, whatever opcodes the
 machine has overwritten since; so a reported match is in the language of the pattern.
 */
module RegexSoundness {
  import opened Bytes
  import opened RegexNode
  import opened RegexNfa
  import opened RegexJumps
  import opened RegexLanguage
  import opened RegexMachine

  /** The running code differs from the compiled code only where a smart repeat has been decided. */
  ghost predicate Rewritten(orig: seq<Byte>, code: seq<Byte>) {
    && |code| == |orig|
    && forall q :: 0 <= q < |orig| && code[q] != orig[q] ==>
         Walk(orig, 0, q) && orig[q] == MAYBE_POP_JUMP && (code[q] == JUMP || code[q] == POP_FAILURE_JUMP)
  }

  /** The same instruction, up to what has become of a smart repeat. */
  predicate SameInstr(a: Instr, b: Instr) {
    a == b || (a.Goto? && b.Goto? && a.op == MAYBE_POP_JUMP && (b.op == JUMP || b.op == POP_FAILURE_JUMP) && a.to == b.to)
  }

  lemma RewrittenDecode(orig: seq<Byte>, code: seq<Byte>, p: nat)
    requires Rewritten(orig, code) && p < |orig| && Walk(orig, 0, p)
    requires Decode(orig, p) != Bad && p + Size(Decode(orig, p)) <= |orig|
    ensures SameInstr(Decode(orig, p), Decode(code, p))
  {
    var n := Size(Decode(orig, p));
    forall q | p < q < p + n ensures code[q] == orig[q] {
      if code[q] != orig[q] { NoOverlap(orig, 0, p, q); }
    }
    if n > 1 {
      assert code[p + 1] == orig[p + 1];
      assert n == 2 || code[p + 2] == orig[p + 2];
      assert code[p + 2..p + n] == orig[p + 2..p + n];
    }
  }

  ghost predicate Seen(orig: seq<Byte>, text: seq<Byte>, pos: nat, c: Cfg) {
    Reaches(orig, text, Cfg(0, pos), c) && 0 <= c.p <= |orig| && Walk(orig, 0, c.p)
  }

  ghost predicate SeenFrame(orig: seq<Byte>, text: seq<Byte>, pos: nat, f: Frame) {
    f.dummy || Seen(orig, text, pos, f.at)
  }

  ghost predicate Inv(orig: seq<Byte>, text: seq<Byte>, pos: nat, s: State) {
    && Rewritten(orig, s.code)
    && Seen(orig, text, pos, s.at)
    && (forall k :: 0 <= k < |s.stack| ==> SeenFrame(orig, text, pos, s.stack[k]))
    && (s.best.Some? ==> Seen(orig, text, pos, Cfg(|orig|, s.best.value)))
  }

  ghost predicate Ok(orig: seq<Byte>, text: seq<Byte>, pos: nat, o: Outcome) {
    match o
    case Running(s) => Inv(orig, text, pos, s)
    case Matched(e) => Seen(orig, text, pos, Cfg(|orig|, e))
    case _ => true
  }

  lemma SeenMove(orig: seq<Byte>, text: seq<Byte>, pos: nat, c: Cfg, c': Cfg)
    requires AllLand(orig, 0, |orig|) && Seen(orig, text, pos, c) && Moves(orig, text, c, c')
    ensures Seen(orig, text, pos, c')
  {
    hide Decode, Reaches;
    ReachesLast(orig, text, Cfg(0, pos), c, c');
    assert Lands(orig, 0, c.p, |orig|);
    WalkOne(orig, c.p);
    WalkJoin(orig, 0, c.p, c.p + Size(Decode(orig, c.p)));
  }

  /** What the machine reads at a position it has reached. */
  lemma SeenInstr(orig: seq<Byte>, text: seq<Byte>, pos: nat, s: State)
    requires AllLand(orig, 0, |orig|) && Rewritten(orig, s.code) && Seen(orig, text, pos, s.at) && 0 <= s.at.p < |s.code|
    ensures |s.code| == |orig|
    ensures SameInstr(Decode(orig, s.at.p), Decode(s.code, s.at.p)) && Decode(orig, s.at.p) != Bad
    ensures s.at.p + Size(Decode(orig, s.at.p)) <= |orig|
  {
    hide Decode, Reaches;
    assert Lands(orig, 0, s.at.p, |orig|);
    RewrittenDecode(orig, s.code, s.at.p);
  }

  // ----- failing -----

  lemma {:induction false} FailOk(orig: seq<Byte>, text: seq<Byte>, pos: nat, s: State)
    requires Inv(orig, text, pos, s)
    ensures Ok(orig, text, pos, Fail(s))
    decreases |s.stack|
  {
    hide Seen, Rewritten, AtLoopJump;
    if s.stack != [] {
      var f, t := Top(s), Restore(s);
      assert SeenFrame(orig, text, pos, s.stack[|s.stack| - 1]);
      assert Inv(orig, text, pos, t);
      if f.dummy || AtLoopJump(t.code, t.at.p) {
        FailOk(orig, text, pos, t);
      }
    }
  }

  lemma PushOk(orig: seq<Byte>, text: seq<Byte>, pos: nat, s: State, dummy: bool, saved: Cfg)
    requires Inv(orig, text, pos, s) && (dummy || Seen(orig, text, pos, saved))
    ensures Push(s, dummy, saved).Some? ==> Inv(orig, text, pos, Push(s, dummy, saved).value)
  {
    hide Seen, Rewritten, Grown, ItemsAsked;
  }

  // ----- commands -----

  lemma AtEndOk(orig: seq<Byte>, text: seq<Byte>, pos: nat, s: State)
    requires Inv(orig, text, pos, s) && s.at.p == |orig|
    ensures Ok(orig, text, pos, AtEnd(s, text))
  {
    hide Seen, Rewritten, Fail;
    assert s.at == Cfg(|orig|, s.at.d);
    var t := if s.best.None? || s.at.d > s.best.value then s.(best := Some(s.at.d)) else s;
    assert Inv(orig, text, pos, t);
    if s.stack != [] { FailOk(orig, text, pos, t); }
  }

  lemma TestOk(orig: seq<Byte>, text: seq<Byte>, pos: nat, s: State)
    requires AllLand(orig, 0, |orig|) && Inv(orig, text, pos, s) && 0 <= s.at.p < |s.code|
    requires IsTest(Decode(s.code, s.at.p))
    ensures Ok(orig, text, pos, Test(s, text, Decode(s.code, s.at.p)))
  {
    hide Decode, Seen, Rewritten, Fail;
    var i := Decode(s.code, s.at.p);
    SeenInstr(orig, text, pos, s);
    match Eat(i, text, s.at.d)
    case None => FailOk(orig, text, pos, s);
    case Some(d) => SeenMove(orig, text, pos, s.at, Cfg(s.at.p + Size(i), d));
  }

  lemma StartMemoryOk(orig: seq<Byte>, text: seq<Byte>, pos: nat, s: State, reg: Byte)
    requires AllLand(orig, 0, |orig|) && Inv(orig, text, pos, s) && 0 <= s.at.p < |s.code|
    requires Decode(s.code, s.at.p).Memory?
    ensures Ok(orig, text, pos, StartMemory(s, reg))
  {
    hide Decode, Seen, Rewritten, AllLand;
    SeenInstr(orig, text, pos, s);
    SeenMove(orig, text, pos, s.at, Cfg(s.at.p + 3, s.at.d));
  }

  /** The early exit of a loop goes where the code could go by itself: over the jump back
      and through the conditional jump at the head of the loop. */
  lemma ForcedExitSeen(orig: seq<Byte>, text: seq<Byte>, pos: nat, s: State, reg: Byte)
    requires AllLand(orig, 0, |orig|) && Inv(orig, text, pos, s) && 0 <= s.at.p < |s.code|
    requires Decode(s.code, s.at.p).Memory? && 0 < reg < |s.info| && ForcedExit(s, reg).Some?
    ensures Seen(orig, text, pos, ForcedExit(s, reg).value)
  {
    hide Decode, Seen, Rewritten, AllLand;
    var p, d := s.at.p, s.at.d;
    SeenInstr(orig, text, pos, s);
    var c1 := Cfg(p + 3, d);
    SeenMove(orig, text, pos, s.at, c1);
    SeenInstr(orig, text, pos, s.(at := c1));
    RewrittenLength(orig, s.code);
    var to := Decode(s.code, p + 3).to;
    var c2 := Cfg(to, d);
    SeenMove(orig, text, pos, c1, c2);
    SeenInstr(orig, text, pos, s.(at := c2));
    SeenMove(orig, text, pos, c2, ForcedExit(s, reg).value);
  }

  lemma RewrittenLength(orig: seq<Byte>, code: seq<Byte>)
    requires Rewritten(orig, code)
    ensures |code| == |orig|
  {
  }

  lemma StopMemoryOk(orig: seq<Byte>, text: seq<Byte>, pos: nat, s: State, reg: Byte)
    requires AllLand(orig, 0, |orig|) && Inv(orig, text, pos, s) && 0 <= s.at.p < |s.code|
    requires Decode(s.code, s.at.p).Memory?
    ensures Ok(orig, text, pos, StopMemory(s, reg))
  {
    hide Decode, Seen, Rewritten, AllLand, ForcedExit, Push, Fail, HighestActive;
    if 0 < reg < |s.info| {
      var t := CloseGroup(s, reg);
      assert Inv(orig, text, pos, t);
      match ForcedExit(t, reg)
      case None =>
        SeenInstr(orig, text, pos, s);
        SeenMove(orig, text, pos, s.at, Cfg(s.at.p + 3, s.at.d));
      case Some(exit) =>
        ForcedExitSeen(orig, text, pos, t, reg);
        PushOk(orig, text, pos, t, false, exit);
        if Push(t, false, exit).Some? { FailOk(orig, text, pos, Push(t, false, exit).value); }
    }
  }

  lemma PushThenOk(orig: seq<Byte>, text: seq<Byte>, pos: nat, s: State, dummy: bool, saved: Cfg, next: Cfg)
    requires Inv(orig, text, pos, s) && (dummy || Seen(orig, text, pos, saved)) && Seen(orig, text, pos, next)
    ensures Ok(orig, text, pos, PushThen(s, dummy, saved, next))
  {
    hide Seen, Rewritten, Push;
    PushOk(orig, text, pos, s, dummy, saved);
  }

  lemma OnFailureOk(orig: seq<Byte>, text: seq<Byte>, pos: nat, s: State)
    requires AllLand(orig, 0, |orig|) && Inv(orig, text, pos, s) && 0 <= s.at.p < |s.code|
    requires Decode(s.code, s.at.p).OnFail?
    ensures Ok(orig, text, pos, OnFailure(s, Decode(s.code, s.at.p).to))
  {
    hide Decode, Seen, Rewritten, AllLand, PushThen;
    var to := Decode(s.code, s.at.p).to;
    var p1 := s.at.p + 3;
    var t := if p1 < |s.code| && Decode(s.code, p1).Memory? && Decode(s.code, p1).start then
               var m := Decode(s.code, p1);
               s.(high := m.reg + m.inner, low := if s.low == NO_LOWEST_ACTIVE_REG then m.reg else s.low)
             else s;
    SeenInstr(orig, text, pos, s);
    SeenMove(orig, text, pos, s.at, Cfg(to, s.at.d));
    SeenMove(orig, text, pos, s.at, Cfg(p1, s.at.d));
    assert Inv(orig, text, pos, t);
    PushThenOk(orig, text, pos, t, false, Cfg(to, s.at.d), Cfg(p1, s.at.d));
  }

  /** Deciding a smart repeat keeps the code a rewriting of the compiled code. */
  lemma DecideOk(orig: seq<Byte>, text: seq<Byte>, pos: nat, s: State, op: Byte)
    requires AllLand(orig, 0, |orig|) && Inv(orig, text, pos, s) && 0 <= s.at.p < |s.code|
    requires Decode(s.code, s.at.p).Goto? && Decode(s.code, s.at.p).op == MAYBE_POP_JUMP
    requires op == JUMP || op == POP_FAILURE_JUMP
    ensures Inv(orig, text, pos, s.(code := s.code[s.at.p := op]))
  {
    assert s.code[s.at.p] == MAYBE_POP_JUMP;
    hide Decode, Reaches, AllLand, SeenFrame;
    assert Walk(orig, 0, s.at.p);
    var code := s.code[s.at.p := op];
    assert Rewritten(orig, code);
  }

  lemma GoJumpOk(orig: seq<Byte>, text: seq<Byte>, pos: nat, s: State)
    requires AllLand(orig, 0, |orig|) && Inv(orig, text, pos, s) && 0 <= s.at.p < |s.code|
    requires Decode(s.code, s.at.p).Goto? && s.at.p + 3 <= |s.code|
    ensures Ok(orig, text, pos, GoJump(s, Decode(s.code, s.at.p).op, Decode(s.code, s.at.p).to))
  {
    hide Decode, Seen, Rewritten, AllLand, PushThen, NeverBacktracks;
    var i := Decode(s.code, s.at.p);
    var next := Cfg(i.to, s.at.d);
    SeenInstr(orig, text, pos, s);
    SeenMove(orig, text, pos, s.at, next);
    if i.op == MAYBE_POP_JUMP {
      DecideOk(orig, text, pos, s, POP_FAILURE_JUMP);
      DecideOk(orig, text, pos, s, JUMP);
    } else if i.op == DUMMY_FAILURE_JUMP {
      PushThenOk(orig, text, pos, s, true, Cfg(0, 0), next);
    }
  }

  lemma PushDummyOk(orig: seq<Byte>, text: seq<Byte>, pos: nat, s: State)
    requires AllLand(orig, 0, |orig|) && Inv(orig, text, pos, s) && 0 <= s.at.p < |s.code|
    requires Decode(s.code, s.at.p).PushDummy?
    ensures Ok(orig, text, pos, PushThen(s, true, Cfg(0, 0), Cfg(s.at.p + 1, s.at.d)))
  {
    hide Decode, Seen, Rewritten, AllLand, PushThen;
    SeenInstr(orig, text, pos, s);
    SeenMove(orig, text, pos, s.at, Cfg(s.at.p + 1, s.at.d));
    PushThenOk(orig, text, pos, s, true, Cfg(0, 0), Cfg(s.at.p + 1, s.at.d));
  }

  lemma InvBasics(orig: seq<Byte>, text: seq<Byte>, pos: nat, s: State)
    requires Inv(orig, text, pos, s)
    ensures |s.code| == |orig| && 0 <= s.at.p <= |orig|
  {
  }

  lemma StepOk(orig: seq<Byte>, text: seq<Byte>, pos: nat, s: State)
    requires AllLand(orig, 0, |orig|) && Inv(orig, text, pos, s)
    ensures Ok(orig, text, pos, Step(s, text))
  {
    hide Decode, Inv, AllLand, PushThen, StartMemory, StopMemory, OnFailure, GoJump, Test, AtEnd;
    InvBasics(orig, text, pos, s);
    if s.at.p == |s.code| {
      AtEndOk(orig, text, pos, s);
    } else {
      match Decode(s.code, s.at.p)
      case Memory(start, reg, _) =>
        StartMemoryOk(orig, text, pos, s, reg);
        StopMemoryOk(orig, text, pos, s, reg);
      case OnFail(_) => OnFailureOk(orig, text, pos, s);
      case Goto(_, _) => if s.at.p + 3 <= |s.code| { GoJumpOk(orig, text, pos, s); }
      case PushDummy => PushDummyOk(orig, text, pos, s);
      case Bad =>
      case _ => TestOk(orig, text, pos, s);
    }
  }

  /** Every run: whatever the machine is doing after any number of commands is sound. */
  lemma {:induction false} RunOk(orig: seq<Byte>, text: seq<Byte>, pos: nat, s: State, fuel: nat)
    requires AllLand(orig, 0, |orig|) && Inv(orig, text, pos, s)
    ensures Ok(orig, text, pos, Execute(s, text, fuel))
    decreases fuel
  {
    hide AllLand, Inv, Step;
    if fuel > 0 {
      StepOk(orig, text, pos, s);
      if Step(s, text).Running? {
        RunOk(orig, text, pos, Step(s, text).state, fuel - 1);
      }
    }
  }

  lemma StartOk(orig: seq<Byte>, text: seq<Byte>, groups: nat, pos: nat)
    ensures Inv(orig, text, pos, Start(orig, groups, pos))
  {
    ReachesSelf(orig, text, Cfg(0, pos));
  }

  /** A match reported for the code of a node is text that the node accepts. */
  lemma MatcherSound(n: Node, groups: nat, text: seq<Byte>, pos: nat, fuel: nat)
    requires Sized(n) && |Code(n)| < 32768 && pos <= |text|
    ensures var o := Execute(Start(Code(n), groups, pos), text, fuel);
            o.Matched? ==> Accepts(n, text, pos, o.end)
  {
    hide *;
    var orig := Code(n);
    CodeLands(n);
    StartOk(orig, text, groups, pos);
    RunOk(orig, text, pos, Start(orig, groups, pos), fuel);
    var o := Execute(Start(orig, groups, pos), text, fuel);
    if o.Matched? {
      MatchedSeen(orig, text, pos, o);
      CodeAcceptsLanguage(n, text, pos, o.end);
    }
  }

  lemma MatchedSeen(orig: seq<Byte>, text: seq<Byte>, pos: nat, o: Outcome)
    requires o.Matched? && Ok(orig, text, pos, o)
    ensures Reaches(orig, text, Cfg(0, pos), Cfg(|orig|, o.end))
  {
  }
}
