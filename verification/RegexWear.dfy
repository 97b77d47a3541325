/**
 Code that has been run before.  Matching overwrites the repeats it decides, and the next start and the
 next search run what it leaves.  Every such code behaves as the compiled code does, groups included:
 what was decided before is what would be decided again.
 */
module RegexWear {
  import opened Bytes
  import opened RegexNode
  import opened RegexNfa
  import opened RegexJumps
  import opened RegexMachine
  import opened RegexSoundness

  /** The repeat at `q` was turned into `op`, and rightly so. */
  predicate Settled(orig: seq<Byte>, q: nat, op: Byte) {
    && q + 3 <= |orig| && Decode(orig, q).Goto?
    && op == if NeverBacktracks(orig, q, Decode(orig, q).to) then POP_FAILURE_JUMP else JUMP
  }

  /** What is left of the compiled code `orig` once some repeats have been decided. */
  ghost predicate Worn(orig: seq<Byte>, code: seq<Byte>) {
    && Rewritten(orig, code)
    && forall q | 0 <= q < |orig| && code[q] != orig[q] :: Settled(orig, q, code[q])
  }

  lemma FreshIsWorn(orig: seq<Byte>)
    ensures Worn(orig, orig)
  {
  }

  lemma WornRewritten(orig: seq<Byte>, code: seq<Byte>)
    requires Worn(orig, code)
    ensures Rewritten(orig, code) && |code| == |orig|
  {
  }

  // ----- what is read -----

  lemma SameRead(orig: seq<Byte>, code: seq<Byte>, p: int)
    requires AllLand(orig, 0, |orig|) && Rewritten(orig, code) && 0 <= p < |orig| && Walk(orig, 0, p)
    ensures |code| == |orig| && SameInstr(Decode(orig, p), Decode(code, p))
    ensures Decode(orig, p) != Bad && p + Size(Decode(orig, p)) <= |orig| && Walk(orig, 0, p + Size(Decode(orig, p)))
  {
    hide Decode, Rewritten;
    assert Lands(orig, 0, p, |orig|);
    RewrittenDecode(orig, code, p);
    RewrittenLength(orig, code);
    WalkOne(orig, p);
    WalkJoin(orig, 0, p, p + Size(Decode(orig, p)));
  }

  /** Only the opcodes of jumps are overwritten. */
  lemma SameByte(orig: seq<Byte>, code: seq<Byte>, p: nat, op: Byte)
    requires Rewritten(orig, code) && p < |orig|
    requires op == ON_FAILURE_JUMP || op == START_MEMORY || op == STOP_MEMORY
    ensures |code| == |orig| && (code[p] == op <==> orig[p] == op)
  {
  }

  lemma SameLoopJump(orig: seq<Byte>, code: seq<Byte>, p: int)
    requires AllLand(orig, 0, |orig|) && Rewritten(orig, code) && 0 <= p <= |orig| && Walk(orig, 0, p)
    ensures AtLoopJump(code, p) == AtLoopJump(orig, p)
  {
    hide Decode, Rewritten, Walk, AllLand;
    RewrittenLength(orig, code);
    if p < |orig| {
      SameRead(orig, code, p);
      var i := Decode(orig, p);
      if i.Goto? && 0 <= i.to < |orig| { SameByte(orig, code, i.to, ON_FAILURE_JUMP); }
    }
  }

  lemma {:induction false} SameSkip(orig: seq<Byte>, code: seq<Byte>, p: nat)
    requires AllLand(orig, 0, |orig|) && Rewritten(orig, code) && p <= |orig| && Walk(orig, 0, p)
    ensures |code| == |orig| && SkipMemory(code, p) == SkipMemory(orig, p) && Walk(orig, 0, SkipMemory(orig, p))
    decreases |orig| - p
  {
    hide Rewritten, AllLand;
    RewrittenLength(orig, code);
    if p < |orig| {
      SameByte(orig, code, p, START_MEMORY);
      SameByte(orig, code, p, STOP_MEMORY);
      if p + 2 < |orig| && (orig[p] == START_MEMORY || orig[p] == STOP_MEMORY) {
        SameRead(orig, code, p);
        SameSkip(orig, code, p + 3);
      }
    }
  }

  lemma SameStart(orig: seq<Byte>, code: seq<Byte>, to: int, c: Byte)
    requires AllLand(orig, 0, |orig|) && Rewritten(orig, code) && IsFork(orig, to) && Walk(orig, 0, to)
    ensures CannotStart(code, to, c) == CannotStart(orig, to, c)
  {
    hide Decode, Rewritten, Walk, AllLand, Bit;
    SameRead(orig, code, to);
    if to + 3 < |orig| { SameRead(orig, code, to + 3); }
  }

  /** A repeat is decided alike in the compiled code and in what is left of it. */
  lemma SameDecision(orig: seq<Byte>, code: seq<Byte>, p: nat, to: int)
    requires AllLand(orig, 0, |orig|) && Rewritten(orig, code) && Walk(orig, 0, p) && p + 3 <= |orig|
    requires Decode(orig, p) == Goto(MAYBE_POP_JUMP, to)
    ensures |code| == |orig| && NeverBacktracks(code, p, to) == NeverBacktracks(orig, p, to)
  {
    hide Decode, Rewritten, Walk, SkipMemory, CannotStart;
    assert Lands(orig, 0, p, |orig|);
    SameRead(orig, code, p);
    SameSkip(orig, code, p + 3);
    var p2 := SkipMemory(orig, p + 3);
    if p2 < |orig| {
      SameRead(orig, code, p2);
      if Decode(orig, p2).Exact? && Decode(orig, p2).chars != [] {
        SameStart(orig, code, to, Decode(orig, p2).chars[0]);
      }
    }
  }

  lemma SettledStays(orig: seq<Byte>, code: seq<Byte>, p: nat, to: int)
    requires AllLand(orig, 0, |orig|) && Worn(orig, code) && Walk(orig, 0, p) && p + 3 <= |orig|
    requires Decode(orig, p) == Goto(MAYBE_POP_JUMP, to) && Decode(code, p) == Goto(MAYBE_POP_JUMP, to)
    ensures |code| == |orig|
    ensures Worn(orig, code[p := if NeverBacktracks(code, p, to) then POP_FAILURE_JUMP else JUMP])
  {
    hide Decode, NeverBacktracks, Walk, AllLand;
    SameDecision(orig, code, p, to);
    OpcodeOf(orig, p);
    OpcodeOf(code, p);
  }

  lemma OpcodeOf(code: seq<Byte>, p: nat)
    requires p < |code| && Decode(code, p).Goto?
    ensures code[p] == Decode(code, p).op
  {
  }

  /** A repeat met again as a plain jump or as pop_failure_jump is what it would be decided to be. */
  lemma SettledBefore(orig: seq<Byte>, code: seq<Byte>, p: nat, to: int)
    requires Worn(orig, code) && p + 3 <= |orig| && Decode(orig, p) == Goto(MAYBE_POP_JUMP, to)
    requires |code| == |orig| && Decode(code, p).Goto? && Decode(code, p).op != MAYBE_POP_JUMP
    ensures Decode(code, p).op == if NeverBacktracks(orig, p, to) then POP_FAILURE_JUMP else JUMP
  {
    hide NeverBacktracks, Walk;
    assert code[p] != orig[p];
  }

  // ----- two runs side by side -----

  /** The same outcome; the states of two runs that go on differ at most in what is left of the code. */
  ghost predicate Alike(orig: seq<Byte>, a: Outcome, b: Outcome) {
    if a.Running? then
      && b == Running(a.state.(code := if b.Running? then b.state.code else []))
      && Worn(orig, a.state.code) && Worn(orig, b.state.code)
    else a == b
  }

  /** Two states, alike except for what is left of the code. */
  ghost predicate Twins(orig: seq<Byte>, text: seq<Byte>, pos: nat, s: State, t: State) {
    AllLand(orig, 0, |orig|) && Inv(orig, text, pos, s) && t == s.(code := t.code)
    && Worn(orig, s.code) && Worn(orig, t.code)
  }

  lemma SeenPlace(orig: seq<Byte>, text: seq<Byte>, pos: nat, s: State, k: nat)
    requires Inv(orig, text, pos, s) && k < |s.stack| && !s.stack[k].dummy
    ensures 0 <= s.stack[k].at.p <= |orig| && Walk(orig, 0, s.stack[k].at.p)
  {
    assert SeenFrame(orig, text, pos, s.stack[k]);
  }

  lemma RestoreKeeps(orig: seq<Byte>, text: seq<Byte>, pos: nat, s: State)
    requires Inv(orig, text, pos, s) && s.stack != []
    ensures Inv(orig, text, pos, Restore(s)) && Restore(s).code == s.code
  {
    hide Seen, Rewritten;
    assert SeenFrame(orig, text, pos, s.stack[|s.stack| - 1]);
  }

  lemma {:induction false} FailAlike(orig: seq<Byte>, text: seq<Byte>, pos: nat, s: State, t: State)
    requires Twins(orig, text, pos, s, t)
    ensures Alike(orig, Fail(s), Fail(t))
    decreases |s.stack|
  {
    hide Inv, Worn, AllLand, AtLoopJump, Walk;
    if s.stack != [] {
      var f, u, v := Top(s), Restore(s), Restore(t);
      RestoreKeeps(orig, text, pos, s);
      assert v == u.(code := t.code);
      if f.dummy {
        FailAlike(orig, text, pos, u, v);
      } else {
        SeenPlace(orig, text, pos, s, |s.stack| - 1);
        WornRewritten(orig, s.code);
        WornRewritten(orig, t.code);
        SameLoopJump(orig, s.code, f.at.p);
        SameLoopJump(orig, t.code, f.at.p);
        if AtLoopJump(u.code, u.at.p) { FailAlike(orig, text, pos, u, v); }
      }
    }
  }

  lemma AtEndAlike(orig: seq<Byte>, text: seq<Byte>, pos: nat, s: State, t: State)
    requires Twins(orig, text, pos, s, t) && s.at.p == |orig|
    ensures Alike(orig, AtEnd(s, text), AtEnd(t, text))
  {
    hide AllLand, Seen, Worn, Fail;
    assert s.at == Cfg(|orig|, s.at.d);
    var u := if s.best.None? || s.at.d > s.best.value then s.(best := Some(s.at.d)) else s;
    if s.stack != [] { FailAlike(orig, text, pos, u, u.(code := t.code)); }
  }

  lemma PushAlike(orig: seq<Byte>, text: seq<Byte>, pos: nat, s: State, t: State, dummy: bool, saved: Cfg, next: Cfg)
    requires Twins(orig, text, pos, s, t)
    ensures Alike(orig, PushThen(s, dummy, saved, next), PushThen(t, dummy, saved, next))
  {
    hide AllLand, Inv, Worn, Grown, ItemsAsked;
  }

  /** Both machines read the instruction at hand, as it was compiled but for a repeat. */
  lemma ReadAlike(orig: seq<Byte>, text: seq<Byte>, pos: nat, s: State, t: State)
    requires Twins(orig, text, pos, s, t) && 0 <= s.at.p < |orig|
    ensures |s.code| == |orig| == |t.code| && Walk(orig, 0, s.at.p)
    ensures var i := Decode(orig, s.at.p);
            && SameInstr(i, Decode(s.code, s.at.p)) && SameInstr(i, Decode(t.code, s.at.p))
            && i != Bad && s.at.p + Size(i) <= |orig| && Walk(orig, 0, s.at.p + Size(i))
  {
    hide Decode, AllLand, Worn, Rewritten;
    WornRewritten(orig, s.code);
    WornRewritten(orig, t.code);
    SameRead(orig, s.code, s.at.p);
    SameRead(orig, t.code, s.at.p);
  }

  lemma TestAlike(orig: seq<Byte>, text: seq<Byte>, pos: nat, s: State, t: State, i: Instr)
    requires Twins(orig, text, pos, s, t) && IsTest(i)
    ensures Alike(orig, Test(s, text, i), Test(t, text, i))
  {
    hide AllLand, Inv, Worn, Eat, Fail, Size;
    if Eat(i, text, s.at.d).None? { FailAlike(orig, text, pos, s, t); }
  }

  lemma StartAlike(orig: seq<Byte>, text: seq<Byte>, pos: nat, s: State, t: State, reg: Byte)
    requires Twins(orig, text, pos, s, t)
    ensures Alike(orig, StartMemory(s, reg), StartMemory(t, reg))
  {
    hide AllLand, Inv, Worn;
  }

  lemma ForkAlike(orig: seq<Byte>, text: seq<Byte>, pos: nat, s: State, t: State, to: int)
    requires Twins(orig, text, pos, s, t) && 0 <= s.at.p && s.at.p + 3 <= |orig| && Walk(orig, 0, s.at.p + 3)
    ensures Alike(orig, OnFailure(s, to), OnFailure(t, to))
  {
    hide AllLand, Inv, Worn, Decode, PushThen, Walk;
    WornRewritten(orig, s.code);
    WornRewritten(orig, t.code);
    var p1 := s.at.p + 3;
    if p1 < |orig| {
      SameRead(orig, s.code, p1);
      SameRead(orig, t.code, p1);
    }
    var m := if p1 < |orig| then Decode(s.code, p1) else Bad;
    var u := if m.Memory? && m.start
             then s.(high := m.reg + m.inner, low := if s.low == NO_LOWEST_ACTIVE_REG then m.reg else s.low) else s;
    FlagsKeep(orig, text, pos, s, u);
    PushAlike(orig, text, pos, u, u.(code := t.code), false, Cfg(to, s.at.d), Cfg(p1, s.at.d));
  }

  /** What the machine keeps about groups has no part in the invariant. */
  lemma FlagsKeep(orig: seq<Byte>, text: seq<Byte>, pos: nat, s: State, u: State)
    requires Inv(orig, text, pos, s) && u == s.(low := u.low, high := u.high, info := u.info)
    ensures Inv(orig, text, pos, u)
  {
    hide Seen, Rewritten;
  }

  /** The test for an early exit reads nothing that is ever overwritten. */
  lemma ExitAlike(orig: seq<Byte>, text: seq<Byte>, pos: nat, s: State, t: State, reg: Byte)
    requires Twins(orig, text, pos, s, t) && 0 <= s.at.p && s.at.p + 3 <= |orig| && Walk(orig, 0, s.at.p + 3)
    requires 0 < reg < |s.info|
    ensures ForcedExit(s, reg) == ForcedExit(t, reg)
  {
    hide Inv, Worn, Rewritten, Decode;
    WornRewritten(orig, s.code);
    WornRewritten(orig, t.code);
    var p := s.at.p;
    if p + 3 < |orig| && p >= 2 {
      SameByte(orig, s.code, p - 2, START_MEMORY);
      SameByte(orig, t.code, p - 2, START_MEMORY);
      SameRead(orig, s.code, p + 3);
      SameRead(orig, t.code, p + 3);
      assert Lands(orig, 0, p + 3, |orig|);
      var i := Decode(orig, p + 3);
      if i.Goto? && 0 <= i.to && i.to + 4 < |orig| {
        TargetAlike(orig, s.code, i.to, reg);
        TargetAlike(orig, t.code, i.to, reg);
      }
    }
  }

  lemma TargetAlike(orig: seq<Byte>, code: seq<Byte>, to: int, reg: Byte)
    requires AllLand(orig, 0, |orig|) && Rewritten(orig, code) && 0 <= to && to + 4 < |orig| && Walk(orig, 0, to)
    ensures |code| == |orig| && SameInstr(Decode(orig, to), Decode(code, to))
    ensures Decode(orig, to).OnFail? ==>
              (code[to + 3] == START_MEMORY && code[to + 4] == reg <==> orig[to + 3] == START_MEMORY && orig[to + 4] == reg)
  {
    hide Decode, Rewritten, AllLand, Walk;
    SameRead(orig, code, to);
    if Decode(orig, to).OnFail? {
      SameByte(orig, code, to + 3, START_MEMORY);
      if orig[to + 3] == START_MEMORY { SameReg(orig, code, to + 3); }
    }
  }

  /** The register of a start_memory is never overwritten. */
  lemma SameReg(orig: seq<Byte>, code: seq<Byte>, p: nat)
    requires AllLand(orig, 0, |orig|) && Rewritten(orig, code) && p + 1 < |orig| && Walk(orig, 0, p)
    requires orig[p] == START_MEMORY
    ensures |code| == |orig| && code[p + 1] == orig[p + 1]
  {
    hide AllLand;
    SameRead(orig, code, p);
    if Walk(orig, 0, p + 1) { NoOverlap(orig, 0, p, p + 1); }
  }

  lemma StopAlike(orig: seq<Byte>, text: seq<Byte>, pos: nat, s: State, t: State, reg: Byte)
    requires Twins(orig, text, pos, s, t) && 0 <= s.at.p && s.at.p + 3 <= |orig| && Walk(orig, 0, s.at.p + 3)
    requires s.at.p < |s.code| && Decode(s.code, s.at.p).Memory?
    ensures Alike(orig, StopMemory(s, reg), StopMemory(t, reg))
  {
    hide AllLand, Inv, Worn, Decode, Push, Fail, ForcedExit, HighestActive, Walk;
    if 0 < reg < |s.info| {
      var u := CloseGroup(s, reg);
      var v := CloseGroup(t, reg);
      assert v == u.(code := t.code) && u.at == s.at && u.code == s.code;
      FlagsKeep(orig, text, pos, s, u);
      ExitAlike(orig, text, pos, u, v, reg);
      match ForcedExit(u, reg)
      case None =>
      case Some(exit) =>
        ForcedExitSeen(orig, text, pos, u, reg);
        PushOk(orig, text, pos, u, false, exit);
        PushTwins(u, t.code, false, exit);
        if Push(u, false, exit).Some? {
          FailAlike(orig, text, pos, Push(u, false, exit).value, Push(v, false, exit).value);
        }
    }
  }

  lemma PushTwins(u: State, code: seq<Byte>, dummy: bool, at: Cfg)
    ensures match Push(u, dummy, at)
            case None => Push(u.(code := code), dummy, at).None?
            case Some(x) => x.code == u.code && Push(u.(code := code), dummy, at) == Some(x.(code := code))
  {
    hide Grown, ItemsAsked;
  }

  // ----- jumps -----

  /** What a jump does once its repeat, if it is one, has been decided. */
  function Decidedly(s: State, op: Byte, to: int): Outcome {
    if op == POP_FAILURE_JUMP then PopJump(s, to)
    else if op == DUMMY_FAILURE_JUMP then PushThen(s, true, Cfg(0, 0), Cfg(to, s.at.d))
    else Advance(s, to, s.at.d)
  }

  /** The opcode a jump has after it has been met. */
  function Resolved(orig: seq<Byte>, p: nat): Byte
    requires p + 3 <= |orig| && Decode(orig, p).Goto?
  {
    var i := Decode(orig, p);
    if i.op != MAYBE_POP_JUMP then i.op
    else if NeverBacktracks(orig, p, i.to) then POP_FAILURE_JUMP else JUMP
  }

  /** Whatever has been decided before, a jump does what its resolved opcode says, on code that stays worn. */
  lemma JumpResolved(orig: seq<Byte>, s: State)
    requires AllLand(orig, 0, |orig|) && Worn(orig, s.code) && 0 <= s.at.p && s.at.p + 3 <= |orig| == |s.code|
    requires Walk(orig, 0, s.at.p) && Decode(orig, s.at.p).Goto? && SameInstr(Decode(orig, s.at.p), Decode(s.code, s.at.p))
    ensures var i := Decode(s.code, s.at.p);
            exists code :: Worn(orig, code)
              && GoJump(s, i.op, i.to) == Decidedly(s.(code := code), Resolved(orig, s.at.p), Decode(orig, s.at.p).to)
  {
    hide AllLand, Worn, Decode, NeverBacktracks, Walk, PushThen, Drop;
    var p := s.at.p;
    var i, x := Decode(s.code, p), Decode(orig, p);
    if i.op == MAYBE_POP_JUMP {
      WornRewritten(orig, s.code);
      SameDecision(orig, s.code, p, x.to);
      SettledStays(orig, s.code, p, x.to);
      var code := s.code[p := if NeverBacktracks(s.code, p, x.to) then POP_FAILURE_JUMP else JUMP];
      assert GoJump(s, i.op, i.to) == Decidedly(s.(code := code), Resolved(orig, p), x.to);
    } else {
      if x.op == MAYBE_POP_JUMP { SettledBefore(orig, s.code, p, x.to); }
      assert s.(code := s.code) == s;
      assert GoJump(s, i.op, i.to) == Decidedly(s.(code := s.code), Resolved(orig, p), x.to);
    }
  }

  lemma DecidedlyAlike(orig: seq<Byte>, s: State, t: State, op: Byte, to: int)
    requires t == s.(code := t.code) && Worn(orig, s.code) && Worn(orig, t.code)
    ensures Alike(orig, Decidedly(s, op, to), Decidedly(t, op, to))
  {
    hide Worn, Push;
    PushTwins(s, t.code, true, Cfg(0, 0));
  }

  lemma JumpAlike(orig: seq<Byte>, text: seq<Byte>, pos: nat, s: State, t: State)
    requires Twins(orig, text, pos, s, t) && 0 <= s.at.p < |orig| && Decode(orig, s.at.p).Goto?
    ensures |s.code| == |orig| == |t.code| && s.at.p + 3 <= |orig|
    ensures var i, j := Decode(s.code, s.at.p), Decode(t.code, s.at.p);
            i.Goto? && j.Goto? && Alike(orig, GoJump(s, i.op, i.to), GoJump(t, j.op, j.to))
  {
    hide AllLand, Inv, Worn, Decode, Walk, GoJump, Decidedly, Resolved, NeverBacktracks;
    ReadAlike(orig, text, pos, s, t);
    JumpResolved(orig, s);
    JumpResolved(orig, t);
    var i, j := Decode(s.code, s.at.p), Decode(t.code, s.at.p);
    var op, to := Resolved(orig, s.at.p), Decode(orig, s.at.p).to;
    var a :| Worn(orig, a) && GoJump(s, i.op, i.to) == Decidedly(s.(code := a), op, to);
    var b :| Worn(orig, b) && GoJump(t, j.op, j.to) == Decidedly(t.(code := b), op, to);
    DecidedlyAlike(orig, s.(code := a), t.(code := b), op, to);
  }

  // ----- runs -----

  lemma StepAlike(orig: seq<Byte>, text: seq<Byte>, pos: nat, s: State, t: State)
    requires Twins(orig, text, pos, s, t)
    ensures Alike(orig, Step(s, text), Step(t, text))
  {
    hide Decode, AllLand, Worn, Inv, PushThen, StartMemory, StopMemory, OnFailure, GoJump, Test, AtEnd, Alike;
    InvBasics(orig, text, pos, s);
    WornRewritten(orig, t.code);
    if s.at.p == |orig| {
      AtEndAlike(orig, text, pos, s, t);
    } else {
      ReadAlike(orig, text, pos, s, t);
      var x := Decode(orig, s.at.p);
      match x
      case Memory(start, reg, _) =>
        if start { StartAlike(orig, text, pos, s, t, reg); } else { StopAlike(orig, text, pos, s, t, reg); }
      case OnFail(to) => ForkAlike(orig, text, pos, s, t, to);
      case Goto(_, _) => JumpAlike(orig, text, pos, s, t);
      case PushDummy => PushAlike(orig, text, pos, s, t, true, Cfg(0, 0), Cfg(s.at.p + 1, s.at.d));
      case i => TestAlike(orig, text, pos, s, t, i);
    }
  }

  lemma MetIsWorn(orig: seq<Byte>, text: seq<Byte>, pos: nat, s: State, t: State)
    requires Twins(orig, text, pos, s, t)
    ensures Worn(orig, Met(s)) && Worn(orig, Met(t))
  {
    hide AllLand, Worn, Decode, NeverBacktracks, Seen, Rewritten;
    InvBasics(orig, text, pos, s);
    WornRewritten(orig, t.code);
    if s.at.p < |orig| {
      ReadAlike(orig, text, pos, s, t);
      var i := Decode(orig, s.at.p);
      if i.Goto? && i.op == MAYBE_POP_JUMP {
        if Decode(s.code, s.at.p).op == MAYBE_POP_JUMP { SettledStays(orig, s.code, s.at.p, i.to); }
        if Decode(t.code, s.at.p).op == MAYBE_POP_JUMP { SettledStays(orig, t.code, s.at.p, i.to); }
      }
    }
  }

  /** Two runs from twin states end alike, and what either leaves of the code is worn. */
  lemma {:induction false} RunAlike(orig: seq<Byte>, text: seq<Byte>, pos: nat, s: State, t: State, fuel: nat)
    requires Twins(orig, text, pos, s, t)
    ensures Alike(orig, Execute(s, text, fuel), Execute(t, text, fuel))
    ensures Worn(orig, Left(s, text, fuel)) && Worn(orig, Left(t, text, fuel))
    decreases fuel
  {
    hide AllLand, Worn, Inv, Step, Met;
    if fuel > 0 {
      MetIsWorn(orig, text, pos, s, t);
      StepAlike(orig, text, pos, s, t);
      if Step(s, text).Running? {
        StepOk(orig, text, pos, s);
        RunAlike(orig, text, pos, Step(s, text).state, Step(t, text).state, fuel - 1);
      }
    }
  }

  /**
   On code that has been run before, a match ends as on the code as it was compiled, with any groups, and
   leaves code of which the same is true.
   */
  lemma WearIsInvisible(n: Node, groups: nat, code: seq<Byte>, text: seq<Byte>, pos: nat, fuel: nat)
    requires Sized(n) && |Code(n)| < 32768 && Worn(Code(n), code)
    ensures Alike(Code(n), Execute(Start(Code(n), groups, pos), text, fuel), Execute(Start(code, groups, pos), text, fuel))
    ensures Worn(Code(n), Left(Start(code, groups, pos), text, fuel))
  {
    hide AllLand, Worn, Inv, Execute, Alike;
    var orig := Code(n);
    CodeLands(n);
    StartOk(orig, text, groups, pos);
    FreshIsWorn(orig);
    RunAlike(orig, text, pos, Start(orig, groups, pos), Start(code, groups, pos), fuel);
  }
}
