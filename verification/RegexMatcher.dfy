/**
 The matcher as it runs: one object that scans pattern and text, pushes and pops failure
 points, and overwrites opcodes in the compiled pattern.  Every method is proved to do
 what the state machine of `RegexMachine` does.
 */
module RegexMatcher {
  import opened Bytes
  import opened RegexNode
  import opened RegexNfa
  import opened RegexMachine

  /** A method's report against the specification: `None` to go on, else how the match ended. */
  ghost predicate Agrees(r: Option<Outcome>, s: State, spec: Outcome) {
    match spec
    case Running(t) => r == None && s == t
    case _ => r == Some(spec)
  }

  class Matcher {
    const text: seq<Byte>
    const code: array<Byte>
    var p: int
    var d: nat
    var stack: seq<Frame>
    var size: nat
    var avail: nat
    var low: nat
    var high: nat
    var info: seq<RegInfo>
    var best: Option<nat>

    ghost function S(): State
      reads this, code
    {
      State(code[..], Cfg(p, d), stack, size, avail, low, high, info, best)
    }

    /** A matcher at the start of the code in `buffer`, about to match at `pos`; the buffer is shared, not copied. */
    constructor (buffer: array<Byte>, groups: nat, subject: seq<Byte>, pos: nat)
      ensures code == buffer && text == subject && S() == Start(buffer[..], groups, pos)
    {
      text := subject;
      code := buffer;
      p, d, stack, size, avail := 0, pos, [], INIT_FAILURE_ALLOC, 0;
      low, high, best := NO_LOWEST_ACTIVE_REG, NO_HIGHEST_ACTIVE_REG, None;
      info := seq(groups + 1, _ => RegInfo(false, false));
    }

    /** PUSH_FAILURE_POINT: doubles the stack until the items fit, or gives up. */
    method PushPoint(dummy: bool, at: Cfg) returns (ok: bool)
      modifies this`stack, this`size, this`avail
      ensures match Push(old(S()), dummy, at) case None => !ok case Some(t) => ok && S() == t
    {
      var items, limit := ItemsAsked(low, high), StackLimit(|info|);
      var room := size;
      while avail + items > room
        invariant Grown(size, avail, items, limit) == Grown(room, avail, items, limit)
        decreases (limit as int) + 1 - room
      {
        if room > limit || room == 0 { return false; }
        room := 2 * room;
      }
      stack := stack + [Frame(dummy, at, low, high, info)];
      avail := avail + 4 + 3 * SavedRegs(low, high);
      size := room;
      ok := true;
    }

    /** The stack without its top failure point. */
    method DropPoint()
      requires stack != []
      modifies this`stack, this`avail
      ensures S() == Drop(old(S()))
    {
      var f := stack[|stack| - 1];
      var items := 4 + 3 * SavedRegs(f.low, f.high);
      stack := stack[..|stack| - 1];
      avail := if items <= avail then avail - items else 0;
    }

    /** POP_FAILURE_POINT into the matcher's own variables; reports whether it was a dummy. */
    method PopPoint() returns (dummy: bool)
      requires stack != []
      modifies this`stack, this`avail, this`p, this`d, this`low, this`high, this`info
      ensures S() == Restore(old(S())) && dummy == Top(old(S())).dummy
    {
      var f := stack[|stack| - 1];
      DropPoint();
      dummy := f.dummy;
      if !f.dummy { p, d := f.at.p, f.at.d; }
      var saved, was := f.info, info;
      low, high := f.low, f.high;
      info := seq(|was|, r requires 0 <= r < |was| =>
                    if f.low <= r <= f.high && r < |saved| then saved[r] else was[r]);
    }

    /** The `fail:` label. */
    method FailBack() returns (r: Option<Outcome>)
      modifies this`stack, this`avail, this`p, this`d, this`low, this`high, this`info
      ensures Agrees(r, S(), Fail(old(S())))
    {
      while stack != []
        invariant Fail(S()) == Fail(old(S()))
        decreases |stack|
      {
        ghost var before := S();
        var dummy := PopPoint();
        assert Fail(before) == if dummy || AtLoopJump(S().code, S().at.p) then Fail(S()) else Running(S());
        if !dummy && !AtLoopJump(code[..], p) { return None; }
      }
      r := match best case Some(e) => Some(Matched(e)) case None => Some(NoMatch);
    }

    /** The end of the pattern. */
    method EndOfPattern() returns (r: Option<Outcome>)
      modifies this
      ensures Agrees(r, S(), AtEnd(old(S()), text))
    {
      if d == |text| { return Some(Matched(d)); }
      if stack != [] {
        if best.None? || d > best.value { best := Some(d); }
        r := FailBack();
        return;
      }
      r := match best case Some(e) => Some(Matched(e)) case None => Some(Matched(d));
    }

    /** exactn, anychar, charset, begline, endline. */
    method MatchTest(i: Instr) returns (r: Option<Outcome>)
      requires IsTest(i)
      modifies this
      ensures Agrees(r, S(), Test(old(S()), text, i))
    {
      match Eat(i, text, d) {
        case None => r := FailBack();
        case Some(e) =>
          if !i.Begin? && !i.End? {
            var was := info;
            var l, h := low, high;
            info := seq(|was|, k requires 0 <= k < |was| => if l <= k <= h then was[k].(matched := true) else was[k]);
          }
          p, d := p + Size(i), e;
          r := None;
      }
    }

    method MatchStart(reg: Byte) returns (r: Option<Outcome>)
      modifies this
      ensures Agrees(r, S(), StartMemory(old(S()), reg))
    {
      if reg >= |info| { return Some(Stuck); }
      info := info[reg := RegInfo(true, false)];
      high := reg;
      if low == NO_LOWEST_ACTIVE_REG { low := reg; }
      p := p + 3;
      r := None;
    }

    /** The registers at the close of a group: the new highest active one is looked for from below. */
    method CloseRegister(reg: Byte)
      requires 0 < reg < |info|
      modifies this`info, this`low, this`high
      ensures S() == CloseGroup(old(S()), reg)
    {
      info := info[reg := info[reg].(active := false)];
      var r: nat := reg - 1;
      while r > 0 && !info[r].active
        invariant r < reg
        invariant HighestActive(info, r) == HighestActive(info, reg - 1)
      {
        r := r - 1;
      }
      if low == high || r == 0 {
        low, high := NO_LOWEST_ACTIVE_REG, NO_HIGHEST_ACTIVE_REG;
      } else {
        high := r;
      }
    }

    method MatchStop(reg: Byte) returns (r: Option<Outcome>)
      requires 0 <= p
      modifies this
      ensures Agrees(r, S(), StopMemory(old(S()), reg))
    {
      hide Push, Fail, ForcedExit, CloseGroup;
      if !(0 < reg < |info|) { return Some(Stuck); }
      CloseKeeps(S(), reg);
      CloseRegister(reg);
      var exit := ForcedExit(State(code[..], Cfg(p, d), stack, size, avail, low, high, info, best), reg);
      match exit {
        case None =>
          p := p + 3;
          r := None;
        case Some(at) =>
          var ok := PushPoint(false, at);
          if !ok { return Some(Overflow); }
          r := FailBack();
      }
    }

    method MatchOnFailure(to: int) returns (r: Option<Outcome>)
      requires 0 <= p
      modifies this
      ensures Agrees(r, S(), OnFailure(old(S()), to))
    {
      hide Push, Decode;
      var p1 := p + 3;
      if p1 < code.Length {
        var m := Decode(code[..], p1);
        if m.Memory? && m.start {
          high := m.reg + m.inner;
          if low == NO_LOWEST_ACTIVE_REG { low := m.reg; }
        }
      }
      var ok := PushPoint(false, Cfg(to, d));
      if !ok { return Some(Overflow); }
      p := p1;
      r := None;
    }

    /** `p[-3] = op`. */
    method Overwrite(at: nat, op: Byte)
      requires at < code.Length
      modifies code
      ensures S() == old(S()).(code := old(code[..])[at := op])
    {
      code[at] := op;
      assert code[..] == old(code[..])[at := op];
    }

    method MatchPop(to: int) returns (r: Option<Outcome>)
      modifies this
      ensures Agrees(r, S(), PopJump(old(S()), to))
    {
      if stack == [] { return Some(Stuck); }
      DropPoint();
      p := to;
      r := None;
    }

    /** The code once the repeat at hand, back to `to`, is decided. */
    static ghost function Settled(s: State, to: int): seq<Byte>
      requires 0 <= s.at.p && s.at.p + 3 <= |s.code|
    {
      s.code[s.at.p := if NeverBacktracks(s.code, s.at.p, to) then POP_FAILURE_JUMP else JUMP]
    }

    method MatchJump(op: Byte, to: int) returns (r: Option<Outcome>)
      requires 0 <= p && p + 3 <= code.Length
      modifies this, code
      ensures Agrees(r, S(), GoJump(old(S()), op, to))
      ensures r.Some? ==> code[..] == if op == MAYBE_POP_JUMP then Settled(old(S()), to) else old(code[..])
    {
      hide Push, NeverBacktracks, Drop;
      if op == MAYBE_POP_JUMP {
        var never := NeverBacktracks(code[..], p, to);
        Overwrite(p, if never then POP_FAILURE_JUMP else JUMP);
        if never {
          r := MatchPop(to);
        } else {
          p := to;
          r := None;
        }
      } else if op == POP_FAILURE_JUMP {
        r := MatchPop(to);
      } else if op == DUMMY_FAILURE_JUMP {
        var ok := PushPoint(true, Cfg(0, 0));
        if !ok { return Some(Overflow); }
        p := to;
        r := None;
      } else {
        p := to;
        r := None;
      }
    }

    method MatchDummy() returns (r: Option<Outcome>)
      modifies this
      ensures Agrees(r, S(), PushThen(old(S()), true, Cfg(0, 0), Cfg(old(p) + 1, old(d))))
    {
      hide Push;
      var ok := PushPoint(true, Cfg(0, 0));
      if !ok { return Some(Overflow); }
      p := p + 1;
      r := None;
    }

    /** One pattern command. */
    method MatchOne() returns (r: Option<Outcome>)
      modifies this, code
      ensures Agrees(r, S(), Step(old(S()), text))
      ensures r.Some? ==> code[..] == Met(old(S()))
    {
      hide Decode, AtEnd, Test, StartMemory, StopMemory, OnFailure, GoJump, PushThen;
      if p == code.Length {
        r := EndOfPattern();
      } else if !(0 <= p < code.Length) {
        r := Some(Stuck);
      } else {
        var i := Decode(code[..], p);
        match i {
          case Memory(start, reg, _) => if start { r := MatchStart(reg); } else { r := MatchStop(reg); }
          case OnFail(to) => r := MatchOnFailure(to);
          case Goto(op, to) => if p + 3 <= code.Length { r := MatchJump(op, to); } else { r := Some(Stuck); }
          case PushDummy => r := MatchDummy();
          case Bad => r := Some(Stuck);
          case _ => r := MatchTest(i);
        }
      }
    }

    /** The main loop, for at most `fuel` commands; the buffer keeps the repeats decided on the way. */
    method MatchAll(fuel: nat) returns (o: Outcome)
      modifies this, code
      ensures o == Execute(old(S()), text, fuel)
      ensures code[..] == Left(old(S()), text, fuel)
    {
      hide Step;
      var left: nat := fuel;
      while left > 0
        invariant Execute(S(), text, left) == Execute(old(S()), text, fuel)
        invariant Left(S(), text, left) == Left(old(S()), text, fuel)
      {
        var r := MatchOne();
        left := left - 1;
        if r.Some? { return r.value; }
      }
      o := Running(State(code[..], Cfg(p, d), stack, size, avail, low, high, info, best));
    }
  }

  lemma CloseKeeps(s: State, reg: Byte)
    requires 0 < reg < |s.info|
    ensures |CloseGroup(s, reg).info| == |s.info| && CloseGroup(s, reg).at == s.at && CloseGroup(s, reg).code == s.code
  {
  }
}
