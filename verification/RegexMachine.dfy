/**
 The backtracking matcher as a state machine: one step per pattern command, an explicit
 failure stack with a size limit, and the smart repeat that overwrites its own opcode.
 Register contents (the captured text) are not modelled; the flags that steer the
 machine and decide what a failure point costs are.
 */
module RegexMachine {
  import opened Bytes
  import opened RegexNode
  import opened RegexNfa

  const NO_HIGHEST_ACTIVE_REG: nat := 256
  const NO_LOWEST_ACTIVE_REG: nat := 257
  const INIT_FAILURE_ALLOC: nat := 5
  const MAX_FAILURES: nat := 2000
  const WORD: nat := 0x1_0000_0000_0000_0000

  datatype RegInfo = RegInfo(active: bool, matched: bool)

  /** A failure point: where to resume, or a dummy, and the register flags to restore. */
  datatype Frame = Frame(dummy: bool, at: Cfg, low: nat, high: nat, info: seq<RegInfo>)

  datatype State = State(
    code: seq<Byte>, at: Cfg, stack: seq<Frame>, size: nat, avail: nat,
    low: nat, high: nat, info: seq<RegInfo>, best: Option<nat>)

  /** `Matched` carries the text position of the end of the match.  `Stuck` is what the code
      leaves undefined: an unknown opcode, a register out of range, an empty stack popped. */
  datatype Outcome = Running(state: State) | Matched(end: nat) | NoMatch | Overflow | Stuck

  function Start(code: seq<Byte>, groups: nat, pos: nat): State {
    State(code, Cfg(0, pos), [], INIT_FAILURE_ALLOC, 0,
          NO_LOWEST_ACTIVE_REG, NO_HIGHEST_ACTIVE_REG, seq(groups + 1, _ => RegInfo(false, false)), None)
  }

  // ----- the failure stack -----

  /** Registers saved in one failure point. */
  function SavedRegs(low: nat, high: nat): nat { if low <= high then high - low + 1 else 0 }

  /** The space asked for before a push, computed in unsigned 64-bit arithmetic. */
  function ItemsAsked(low: nat, high: nat): nat {
    var count: int := high - low + 1;
    (count * 3 + 4) % WORD
  }

  /** re_max_failures * MAX_FAILURE_ITEMS. */
  function StackLimit(regs: nat): nat { MAX_FAILURES * (3 * regs + 1) }

  /** Doubling until the items fit; `None` when the limit on the stack is passed. */
  function Grown(size: nat, avail: nat, items: nat, limit: nat): (r: Option<nat>)
    decreases limit + 1 - size
  {
    if avail + items <= size then Some(size)
    else if size > limit || size == 0 then None
    else Grown(2 * size, avail, items, limit)
  }

  /** PUSH_FAILURE_POINT. */
  function Push(s: State, dummy: bool, at: Cfg): Option<State> {
    match Grown(s.size, s.avail, ItemsAsked(s.low, s.high), StackLimit(|s.info|))
    case None => None
    case Some(size) =>
      Some(s.(stack := s.stack + [Frame(dummy, at, s.low, s.high, s.info)],
              size := size,
              avail := s.avail + 4 + 3 * SavedRegs(s.low, s.high)))
  }

  function Top(s: State): Frame
    requires s.stack != []
  {
    s.stack[|s.stack| - 1]
  }

  /** Removes the top failure point, restoring nothing. */
  function Drop(s: State): State
    requires s.stack != []
  {
    var f := Top(s);
    var items := 4 + 3 * SavedRegs(f.low, f.high);
    s.(stack := s.stack[..|s.stack| - 1], avail := if items <= s.avail then s.avail - items else 0)
  }

  /** POP_FAILURE_POINT into the machine's own variables. */
  function Restore(s: State): State
    requires s.stack != []
  {
    var f := Top(s);
    Drop(s).(
      at := if f.dummy then s.at else f.at,
      low := f.low,
      high := f.high,
      info := seq(|s.info|, r requires 0 <= r < |s.info| =>
                    if f.low <= r <= f.high && r < |f.info| then f.info[r] else s.info[r]))
  }

  /** The failure point is a jump back to the start of a loop: it is dropped and the next one used. */
  predicate AtLoopJump(code: seq<Byte>, p: int) {
    0 <= p < |code| &&
    match Decode(code, p)
    case Goto(op, to) =>
      && (op == MAYBE_POP_JUMP || op == POP_FAILURE_JUMP || op == JUMP)
      && 0 <= to < |code| && code[to] == ON_FAILURE_JUMP
    case _ => false
  }

  /** The `fail:` label. */
  function Fail(s: State): Outcome
    decreases |s.stack|
  {
    if s.stack == [] then
      match s.best
      case Some(e) => Matched(e)
      case None => NoMatch
    else
      var f, t := Top(s), Restore(s);
      if f.dummy || AtLoopJump(t.code, t.at.p) then Fail(t) else Running(t)
  }

  // ----- commands -----

  function Advance(s: State, p: int, d: nat): Outcome { Running(s.(at := Cfg(p, d))) }

  function PushThen(s: State, dummy: bool, saved: Cfg, next: Cfg): Outcome {
    match Push(s, dummy, saved)
    case None => Overflow
    case Some(t) => Running(t.(at := next))
  }

  /** SET_REGS_MATCHED. */
  function MarkMatched(s: State): State {
    s.(info := seq(|s.info|, r requires 0 <= r < |s.info| =>
                     if s.low <= r <= s.high then s.info[r].(matched := true) else s.info[r]))
  }

  function AtEnd(s: State, text: seq<Byte>): Outcome {
    var d := s.at.d;
    if d == |text| then Matched(d)
    else if s.stack != [] then
      Fail(if s.best.None? || d > s.best.value then s.(best := Some(d)) else s)
    else match s.best
      case Some(e) => Matched(e)
      case None => Matched(d)
  }

  function Test(s: State, text: seq<Byte>, i: Instr): Outcome
    requires IsTest(i)
  {
    match Eat(i, text, s.at.d)
    case None => Fail(s)
    case Some(d) => Advance(if i.Begin? || i.End? then s else MarkMatched(s), s.at.p + Size(i), d)
  }

  function StartMemory(s: State, reg: Byte): Outcome {
    if reg >= |s.info| then Stuck
    else Advance(s.(info := s.info[reg := RegInfo(true, false)],
                    high := reg,
                    low := if s.low == NO_LOWEST_ACTIVE_REG then reg else s.low),
                 s.at.p + 3, s.at.d)
  }

  /** The highest active register at or below `r`; 0 when there is none. */
  function HighestActive(info: seq<RegInfo>, r: nat): nat
    requires r < |info| || r == 0
  {
    if r == 0 || info[r].active then r else HighestActive(info, r - 1)
  }

  /** The flags after the close of group `reg`. */
  function CloseGroup(s: State, reg: Byte): State
    requires 0 < reg < |s.info|
  {
    var info := s.info[reg := s.info[reg].(active := false)];
    var r := HighestActive(info, reg - 1);
    if s.low == s.high || r == 0
    then s.(info := info, low := NO_LOWEST_ACTIVE_REG, high := NO_HIGHEST_ACTIVE_REG)
    else s.(info := info, high := r)
  }

  /** Where to go on when a group that matched nothing is about to be repeated. */
  function ForcedExit(s: State, reg: Byte): Option<Cfg>
    requires 0 < reg < |s.info| && 0 <= s.at.p
  {
    var code, p := s.code, s.at.p;
    if p + 3 >= |code| || p < 2 || (s.info[reg].matched && code[p - 2] != START_MEMORY) then None
    else
      match Decode(code, p + 3)
      case Goto(op, to) =>
        if op == JUMP_PAST_ALT || to >= p + 6 || to < 0 || to + 4 >= |code| then None
        else if code[to + 3] != START_MEMORY || code[to + 4] != reg then None
        else (match Decode(code, to) case OnFail(exit) => Some(Cfg(exit, s.at.d)) case _ => None)
      case _ => None
  }

  function StopMemory(s: State, reg: Byte): Outcome
    requires 0 <= s.at.p
  {
    if !(0 < reg < |s.info|) then Stuck
    else
      var t := CloseGroup(s, reg);
      match ForcedExit(t, reg)
      case None => Advance(t, s.at.p + 3, s.at.d)
      case Some(exit) =>
        match Push(t, false, exit)
        case None => Overflow
        case Some(u) => Fail(u)
  }

  function OnFailure(s: State, to: int): Outcome
    requires 0 <= s.at.p
  {
    var p1 := s.at.p + 3;
    var t := if p1 < |s.code| && Decode(s.code, p1).Memory? && Decode(s.code, p1).start then
               var m := Decode(s.code, p1);
               s.(high := m.reg + m.inner, low := if s.low == NO_LOWEST_ACTIVE_REG then m.reg else s.low)
             else s;
    PushThen(t, false, Cfg(to, s.at.d), Cfg(p1, s.at.d))
  }

  /** Past any start_memory and stop_memory commands at `p`. */
  function SkipMemory(code: seq<Byte>, p: nat): (r: nat)
    requires p <= |code|
    ensures r <= |code|
    decreases |code| - p
  {
    if p + 2 < |code| && (code[p] == START_MEMORY || code[p] == STOP_MEMORY) then SkipMemory(code, p + 3) else p
  }

  /** The loop at `to` starts with something that cannot match a text starting with `c`.
      The product is computed in an unsigned byte. */
  predicate CannotStart(code: seq<Byte>, to: int, c: Byte) {
    0 <= to + 3 < |code| &&
    match Decode(code, to + 3)
    case Exact(chars) => chars != [] && chars[0] != c
    case CharSet(negated, bits) =>
      (c < (8 * |bits|) % 256 && c / 8 < |bits| && Bit(bits[c / 8], c % 8)) == negated
    case _ => false
  }

  /** What a maybe_pop_jump at `p` back to `to` turns into: true for pop_failure_jump. */
  predicate NeverBacktracks(code: seq<Byte>, p: nat, to: int)
    requires p + 3 <= |code|
  {
    var p2 := SkipMemory(code, p + 3);
    || p2 == |code|
    || (Decode(code, p2).Exact? && Decode(code, p2).chars != [] && CannotStart(code, to, Decode(code, p2).chars[0]))
  }

  function PopJump(s: State, to: int): Outcome {
    if s.stack == [] then Stuck else Advance(Drop(s), to, s.at.d)
  }

  function GoJump(s: State, op: Byte, to: int): Outcome
    requires 0 <= s.at.p && s.at.p + 3 <= |s.code|
  {
    var p, d := s.at.p, s.at.d;
    if op == MAYBE_POP_JUMP then
      if NeverBacktracks(s.code, p, to)
      then PopJump(s.(code := s.code[p := POP_FAILURE_JUMP]), to)
      else Advance(s.(code := s.code[p := JUMP]), to, d)
    else if op == POP_FAILURE_JUMP then PopJump(s, to)
    else if op == DUMMY_FAILURE_JUMP then PushThen(s, true, Cfg(0, 0), Cfg(to, d))
    else Advance(s, to, d)
  }

  /** One pattern command. */
  function Step(s: State, text: seq<Byte>): Outcome {
    var p, d := s.at.p, s.at.d;
    if p == |s.code| then AtEnd(s, text)
    else if !(0 <= p < |s.code|) then Stuck
    else
      var i := Decode(s.code, p);
      match i
      case Memory(start, reg, _) => if start then StartMemory(s, reg) else StopMemory(s, reg)
      case OnFail(to) => OnFailure(s, to)
      case Goto(op, to) => if p + 3 <= |s.code| then GoJump(s, op, to) else Stuck
      case PushDummy => PushThen(s, true, Cfg(0, 0), Cfg(p + 1, d))
      case Bad => Stuck
      case _ => Test(s, text, i)
  }

  /** At most `fuel` commands. */
  function Execute(s: State, text: seq<Byte>, fuel: nat): Outcome
    decreases fuel
  {
    if fuel == 0 then Running(s)
    else
      match Step(s, text)
      case Running(t) => Execute(t, text, fuel - 1)
      case o => o
  }

  /** The code with the repeat at hand decided, if there is one. */
  function Met(s: State): seq<Byte> {
    var p := s.at.p;
    if !(0 <= p && p + 3 <= |s.code|) then s.code
    else
      match Decode(s.code, p)
      case Goto(op, to) =>
        if op == MAYBE_POP_JUMP then s.code[p := if NeverBacktracks(s.code, p, to) then POP_FAILURE_JUMP else JUMP]
        else s.code
      case _ => s.code
  }

  /** The code as such a run leaves it. */
  function Left(s: State, text: seq<Byte>, fuel: nat): seq<Byte>
    decreases fuel
  {
    if fuel == 0 then s.code
    else
      match Step(s, text)
      case Running(t) => Left(t, text, fuel - 1)
      case _ => Met(s)
  }
}
