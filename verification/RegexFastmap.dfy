/**
 The fastmap: which bytes can start a match, found by following the compiled code up to the first
 character on every path, and the search that skips the other bytes.
 */
module RegexFastmap {
  import opened Bytes
  import opened RegexNode
  import opened RegexNfa
  import opened RegexJumps
  import opened RegexFlow

  /** The scan's position, its stack of alternatives, and what it has found so far. */
  datatype Fast = Fast(p: int, stack: seq<int>, starts: set<int>, canBeNull: bool, pathNull: bool)

  /** `Broken` is a scan that leaves the code; `Overflow` is the -2 of a stack that may not grow any more. */
  datatype FastEnd = Done(starts: set<int>, canBeNull: bool) | Broken | Overflow | Unfinished

  datatype FastNext = Go(s: Fast) | Halt(e: FastEnd)

  predicate IsByte(c: int) { 0 <= c < 256 }

  function AllBytes(): set<int> { set c | 0 <= c < 256 && IsByte(c) }

  /** The bytes a bitmap lets through; those past its end only when it is negated. */
  function SetStarts(negated: bool, bits: seq<Byte>): set<int> {
    set c: int | 0 <= c < 256 && SetHas(bits, c) != negated
  }

  /** A character ends the path: the path is not empty. */
  function Ends(code: seq<Byte>, s: Fast, more: set<int>): Fast {
    s.(p := |code|, starts := s.starts + more, pathNull := false)
  }

  /** A jump; one that does not lead forward onto the start of a loop also leaves that loop. */
  function AfterJump(code: seq<Byte>, s: Fast, to: int): FastNext {
    if to > s.p + 3 then Go(s.(p := to))
    else if !(0 <= to < |code|) then Halt(Broken)
    else if code[to] != ON_FAILURE_JUMP then Go(s.(p := to))
    else
      match Decode(code, to)
      case OnFail(exit) =>
        var n := |s.stack|;
        Go(s.(p := exit, stack := if n > 0 && s.stack[n - 1] == exit then s.stack[..n - 1] else s.stack))
      case _ => Halt(Broken)
  }

  function FastStep(code: seq<Byte>, s: Fast): FastNext {
    if s.p == |code| then
      var empty := s.canBeNull || s.pathNull;
      if s.stack == [] then Halt(Done(s.starts, empty))
      else
        var n := |s.stack| - 1;
        Go(Fast(s.stack[n], s.stack[..n], s.starts, empty, true))
    else if !(0 <= s.p < |code|) then Halt(Broken)
    else
      match Decode(code, s.p)
      case Exact(chars) => Go(Ends(code, s, if chars == [] then {} else {chars[0] as int}))
      case CharSet(negated, bits) => Go(Ends(code, s, SetStarts(negated, bits)))
      case AnyChar =>
        if s.canBeNull then Halt(Done(s.starts + AllBytes(), true)) else Go(Ends(code, s, AllBytes()))
      case Begin => Go(s.(p := s.p + 1))
      case End => Go(s.(p := s.p + 1))
      case PushDummy => Go(s.(p := s.p + 1))
      case Memory(_, _, _) => Go(s.(p := s.p + 3))
      case Goto(_, to) => AfterJump(code, s, to)
      case OnFail(to) =>
        if to < |code| then Go(s.(p := s.p + 3, stack := s.stack + [to]))
        else Go(s.(p := s.p + 3, canBeNull := true))
      case Bad => Halt(Broken)
  }

  const INIT_STACK: nat := 5

  /**
   * re_max_failures * MAX_FAILURE_ITEMS: with no registers to save the second factor, computed in unsigned
   * arithmetic, is 1.
   */
  const STACK_LIMIT: nat := 2000

  /** The scan for at most `fuel` commands; its stack has room for `size` alternatives and is doubled when full. */
  function FastRun(code: seq<Byte>, s: Fast, size: nat, fuel: nat): FastEnd
    decreases fuel
  {
    if fuel == 0 then Unfinished
    else
      match FastStep(code, s)
      case Halt(e) => e
      case Go(t) =>
        if |t.stack| <= size then FastRun(code, t, size, fuel - 1)
        else if size > STACK_LIMIT then Overflow
        else FastRun(code, t, 2 * size, fuel - 1)
  }

  const START := Fast(0, [], {}, false, true)

  // ----- what the scan keeps -----

  /** Code that repeats no group and whose alternations do not end in an empty alternative. */
  predicate Part(n: Node, code: seq<Byte>) {
    Sized(n) && Flat(n) && Tight(n) && code == Code(n) && |code| < 32768
  }

  /** A place the scan can be at: not inside a loop, or at the character that is its body. */
  ghost predicate Place(n: Node, code: seq<Byte>, q: int) {
    && 0 <= q <= |code| && Walk(code, 0, q)
    && (!Inner(n, 0, q) || (q < |code| && OneChar(Decode(code, q))))
  }

  ghost predicate Kept(n: Node, code: seq<Byte>, s: Fast) {
    && Place(n, code, s.p)
    && (!s.pathNull ==> s.p == |code|)
    && (forall k | 0 <= k < |s.stack| :: Place(n, code, s.stack[k]) && s.stack[k] < |code|)
  }

  /** The text matched from `d` to `e` is accounted for by what has been found. */
  predicate Covered(s: Fast, text: seq<Byte>, d: nat, e: nat) {
    s.canBeNull || (d < e && d < |text| && text[d] as int in s.starts)
  }

  ghost predicate From(code: seq<Byte>, text: seq<Byte>, q: int, d: nat, e: nat) {
    Reaches(code, text, Cfg(q, d), Cfg(|code|, e))
  }

  /** It is accounted for, or it can still be matched from a place the scan will come to. */
  ghost predicate Pending(code: seq<Byte>, s: Fast, text: seq<Byte>, d: nat, e: nat) {
    || Covered(s, text, d, e)
    || (s.pathNull && From(code, text, s.p, d, e))
    || exists k :: 0 <= k < |s.stack| && From(code, text, s.stack[k], d, e)
  }

  lemma PartFlows(n: Node, code: seq<Byte>, p: int)
    requires Part(n, code) && Walk(code, 0, p) && 0 <= p < |code|
    ensures Flows(code, n, 0, |code|, p) && Lands(code, 0, p, |code|)
  {
    hide Flows, Walk, Flat, Tight, Code, Lands, Decode;
    assert At(code, 0, n);
    NodeFlows(code, n, 0, p);
    CodeLands(n);
  }

  lemma {:induction false} StepsGrow(code: seq<Byte>, text: seq<Byte>, c: Cfg, c': Cfg, k: nat)
    requires Steps(code, text, c, c', k) && c.d <= |text|
    ensures c.d <= c'.d <= |text|
    decreases k
  {
    if k > 0 {
      var m :| Moves(code, text, c, m) && Steps(code, text, m, c', k - 1);
      MoveGrows(code, text, c, m);
      StepsGrow(code, text, m, c', k - 1);
    }
  }

  lemma MoveGrows(code: seq<Byte>, text: seq<Byte>, c: Cfg, c': Cfg)
    requires Moves(code, text, c, c') && c.d <= |text|
    ensures c.d <= c'.d <= |text|
  {
    hide Decode;
  }

  /** The first move of a way to the end. */
  lemma FirstMove(code: seq<Byte>, text: seq<Byte>, q: int, d: nat, e: nat) returns (m: Cfg)
    requires From(code, text, q, d, e) && q != |code| && d <= |text|
    ensures 0 <= q < |code| && Moves(code, text, Cfg(q, d), m) && From(code, text, m.p, m.d, e)
    ensures d <= m.d <= e <= |text|
  {
    var end := Cfg(|code|, e);
    var k: nat :| Steps(code, text, Cfg(q, d), end, k);
    m :| Moves(code, text, Cfg(q, d), m) && Steps(code, text, m, end, k - 1);
    MoveGrows(code, text, Cfg(q, d), m);
    StepsGrow(code, text, m, end, k - 1);
    assert m == Cfg(m.p, m.d);
  }

  lemma AtEnd(code: seq<Byte>, text: seq<Byte>, d: nat, e: nat)
    requires From(code, text, |code|, d, e)
    ensures d == e
  {
    var k: nat :| Steps(code, text, Cfg(|code|, d), Cfg(|code|, e), k);
  }

  /** The place after an instruction that the scan passes over. */
  lemma NextPlace(n: Node, code: seq<Byte>, p: int)
    requires Part(n, code) && Place(n, code, p) && p < |code|
    ensures Flows(code, n, 0, |code|, p) && Lands(code, 0, p, |code|)
    ensures p + Size(Decode(code, p)) <= |code| && Walk(code, 0, p + Size(Decode(code, p)))
  {
    hide Decode, Flows, Part, Lands, Inner;
    PartFlows(n, code, p);
    WalkOne(code, p);
    WalkJoin(code, 0, p, p + Size(Decode(code, p)));
    LandsFits(code, p);
  }

  lemma LandsFits(code: seq<Byte>, p: int)
    requires 0 <= p < |code| && Lands(code, 0, p, |code|)
    ensures p + Size(Decode(code, p)) <= |code| && Decode(code, p) != Bad
    ensures Decode(code, p).OnFail? ==> Walk(code, 0, Decode(code, p).to)
    ensures Decode(code, p).Goto? ==> Walk(code, 0, Decode(code, p).to)
  {
    hide Decode, Walk;
  }

  /** How much is left to do: each place counts for everything after it. */
  function Load(code: seq<Byte>, stack: seq<int>): nat {
    if stack == [] then 0 else Load(code, stack[..|stack| - 1]) + Worth(code, stack[|stack| - 1])
  }

  function Worth(code: seq<Byte>, p: int): nat {
    if p > |code| then 0 else Power2(|code| - p)
  }

  function Work(code: seq<Byte>, s: Fast): nat { Load(code, s.stack) + Worth(code, s.p) }

  lemma WorthFalls(code: seq<Byte>, p: int, q: int)
    requires p < q <= |code|
    ensures Worth(code, q) < Worth(code, p) && 2 * Worth(code, q) <= Worth(code, p) && Worth(code, q) >= 1
    decreases q - p
  {
    if p + 1 < q { WorthFalls(code, p + 1, q); } else { PowerPositive(|code| - q); }
  }

  lemma {:induction false} PowerPositive(k: nat)
    ensures Power2(k) >= 1
  {
    if k > 0 { PowerPositive(k - 1); }
  }

  lemma ForkWorth(code: seq<Byte>, p: int, q: int)
    requires p + 3 <= |code| && p < q <= |code|
    ensures Worth(code, p + 3) + Worth(code, q) < Worth(code, p)
  {
    WorthFalls(code, p, q);
    WorthFalls(code, p + 1, p + 3);
    WorthFalls(code, p, p + 1);
  }

  /** What one instruction that is not the end leads to, on such code. */
  ghost predicate Leads(n: Node, code: seq<Byte>, s: Fast, r: FastNext) {
    match r
    case Halt(e) => e.Done? && e.canBeNull
    case Go(t) => Kept(n, code, t) && Work(code, t) < Work(code, s)
  }

  lemma EndPlace(n: Node, code: seq<Byte>)
    requires Part(n, code)
    ensures Place(n, code, |code|)
  {
    hide Inner, Walk, Decode, Code, AllLand;
    CodeLands(n);
    assert Walk(code, 0, |code|) by { WholeWalk(code); }
    if Inner(n, 0, |code|) { InnerRange(n, 0, |code|); }
  }

  lemma WholeWalk(code: seq<Byte>)
    requires AllLand(code, 0, |code|)
    ensures Walk(code, 0, |code|)
  {
  }

  lemma PopLeads(n: Node, code: seq<Byte>, s: Fast)
    requires Part(n, code) && Kept(n, code, s) && s.p == |code|
    ensures s.stack == [] ==> FastStep(code, s) == Halt(Done(s.starts, s.canBeNull || s.pathNull))
    ensures s.stack != [] ==> FastStep(code, s).Go? && Leads(n, code, s, FastStep(code, s))
  {
    hide Part, Place, Decode;
    PowerPositive(0);
  }

  lemma TestLeads(n: Node, code: seq<Byte>, s: Fast)
    requires Part(n, code) && Kept(n, code, s) && s.p < |code|
    requires Decode(code, s.p).Exact? || Decode(code, s.p).CharSet? || Decode(code, s.p).AnyChar?
    ensures Leads(n, code, s, FastStep(code, s))
  {
    hide Part, Decode, SetStarts, AllBytes;
    EndPlace(n, code);
    hide Place;
    WorthFalls(code, s.p, |code|);
  }

  /** A command that the scan passes over: an anchor or one of a group. */
  predicate PassedOver(x: Instr) { x.Begin? || x.End? || x.Memory? || x.PushDummy? }

  lemma PassLeads(n: Node, code: seq<Byte>, s: Fast)
    requires Part(n, code) && Kept(n, code, s) && s.p < |code| && PassedOver(Decode(code, s.p))
    ensures FastStep(code, s) == Go(s.(p := s.p + Size(Decode(code, s.p)))) && Leads(n, code, s, FastStep(code, s))
  {
    hide Part, Decode, Walk, Inner, Lands;
    NextPlace(n, code, s.p);
    var p := s.p + Size(Decode(code, s.p));
    assert Place(n, code, p);
    hide Place;
    WorthFalls(code, s.p, p);
  }

  lemma GotoLeads(n: Node, code: seq<Byte>, s: Fast)
    requires Part(n, code) && Kept(n, code, s) && s.p < |code| && Decode(code, s.p).Goto?
    ensures var to := Decode(code, s.p).to;
            && s.p + 3 < to <= |code| && FastStep(code, s) == Go(s.(p := to)) && Leads(n, code, s, FastStep(code, s))
  {
    GotoPlace(n, code, s.p);
    hide Part, Decode, Place;
    WorthFalls(code, s.p, Decode(code, s.p).to);
  }

  /** A jump met by the scan leads forward: past alternatives, or into the loop of a `+`. */
  lemma GotoPlace(n: Node, code: seq<Byte>, p: int)
    requires Part(n, code) && Place(n, code, p) && p < |code| && Decode(code, p).Goto?
    ensures p + 3 < Decode(code, p).to <= |code| && Place(n, code, Decode(code, p).to)
  {
    hide Decode, Walk, Inner, Lands;
    NextPlace(n, code, p);
    LandsFits(code, p);
    TightPart(n, code);
  }

  lemma TightPart(n: Node, code: seq<Byte>)
    requires Part(n, code)
    ensures Tight(n)
  {
  }

  lemma ForkPlace(n: Node, code: seq<Byte>, p: int)
    requires Part(n, code) && Place(n, code, p) && p < |code| && Decode(code, p).OnFail?
    ensures var to := Decode(code, p).to;
            && p + 3 <= |code| && p < to <= |code| && Place(n, code, p + 3) && Place(n, code, to)
  {
    hide Decode, Walk, Inner, Lands, Part;
    NextPlace(n, code, p);
    LandsFits(code, p);
  }

  lemma ForkLeads(n: Node, code: seq<Byte>, s: Fast)
    requires Part(n, code) && Kept(n, code, s) && s.p < |code| && Decode(code, s.p).OnFail?
    ensures var to := Decode(code, s.p).to;
            && to <= |code|
            && FastStep(code, s) == Go(if to < |code| then s.(p := s.p + 3, stack := s.stack + [to])
                                       else s.(p := s.p + 3, canBeNull := true))
            && Leads(n, code, s, FastStep(code, s))
  {
    hide Part, Decode, Place, Worth;
    AtPlace(n, code, s);
    ForkPlace(n, code, s.p);
    var to := Decode(code, s.p).to;
    ForkWorth(code, s.p, to);
    PushLoad(code, s.stack, to);
    KeptFork(n, code, s, to);
  }

  lemma PushLoad(code: seq<Byte>, stack: seq<int>, to: int)
    ensures Load(code, stack + [to]) == Load(code, stack) + Worth(code, to)
  {
    assert (stack + [to])[..|stack|] == stack;
  }

  lemma KeptFork(n: Node, code: seq<Byte>, s: Fast, to: int)
    requires Kept(n, code, s) && s.p < |code| && Place(n, code, s.p + 3) && Place(n, code, to)
    ensures to < |code| ==> Kept(n, code, s.(p := s.p + 3, stack := s.stack + [to]))
    ensures Kept(n, code, s.(p := s.p + 3, canBeNull := true))
  {
    hide Place;
  }

  /** Which instructions the scan meets. */
  lemma KindsMet(n: Node, code: seq<Byte>, p: int)
    requires Part(n, code) && Place(n, code, p) && p < |code|
    ensures var x := Decode(code, p);
            x.Exact? || x.CharSet? || x.AnyChar? || PassedOver(x) || x.Goto? || x.OnFail?
  {
    hide Decode, Walk, Inner, Lands, Part;
    NextPlace(n, code, p);
  }

  lemma StepLeads(n: Node, code: seq<Byte>, s: Fast)
    requires Part(n, code) && Kept(n, code, s)
    ensures match FastStep(code, s)
            case Halt(e) => e.Done?
            case Go(t) => Kept(n, code, t) && Work(code, t) < Work(code, s)
  {
    hide Part, Decode, Place, FastStep, Work;
    if s.p == |code| {
      PopLeads(n, code, s);
    } else {
      AtPlace(n, code, s);
      KindsMet(n, code, s.p);
      var x := Decode(code, s.p);
      if PassedOver(x) { PassLeads(n, code, s); }
      else if x.Goto? { GotoLeads(n, code, s); }
      else if x.OnFail? { ForkLeads(n, code, s); }
      else { TestLeads(n, code, s); }
    }
  }

  lemma AtPlace(n: Node, code: seq<Byte>, s: Fast)
    requires Kept(n, code, s) && s.p != |code|
    ensures 0 <= s.p < |code| && Place(n, code, s.p) && s.pathNull
  {
  }

  // ----- nothing is lost -----

  lemma PendingPop(n: Node, code: seq<Byte>, s: Fast, text: seq<Byte>, d: nat, e: nat)
    requires s.p == |code| && Pending(code, s, text, d, e)
    ensures match FastStep(code, s)
            case Halt(_) => Covered(s.(canBeNull := s.canBeNull || s.pathNull), text, d, e)
            case Go(t) => Pending(code, t, text, d, e)
  {
    hide From, Decode;
    if s.pathNull && From(code, text, s.p, d, e) { AtEnd(code, text, d, e); }
    if s.stack != [] && !Covered(s, text, d, e) && !s.pathNull {
      var k :| 0 <= k < |s.stack| && From(code, text, s.stack[k], d, e);
      var t := FastStep(code, s).s;
      if k < |t.stack| { assert t.stack[k] == s.stack[k]; }
    }
  }

  /** The first move over a character is accounted for by that character. */
  lemma PendingTest(code: seq<Byte>, s: Fast, text: seq<Byte>, d: nat, e: nat)
    requires 0 <= s.p < |code| && d <= |text| && Pending(code, s, text, d, e)
    requires Decode(code, s.p).Exact? || Decode(code, s.p).CharSet? || Decode(code, s.p).AnyChar?
    requires Decode(code, s.p).Exact? ==> Decode(code, s.p).chars != []
    ensures match FastStep(code, s)
            case Halt(r) => r.Done? && r.canBeNull
            case Go(t) => Pending(code, t, text, d, e)
  {
    hide From, Decode, SetHas;
    if FastStep(code, s).Go? {
      var t := FastStep(code, s).s;
      if s.pathNull && From(code, text, s.p, d, e) {
        var m := FirstMove(code, text, s.p, d, e);
        EatsOne(code, text, s.p, d, m);
        assert Covered(t, text, d, e);
      }
      PendingMore(code, s, t, text, d, e);
    }
  }

  lemma EatsOne(code: seq<Byte>, text: seq<Byte>, p: int, d: nat, m: Cfg)
    requires 0 <= p < |code| && Moves(code, text, Cfg(p, d), m)
    requires Decode(code, p).Exact? || Decode(code, p).CharSet? || Decode(code, p).AnyChar?
    requires Decode(code, p).Exact? ==> Decode(code, p).chars != []
    ensures d < m.d && d < |text|
    ensures Decode(code, p).Exact? ==> text[d] == Decode(code, p).chars[0]
    ensures Decode(code, p).CharSet? ==> SetHas(Decode(code, p).bits, text[d]) != Decode(code, p).negated
  {
    hide Decode, SetHas;
    var x := Decode(code, p);
    if x.Exact? {
      assert text[d..d + |x.chars|][0] == text[d];
    }
  }

  /** A state that keeps the stack and has found no less. */
  lemma PendingMore(code: seq<Byte>, s: Fast, t: Fast, text: seq<Byte>, d: nat, e: nat)
    requires s.stack <= t.stack && s.starts <= t.starts && (s.canBeNull ==> t.canBeNull)
    requires Pending(code, s, text, d, e)
    requires s.pathNull && From(code, text, s.p, d, e) ==> Pending(code, t, text, d, e)
    ensures Pending(code, t, text, d, e)
  {
    hide From;
    if !Covered(s, text, d, e) && !(s.pathNull && From(code, text, s.p, d, e)) {
      var k :| 0 <= k < |s.stack| && From(code, text, s.stack[k], d, e);
      assert t.stack[k] == s.stack[k];
    }
  }

  lemma PendingPass(code: seq<Byte>, s: Fast, text: seq<Byte>, d: nat, e: nat)
    requires 0 <= s.p < |code| && d <= |text| && Pending(code, s, text, d, e) && PassedOver(Decode(code, s.p))
    ensures Pending(code, s.(p := s.p + Size(Decode(code, s.p))), text, d, e)
  {
    hide From, Decode;
    var t := s.(p := s.p + Size(Decode(code, s.p)));
    if s.pathNull && From(code, text, s.p, d, e) {
      var m := FirstMove(code, text, s.p, d, e);
    }
    PendingMore(code, s, t, text, d, e);
  }

  lemma PendingGoto(code: seq<Byte>, s: Fast, text: seq<Byte>, d: nat, e: nat)
    requires 0 <= s.p < |code| && d <= |text| && Pending(code, s, text, d, e) && Decode(code, s.p).Goto?
    ensures Pending(code, s.(p := Decode(code, s.p).to), text, d, e)
  {
    hide From, Decode;
    var t := s.(p := Decode(code, s.p).to);
    if s.pathNull && From(code, text, s.p, d, e) {
      var m := FirstMove(code, text, s.p, d, e);
    }
    PendingMore(code, s, t, text, d, e);
  }

  lemma PendingFork(code: seq<Byte>, s: Fast, text: seq<Byte>, d: nat, e: nat)
    requires 0 <= s.p < |code| && d <= |text| && Pending(code, s, text, d, e) && Decode(code, s.p).OnFail?
    ensures var to := Decode(code, s.p).to;
            Pending(code, if to < |code| then s.(p := s.p + 3, stack := s.stack + [to])
                          else s.(p := s.p + 3, canBeNull := true), text, d, e)
  {
    hide From, Decode;
    var to := Decode(code, s.p).to;
    var t := if to < |code| then s.(p := s.p + 3, stack := s.stack + [to]) else s.(p := s.p + 3, canBeNull := true);
    if s.pathNull && From(code, text, s.p, d, e) {
      var m := FirstMove(code, text, s.p, d, e);
      if to < |code| { assert t.stack[|s.stack|] == to; }
    }
    PendingMore(code, s, t, text, d, e);
  }

  lemma StepPending(n: Node, code: seq<Byte>, s: Fast, text: seq<Byte>, d: nat, e: nat)
    requires Part(n, code) && Kept(n, code, s) && d <= |text| && Pending(code, s, text, d, e)
    ensures match FastStep(code, s)
            case Halt(r) => r.Done? && (r.canBeNull || (d < e && d < |text| && text[d] as int in r.starts))
            case Go(t) => Pending(code, t, text, d, e)
  {
    hide Part, Decode, Place, FastStep, Pending, Kept;
    if s.p == |code| {
      PopLeads(n, code, s);
      PendingPop(n, code, s, text, d, e);
    } else {
      AtPlace(n, code, s);
      KindsMet(n, code, s.p);
      var x := Decode(code, s.p);
      if PassedOver(x) {
        PassLeads(n, code, s);
        PendingPass(code, s, text, d, e);
      } else if x.Goto? {
        GotoLeads(n, code, s);
        PendingGoto(code, s, text, d, e);
      } else if x.OnFail? {
        ForkLeads(n, code, s);
        PendingFork(code, s, text, d, e);
      } else {
        ExactHasChars(code, s.p);
        PendingTest(code, s, text, d, e);
      }
    }
  }

  lemma ExactHasChars(code: seq<Byte>, p: int)
    requires 0 <= p < |code|
    ensures Decode(code, p).Exact? ==> Decode(code, p).chars != []
  {
  }

  lemma {:induction false} RunPending(n: Node, code: seq<Byte>, s: Fast, text: seq<Byte>, d: nat, e: nat, size: nat,
                                      fuel: nat)
    requires Part(n, code) && Kept(n, code, s) && d <= |text| && Pending(code, s, text, d, e)
    ensures var r := FastRun(code, s, size, fuel);
            r.Done? ==> r.canBeNull || (d < e && d < |text| && text[d] as int in r.starts)
    decreases fuel
  {
    hide Part, FastStep, Pending, Kept;
    if fuel > 0 {
      StepLeads(n, code, s);
      StepPending(n, code, s, text, d, e);
      if FastStep(code, s).Go? {
        var t := FastStep(code, s).s;
        RunPending(n, code, t, text, d, e, if |t.stack| <= size then size else 2 * size, fuel - 1);
      }
    }
  }

  lemma {:induction false} RunEnds(n: Node, code: seq<Byte>, s: Fast, size: nat, fuel: nat)
    requires Part(n, code) && Kept(n, code, s) && fuel > Work(code, s)
    ensures FastRun(code, s, size, fuel).Done? || FastRun(code, s, size, fuel).Overflow?
    decreases fuel
  {
    hide Part, FastStep, Kept, Work;
    StepLeads(n, code, s);
    if FastStep(code, s).Go? {
      var t := FastStep(code, s).s;
      RunEnds(n, code, t, if |t.stack| <= size then size else 2 * size, fuel - 1);
    }
  }

  // ----- the depth of the stack -----

  /** `fs` are the places the stacked alternatives were left at: each further on than the one below, all behind the scan. */
  predicate Climbs(s: Fast, fs: seq<int>) {
    && |fs| == |s.stack|
    && (forall k | 0 <= k < |fs| :: 0 <= fs[k] < s.stack[k] && fs[k] < s.p)
    && (forall j, k | 0 <= j < k < |fs| :: fs[j] < fs[k])
  }

  /** So there are no more of them than bytes of code behind the scan. */
  lemma {:induction false} ClimbsFewer(s: Fast, fs: seq<int>, k: nat)
    requires Climbs(s, fs) && k < |fs|
    ensures k <= fs[k]
  {
    if k > 0 { ClimbsFewer(s, fs, k - 1); }
  }

  lemma StepClimbs(n: Node, code: seq<Byte>, s: Fast, fs: seq<int>) returns (gs: seq<int>)
    requires Part(n, code) && Kept(n, code, s) && Climbs(s, fs) && FastStep(code, s).Go?
    ensures Climbs(FastStep(code, s).s, gs)
  {
    hide Part, Decode, Place, FastStep;
    var t := FastStep(code, s).s;
    gs := fs;
    if s.p == |code| {
      PopStep(code, s);
      gs := fs[..|fs| - 1];
    } else {
      AtPlace(n, code, s);
      KindsMet(n, code, s.p);
      var x := Decode(code, s.p);
      if PassedOver(x) {
        PassLeads(n, code, s);
      } else if x.Goto? {
        GotoLeads(n, code, s);
      } else if x.OnFail? {
        ForkLeads(n, code, s);
        ForkPlace(n, code, s.p);
        if x.to < |code| { gs := fs + [s.p]; }
      } else {
        TestStep(code, s);
      }
    }
  }

  lemma StackGrows(code: seq<Byte>, s: Fast)
    ensures FastStep(code, s).Go? ==> |FastStep(code, s).s.stack| <= |s.stack| + 1
  {
    hide Decode;
  }

  lemma PopStep(code: seq<Byte>, s: Fast)
    requires s.p == |code| && FastStep(code, s).Go?
    ensures s.stack != []
    ensures var t := FastStep(code, s).s; t.p == s.stack[|s.stack| - 1] && t.stack == s.stack[..|s.stack| - 1]
  {
  }

  lemma TestStep(code: seq<Byte>, s: Fast)
    requires 0 <= s.p < |code| && FastStep(code, s).Go?
    requires Decode(code, s.p).Exact? || Decode(code, s.p).CharSet? || Decode(code, s.p).AnyChar?
    ensures var t := FastStep(code, s).s; t.p == |code| && t.stack == s.stack
  {
    hide Decode;
  }

  lemma KeptInside(n: Node, code: seq<Byte>, s: Fast)
    requires Kept(n, code, s)
    ensures s.p <= |code|
  {
  }

  /** On code of at most 2001 bytes the stack never meets its limit. */
  lemma {:induction false} RunFits(n: Node, code: seq<Byte>, s: Fast, fs: seq<int>, size: nat, fuel: nat)
    requires Part(n, code) && Kept(n, code, s) && Climbs(s, fs) && |code| <= STACK_LIMIT + 1
    ensures !FastRun(code, s, size, fuel).Overflow?
    decreases fuel
  {
    hide Part, FastStep, Kept, Climbs;
    if fuel > 0 {
      StepLeads(n, code, s);
      if FastStep(code, s).Go? {
        var t := FastStep(code, s).s;
        var gs := StepClimbs(n, code, s, fs);
        DepthBound(n, code, t, gs);
        RunFits(n, code, t, gs, if |t.stack| <= size then size else 2 * size, fuel - 1);
      }
    }
  }

  lemma DepthBound(n: Node, code: seq<Byte>, s: Fast, fs: seq<int>)
    requires Kept(n, code, s) && Climbs(s, fs)
    ensures |s.stack| <= |code|
  {
    hide Kept;
    KeptInside(n, code, s);
    if |fs| > 0 { ClimbsFewer(s, fs, |fs| - 1); }
  }

  lemma StartKept(n: Node, code: seq<Byte>)
    requires Part(n, code)
    ensures Kept(n, code, START) && Work(code, START) == Power2(|code|)
  {
    hide Inner, Decode, Code;
    if Inner(n, 0, 0) { InnerRange(n, 0, 0); }
  }

  /**
   * The fastmap is complete: on code that repeats no group the scan ends, and unless the pattern can match
   * nothing, every match is of some text and its first byte is marked. Only on code of more than 2001 bytes can
   * the scan end by meeting the limit of its stack.
   */
  lemma FastmapMarksStarts(n: Node, code: seq<Byte>, text: seq<Byte>, d: nat, e: nat, fuel: nat)
    requires Part(n, code) && d <= |text| && fuel > Power2(|code|)
    ensures var r := FastRun(code, START, INIT_STACK, fuel);
            && (r.Done? || r.Overflow?) && (|code| <= STACK_LIMIT + 1 ==> r.Done?)
            && (r.Done? && Reaches(code, text, Cfg(0, d), Cfg(|code|, e)) ==>
                  r.canBeNull || (d < e && d < |text| && text[d] as int in r.starts))
  {
    hide Part, FastRun, Kept, Reaches;
    StartKept(n, code);
    RunEnds(n, code, START, INIT_STACK, fuel);
    if |code| <= STACK_LIMIT + 1 { RunFits(n, code, START, [], INIT_STACK, fuel); }
    if Reaches(code, text, Cfg(0, d), Cfg(|code|, e)) {
      assert Pending(code, START, text, d, e);
      RunPending(n, code, START, text, d, e, INIT_STACK, fuel);
    }
  }
}
