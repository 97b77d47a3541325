/** Computing the fastmap in its table of 256 flags, and searching with it. */
module RegexFastSearch {
  import opened Bytes
  import opened RegexSyntax
  import opened RegexCompile
  import opened RegexTheorems
  import opened RegexMeaning
  import opened RegexFastmap
  import opened RegexSearch
  import N = RegexNode
  import NFA = RegexNfa
  import M = RegexMachine
  import RegexCompileProof
  import RegexCompleteness
  import RegexLanguage
  import RegexMatcher

  /** The bytes marked in a fastmap. */
  ghost function Marked(flags: seq<bool>): set<int>
    requires |flags| == 256
  {
    set c: int | 0 <= c < 256 && flags[c]
  }

  method MarkOne(fastmap: array<bool>, c: Byte)
    requires fastmap.Length == 256
    modifies fastmap
    ensures Marked(fastmap[..]) == Marked(old(fastmap[..])) + {c as int}
  {
    fastmap[c] := true;
  }

  method MarkSet(fastmap: array<bool>, negated: bool, bits: seq<Byte>)
    requires fastmap.Length == 256
    modifies fastmap
    ensures Marked(fastmap[..]) == Marked(old(fastmap[..])) + SetStarts(negated, bits)
  {
    var j := 0;
    while j < 256
      invariant 0 <= j <= 256
      invariant forall c: int | 0 <= c < 256 ::
                  fastmap[c] == (old(fastmap[c]) || (c < j && N.SetHas(bits, c) != negated))
    {
      if N.SetHas(bits, j) != negated {
        fastmap[j] := true;
      }
      j := j + 1;
    }
  }

  method MarkAll(fastmap: array<bool>)
    requires fastmap.Length == 256
    modifies fastmap
    ensures Marked(fastmap[..]) == Marked(old(fastmap[..])) + AllBytes()
  {
    var j := 0;
    while j < 256
      invariant 0 <= j <= 256
      invariant forall c: int | 0 <= c < 256 :: fastmap[c] == (old(fastmap[c]) || c < j)
    {
      fastmap[j] := true;
      j := j + 1;
    }
  }

  /** One command of the scan, on the scan's own state. */
  method FastCommand(code: seq<Byte>, fastmap: array<bool>, p: int, stack: seq<int>, canBeNull: bool, pathNull: bool)
    returns (how: Progress, p': int, stack': seq<int>, canBeNull': bool, pathNull': bool)
    requires fastmap.Length == 256 && 0 <= p < |code|
    modifies fastmap
    ensures match FastStep(code, Fast(p, stack, Marked(old(fastmap[..])), canBeNull, pathNull))
            case Go(t) => how == More && t == Fast(p', stack', Marked(fastmap[..]), canBeNull', pathNull')
            case Halt(Done(starts, e)) => how == Stop && canBeNull' == e && Marked(fastmap[..]) == starts
            case Halt(e) => how == Fail && e == Broken
  {
    hide Marked, SetStarts, AllBytes;
    how, p', stack', canBeNull', pathNull' := More, |code|, stack, canBeNull, false;
    match NFA.Decode(code, p) {
      case Exact(chars) =>
        if chars != [] { MarkOne(fastmap, chars[0]); }
      case CharSet(negated, bits) => MarkSet(fastmap, negated, bits);
      case AnyChar =>
        MarkAll(fastmap);
        if canBeNull { how := Stop; }
      case Begin => p', pathNull' := p + 1, pathNull;
      case End => p', pathNull' := p + 1, pathNull;
      case PushDummy => p', pathNull' := p + 1, pathNull;
      case Memory(_, _, _) => p', pathNull' := p + 3, pathNull;
      case Goto(_, to) =>
        p', pathNull' := to, pathNull;
        if to <= p + 3 {
          if to < 0 || to >= |code| { return Fail, p', stack', canBeNull', pathNull'; }
          if code[to] == N.ON_FAILURE_JUMP {
            var exit := NFA.Decode(code, to);
            if !exit.OnFail? { return Fail, p', stack', canBeNull', pathNull'; }
            p' := exit.to;
            if |stack| > 0 && stack[|stack| - 1] == p' { stack' := stack[..|stack| - 1]; }
          }
        }
      case OnFail(to) =>
        p', pathNull' := p + 3, pathNull;
        if to < |code| { stack' := stack + [to]; } else { canBeNull' := true; }
      case Bad => how := Fail;
    }
  }

  datatype Progress = More | Stop | Fail

  /** re_compile_fastmap, for at most `fuel` commands. */
  method CompileFastmap(code: seq<Byte>, fastmap: array<bool>, fuel: nat)
    returns (ended: bool, overflow: bool, canBeNull: bool)
    requires fastmap.Length == 256
    modifies fastmap
    ensures match FastRun(code, START, INIT_STACK, fuel)
            case Done(starts, e) => ended && !overflow && canBeNull == e && Marked(fastmap[..]) == starts
            case Overflow => !ended && overflow
            case _ => !ended && !overflow
  {
    hide FastStep, Marked;
    ClearAll(fastmap);
    overflow, canBeNull := false, false;
    var p: int, stack: seq<int>, pathNull := 0, [], true;
    var size: nat, left: nat := INIT_STACK, fuel;
    while left > 0
      invariant |stack| <= size && size >= INIT_STACK && !overflow
      invariant FastRun(code, START, INIT_STACK, fuel)
             == FastRun(code, Fast(p, stack, Marked(fastmap[..]), canBeNull, pathNull), size, left)
      decreases left
    {
      left := left - 1;
      if p == |code| {
        PathEnd(code, Fast(p, stack, Marked(fastmap[..]), canBeNull, pathNull));
        canBeNull := canBeNull || pathNull;
        if stack == [] {
          return true, false, canBeNull;
        }
        p, stack, pathNull := stack[|stack| - 1], stack[..|stack| - 1], true;
      } else if p < 0 || p > |code| {
        OutsideCode(code, Fast(p, stack, Marked(fastmap[..]), canBeNull, pathNull));
        return false, false, canBeNull;
      } else {
        StackGrows(code, Fast(p, stack, Marked(fastmap[..]), canBeNull, pathNull));
        var how: Progress;
        how, p, stack, canBeNull, pathNull := FastCommand(code, fastmap, p, stack, canBeNull, pathNull);
        if how == Stop {
          return true, false, canBeNull;
        }
        if how == Fail {
          return false, false, canBeNull;
        }
        if |stack| > size {
          if size > STACK_LIMIT {
            return false, true, canBeNull;
          }
          size := 2 * size;
        }
      }
    }
    ended := false;
  }

  method ClearAll(fastmap: array<bool>)
    requires fastmap.Length == 256
    modifies fastmap
    ensures Marked(fastmap[..]) == {}
  {
    var j := 0;
    while j < 256
      invariant 0 <= j <= 256
      invariant forall c | 0 <= c < j :: !fastmap[c]
    {
      fastmap[j] := false;
      j := j + 1;
    }
  }

  lemma PathEnd(code: seq<Byte>, s: Fast)
    requires s.p == |code|
    ensures FastStep(code, s) ==
            if s.stack == [] then Halt(Done(s.starts, s.canBeNull || s.pathNull))
            else Go(Fast(s.stack[|s.stack| - 1], s.stack[..|s.stack| - 1], s.starts, s.canBeNull || s.pathNull, true))
  {
  }

  lemma OutsideCode(code: seq<Byte>, s: Fast)
    requires s.p < 0 || s.p > |code|
    ensures FastStep(code, s) == Halt(Broken)
  {
  }

  // ----- searching -----

  /** The first position from `pos` on whose byte is marked, or the end of the text. */
  function SkipTo(text: seq<Byte>, pos: nat, starts: set<int>): (p: nat)
    requires pos <= |text|
    ensures pos <= p <= |text|
    ensures forall k | pos <= k < p :: text[k] as int !in starts
    decreases |text| - pos
  {
    if pos == |text| || text[pos] as int in starts then pos else SkipTo(text, pos + 1, starts)
  }

  /** re_search_2 with one string and a fastmap, from `pos` on. */
  function FastFrom(c: Compiled, text: seq<Byte>, pos: nat, starts: set<int>, canBeNull: bool, fuel: nat): Searched
    requires pos <= |text| + 1
    decreases |text| + 1 - pos
  {
    if pos > |text| then Searched(Absent, c.code)
    else
      var p := if canBeNull then pos else SkipTo(text, pos, starts);
      if p == |text| && !canBeNull then Searched(Absent, c.code)
      else
        var code := CodeAfter(c, text, p, fuel);
        match MatchFrom(c, text, p, fuel)
        case Matched(end) => Searched(Found(p, end), code)
        case NoMatch => FastFrom(c.(code := code), text, p + 1, starts, canBeNull, fuel)
        case _ => Searched(Gave, code)
  }

  method FastSearch(buffer: array<Byte>, groups: nat, text: seq<Byte>, fastmap: array<bool>, canBeNull: bool, fuel: nat)
    returns (r: Answer)
    requires fastmap.Length == 256
    modifies buffer
    ensures r == FastFrom(Compiled(old(buffer[..]), groups), text, 0, Marked(fastmap[..]), canBeNull, fuel).answer
    ensures buffer[..] == FastFrom(Compiled(old(buffer[..]), groups), text, 0, Marked(fastmap[..]), canBeNull, fuel).code
  {
    hide M.Execute, M.Left;
    ghost var starts := Marked(fastmap[..]);
    ghost var whole := FastFrom(Compiled(buffer[..], groups), text, 0, starts, canBeNull, fuel);
    var pos := 0;
    while pos <= |text|
      invariant pos <= |text| + 1 && Marked(fastmap[..]) == starts
      invariant whole == FastFrom(Compiled(buffer[..], groups), text, pos, starts, canBeNull, fuel)
    {
      var p: nat := pos;
      if !canBeNull {
        while p < |text| && !fastmap[text[p]]
          invariant pos <= p <= |text| && SkipTo(text, pos, starts) == SkipTo(text, p, starts)
        {
          p := p + 1;
        }
        if p == |text| {
          return Absent;
        }
      }
      var m := new RegexMatcher.Matcher(buffer, groups, text, p);
      var o := m.MatchAll(fuel);
      match o {
        case Matched(end) => return Found(p, end);
        case NoMatch => pos := p + 1;
        case _ => return Gave;
      }
    }
    r := Absent;
  }

  /** The fastmap of a compiled pattern. */
  function FastmapOf(c: Compiled, fuel: nat): FastEnd { FastRun(c.code, START, INIT_STACK, fuel) }

  /** A place that the fastmap skips is not the start of a match. */
  lemma SkippedIsNoMatch(e: Re, junk: seq<Byte>, text: seq<Byte>, pos: nat, end: nat, fuel: nat)
    requires |junk| == 3 && InScope(e) && Flat(e) && Proper(e) && pos <= |text|
    requires fuel > Power2(|CodeOf(e, junk).code|)
    ensures var r := FastmapOf(CodeOf(e, junk), fuel);
            && (r.Done? || r.Overflow?) && (|Print(e)| <= 166 ==> r.Done?)
            && (r.Done? && Matches(e, text, pos, end) ==> r.canBeNull || (pos < |text| && text[pos] as int in r.starts))
  {
    hide FastRun, Compile, Models;
    var n := RegexCompileProof.CompileCorrect(e, junk);
    var code := CodeOf(e, junk).code;
    ModelParts(n, e, code);
    FastmapMarksStarts(n, code, text, pos, end, fuel);
    if Matches(e, text, pos, end) {
      MeansNode(n, e, text, pos, end);
      RegexLanguage.CodeAcceptsLanguage(n, text, pos, end);
    }
  }

  lemma ModelParts(n: N.Node, e: Re, code: seq<Byte>)
    requires Models(n, e) && Flat(e) && Proper(e) && code == N.Code(n) && |code| < 32768
    ensures Part(n, code) && N.Sized(n)
  {
    hide N.Code, Means;
  }

  lemma MeansNode(n: N.Node, e: Re, text: seq<Byte>, pos: nat, end: nat)
    requires Models(n, e) && Matches(e, text, pos, end)
    ensures N.Accepts(n, text, pos, end)
  {
    hide N.Accepts, Matches;
  }

  /** The plain search comes to the same from `pos` as from the next marked byte, on code that it may have rewritten. */
  lemma {:induction false} SkippingAgrees(e: Re, junk: seq<Byte>, code: seq<Byte>, text: seq<Byte>, pos: nat,
                                          starts: set<int>, fuel: nat, mapFuel: nat)
    returns (later: seq<Byte>)
    requires |junk| == 3 && InScope(e) && Flat(e) && Proper(e) && AllAllowed(Print(e)) && pos <= |text|
    requires InUse(e, junk, code) && Enough(CodeOf(e, junk), text, fuel) && mapFuel > Power2(|CodeOf(e, junk).code|)
    requires FastmapOf(CodeOf(e, junk), mapFuel) == Done(starts, false)
    ensures InUse(e, junk, later)
    ensures var c := CodeOf(e, junk);
            var p := SkipTo(text, pos, starts);
            var r := SearchFrom(c.(code := code), text, pos, fuel).answer;
            && (r == Gave || r == SearchFrom(c.(code := later), text, p, fuel).answer)
            && (p == |text| ==> r in {Gave, Absent})
    decreases |text| - pos
  {
    hide M.Execute, M.Left, Compile, FastRun, Matches, Enough, InScope, AllAllowed, Proper, MatchFrom, CodeAfter, InUse, CodeOf;
    later := code;
    if pos == |text| || text[pos] as int !in starts {
      forall end: nat ensures !Matches(e, text, pos, end) {
        SkippedIsNoMatch(e, junk, text, pos, end, mapFuel);
      }
      StartExact(e, junk, code, text, pos, fuel);
      StartAgain(e, junk, code, text, pos, fuel);
      if pos < |text| {
        later := SkippingAgrees(e, junk, CodeAfter(CodeOf(e, junk).(code := code), text, pos, fuel), text, pos + 1, starts,
                                fuel, mapFuel);
      }
    }
  }

  /** On two codes in use one start comes to the same, unless it gives up. */
  lemma SameStart(e: Re, junk: seq<Byte>, code: seq<Byte>, other: seq<Byte>, text: seq<Byte>, pos: nat, fuel: nat)
    requires |junk| == 3 && InScope(e) && Flat(e) && AllAllowed(Print(e)) && pos <= |text|
    requires InUse(e, junk, code) && InUse(e, junk, other) && Enough(CodeOf(e, junk), text, fuel)
    ensures MatchFrom(CodeOf(e, junk).(code := code), text, pos, fuel)
            == MatchFrom(CodeOf(e, junk).(code := other), text, pos, fuel)
  {
    hide MatchFrom, CodeAfter, Compile, Enough, InScope, AllAllowed, InUse, CodeOf, Matches;
    StartAgain(e, junk, code, text, pos, fuel);
    StartAgain(e, junk, other, text, pos, fuel);
    StartExact(e, junk, code, text, pos, fuel);
  }

  /**
   When no group is repeated, and unless the stack limit is met, a search with the fastmap finds what the plain
   search finds: the same start and the same end.  The two try different starts, so they rewrite the code
   at different times, and each may begin on any code in use.
   */
  lemma {:induction false} FastSearchAgrees(e: Re, junk: seq<Byte>, code: seq<Byte>, other: seq<Byte>, text: seq<Byte>,
                                            pos: nat, starts: set<int>, canBeNull: bool, fuel: nat, mapFuel: nat)
    requires |junk| == 3 && InScope(e) && Flat(e) && Proper(e) && AllAllowed(Print(e)) && pos <= |text| + 1
    requires InUse(e, junk, code) && InUse(e, junk, other)
    requires Enough(CodeOf(e, junk), text, fuel) && mapFuel > Power2(|CodeOf(e, junk).code|)
    requires FastmapOf(CodeOf(e, junk), mapFuel) == Done(starts, canBeNull)
    ensures var c := CodeOf(e, junk);
            var r := SearchFrom(c.(code := code), text, pos, fuel).answer;
            r == Gave || FastFrom(c.(code := other), text, pos, starts, canBeNull, fuel).answer == r
    decreases |text| + 1 - pos
  {
    hide M.Execute, M.Left, Compile, FastRun, Enough, InScope, AllAllowed, Proper, MatchFrom, CodeAfter, InUse, CodeOf;
    if pos <= |text| {
      var p, now := pos, code;
      if !canBeNull {
        now := SkippingAgrees(e, junk, code, text, pos, starts, fuel, mapFuel);
        p := SkipTo(text, pos, starts);
      }
      if p < |text| || canBeNull {
        var c, d := CodeOf(e, junk).(code := now), CodeOf(e, junk).(code := other);
        SameStart(e, junk, now, other, text, p, fuel);
        StartAgain(e, junk, now, text, p, fuel);
        StartAgain(e, junk, other, text, p, fuel);
        FastSearchAgrees(e, junk, CodeAfter(c, text, p, fuel), CodeAfter(d, text, p, fuel), text, p + 1, starts, canBeNull,
                         fuel, mapFuel);
      }
    }
  }
}
