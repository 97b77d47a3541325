/**
 Matches that are not the longest: of two alternatives that both match, the second further than the first, the
 first is reported whenever something follows in the text.
 */
module RegexNotLongest {
  import opened Bytes
  import opened RegexSyntax
  import opened RegexCompile
  import opened RegexTheorems
  import Closure
  import N = RegexNode
  import NFA = RegexNfa
  import M = RegexMachine
  import C = RegexCompleteness

  /** The pattern `x|xy`. */
  function Two(x: Byte, y: Byte): Re {
    Alt(Cat(Empty, Lit(x, false)), Cat(Cat(Empty, Lit(x, false)), Lit(y, false)))
  }

  function TwoNode(x: Byte, y: Byte): N.Node { N.Alt(N.Run([x]), N.Run([x, y])) }

  predicate Plain(x: Byte) { !IsSpecial(x) }

  lemma TwoText(x: Byte, y: Byte)
    requires Plain(x) && Plain(y)
    ensures Print(Two(x, y)) == [x, BAR, x, y] && InScope(Two(x, y))
    ensures !Closure.IsOp(x) && !Closure.IsOp(y) && x !in {HAT, DOLLAR, DOT, LBRACKET, LPAREN, RPAREN, BAR, LBRACE, BACKSLASH}
    ensures y !in {HAT, DOLLAR, DOT, LBRACKET, LPAREN, RPAREN, BAR, LBRACE, BACKSLASH}
  {
    assert Print(Cat(Empty, Lit(x, false))) == [x];
    assert Print(Cat(Cat(Empty, Lit(x, false)), Lit(y, false))) == [x, y];
    assert WellFormed(Lit(x, false)) && WellFormed(Lit(y, false));
    assert IsPiece(Lit(x, false)) && IsPiece(Lit(y, false));
    assert WellFormed(Cat(Empty, Lit(x, false)));
    assert WellFormed(Cat(Cat(Empty, Lit(x, false)), Lit(y, false)));
    assert Groups(Cat(Empty, Lit(x, false))) == 0 && Groups(Cat(Cat(Empty, Lit(x, false)), Lit(y, false))) == 0;
  }

  lemma TwoCode(x: Byte, y: Byte)
    ensures N.Code(TwoNode(x, y)) == [14, 6, 0, 1, 1, x, 13, 4, 0, 1, 2, x, y]
  {
    assert N.Code(N.Run([x])) == [1, 1, x] && N.Code(N.Run([x, y])) == [1, 2, x, y];
    assert N.Op1(N.ON_FAILURE_JUMP, 6) == [14, 6, 0] && N.Op1(N.JUMP_PAST_ALT, 4) == [13, 4, 0];
  }

  /** The pattern compiles to the code of the two runs. */
  lemma TwoCompiles(x: Byte, y: Byte, junk: seq<Byte>)
    requires |junk| == 3 && Plain(x) && Plain(y)
    ensures CodeOf(Two(x, y), junk) == Compiled(N.Code(TwoNode(x, y)), 0)
  {
    hide CompileOne, CompileFrom;
    TwoText(x, y);
    TwoCode(x, y);
    var pat := Print(Two(x, y));
    var s1 := CState([1, 1, x], Some(0), 0, None, Some(1), 0, []);
    var s2 := CState([14, 6, 0, 1, 1, x] + junk, None, 9, Some(6), None, 0, []);
    var s3 := CState([14, 6, 0, 1, 1, x] + junk + [1, 1, x], Some(9), 9, Some(6), Some(10), 0, []);
    var s4 := CState([14, 6, 0, 1, 1, x] + junk + [1, 2, x, y], Some(9), 9, Some(6), Some(10), 0, []);
    LiteralOne(pat, 0, FRESH, junk, s1);
    BarOne(pat, s1, junk, s2, x);
    LiteralOne(pat, 2, s2, junk, s3);
    GrowOne(pat, s3, junk, s4, x, y);
    FourSteps(pat, junk, FRESH, s1, s2, s3, s4);
    Finished(s4, junk, x, y);
  }

  lemma LiteralOne(pat: seq<Byte>, p: nat, st: CState, junk: seq<Byte>, next: CState)
    requires |junk| == 3 && p < |pat| && !Closure.IsOp(pat[p])
    requires pat[p] !in {HAT, DOLLAR, DOT, LBRACKET, LPAREN, RPAREN, BAR, LBRACE, BACKSLASH}
    requires st.pending == None && |st.b| <= 9
    requires next == st.(laststart := Some(|st.b|), pending := Some(|st.b| + 1), b := st.b + [1, 1, pat[p]])
    ensures CompileOne(pat, p, st, junk) == Result.Ok(Place(p + 1, next))
  {
  }

  lemma BarOne(pat: seq<Byte>, st: CState, junk: seq<Byte>, next: CState, x: Byte)
    requires |junk| == 3 && |pat| > 1 && pat[1] == BAR
    requires st == CState([1, 1, x], Some(0), 0, None, Some(1), 0, [])
    requires next == CState([14, 6, 0, 1, 1, x] + junk, None, 9, Some(6), None, 0, [])
    ensures CompileOne(pat, 1, st, junk) == Result.Ok(Place(2, next))
  {
    assert !Closure.IsOp(BAR);
    assert InsertJump(st.b, N.ON_FAILURE_JUMP, 0, 9) == [14, 6, 0, 1, 1, x];
    assert NextAlternative(st, 2, junk) == Result.Ok(Place(2, next));
  }

  lemma GrowOne(pat: seq<Byte>, st: CState, junk: seq<Byte>, next: CState, x: Byte, y: Byte)
    requires |junk| == 3 && |pat| == 4 && pat[3] == y && !Closure.IsOp(y)
    requires y !in {HAT, DOLLAR, DOT, LBRACKET, LPAREN, RPAREN, BAR, LBRACE, BACKSLASH}
    requires st == CState([14, 6, 0, 1, 1, x] + junk + [1, 1, x], Some(9), 9, Some(6), Some(10), 0, [])
    requires next == CState([14, 6, 0, 1, 1, x] + junk + [1, 2, x, y], Some(9), 9, Some(6), Some(10), 0, [])
    ensures CompileOne(pat, 3, st, junk) == Result.Ok(Place(4, next))
  {
    assert st.b[10] == 1 && |st.b| == 12;
    assert st.b[10 := 2] + [y] == next.b;
    assert !StartsRun(st, Peek(pat, 4));
    assert NormalChar(st, pat, 4, y) == Result.Ok(Place(4, next));
  }

  lemma FourSteps(pat: seq<Byte>, junk: seq<Byte>, s0: CState, s1: CState, s2: CState, s3: CState, s4: CState)
    requires |junk| == 3 && |pat| == 4
    requires CompileOne(pat, 0, s0, junk) == Result.Ok(Place(1, s1)) && CompileOne(pat, 1, s1, junk) == Result.Ok(Place(2, s2))
    requires CompileOne(pat, 2, s2, junk) == Result.Ok(Place(3, s3)) && CompileOne(pat, 3, s3, junk) == Result.Ok(Place(4, s4))
    ensures CompileFrom(pat, 0, s0, junk) == Finish(s4)
  {
    hide CompileOne, Finish;
    assert CompileFrom(pat, 4, s4, junk) == Finish(s4);
    assert CompileFrom(pat, 3, s3, junk) == Finish(s4);
    assert CompileFrom(pat, 2, s2, junk) == Finish(s4);
    assert CompileFrom(pat, 1, s1, junk) == Finish(s4);
  }

  lemma Finished(st: CState, junk: seq<Byte>, x: Byte, y: Byte)
    requires |junk| == 3
    requires st == CState([14, 6, 0, 1, 1, x] + junk + [1, 2, x, y], Some(9), 9, Some(6), Some(10), 0, [])
    ensures Finish(st) == Result.Ok(Compiled([14, 6, 0, 1, 1, x, 13, 4, 0, 1, 2, x, y], 0))
  {
    assert N.Op1(N.JUMP_PAST_ALT, 4) == [13, 4, 0];
    assert st.b[..6] == [14, 6, 0, 1, 1, x] && st.b[9..] == [1, 2, x, y] && |st.b| == 13;
    var done := StoreJump(st.b, N.JUMP_PAST_ALT, 6, 13);
    assert done == [14, 6, 0, 1, 1, x] + [13, 4, 0] + [1, 2, x, y];
    assert done == [14, 6, 0, 1, 1, x, 13, 4, 0, 1, 2, x, y];
    assert Patch(st.b, Some(6), 13) == done;
  }

  lemma TwoMatches(x: Byte, y: Byte, z: Byte)
    ensures Matches(Two(x, y), [x, y, z], 0, 1) && Matches(Two(x, y), [x, y, z], 0, 2)
  {
    var text := [x, y, z];
    assert Matches(Empty, text, 0, 0);
    assert Matches(Cat(Empty, Lit(x, false)), text, 0, 1);
    assert Matches(Cat(Cat(Empty, Lit(x, false)), Lit(y, false)), text, 0, 2);
  }

  // ----- the run -----

  ghost predicate Commands(c: seq<Byte>, x: Byte, y: Byte) {
    && |c| == 13 && NFA.Decode(c, 0) == NFA.OnFail(9) && NFA.Decode(c, 3) == NFA.Exact([x])
    && NFA.Decode(c, 6) == NFA.Goto(N.JUMP_PAST_ALT, 13) && NFA.Decode(c, 9) == NFA.Exact([x, y])
  }

  lemma TwoCommands(x: Byte, y: Byte)
    ensures Commands(N.Code(TwoNode(x, y)), x, y)
  {
    var c := N.Code(TwoNode(x, y));
    TwoCode(x, y);
    assert |N.Code(N.Run([x]))| == 3 && |N.Code(N.Run([x, y]))| == 4;
    assert N.PastAlt(N.Run([x, y])) == 4;
    assert N.Sized(TwoNode(x, y)) by { assert N.Sized(N.Run([x])) && N.Sized(N.Run([x, y])); }
    assert c[0..0 + |c|] == c;
    assert NFA.At(c, 0, TwoNode(x, y));
    hide NFA.At, NFA.Decode, N.Code;
    NFA.AtAlt(c, 0, TwoNode(x, y));
    NFA.AtTest(c, 3, N.Run([x]));
    NFA.AtTest(c, 9, N.Run([x, y]));
  }

  /** The machine on the example: at `p` and `d`, with the second alternative still to try or not. */
  function At(c: seq<Byte>, p: int, d: nat, more: bool, best: Option<nat>): M.State {
    var info := [M.RegInfo(false, false)];
    M.State(c, NFA.Cfg(p, d), if more then [M.Frame(false, NFA.Cfg(9, 0), 257, 256, info)] else [], 5, if more then 4 else 0,
            257, 256, info, best)
  }

  lemma FirstMatches(c: seq<Byte>, x: Byte, y: Byte, z: Byte)
    requires Commands(c, x, y)
    ensures var text := [x, y, z];
            && M.Step(At(c, 0, 0, false, None), text) == M.Running(At(c, 3, 0, true, None))
            && M.Step(At(c, 3, 0, true, None), text) == M.Running(At(c, 6, 1, true, None))
            && M.Step(At(c, 6, 1, true, None), text) == M.Running(At(c, 13, 1, true, None))
  {
    hide NFA.Decode;
    var text := [x, y, z];
    assert text[0..1] == [x];
    assert M.MarkMatched(At(c, 3, 0, true, None)) == At(c, 3, 0, true, None);
  }

  lemma SecondMatches(c: seq<Byte>, x: Byte, y: Byte, z: Byte)
    requires Commands(c, x, y)
    ensures var text := [x, y, z];
            && M.Step(At(c, 13, 1, true, None), text) == M.Running(At(c, 9, 0, false, Some(1)))
            && M.Step(At(c, 9, 0, false, Some(1)), text) == M.Running(At(c, 13, 2, false, Some(1)))
            && M.Step(At(c, 13, 2, false, Some(1)), text) == M.Matched(1)
  {
    hide NFA.Decode;
    var text := [x, y, z];
    assert text[0..2] == [x, y];
    assert M.Restore(At(c, 13, 1, true, Some(1))) == At(c, 9, 0, false, Some(1));
    assert M.MarkMatched(At(c, 9, 0, false, Some(1))) == At(c, 9, 0, false, Some(1));
  }

  /**
   For any two plain characters `x` and `y` and any third one after them, the pattern `x|xy` matches both of the
   first two, and the matcher reports a match of the first alone.
   */
  lemma ShorterIsReported(x: Byte, y: Byte, z: Byte, junk: seq<Byte>, fuel: nat)
    requires |junk| == 3 && Plain(x) && Plain(y) && fuel >= 6
    ensures InScope(Two(x, y)) && Matches(Two(x, y), [x, y, z], 0, 2)
    ensures var c := CodeOf(Two(x, y), junk);
            && M.Execute(M.Start(c.code, c.groups, 0), [x, y, z], fuel) == M.Matched(1)
            && C.EndsStale(M.Start(c.code, c.groups, 0), [x, y, z], fuel)
  {
    hide Matches, Compile, N.Code, Commands, M.Step;
    TwoText(x, y);
    TwoCompiles(x, y, junk);
    TwoMatches(x, y, z);
    TwoCommands(x, y);
    var c := N.Code(TwoNode(x, y));
    assert M.Start(c, 0, 0) == At(c, 0, 0, false, None);
    RunsShort(c, x, y, z, fuel);
  }

  lemma RunsShort(c: seq<Byte>, x: Byte, y: Byte, z: Byte, fuel: nat)
    requires Commands(c, x, y) && fuel >= 6
    ensures M.Execute(At(c, 0, 0, false, None), [x, y, z], fuel) == M.Matched(1)
    ensures C.EndsStale(At(c, 0, 0, false, None), [x, y, z], fuel)
  {
    hide M.Step;
    var text := [x, y, z];
    assert |c| == 13;
    hide Commands;
    FirstMatches(c, x, y, z);
    SecondMatches(c, x, y, z);
    var s5 := At(c, 13, 2, false, Some(1));
    assert M.Execute(s5, text, fuel - 5) == M.Matched(1) && C.EndsStale(s5, text, fuel - 5);
    One(At(c, 9, 0, false, Some(1)), s5, text, fuel - 4);
    One(At(c, 13, 1, true, None), At(c, 9, 0, false, Some(1)), text, fuel - 3);
    One(At(c, 6, 1, true, None), At(c, 13, 1, true, None), text, fuel - 2);
    One(At(c, 3, 0, true, None), At(c, 6, 1, true, None), text, fuel - 1);
    One(At(c, 0, 0, false, None), At(c, 3, 0, true, None), text, fuel);
  }

  lemma One(s: M.State, t: M.State, text: seq<Byte>, fuel: nat)
    requires fuel > 0 && M.Step(s, text) == M.Running(t)
    ensures M.Execute(s, text, fuel) == M.Execute(t, text, fuel - 1)
    ensures C.EndsStale(s, text, fuel) == C.EndsStale(t, text, fuel - 1)
  {
  }
}
