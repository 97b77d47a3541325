/** Patterns that the compiler refuses: unfinished ones, whatever pattern of the grammar they start with. */
module RegexRefusals {
  import opened Bytes
  import opened Closure
  import opened RegexSyntax
  import opened RegexCompile
  import opened RegexBrackets
  import opened RegexMeaning
  import opened RegexCompileProof
  import N = RegexNode

  /** A pattern short enough, with few enough groups. */
  predicate Handy(e: Re) { IsPattern(e) && Groups(e) < 255 && 12 * |Print(e)| < 32768 }

  /** A group that is never closed. */
  lemma UnclosedGroup(e: Re, junk: seq<Byte>)
    requires |junk| == 3 && Handy(e)
    ensures Compile([LPAREN] + Print(e), junk) == Result.Err(UnmatchedParen)
  {
    hide Models, N.Code, Patch, CompileOne, Print, WellFormed;
    var pat := [LPAREN] + Print(e);
    assert pat[1..1 + |Print(e)|] == Print(e);
    var st1 := OpenStep(pat, junk, 0, FRESH);
    var n, st' := Alternatives(pat, junk, 1, st1, e);
    BuiltFixup(st1, st', n, e);
    NeverClosed(pat, st', junk);
  }

  lemma NeverClosed(pat: seq<Byte>, st: CState, junk: seq<Byte>)
    requires |junk| == 3 && st.opens != []
    ensures CompileFrom(pat, |pat|, st, junk) == Result.Err(UnmatchedParen)
  {
  }

  /** The pattern `e` has been read, and `tail` is still to come. */
  lemma ReadUpTo(e: Re, tail: seq<Byte>, junk: seq<Byte>) returns (st: CState)
    requires |junk| == 3 && Handy(e) && tail != [] && !IsOp(tail[0])
    ensures Compile(Print(e) + tail, junk) == CompileFrom(Print(e) + tail, |Print(e)|, st, junk)
    ensures |st.b| < 32768
  {
    hide Models, N.Code, Patch, CompileOne, Print, WellFormed, CompileFrom;
    var pat := Print(e) + tail;
    assert pat[0..0 + |Print(e)|] == Print(e);
    var n;
    n, st := Alternatives(pat, junk, 0, FRESH, e);
    BuiltSize(FRESH, st, n, e);
  }

  lemma RefusedHere(pat: seq<Byte>, p: nat, st: CState, junk: seq<Byte>, why: Error)
    requires |junk| == 3 && p < |pat| && CompileOne(pat, p, st, junk) == Result.Err(why)
    ensures CompileFrom(pat, p, st, junk) == Result.Err(why)
  {
    hide CompileOne;
  }

  /** A backslash with nothing after it. */
  lemma LoneBackslash(e: Re, junk: seq<Byte>)
    requires |junk| == 3 && Handy(e)
    ensures Compile(Print(e) + [BACKSLASH], junk) == Result.Err(TrailingBackslash)
  {
    hide CompileFrom, Print, Handy;
    var pat := Print(e) + [BACKSLASH];
    var st := ReadUpTo(e, [BACKSLASH], junk);
    BackslashLast(pat, st, junk);
    RefusedHere(pat, |Print(e)|, st, junk, TrailingBackslash);
  }

  lemma BackslashLast(pat: seq<Byte>, st: CState, junk: seq<Byte>)
    requires |junk| == 3 && pat != [] && pat[|pat| - 1] == BACKSLASH
    ensures CompileOne(pat, |pat| - 1, st, junk) == Result.Err(TrailingBackslash)
  {
  }

  /** A bracket expression that never begins to list. */
  lemma LoneBracket(e: Re, junk: seq<Byte>)
    requires |junk| == 3 && Handy(e)
    ensures Compile(Print(e) + [LBRACKET], junk) == Result.Err(UnmatchedBracket)
  {
    hide CompileFrom, Print, Handy;
    var pat := Print(e) + [LBRACKET];
    var st := ReadUpTo(e, [LBRACKET], junk);
    BracketLast(pat, st, junk);
    RefusedHere(pat, |Print(e)|, st, junk, UnmatchedBracket);
  }

  lemma BracketLast(pat: seq<Byte>, st: CState, junk: seq<Byte>)
    requires |junk| == 3 && pat != [] && pat[|pat| - 1] == LBRACKET
    ensures CompileOne(pat, |pat| - 1, st, junk) == Result.Err(UnmatchedBracket)
  {
  }

  /** A range from a character to an earlier one. */
  lemma BackwardRange(e: Re, lo: Byte, hi: Byte, rest: seq<Byte>, junk: seq<Byte>)
    requires |junk| == 3 && Handy(e) && hi < lo && lo !in {RBRACKET, LBRACKET, HAT, HYPHEN, 0} && hi !in {RBRACKET, 0}
    requires rest != []
    ensures Compile(Print(e) + ([LBRACKET, lo, HYPHEN, hi] + rest), junk) == Result.Err(InvalidRangeEnd)
  {
    hide CompileFrom, Print, Handy, CompileOne;
    var tail := [LBRACKET, lo, HYPHEN, hi] + rest;
    var pat := Print(e) + tail;
    var st := ReadUpTo(e, tail, junk);
    var p := |Print(e)|;
    assert pat[p] == LBRACKET && pat[p + 1] == lo && pat[p + 2] == HYPHEN && pat[p + 3] == hi && p + 4 < |pat|;
    RangeRefused(pat, p, st, junk, lo, hi);
    RefusedHere(pat, p, st, junk, InvalidRangeEnd);
  }

  lemma RangeRefused(pat: seq<Byte>, p: nat, st: CState, junk: seq<Byte>, lo: Byte, hi: Byte)
    requires |junk| == 3 && p + 4 < |pat| && pat[p] == LBRACKET && pat[p + 1] == lo && pat[p + 2] == HYPHEN && pat[p + 3] == hi
    requires hi < lo && lo !in {RBRACKET, LBRACKET, HAT, HYPHEN, 0} && hi !in {RBRACKET, 0} && |st.b| < 32768
    ensures CompileOne(pat, p, st, junk) == Result.Err(InvalidRangeEnd)
  {
  }
}
