/**
 The patterns whose matches are lost: a starred bracket expression that lists one of the last eight
 characters, followed by a character it lists.
 */
module RegexLostMatch {
  import opened Bytes
  import opened RegexSyntax
  import opened RegexCompile
  import opened RegexBrackets
  import opened RegexMeaning
  import opened RegexCompileProof
  import opened RegexTheorems
  import opened RegexFullBitmap
  import Closure
  import N = RegexNode
  import M = RegexMachine

  /** `list`, starred, and then `c`. */
  function Starred(list: Re, c: Byte, escaped: bool): Re {
    Cat(Cat(Empty, Repeat(list, [STAR])), Lit(c, escaped))
  }

  /** A bracket expression that fills its bitmap and lists `c`. */
  predicate Fills(list: Re, c: Byte) {
    && list.Bracket? && !list.negated && WellFormed(list)
    && Listed(list.closeFirst, list.items, list.hyphenLast, c)
    && exists k :: 0 <= k < |list.items| && LastByte(list.items[k]) >= 248
  }

  lemma FullBitmap(list: Re, c: Byte, bits: seq<Byte>)
    requires Fills(list, c) && |bits| <= 32
    requires forall x: Byte :: N.SetHas(bits, x) <==> Lists1(list, x)
    ensures |bits| == 32 && bits[31] != 0 && N.SetHas(bits, c)
  {
    var k :| 0 <= k < |list.items| && LastByte(list.items[k]) >= 248;
    var x := LastByte(list.items[k]);
    assert WellFormedItem(list.items[k]);
    assert Lists(list.items[k], x);
    assert Lists1(list, x);
    assert N.SetHas(bits, x);
    if bits[31] == 0 { ZeroHasNoBits(x % 8); }
  }

  /** The pattern compiles to the code of the example. */
  lemma StarredCompiles(list: Re, c: Byte, escaped: bool, junk: seq<Byte>) returns (bits: seq<Byte>)
    requires |junk| == 3 && Fills(list, c) && WellFormed(Lit(c, escaped)) && InScope(Starred(list, c, escaped))
    ensures |bits| == 32 && bits[31] != 0 && N.SetHas(bits, c)
    ensures CodeOf(Starred(list, c, escaped), junk) == Compiled(N.Code(Example(bits, c)), 0)
  {
    hide Models, N.Code, WellFormed, Reads, Fills, N.SetHas, Lists1, CompileFrom, Repeated, Print;
    var e := Starred(list, c, escaped);
    var pat := Print(e);
    var at, lit := Print(list), Print(Lit(c, escaped));
    FillsForm(list, c);
    StarredText(list, c, escaped);
    LiteralStart(c, escaped);
    BracketByte(pat, 0, FRESH, junk, list);
    var n := BracketCompiles(pat, 0, FRESH, list);
    bits := n.bits;
    FullBitmap(list, c, bits);
    assert [] + N.Code(n) == N.Code(n);
    var s1 := FRESH.(laststart := Some(0), b := N.Code(n));
    GetsOne(pat, junk, 0, FRESH, |at|, s1);
    var s2 := StarState(pat, junk, |at|, s1, n);
    LitByte(pat, |at| + 1, s2, junk, Lit(c, escaped));
    var s3 := LastLiteral(pat, s2, c);
    GetsOne(pat, junk, |at| + 1, s2, |pat|, s3);
    EndOfExample(pat, junk, s3, n, c);
  }

  lemma FillsForm(list: Re, c: Byte)
    requires Fills(list, c)
    ensures list.Bracket? && !list.negated && WellFormed(list)
  {
  }

  lemma LiteralStart(c: Byte, escaped: bool)
    requires WellFormed(Lit(c, escaped))
    ensures !Closure.IsOp(if escaped then BACKSLASH else c)
  {
  }

  /** What stands where in the pattern. */
  lemma StarredText(list: Re, c: Byte, escaped: bool)
    requires list.Bracket?
    ensures var pat := Print(Starred(list, c, escaped));
            var n, k := |Print(list)|, |Print(Lit(c, escaped))|;
            && |pat| == n + 1 + k && k > 0 && Reads(pat, 0, Print(list)) && Reads(pat, n, [STAR])
            && Reads(pat, n + 1, Print(Lit(c, escaped))) && Peek(pat, n) == STAR && Peek(pat, |pat|) == 0
            && pat[n + 1] == if escaped then BACKSLASH else c
  {
    var a, lit := Print(list), Print(Lit(c, escaped));
    assert lit == if escaped then [BACKSLASH, c] else [c];
    var pat := Print(Starred(list, c, escaped));
    assert Print(Repeat(list, [STAR])) == a + [STAR];
    assert Print(Cat(Empty, Repeat(list, [STAR]))) == [] + (a + [STAR]);
    assert pat == a + [STAR] + lit;
    hide Print;
    assert pat[0..|a|] == a;
    assert pat[|a|..|a| + 1] == [STAR];
    var front := a + [STAR];
    assert pat == front + lit && |front| == |a| + 1;
    assert pat[|front|..] == lit && pat[|front|..|front| + |lit|] == pat[|front|..];
    assert pat[|front|] == lit[0];
  }

  lemma StarState(pat: seq<Byte>, junk: seq<Byte>, p: nat, st: CState, n: N.Node) returns (st': CState)
    requires |junk| == 3 && p + 1 < |pat| && pat[p] == STAR && !Closure.IsOp(pat[p + 1])
    requires st.laststart == Some(0) && st.b == N.Code(n) && |N.Code(n)| <= 34
    ensures Gets(pat, junk, p, st, p + 1, st')
    ensures st' == st.(b := N.Code(N.Star(n)), pending := None) && |st'.b| <= 43
  {
    hide N.Code, Repeated;
    var ops := pat[p..p + 1];
    assert ops == [STAR];
    assert Closure.ZeroOk(ops) && Closure.ManyOk(ops) by { assert ops[0] == 42; }
    assert [] + N.Code(n) == N.Code(n) && [] + N.Code(N.Star(n)) == N.Code(N.Star(n));
    RepeatedCode([], n, true, true);
    st' := st.(b := N.Code(N.Star(n)), pending := None);
    assert RepeatOp(st, pat, p + 1) == Result.Ok(Place(p + 1, st'));
    GetsOne(pat, junk, p, st, p + 1, st');
  }

  lemma LastLiteral(pat: seq<Byte>, st: CState, c: Byte) returns (st': CState)
    requires st.pending == None && |st.b| <= 64
    ensures NormalChar(st, pat, |pat|, c) == Result.Ok(Place(|pat|, st'))
    ensures st' == st.(laststart := Some(|st.b|), pending := Some(|st.b| + 1), b := st.b + [N.EXACTN, 1, c])
  {
    st' := st.(laststart := Some(|st.b|), pending := Some(|st.b| + 1), b := st.b + [N.EXACTN, 1, c]);
  }

  lemma EndOfExample(pat: seq<Byte>, junk: seq<Byte>, st: CState, n: N.Node, c: Byte)
    requires |junk| == 3 && n.Set? && !n.negated
    requires st.b == N.Code(N.Star(n)) + [N.EXACTN, 1, c] && st.fixup == None && st.opens == [] && st.regnum == 0
    ensures CompileFrom(pat, |pat|, st, junk) == Result.Ok(Compiled(N.Code(Example(n.bits, c)), 0))
  {
    RunOfOne(c);
    hide N.Code;
    CatCode(N.Star(n), N.Run([c]));
    assert Example(n.bits, c) == N.Cat(N.Star(n), N.Run([c]));
  }

  lemma RunOfOne(c: Byte)
    ensures N.Code(N.Run([c])) == [N.EXACTN, 1, c]
  {
  }

  lemma StarredMatches(list: Re, c: Byte, escaped: bool)
    requires Fills(list, c)
    ensures Matches(Starred(list, c, escaped), [c], 0, 1)
  {
    var r := (x: nat, y: nat) => Matches(list, [c], x, y);
    assert Closure.Repeat(r, [STAR])(0, 0);
    assert Matches(Repeat(list, [STAR]), [c], 0, 0);
    assert Matches(Empty, [c], 0, 0);
    assert Matches(Cat(Empty, Repeat(list, [STAR])), [c], 0, 0);
    assert Matches(Lit(c, escaped), [c], 0, 1);
  }

  /**
   Every starred bracket expression that lists one of the last eight characters, followed by any character it
   lists, matches that character alone, and the compiled code reports no match for it.
   */
  lemma PatternLosesMatch(list: Re, c: Byte, escaped: bool, junk: seq<Byte>)
    requires |junk| == 3 && Fills(list, c) && WellFormed(Lit(c, escaped)) && InScope(Starred(list, c, escaped))
    ensures Matches(Starred(list, c, escaped), [c], 0, 1)
    ensures var compiled := CodeOf(Starred(list, c, escaped), junk);
            M.Execute(M.Start(compiled.code, compiled.groups, 0), [c], 6) == M.NoMatch
  {
    hide Matches, Compile, M.Execute, N.Code;
    StarredMatches(list, c, escaped);
    var bits := StarredCompiles(list, c, escaped, junk);
    FullBitmapLosesMatch(bits, c);
  }

  /** There is such a pattern for every character that can start a range and needs no backslash: `[c-\xff]*c`. */
  lemma EveryLetterLosesMatch(c: Byte, junk: seq<Byte>)
    requires |junk| == 3 && !IsSpecial(c) && c != RBRACKET
    ensures var e := Starred(Bracket(false, false, [Range(c, 255)], false), c, false);
            && Print(e) == [LBRACKET, c, HYPHEN, 255, RBRACKET, STAR, c]
            && InScope(e) && Matches(e, [c], 0, 1)
            && var compiled := CodeOf(e, junk);
               M.Execute(M.Start(compiled.code, compiled.groups, 0), [c], 6) == M.NoMatch
  {
    hide M.Execute, Compile, Matches;
    var items := [Range(c, 255)];
    var list := Bracket(false, false, items, false);
    assert items[1..] == [] && PrintItems([]) == [];
    assert PrintItems(items) == [c, HYPHEN, 255];
    assert Print(list) == [LBRACKET, c, HYPHEN, 255, RBRACKET];
    assert Print(Repeat(list, [STAR])) == Print(list) + [STAR];
    assert LastByte(items[0]) >= 248 && Lists(items[0], c);
    assert WellFormedItem(items[0]) && WellFormedItems(items);
    assert WellFormed(list);
    assert [STAR][0] == 42;
    assert WellFormed(Repeat(list, [STAR]));
    assert WellFormed(Lit(c, false));
    assert WellFormed(Cat(Empty, Repeat(list, [STAR])));
    assert WellFormed(Starred(list, c, false));
    assert Groups(Repeat(list, [STAR])) == 0;
    assert Groups(Cat(Empty, Repeat(list, [STAR]))) == 0;
    assert Print(Cat(Empty, Repeat(list, [STAR]))) == [] + (Print(list) + [STAR]);
    assert Print(Starred(list, c, false)) == Print(list) + [STAR] + [c];
    assert Groups(Starred(list, c, false)) == 0;
    assert InScope(Starred(list, c, false));
    assert Listed(false, items, false, c);
    PatternLosesMatch(list, c, false, junk);
  }
}
