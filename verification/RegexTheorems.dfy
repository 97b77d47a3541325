/** From pattern text to matches: compiler and matcher put together. */
module RegexTheorems {
  import opened Bytes
  import opened RegexSyntax
  import opened RegexCompile
  import opened RegexCompileProof
  import opened RegexMeaning
  import N = RegexNode
  import RegexNfa
  import RegexJumps
  import M = RegexMachine
  import RegexSoundness
  import RegexCompleteness
  import RegexFlow
  import RegexOverflow
  import W = RegexWear

  /** Patterns the theorems are about: short enough for two-byte displacements. */
  predicate InScope(e: Re) { IsPattern(e) && Groups(e) <= 255 && 12 * |Print(e)| < 32768 }

  /** The characters that check_regex lets through in a pattern. */
  predicate AllowedByte(c: Byte) { 32 <= c <= 126 || 9 <= c <= 13 || c == 8 || c == 0x8a }

  predicate AllAllowed(pat: seq<Byte>) { forall k :: 0 <= k < |pat| ==> AllowedByte(pat[k]) }

  /** The code and group count of a pattern in scope. */
  function CodeOf(e: Re, junk: seq<Byte>): Compiled
    requires |junk| == 3
  {
    match Compile(Print(e), junk)
    case Ok(c) => c
    case Err(_) => Compiled([], 0)
  }

  // ----- jumps -----

  /** After all insertions and late fill-ins, every displacement in the compiled pattern leads
      to the start of an instruction or to the end. */
  lemma CompiledJumpsLand(e: Re, junk: seq<Byte>)
    requires |junk| == 3 && InScope(e)
    ensures Compile(Print(e), junk).Ok?
    ensures var code := CodeOf(e, junk).code; RegexJumps.AllLand(code, 0, |code|) && |code| <= 12 * |Print(e)|
  {
    var n := CompileCorrect(e, junk);
    ModelSized(n, e);
    RegexJumps.CodeLands(n);
  }

  lemma ModelSized(n: N.Node, e: Re)
    requires Models(n, e)
    ensures N.Sized(n) && Means(n, e)
  {
  }

  // ----- code that has been run before -----

  /** The code of the pattern, as compiled or as earlier matches have left it. */
  ghost predicate InUse(e: Re, junk: seq<Byte>, code: seq<Byte>)
    requires |junk| == 3
  {
    W.Worn(CodeOf(e, junk).code, code)
  }

  /** Compiled code is in use before its first match. */
  lemma CompiledIsInUse(e: Re, junk: seq<Byte>)
    requires |junk| == 3
    ensures InUse(e, junk, CodeOf(e, junk).code)
  {
    W.FreshIsWorn(CodeOf(e, junk).code);
  }

  /**
   Every match leaves code that is in use again, and on any code in use it ends exactly as on the code just
   compiled: the repeats decided by earlier starts and searches never change an answer, whatever its groups.
   */
  lemma EarlierMatchesDontMatter(e: Re, junk: seq<Byte>, code: seq<Byte>, text: seq<Byte>, pos: nat, fuel: nat)
    requires |junk| == 3 && InScope(e) && InUse(e, junk, code)
    ensures var c := CodeOf(e, junk);
            && InUse(e, junk, M.Left(M.Start(code, c.groups, pos), text, fuel))
            && var first, o := M.Execute(M.Start(c.code, c.groups, pos), text, fuel), M.Execute(M.Start(code, c.groups, pos), text, fuel);
               if first.Running? then o.Running? else o == first
  {
    hide M.Execute, M.Left, Models, Compile, W.Worn;
    var n := CompileCorrect(e, junk);
    ModelSized(n, e);
    W.WearIsInvisible(n, Groups(e), code, text, pos, fuel);
  }

  // ----- soundness -----

  /** Whatever a match reports is text the pattern matches: groups nested in any way, anchors,
      loops left early, saved best matches, and code that earlier matches have rewritten. */
  lemma MatchIsSound(e: Re, junk: seq<Byte>, code: seq<Byte>, text: seq<Byte>, pos: nat, fuel: nat)
    requires |junk| == 3 && InScope(e) && InUse(e, junk, code) && pos <= |text|
    ensures var o := M.Execute(M.Start(code, CodeOf(e, junk).groups, pos), text, fuel);
            o.Matched? ==> Matches(e, text, pos, o.end)
  {
    hide M.Execute, M.Left, Models, Compile, W.Worn;
    var n := CompileCorrect(e, junk);
    ModelSized(n, e);
    RegexSoundness.MatcherSound(n, Groups(e), text, pos, fuel);
    EarlierMatchesDontMatter(e, junk, code, text, pos, fuel);
  }

  // ----- completeness -----

  /** Patterns that check_regex lets through keep every bitmap that is not negated below its
      full length. */
  lemma {:induction false} AllowedIsLimited(e: Re)
    requires AllAllowed(Print(e))
    ensures Limited(e)
    decreases e
  {
    hide AllAllowed, LastByte;
    match e
    case Bracket(_, _, _, _) => AllowedBracket(e);
    case Group(body) =>
      AllowedPart([LPAREN], Print(body), [RPAREN]);
      AllowedIsLimited(body);
    case Repeat(body, ops) =>
      assert [] + Print(body) + ops == Print(e);
      AllowedPart([], Print(body), ops);
      AllowedIsLimited(body);
    case Cat(left, right) =>
      AllowedTwo(Print(left), [], Print(right));
      AllowedIsLimited(left);
      AllowedIsLimited(right);
    case Alt(left, right) =>
      AllowedTwo(Print(left), [BAR], Print(right));
      AllowedIsLimited(left);
      AllowedIsLimited(right);
    case _ =>
  }

  lemma AllowedTwo(a: seq<Byte>, between: seq<Byte>, b: seq<Byte>)
    requires AllAllowed(a + between + b) || (between == [] && AllAllowed(a + b))
    ensures AllAllowed(a) && AllAllowed(b)
  {
    hide AllAllowed;
    assert a + [] + b == a + b;
    assert [] + a + (between + b) == a + between + b == (a + between) + b + [];
    AllowedPart([], a, between + b);
    AllowedPart(a + between, b, []);
  }

  lemma AllowedBracket(e: Re)
    requires e.Bracket? && AllAllowed(Print(e))
    ensures Limited(e)
  {
    hide AllAllowed, LastByte, PrintItems;
    var front := [LBRACKET] + (if e.negated then [HAT] else []) + (if e.closeFirst then [RBRACKET] else []);
    var back := (if e.hyphenLast then [HYPHEN] else []) + [RBRACKET];
    assert Print(e) == front + PrintItems(e.items) + back;
    AllowedPart(front, PrintItems(e.items), back);
    AllowedItems(e.items);
  }

  lemma AllowedPart(a: seq<Byte>, b: seq<Byte>, c: seq<Byte>)
    requires AllAllowed(a + b + c)
    ensures AllAllowed(b)
  {
    forall k | 0 <= k < |b| ensures AllowedByte(b[k]) { assert (a + b + c)[|a| + k] == b[k]; }
  }

  lemma {:induction false} AllowedItems(items: seq<Item>)
    requires AllAllowed(PrintItems(items))
    ensures forall k :: 0 <= k < |items| ==> LastByte(items[k]) < 248
  {
    if items != [] {
      var first := PrintItem(items[0]);
      assert PrintItems(items) == [] + first + PrintItems(items[1..]) == first + PrintItems(items[1..]) + [];
      AllowedPart([], first, PrintItems(items[1..]));
      AllowedPart(first, PrintItems(items[1..]), []);
      AllowedItems(items[1..]);
      assert LastByte(items[0]) == first[|first| - 1];
      assert AllowedByte(first[|first| - 1]);
      forall k | 0 <= k < |items| ensures LastByte(items[k]) < 248 {
        if k > 0 { assert items[k] == items[1..][k - 1]; }
      }
    }
  }

  /**
   On a pattern that repeats no group the matcher halts on any code in use, and unless its failure stack passes the limit
   it reports a match exactly when the pattern matches some text starting at `pos`.
   */
  lemma MatchIsComplete(e: Re, junk: seq<Byte>, code: seq<Byte>, text: seq<Byte>, pos: nat, fuel: nat)
    requires |junk| == 3 && InScope(e) && Flat(e) && AllAllowed(Print(e)) && pos <= |text|
    requires InUse(e, junk, code) && fuel >= RegexCompleteness.Bound(CodeOf(e, junk).code, text, pos)
    ensures var o := M.Execute(M.Start(code, CodeOf(e, junk).groups, pos), text, fuel);
            && (o.Matched? || o.NoMatch? || o.Overflow?)
            && (!o.Overflow? ==> (o.Matched? <==> exists end: nat :: Matches(e, text, pos, end)))
            && (o.Matched? ==> Matches(e, text, pos, o.end))
  {
    hide M.Execute, M.Left, Compile, RegexCompleteness.Bound, W.Worn;
    var n := CompileCorrect(e, junk);
    ModelSized(n, e);
    AllowedIsLimited(e);
    FlatModel(n, e);
    RegexCompleteness.MatcherComplete(n, text, pos, fuel);
    MatchIsSound(e, junk, code, text, pos, fuel);
    EarlierMatchesDontMatter(e, junk, code, text, pos, fuel);
    SameEnds(n, e, text, pos);
  }

  /**
   A match that reaches the end of the text is the one reported.  Otherwise the longest match is reported exactly
   when the run does not end stale: with nothing left to try, at a match longer than the best one saved, which it
   then gives up for that.
   */
  lemma LongestExactly(e: Re, junk: seq<Byte>, code: seq<Byte>, text: seq<Byte>, pos: nat, fuel: nat)
    requires |junk| == 3 && InScope(e) && Flat(e) && AllAllowed(Print(e)) && pos <= |text|
    requires InUse(e, junk, code) && fuel >= RegexCompleteness.Bound(CodeOf(e, junk).code, text, pos)
    ensures var c := CodeOf(e, junk);
            var o := M.Execute(M.Start(code, c.groups, pos), text, fuel);
            && (Matches(e, text, pos, |text|) ==> o.Overflow? || o == M.Matched(|text|))
            && (o.Matched? ==>
                  (NoneLonger(e, text, pos, o.end) <==>
                   !RegexCompleteness.EndsStale(M.Start(c.code, c.groups, pos), text, fuel)))
  {
    hide M.Execute, M.Left, Compile, RegexCompleteness.Bound, W.Worn, RegexCompleteness.EndsStale, Matches, NoneLonger,
      RegexCompleteness.NoneLonger;
    var n := CompileCorrect(e, junk);
    NodeLongest(n, e, text, pos, fuel);
    EarlierMatchesDontMatter(e, junk, code, text, pos, fuel);
  }

  lemma NodeLongest(n: N.Node, e: Re, text: seq<Byte>, pos: nat, fuel: nat)
    requires Models(n, e) && Flat(e) && AllAllowed(Print(e)) && N.Numbered(n, 0) && |N.Code(n)| < 32768 && pos <= |text|
    requires fuel >= RegexCompleteness.Bound(N.Code(n), text, pos)
    ensures var s := M.Start(N.Code(n), Groups(e), pos);
            var o := M.Execute(s, text, fuel);
            && (o.Matched? || o.NoMatch? || o.Overflow?)
            && (Matches(e, text, pos, |text|) ==> o.Overflow? || o == M.Matched(|text|))
            && (o.Matched? ==> (NoneLonger(e, text, pos, o.end) <==> !RegexCompleteness.EndsStale(s, text, fuel)))
  {
    hide M.Execute, RegexCompleteness.Bound, RegexCompleteness.EndsStale, Matches, NoneLonger, RegexCompleteness.NoneLonger, Means,
      N.Accepts;
    AllowedIsLimited(e);
    ModelSized(n, e);
    FlatModel(n, e);
    var o := M.Execute(M.Start(N.Code(n), Groups(e), pos), text, fuel);
    RegexCompleteness.MatcherComplete(n, text, pos, fuel);
    RegexCompleteness.MatcherLongest(n, text, pos, fuel);
    if o.Matched? { SameLongest(n, e, text, pos, o.end); }
    SameEnd(n, e, text, pos, |text|);
    if Matches(e, text, pos, |text|) {
      RegexCompleteness.MatcherReaches(n, text, pos, fuel, |text|);
      RegexSoundness.MatcherSound(n, Groups(e), text, pos, fuel);
      if o.Matched? { N.AcceptsForward(n, text, pos, o.end); }
    }
  }

  /** No text that the pattern matches from `pos` on ends after `last`. */
  ghost predicate NoneLonger(e: Re, text: seq<Byte>, pos: nat, last: nat) {
    forall end: nat :: Matches(e, text, pos, end) ==> end <= last
  }

  lemma SameEnd(n: N.Node, e: Re, text: seq<Byte>, pos: nat, end: nat)
    requires Means(n, e)
    ensures N.Accepts(n, text, pos, end) <==> Matches(e, text, pos, end)
  {
    hide N.Accepts, Matches;
  }

  lemma SameLongest(n: N.Node, e: Re, text: seq<Byte>, pos: nat, last: nat)
    requires Means(n, e)
    ensures RegexCompleteness.NoneLonger(n, text, pos, last) <==> NoneLonger(e, text, pos, last)
  {
    hide N.Accepts, Matches, Means;
    forall end: nat ensures N.Accepts(n, text, pos, end) <==> Matches(e, text, pos, end) {
      SameEnd(n, e, text, pos, end);
    }
  }

  /**
   Without groups, and with at most 2001 commands ahead, the failure stack never meets its limit: a match is
   reported exactly when the pattern matches some text starting at `pos`, and otherwise that there is none.
   */
  lemma ShortMatchIsTotal(e: Re, junk: seq<Byte>, code: seq<Byte>, text: seq<Byte>, pos: nat, fuel: nat)
    requires |junk| == 3 && InScope(e) && Groups(e) == 0 && AllAllowed(Print(e)) && pos <= |text| && InUse(e, junk, code)
    requires RegexCompleteness.Bound(CodeOf(e, junk).code, text, pos) <= 2001
    requires fuel >= RegexCompleteness.Bound(CodeOf(e, junk).code, text, pos)
    ensures var o := M.Execute(M.Start(code, CodeOf(e, junk).groups, pos), text, fuel);
            && (o.Matched? || o.NoMatch?)
            && (o.Matched? <==> exists end: nat :: Matches(e, text, pos, end))
  {
    hide M.Execute, M.Left, Compile, RegexCompleteness.Bound, W.Worn, RegexOverflow.GoesDeep;
    GroupFreeIsFlat(e);
    AllowedIsLimited(e);
    var n := CompileCorrect(e, junk);
    ModelSized(n, e);
    FlatModel(n, e);
    RegexOverflow.GivesUpDeep(n, text, pos, fuel);
    EarlierMatchesDontMatter(e, junk, code, text, pos, fuel);
    MatchIsComplete(e, junk, code, text, pos, fuel);
  }

  lemma {:induction false} GroupFreeIsFlat(e: Re)
    requires Groups(e) == 0
    ensures Flat(e)
  {
    match e
    case Repeat(body, _) => GroupFreeIsFlat(body);
    case Cat(left, right) => GroupFreeIsFlat(left); GroupFreeIsFlat(right);
    case Alt(left, right) => GroupFreeIsFlat(left); GroupFreeIsFlat(right);
    case _ =>
  }

  lemma FlatModel(n: N.Node, e: Re)
    requires Models(n, e) && Flat(e) && Limited(e)
    ensures RegexFlow.Flat(n) && RegexFlow.ShortSets(n) && N.GroupCount(n) == Groups(e)
  {
  }

  lemma SameEnds(n: N.Node, e: Re, text: seq<Byte>, pos: nat)
    requires Means(n, e)
    ensures (exists end: nat :: N.Accepts(n, text, pos, end)) <==> (exists end: nat :: Matches(e, text, pos, end))
  {
    if end: nat :| N.Accepts(n, text, pos, end) { assert Matches(e, text, pos, end); }
    if end: nat :| Matches(e, text, pos, end) { assert N.Accepts(n, text, pos, end); }
  }
}
