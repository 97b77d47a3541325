/**
 regexec: trying one start after the other on one buffer of code, and what the answer means.  The code is
 carried along: each start, and each later search, runs what the ones before have left of it.
 */
module RegexSearch {
  import opened Bytes
  import opened RegexSyntax
  import opened RegexCompile
  import opened RegexTheorems
  import opened RegexMeaning
  import M = RegexMachine
  import RegexCompleteness
  import RegexMatcher

  /** `Gave` is the -2 of the matcher, or commands left over when the fuel ran out. */
  datatype Answer = Found(start: nat, end: nat) | Absent | Gave

  /** An answer, and the code as the search leaves it. */
  datatype Searched = Searched(answer: Answer, code: seq<Byte>)

  function MatchFrom(c: Compiled, text: seq<Byte>, pos: nat, fuel: nat): M.Outcome {
    M.Execute(M.Start(c.code, c.groups, pos), text, fuel)
  }

  function CodeAfter(c: Compiled, text: seq<Byte>, pos: nat, fuel: nat): seq<Byte> {
    M.Left(M.Start(c.code, c.groups, pos), text, fuel)
  }

  /** The starts from `pos` on. */
  function SearchFrom(c: Compiled, text: seq<Byte>, pos: nat, fuel: nat): Searched
    requires pos <= |text| + 1
    decreases |text| + 1 - pos
  {
    if pos > |text| then Searched(Absent, c.code)
    else
      var code := CodeAfter(c, text, pos, fuel);
      match MatchFrom(c, text, pos, fuel)
      case Matched(end) => Searched(Found(pos, end), code)
      case NoMatch => SearchFrom(c.(code := code), text, pos + 1, fuel)
      case _ => Searched(Gave, code)
  }

  /** re_search_2 with one string, no fastmap, from position 0 over the whole text. */
  method Search(buffer: array<Byte>, groups: nat, text: seq<Byte>, fuel: nat) returns (r: Answer)
    modifies buffer
    ensures r == SearchFrom(Compiled(old(buffer[..]), groups), text, 0, fuel).answer
    ensures buffer[..] == SearchFrom(Compiled(old(buffer[..]), groups), text, 0, fuel).code
  {
    hide M.Execute, M.Left;
    ghost var whole := SearchFrom(Compiled(buffer[..], groups), text, 0, fuel);
    var pos := 0;
    while pos <= |text|
      invariant pos <= |text| + 1
      invariant whole == SearchFrom(Compiled(buffer[..], groups), text, pos, fuel)
    {
      var m := new RegexMatcher.Matcher(buffer, groups, text, pos);
      var o := m.MatchAll(fuel);
      match o {
        case Matched(end) => return Found(pos, end);
        case NoMatch => pos := pos + 1;
        case _ => return Gave;
      }
    }
    r := Absent;
  }

  /** One start, on code in use. */
  lemma StartAgain(e: Re, junk: seq<Byte>, code: seq<Byte>, text: seq<Byte>, pos: nat, fuel: nat)
    requires |junk| == 3 && InScope(e) && InUse(e, junk, code)
    ensures var c := CodeOf(e, junk);
            && InUse(e, junk, CodeAfter(c.(code := code), text, pos, fuel))
            && var o := MatchFrom(c.(code := code), text, pos, fuel);
               if MatchFrom(c, text, pos, fuel).Running? then o.Running? else o == MatchFrom(c, text, pos, fuel)
  {
    hide M.Execute, M.Left, Compile, InScope, InUse;
    EarlierMatchesDontMatter(e, junk, code, text, pos, fuel);
  }

  /** Every search leaves code in use, whatever it finds. */
  lemma {:induction false} SearchKeepsInUse(e: Re, junk: seq<Byte>, code: seq<Byte>, text: seq<Byte>, pos: nat, fuel: nat)
    requires |junk| == 3 && InScope(e) && InUse(e, junk, code) && pos <= |text| + 1
    ensures InUse(e, junk, SearchFrom(CodeOf(e, junk).(code := code), text, pos, fuel).code)
    decreases |text| + 1 - pos
  {
    hide MatchFrom, CodeAfter, Compile, InScope, InUse, CodeOf;
    if pos <= |text| {
      StartAgain(e, junk, code, text, pos, fuel);
      SearchKeepsInUse(e, junk, CodeAfter(CodeOf(e, junk).(code := code), text, pos, fuel), text, pos + 1, fuel);
    }
  }

  /** Groups or not: what a search finds is a match of the pattern. */
  lemma {:induction false} FoundIsMatch(e: Re, junk: seq<Byte>, code: seq<Byte>, text: seq<Byte>, pos: nat, fuel: nat)
    requires |junk| == 3 && InScope(e) && InUse(e, junk, code) && pos <= |text| + 1
    ensures var r := SearchFrom(CodeOf(e, junk).(code := code), text, pos, fuel).answer;
            r.Found? ==> pos <= r.start <= |text| && Matches(e, text, r.start, r.end)
    decreases |text| + 1 - pos
  {
    hide M.Execute, M.Left, Compile, InScope, InUse, CodeOf;
    if pos <= |text| {
      MatchIsSound(e, junk, code, text, pos, fuel);
      StartAgain(e, junk, code, text, pos, fuel);
      FoundIsMatch(e, junk, CodeAfter(CodeOf(e, junk).(code := code), text, pos, fuel), text, pos + 1, fuel);
    }
  }

  ghost predicate Enough(c: Compiled, text: seq<Byte>, fuel: nat) {
    forall pos :: 0 <= pos <= |text| ==> fuel >= RegexCompleteness.Bound(c.code, text, pos)
  }

  /** What a search from `pos` on must answer; giving up means that some start meets the stack limit. */
  ghost predicate Leftmost(e: Re, c: Compiled, text: seq<Byte>, pos: nat, fuel: nat, r: Answer) {
    match r
    case Found(start, end) =>
      && pos <= start <= |text| && Matches(e, text, start, end)
      && forall s: nat, t: nat :: pos <= s < start ==> !Matches(e, text, s, t)
    case Absent => forall s: nat, t: nat :: pos <= s <= |text| ==> !Matches(e, text, s, t)
    case Gave => exists s: nat :: pos <= s <= |text| && MatchFrom(c, text, s, fuel) == M.Overflow
  }

  /**
   On a pattern that repeats no group a search is exact, on code that any number of earlier starts have rewritten: it finds the
   leftmost place where the pattern matches, and reports absence only when the pattern matches nowhere.
   */
  lemma {:induction false} SearchIsLeftmost(e: Re, junk: seq<Byte>, code: seq<Byte>, text: seq<Byte>, pos: nat, fuel: nat)
    requires |junk| == 3 && InScope(e) && Flat(e) && AllAllowed(Print(e)) && pos <= |text| + 1
    requires InUse(e, junk, code) && Enough(CodeOf(e, junk), text, fuel)
    ensures Leftmost(e, CodeOf(e, junk), text, pos, fuel, SearchFrom(CodeOf(e, junk).(code := code), text, pos, fuel).answer)
    decreases |text| + 1 - pos
  {
    hide M.Execute, M.Left, Compile, RegexCompleteness.Bound, InScope, InUse, CodeOf, MatchFrom, CodeAfter, Leftmost, Matches;
    var c := CodeOf(e, junk).(code := code);
    if pos > |text| {
      NowhereLeft(e, CodeOf(e, junk), text, pos, fuel);
    } else {
      StartExact(e, junk, code, text, pos, fuel);
      var o := MatchFrom(c, text, pos, fuel);
      if o.Matched? {
        FoundHere(e, CodeOf(e, junk), text, pos, fuel, o.end);
      } else if o.NoMatch? {
        StartAgain(e, junk, code, text, pos, fuel);
        SearchIsLeftmost(e, junk, CodeAfter(c, text, pos, fuel), text, pos + 1, fuel);
        FoundLater(e, CodeOf(e, junk), text, pos, fuel, SearchFrom(c, text, pos, fuel).answer);
      } else {
        GaveHere(e, CodeOf(e, junk), text, pos, fuel);
      }
    }
  }

  /** One start of such a search. */
  lemma StartExact(e: Re, junk: seq<Byte>, code: seq<Byte>, text: seq<Byte>, pos: nat, fuel: nat)
    requires |junk| == 3 && InScope(e) && Flat(e) && AllAllowed(Print(e)) && pos <= |text|
    requires InUse(e, junk, code) && Enough(CodeOf(e, junk), text, fuel)
    ensures var o := MatchFrom(CodeOf(e, junk).(code := code), text, pos, fuel);
            && (o.Matched? ==> Matches(e, text, pos, o.end))
            && (o.NoMatch? ==> forall t: nat :: !Matches(e, text, pos, t))
            && (o.Matched? || o.NoMatch? || (o.Overflow? && MatchFrom(CodeOf(e, junk), text, pos, fuel).Overflow?))
  {
    hide M.Execute, M.Left, Compile, RegexCompleteness.Bound, InScope, InUse, CodeOf, Matches;
    MatchIsComplete(e, junk, code, text, pos, fuel);
    StartAgain(e, junk, code, text, pos, fuel);
  }

  lemma NowhereLeft(e: Re, c: Compiled, text: seq<Byte>, pos: nat, fuel: nat)
    requires pos > |text|
    ensures Leftmost(e, c, text, pos, fuel, Absent)
  {
  }

  lemma FoundHere(e: Re, c: Compiled, text: seq<Byte>, pos: nat, fuel: nat, end: nat)
    requires pos <= |text| && Matches(e, text, pos, end)
    ensures Leftmost(e, c, text, pos, fuel, Found(pos, end))
  {
    hide Matches;
  }

  lemma FoundLater(e: Re, c: Compiled, text: seq<Byte>, pos: nat, fuel: nat, r: Answer)
    requires forall t: nat :: !Matches(e, text, pos, t)
    requires Leftmost(e, c, text, pos + 1, fuel, r)
    ensures Leftmost(e, c, text, pos, fuel, r)
  {
    hide Matches, MatchFrom;
    if r.Gave? {
      var s: nat :| pos + 1 <= s <= |text| && MatchFrom(c, text, s, fuel) == M.Overflow;
    } else {
      var last: nat := if r.Found? then r.start else |text| + 1;
      forall s: nat, t: nat | pos <= s < last ensures !Matches(e, text, s, t) {}
    }
  }

  lemma GaveHere(e: Re, c: Compiled, text: seq<Byte>, pos: nat, fuel: nat)
    requires pos <= |text| && MatchFrom(c, text, pos, fuel) == M.Overflow
    ensures Leftmost(e, c, text, pos, fuel, Gave)
  {
    hide MatchFrom;
  }

  /** One search after the other with the same compiled pattern. */
  function SearchAll(c: Compiled, texts: seq<seq<Byte>>, fuel: nat): seq<Answer>
    decreases |texts|
  {
    if texts == [] then []
    else
      var r := SearchFrom(c, texts[0], 0, fuel);
      [r.answer] + SearchAll(c.(code := r.code), texts[1..], fuel)
  }

  /** A pattern compiled once and searched for any number of times gives the leftmost match every time. */
  lemma {:induction false} EverySearchIsLeftmost(e: Re, junk: seq<Byte>, code: seq<Byte>, texts: seq<seq<Byte>>, fuel: nat)
    requires |junk| == 3 && InScope(e) && Flat(e) && AllAllowed(Print(e)) && InUse(e, junk, code)
    requires forall k | 0 <= k < |texts| :: Enough(CodeOf(e, junk), texts[k], fuel)
    ensures var rs := SearchAll(CodeOf(e, junk).(code := code), texts, fuel);
            |rs| == |texts| && forall k | 0 <= k < |rs| :: Leftmost(e, CodeOf(e, junk), texts[k], 0, fuel, rs[k])
    decreases |texts|
  {
    hide SearchFrom, Compile, InScope, InUse, CodeOf, Enough, Leftmost;
    if texts != [] {
      var r := SearchFrom(CodeOf(e, junk).(code := code), texts[0], 0, fuel);
      SearchIsLeftmost(e, junk, code, texts[0], 0, fuel);
      SearchKeepsInUse(e, junk, code, texts[0], 0, fuel);
      EverySearchIsLeftmost(e, junk, r.code, texts[1..], fuel);
    }
  }
}
