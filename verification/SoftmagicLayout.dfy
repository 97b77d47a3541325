/** Where separators and blanks stand between the descriptions that are printed. */
module SoftmagicLayout {
  import opened Bytes
  import opened SoftmagicEntry
  import opened SoftmagicScan
  import opened SoftmagicTree
  import opened SoftmagicOrder
  import opened SoftmagicHeads
  import opened SoftmagicActivation

  /** What is printed, without the values in it. */
  datatype Mark = Apart | Blank | Text(m: Entry) | Note(m: Entry)

  function MarkOf(e: Event): seq<Mark> {
    match e
    case Separator => [Apart]
    case Space => [Blank]
    case Described(m, _) => [Text(m)]
    case Annotation(m) => [Note(m)]
    case _ => []
  }

  function Outline(out: seq<Event>): seq<Mark> {
    if out == [] then [] else MarkOf(out[0]) + Outline(out[1..])
  }

  lemma {:induction false} OutlineConcat(a: seq<Event>, b: seq<Event>)
    ensures Outline(a + b) == Outline(a) + Outline(b)
  {
    hide MarkOf;
    if a == [] {
      assert a + b == b;
    } else {
      OutlineConcat(a[1..], b);
      assert (a + b)[1..] == a[1..] + b && (a + b)[0] == a[0];
      Grouped(MarkOf(a[0]), Outline(a[1..]), Outline(b));
    }
  }

  /**
   * Descriptions run on: each after a blank, unless it asks for none or nothing was printed before it, and the
   * first of a further match set apart from the match before.
   */
  function RunOn(ms: seq<Entry>, printed: bool, sep: bool, first: bool): seq<Mark> {
    if ms == [] then []
    else
      (if !printed && !first then [Apart] else []) + (if sep && !ms[0].noSpace then [Blank] else []) + [Text(ms[0])]
      + RunOn(ms[1..], true, true, first)
  }

  lemma {:induction false} RunOnConcat(a: seq<Entry>, b: seq<Entry>, printed: bool, sep: bool, first: bool)
    ensures RunOn(a + b, printed, sep, first)
            == RunOn(a, printed, sep, first) + RunOn(b, printed || a != [], sep || a != [], first)
  {
    if a == [] {
      assert a + b == b;
    } else {
      RunOnConcat(a[1..], b, true, true, first);
      assert (a + b)[1..] == a[1..] + b && (a + b)[0] == a[0];
      var lead := (if !printed && !first then [Apart] else []) + (if sep && !a[0].noSpace then [Blank] else []) + [Text(a[0])];
      Grouped(lead, RunOn(a[1..], true, true, first), RunOn(b, true, true, first));
    }
  }

  lemma Grouped(a: seq<Mark>, b: seq<Mark>, c: seq<Mark>)
    ensures a + (b + c) == (a + b) + c
  {
  }

  /** What was printed from one state to another. */
  predicate Adds(s: Core, t: Core, marks: seq<Mark>) { s.out <= t.out && Outline(t.out[|s.out|..]) == marks }

  lemma AddsTwo(s: Core, t: Core, u: Core, a: seq<Mark>, b: seq<Mark>)
    requires Adds(s, t, a) && Adds(t, u, b)
    ensures Adds(s, u, a + b)
  {
    hide Outline;
    assert u.out[|s.out|..] == t.out[|s.out|..] + u.out[|t.out|..];
    OutlineConcat(t.out[|s.out|..], u.out[|t.out|..]);
  }

  lemma AddsNothing(s: Core, t: Core)
    requires s.out == t.out
    ensures Adds(s, t, [])
  {
    assert t.out[|s.out|..] == [];
  }

  /** The descriptions `ms` were printed one after the other. */
  predicate Prints(s: Core, t: Core, ms: seq<Entry>) {
    && Adds(s, t, RunOn(ms, s.printed, s.sep, s.first))
    && t.printed == (s.printed || ms != []) && t.sep == (s.sep || ms != []) && t.first == s.first
  }

  lemma PrintsTwo(s: Core, t: Core, u: Core, a: seq<Entry>, b: seq<Entry>)
    requires Prints(s, t, a) && Prints(t, u, b)
    ensures Prints(s, u, a + b)
  {
    hide RunOn, Adds;
    RunOnConcat(a, b, s.printed, s.sep, s.first);
    AddsTwo(s, t, u, RunOn(a, s.printed, s.sep, s.first), RunOn(b, t.printed, t.sep, t.first));
  }

  lemma PrintsNothing(s: Core, t: Core)
    requires t.out == s.out && t.printed == s.printed && t.sep == s.sep && t.first == s.first
    ensures Prints(s, t, [])
  {
    AddsNothing(s, t);
  }

  /** Two states print alike. */
  predicate SamePrint(s: Core, t: Core) {
    t.out == s.out && t.printed == s.printed && t.sep == s.sep && t.first == s.first
  }

  lemma PlaceSame(c: Call, m: Entry, level: nat, s: Core)
    requires Place(c, m, level, s).Placed?
    ensures SamePrint(s, Place(c, m, level, s).core)
  {
  }

  lemma ValueSame(env: Env, c: Call, m: Entry, level: nat, parent: int, s: Core)
    requires Within(env, s) && Quiet(m)
    ensures SamePrint(s, Value(env, c, m, level, parent, s).core)
  {
  }

  lemma OneMark(m: Entry, v: View)
    ensures Outline([]) == [] && Outline([Separator]) == [Apart] && Outline([Space]) == [Blank]
    ensures Outline([Described(m, v)]) == [Text(m)] && Outline([Annotation(m)]) == [Note(m)]
  {
    assert [Separator][1..] == [] && [Space][1..] == [] && [Described(m, v)][1..] == [] && [Annotation(m)][1..] == [];
  }

  lemma OneRuns(m: Entry, printed: bool, sep: bool, first: bool)
    ensures RunOn([m], printed, sep, first)
            == (if !printed && !first then [Apart] else []) + (if sep && !m.noSpace then [Blank] else []) + [Text(m)]
  {
    assert RunOn([], true, true, first) == [] && [m][1..] == [];
  }

  lemma OneText(env: Env, m: Entry)
    ensures WithText(env, [m]) == if m.described && !env.flags.noDesc then [m] else []
  {
    assert [m][1..] == [] && WithText(env, []) == [];
  }

  lemma AnnounceMoreLays(env: Env, m: Entry, v: View, s: Core)
    ensures Prints(s, AnnounceMore(env, m, v, s), WithText(env, [m]))
  {
    hide Outline, RunOn, WithText;
    OneText(env, m);
    if m.described && !env.flags.noDesc {
      var lead := if !s.printed && !s.first then [Separator] else [];
      var gap := if s.sep && !m.noSpace then [Space] else [];
      var t := AnnounceMore(env, m, v, s);
      assert t.out[|s.out|..] == lead + gap + [Described(m, v)];
      OutlineConcat(lead + gap, [Described(m, v)]);
      OutlineConcat(lead, gap);
      OneMark(m, v);
      OneRuns(m, s.printed, s.sep, s.first);
    } else {
      PrintsNothing(s, AnnounceMore(env, m, v, s));
    }
  }

  lemma TestLays(env: Env, c: Call, m: Entry, parent: int, sib: Sibling, s: Core)
    requires Within(env, s) && Quiet(m) && !m.kind.Indirect?
    ensures var t := Test(env, c, m, parent, sib, s);
            (t.Tested? && t.verdict.Leave?)
            || Prints(s, t.core, WithText(env, if t.Tested? && HadEffect(t.verdict) then [m] else []))
  {
    hide Value, Place, Annotate, AnnounceMore, Checked, Annotated, WithText, ViewOf, Prints;
    PrintsNothing(s, s);
    NothingSub(env, []);
    if Place(c, m, m.level, s).Placed? {
      PlaceKeepsCounts(env, c, m, m.level, s);
      PlaceSame(c, m, m.level, s);
      var s2 := Shifted(c, m, parent, s);
      PrintsNothing(s, s2);
      ValueSame(env, c, m, m.level, parent, s2);
      var t := Value(env, c, m, m.level, parent, s2).core;
      PrintsNothing(s, t);
      AnnounceMoreLays(env, m, ViewOf(c, t, m.level, parent), t);
      PrintsFrom(s, t, AnnounceMore(env, m, ViewOf(c, t, m.level, parent), t), WithText(env, [m]));
    }
  }

  lemma PrintsFrom(s: Core, t: Core, u: Core, ms: seq<Entry>)
    requires SamePrint(s, t) && Prints(t, u, ms)
    ensures Prints(s, u, ms)
  {
    hide RunOn, Outline;
  }

  /** Going on from `t`, in a walk that is not left. */
  lemma PrintsOn(s: Core, t: Core, w: Walked, a: seq<Entry>, b: seq<Entry>)
    requires Prints(s, t, a) && (w.Quit? || Prints(t, w.core, b))
    ensures w.Quit? || Prints(s, w.core, a + b)
    ensures [] + b == b && a + [] == a
  {
    hide Prints;
    if !w.Quit? { PrintsTwo(s, t, w.core, a, b); }
  }

  /** In a group that is not left the descriptions of the entries acted on run on from what was printed before. */
  lemma {:induction false} GroupLays(env: Env, c: Call, ts: seq<Tree>, level: nat, parent: int, sib: Sibling, s: Core)
    requires Within(env, s) && AllQuiet(Flatten(ts)) && Plain(Flatten(ts))
    ensures var w := Group(env, c, ts, level, parent, sib, s);
            w.Quit? || Prints(s, w.core, WithText(env, ActedOn(env, c, ts, level, parent, sib, s)))
    decreases ts, 0
  {
    hide Test, Group, AllQuiet, Flatten, WithText, ActedOn, Prints, Plain;
    NothingSub(env, []);
    PrintsNothing(s, s);
    if ts == [] {
      GroupNone(env, c, level, parent, sib, s);
      ActedNone(env, c, level, parent, sib, s);
    } else {
      var m, kids, more := ts[0].m, ts[0].kids, ts[1..];
      QuietParts(ts);
      PlainTree(ts);
      assert ts == [Node(m, kids)] + more;
      GroupStep(env, c, Node(m, kids), more, level, parent, sib, s);
      ActedStep(env, c, Node(m, kids), more, level, parent, sib, s);
      if m.level > level {
        GroupLays(env, c, more, level, parent, sib, s);
      } else {
        TestLays(env, c, m, parent, sib, s);
        match Test(env, c, m, parent, sib, s)
        case Unplaced(s1) => GroupOn(env, c, more, level, parent, sib, s, s1, []);
        case Abandoned(_) =>
        case Tested(s1, sib1, v) =>
          match v
          case Leave(_) =>
          case NoEnd => GroupOn(env, c, more, level, parent, FRESH, s, s1, [m]);
          case Deeper(end) =>
            GroupOn(env, c, kids, level + 1, end, FRESH, s, s1, [m]);
            var w := Group(env, c, kids, level + 1, end, FRESH, s1);
            var acted := [m] + ActedOn(env, c, kids, level + 1, end, FRESH, s1);
            if w.Through? {
              GroupOn(env, c, more, level, parent, sib1, s, w.core, acted);
            } else {
              assert acted + [] == acted;
            }
          case _ => GroupOn(env, c, more, level, parent, sib1, s, s1, []);
      }
    }
  }

  lemma {:induction false} GroupOn(env: Env, c: Call, ts: seq<Tree>, level: nat, parent: int, sib: Sibling, s: Core, t: Core,
                                   acted: seq<Entry>)
    requires Within(env, t) && AllQuiet(Flatten(ts)) && Plain(Flatten(ts)) && Prints(s, t, WithText(env, acted))
    ensures var w, deep := Group(env, c, ts, level, parent, sib, t), ActedOn(env, c, ts, level, parent, sib, t);
            (w.Quit? || Prints(s, w.core, WithText(env, acted + deep))) && [] + deep == deep
    decreases ts, 1
  {
    hide Group, AllQuiet, Flatten, WithText, ActedOn, Prints, Plain;
    GroupLays(env, c, ts, level, parent, sib, t);
    var w, deep := Group(env, c, ts, level, parent, sib, t), ActedOn(env, c, ts, level, parent, sib, t);
    PrintsOn(s, t, w, WithText(env, acted), WithText(env, deep));
    WithTextConcat(env, acted, deep);
  }

  /** The marks of a head: set apart unless it is the first thing printed. */
  function HeadMarks(m: Entry, first: bool): seq<Mark> { (if first then [] else [Apart]) + [Text(m)] }

  predicate HasText(env: Env, m: Entry) { m.described && !env.flags.noDesc }

  lemma AnnounceLays(env: Env, m: Entry, v: View, s: Core)
    ensures var t := Announce(env, m, v, s);
            if HasText(env, m) then Adds(s, t, HeadMarks(m, s.first)) && t.printed && t.sep && t.first == s.first
            else SamePrint(s, t)
  {
    if HasText(env, m) {
      var lead := if s.first then [] else [Separator];
      assert Announce(env, m, v, s).out[|s.out|..] == lead + [Described(m, v)];
      OutlineConcat(lead, [Described(m, v)]);
    }
  }

  /** A head, if its test passes, prints its description set apart; as an annotation, its note, and only once. */
  lemma HeadLays(env: Env, c: Call, m: Entry, s: Core)
    requires Within(env, s) && Quiet(m) && !m.kind.Indirect?
    ensures var t := Open(env, c, m, s).core;
            if HeadPasses(env, c, m, s) && Annotated(env, m) then
              Adds(s, t, if s.first then [Note(m)] else if env.flags.more then [Apart, Note(m)] else [])
            else if HeadActs(env, c, m, s) && HasText(env, m) then
              Adds(s, t, HeadMarks(m, s.first)) && t.printed && t.sep && t.first == s.first
            else SamePrint(s, t)
  {
    hide Value, Place, Annotate, Announce, Checked, Annotated, ViewOf, Passes, Breaks, Skipped, Adds, HeadMarks;
    if HeadAsked(c, m, s) {
      PlaceKeepsCounts(env, c, m, 0, s);
      PlaceSame(c, m, 0, s);
      var s1 := Place(c, m, 0, s).core;
      ValueSame(env, c, m, 0, 0, s1);
      var t := Value(env, c, m, 0, 0, s1).core;
      if Running(env, s) { ValueDecides(env, c, m, 0, 0, s1); } else { StoppedValue(env, c, m, 0, 0, s1); }
      AnnounceLays(env, m, ViewOf(c, t, 0, 0), t);
      AnnotateLays(env, m, t);
      var marks := HeadMarks(m, s.first);
      SameAdds(s, t, Announce(env, m, ViewOf(c, t, 0, 0), t), marks);
      SameAdds(s, t, Annotate(env, m, t), if s.first then [Note(m)] else if env.flags.more then [Apart, Note(m)] else []);
    }
  }

  lemma SameAdds(s: Core, t: Core, u: Core, marks: seq<Mark>)
    requires SamePrint(s, t)
    ensures Adds(t, u, marks) ==> Adds(s, u, marks)
  {
  }

  lemma AnnotateLays(env: Env, m: Entry, s: Core)
    ensures Adds(s, Annotate(env, m, s), if s.first then [Note(m)] else if env.flags.more then [Apart, Note(m)] else [])
  {
    var t := Annotate(env, m, s);
    if s.first {
      assert t.out[|s.out|..] == [Annotation(m)];
      assert [Annotation(m)][1..] == [];
    } else if env.flags.more {
      assert t.out[|s.out|..] == [Separator, Annotation(m)];
      OutlineConcat([Separator], [Annotation(m)]);
      assert [Separator] + [Annotation(m)] == [Separator, Annotation(m)];
    } else {
      AddsNothing(s, t);
    }
  }

  /**
   * What a rule prints when the activation is not left in it: the description of its head, set apart from an
   * earlier match, and then those of the continuations, running on.
   */
  lemma RuleLays(env: Env, c: Call, es: seq<Entry>, s: Core)
    requires Within(env, s) && es != [] && AllQuiet(es) && Plain(es) && !First(env, c, es, s).0.how.Closed?
    ensures var (q, t) := First(env, c, es, s);
            var own: nat := if HeadActs(env, c, es[0], s) then 1 else 0;
            && own <= |q.acted|
            && var more := WithText(env, q.acted[own..]);
               Adds(s, t, if own == 1 && HasText(env, es[0]) then HeadMarks(es[0], s.first) + RunOn(more, true, true, s.first)
                          else RunOn(more, s.printed, s.sep, s.first))
  {
    hide Open, Group, Conts, Parse, HeadActs, ActedOn, WithText, AllQuiet, Plain, FinishRule, Flatten, Quiet, Adds, RunOn, HeadMarks,
      HeadPasses;
    var n := Conts(es[1..]);
    RuleParts(es, n);
    HeadLays(env, c, es[0], s);
    HeadMatched(env, c, es[0], s);
    HeadExactly(env, c, es[0], s);
    NothingSub(env, []);
    NothingRuns(s);
    var o := Open(env, c, es[0], s);
    if o.Matched? {
      FlattenParse(es[1..1 + n]);
      var kids := Parse(es[1..1 + n]);
      var w := Group(env, c, kids, 1, o.end, FRESH, o.core);
      var acted := ActedOn(env, c, kids, 1, o.end, FRESH, o.core);
      GroupLays(env, c, kids, 1, o.end, FRESH, o.core);
      FinishKeeps(env, w.core);
      assert ([es[0]] + acted)[1..] == acted;
      var more := RunOn(WithText(env, acted), o.core.printed, o.core.sep, o.core.first);
      if HasText(env, es[0]) {
        AddsTwo(s, o.core, w.core, HeadMarks(es[0], s.first), more);
      } else {
        SameAdds(s, o.core, w.core, more);
      }
      LaterAdds(s, w.core, if w.Through? then FinishRule(env, w.core).core else w.core);
    } else {
      assert [es[0]][1..] == [];
      HeadAlone(s, o.core, es[0]);
    }
  }

  lemma LaterAdds(s: Core, t: Core, u: Core)
    requires u.out == t.out
    ensures forall marks :: Adds(s, t, marks) ==> Adds(s, u, marks)
  {
  }

  lemma NothingRuns(s: Core)
    ensures forall printed, sep, first :: RunOn([], printed, sep, first) == []
  {
  }

  lemma HeadAlone(s: Core, t: Core, m: Entry)
    ensures SamePrint(s, t) ==> Adds(s, t, [])
    ensures HeadMarks(m, s.first) + [] == HeadMarks(m, s.first)
  {
    if SamePrint(s, t) { AddsNothing(s, t); }
  }
}
