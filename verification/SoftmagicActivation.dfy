/** What a whole activation prints, when it ends, and what it answers. */
module SoftmagicActivation {
  import opened Bytes
  import opened SoftmagicEntry
  import opened SoftmagicScan
  import opened SoftmagicTree
  import opened SoftmagicOrder
  import opened SoftmagicHeads

  /**
   * What became of one rule: it was not entered, its continuations were cut short, they were all gone through,
   * or the activation ended inside it.
   */
  datatype How = NotEntered | CutShort | Done | Closed(code: int)

  /** One rule taken up: the entries of it that were acted on, what became of it, and the entries not yet looked at. */
  datatype Round = Round(acted: seq<Entry>, how: How, rest: seq<Entry>)

  /** A head acted on: its test passes and it is no annotation, wherever its end may lie. */
  ghost predicate HeadActs(env: Env, c: Call, m: Entry, s: Core)
    requires Within(env, s)
  {
    HeadPasses(env, c, m, s) && !Annotated(env, m)
  }

  /** The first rule of `es`, and the state in which the next one is taken up. */
  ghost function First(env: Env, c: Call, es: seq<Entry>, s: Core): (r: (Round, Core))
    requires Within(env, s) && es != []
    ensures SameCounts(s, r.1)
    ensures |r.0.rest| < |es|
  {
    var n := Conts(es[1..]);
    var own, rest := if HeadActs(env, c, es[0], s) then [es[0]] else [], es[1 + n..];
    match Open(env, c, es[0], s)
    case NotTried(t) => (Round(own, NotEntered, rest), t)
    case NextLine(t) => (Round(own, NotEntered, es[1..]), t)
    case Over(t, code) => (Round(own, Closed(code), rest), t)
    case Matched(t, end) =>
      var kids := Parse(es[1..1 + n]);
      var acted := own + ActedOn(env, c, kids, 1, end, FRESH, t);
      match Group(env, c, kids, 1, end, FRESH, t)
      case Quit(t1, code) => (Round(acted, Closed(code), rest), t1)
      case Jumped(t1) => (Round(acted, CutShort, rest), t1)
      case Through(t1) => (Round(acted, Done, rest), FinishRule(env, t1).core)
  }

  /** The activation is not over with this rule, which leaves the state `t`. */
  predicate GoesOn(env: Env, q: Round, t: Core) {
    !q.how.Closed? && (q.how.Done? && !env.flags.more ==> !t.found)
  }

  /** The rules of an activation as they are taken up. */
  ghost function Rounds(env: Env, c: Call, es: seq<Entry>, s: Core): seq<Round>
    requires Within(env, s)
    decreases |es|
  {
    if es == [] then []
    else
      var (q, t) := First(env, c, es, s);
      [q] + if GoesOn(env, q, t) then Rounds(env, c, q.rest, t) else []
  }

  lemma RulesFromStep(env: Env, c: Call, es: seq<Entry>, s: Core)
    requires Within(env, s) && es != []
    ensures var (q, t) := First(env, c, es, s);
            RulesFrom(env, c, es, s) ==
            if GoesOn(env, q, t) then RulesFrom(env, c, q.rest, t)
            else (t, if q.how.Closed? then q.how.code else Back(t))
  {
    hide Open, Group, Conts, Parse, HeadActs, ActedOn;
  }

  lemma RoundsStep(env: Env, c: Call, es: seq<Entry>, s: Core)
    requires Within(env, s) && es != []
    ensures var (q, t) := First(env, c, es, s);
            Rounds(env, c, es, s) == [q] + if GoesOn(env, q, t) then Rounds(env, c, q.rest, t) else []
    ensures (Rounds(env, c, First(env, c, es, s).0.rest, First(env, c, es, s).1) == []) ==
            (First(env, c, es, s).0.rest == [])
  {
    hide First, GoesOn;
  }

  function AllActed(qs: seq<Round>): seq<Entry> {
    if qs == [] then [] else qs[0].acted + AllActed(qs[1..])
  }

  /** Some entry has a description, printed or not. */
  predicate Told(es: seq<Entry>) { exists m | m in es :: m.described }

  // ----- the flags that say that something was found, and printed -----

  /** From `s` to `t`, the entries of `acted` were acted on. */
  predicate Tracks(env: Env, s: Core, t: Core, acted: seq<Entry>) {
    && t.found == (s.found || Told(acted))
    && t.ret == (s.ret || WithText(env, acted) != [])
  }

  lemma TracksNothing(env: Env, s: Core)
    ensures Tracks(env, s, s, [])
  {
  }

  lemma TracksTwo(env: Env, s: Core, t: Core, u: Core, a: seq<Entry>, b: seq<Entry>)
    requires Tracks(env, s, t, a) && Tracks(env, t, u, b)
    ensures Tracks(env, s, u, a + b)
  {
    WithTextConcat(env, a, b);
    hide WithText;
    forall m ensures m in a + b <==> m in a || m in b {}
  }

  lemma AnnounceTracks(env: Env, m: Entry, v: View, s: Core)
    ensures Tracks(env, s, Announce(env, m, v, s), [m])
    ensures Tracks(env, s, AnnounceMore(env, m, v, s), [m])
  {
    assert WithText(env, [m]) == if m.described && !env.flags.noDesc then [m] else [];
  }

  lemma ValueTracks(env: Env, c: Call, m: Entry, level: nat, parent: int, s: Core)
    requires Within(env, s) && Quiet(m)
    ensures var t := Value(env, c, m, level, parent, s).core; t.found == s.found && t.ret == s.ret
  {
  }

  lemma TestTracks(env: Env, c: Call, m: Entry, parent: int, sib: Sibling, s: Core)
    requires Within(env, s) && Quiet(m) && !m.kind.Indirect?
    ensures var t := Test(env, c, m, parent, sib, s);
            (t.Tested? && t.verdict.Leave?) || Tracks(env, s, t.core, if t.Tested? && HadEffect(t.verdict) then [m] else [])
  {
    hide Value, Place, Annotate, AnnounceMore, Checked, Annotated, Told, WithText, ViewOf;
    TracksNothing(env, s);
    if Place(c, m, m.level, s).Placed? {
      PlaceKeepsCounts(env, c, m, m.level, s);
      var s2 := Shifted(c, m, parent, s);
      ValueTracks(env, c, m, m.level, parent, s2);
      var t := Value(env, c, m, m.level, parent, s2).core;
      AnnounceTracks(env, m, ViewOf(c, t, m.level, parent), t);
    }
  }

  lemma HeadTracks(env: Env, c: Call, m: Entry, s: Core)
    requires Within(env, s) && Quiet(m) && !m.kind.Indirect?
    ensures var o := Open(env, c, m, s);
            o.Over? || Tracks(env, s, o.core, if HeadActs(env, c, m, s) then [m] else [])
  {
    hide Value, Place, Annotate, Announce, Checked, Annotated, Told, WithText, ViewOf, Passes, Breaks, Skipped;
    TracksNothing(env, s);
    if HeadAsked(c, m, s) {
      PlaceKeepsCounts(env, c, m, 0, s);
      var s1 := Place(c, m, 0, s).core;
      ValueTracks(env, c, m, 0, 0, s1);
      var t := Value(env, c, m, 0, 0, s1).core;
      AnnounceTracks(env, m, ViewOf(c, t, 0, 0), t);
      if Running(env, s) { ValueDecides(env, c, m, 0, 0, s1); } else { StoppedValue(env, c, m, 0, 0, s1); }
    }
  }

  /** A group that is not left marks what was found and printed in it. */
  lemma {:induction false} GroupTracks(env: Env, c: Call, ts: seq<Tree>, level: nat, parent: int, sib: Sibling, s: Core)
    requires Within(env, s) && AllQuiet(Flatten(ts)) && Plain(Flatten(ts))
    ensures var w := Group(env, c, ts, level, parent, sib, s);
            w.Quit? || Tracks(env, s, w.core, ActedOn(env, c, ts, level, parent, sib, s))
    decreases ts
  {
    hide Test, Group, AllQuiet, Flatten, WithText, ActedOn, Tracks, Plain;
    if ts == [] {
      GroupNone(env, c, level, parent, sib, s);
      ActedNone(env, c, level, parent, sib, s);
      TracksNothing(env, s);
    } else {
      var m, kids, more := ts[0].m, ts[0].kids, ts[1..];
      QuietParts(ts);
      PlainTree(ts);
      assert ts == [Node(m, kids)] + more;
      GroupStep(env, c, Node(m, kids), more, level, parent, sib, s);
      ActedStep(env, c, Node(m, kids), more, level, parent, sib, s);
      if m.level > level {
        GroupTracks(env, c, more, level, parent, sib, s);
      } else {
        TestTracks(env, c, m, parent, sib, s);
        match Test(env, c, m, parent, sib, s)
        case Unplaced(s1) =>
          GroupTracks(env, c, more, level, parent, sib, s1);
          TracksOn(env, s, s1, more, Group(env, c, more, level, parent, sib, s1), [], ActedOn(env, c, more, level, parent, sib, s1));
        case Abandoned(_) =>
        case Tested(s1, sib1, v) =>
          match v
          case Leave(_) =>
          case NoEnd =>
            GroupTracks(env, c, more, level, parent, FRESH, s1);
            TracksOn(env, s, s1, more, Group(env, c, more, level, parent, FRESH, s1), [m], ActedOn(env, c, more, level, parent, FRESH, s1));
          case Deeper(end) =>
            GroupTracks(env, c, kids, level + 1, end, FRESH, s1);
            var w := Group(env, c, kids, level + 1, end, FRESH, s1);
            var deep := ActedOn(env, c, kids, level + 1, end, FRESH, s1);
            TracksOn(env, s, s1, kids, w, [m], deep);
            if w.Through? {
              GroupTracks(env, c, more, level, parent, sib1, w.core);
              TracksOn(env, s, w.core, more, Group(env, c, more, level, parent, sib1, w.core), [m] + deep,
                       ActedOn(env, c, more, level, parent, sib1, w.core));
            } else {
              assert [m] + deep + [] == [m] + deep;
            }
          case _ =>
            GroupTracks(env, c, more, level, parent, sib1, s1);
            TracksOn(env, s, s1, more, Group(env, c, more, level, parent, sib1, s1), [], ActedOn(env, c, more, level, parent, sib1, s1));
      }
    }
  }

  lemma TracksOn(env: Env, s: Core, t: Core, ts: seq<Tree>, w: Walked, a: seq<Entry>, b: seq<Entry>)
    requires Tracks(env, s, t, a) && (w.Quit? || Tracks(env, t, w.core, b))
    ensures w.Quit? || Tracks(env, s, w.core, a + b)
    ensures [] + b == b
  {
    hide Tracks;
    if !w.Quit? { TracksTwo(env, s, t, w.core, a, b); }
  }

  lemma {:induction false} PlainTree(ts: seq<Tree>)
    requires ts != [] && Plain(Flatten(ts))
    ensures !ts[0].m.kind.Indirect? && Plain(Flatten(ts[0].kids)) && Plain(Flatten(ts[1..]))
  {
    var all, kids, more := Flatten(ts), Flatten(ts[0].kids), Flatten(ts[1..]);
    assert all == [ts[0].m] + kids + more;
    assert all[0] == ts[0].m;
    forall i | 0 <= i < |kids| ensures !kids[i].kind.Indirect? { assert all[1 + i] == kids[i]; }
    forall i | 0 <= i < |more| ensures !more[i].kind.Indirect? { assert all[1 + |kids| + i] == more[i]; }
  }

  // ----- one rule -----

  /** The parts of a rule are quiet and plain as the whole is. */
  lemma RuleParts(es: seq<Entry>, n: nat)
    requires AllQuiet(es) && Plain(es) && n < |es|
    ensures Quiet(es[0]) && !es[0].kind.Indirect?
    ensures AllQuiet(es[1..1 + n]) && Plain(es[1..1 + n]) && AllQuiet(es[1 + n..]) && Plain(es[1 + n..])
    ensures AllQuiet(es[1..]) && Plain(es[1..])
    ensures es == [es[0]] + es[1..1 + n] + es[1 + n..]
  {
    hide Quiet;
    assert es[0] in es;
  }

  lemma FinishKeeps(env: Env, s: Core)
    ensures var t := FinishRule(env, s).core; t.found == s.found && t.ret == s.ret && t.out == s.out
  {
  }

  /** The first rule prints what it acts on, in order, and marks what it found and printed. */
  lemma FirstPrints(env: Env, c: Call, es: seq<Entry>, s: Core) returns (added: seq<Event>)
    requires Within(env, s) && es != [] && AllQuiet(es) && Plain(es)
    ensures var (q, t) := First(env, c, es, s);
            && t.out == s.out + added && Announced(added) == WithText(env, q.acted)
            && (q.how.Closed? || Tracks(env, s, t, q.acted))
            && AllQuiet(q.rest) && Plain(q.rest)
  {
    hide Open, Group, Conts, Parse, HeadActs, ActedOn, WithText, Tracks, AllQuiet, Plain, FinishRule, Announced, Flatten, Quiet;
    var n := Conts(es[1..]);
    RuleParts(es, n);
    HeadTracks(env, c, es[0], s);
    var own := HeadPrints(env, c, es[0], s);
    added := own;
    var o := Open(env, c, es[0], s);
    if o.Matched? {
      FlattenParse(es[1..1 + n]);
      var kids := Parse(es[1..1 + n]);
      var w := Group(env, c, kids, 1, o.end, FRESH, o.core);
      var below := GroupInOrder(env, c, kids, 1, o.end, FRESH, o.core);
      GroupTracks(env, c, kids, 1, o.end, FRESH, o.core);
      FinishKeeps(env, w.core);
      added := own + below;
      HeadMatched(env, c, es[0], s);
      var acted := ActedOn(env, c, kids, 1, o.end, FRESH, o.core);
      AnnouncedConcat(own, below);
      WithTextConcat(env, [es[0]], acted);
      if !w.Quit? {
        TracksTwo(env, s, o.core, w.core, [es[0]], acted);
        TracksSame(env, s, w.core, FinishRule(env, w.core).core, [es[0]] + acted);
      }
      assert s.out + (own + below) == (s.out + own) + below;
    }
  }

  lemma TracksSame(env: Env, s: Core, t: Core, u: Core, a: seq<Entry>)
    requires Tracks(env, s, t, a) && u.found == t.found && u.ret == t.ret
    ensures Tracks(env, s, u, a)
  {
  }

  /** A head that is entered, or with which the activation is over, is acted on only in the first case. */
  lemma HeadMatched(env: Env, c: Call, m: Entry, s: Core)
    requires Within(env, s) && !m.kind.Indirect?
    ensures Open(env, c, m, s).Matched? ==> HeadActs(env, c, m, s)
    ensures Open(env, c, m, s).Over? || Open(env, c, m, s).NextLine? ==> !HeadActs(env, c, m, s)
  {
    hide Open, Annotated, Place;
    HeadExactly(env, c, m, s);
    if Open(env, c, m, s).Over? && HeadActs(env, c, m, s) { NotBoth(env, c, m, s); }
  }

  /** A test that passes does not break. */
  lemma NotBoth(env: Env, c: Call, m: Entry, s: Core)
    requires Within(env, s) && !m.kind.Indirect?
    ensures !(HeadPasses(env, c, m, s) && HeadBreaks(env, c, m, s))
  {
    hide Evaluate, Find, Place, Skipped;
  }

  lemma HeadPrints(env: Env, c: Call, m: Entry, s: Core) returns (added: seq<Event>)
    requires Within(env, s) && Quiet(m) && !m.kind.Indirect?
    ensures Open(env, c, m, s).core.out == s.out + added
    ensures Announced(added) == WithText(env, if HeadActs(env, c, m, s) then [m] else [])
  {
    hide Value, Place, Annotate, Announce, Checked, Annotated, WithText, Announced, ViewOf, Passes, Breaks, Skipped;
    added := [];
    NothingSub(env, []);
    assert s.out + [] == s.out;
    if HeadAsked(c, m, s) {
      PlaceKeepsCounts(env, c, m, 0, s);
      var s1 := Place(c, m, 0, s).core;
      FetchedQuietly(env, c, m, 0, 0, s1);
      var t := Value(env, c, m, 0, 0, s1).core;
      if Running(env, s) { ValueDecides(env, c, m, 0, 0, s1); } else { StoppedValue(env, c, m, 0, 0, s1); }
      var note := AnnotatePrints(env, m, t);
      var text := AnnouncePrints(env, m, ViewOf(c, t, 0, 0), t);
      if HeadPasses(env, c, m, s) {
        added := if Annotated(env, m) then note else text;
      }
    }
  }

  lemma AnnouncePrints(env: Env, m: Entry, v: View, s: Core) returns (added: seq<Event>)
    ensures Announce(env, m, v, s).out == s.out + added
    ensures Announced(added) == WithText(env, [m])
  {
    added := [];
    assert s.out + [] == s.out;
    if m.described && !env.flags.noDesc {
      var lead := if s.first then [] else [Separator];
      added := lead + [Described(m, v)];
      AnnouncedConcat(lead, [Described(m, v)]);
    }
  }

  // ----- the activation -----

  /**
   * An activation prints the descriptions of exactly the entries that its rules act on, heads and continuations,
   * in the order in which they are written.
   */
  lemma ActivationPrints(env: Env, c: Call, es: seq<Entry>, s: Core) returns (added: seq<Event>)
    requires Within(env, s) && AllQuiet(es) && Plain(es)
    ensures var acted := AllActed(Rounds(env, c, es, s.(window := [])));
            && Evaluate(env, c, es, s).0.out == s.out + added
            && Announced(added) == WithText(env, acted) && Sub(acted, es)
  {
    hide RulesFrom, Rounds, AllQuiet, Plain, WithText, Sub, AllActed, Announced;
    added := RulesPrint(env, c, es, s.(window := []));
    ActedInOrderOfList(env, c, es, s.(window := []));
  }

  lemma {:induction false} RulesPrint(env: Env, c: Call, es: seq<Entry>, s: Core) returns (added: seq<Event>)
    requires Within(env, s) && AllQuiet(es) && Plain(es)
    ensures RulesFrom(env, c, es, s).0.out == s.out + added
    ensures Announced(added) == WithText(env, AllActed(Rounds(env, c, es, s)))
    decreases |es|
  {
    hide RulesFrom, Rounds, AllQuiet, Plain, WithText, First, Announced, GoesOn, AllActed;
    if es == [] {
      added := [];
      assert s.out + [] == s.out;
      NothingSub(env, []);
      NoRules(env, c, s);
    } else {
      var (q, t) := First(env, c, es, s);
      added := FirstPrints(env, c, es, s);
      RulesFromStep(env, c, es, s);
      RoundsStep(env, c, es, s);
      if GoesOn(env, q, t) {
        var later := RulesPrint(env, c, q.rest, t);
        assert s.out + (added + later) == (s.out + added) + later;
        AnnouncedConcat(added, later);
        ActedCons(q, Rounds(env, c, q.rest, t));
        WithTextConcat(env, q.acted, AllActed(Rounds(env, c, q.rest, t)));
        added := added + later;
      } else {
        ActedCons(q, []);
      }
    }
  }

  lemma NoRules(env: Env, c: Call, s: Core)
    requires Within(env, s)
    ensures RulesFrom(env, c, [], s) == (s, Back(s)) && Rounds(env, c, [], s) == [] && AllActed([]) == []
  {
  }

  lemma ActedCons(q: Round, qs: seq<Round>)
    ensures AllActed([q] + qs) == q.acted + AllActed(qs)
    ensures [q] + [] == [q] && AllActed([q]) == q.acted
  {
    assert ([q] + qs)[1..] == qs && [q][1..] == [];
    assert AllActed([]) == [];
  }

  lemma FirstInOrder(env: Env, c: Call, es: seq<Entry>, s: Core) returns (taken: nat)
    requires Within(env, s) && es != [] && Plain(es)
    ensures taken <= |es| && First(env, c, es, s).0.rest == es[taken..]
    ensures Sub(First(env, c, es, s).0.acted, es[..taken]) && Plain(es[taken..])
  {
    hide Open, Group, Conts, Parse, HeadActs, ActedOn, Sub, FinishRule, Flatten;
    var n := Conts(es[1..]);
    var o := Open(env, c, es[0], s);
    taken := if o.NextLine? then 1 else 1 + n;
    assert es[..1] == [es[0]] && es[..1 + n] == [es[0]] + es[1..1 + n];
    NothingSub(env, es[..taken]);
    NothingSub(env, es[1..1 + n]);
    SelfSub([es[0]]);
    SubConcat([es[0]], [es[0]], [], es[1..1 + n]);
    assert [es[0]] + [] == [es[0]];
    HeadMatched(env, c, es[0], s);
    if o.Matched? {
      FlattenParse(es[1..1 + n]);
      var kids := Parse(es[1..1 + n]);
      ActedInOrder(env, c, kids, 1, o.end, FRESH, o.core);
      SubConcat([es[0]], [es[0]], ActedOn(env, c, kids, 1, o.end, FRESH, o.core), es[1..1 + n]);
    }
  }

  lemma {:induction false} ActedInOrderOfList(env: Env, c: Call, es: seq<Entry>, s: Core)
    requires Within(env, s) && Plain(es)
    ensures Sub(AllActed(Rounds(env, c, es, s)), es)
    decreases |es|
  {
    hide Rounds, Plain, First, GoesOn, AllActed, Sub;
    NothingSub(env, es);
    if es == [] {
      NoRules(env, c, s);
    } else {
      var (q, t) := First(env, c, es, s);
      var taken := FirstInOrder(env, c, es, s);
      RoundsStep(env, c, es, s);
      NothingSub(env, es[taken..]);
      assert es == es[..taken] + es[taken..];
      ghost var later: seq<Entry> := [];
      if GoesOn(env, q, t) {
        ActedInOrderOfList(env, c, q.rest, t);
        later := AllActed(Rounds(env, c, q.rest, t));
        ActedCons(q, Rounds(env, c, q.rest, t));
      } else {
        ActedCons(q, []);
        assert q.acted + [] == q.acted;
      }
      SubConcat(q.acted, es[..taken], later, es[taken..]);
    }
  }

  /** Something was found by the time the rules `qs` were taken up: before them, or described in one of them. */
  predicate FoundIn(qs: seq<Round>, before: bool) { before || Told(AllActed(qs)) }

  /**
   * The next rule is taken up exactly when there are entries left, the activation was not left, and, unless all
   * matches are asked for, no rule has been gone through to its end with something found by then.
   */
  predicate Continues(env: Env, qs: seq<Round>, i: nat, found: bool)
    requires i < |qs|
  {
    && qs[i].rest != [] && !qs[i].how.Closed?
    && (qs[i].how.Done? && !env.flags.more ==> !FoundIn(qs[..i + 1], found))
  }

  lemma {:induction false} ContinuesExactly(env: Env, c: Call, es: seq<Entry>, s: Core, i: nat)
    requires Within(env, s) && AllQuiet(es) && Plain(es)
    requires i < |Rounds(env, c, es, s)|
    ensures i + 1 < |Rounds(env, c, es, s)| <==> Continues(env, Rounds(env, c, es, s), i, s.found)
    decreases |es|
  {
    hide Rounds, AllQuiet, Plain, First, AllActed, Told;
    if es == [] {
      NoRules(env, c, s);
    } else {
      var (q, t) := First(env, c, es, s);
      var added := FirstPrints(env, c, es, s);
      var qs, later := Rounds(env, c, es, s), Rounds(env, c, q.rest, t);
      RoundsStep(env, c, es, s);
      ActedCons(q, []);
      if i == 0 {
        assert qs[..1] == [q];
      } else {
        assert qs == [q] + later;
        ContinuesExactly(env, c, q.rest, t, i - 1);
        assert qs[..i + 1] == [q] + later[..i];
        ActedCons(q, later[..i]);
        ToldTwo(q.acted, AllActed(later[..i]));
      }
    }
  }

  lemma ToldTwo(a: seq<Entry>, b: seq<Entry>)
    ensures Told(a + b) == (Told(a) || Told(b))
  {
    forall m ensures m in a + b <==> m in a || m in b {}
  }

  /**
   * What an activation answers: the code it was left with, and otherwise 1 exactly when a description was
   * printed in it or, by what it was given, before it.
   */
  lemma ActivationAnswers(env: Env, c: Call, es: seq<Entry>, s: Core)
    requires Within(env, s) && AllQuiet(es) && Plain(es)
    ensures var qs := Rounds(env, c, es, s.(window := []));
            Evaluate(env, c, es, s).1 ==
            if qs != [] && qs[|qs| - 1].how.Closed? then qs[|qs| - 1].how.code
            else if s.ret || WithText(env, AllActed(qs)) != [] then 1 else 0
  {
    hide RulesFrom, Rounds, AllQuiet, Plain, WithText, AllActed;
    RulesAnswer(env, c, es, s.(window := []));
  }

  lemma {:induction false} RulesAnswer(env: Env, c: Call, es: seq<Entry>, s: Core)
    requires Within(env, s) && AllQuiet(es) && Plain(es)
    ensures var qs := Rounds(env, c, es, s);
            RulesFrom(env, c, es, s).1 ==
            if qs != [] && qs[|qs| - 1].how.Closed? then qs[|qs| - 1].how.code
            else if s.ret || WithText(env, AllActed(qs)) != [] then 1 else 0
    decreases |es|
  {
    hide Rounds, RulesFrom, AllQuiet, Plain, First, AllActed, WithText, Told;
    if es == [] {
      NoRules(env, c, s);
      NothingSub(env, []);
    } else {
      var (q, t) := First(env, c, es, s);
      var added := FirstPrints(env, c, es, s);
      RoundsStep(env, c, es, s);
      RulesFromStep(env, c, es, s);
      if GoesOn(env, q, t) {
        var later := Rounds(env, c, q.rest, t);
        RulesAnswer(env, c, q.rest, t);
        ActedCons(q, later);
        WithTextConcat(env, q.acted, AllActed(later));
        assert later == [] ==> [q] + later == [q];
        NoneActed();
        NothingSub(env, []);
      } else {
        ActedCons(q, []);
      }
    }
  }

  lemma NoneActed()
    ensures AllActed([]) == []
  {
  }
}
