/** Default, clear, and if/elif/else among the entries of one group of siblings. */
module SoftmagicSiblings {
  import opened Bytes
  import opened SoftmagicEntry
  import opened SoftmagicScan
  import opened SoftmagicTree

  /** What became of one sibling: the state it found, whether its value was asked for, and the verdict. */
  datatype Step = Step(m: Entry, sib: Sibling, tested: bool, verdict: Verdict) {
    /** The value was there and compared. */
    predicate Compared() { tested && !verdict.Absent? && verdict != Leave(-1) }

    predicate Matched() { Compared() && !verdict.Differs? }

    /** The match had its effect: it was announced and its children could follow. */
    predicate Acted() { Matched() && !verdict.Overruled? }
  }

  /** The siblings of a group as they are taken up, in order; entries that skip a level are not among them. */
  ghost function Steps(env: Env, c: Call, ts: seq<Tree>, level: nat, parent: int, sib: Sibling, s: Core): seq<Step>
    requires Within(env, s)
    decreases ts
  {
    if ts == [] then []
    else if ts[0].m.level > level then Steps(env, c, ts[1..], level, parent, sib, s)
    else
      match Test(env, c, ts[0].m, parent, sib, s)
      case Unplaced(s1) => [Step(ts[0].m, sib, false, Absent)] + Steps(env, c, ts[1..], level, parent, sib, s1)
      case Abandoned(_) => [Step(ts[0].m, sib, false, Absent)]
      case Tested(s1, sib1, v) =>
        [Step(ts[0].m, sib, true, v)] +
        match v
        case Leave(_) => []
        case NoEnd => Steps(env, c, ts[1..], level, parent, FRESH, s1)
        case Deeper(end) =>
          var w := Group(env, c, ts[0].kids, level + 1, end, FRESH, s1);
          if w.Through? then Steps(env, c, ts[1..], level, parent, sib1, w.core) else []
        case _ => Steps(env, c, ts[1..], level, parent, sib1, s1)
  }

  /** The state a sibling leaves to the next one. */
  function Next(q: Step): Sibling {
    if !q.tested then q.sib
    else
      match q.verdict
      case Differs => q.sib.(last := false)
      case Overruled => AfterMatch(q.m, q.sib)
      case Deeper(_) => AfterMatch(q.m, q.sib)
      case NoEnd => FRESH
      case _ => q.sib
  }

  /** A sibling is asked for its value only if no branch before it made it moot, and overruled only if superseded. */
  predicate Sound(q: Step) {
    && (q.tested ==> !Moot(q.m, q.sib))
    && (q.Matched() ==> (q.verdict.Overruled? <==> Superseded(q.m, q.sib)))
  }

  /** The siblings hand the state on from one to the next. */
  predicate Linked(qs: seq<Step>, first: Sibling) {
    && (qs != [] ==> qs[0].sib == first)
    && (forall k | 0 <= k < |qs| - 1 :: qs[k + 1].sib == Next(qs[k]) && !qs[k].verdict.Leave?)
    && (forall k | 0 <= k < |qs| :: Sound(qs[k]))
  }

  lemma SettleSound(env: Env, c: Call, m: Entry, sib: Sibling, parent: int, s: Core, code: int, value: bool)
    requires !Moot(m, sib)
    ensures var (v, sib1, _) := Settle(env, c, m, sib, parent, s, code, value);
            var q := Step(m, sib, true, v);
            && Sound(q)
            && (v.NoEnd? || v.Leave? || sib1 == Next(q))
  {
  }

  lemma TestSound(env: Env, c: Call, m: Entry, parent: int, sib: Sibling, s: Core)
    requires Within(env, s)
    ensures match Test(env, c, m, parent, sib, s)
            case Tested(_, sib1, v) =>
              var q := Step(m, sib, true, v);
              Sound(q) && (v.NoEnd? || v.Leave? || sib1 == Next(q))
            case _ => Sound(Step(m, sib, false, Absent))
  {
    hide Settle;
    if Place(c, m, m.level, s).Placed? && !Moot(m, sib) {
      var s1 := Place(c, m, m.level, s).core;
      var s2 := if m.offAdd then s1.(offset := Wrap32(s1.offset + parent)) else s1;
      var f := Value(env, c, m, m.level, parent, s2);
      SettleSound(env, c, m, sib, parent, f.core, f.code, f.value);
    }
  }

  lemma LinkedCons(q: Step, qs: seq<Step>, first: Sibling)
    requires q.sib == first && Sound(q) && (qs == [] || (Linked(qs, Next(q)) && !q.verdict.Leave?))
    ensures Linked([q] + qs, first)
  {
    var all := [q] + qs;
    forall k | 0 <= k < |all| - 1 ensures all[k + 1].sib == Next(all[k]) && !all[k].verdict.Leave? {
      assert all[k + 1] == qs[k];
      if k > 0 { assert all[k] == qs[k - 1]; }
    }
  }

  /** The steps of every group of an actual run are linked. */
  lemma {:induction false} StepsLinked(env: Env, c: Call, ts: seq<Tree>, level: nat, parent: int, sib: Sibling, s: Core)
    requires Within(env, s)
    ensures Linked(Steps(env, c, ts, level, parent, sib, s), sib)
    decreases ts
  {
    hide Test, Group, Linked;
    if ts == [] {
      assert Linked([], sib) by { NothingLinked(sib); }
    } else if ts[0].m.level > level {
      StepsLinked(env, c, ts[1..], level, parent, sib, s);
    } else {
      var m := ts[0].m;
      TestSound(env, c, m, parent, sib, s);
      match Test(env, c, m, parent, sib, s)
      case Unplaced(s1) =>
        StepsLinked(env, c, ts[1..], level, parent, sib, s1);
        LinkedCons(Step(m, sib, false, Absent), Steps(env, c, ts[1..], level, parent, sib, s1), sib);
      case Abandoned(_) =>
        LinkedCons(Step(m, sib, false, Absent), [], sib);
        assert [Step(m, sib, false, Absent)] + [] == [Step(m, sib, false, Absent)];
      case Tested(s1, sib1, v) =>
        var q := Step(m, sib, true, v);
        match v
        case Leave(_) => LinkedCons(q, [], sib);
        case NoEnd =>
          StepsLinked(env, c, ts[1..], level, parent, FRESH, s1);
          LinkedCons(q, Steps(env, c, ts[1..], level, parent, FRESH, s1), sib);
        case Deeper(end) =>
          var w := Group(env, c, ts[0].kids, level + 1, end, FRESH, s1);
          if w.Through? {
            StepsLinked(env, c, ts[1..], level, parent, sib1, w.core);
            LinkedCons(q, Steps(env, c, ts[1..], level, parent, sib1, w.core), sib);
          } else {
            LinkedCons(q, [], sib);
          }
        case _ =>
          StepsLinked(env, c, ts[1..], level, parent, sib1, s1);
          LinkedCons(q, Steps(env, c, ts[1..], level, parent, sib1, s1), sib);
    }
  }

  lemma NothingLinked(sib: Sibling)
    ensures Linked([], sib)
  {
  }

  /** A match that the defaults after it take note of. */
  predicate Raises(q: Step) { q.Matched() && !q.m.kind.Clear? && !q.verdict.NoEnd? }

  /** A match after which the siblings count as unmatched again. */
  predicate Lowers(q: Step) { q.Matched() && (q.m.kind.Clear? || q.verdict.NoEnd?) }

  /** `j` raised the match state, and nothing from then up to `k` lowered it. */
  ghost predicate RaisedBy(qs: seq<Step>, j: nat, k: nat)
    requires k <= |qs|
  {
    j < k && Raises(qs[j]) && forall i | j < i < k :: !Lowers(qs[i])
  }

  lemma {:induction false} GotMeans(qs: seq<Step>, k: nat)
    requires Linked(qs, FRESH) && k < |qs|
    ensures qs[k].sib.got <==> exists j: nat :: RaisedBy(qs, j, k)
  {
    if k > 0 {
      GotMeans(qs, k - 1);
      var q := qs[k - 1];
      assert qs[k].sib == Next(q);
      assert Sound(q);
      if Raises(q) {
        assert RaisedBy(qs, k - 1, k);
        assert qs[k].sib.got;
      } else if Lowers(q) {
        assert forall j: nat :: !RaisedBy(qs, j, k);
        assert !qs[k].sib.got;
      } else {
        assert qs[k].sib.got == q.sib.got;
        forall j: nat ensures RaisedBy(qs, j, k - 1) <==> RaisedBy(qs, j, k) {}
        if q.sib.got {
          var j: nat :| RaisedBy(qs, j, k - 1);
          assert RaisedBy(qs, j, k);
        }
      }
    }
  }

  /**
   * A default whose test passes is acted on exactly when no sibling has matched since the parent did, not
   * counting what came before a clear or before a match whose end was out of range.
   */
  lemma DefaultActs(qs: seq<Step>, k: nat)
    requires Linked(qs, FRESH) && k < |qs| && qs[k].Matched() && qs[k].m.kind.Default?
    ensures qs[k].Acted() <==> forall j: nat :: !RaisedBy(qs, j, k)
  {
    GotMeans(qs, k);
  }

  /** Every other entry that matches is acted on. */
  lemma OthersAct(qs: seq<Step>, first: Sibling, k: nat)
    requires Linked(qs, first) && k < |qs| && !qs[k].m.kind.Default?
    ensures qs[k].Acted() <==> qs[k].Matched()
  {
    assert Sound(qs[k]);
  }

  /** The entries after `a` up to `b` are branches of one chain. */
  ghost predicate Branches(qs: seq<Step>, a: nat, b: nat)
    requires b < |qs|
  {
    forall i | a < i <= b :: qs[i].m.cond == Elif || qs[i].m.cond == Else
  }

  /** After a branch that matched, no later branch of its chain is even tested. */
  lemma {:induction false} AtMostOneBranch(qs: seq<Step>, first: Sibling, a: nat, b: nat)
    requires Linked(qs, first) && a < b < |qs| && Branches(qs, a, b)
    requires qs[a].Matched() && !qs[a].verdict.NoEnd?
    ensures qs[b].sib.last && !qs[b].tested && !qs[b].Acted()
  {
    assert qs[b - 1 + 1].sib == Next(qs[b - 1]);
    if b > a + 1 {
      AtMostOneBranch(qs, first, a, b - 1);
    }
    assert Sound(qs[b]);
  }

  /** A branch of the chain that `a` starts was compared, unless an earlier one had made it moot. */
  ghost predicate AllCompared(qs: seq<Step>, a: nat, b: nat)
    requires b <= |qs|
  {
    forall i | a <= i < b :: Moot(qs[i].m, qs[i].sib) || (qs[i].Compared() && !qs[i].verdict.NoEnd?)
  }

  /**
   * When every branch taken up is compared, a branch is taken up exactly if none before it in its chain
   * matched: the first that matches is the one acted on.
   */
  lemma {:induction false} FirstBranchWins(qs: seq<Step>, first: Sibling, a: nat, b: nat)
    requires Linked(qs, first) && a <= b < |qs| && Branches(qs, a, b) && qs[a].m.cond == If
    requires AllCompared(qs, a, b)
    ensures Moot(qs[b].m, qs[b].sib) <==> exists i | a <= i < b :: qs[i].Matched()
  {
    if b > a {
      FirstBranchWins(qs, first, a, b - 1);
      var q := qs[b - 1];
      assert qs[b - 1 + 1].sib == Next(q);
      assert Sound(q);
      if Moot(q.m, q.sib) {
        assert !q.tested;
      }
    }
  }

  // ----- exactly when a branch is moot -----

  /** A match that the branches after it take note of. */
  predicate Takes(q: Step) { q.Matched() && !q.verdict.NoEnd? }

  /** An outcome after which the branches count as open again. */
  predicate Opens(q: Step) { q.tested && (q.verdict.Differs? || q.verdict.NoEnd?) }

  /** `j` took the branch, and nothing from then up to `k` opened it again. */
  ghost predicate TakenBy(qs: seq<Step>, j: nat, k: nat)
    requires k <= |qs|
  {
    j < k && Takes(qs[j]) && forall i | j < i < k :: !Opens(qs[i])
  }

  lemma {:induction false} LastMeans(qs: seq<Step>, k: nat)
    requires Linked(qs, FRESH) && k < |qs|
    ensures qs[k].sib.last <==> exists j: nat :: TakenBy(qs, j, k)
  {
    if k > 0 {
      LastMeans(qs, k - 1);
      var q := qs[k - 1];
      assert qs[k].sib == Next(q);
      assert Sound(q);
      if Takes(q) {
        assert TakenBy(qs, k - 1, k);
        assert qs[k].sib.last;
      } else if Opens(q) {
        assert forall j: nat :: !TakenBy(qs, j, k);
        assert !qs[k].sib.last;
      } else {
        assert qs[k].sib.last == q.sib.last;
        forall j: nat ensures TakenBy(qs, j, k - 1) <==> TakenBy(qs, j, k) {}
        if q.sib.last {
          var j: nat :| TakenBy(qs, j, k - 1);
          assert TakenBy(qs, j, k);
        }
      }
    }
  }

  /**
   * A branch is passed over exactly when some sibling before it matched with its end in range and, since then,
   * no sibling was compared and found different or matched without an end.
   */
  lemma MootMeans(qs: seq<Step>, k: nat)
    requires Linked(qs, FRESH) && k < |qs|
    ensures Moot(qs[k].m, qs[k].sib) <==> qs[k].m.cond in {Elif, Else} && exists j: nat :: TakenBy(qs, j, k)
  {
    LastMeans(qs, k);
  }

  /** The chain that the `if` at `a` starts, up to the branch at `b`. */
  ghost predicate ChainOf(qs: seq<Step>, a: nat, b: nat) {
    a <= b < |qs| && qs[a].m.cond == If && Branches(qs, a, b)
  }

  /**
   * After a branch that was acted on, a later one of the chain is taken up all the same exactly when the first
   * one's end was out of range and none between them matched with its end in range.
   */
  lemma SecondBranch(qs: seq<Step>, first: Sibling, a: nat, b: nat)
    requires Linked(qs, first) && a < b < |qs| && Branches(qs, a, b) && qs[a].Acted()
    ensures !Moot(qs[b].m, qs[b].sib) <==> qs[a].verdict.NoEnd? && forall i | a < i < b :: !Takes(qs[i])
  {
    if qs[a].verdict.NoEnd? {
      StillOpen(qs, first, a, b);
    } else {
      AtMostOneBranch(qs, first, a, b);
    }
  }

  /** Behind a branch whose end was out of range, a branch is moot exactly if one between them took the chain. */
  lemma {:induction false} StillOpen(qs: seq<Step>, first: Sibling, a: nat, b: nat)
    requires Linked(qs, first) && a < b < |qs| && Branches(qs, a, b) && qs[a].tested && qs[a].verdict.NoEnd?
    ensures qs[b].sib.last <==> exists i | a < i < b :: Takes(qs[i])
  {
    var q := qs[b - 1];
    assert qs[b - 1 + 1].sib == Next(q);
    assert Sound(q);
    if b > a + 1 {
      StillOpen(qs, first, a, b - 1);
      if q.sib.last {
        var i :| a < i < b - 1 && Takes(qs[i]);
        assert !q.tested && qs[b].sib.last;
      } else if Takes(q) {
        assert qs[b].sib.last;
      }
    }
  }

  /**
   * Two branches of one chain are both acted on exactly when the first one's end was out of range, none between
   * them matched with its end in range, and the second one's own test passes.
   */
  lemma BothBranches(qs: seq<Step>, first: Sibling, a: nat, b: nat)
    requires Linked(qs, first) && a < b < |qs| && Branches(qs, a, b) && qs[a].Acted() && !qs[b].m.kind.Default?
    ensures qs[b].Acted() ==> qs[a].verdict.NoEnd? && forall i | a < i < b :: !Takes(qs[i])
    ensures qs[a].verdict.NoEnd? && (forall i | a < i < b :: !Takes(qs[i])) ==> (qs[b].Acted() <==> qs[b].Matched())
    ensures !(qs[a].verdict.NoEnd? && forall i | a < i < b :: !Takes(qs[i])) ==> !qs[b].tested
  {
    SecondBranch(qs, first, a, b);
    assert Sound(qs[b]);
    OthersAct(qs, first, b);
    if Moot(qs[b].m, qs[b].sib) { assert !qs[b].tested; }
  }

  /**
   * A branch is passed over although no branch of its chain took it, exactly when the `if` had no value at its
   * place, an entry before the chain matched, and nothing since then was compared and found different or
   * matched without an end: the outcome of that entry stands.
   */
  lemma PassedOverWrongly(qs: seq<Step>, a: nat, b: nat)
    requires Linked(qs, FRESH) && ChainOf(qs, a, b) && a < b
    ensures Moot(qs[b].m, qs[b].sib) && (forall i | a <= i < b :: !Takes(qs[i]))
            <==> (!qs[a].tested || qs[a].verdict.Absent?) && exists j: nat :: j < a && TakenBy(qs, j, b)
  {
    MootMeans(qs, b);
    if j: nat :| j < a && TakenBy(qs, j, b) {
      BranchesUntested(qs, a, b, j);
      assert !Opens(qs[a]) && qs[a + 1].sib == Next(qs[a]) && !qs[a].verdict.Leave?;
    }
    if Moot(qs[b].m, qs[b].sib) && forall i | a <= i < b :: !Takes(qs[i]) {
      var j: nat :| TakenBy(qs, j, b);
      assert j < a;
      assert !Opens(qs[a]) && qs[a + 1].sib == Next(qs[a]) && !qs[a].verdict.Leave?;
    }
  }

  /** While an entry before the chain has it taken, no branch of the chain is tested. */
  lemma BranchesUntested(qs: seq<Step>, a: nat, b: nat, j: nat)
    requires Linked(qs, FRESH) && ChainOf(qs, a, b) && j < a && TakenBy(qs, j, b)
    ensures forall i | a < i < b :: !qs[i].tested
  {
    forall i | a < i < b ensures !qs[i].tested {
      assert TakenBy(qs, j, i);
      MootMeans(qs, i);
      assert Sound(qs[i]);
    }
  }

  // ----- two runs -----

  /** An entry of level 1 that looks at the start of the data. */
  function Line(cond: Cond, payload: int): Entry {
    Entry(1, Compare, cond, false, Unrestricted, false, false, 0, false, false, false, false, false, false, false, false,
          false, payload)
  }

  /**
   * Tests of three kinds: payload 0 has no value, every other matches; the end of a match is out of range for
   * payload 1, and 0 for every other.
   */
  function Trial(): Env {
    Env((m: Entry, v: View) => Fetched(if m.payload == 0 then 0 else 1, 0), (m: Entry, v: View) => 1,
        (m: Entry, v: View) => if m.payload == 1 then None else Some(0),
        [], [], Flags(false, false, false, false, false), 1, 1)
  }

  function Quietly(): Call { Call(Buffer([], true, None), 0, false, false, false, false) }

  function Begun(): Core { Core(0, 0, [], [], 0, 0, false, false, true, false, false) }

  lemma OneTest(cond: Cond, payload: int, sib: Sibling, s: Core)
    requires s == Begun() && !Moot(Line(cond, payload), sib)
    ensures Within(Trial(), s)
    ensures var m := Line(cond, payload);
            var v := if payload == 0 then Absent else if payload == 1 then NoEnd else Deeper(0);
            Test(Trial(), Quietly(), m, 0, sib, s)
            == Tested(s, if payload == 0 then sib else AfterMatch(m, sib), v)
  {
  }

  /** Two branches of one chain acted on: the `if` matches but its end is out of range, and then its `else` matches. */
  lemma BothBranchesRun()
    ensures var ts := [Node(Line(If, 1), []), Node(Line(Else, 2), [])];
            Within(Trial(), Begun())
            && var qs := Steps(Trial(), Quietly(), ts, 1, 0, FRESH, Begun());
               |qs| == 2 && ChainOf(qs, 0, 1) && qs[0].Acted() && qs[1].Acted()
  {
    hide Test;
    var a, b := Line(If, 1), Line(Else, 2);
    var ts := [Node(a, []), Node(b, [])];
    OneTest(If, 1, FRESH, Begun());
    OneTest(Else, 2, FRESH, Begun());
    assert ts[1..] == [Node(b, [])] && ts[1..][1..] == [];
    var w := Group(Trial(), Quietly(), [], 2, 0, FRESH, Begun());
    assert Steps(Trial(), Quietly(), [], 1, 0, AfterMatch(b, FRESH), Begun()) == [];
    assert Steps(Trial(), Quietly(), ts[1..], 1, 0, FRESH, Begun()) == [Step(b, FRESH, true, Deeper(0))];
    assert Steps(Trial(), Quietly(), ts, 1, 0, FRESH, Begun())
           == [Step(a, FRESH, true, NoEnd), Step(b, FRESH, true, Deeper(0))];
  }

  /** An `else` passed over though its chain took nothing: an entry matches, then an `if` has no value. */
  lemma PassedOverRun()
    ensures var ts := [Node(Line(NoCond, 2), []), Node(Line(If, 0), []), Node(Line(Else, 2), [])];
            Within(Trial(), Begun())
            && var qs := Steps(Trial(), Quietly(), ts, 1, 0, FRESH, Begun());
               |qs| == 3 && ChainOf(qs, 1, 2) && !qs[1].Matched() && Moot(qs[2].m, qs[2].sib) && !qs[2].tested
  {
    hide Test;
    var x, a, b := Line(NoCond, 2), Line(If, 0), Line(Else, 2);
    var ts := [Node(x, []), Node(a, []), Node(b, [])];
    var sib := AfterMatch(x, FRESH);
    OneTest(NoCond, 2, FRESH, Begun());
    OneTest(If, 0, sib, Begun());
    MootTest(b, sib);
    assert ts[1..] == [Node(a, []), Node(b, [])] && ts[1..][1..] == [Node(b, [])] && ts[1..][1..][1..] == [];
    assert Steps(Trial(), Quietly(), [], 1, 0, sib, Begun()) == [];
    assert Steps(Trial(), Quietly(), ts[1..][1..], 1, 0, sib, Begun()) == [Step(b, sib, false, Absent)];
    assert Steps(Trial(), Quietly(), ts[1..], 1, 0, sib, Begun())
           == [Step(a, sib, true, Absent), Step(b, sib, false, Absent)];
    var w := Group(Trial(), Quietly(), [], 2, 0, FRESH, Begun());
    assert Steps(Trial(), Quietly(), ts, 1, 0, FRESH, Begun())
           == [Step(x, FRESH, true, Deeper(0)), Step(a, sib, true, Absent), Step(b, sib, false, Absent)];
  }

  lemma MootTest(m: Entry, sib: Sibling)
    requires m == Line(Else, 2) && sib.last
    ensures Within(Trial(), Begun()) && Test(Trial(), Quietly(), m, 0, sib, Begun()) == Unplaced(Begun())
  {
  }
}
