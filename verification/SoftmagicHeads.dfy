/** When an entry matches, from the three given tests alone, and what a whole activation prints. */
module SoftmagicHeads {
  import opened Bytes
  import opened SoftmagicEntry
  import opened SoftmagicScan
  import opened SoftmagicTree
  import opened SoftmagicSiblings
  import opened SoftmagicOrder

  /** Neither activation counter has reached its limit. */
  predicate Running(env: Env, s: Core) { s.indir < env.indirMax && s.name < env.nameMax }

  /** The state in which the value that was asked for in state `s` is compared. */
  function Moved(env: Env, c: Call, m: Entry, level: nat, parent: int, s: Core): Core {
    s.(offset := Wrap32(env.fetch(m, ViewOf(c, s, level, parent)).offset))
  }

  /** What an entry's value is compared in, and its end worked out from. */
  function SeenAt(env: Env, c: Call, m: Entry, level: nat, parent: int, s: Core): View {
    ViewOf(c, Moved(env, c, m, level, parent, s), level, parent)
  }

  /** The run of the rule that a `use` names: none when it would look behind the window, or there is no such rule. */
  ghost function RuleRun(env: Env, c: Call, m: Entry, s: Core): Option<(Core, int)>
    requires m.kind.Use? && Within(env, s) && Running(env, s) && 0 <= s.offset
  {
    if s.offset > |s.window| || Find(env.named, m.kind.rule) == None then None
    else Some(Evaluate(env, UseCall(c, s, m.kind.flips), Find(env.named, m.kind.rule).value, UseInner(m, s)))
  }

  /** There is no value to be had. */
  ghost predicate Missing(env: Env, c: Call, m: Entry, level: nat, parent: int, s: Core)
    requires Within(env, s) && Running(env, s)
  {
    var code, s1 := env.fetch(m, ViewOf(c, s, level, parent)).code, Moved(env, c, m, level, parent, s);
    if m.kind.Use? && code == 1 then
      || s1.offset > |s.window|
      || (var run := RuleRun(env, c, m, s1); run.Some? && run.value.1 == 0 && !run.value.0.found && !s.found)
    else code == 0
  }

  /** Asking for the value or comparing it fails altogether. */
  ghost predicate Breaks(env: Env, c: Call, m: Entry, level: nat, parent: int, s: Core)
    requires Within(env, s) && Running(env, s)
  {
    var code, s1 := env.fetch(m, ViewOf(c, s, level, parent)).code, Moved(env, c, m, level, parent, s);
    if m.kind.Use? && code == 1 then
      && s1.offset <= |s.window|
      && (var run := RuleRun(env, c, m, s1); run.None? || run.value.1 == -1)
    else
      || code == -1
      || (!m.kind.Use? && !m.kind.Name? && code != 0 && env.check(m, SeenAt(env, c, m, level, parent, s)) == -1)
  }

  /**
   * The entry's test passes: without a value when the test is negated, and with one when it compares, which
   * for a `use` means that the rule found something, and for a `name` nothing further.
   */
  ghost predicate Passes(env: Env, c: Call, m: Entry, level: nat, parent: int, s: Core)
    requires Within(env, s) && Running(env, s)
  {
    if Missing(env, c, m, level, parent, s) then m.negated
    else
      var f, s1 := env.fetch(m, ViewOf(c, s, level, parent)), Moved(env, c, m, level, parent, s);
      match m.kind
      case Use(_, _) =>
        f.code == 1 && (var run := RuleRun(env, c, m, s1); run.Some? && run.value.1 != -1 && run.value.0.found)
      case Name(_) => f.code != -1
      case _ => f.code != -1 && env.check(m, SeenAt(env, c, m, level, parent, s)) !in {-1, 0}
  }

  // ----- what asking for a value comes to -----

  /** The value of an entry was had, and its test decided, as the outcome of asking for it says. */
  predicate Decides(env: Env, m: Entry, v: View, f: Fetch, missing: bool, breaks: bool, passes: bool) {
    && (missing <==> f.code == 0)
    && (breaks <==> f.code == -1 || (f.code != 0 && Checked(env, m, v, f.value) == -1))
    && (passes <==> if f.code == 0 then m.negated else f.code != -1 && Checked(env, m, v, f.value) !in {-1, 0})
  }

  lemma ValueDecides(env: Env, c: Call, m: Entry, level: nat, parent: int, s: Core)
    requires Within(env, s) && Running(env, s) && !m.kind.Indirect?
    ensures var f, v := Value(env, c, m, level, parent, s), SeenAt(env, c, m, level, parent, s);
            && ViewOf(c, f.core, level, parent) == v
            && Decides(env, m, v, f, Missing(env, c, m, level, parent, s), Breaks(env, c, m, level, parent, s),
                       Passes(env, c, m, level, parent, s))
  {
    hide Evaluate, Find;
  }

  lemma StoppedValue(env: Env, c: Call, m: Entry, level: nat, parent: int, s: Core)
    requires Within(env, s) && !Running(env, s)
    ensures Value(env, c, m, level, parent, s) == Fetch(s, -1, false)
  {
  }

  // ----- heads -----

  /** A top-level entry's value is asked for. */
  predicate HeadAsked(c: Call, m: Entry, s: Core) { !Skipped(c, m) && Place(c, m, 0, s).Placed? }

  lemma PlaceKeepsCounts(env: Env, c: Call, m: Entry, level: nat, s: Core)
    requires Within(env, s) && Place(c, m, level, s).Placed?
    ensures Within(env, Place(c, m, level, s).core)
    ensures Running(env, Place(c, m, level, s).core) == Running(env, s)
    ensures var t := Place(c, m, level, s).core; t.out == s.out && t.found == s.found && t.ret == s.ret
  {
  }

  /** The test of a top-level entry passes. */
  ghost predicate HeadPasses(env: Env, c: Call, m: Entry, s: Core)
    requires Within(env, s)
  {
    && HeadAsked(c, m, s) && Running(env, s)
    && (PlaceKeepsCounts(env, c, m, 0, s); Passes(env, c, m, 0, 0, Place(c, m, 0, s).core))
  }

  ghost predicate HeadBreaks(env: Env, c: Call, m: Entry, s: Core)
    requires Within(env, s)
  {
    && HeadAsked(c, m, s)
    && (Running(env, s) ==> (PlaceKeepsCounts(env, c, m, 0, s); Breaks(env, c, m, 0, 0, Place(c, m, 0, s).core)))
  }

  /** Where the continuations of a top-level entry that passes start from. */
  ghost function HeadEnd(env: Env, c: Call, m: Entry, s: Core): Option<int>
    requires HeadAsked(c, m, s)
  {
    env.extent(m, SeenAt(env, c, m, 0, 0, Place(c, m, 0, s).core))
  }

  /**
   * A top-level entry is entered exactly when its test passes, it is no annotation, and its end is in range;
   * the activation is over with it exactly when it breaks, or passes as an annotation.
   */
  lemma HeadExactly(env: Env, c: Call, m: Entry, s: Core)
    requires Within(env, s) && !m.kind.Indirect?
    ensures var o, passes := Open(env, c, m, s), HeadPasses(env, c, m, s);
            && (o.Matched? <==> passes && !Annotated(env, m) && HeadEnd(env, c, m, s).Some?)
            && (o.Matched? ==> HeadEnd(env, c, m, s) == Some(o.end))
            && (o.Over? <==> HeadBreaks(env, c, m, s) || (passes && Annotated(env, m)))
            && (o.Over? ==> o.code == if passes then 1 else -1)
            && (o.NextLine? <==> !Skipped(c, m) && Place(c, m, 0, s).Unreadable?)
  {
    hide Value, Passes, Breaks, Annotate, Announce, Place, Checked, Annotated, Skipped;
    if HeadAsked(c, m, s) {
      PlaceKeepsCounts(env, c, m, 0, s);
      var s1 := Place(c, m, 0, s).core;
      if Running(env, s) {
        ValueDecides(env, c, m, 0, 0, s1);
      } else {
        StoppedValue(env, c, m, 0, 0, s1);
      }
    }
  }

  // ----- continuations -----

  /** Where a continuation looks, given its parent's end. */
  function Shifted(c: Call, m: Entry, parent: int, s: Core): Core
    requires Place(c, m, m.level, s).Placed?
  {
    var s1 := Place(c, m, m.level, s).core;
    if m.offAdd then s1.(offset := Wrap32(s1.offset + parent)) else s1
  }

  /** A continuation's value is asked for: no earlier branch has made it moot. */
  predicate Asked(c: Call, m: Entry, sib: Sibling, s: Core) { Place(c, m, m.level, s).Placed? && !Moot(m, sib) }

  ghost predicate ContPasses(env: Env, c: Call, m: Entry, parent: int, sib: Sibling, s: Core)
    requires Within(env, s)
  {
    && Asked(c, m, sib, s) && Running(env, s)
    && (PlaceKeepsCounts(env, c, m, m.level, s); Passes(env, c, m, m.level, parent, Shifted(c, m, parent, s)))
  }

  ghost predicate ContBreaks(env: Env, c: Call, m: Entry, parent: int, sib: Sibling, s: Core)
    requires Within(env, s)
  {
    && Asked(c, m, sib, s)
    && (Running(env, s) ==>
          (PlaceKeepsCounts(env, c, m, m.level, s); Breaks(env, c, m, m.level, parent, Shifted(c, m, parent, s))))
  }

  ghost function ContEnd(env: Env, c: Call, m: Entry, parent: int, s: Core): Option<int>
    requires Place(c, m, m.level, s).Placed?
  {
    env.extent(m, SeenAt(env, c, m, m.level, parent, Shifted(c, m, parent, s)))
  }

  /** What testing a continuation records. */
  function StepOf(m: Entry, sib: Sibling, t: Tested): Step {
    match t
    case Tested(_, _, v) => Step(m, sib, true, v)
    case _ => Step(m, sib, false, Absent)
  }

  /**
   * A continuation matches exactly when its test passes; the match is acted on unless the entry is a default
   * that has been superseded, or an annotation, which ends the activation; and the children are entered
   * exactly when the end is in range.
   */
  lemma ContExactly(env: Env, c: Call, m: Entry, parent: int, sib: Sibling, s: Core)
    requires Within(env, s) && !m.kind.Indirect?
    ensures var t, passes := Test(env, c, m, parent, sib, s), ContPasses(env, c, m, parent, sib, s);
            var q := StepOf(m, sib, t);
            && (q.Matched() <==> passes)
            && (q.tested && q.verdict == Leave(1) <==> passes && !Superseded(m, sib) && Annotated(env, m))
            && (q.tested && q.verdict == Leave(-1) <==> ContBreaks(env, c, m, parent, sib, s))
            && (q.tested && q.verdict.NoEnd? <==>
                passes && !Superseded(m, sib) && !Annotated(env, m) && ContEnd(env, c, m, parent, s) == None)
            && (q.tested && q.verdict.Deeper? <==>
                passes && !Superseded(m, sib) && !Annotated(env, m) && ContEnd(env, c, m, parent, s).Some?)
            && (q.tested && q.verdict.Deeper? ==> ContEnd(env, c, m, parent, s) == Some(q.verdict.end))
            && (q.tested && q.verdict.Leave? ==> q.verdict.code in {1, -1})
  {
    hide Value, Passes, Breaks, Annotate, AnnounceMore, Place, Checked, Annotated, Superseded, Moot, AfterMatch;
    if Asked(c, m, sib, s) {
      PlaceKeepsCounts(env, c, m, m.level, s);
      var s2 := Shifted(c, m, parent, s);
      if Running(env, s) {
        ValueDecides(env, c, m, m.level, parent, s2);
      } else {
        StoppedValue(env, c, m, m.level, parent, s2);
      }
    }
  }

  // ----- where an entry looks -----

  /** The entry counts its place from the end of the data. */
  predicate CountsBack(m: Entry, level: nat) { m.fromEnd && !(level > 0 && (m.offAdd || m.indirOffAdd)) }

  /**
   * An entry that counts from the end of a file looks at what follows that many bytes before the end, if it is
   * the whole file that is tested and no more bytes are counted back than it has, or than were read of it.
   */
  lemma LooksBack(c: Call, m: Entry, level: nat, s: Core)
    requires CountsBack(m, level) && !c.data.inMemory && |c.data.head| < 0x8000_0000
    ensures var r := Place(c, m, level, s);
            && (r.Unreadable? <==> c.data.file.None?)
            && (r.Placed? <==> c.data.file.Some? && c.base == 0 && 0 <= m.offset <= |c.data.head|
                               && m.offset <= |c.data.file.value|)
            && (r.Placed? ==>
                  var f, t := c.data.file.value, r.core;
                  0 <= t.offset <= |t.window| && t.window[t.offset..] == f[|f| - m.offset..])
  {
  }

  /** Every other entry can look: a head in what was read, and a continuation where it is told to. */
  lemma LooksForward(c: Call, m: Entry, level: nat, s: Core)
    requires !CountsBack(m, level)
    ensures var r := Place(c, m, level, s);
            && r.Placed?
            && (level == 0 || m.fromStart || m.fromEnd ==> r.core.window == c.data.head)
            && (0 <= m.offset < 0x1_0000_0000 && !m.fromEnd && (level == 0 || m.fromStart) ==> r.core.offset == m.offset)
            && (level > 0 && !m.fromStart && !m.fromEnd ==>
                  r.core.window == s.window && (r.core.offset - (s.eoffset + m.offset)) % 0x1_0000_0000 == 0)
  {
  }
}
