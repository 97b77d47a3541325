/** Loading rules: lines are grouped into rules, their conditions checked, and the rules coalesced and looked up. */
module MagicRules {
  import opened Bytes
  import opened SoftmagicEntry
  import MagicDb

  // ----- if, elif and else -----

  /** check_cond: what the level remembers after a line, if the line may stand there. */
  function CondNext(last: Cond, cond: Cond): Option<Cond> {
    match cond
    case If => if last == NoCond || last == Elif then Some(If) else None
    case Elif => if last == If || last == Elif then Some(Elif) else None
    case Else => if last == If || last == Elif then Some(NoCond) else None
    case NoCond => Some(NoCond)
  }

  function After(cond: Cond): Cond { if cond == Else then NoCond else cond }

  /** file_check_mem: the table is long enough for `level`, which is reset; new slots hold whatever was there. */
  function Reset(li: seq<Cond>, level: nat, junk: Cond): (r: seq<Cond>)
    ensures |r| > level && |r| >= |li|
  {
    (if level < |li| then li else li + seq(20 + level - |li|, _ => junk))[level := NoCond]
  }

  // ----- the loader -----

  datatype Loader = Loader(
    li: seq<Cond>, last: nat, current: seq<Entry>, plain: seq<seq<Entry>>, named: seq<seq<Entry>>, errs: nat)

  /** A rule's entry may be relative to nothing at level 0, and be a name nowhere else. */
  predicate Placeable(m: Entry) {
    if m.level == 0 then !m.offAdd && !m.indirOffAdd else !m.kind.Name?
  }

  /** The table as it is when the line at this level is looked at. */
  function Opened(s: Loader, m: Entry, junk: Cond): (t: Loader)
    ensures m.level == 0 ==> |t.li| > 0
  {
    var li := if m.level == 0 || m.level > s.last then Reset(s.li, m.level, junk) else s.li;
    s.(li := li, last := m.level)
  }

  /** A line joins the current rule, or starts one when there is none. */
  function Joined(s: Loader, m: Entry): Loader
    requires m.level < |s.li|
  {
    var t := s.(current := s.current + [m]);
    if m.level == 0 && !Placeable(m) then t.(errs := t.errs + 1)
    else
      match CondNext(s.li[m.level], m.cond)
      case None => t.(errs := t.errs + 1)
      case Some(c) =>
        var u := t.(li := s.li[m.level := c]);
        if Placeable(m) then u else u.(errs := u.errs + 1)
  }

  /** The current rule goes to the set of its kind. */
  function Closed(s: Loader): Loader {
    if s.current == [] then s
    else if s.current[0].kind.Name? then s.(named := s.named + [s.current], current := [])
    else s.(plain := s.plain + [s.current], current := [])
  }

  predicate Sized(s: Loader) { s.current == [] || s.last < |s.li| }

  function Line(s: Loader, m: Entry, junk: Cond): (t: Loader)
    requires Sized(s)
    ensures Sized(t) && t.errs >= s.errs
  {
    var o := Opened(s, m, junk);
    if m.level == 0 then Joined(Opened(Closed(o), m, junk), m)
    else if s.current == [] then o.(errs := o.errs + 1)
    else Joined(o, m)
  }

  function Lines(s: Loader, ms: seq<Entry>, junk: Cond): (t: Loader)
    requires Sized(s)
    ensures Sized(t) && t.errs >= s.errs
  {
    if ms == [] then s else Line(Lines(s, ms[..|ms| - 1], junk), ms[|ms| - 1], junk)
  }

  // ----- what the lines mean -----

  /** The rules of a list of lines: each a line of level 0 and the deeper ones after it. */
  function Groups(ms: seq<Entry>): seq<seq<Entry>>
    decreases |ms|
  {
    if ms == [] then []
    else
      var n := Conts(ms[1..]);
      [ms[..1 + n]] + Groups(ms[1 + n..])
  }

  function Concat(gs: seq<seq<Entry>>): seq<Entry> {
    if gs == [] then [] else gs[0] + Concat(gs[1..])
  }

  predicate IsRule(g: seq<Entry>) { g != [] && g[0].level == 0 && AllDeeper(g[1..], 0) }

  predicate AllRules(gs: seq<seq<Entry>>) { forall i | 0 <= i < |gs| :: IsRule(gs[i]) }

  /** The groups of one set: named rules, or the others. */
  function Set(gs: seq<seq<Entry>>, named: bool): seq<seq<Entry>> {
    if gs == [] then []
    else (if gs[0] != [] && gs[0][0].kind.Name? == named then [gs[0]] else []) + Set(gs[1..], named)
  }

  /** What stands before a new line at `level` among its siblings. */
  function LastCond(ms: seq<Entry>, level: nat): Cond {
    if ms == [] then NoCond
    else
      var e := ms[|ms| - 1];
      if e.level < level then NoCond
      else if e.level == level then After(e.cond)
      else LastCond(ms[..|ms| - 1], level)
  }

  /** The line's condition fits the sibling before it; rules have no siblings. */
  predicate Fits(ms: seq<Entry>, i: nat)
    requires i < |ms|
  {
    CondNext(if ms[i].level == 0 then NoCond else LastCond(ms[..i], ms[i].level), ms[i].cond).Some?
  }

  /** Lines as they are meant: a rule comes first, and every line stands where it may among its siblings. */
  ghost predicate Good(ms: seq<Entry>) {
    && (ms != [] ==> ms[0].level == 0)
    && (forall i | 0 <= i < |ms| :: Placeable(ms[i]) && Fits(ms, i))
  }

  /** No line is more than one level deeper than the one before it. */
  predicate NoSkip(ms: seq<Entry>) {
    forall i | 1 <= i < |ms| :: ms[i].level <= ms[i - 1].level + 1
  }

  // ----- what the loader remembers -----

  /** One slot of the table; the slots past its end hold `junk` once they are there. */
  function Slot(li: seq<Cond>, k: nat, junk: Cond): Cond { if k < |li| then li[k] else junk }

  /** What the loader remembers for `level` after `ms`: the last line of exactly that level, in whatever group it was. */
  function Memory(li: seq<Cond>, ms: seq<Entry>, level: nat, junk: Cond): Cond {
    if ms == [] then Slot(li, level, junk)
    else if ms[|ms| - 1].level == level then After(ms[|ms| - 1].cond)
    else Memory(li, ms[..|ms| - 1], level, junk)
  }

  /** The line's condition passes: it is held against what is remembered, unless its level was just opened. */
  predicate Passes(li: seq<Cond>, ms: seq<Entry>, i: nat, junk: Cond)
    requires i < |ms|
  {
    var m := ms[i];
    var begun := m.level == 0 || (i > 0 && ms[i - 1].level < m.level);
    CondNext(if begun then NoCond else Memory(li, ms[..i], m.level, junk), m.cond).Some?
  }

  /** The lines a loader with the table `li` accepts. */
  ghost predicate Loads(li: seq<Cond>, ms: seq<Entry>, junk: Cond) {
    && (ms != [] ==> ms[0].level == 0)
    && (forall i | 0 <= i < |ms| :: Placeable(ms[i]) && Passes(li, ms, i, junk))
  }

  lemma NothingLoads(li: seq<Cond>, junk: Cond)
    ensures Loads(li, [], junk)
  {
  }

  lemma LoadsPrefix(li: seq<Cond>, ms: seq<Entry>, m: Entry, junk: Cond)
    requires ms != []
    ensures Loads(li, ms + [m], junk) <==> Loads(li, ms, junk) && Placeable(m) && Passes(li, ms + [m], |ms|, junk)
  {
    var all := ms + [m];
    forall i | 0 <= i < |ms| ensures Passes(li, all, i, junk) == Passes(li, ms, i, junk) && all[i] == ms[i] {
      assert all[..i] == ms[..i];
    }
    assert all[|ms|] == m;
  }

  /** The table holds for every level what is to be remembered. */
  ghost predicate Tracks(li: seq<Cond>, t: Loader, ms: seq<Entry>, junk: Cond) {
    && ms != [] && t.current != [] && t.last == ms[|ms| - 1].level < |t.li|
    && (forall k: nat | 1 <= k :: Slot(t.li, k, junk) == Memory(li, ms, k, junk))
  }

  /** A loader reads lines without an error exactly when they load. */
  lemma {:induction false} LinesChecked(s: Loader, ms: seq<Entry>, junk: Cond)
    requires s.current == [] && s.errs == 0
    ensures Lines(s, ms, junk).errs == 0 <==> Loads(s.li, ms, junk)
    ensures ms != [] && Loads(s.li, ms, junk) ==> Tracks(s.li, Lines(s, ms, junk), ms, junk)
  {
    hide Line, Lines, Loads, Tracks, Passes, Memory;
    if ms == [] {
      NothingLoads(s.li, junk);
      NoLines(s, junk);
    } else {
      var pre, m := ms[..|ms| - 1], ms[|ms| - 1];
      LinesChecked(s, pre, junk);
      assert ms == pre + [m];
      LinesSnoc(s, pre, m, junk);
      if pre == [] {
        NoLines(s, junk);
        FirstLine(s, m, junk);
      } else {
        LoadsPrefix(s.li, pre, m, junk);
        if Loads(s.li, pre, junk) {
          NextLine(s.li, Lines(s, pre, junk), pre, m, junk);
        }
      }
    }
  }

  lemma FirstLine(s: Loader, m: Entry, junk: Cond)
    requires s.current == [] && s.errs == 0
    ensures var t := Line(s, m, junk);
            && (t.errs == 0 <==> Loads(s.li, [m], junk))
            && (Loads(s.li, [m], junk) ==> Tracks(s.li, t, [m], junk))
  {
    var t := Line(s, m, junk);
    assert [m][..0] == [];
    assert Loads(s.li, [m], junk) <==> m.level == 0 && Placeable(m) && Passes(s.li, [m], 0, junk);
    forall k: nat | 1 <= k && m.level == 0 ensures Memory(s.li, [m], k, junk) == Slot(s.li, k, junk) {}
  }

  lemma NextLine(li: seq<Cond>, s: Loader, pre: seq<Entry>, m: Entry, junk: Cond)
    requires Tracks(li, s, pre, junk) && s.errs == 0
    ensures var t := Line(s, m, junk);
            && (t.errs == 0 <==> Placeable(m) && Passes(li, pre + [m], |pre|, junk))
            && (t.errs == 0 ==> Tracks(li, t, pre + [m], junk))
  {
    var ms := pre + [m];
    assert ms[..|pre|] == pre;
    var t := Line(s, m, junk);
    if m.level > 0 {
      assert Slot(s.li, m.level, junk) == Memory(li, pre, m.level, junk);
    }
    forall k: nat | 1 <= k && t.errs == 0 ensures Slot(t.li, k, junk) == Memory(li, ms, k, junk) {
      assert Slot(s.li, k, junk) == Memory(li, pre, k, junk);
    }
  }

  // ----- what it should remember -----

  /** The last line of exactly `level` lies in an earlier group: a shallower line came after it. */
  ghost predicate Crossed(ms: seq<Entry>, level: nat) {
    exists x | 0 <= x < |ms| :: ms[x].level < level && NoneAt(ms, level, x)
  }

  predicate NoneAt(ms: seq<Entry>, level: nat, x: nat) { forall y | x <= y < |ms| :: ms[y].level != level }

  lemma {:induction false} SiblingOrMemory(li: seq<Cond>, ms: seq<Entry>, level: nat, junk: Cond)
    requires ms != [] && ms[0].level == 0 < level
    ensures LastCond(ms, level) == if Crossed(ms, level) then NoCond else Memory(li, ms, level, junk)
  {
    var n := |ms| - 1;
    var e, pre := ms[n], ms[..n];
    if e.level < level {
      assert NoneAt(ms, level, n);
    } else if e.level == level {
      assert forall x | 0 <= x <= n :: !NoneAt(ms, level, x);
    } else {
      SiblingOrMemory(li, pre, level, junk);
      CrossedBefore(ms, level);
    }
  }

  lemma CrossedBefore(ms: seq<Entry>, level: nat)
    requires ms != [] && ms[|ms| - 1].level > level
    ensures Crossed(ms, level) <==> Crossed(ms[..|ms| - 1], level)
  {
    var n := |ms| - 1;
    var pre := ms[..n];
    if x :| 0 <= x < |ms| && ms[x].level < level && NoneAt(ms, level, x) {
      assert pre[x].level < level && NoneAt(pre, level, x);
    }
    if x :| 0 <= x < |pre| && pre[x].level < level && NoneAt(pre, level, x) {
      forall y | x <= y < |ms| ensures ms[y].level != level {
        if y < n { assert ms[y] == pre[y]; }
      }
      assert ms[x].level < level && NoneAt(ms, level, x);
    }
  }

  /**
   * Exactly when the loader's table is stale: the line before is deeper, so its level is not opened again, and
   * the last line of its level lies in an earlier group. Only then is a condition not held against its sibling.
   */
  lemma StaleExactly(li: seq<Cond>, ms: seq<Entry>, i: nat, junk: Cond)
    requires 0 < i < |ms| && ms[0].level == 0
    ensures var m := ms[i];
            Passes(li, ms, i, junk) <==>
            if m.level > 0 && ms[i - 1].level > m.level && Crossed(ms[..i], m.level)
            then CondNext(Memory(li, ms[..i], m.level, junk), m.cond).Some?
            else Fits(ms, i)
  {
    var m, pre := ms[i], ms[..i];
    if m.level > 0 {
      SiblingOrMemory(li, pre, m.level, junk);
      if ms[i - 1].level == m.level {
        assert forall x | 0 <= x < |pre| :: !NoneAt(pre, m.level, x) by { assert pre[i - 1].level == m.level; }
      } else if ms[i - 1].level < m.level {
        assert pre[i - 1].level < m.level;
      }
    }
  }

  /**
   * An `elif` or `else` with no branch before it in its group is let through exactly when the line before it is
   * deeper and the last line of its level, in an earlier group, was an `if` or `elif`.
   */
  lemma OrphanLetThrough(li: seq<Cond>, ms: seq<Entry>, i: nat, junk: Cond)
    requires 0 < i < |ms| && ms[0].level == 0 && ms[i].cond in {Elif, Else}
    ensures Passes(li, ms, i, junk) && !Fits(ms, i) <==>
            && 0 < ms[i].level < ms[i - 1].level && Crossed(ms[..i], ms[i].level)
            && Memory(li, ms[..i], ms[i].level, junk) in {If, Elif}
  {
    StaleExactly(li, ms, i, junk);
    if ms[i].level > 0 { SiblingOrMemory(li, ms[..i], ms[i].level, junk); }
  }

  /** In the same way an `if` that could stand where it does is refused: exactly when what is remembered is open. */
  lemma IfRefused(li: seq<Cond>, ms: seq<Entry>, i: nat, junk: Cond)
    requires 0 < i < |ms| && ms[0].level == 0 && ms[i].cond == If
    ensures !Passes(li, ms, i, junk) && Fits(ms, i) <==>
            && 0 < ms[i].level < ms[i - 1].level && Crossed(ms[..i], ms[i].level)
            && Memory(li, ms[..i], ms[i].level, junk) !in {NoCond, Elif}
  {
    StaleExactly(li, ms, i, junk);
    if ms[i].level > 0 { SiblingOrMemory(li, ms[..i], ms[i].level, junk); }
  }

  /** No level is skipped, so going deeper passes every level in between. */
  lemma {:induction false} PassesLevel(ms: seq<Entry>, x: nat, y: nat, level: nat)
    requires NoSkip(ms) && x <= y < |ms| && ms[x].level < level <= ms[y].level
    ensures !NoneAt(ms[..y + 1], level, x)
    decreases y - x
  {
    if ms[y].level != level {
      PassesLevel(ms, x, y - 1, level);
      var z :| x <= z < y && ms[..y][z].level == level;
      assert ms[..y + 1][z].level == level;
    } else {
      assert ms[..y + 1][y].level == level;
    }
  }

  lemma NotCrossed(ms: seq<Entry>, i: nat)
    requires NoSkip(ms) && 0 < i < |ms| && ms[i - 1].level > ms[i].level
    ensures !Crossed(ms[..i], ms[i].level)
  {
    var level := ms[i].level;
    forall x | 0 <= x < i && ms[x].level < level ensures !NoneAt(ms[..i], level, x) {
      PassesLevel(ms, x, i - 1, level);
    }
  }

  /** Where no level is skipped the loader accepts exactly the lines that fit their siblings. */
  lemma UnskippedIsGood(li: seq<Cond>, ms: seq<Entry>, junk: Cond)
    requires NoSkip(ms)
    ensures Loads(li, ms, junk) <==> Good(ms)
  {
    hide NoSkip, Fits, Passes;
    if ms != [] && ms[0].level == 0 {
      forall i | 0 <= i < |ms| ensures Passes(li, ms, i, junk) == Fits(ms, i) {
        if i == 0 {
          FirstFits(li, ms, junk);
        } else {
          StaleExactly(li, ms, i, junk);
          if ms[i - 1].level > ms[i].level { NotCrossed(ms, i); }
        }
      }
    }
  }

  lemma FirstFits(li: seq<Cond>, ms: seq<Entry>, junk: Cond)
    requires ms != [] && ms[0].level == 0
    ensures Passes(li, ms, 0, junk) == Fits(ms, 0)
  {
  }

  // ----- grouping -----

  lemma {:induction false} GroupsSnoc(ms: seq<Entry>, m: Entry)
    requires ms != []
    ensures Groups(ms) != []
    ensures var gs := Groups(ms);
            Groups(ms + [m]) == if m.level == 0 then gs + [[m]] else gs[..|gs| - 1] + [gs[|gs| - 1] + [m]]
    decreases |ms|
  {
    hide Groups, Conts;
    var n := Conts(ms[1..]);
    var more := ms[1 + n..];
    GroupsStep(ms);
    GroupsStep(ms + [m]);
    assert (ms + [m])[1..] == ms[1..] + [m];
    ContsSnoc(ms[1..], m);
    if more == [] {
      assert ms == ms[..1 + n];
      GroupsNone();
      assert Groups(ms) == [ms];
      if m.level == 0 {
        assert (ms + [m])[1 + n..] == [m] && (ms + [m])[..1 + n] == ms;
        GroupsOne(m);
      } else {
        assert (ms + [m])[2 + n..] == [] && (ms + [m])[..2 + n] == ms + [m];
      }
    } else {
      assert (ms + [m])[1 + n..] == more + [m] && (ms + [m])[..1 + n] == ms[..1 + n];
      GroupsSnoc(more, m);
    }
  }

  lemma GroupsNone()
    ensures Groups([]) == []
  {
  }

  lemma GroupsStep(ms: seq<Entry>)
    requires ms != []
    ensures Groups(ms) == [ms[..1 + Conts(ms[1..])]] + Groups(ms[1 + Conts(ms[1..])..])
  {
    hide Conts;
  }

  lemma GroupsOne(m: Entry)
    ensures Groups([m]) == [[m]]
  {
    GroupsStep([m]);
    assert [m][1..] == [] && [m][..1] == [m];
  }

  lemma {:induction false} ContsSnoc(ms: seq<Entry>, m: Entry)
    ensures Conts(ms + [m]) == if Conts(ms) < |ms| then Conts(ms) else |ms| + if m.level == 0 then 0 else 1
  {
    if ms != [] {
      assert (ms + [m])[1..] == ms[1..] + [m];
      ContsSnoc(ms[1..], m);
    }
  }

  lemma {:induction false} SetSnoc(gs: seq<seq<Entry>>, g: seq<Entry>, named: bool)
    requires g != []
    ensures Set(gs + [g], named) == Set(gs, named) + if g[0].kind.Name? == named then [g] else []
  {
    if gs != [] {
      assert (gs + [g])[1..] == gs[1..] + [g];
      SetSnoc(gs[1..], g, named);
    }
  }

  /** The loader's group is the last of the lines' groups, and its sets hold the others. */
  ghost predicate Grouped(s: Loader, t: Loader, ms: seq<Entry>) {
    && Groups(ms) != []
    && var gs := Groups(ms);
       var n := |gs| - 1;
       && t.current == gs[n] != []
       && t.plain == s.plain + Set(gs[..n], false) && t.named == s.named + Set(gs[..n], true)
  }

  lemma {:induction false} LinesGrouped(s: Loader, ms: seq<Entry>, junk: Cond)
    requires s.current == [] && ms != [] && Lines(s, ms, junk).errs == 0
    ensures Grouped(s, Lines(s, ms, junk), ms)
  {
    hide Line, Groups, Set, Grouped;
    var pre, m := ms[..|ms| - 1], ms[|ms| - 1];
    assert ms == pre + [m];
    if pre == [] {
      FirstGroup(s, m, junk);
    } else {
      LinesGrouped(s, pre, junk);
      NextGroup(s, Lines(s, pre, junk), pre, m, junk);
    }
  }

  lemma FirstGroup(s: Loader, m: Entry, junk: Cond)
    requires s.current == [] && Line(s, m, junk).errs == 0
    ensures Grouped(s, Line(s, m, junk), [m])
  {
    GroupsOne(m);
    assert [[m]][..0] == [];
  }

  lemma NextGroup(s: Loader, t: Loader, pre: seq<Entry>, m: Entry, junk: Cond)
    requires Sized(t) && pre != [] && Grouped(s, t, pre)
    ensures Grouped(s, Line(t, m, junk), pre + [m])
  {
    hide Groups, Set, Conts, Line;
    var gs := Groups(pre);
    var n := |gs| - 1;
    GroupsSnoc(pre, m);
    LineGroups(t, m, junk);
    if m.level == 0 {
      assert gs == gs[..n] + [gs[n]];
      SetSnoc(gs[..n], gs[n], true);
      SetSnoc(gs[..n], gs[n], false);
      assert (gs + [[m]])[..n + 1] == gs;
    } else {
      assert (gs[..n] + [gs[n] + [m]])[..n] == gs[..n];
    }
  }

  /** What a line does to the rules read. */
  lemma LineGroups(t: Loader, m: Entry, junk: Cond)
    requires Sized(t) && t.current != []
    ensures var u := Line(t, m, junk);
            if m.level == 0 then u.current == [m] && u.plain == Closed(t).plain && u.named == Closed(t).named
            else u.current == t.current + [m] && u.plain == t.plain && u.named == t.named
  {
    hide CondNext, Reset;
  }

  /** A whole file: what is left at its end is a rule too. */
  function File(s: Loader, ms: seq<Entry>, junk: Cond): Loader
    requires Sized(s)
  {
    Closed(Lines(s, ms, junk))
  }

  /**
   * A file of lines is read without an error exactly when the lines load; its rules then join the two sets in
   * order, and nothing is left over.
   */
  lemma FileLoads(s: Loader, ms: seq<Entry>, junk: Cond)
    requires s.current == [] && s.errs == 0
    ensures var t := File(s, ms, junk);
            && (t.errs == 0 <==> Loads(s.li, ms, junk))
            && (t.errs == 0 ==> t.plain == s.plain + Set(Groups(ms), false) && t.named == s.named + Set(Groups(ms), true))
            && (t.errs == 0 ==> t.current == [])
  {
    hide Lines, Set, Groups, Loads, Tracks;
    LinesChecked(s, ms, junk);
    var t := Lines(s, ms, junk);
    if ms == [] {
      assert t == s by { NoLines(s, junk); }
      NothingSet();
    } else if t.errs == 0 {
      LinesGrouped(s, ms, junk);
      var gs := Groups(ms);
      var n := |gs| - 1;
      assert gs == gs[..n] + [gs[n]];
      SetSnoc(gs[..n], gs[n], true);
      SetSnoc(gs[..n], gs[n], false);
    }
  }

  /** Where no level is skipped: exactly when a rule comes first and every line stands where it may. */
  lemma UnskippedFileLoads(s: Loader, ms: seq<Entry>, junk: Cond)
    requires s.current == [] && s.errs == 0 && NoSkip(ms)
    ensures File(s, ms, junk).errs == 0 <==> Good(ms)
  {
    hide Loads, Good, NoSkip;
    FileLoads(s, ms, junk);
    UnskippedIsGood(s.li, ms, junk);
  }

  lemma NoLines(s: Loader, junk: Cond)
    requires Sized(s)
    ensures Lines(s, [], junk) == s
  {
  }

  lemma NothingSet()
    ensures Groups([]) == [] && Set([], true) == [] && Set([], false) == []
  {
  }

  /** A line that skips a level leaves the one it skipped as it was: an `else` with no `if` is let through there. */
  lemma SkippedLevelIsStale(e: Entry, s: Loader, junk: Cond)
    requires s.current == [] && s.errs == 0
    requires e.kind.Compare? && !e.offAdd && !e.indirOffAdd && e.cond == NoCond
    ensures var ms := [e.(level := 0), e.(level := 1, cond := If), e.(level := 0), e.(level := 2), e.(level := 1, cond := Else)];
            Lines(s, ms, junk).errs == 0 && !Good(ms)
  {
    hide Lines, Line, Fits, Good;
    var a, b, c, d := e.(level := 0), e.(level := 1, cond := If), e.(level := 2), e.(level := 1, cond := Else);
    NoLines(s, junk);
    StaleSteps(s, a, b, c, d, junk);
    LinesSnoc(s, [], a, junk);
    LinesSnoc(s, [a], b, junk);
    LinesSnoc(s, [a, b], a, junk);
    LinesSnoc(s, [a, b, a], c, junk);
    LinesSnoc(s, [a, b, a, c], d, junk);
    var ms := [a, b, a, c, d];
    assert [] + [a] == [a] && [a] + [b] == [a, b] && [a, b] + [a] == [a, b, a] && [a, b, a] + [c] == [a, b, a, c];
    assert [a, b, a, c] + [d] == ms;
    StaleDoesNotFit(a, b, c, d);
  }

  lemma StaleDoesNotFit(a: Entry, b: Entry, c: Entry, d: Entry)
    requires a.level == 0 && c.level == 2 && d.level == 1 && d.cond == Else
    ensures !Good([a, b, a, c, d])
  {
    var ms := [a, b, a, c, d];
    assert ms[..4] == [a, b, a, c] && [a, b, a, c][..3] == [a, b, a];
    assert LastCond([a, b, a], 1) == NoCond;
    assert LastCond([a, b, a, c], 1) == LastCond([a, b, a], 1);
    assert !Fits(ms, 4);
  }

  lemma LinesSnoc(s: Loader, ms: seq<Entry>, m: Entry, junk: Cond)
    requires Sized(s)
    ensures Lines(s, ms + [m], junk) == Line(Lines(s, ms, junk), m, junk)
  {
    hide Line;
    assert (ms + [m])[..|ms|] == ms;
  }

  lemma StaleSteps(s: Loader, a: Entry, b: Entry, c: Entry, d: Entry, junk: Cond)
    requires s.current == [] && s.errs == 0
    requires forall m | m in {a, b, c, d} :: Placeable(m)
    requires a.level == 0 && a.cond == NoCond && b.level == 1 && b.cond == If
    requires c.level == 2 && c.cond == NoCond && d.level == 1 && d.cond == Else
    ensures Line(Line(Line(Line(Line(s, a, junk), b, junk), a, junk), c, junk), d, junk).errs == 0
  {
    hide Line;
    var s1 := Line(s, a, junk);
    TopStep(s, a, junk);
    DeepStep(s1, b, junk);
    var s2 := Line(s1, b, junk);
    TopStep(s2, a, junk);
    var s3 := Line(s2, a, junk);
    DeepStep(s3, c, junk);
    var s4 := Line(s3, c, junk);
    DeepStep(s4, d, junk);
  }

  lemma TopStep(s: Loader, m: Entry, junk: Cond)
    requires Sized(s) && s.errs == 0 && m.level == 0 && m.cond == NoCond && Placeable(m)
    ensures var t := Line(s, m, junk);
            && t.errs == 0 && t.last == 0 && t.current != [] && |t.li| >= |s.li| && |t.li| > 0
            && (forall k | 1 <= k < |s.li| :: t.li[k] == s.li[k])
  {
  }

  lemma DeepStep(s: Loader, m: Entry, junk: Cond)
    requires s.current != [] && s.last < |s.li| && s.errs == 0 && m.level > 0 && Placeable(m)
    requires CondNext(if m.level > s.last then NoCond else s.li[m.level], m.cond).Some?
    ensures var t := Line(s, m, junk);
            && t.errs == 0 && t.last == m.level && t.current != [] && |t.li| >= |s.li| && |t.li| > m.level
            && t.li[m.level] == After(m.cond)
            && (forall k | 0 <= k < |s.li| && k != m.level :: t.li[k] == s.li[k])
  {
  }

  /**
   * In a file that loads and skips no level, every `elif` and `else` belongs to a chain: an earlier `if` of its
   * level, with nothing but deeper lines and `elif`s of that level between them.
   */
  lemma BranchHasHead(s: Loader, ms: seq<Entry>, junk: Cond, i: nat) returns (j: nat)
    requires s.current == [] && s.errs == 0 && NoSkip(ms) && File(s, ms, junk).errs == 0
    requires i < |ms| && ms[i].cond in {Elif, Else}
    ensures j < i && ms[j].level == ms[i].level > 0 && ms[j].cond == If
    ensures forall k | j < k < i :: ms[k].level > ms[i].level || (ms[k].level == ms[i].level && ms[k].cond == Elif)
  {
    hide File, NoSkip, Fits;
    UnskippedFileLoads(s, ms, junk);
    j := ChainHead(ms, i);
  }

  lemma {:induction false} ChainHead(ms: seq<Entry>, i: nat) returns (j: nat)
    requires i < |ms| && ms[i].cond in {Elif, Else}
    requires forall k | 0 <= k <= i :: Fits(ms, k)
    ensures j < i && ms[j].level == ms[i].level > 0 && ms[j].cond == If
    ensures forall k | j < k < i :: ms[k].level > ms[i].level || (ms[k].level == ms[i].level && ms[k].cond == Elif)
  {
    assert Fits(ms, i);
    var level := ms[i].level;
    j := LastSibling(ms[..i], level);
    if ms[j].cond == Elif {
      var between := j;
      j := ChainHead(ms, between);
    }
  }

  /** The sibling whose condition the table holds. */
  lemma {:induction false} LastSibling(ms: seq<Entry>, level: nat) returns (j: nat)
    requires LastCond(ms, level) != NoCond
    ensures j < |ms| && ms[j].level == level && LastCond(ms, level) == After(ms[j].cond)
    ensures forall k | j < k < |ms| :: ms[k].level > level
  {
    j := |ms| - 1;
    if ms[j].level > level {
      j := LastSibling(ms[..|ms| - 1], level);
    }
  }

  // ----- the rules put together -----

  lemma {:induction false} ConcatGroups(ms: seq<Entry>)
    ensures Concat(Groups(ms)) == ms
    decreases |ms|
  {
    if ms != [] {
      hide Conts;
      var n := Conts(ms[1..]);
      ConcatGroups(ms[1 + n..]);
      assert ms == ms[..1 + n] + ms[1 + n..];
    }
  }

  lemma {:induction false} GroupsAreRules(ms: seq<Entry>)
    requires ms != [] ==> ms[0].level == 0
    ensures AllRules(Groups(ms))
    decreases |ms|
  {
    if ms != [] {
      var n := Conts(ms[1..]);
      GroupsAreRules(ms[1 + n..]);
      assert ms[..1 + n][1..] == ms[1..][..n];
    }
  }

  /** However the rules are put together, they can be told apart again. */
  lemma {:induction false} RulesStayApart(gs: seq<seq<Entry>>)
    requires AllRules(gs)
    ensures Groups(Concat(gs)) == gs
  {
    hide Groups, Conts, IsRule;
    if gs == [] {
      GroupsNone();
    } else {
      assert AllRules(gs[1..]) && IsRule(gs[0]);
      RulesStayApart(gs[1..]);
      RestHead(gs);
      GroupsRule(gs[0], Concat(gs[1..]));
      assert gs == [gs[0]] + gs[1..];
    }
  }

  lemma GroupsRule(g: seq<Entry>, rest: seq<Entry>)
    requires IsRule(g) && (rest != [] ==> rest[0].level == 0)
    ensures Groups(g + rest) == [g] + Groups(rest)
  {
    hide Groups, Conts;
    GroupsStep(g + rest);
    assert (g + rest)[1..] == g[1..] + rest;
    ContsRule(g[1..], rest);
    assert (g + rest)[..|g|] == g && (g + rest)[|g|..] == rest;
  }

  lemma RestHead(gs: seq<seq<Entry>>)
    requires AllRules(gs) && gs != []
    ensures var rest := Concat(gs[1..]); rest != [] ==> rest[0].level == 0
  {
    if |gs| > 1 { assert IsRule(gs[1]); }
  }

  lemma {:induction false} ContsRule(deep: seq<Entry>, rest: seq<Entry>)
    requires AllDeeper(deep, 0) && (rest != [] ==> rest[0].level == 0)
    ensures Conts(deep + rest) == |deep|
  {
    if deep == [] {
      assert deep + rest == rest;
    } else {
      assert (deep + rest)[1..] == deep[1..] + rest;
      ContsRule(deep[1..], rest);
    }
  }

  lemma {:induction false} SetsConserve(gs: seq<seq<Entry>>)
    requires AllRules(gs)
    ensures AllRules(Set(gs, true)) && AllRules(Set(gs, false))
    ensures multiset(Set(gs, true)) + multiset(Set(gs, false)) == multiset(gs)
  {
    if gs != [] {
      assert AllRules(gs[1..]);
      SetsConserve(gs[1..]);
      assert gs == [gs[0]] + gs[1..];
    }
  }

  lemma {:induction false} ConcatTwo(a: seq<seq<Entry>>, b: seq<seq<Entry>>)
    ensures Concat(a + b) == Concat(a) + Concat(b)
  {
    if a == [] {
      assert a + b == b;
    } else {
      assert (a + b)[1..] == a[1..] + b;
      ConcatTwo(a[1..], b);
    }
  }

  lemma TakeOut(gs: seq<seq<Entry>>, hs: seq<seq<Entry>>, k: nat)
    requires multiset(gs) == multiset(hs) && gs != [] && k < |hs| && hs[k] == gs[0]
    ensures multiset(hs[..k] + hs[k + 1..]) == multiset(gs[1..])
    ensures hs == hs[..k] + [gs[0]] + hs[k + 1..]
  {
    assert hs == hs[..k] + [gs[0]] + hs[k + 1..];
    assert gs == [gs[0]] + gs[1..];
    var mine, theirs := multiset(gs[1..]), multiset(hs[..k] + hs[k + 1..]);
    assert multiset(gs) == multiset([gs[0]]) + mine;
    assert multiset(hs) == multiset(hs[..k] + [gs[0]]) + multiset(hs[k + 1..]);
    assert multiset(hs) == multiset([gs[0]]) + theirs;
    assert mine == multiset(gs) - multiset([gs[0]]);
    assert theirs == multiset(hs) - multiset([gs[0]]);
  }

  /** Sorting moves whole rules: the entries stay the same. */
  lemma {:induction false} SortConserves(gs: seq<seq<Entry>>, hs: seq<seq<Entry>>)
    requires multiset(gs) == multiset(hs)
    ensures multiset(Concat(gs)) == multiset(Concat(hs))
    ensures AllRules(gs) ==> AllRules(hs)
  {
    forall i | 0 <= i < |hs| && AllRules(gs) ensures IsRule(hs[i]) {
      assert hs[i] in multiset(hs) && hs[i] in multiset(gs);
      assert hs[i] in gs;
    }
    if gs == [] {
      assert |multiset(gs)| == |multiset(hs)|;
    } else {
      assert gs[0] in multiset(gs) && gs[0] in multiset(hs);
      var k :| 0 <= k < |hs| && hs[k] == gs[0];
      var rest := hs[..k] + hs[k + 1..];
      TakeOut(gs, hs, k);
      SortConserves(gs[1..], rest);
      ConcatTwo(hs[..k], hs[k + 1..]);
      ConcatTwo(hs[..k] + [gs[0]], hs[k + 1..]);
      ConcatTwo(hs[..k], [gs[0]]);
      assert Concat([gs[0]]) == gs[0];
    }
  }

  /** From the lines of a file to the two arrays of the database: no entry is lost, added or moved out of its rule. */
  lemma DatabaseConserves(s: Loader, ms: seq<Entry>, junk: Cond, plain: seq<seq<Entry>>, named: seq<seq<Entry>>)
    requires s.current == [] && s.errs == 0 && File(s, ms, junk).errs == 0
    requires multiset(plain) == multiset(Set(Groups(ms), false)) && multiset(named) == multiset(Set(Groups(ms), true))
    ensures AllRules(plain) && AllRules(named)
    ensures multiset(Concat(plain)) + multiset(Concat(named)) == multiset(ms)
    ensures Groups(Concat(plain)) == plain && Groups(Concat(named)) == named
  {
    hide Set, Groups, Concat, AllRules, File, Passes;
    FileLoads(s, ms, junk);
    var gs := Groups(ms);
    GroupsAreRules(ms);
    SetsConserve(gs);
    SortConserves(Set(gs, false), plain);
    SortConserves(Set(gs, true), named);
    RulesStayApart(plain);
    RulesStayApart(named);
    var both := Set(gs, true) + Set(gs, false);
    SortConserves(both, gs);
    ConcatTwo(Set(gs, true), Set(gs, false));
    ConcatGroups(ms);
    assert multiset(Concat(both)) == multiset(Concat(Set(gs, true))) + multiset(Concat(Set(gs, false)));
  }

  /** No rule before the `k`th has the name. */
  predicate FirstNamed(gs: seq<seq<Entry>>, name: string, k: nat)
    requires AllRules(gs)
  {
    k <= |gs| && (forall i | 0 <= i < k :: gs[i][0].kind != Name(name)) && (k < |gs| ==> gs[k][0].kind == Name(name))
  }

  predicate NamesAtTop(g: seq<Entry>) { forall i | 1 <= i < |g| :: !g[i].kind.Name? }

  /** Looking a name up gives the first rule of that name, whole and nothing else, or nothing when there is none. */
  lemma {:induction false} FindsRule(gs: seq<seq<Entry>>, name: string, k: nat)
    requires AllRules(gs) && FirstNamed(gs, name, k)
    requires forall i | 0 <= i < |gs| :: NamesAtTop(gs[i])
    ensures FindIn(Concat(gs), name) == if k < |gs| then Some(gs[k]) else None
  {
    if gs != [] {
      var g, rest := gs[0], Concat(gs[1..]);
      assert AllRules(gs[1..]);
      RestHead(gs);
      if k == 0 {
        assert (g + rest)[1..] == g[1..] + rest;
        ContsRule(g[1..], rest);
        assert (g + rest)[..|g|] == g;
      } else {
        FindsRule(gs[1..], name, k - 1);
        assert NamesAtTop(g);
        FindPast(g, rest, name);
      }
    }
  }

  lemma {:induction false} FindPast(g: seq<Entry>, rest: seq<Entry>, name: string)
    requires forall i | 0 <= i < |g| :: g[i].kind != Name(name)
    ensures FindIn(g + rest, name) == FindIn(rest, name)
  {
    if g == [] {
      assert g + rest == rest;
    } else {
      assert (g + rest)[1..] == g[1..] + rest;
      FindPast(g[1..], rest, name);
    }
  }

  predicate AllPlaceable(g: seq<Entry>) { forall i | 0 <= i < |g| :: Placeable(g[i]) }

  predicate AllGroups(gs: seq<seq<Entry>>) { forall i | 0 <= i < |gs| :: AllPlaceable(gs[i]) }

  lemma {:induction false} GroupsPlaceable(ms: seq<Entry>)
    requires AllPlaceable(ms)
    ensures AllGroups(Groups(ms))
    decreases |ms|
  {
    if ms != [] {
      hide Conts;
      GroupsPlaceable(ms[1 + Conts(ms[1..])..]);
    }
  }

  lemma {:induction false} SetMembers(gs: seq<seq<Entry>>, named: bool)
    ensures forall g | g in Set(gs, named) :: g in gs
  {
    if gs != [] {
      SetMembers(gs[1..], named);
    }
  }

  /** A name looked up in a loaded database: the first rule of that name in its sorted order, whole and nothing else. */
  lemma LoadedRuleFound(s: Loader, ms: seq<Entry>, junk: Cond, named: seq<seq<Entry>>, name: string, k: nat)
    requires s.current == [] && s.errs == 0 && File(s, ms, junk).errs == 0
    requires multiset(named) == multiset(Set(Groups(ms), true))
    requires AllRules(named) && FirstNamed(named, name, k)
    ensures FindIn(Concat(named), name) == if k < |named| then Some(named[k]) else None
  {
    hide Set, Groups, Concat, AllRules, Passes, File;
    FileLoads(s, ms, junk);
    GroupsPlaceable(ms);
    SetMembers(Groups(ms), true);
    forall i | 0 <= i < |named| ensures NamesAtTop(named[i]) {
      assert named[i] in multiset(named) && named[i] in multiset(Set(Groups(ms), true));
      assert named[i] in Set(Groups(ms), true);
      RuleNames(named, i);
    }
    FindsRule(named, name, k);
  }

  lemma RuleNames(gs: seq<seq<Entry>>, i: nat)
    requires i < |gs| && AllRules(gs) && AllPlaceable(gs[i])
    ensures NamesAtTop(gs[i])
  {
    var g := gs[i];
    assert IsRule(g);
    forall j | 1 <= j < |g| ensures !g[j].kind.Name? {
      assert g[j] == g[1..][j - 1] && g[1..][j - 1].level > 0;
    }
  }
}
