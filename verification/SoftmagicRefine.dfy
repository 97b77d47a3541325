/** The flat scan with its level table computes the tree evaluation. */
module SoftmagicRefine {
  import opened Bytes
  import opened SoftmagicEntry
  import opened SoftmagicScan
  import opened SoftmagicTree

  lemma {:induction false} FindInPlain(es: seq<Entry>, name: string)
    requires Plain(es)
    ensures FindIn(es, name).Some? ==> Plain(FindIn(es, name).value)
  {
    if es != [] && es[0].kind != Name(name) {
      FindInPlain(es[1..], name);
    }
  }

  lemma {:induction false} FindPlain(lists: seq<seq<Entry>>, name: string)
    requires forall i | 0 <= i < |lists| :: Plain(lists[i])
    ensures Find(lists, name).Some? ==> Plain(Find(lists, name).value)
  {
    if lists != [] {
      FindInPlain(lists[0], name);
      FindPlain(lists[1..], name);
    }
  }

  lemma RulePlain(env: Env, name: string)
    requires PlainEnv(env) && Find(env.named, name).Some?
    ensures Plain(Find(env.named, name).value)
  {
    FindPlain(env.named, name);
  }

  lemma {:induction false} ValueRefines(env: Env, c: Call, m: Entry, level: nat, parent: int, st: State)
    requires Within(env, st.core) && PlainEnv(env) && !m.kind.Indirect?
    ensures var g, f := Get(env, c, m, level, parent, st), Value(env, c, m, level, parent, st.core);
            g.st == State(st.tab, f.core) && g.code == f.code && g.value == f.value
    decreases env.nameMax - st.core.name, 0
  {
    hide Match, Evaluate, Find, Plain, PlainEnv, Checked, Place;
    var s := st.core;
    if s.indir < env.indirMax && s.name < env.nameMax {
      var f := env.fetch(m, ViewOf(c, s, level, parent));
      var s1 := s.(offset := Wrap32(f.offset));
      if f.code == 1 && m.kind.Use? && s1.offset <= |s.window| && Find(env.named, m.kind.rule).Some? {
        var es := Find(env.named, m.kind.rule).value;
        RulePlain(env, m.kind.rule);
        EvaluateRefines(env, UseCall(c, s1, m.kind.flips), es, State(st.tab, UseInner(m, s1)));
      }
    }
  }

  /** One activation, whatever the level table holds when it starts, computes the tree evaluation. */
  lemma {:induction false} EvaluateRefines(env: Env, c: Call, es: seq<Entry>, st: State)
    requires Within(env, st.core) && PlainEnv(env) && Plain(es)
    ensures Match(env, c, es, st).0.core == Evaluate(env, c, es, st.core).0
    ensures Match(env, c, es, st).1 == Evaluate(env, c, es, st.core).1
    decreases env.nameMax - st.core.name, 4
  {
    RulesRefine(env, c, es, State(Opened(st.tab, 0), st.core.(window := [])));
  }

  lemma {:induction false} OpenRefines(env: Env, c: Call, m: Entry, st: State)
    requires Within(env, st.core) && PlainEnv(env) && !m.kind.Indirect? && |st.tab| > 0
    ensures match Open(env, c, m, st.core)
            case NotTried(s) => Begin(env, c, m, st) == Past(State(st.tab, s))
            case NextLine(s) => Begin(env, c, m, st) == Again(State(st.tab, s))
            case Over(s, code) => Begin(env, c, m, st) == Ended(State(st.tab, s), code)
            case Matched(s, end) => Begin(env, c, m, st) == Inside(State(Opened(SetEnd(st.tab, 0, end), 1), s))
    decreases env.nameMax - st.core.name, 1
  {
    if !Skipped(c, m) && Place(c, m, 0, st.core).Placed? {
      ValueRefines(env, c, m, 0, 0, State(st.tab, Place(c, m, 0, st.core).core));
    }
  }

  lemma {:induction false} RulesRefine(env: Env, c: Call, es: seq<Entry>, st: State)
    requires Within(env, st.core) && PlainEnv(env) && Plain(es) && |st.tab| > 0
    ensures Rules(env, c, es, st).0.core == RulesFrom(env, c, es, st.core).0
    ensures Rules(env, c, es, st).1 == RulesFrom(env, c, es, st.core).1
    decreases env.nameMax - st.core.name, 3, |es|
  {
    hide Begin, Open, Scan, Group, FinishRule, Parse;
    if es != [] {
      var n := Conts(es[1..]);
      var conts, rest := es[1..1 + n], es[1 + n..];
      OpenRefines(env, c, es[0], st);
      match Begin(env, c, es[0], st)
      case Past(t) => RulesRefine(env, c, rest, t);
      case Again(t) => RulesRefine(env, c, es[1..], t);
      case Ended(t, code) =>
      case Inside(t) =>
        var end := t.tab[0].off;
        assert conts == es[1..][..n];
        ScanNone(env, c);
        var _, tab := GroupRefines(env, c, conts, [], 1, 1, t, end, FRESH);
        assert conts + [] == conts;
        match Group(env, c, Parse(conts), 1, end, FRESH, t.core)
        case Quit(_, _) =>
        case Jumped(s) => RulesRefine(env, c, rest, Scan(env, c, conts, 1, t).st);
        case Through(s) =>
          match FinishRule(env, s)
          case Stop(_) =>
          case GoOn(s2) => RulesRefine(env, c, rest, State(Scan(env, c, conts, 1, t).st.tab, s2));
    }
  }

  lemma ScanNone(env: Env, c: Call)
    ensures forall level: nat, st: State | Within(env, st.core) && level < |st.tab| ::
              Scan(env, c, [], level, st) == Fell(st)
  {
  }

  /** Testing one continuation: the table supplies the parent's end and the siblings' state. */
  lemma {:induction false} TestRefines(env: Env, c: Call, m: Entry, st: State)
    requires Within(env, st.core) && PlainEnv(env) && !m.kind.Indirect? && 0 < m.level < |st.tab|
    ensures var l := m.level;
            match Test(env, c, m, st.tab[l - 1].off, Siblings(st.tab, l), st.core)
            case Unplaced(s) => Try(env, c, m, st) == Skip(State(st.tab, s))
            case Abandoned(s) => Try(env, c, m, st) == Flush(State(st.tab, s))
            case Tested(s, sib, v) =>
              var tab := SetSiblings(st.tab, l, sib);
              Try(env, c, m, st) ==
                Tried(State(match v
                            case Deeper(end) => Opened(SetEnd(tab, l, end), l + 1)
                            case NoEnd => Opened(tab, l)
                            case _ => tab, s), v)
    decreases env.nameMax - st.core.name, 1
  {
    var l := m.level;
    if Place(c, m, l, st.core).Placed? {
      var s := Place(c, m, l, st.core).core;
      var s1 := if m.offAdd then s.(offset := Wrap32(s.offset + st.tab[l - 1].off)) else s;
      if !Moot(m, Siblings(st.tab, l)) {
        ValueRefines(env, c, m, l, st.tab[l - 1].off, State(st.tab, s1));
      }
    }
  }

  /** Entries deeper than the current level are passed over. */
  lemma {:induction false} DeepSkipped(env: Env, c: Call, xs: seq<Entry>, ys: seq<Entry>, level: nat, st: State)
    requires Within(env, st.core) && level < |st.tab|
    requires AllDeeper(xs, level)
    requires AllDeeper(ys, 0)
    ensures AllDeeper(xs + ys, 0)
    ensures Scan(env, c, xs + ys, level, st) == Scan(env, c, ys, level, st)
    decreases |xs|
  {
    if xs == [] {
      assert xs + ys == ys;
    } else {
      assert (xs + ys)[1..] == xs[1..] + ys;
      DeepSkipped(env, c, xs[1..], ys, level, st);
    }
  }

  /** A group of siblings at `level` or deeper, followed by entries that are not of the group. */
  predicate Shape(es: seq<Entry>, rest: seq<Entry>, level: nat)
    ensures Shape(es, rest, level) ==> AllDeeper(es + rest, 0) && AllDeeper(rest, 0) && level >= 1
    ensures Shape(es, rest, level) && es != [] ==> AllDeeper((es + rest)[1..], 0) && es[0].level >= level
  {
    && level >= 1 && Plain(es)
    && AllDeeper(es, level - 1) && AllDeeper(rest, 0)
    && (rest != [] ==> rest[0].level < level)
  }

  lemma PlainParts(es: seq<Entry>, a: nat, b: nat)
    requires Plain(es) && a <= b <= |es|
    ensures Plain(es[a..b]) && Plain(es[b..])
  {
  }

  lemma PlainFirst(es: seq<Entry>)
    requires Plain(es) && es != []
    ensures !es[0].kind.Indirect?
  {
  }

  lemma ShapeParts(es: seq<Entry>, rest: seq<Entry>, level: nat, n: nat)
    requires Shape(es, rest, level) && es != [] && n == Below(es[1..], es[0].level)
    ensures !es[0].kind.Indirect?
    ensures AllDeeper(es[1..1 + n], es[0].level) && AllDeeper(es[1 + n..] + rest, 0)
    ensures (es + rest)[1..] == es[1..1 + n] + (es[1 + n..] + rest)
    ensures Shape(es[1 + n..], rest, level)
    ensures es[0].level == level ==>
              (Shape(es[1..1 + n], es[1 + n..] + rest, level + 1)
               && (es[1 + n..] != [] ==> es[1 + n..][0].level == level))
  {
    hide Below, Plain, AllDeeper;
    PlainParts(es, 1, 1 + n);
    PlainFirst(es);
    Pieces(es, rest, n);
    DeeperPart(es, level - 1, 1, 1 + n);
    DeeperPart(es + rest, 0, 1 + n, |es + rest|);
    if es[0].level == level && es[1 + n..] != [] {
      NotDeeper(es, level, n);
    }
  }

  lemma Pieces(es: seq<Entry>, rest: seq<Entry>, n: nat)
    requires 1 + n <= |es|
    ensures (es + rest)[1..] == es[1..1 + n] + (es[1 + n..] + rest)
    ensures es[1..1 + n] == es[1..][..n]
    ensures es[1 + n..] + rest == (es + rest)[1 + n..|es + rest|]
    ensures es[1 + n..] != [] ==> es[1 + n..][0] == es[1..][n]
    ensures es[1 + n..] == [] ==> es[1 + n..] + rest == rest
  {
  }

  lemma DeeperPart(es: seq<Entry>, level: nat, a: nat, b: nat)
    requires AllDeeper(es, level) && a <= b <= |es|
    ensures AllDeeper(es[a..b], level) && AllDeeper(es[b..], level)
  {
  }

  lemma NotDeeper(es: seq<Entry>, level: nat, n: nat)
    requires level > 0 && AllDeeper(es, level - 1) && 1 + n < |es| && es[1..][n].level <= level
    ensures es[1 + n..][0].level == level
  {
  }

  /** How the scan, started on `es + rest`, stands after `es` in each outcome of the group `es` forms. */
  ghost predicate Follows(env: Env, c: Call, all: seq<Entry>, rest: seq<Entry>, level: nat, cur: nat, st: State,
                          w: Walked, cur': nat, tab': Table)
    requires Within(env, st.core) && cur < |st.tab|
    requires AllDeeper(all, 0)
    requires AllDeeper(rest, 0)
  {
    match w
    case Through(s) =>
      && level <= cur' < |tab'| && level <= |st.tab| <= |tab'| && Within(env, s)
      && (forall k | 0 <= k < level :: tab'[k] == st.tab[k])
      && Scan(env, c, all, cur, st) == Scan(env, c, rest, cur', State(tab', s))
    case Jumped(s) => Scan(env, c, all, cur, st).Flushed? && Scan(env, c, all, cur, st).st.core == s
    case Quit(s, code) =>
      && Scan(env, c, all, cur, st).Returned?
      && Scan(env, c, all, cur, st).st.core == s && Scan(env, c, all, cur, st).code == code
  }

  /** The same outcome, when the scan comes to the same whole. */
  lemma FollowsSame(env: Env, c: Call, all: seq<Entry>, cur: nat, st: State, all1: seq<Entry>, cur1: nat, st1: State,
                    rest: seq<Entry>, level: nat, w: Walked, cur': nat, tab': Table)
    requires Within(env, st.core) && cur < |st.tab| && Within(env, st1.core) && cur1 < |st1.tab|
    requires AllDeeper(all, 0) && AllDeeper(all1, 0) && AllDeeper(rest, 0)
    requires Scan(env, c, all, cur, st) == Scan(env, c, all1, cur1, st1)
    requires level <= |st.tab| <= |st1.tab| && forall k | 0 <= k < level :: st1.tab[k] == st.tab[k]
    requires Follows(env, c, all1, rest, level, cur1, st1, w, cur', tab')
    ensures Follows(env, c, all, rest, level, cur, st, w, cur', tab')
  {
    hide Scan;
  }

  lemma FollowsEnd(env: Env, c: Call, all: seq<Entry>, cur: nat, st: State, rest: seq<Entry>, level: nat,
                   w: Walked, cur': nat, tab': Table)
    requires Within(env, st.core) && cur < |st.tab| && AllDeeper(all, 0) && AllDeeper(rest, 0)
    requires w.Jumped? ==> Scan(env, c, all, cur, st).Flushed? && Scan(env, c, all, cur, st).st.core == w.core
    requires w.Quit? ==> Scan(env, c, all, cur, st).Returned? && Scan(env, c, all, cur, st).st.core == w.core
    requires w.Quit? ==> Scan(env, c, all, cur, st).code == w.code
    requires !w.Through?
    ensures Follows(env, c, all, rest, level, cur, st, w, cur', tab')
  {
    hide Scan;
  }

  lemma {:induction false} GroupRefines(env: Env, c: Call, es: seq<Entry>, rest: seq<Entry>, level: nat, cur: nat,
                                        st: State, parent: int, sib: Sibling)
    returns (cur': nat, tab': Table)
    requires Within(env, st.core) && PlainEnv(env) && Shape(es, rest, level)
    requires 1 <= level <= cur < |st.tab|
    requires cur == level || (es != [] ==> es[0].level == level)
    requires st.tab[level - 1].off == parent && Siblings(st.tab, level) == sib
    ensures AllDeeper(es + rest, 0)
    ensures Follows(env, c, es + rest, rest, level, cur, st,
                    Group(env, c, Parse(es), level, parent, sib, st.core), cur', tab')
    decreases env.nameMax - st.core.name, 2, |es|, 1
  {
    cur', tab' := cur, st.tab;
    if es == [] {
      assert es + rest == rest;
    } else {
      cur', tab' := NodeRefines(env, c, es, rest, level, cur, st, parent, sib);
    }
  }

  /** A first node whose level skips one is passed over with everything below it. */
  lemma {:induction false} Orphaned(env: Env, c: Call, es: seq<Entry>, rest: seq<Entry>, level: nat,
                                    st: State, parent: int, sib: Sibling)
    returns (cur': nat, tab': Table)
    requires Within(env, st.core) && PlainEnv(env) && Shape(es, rest, level) && es != [] && es[0].level > level
    requires 1 <= level < |st.tab|
    requires st.tab[level - 1].off == parent && Siblings(st.tab, level) == sib
    ensures var n := Below(es[1..], es[0].level);
            Follows(env, c, es + rest, rest, level, level, st,
                    Group(env, c, Parse(es[1 + n..]), level, parent, sib, st.core), cur', tab')
    decreases env.nameMax - st.core.name, 2, |es| - 1, 2
  {
    hide Scan, Group, Siblings, Follows, AllDeeper, Shape, Below, Parse;
    var m := es[0];
    var n := Below(es[1..], m.level);
    var kids, more := es[1..1 + n], es[1 + n..];
    ShapeParts(es, rest, level, n);
    SubtreeDeeper(m, kids, level);
    DeepSkipped(env, c, [m] + kids, more + rest, level, st);
    assert es + rest == [m] + (es + rest)[1..];
    assert ([m] + kids) + (more + rest) == [m] + (kids + (more + rest));
    cur', tab' := GroupRefines(env, c, more, rest, level, level, st, parent, sib);
    FollowsSame(env, c, es + rest, level, st, more + rest, level, st, rest, level,
                Group(env, c, Parse(more), level, parent, sib, st.core), cur', tab');
  }

  /** The first node of a group, and then the group without it. */
  lemma {:induction false} NodeRefines(env: Env, c: Call, es: seq<Entry>, rest: seq<Entry>, level: nat, cur: nat,
                                       st: State, parent: int, sib: Sibling)
    returns (cur': nat, tab': Table)
    requires Within(env, st.core) && PlainEnv(env) && Shape(es, rest, level) && es != []
    requires 1 <= level <= cur < |st.tab|
    requires cur == level || es[0].level == level
    requires st.tab[level - 1].off == parent && Siblings(st.tab, level) == sib
    ensures AllDeeper(es + rest, 0)
    ensures Follows(env, c, es + rest, rest, level, cur, st,
                    Group(env, c, Parse(es), level, parent, sib, st.core), cur', tab')
    decreases env.nameMax - st.core.name, 2, |es|, 0
  {
    hide Scan, Group, Test, Try, Siblings, Follows, AllDeeper, Place, Opened, SetEnd, SetSiblings, Shape, Below,
      Parse, PlainEnv;
    var m := es[0];
    var n := Below(es[1..], m.level);
    var kids, more := es[1..1 + n], es[1 + n..];
    ParseStep(es, n);
    assert (es + rest)[0] == m;
    ShapeParts(es, rest, level, n);
    GroupStep(env, c, Node(m, Parse(kids)), Parse(more), level, parent, sib, st.core);
    if m.level > level {
      cur', tab' := Orphaned(env, c, es, rest, level, st, parent, sib);
    } else {
      TestRefines(env, c, m, st);
      ScanStep(env, c, es + rest, cur, st);
      cur', tab' := cur, st.tab;
      match Test(env, c, m, parent, sib, st.core)
      case Unplaced(s) => cur', tab' := Passed(env, c, es, rest, level, cur, st, parent, sib, State(st.tab, s));
      case Abandoned(s) => FollowsEnd(env, c, es + rest, cur, st, rest, level, Jumped(s), cur', tab');
      case Tested(s, sib1, v) =>
        var tab := SetSiblings(st.tab, level, sib1);
        TableSet(st.tab, level, sib1);
        match v
        case Leave(code) => FollowsEnd(env, c, es + rest, cur, st, rest, level, Quit(s, code), cur', tab');
        case NoEnd =>
          cur', tab' := Passed(env, c, es, rest, level, cur, st, parent, FRESH, State(Opened(tab, level), s));
        case Deeper(end) =>
          cur', tab' := Descended(env, c, es, rest, level, cur, st, parent, sib1, end, s);
        case _ => cur', tab' := Passed(env, c, es, rest, level, cur, st, parent, sib1, State(tab, s));
    }
  }

  lemma SubtreeDeeper(m: Entry, kids: seq<Entry>, level: nat)
    requires m.level > level && AllDeeper(kids, m.level)
    ensures AllDeeper([m] + kids, level)
  {
  }

  lemma ScanStep(env: Env, c: Call, es: seq<Entry>, cur: nat, st: State)
    requires Within(env, st.core) && cur < |st.tab| && es != []
    requires AllDeeper(es, 0)
    requires es[0].level <= cur
    ensures AllDeeper(es[1..], 0)
    ensures Scan(env, c, es, cur, st) ==
            match Try(env, c, es[0], st)
            case Skip(t) => Scan(env, c, es[1..], es[0].level, t)
            case Flush(t) => Flushed(t)
            case Tried(t, v) =>
              match v
              case Leave(code) => Returned(t, code)
              case Deeper(_) => Scan(env, c, es[1..], es[0].level + 1, t)
              case _ => Scan(env, c, es[1..], es[0].level, t)
  {
  }

  lemma TableSet(tab: Table, level: nat, sib: Sibling)
    requires 0 < level < |tab|
    ensures var t := SetSiblings(tab, level, sib);
            && |t| == |tab| && t[level - 1].off == tab[level - 1].off && Siblings(t, level) == sib
            && (forall k | 0 <= k < level :: t[k] == tab[k])
            && |Opened(t, level)| == |tab| && Siblings(Opened(t, level), level) == FRESH
            && (forall k | 0 <= k < level :: Opened(t, level)[k] == tab[k])
  {
  }

  lemma TableEntered(tab: Table, level: nat, sib: Sibling, end: int)
    requires 0 < level < |tab|
    ensures var u := Opened(SetEnd(SetSiblings(tab, level, sib), level, end), level + 1);
            && |u| >= |tab| && u[level - 1].off == tab[level - 1].off
            && u[level].off == end && Siblings(u, level) == sib && Siblings(u, level + 1) == FRESH
            && (forall k | 0 <= k < level :: u[k] == tab[k])
  {
  }

  /** After a sibling that matched: its subtree as a group of its own, then the other siblings. */
  lemma {:induction false} Descended(env: Env, c: Call, es: seq<Entry>, rest: seq<Entry>, level: nat, cur: nat,
                                     st: State, parent: int, sib: Sibling, end: int, s: Core)
    returns (cur': nat, tab': Table)
    requires Within(env, st.core) && PlainEnv(env) && Shape(es, rest, level) && es != [] && es[0].level == level
    requires 1 <= level <= cur < |st.tab|
    requires st.tab[level - 1].off == parent
    requires Within(env, s) && s.name == st.core.name
    requires var t := State(Opened(SetEnd(SetSiblings(st.tab, level, sib), level, end), level + 1), s);
             Scan(env, c, es + rest, cur, st) == Scan(env, c, (es + rest)[1..], level + 1, t)
    ensures var n := Below(es[1..], level);
            Follows(env, c, es + rest, rest, level, cur, st,
                    match Group(env, c, Parse(es[1..1 + n]), level + 1, end, FRESH, s)
                    case Through(s2) => Group(env, c, Parse(es[1 + n..]), level, parent, sib, s2)
                    case Jumped(s2) => Jumped(s2)
                    case Quit(s2, code) => Quit(s2, code), cur', tab')
    decreases env.nameMax - st.core.name, 2, |es| - 1, 2
  {
    hide Scan, Group, Parse, Siblings, Shape, AllDeeper, Below;
    var n := Below(es[1..], level);
    var kids, more := es[1..1 + n], es[1 + n..];
    ShapeParts(es, rest, level, n);
    TableEntered(st.tab, level, sib, end);
    var t := State(Opened(SetEnd(SetSiblings(st.tab, level, sib), level, end), level + 1), s);
    cur', tab' := GroupRefines(env, c, kids, more + rest, level + 1, level + 1, t, end, FRESH);
    if Group(env, c, Parse(kids), level + 1, end, FRESH, s).Through? {
      var s2 := Group(env, c, Parse(kids), level + 1, end, FRESH, s).core;
      SlotKept(tab', t.tab, level);
      cur', tab' := GroupRefines(env, c, more, rest, level, cur', State(tab', s2), parent, sib);
    }
  }

  lemma SlotKept(a: Table, b: Table, level: nat)
    requires level < |a| && level < |b| && a[level] == b[level]
    ensures Siblings(a, level) == Siblings(b, level)
  {
  }

  /** After a sibling that leaves the scan at its own level: its subtree is passed over, then the others follow. */
  lemma {:induction false} Passed(env: Env, c: Call, es: seq<Entry>, rest: seq<Entry>, level: nat, cur: nat,
                                  st: State, parent: int, sib: Sibling, t: State)
    returns (cur': nat, tab': Table)
    requires Within(env, st.core) && PlainEnv(env) && Shape(es, rest, level) && es != [] && es[0].level == level
    requires 1 <= level <= cur < |st.tab| <= |t.tab|
    requires st.tab[level - 1].off == parent && Siblings(t.tab, level) == sib
    requires Within(env, t.core) && t.core.name == st.core.name
    requires forall k | 0 <= k < level :: t.tab[k] == st.tab[k]
    requires Scan(env, c, es + rest, cur, st) == Scan(env, c, (es + rest)[1..], level, t)
    ensures Follows(env, c, es + rest, rest, level, cur, st,
                    Group(env, c, Parse(es[1 + Below(es[1..], level)..]), level, parent, sib, t.core), cur', tab')
    decreases env.nameMax - st.core.name, 2, |es| - 1, 2
  {
    hide Scan, Group, Parse, Siblings, Shape, AllDeeper, Below;
    var n := Below(es[1..], level);
    var kids, more := es[1..1 + n], es[1 + n..];
    ShapeParts(es, rest, level, n);
    DeepSkipped(env, c, kids, more + rest, level, t);
    cur', tab' := GroupRefines(env, c, more, rest, level, level, t, parent, sib);
  }
}
