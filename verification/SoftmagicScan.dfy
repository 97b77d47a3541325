/**
 * The rule interpreter as it runs: one left-to-right scan over the entries with a table of one slot per
 * continuation level, entered again for `use` and `indirect`.
 */
module SoftmagicScan {
  import opened Bytes
  import opened SoftmagicEntry

  datatype Slot = Slot(off: int, got: bool, last: bool)

  const EMPTY := Slot(0, false, false)

  type Table = seq<Slot>

  datatype State = State(tab: Table, core: Core)

  /** Makes room for `level` and clears its match state; its offset stays. */
  function Opened(tab: Table, level: nat): (r: Table)
    ensures |r| > level && |r| >= |tab|
    ensures forall k | 0 <= k < |tab| && k != level :: r[k] == tab[k]
    ensures !r[level].got && !r[level].last
  {
    var grown := if level >= |tab| then tab + seq(20 + level - |tab|, _ => EMPTY) else tab;
    grown[level := Slot(grown[level].off, false, false)]
  }

  function Siblings(tab: Table, level: nat): Sibling
    requires level < |tab|
  {
    Sibling(tab[level].got, tab[level].last)
  }

  function SetSiblings(tab: Table, level: nat, sib: Sibling): Table
    requires level < |tab|
  {
    tab[level := Slot(tab[level].off, sib.got, sib.last)]
  }

  function SetEnd(tab: Table, level: nat, end: int): Table
    requires level < |tab|
  {
    tab[level := tab[level].(off := end)]
  }

  datatype Got = Got(st: State, code: int, value: bool)

  datatype Scanned = Fell(st: State) | Flushed(st: State) | Returned(st: State, code: int)

  /** The counters never pass their limits: none is started at its limit. */
  predicate Within(env: Env, s: Core) {
    s.indir <= env.indirMax && s.name <= env.nameMax
  }

  /** How a call leaves the counters and the table: activations only add up, nesting is undone. */
  predicate Counted(env: Env, s: State, t: State) {
    && s.core.indir <= t.core.indir && s.core.name == t.core.name && Within(env, t.core)
    && |s.tab| <= |t.tab|
  }

  /** Fetches the value of an entry, running the named rule or the whole database for it if it says so. */
  function Get(env: Env, c: Call, m: Entry, level: nat, parent: int, st: State): (r: Got)
    requires Within(env, st.core)
    ensures Counted(env, st, r.st)
    decreases env.indirMax - st.core.indir, env.nameMax - st.core.name, 0, 0, 0
  {
    var s := st.core;
    if s.indir >= env.indirMax || s.name >= env.nameMax then Got(st, -1, false)
    else
      var f := env.fetch(m, ViewOf(c, s, level, parent));
      var s1 := s.(offset := Wrap32(f.offset));
      if f.code != 1 then Got(State(st.tab, s1), f.code, false)
      else
        match m.kind
        case Name(_) =>
          Got(State(st.tab, if env.flags.noDesc then s1 else s1.(out := s1.out + [NameText(m)])), 1, false)
        case Use(rule, flips) => GetUse(env, c, m, rule, flips, State(st.tab, s1))
        case Indirect(relative) => GetIndirect(env, c, m, relative, State(st.tab, s1))
        case _ => Got(State(st.tab, s1), 1, false)
  }

  /** Runs a named rule on the same data, from the current offset, and puts the caller's state back. */
  function GetUse(env: Env, c: Call, m: Entry, rule: string, flips: bool, st: State): (r: Got)
    requires Within(env, st.core) && st.core.name < env.nameMax && st.core.offset >= 0
    ensures Counted(env, st, r.st)
    decreases env.indirMax - st.core.indir, env.nameMax - st.core.name - 1, 3, 0, 0
  {
    var s := st.core;
    if s.offset > |s.window| then Got(st, 0, false)
    else
      match Find(env.named, rule)
      case None => Got(st, -1, false)
      case Some(es) =>
        var (t, rv) := Match(env, UseCall(c, s, flips), es, State(st.tab, UseInner(m, s)));
        Got(State(st.tab, UseAfter(s, t.core, rv)), UseCode(s, t.core, rv), t.core.found)
  }

  /** Runs the whole database on the data from the current offset on, keeping what it prints if it matched. */
  function GetIndirect(env: Env, c: Call, m: Entry, relative: bool, st: State): (r: Got)
    requires Within(env, st.core) && st.core.indir < env.indirMax
    ensures Counted(env, st, r.st)
    decreases env.indirMax - st.core.indir - 1, env.nameMax - st.core.name, 4, 0, 0
  {
    var s := st.core;
    var at := if relative then Wrap32(s.offset + c.base) else s.offset;
    if at <= 0 || at > |s.window| then Got(st, 0, false)
    else
      var (t, rv) := MatchLists(env, IndirectCall(c, s, at), env.lists, State(st.tab, IndirectInner(s)));
      Got(State(t.tab, IndirectAfter(env, m, at, s, t.core, rv)), rv, false)
  }

  /** Runs the lists of the database in order until one does not come to 0. */
  function MatchLists(env: Env, c: Call, lists: seq<seq<Entry>>, st: State): (r: (State, int))
    requires Within(env, st.core)
    ensures Counted(env, st, r.0)
    decreases env.indirMax - st.core.indir, env.nameMax - st.core.name, 3, |lists|, 0
  {
    if lists == [] then (st, -1)
    else
      var (t, rv) := Match(env, c, lists[0], State(st.tab, st.core.(ret := false, found := false)));
      if rv != 0 || |lists| == 1 then (t, rv) else MatchLists(env, c, lists[1..], t)
  }

  /** One activation over the entries `es`. */
  function Match(env: Env, c: Call, es: seq<Entry>, st: State): (r: (State, int))
    requires Within(env, st.core)
    ensures Counted(env, st, r.0)
    decreases env.indirMax - st.core.indir, env.nameMax - st.core.name, 2, 0, 0
  {
    Rules(env, c, es, State(Opened(st.tab, 0), st.core.(window := [])))
  }

  function Back(s: Core): int { if s.ret then 1 else 0 }

  datatype Begun = Past(st: State) | Again(st: State) | Ended(st: State, code: int) | Inside(st: State)

  /** Tries `m` as a top-level entry. */
  function Begin(env: Env, c: Call, m: Entry, st: State): (r: Begun)
    requires Within(env, st.core) && |st.tab| > 0
    ensures Counted(env, st, r.st)
    ensures r.Inside? ==> |r.st.tab| > 1
    decreases env.indirMax - st.core.indir, env.nameMax - st.core.name, 1, 0, 0
  {
    if Skipped(c, m) then Past(st)
    else
      match Place(c, m, 0, st.core)
      case Unreadable => Again(st)
      case OutOfRange => Past(st)
      case Placed(s) =>
        var g := Get(env, c, m, 0, 0, State(st.tab, s));
        match SettleHead(env, c, m, g.st.core, g.code, g.value)
        case Left(s1, code) => Ended(State(g.st.tab, s1), code)
        case Missed(s1) => Past(State(g.st.tab, s1))
        case Entered(s1, end) => Inside(State(Opened(SetEnd(g.st.tab, 0, end), 1), s1))
  }

  /** The rest of an activation, from the first of `es` taken as a top-level entry. */
  function Rules(env: Env, c: Call, es: seq<Entry>, st: State): (r: (State, int))
    requires Within(env, st.core) && |st.tab| > 0
    ensures Counted(env, st, r.0)
    decreases env.indirMax - st.core.indir, env.nameMax - st.core.name, 1, |es|, 1
  {
    if es == [] then (st, Back(st.core))
    else
      var n := Conts(es[1..]);
      var rest := es[1 + n..];
      match Begin(env, c, es[0], st)
      case Past(t) => Rules(env, c, rest, t)
      case Again(t) => Rules(env, c, es[1..], t)
      case Ended(t, code) => (t, code)
      case Inside(t) =>
        assert es[1..1 + n] == es[1..][..n];
        match Scan(env, c, es[1..1 + n], 1, t)
        case Returned(t1, code) => (t1, code)
        case Flushed(t1) => Rules(env, c, rest, t1)
        case Fell(t1) =>
          match FinishRule(env, t1.core)
          case Stop(s2) => (State(t1.tab, s2), Back(s2))
          case GoOn(s2) => Rules(env, c, rest, State(t1.tab, s2))
  }

  /** `Rules` one entry on, at place `i` of the whole list. */
  lemma RulesStep(env: Env, c: Call, es: seq<Entry>, i: nat, st: State)
    requires Within(env, st.core) && |st.tab| > 0 && i < |es|
    ensures var n := Conts(es[i + 1..]);
            && i + 1 + n <= |es| && AllDeeper(es[i + 1..i + 1 + n], 0)
            && Rules(env, c, es[i..], st) ==
                 match Begin(env, c, es[i], st)
                 case Past(t) => Rules(env, c, es[i + 1 + n..], t)
                 case Again(t) => Rules(env, c, es[i + 1..], t)
                 case Ended(t, code) => (t, code)
                 case Inside(t) =>
                   match Scan(env, c, es[i + 1..i + 1 + n], 1, t)
                   case Returned(t1, code) => (t1, code)
                   case Flushed(t1) => Rules(env, c, es[i + 1 + n..], t1)
                   case Fell(t1) =>
                     match FinishRule(env, t1.core)
                     case Stop(s2) => (State(t1.tab, s2), Back(s2))
                     case GoOn(s2) => Rules(env, c, es[i + 1 + n..], State(t1.tab, s2))
  {
    hide Begin, Scan, Conts, FinishRule, AllDeeper;
    var rest := es[i..];
    var n := Conts(es[i + 1..]);
    assert rest[0] == es[i] && rest[1..] == es[i + 1..] && rest[1 + n..] == es[i + 1 + n..];
    assert rest[1..1 + n] == es[i + 1..i + 1 + n] == es[i + 1..][..n];
  }

  lemma RulesEnd(env: Env, c: Call, st: State)
    requires Within(env, st.core) && |st.tab| > 0
    ensures Rules(env, c, [], st) == (st, Back(st.core))
  {
  }

  lemma SiblingsKept(tab: Table, level: nat)
    requires level < |tab|
    ensures SetSiblings(tab, level, Siblings(tab, level)) == tab
  {
  }

  datatype Tried = Skip(st: State) | Flush(st: State) | Tried(st: State, verdict: Verdict)

  /** Tries the continuation `m`, whose level has become the current one. */
  function Try(env: Env, c: Call, m: Entry, st: State): (r: Tried)
    requires Within(env, st.core) && 0 < m.level < |st.tab|
    ensures Counted(env, st, r.st)
    ensures r.Tried? && r.verdict.Deeper? ==> m.level + 1 < |r.st.tab|
    decreases env.indirMax - st.core.indir, env.nameMax - st.core.name, 1, 0, 0
  {
    var l := m.level;
    match Place(c, m, l, st.core)
    case Unreadable => Skip(st)
    case OutOfRange => Flush(st)
    case Placed(s) =>
      var s1 := if m.offAdd then s.(offset := Wrap32(s.offset + st.tab[l - 1].off)) else s;
      if Moot(m, Siblings(st.tab, l)) then Skip(State(st.tab, s1))
      else
        var g := Get(env, c, m, l, st.tab[l - 1].off, State(st.tab, s1));
        AfterGet(env, c, m, g)
  }

  /** The table and the verdict once the value of a continuation has been asked for. */
  function AfterGet(env: Env, c: Call, m: Entry, g: Got): (r: Tried)
    requires Within(env, g.st.core) && 0 < m.level < |g.st.tab|
    ensures Counted(env, g.st, r.st)
    ensures r.Tried? && r.verdict.Deeper? ==> m.level + 1 < |r.st.tab|
  {
    var l := m.level;
    var (v, sib, s2) := Settle(env, c, m, Siblings(g.st.tab, l), g.st.tab[l - 1].off, g.st.core, g.code, g.value);
    var tab := SetSiblings(g.st.tab, l, sib);
    match v
    case Deeper(end) => Tried(State(Opened(SetEnd(tab, l, end), l + 1), s2), v)
    case NoEnd => Tried(State(Opened(tab, l), s2), v)
    case _ => Tried(State(tab, s2), v)
  }

  /** The scan over the continuations of a rule, with `level` the current continuation level. */
  function Scan(env: Env, c: Call, es: seq<Entry>, level: nat, st: State): (r: Scanned)
    requires Within(env, st.core) && level < |st.tab| && AllDeeper(es, 0)
    ensures Counted(env, st, r.st)
    decreases env.indirMax - st.core.indir, env.nameMax - st.core.name, 1, |es|, 0
  {
    if es == [] then Fell(st)
    else if level < es[0].level then Scan(env, c, es[1..], level, st)
    else
      var l := es[0].level;
      match Try(env, c, es[0], st)
      case Skip(t) => Scan(env, c, es[1..], l, t)
      case Flush(t) => Flushed(t)
      case Tried(t, v) =>
        match v
        case Leave(code) => Returned(t, code)
        case Deeper(_) => Scan(env, c, es[1..], l + 1, t)
        case _ => Scan(env, c, es[1..], l, t)
  }
}
