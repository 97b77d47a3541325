/**
 * The meaning of a flat list of entries: a forest, where an entry's parent is the nearest earlier entry of
 * a smaller level. Evaluation is recursive and has no level table: a parent hands its end offset to its
 * children, and the state of a group of siblings is local to the group.
 */
module SoftmagicTree {
  import opened Bytes
  import opened SoftmagicEntry
  import opened SoftmagicScan

  datatype Tree = Node(m: Entry, kids: seq<Tree>)

  /** How many entries from the first on are deeper than `level`. */
  function Below(es: seq<Entry>, level: nat): (n: nat)
    ensures n <= |es|
    ensures AllDeeper(es[..n], level)
    ensures n < |es| ==> es[n].level <= level
  {
    if es == [] || es[0].level <= level then 0 else 1 + Below(es[1..], level)
  }

  function Parse(es: seq<Entry>): seq<Tree>
    decreases |es|
  {
    if es == [] then []
    else
      var n := Below(es[1..], es[0].level);
      [Node(es[0], Parse(es[1..1 + n]))] + Parse(es[1 + n..])
  }

  /** The entries of a forest, parents first. */
  function Flatten(ts: seq<Tree>): seq<Entry> {
    if ts == [] then [] else [ts[0].m] + Flatten(ts[0].kids) + Flatten(ts[1..])
  }

  lemma {:induction false} FlattenParse(es: seq<Entry>)
    ensures Flatten(Parse(es)) == es
    decreases |es|
  {
    hide Below, AllDeeper, Parse, Flatten;
    if es == [] {
      ParseNone();
    } else {
      var n := Below(es[1..], es[0].level);
      var kids, more := es[1..1 + n], es[1 + n..];
      FlattenParse(kids);
      FlattenParse(more);
      FlattenCons(Node(es[0], Parse(kids)), Parse(more));
      ParseStep(es, n);
      Cut(es, n);
    }
  }

  lemma ParseStep(es: seq<Entry>, n: nat)
    requires es != [] && n == Below(es[1..], es[0].level)
    ensures Parse(es) == [Node(es[0], Parse(es[1..1 + n]))] + Parse(es[1 + n..])
  {
    hide Below, AllDeeper;
  }

  lemma Cut(es: seq<Entry>, n: nat)
    requires 1 + n <= |es|
    ensures es == [es[0]] + es[1..1 + n] + es[1 + n..]
  {
  }

  lemma ParseNone()
    ensures Parse([]) == [] && Flatten([]) == []
  {
  }

  lemma FlattenCons(t: Tree, ts: seq<Tree>)
    ensures Flatten([t] + ts) == [t.m] + Flatten(t.kids) + Flatten(ts)
  {
    assert ([t] + ts)[1..] == ts;
  }

  /** No rule runs the whole database again. */
  predicate Plain(es: seq<Entry>) {
    forall i | 0 <= i < |es| :: !es[i].kind.Indirect?
  }

  predicate PlainEnv(env: Env) {
    forall i | 0 <= i < |env.named| :: Plain(env.named[i])
  }

  datatype Fetch = Fetch(core: Core, code: int, value: bool)

  datatype Walked = Through(core: Core) | Jumped(core: Core) | Quit(core: Core, code: int)

  /** Fetches the value of an entry; a `use` evaluates the forest of the named rule. */
  function Value(env: Env, c: Call, m: Entry, level: nat, parent: int, s: Core): (r: Fetch)
    requires Within(env, s)
    ensures SameCounts(s, r.core)
    decreases env.nameMax - s.name, 0
  {
    if s.indir >= env.indirMax || s.name >= env.nameMax then Fetch(s, -1, false)
    else
      var f := env.fetch(m, ViewOf(c, s, level, parent));
      var s1 := s.(offset := Wrap32(f.offset));
      if f.code != 1 then Fetch(s1, f.code, false)
      else
        match m.kind
        case Name(_) => Fetch(if env.flags.noDesc then s1 else s1.(out := s1.out + [NameText(m)]), 1, false)
        case Use(rule, flips) =>
          if s1.offset > |s.window| then Fetch(s1, 0, false)
          else
            (match Find(env.named, rule)
             case None => Fetch(s1, -1, false)
             case Some(es) =>
               var (t, rv) := Evaluate(env, UseCall(c, s1, flips), es, UseInner(m, s1));
               Fetch(UseAfter(s1, t, rv), UseCode(s1, t, rv), t.found))
        case _ => Fetch(s1, 1, false)
  }

  /** One activation: the rules of `es` in order. */
  function Evaluate(env: Env, c: Call, es: seq<Entry>, s: Core): (r: (Core, int))
    requires Within(env, s)
    ensures SameCounts(s, r.0)
    decreases env.nameMax - s.name, 4, 0, 0
  {
    RulesFrom(env, c, es, s.(window := []))
  }

  datatype Opening = NotTried(core: Core) | NextLine(core: Core) | Over(core: Core, code: int) | Matched(core: Core, end: int)

  /** Tries the head of a rule. */
  function Open(env: Env, c: Call, m: Entry, s: Core): (r: Opening)
    requires Within(env, s)
    ensures SameCounts(s, r.core)
    decreases env.nameMax - s.name, 1
  {
    if Skipped(c, m) then NotTried(s)
    else
      match Place(c, m, 0, s)
      case Unreadable => NextLine(s)
      case OutOfRange => NotTried(s)
      case Placed(s1) =>
        var f := Value(env, c, m, 0, 0, s1);
        match SettleHead(env, c, m, f.core, f.code, f.value)
        case Left(s2, code) => Over(s2, code)
        case Missed(s2) => NotTried(s2)
        case Entered(s2, end) => Matched(s2, end)
  }

  function RulesFrom(env: Env, c: Call, es: seq<Entry>, s: Core): (r: (Core, int))
    requires Within(env, s)
    ensures SameCounts(s, r.0)
    decreases env.nameMax - s.name, 3, |es|, 0
  {
    if es == [] then (s, Back(s))
    else
      var n := Conts(es[1..]);
      var rest := es[1 + n..];
      match Open(env, c, es[0], s)
      case NotTried(t) => RulesFrom(env, c, rest, t)
      case NextLine(t) => RulesFrom(env, c, es[1..], t)
      case Over(t, code) => (t, code)
      case Matched(t, end) =>
        match Group(env, c, Parse(es[1..1 + n]), 1, end, FRESH, t)
        case Quit(t1, code) => (t1, code)
        case Jumped(t1) => RulesFrom(env, c, rest, t1)
        case Through(t1) =>
          match FinishRule(env, t1)
          case Stop(s2) => (s2, Back(s2))
          case GoOn(s2) => RulesFrom(env, c, rest, s2)
  }

  datatype Tested = Unplaced(core: Core) | Abandoned(core: Core) | Tested(core: Core, sib: Sibling, verdict: Verdict)

  /** Tests one entry, given its parent's end and its elder siblings' state. */
  function Test(env: Env, c: Call, m: Entry, parent: int, sib: Sibling, s: Core): (r: Tested)
    requires Within(env, s)
    ensures SameCounts(s, r.core)
    decreases env.nameMax - s.name, 1
  {
    match Place(c, m, m.level, s)
    case Unreadable => Unplaced(s)
    case OutOfRange => Abandoned(s)
    case Placed(s1) =>
      var s2 := if m.offAdd then s1.(offset := Wrap32(s1.offset + parent)) else s1;
      if Moot(m, sib) then Unplaced(s2)
      else
        var f := Value(env, c, m, m.level, parent, s2);
        var (v, sib', s3) := Settle(env, c, m, sib, parent, f.core, f.code, f.value);
        Tested(s3, sib', v)
  }

  /**
   * Evaluates a group of siblings at `level`. An entry whose level skips one has no parent to control it
   * and is passed over with everything below it.
   */
  function Group(env: Env, c: Call, ts: seq<Tree>, level: nat, parent: int, sib: Sibling, s: Core): (r: Walked)
    requires Within(env, s)
    ensures SameCounts(s, r.core)
    decreases env.nameMax - s.name, 2, 0, ts
  {
    if ts == [] then Through(s)
    else if ts[0].m.level > level then Group(env, c, ts[1..], level, parent, sib, s)
    else
      match Test(env, c, ts[0].m, parent, sib, s)
      case Unplaced(s1) => Group(env, c, ts[1..], level, parent, sib, s1)
      case Abandoned(s1) => Jumped(s1)
      case Tested(s1, sib1, v) =>
        match v
        case Leave(code) => Quit(s1, code)
        case NoEnd => Group(env, c, ts[1..], level, parent, FRESH, s1)
        case Deeper(end) =>
          (match Group(env, c, ts[0].kids, level + 1, end, FRESH, s1)
           case Through(s2) => Group(env, c, ts[1..], level, parent, sib1, s2)
           case Jumped(s2) => Jumped(s2)
           case Quit(s2, code) => Quit(s2, code))
        case _ => Group(env, c, ts[1..], level, parent, sib1, s1)
  }

  lemma GroupStep(env: Env, c: Call, node: Tree, ts: seq<Tree>, level: nat, parent: int, sib: Sibling, s: Core)
    requires Within(env, s)
    ensures Group(env, c, [node] + ts, level, parent, sib, s) ==
            if node.m.level > level then Group(env, c, ts, level, parent, sib, s)
            else
              match Test(env, c, node.m, parent, sib, s)
              case Unplaced(s1) => Group(env, c, ts, level, parent, sib, s1)
              case Abandoned(s1) => Jumped(s1)
              case Tested(s1, sib1, v) =>
                match v
                case Leave(code) => Quit(s1, code)
                case NoEnd => Group(env, c, ts, level, parent, FRESH, s1)
                case Deeper(end) =>
                  (match Group(env, c, node.kids, level + 1, end, FRESH, s1)
                   case Through(s2) => Group(env, c, ts, level, parent, sib1, s2)
                   case Jumped(s2) => Jumped(s2)
                   case Quit(s2, code) => Quit(s2, code))
                case _ => Group(env, c, ts, level, parent, sib1, s1)
  {
    assert ([node] + ts)[1..] == ts;
  }
}
