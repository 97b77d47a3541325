/** Descriptions come out in tree preorder, which is the order of the entries in the list. */
module SoftmagicOrder {
  import opened Bytes
  import opened SoftmagicEntry
  import opened SoftmagicScan
  import opened SoftmagicTree

  /** The entries whose descriptions were printed, in order. */
  function Announced(out: seq<Event>): seq<Entry> {
    if out == [] then []
    else (if out[0].Described? then [out[0].m] else []) + Announced(out[1..])
  }

  lemma {:induction false} AnnouncedConcat(a: seq<Event>, b: seq<Event>)
    ensures Announced(a + b) == Announced(a) + Announced(b)
  {
    if a == [] {
      assert a + b == b;
    } else {
      AnnouncedConcat(a[1..], b);
      assert (a + b)[1..] == a[1..] + b;
    }
  }

  /** `a` is `b` with some of its items left out. */
  predicate Sub(a: seq<Entry>, b: seq<Entry>) {
    if a == [] then true
    else if b == [] then false
    else (a[0] == b[0] && Sub(a[1..], b[1..])) || Sub(a, b[1..])
  }

  lemma {:induction false} SubConcat(a: seq<Entry>, b: seq<Entry>, x: seq<Entry>, y: seq<Entry>)
    requires Sub(a, b) && Sub(x, y)
    ensures Sub(a + x, b + y)
    decreases |b|
  {
    if b == [] {
      assert a + x == x && b + y == y;
    } else {
      assert (b + y)[1..] == b[1..] + y;
      if a != [] && a[0] == b[0] && Sub(a[1..], b[1..]) {
        SubConcat(a[1..], b[1..], x, y);
        assert (a + x)[1..] == a[1..] + x;
      } else {
        SubConcat(a, b[1..], x, y);
      }
    }
  }

  /** An entry that prints nothing but its own description. */
  predicate Quiet(m: Entry) { !m.kind.Use? && !m.kind.Name? }

  predicate AllQuiet(es: seq<Entry>) {
    forall m | m in es :: Quiet(m)
  }

  /** The match had its effect: it was announced, and its end was looked for. */
  predicate HadEffect(v: Verdict) { v.Deeper? || v.NoEnd? }

  /** The entries of a group and below it that are acted on, parents first. */
  ghost function ActedOn(env: Env, c: Call, ts: seq<Tree>, level: nat, parent: int, sib: Sibling, s: Core): seq<Entry>
    requires Within(env, s)
    decreases ts
  {
    if ts == [] then []
    else if ts[0].m.level > level then ActedOn(env, c, ts[1..], level, parent, sib, s)
    else
      match Test(env, c, ts[0].m, parent, sib, s)
      case Unplaced(s1) => ActedOn(env, c, ts[1..], level, parent, sib, s1)
      case Abandoned(_) => []
      case Tested(s1, sib1, v) =>
        match v
        case Leave(_) => []
        case NoEnd => [ts[0].m] + ActedOn(env, c, ts[1..], level, parent, FRESH, s1)
        case Deeper(end) =>
          var w := Group(env, c, ts[0].kids, level + 1, end, FRESH, s1);
          [ts[0].m] + ActedOn(env, c, ts[0].kids, level + 1, end, FRESH, s1)
          + if w.Through? then ActedOn(env, c, ts[1..], level, parent, sib1, w.core) else []
        case _ => ActedOn(env, c, ts[1..], level, parent, sib1, s1)
  }

  /** Those with a description, when descriptions are printed at all. */
  function WithText(env: Env, es: seq<Entry>): seq<Entry> {
    if es == [] then []
    else (if es[0].described && !env.flags.noDesc then [es[0]] else []) + WithText(env, es[1..])
  }

  lemma {:induction false} WithTextConcat(env: Env, a: seq<Entry>, b: seq<Entry>)
    ensures WithText(env, a + b) == WithText(env, a) + WithText(env, b)
  {
    if a == [] {
      assert a + b == b;
    } else {
      WithTextConcat(env, a[1..], b);
      assert (a + b)[1..] == a[1..] + b && (a + b)[0] == a[0];
      var first := if a[0].described && !env.flags.noDesc then [a[0]] else [];
      assert first + (WithText(env, a[1..]) + WithText(env, b)) == (first + WithText(env, a[1..])) + WithText(env, b);
    }
  }

  lemma ActedStep(env: Env, c: Call, node: Tree, ts: seq<Tree>, level: nat, parent: int, sib: Sibling, s: Core)
    requires Within(env, s)
    ensures ActedOn(env, c, [node] + ts, level, parent, sib, s) ==
            if node.m.level > level then ActedOn(env, c, ts, level, parent, sib, s)
            else
              match Test(env, c, node.m, parent, sib, s)
              case Unplaced(s1) => ActedOn(env, c, ts, level, parent, sib, s1)
              case Abandoned(_) => []
              case Tested(s1, sib1, v) =>
                match v
                case Leave(_) => []
                case NoEnd => [node.m] + ActedOn(env, c, ts, level, parent, FRESH, s1)
                case Deeper(end) =>
                  var w := Group(env, c, node.kids, level + 1, end, FRESH, s1);
                  [node.m] + ActedOn(env, c, node.kids, level + 1, end, FRESH, s1)
                  + if w.Through? then ActedOn(env, c, ts, level, parent, sib1, w.core) else []
                case _ => ActedOn(env, c, ts, level, parent, sib1, s1)
  {
    hide Test, Group;
    assert ([node] + ts)[1..] == ts;
  }

  lemma ActedNone(env: Env, c: Call, level: nat, parent: int, sib: Sibling, s: Core)
    requires Within(env, s)
    ensures ActedOn(env, c, [], level, parent, sib, s) == []
  {
  }

  lemma PlacedQuietly(c: Call, m: Entry, level: nat, s: Core)
    ensures Place(c, m, level, s).Placed? ==> Place(c, m, level, s).core.out == s.out
  {
  }

  lemma FetchedQuietly(env: Env, c: Call, m: Entry, level: nat, parent: int, s: Core)
    requires Within(env, s) && Quiet(m)
    ensures Value(env, c, m, level, parent, s).core.out == s.out
  {
  }

  /** What testing one entry prints: its description, when it has one and the match had its effect. */
  ghost predicate Prints(env: Env, m: Entry, effect: bool, added: seq<Event>) {
    Announced(added) == if effect then WithText(env, [m]) else []
  }

  lemma TestPrints(env: Env, c: Call, m: Entry, parent: int, sib: Sibling, s: Core) returns (added: seq<Event>)
    requires Within(env, s) && Quiet(m)
    ensures Test(env, c, m, parent, sib, s).core.out == s.out + added
    ensures var t := Test(env, c, m, parent, sib, s); Prints(env, m, t.Tested? && HadEffect(t.verdict), added)
  {
    hide Settle, Place, Value, Announced, WithText, HadEffect;
    added := [];
    assert Announced([]) == [] by { NothingAnnounced(); }
    assert s.out + [] == s.out;
    PlacedQuietly(c, m, m.level, s);
    if Place(c, m, m.level, s).Placed? && !Moot(m, sib) {
      var s1 := Place(c, m, m.level, s).core;
      var s2 := if m.offAdd then s1.(offset := Wrap32(s1.offset + parent)) else s1;
      FetchedQuietly(env, c, m, m.level, parent, s2);
      var f := Value(env, c, m, m.level, parent, s2);
      added := SettlePrints(env, c, m, sib, parent, f.core, f.code, f.value);
    }
  }

  lemma NothingAnnounced()
    ensures Announced([]) == []
  {
  }

  lemma AnnotatePrints(env: Env, m: Entry, s: Core) returns (added: seq<Event>)
    ensures Annotate(env, m, s).out == s.out + added && Announced(added) == []
  {
    AnnouncedConcat([Separator], [Annotation(m)]);
    assert [Separator] + [Annotation(m)] == [Separator, Annotation(m)];
    assert s.out + [] == s.out;
    added := if !s.first && !env.flags.more then []
             else if s.first then [Annotation(m)]
             else [Separator, Annotation(m)];
  }

  lemma AnnounceMorePrints(env: Env, m: Entry, v: View, s: Core) returns (added: seq<Event>)
    ensures AnnounceMore(env, m, v, s).out == s.out + added
    ensures Prints(env, m, true, added)
  {
    added := [];
    if m.described && !env.flags.noDesc {
      var lead := if !s.printed && !s.first then [Separator] else [];
      var gap := if s.sep && !m.noSpace then [Space] else [];
      added := lead + gap + [Described(m, v)];
      AnnouncedConcat(lead + gap, [Described(m, v)]);
      AnnouncedConcat(lead, gap);
    }
  }

  lemma SettlePrints(env: Env, c: Call, m: Entry, sib: Sibling, parent: int, s: Core, code: int, value: bool)
    returns (added: seq<Event>)
    ensures Settle(env, c, m, sib, parent, s, code, value).2.out == s.out + added
    ensures Prints(env, m, HadEffect(Settle(env, c, m, sib, parent, s, code, value).0), added)
  {
    hide Checked, Annotated, Annotate, AnnounceMore, Announced, AfterMatch, WithText;
    NothingAnnounced();
    assert s.out + [] == s.out;
    var s1 := if code == 0 then s else Noted(m, s);
    var v := ViewOf(c, s1, m.level, parent);
    var note := AnnotatePrints(env, m, s1);
    var text := AnnounceMorePrints(env, m, v, s1);
    var (verdict, _, _) := Settle(env, c, m, sib, parent, s, code, value);
    added :=
      match verdict
      case Deeper(_) => text
      case NoEnd => text
      case Leave(x) => if x == 1 then note else []
      case _ => [];
  }

  /** A group prints exactly the descriptions of the entries that are acted on, parents first. */
  lemma {:induction false} GroupInOrder(env: Env, c: Call, ts: seq<Tree>, level: nat, parent: int, sib: Sibling,
                                        s: Core)
    returns (added: seq<Event>)
    requires Within(env, s) && AllQuiet(Flatten(ts))
    ensures Group(env, c, ts, level, parent, sib, s).core.out == s.out + added
    ensures Announced(added) == WithText(env, ActedOn(env, c, ts, level, parent, sib, s))
    decreases ts
  {
    hide Test, Group, Announced, AllQuiet, Flatten, WithText, ActedOn;
    added := [];
    assert s.out + [] == s.out;
    NothingSub(env, Flatten(ts));
    if ts == [] {
      GroupNone(env, c, level, parent, sib, s);
      ActedNone(env, c, level, parent, sib, s);
    } else {
      var m, kids, more := ts[0].m, ts[0].kids, ts[1..];
      QuietParts(ts);
      assert ts == [Node(m, kids)] + more;
      GroupStep(env, c, Node(m, kids), more, level, parent, sib, s);
      ActedStep(env, c, Node(m, kids), more, level, parent, sib, s);
      var own, below, after: seq<Event> := [], [], [];
      ghost var acted, deep, late: seq<Entry> := [], [], [];
      if m.level > level {
        after := GroupInOrder(env, c, more, level, parent, sib, s);
        late := ActedOn(env, c, more, level, parent, sib, s);
      } else {
        own := TestPrints(env, c, m, parent, sib, s);
        match Test(env, c, m, parent, sib, s)
        case Unplaced(s1) =>
          after := GroupInOrder(env, c, more, level, parent, sib, s1);
          late := ActedOn(env, c, more, level, parent, sib, s1);
        case Abandoned(_) =>
        case Tested(s1, sib1, v) =>
          acted := if HadEffect(v) then [m] else [];
          match v
          case Leave(_) =>
          case NoEnd =>
            after := GroupInOrder(env, c, more, level, parent, FRESH, s1);
            late := ActedOn(env, c, more, level, parent, FRESH, s1);
          case Deeper(end) =>
            below := GroupInOrder(env, c, kids, level + 1, end, FRESH, s1);
            deep := ActedOn(env, c, kids, level + 1, end, FRESH, s1);
            var w := Group(env, c, kids, level + 1, end, FRESH, s1);
            if w.Through? {
              after := GroupInOrder(env, c, more, level, parent, sib1, w.core);
              late := ActedOn(env, c, more, level, parent, sib1, w.core);
            }
          case _ =>
            after := GroupInOrder(env, c, more, level, parent, sib1, s1);
            late := ActedOn(env, c, more, level, parent, sib1, s1);
      }
      added := own + below + after;
      Outputs(s.out, own, below, after);
      assert acted + deep + late == ActedOn(env, c, ts, level, parent, sib, s);
      Together(env, own, below, after, acted, deep, late);
    }
  }

  lemma Outputs(out: seq<Event>, own: seq<Event>, below: seq<Event>, after: seq<Event>)
    ensures out + (own + below + after) == ((out + own) + below) + after
    ensures (out + own) + [] == out + own && ((out + own) + below) + [] == (out + own) + below
  {
  }

  lemma Together(env: Env, own: seq<Event>, below: seq<Event>, after: seq<Event>, acted: seq<Entry>, deep: seq<Entry>,
                 late: seq<Entry>)
    requires Announced(own) == WithText(env, acted) && Announced(below) == WithText(env, deep)
    requires Announced(after) == WithText(env, late)
    ensures Announced(own + below + after) == WithText(env, acted + deep + late)
  {
    AnnouncedConcat(own + below, after);
    AnnouncedConcat(own, below);
    WithTextConcat(env, acted + deep, late);
    WithTextConcat(env, acted, deep);
  }

  /** Acting on entries keeps the order of the flat list, and takes each at most once. */
  lemma {:induction false} ActedInOrder(env: Env, c: Call, ts: seq<Tree>, level: nat, parent: int, sib: Sibling, s: Core)
    requires Within(env, s)
    ensures Sub(ActedOn(env, c, ts, level, parent, sib, s), Flatten(ts))
    decreases ts
  {
    hide Test, Group, Sub, ActedOn, Flatten;
    NothingSub(env, Flatten(ts));
    if ts == [] {
      ActedNone(env, c, level, parent, sib, s);
    } else {
      var m, kids, more := ts[0].m, ts[0].kids, ts[1..];
      assert ts == [Node(m, kids)] + more;
      FlattenCons(ts[0], more);
      ActedStep(env, c, Node(m, kids), more, level, parent, sib, s);
      NothingSub(env, [m]);
      NothingSub(env, Flatten(kids));
      NothingSub(env, Flatten(more));
      SelfSub([m]);
      ghost var acted, deep, late: seq<Entry> := [], [], [];
      if m.level > level {
        ActedInOrder(env, c, more, level, parent, sib, s);
        late := ActedOn(env, c, more, level, parent, sib, s);
      } else {
        match Test(env, c, m, parent, sib, s)
        case Unplaced(s1) =>
          ActedInOrder(env, c, more, level, parent, sib, s1);
          late := ActedOn(env, c, more, level, parent, sib, s1);
        case Abandoned(_) =>
        case Tested(s1, sib1, v) =>
          acted := if HadEffect(v) then [m] else [];
          match v
          case Leave(_) =>
          case NoEnd =>
            ActedInOrder(env, c, more, level, parent, FRESH, s1);
            late := ActedOn(env, c, more, level, parent, FRESH, s1);
          case Deeper(end) =>
            ActedInOrder(env, c, kids, level + 1, end, FRESH, s1);
            deep := ActedOn(env, c, kids, level + 1, end, FRESH, s1);
            var w := Group(env, c, kids, level + 1, end, FRESH, s1);
            if w.Through? {
              ActedInOrder(env, c, more, level, parent, sib1, w.core);
              late := ActedOn(env, c, more, level, parent, sib1, w.core);
            }
          case _ =>
            ActedInOrder(env, c, more, level, parent, sib1, s1);
            late := ActedOn(env, c, more, level, parent, sib1, s1);
      }
      assert acted + deep + late == ActedOn(env, c, ts, level, parent, sib, s);
      SubConcat(acted, [m], deep, Flatten(kids));
      SubConcat(acted + deep, [m] + Flatten(kids), late, Flatten(more));
    }
  }

  lemma SelfSub(a: seq<Entry>)
    requires |a| == 1
    ensures Sub(a, a)
  {
  }

  lemma GroupNone(env: Env, c: Call, level: nat, parent: int, sib: Sibling, s: Core)
    requires Within(env, s)
    ensures Group(env, c, [], level, parent, sib, s) == Through(s)
  {
  }

  lemma NothingSub(env: Env, b: seq<Entry>)
    ensures Announced([]) == [] && WithText(env, []) == [] && Sub([], b)
  {
  }

  lemma QuietParts(ts: seq<Tree>)
    requires ts != [] && AllQuiet(Flatten(ts))
    ensures Flatten(ts) == [ts[0].m] + Flatten(ts[0].kids) + Flatten(ts[1..])
    ensures Quiet(ts[0].m) && AllQuiet(Flatten(ts[0].kids)) && AllQuiet(Flatten(ts[1..]))
  {
    assert ts[0].m in Flatten(ts);
  }

  /**
   * For the continuations of a rule: the descriptions printed are those of exactly the entries acted on, in
   * the order the entries are written.
   */
  lemma PrintedInOrder(env: Env, c: Call, es: seq<Entry>, level: nat, parent: int, s: Core) returns (added: seq<Event>)
    requires Within(env, s) && AllQuiet(es)
    ensures Group(env, c, Parse(es), level, parent, FRESH, s).core.out == s.out + added
    ensures Announced(added) == WithText(env, ActedOn(env, c, Parse(es), level, parent, FRESH, s))
    ensures Sub(ActedOn(env, c, Parse(es), level, parent, FRESH, s), es)
  {
    hide Group, Sub, WithText, ActedOn;
    FlattenParse(es);
    added := GroupInOrder(env, c, Parse(es), level, parent, FRESH, s);
    ActedInOrder(env, c, Parse(es), level, parent, FRESH, s);
  }
}
