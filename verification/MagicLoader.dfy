/** The loader of magic lines, the coalescing of rules into arrays, and the lookup of named rules. */
module MagicLoader {
  import opened Bytes
  import opened SoftmagicEntry
  import opened MagicRules
  import MagicDb

  class RuleLoader {
    /** The loader's part of the level table, and the level of the last line. */
    var li: array<Cond>
    var last: nat
    /** The rule being read, the rules read so far, and the number of bad lines. */
    var current: seq<Entry>
    var plain: seq<seq<Entry>>
    var named: seq<seq<Entry>>
    var errs: nat
    /** What the slots added to the table hold. */
    const junk: Cond

    constructor (junk: Cond)
      ensures fresh(li) && this.junk == junk
      ensures State() == Loader([], 0, [], [], [], 0)
    {
      li := new Cond[0];
      last, current, plain, named, errs := 0, [], [], [], 0;
      this.junk := junk;
    }

    ghost function State(): Loader
      reads this, li
    {
      Loader(li[..], last, current, plain, named, errs)
    }

    method CheckMem(level: nat)
      modifies this`li, li
      ensures li[..] == Reset(old(li[..]), level, junk)
      ensures li == old(li) || fresh(li)
    {
      if level >= li.Length {
        var grown := new Cond[20 + level](_ => junk);
        var i := 0;
        while i < li.Length
          invariant 0 <= i <= li.Length <= grown.Length == 20 + level && fresh(grown)
          invariant grown[..i] == li[..i] && forall k | i <= k < grown.Length :: grown[k] == junk
          invariant li[..] == old(li[..]) && li == old(li)
        {
          grown[i] := li[i];
          i := i + 1;
        }
        li := grown;
        assert li[..] == old(li[..]) + seq(20 + level - old(li.Length), _ => junk);
      }
      li[level] := NoCond;
    }

    method CheckCond(cond: Cond, level: nat) returns (ok: bool)
      requires level < li.Length
      modifies li
      ensures ok <==> CondNext(old(li[level]), cond).Some?
      ensures li[..] == if ok then old(li[..])[level := CondNext(old(li[level]), cond).value] else old(li[..])
    {
      var before := li[level];
      var now := before;
      match cond {
        case If =>
          if before != NoCond && before != Elif { return false; }
          now := If;
        case Elif =>
          if before != If && before != Elif { return false; }
          now := Elif;
        case Else =>
          if before != If && before != Elif { return false; }
          now := NoCond;
        case NoCond =>
          now := NoCond;
      }
      li[level] := now;
      ok := true;
    }

    /** Takes one line: 0 when it joined a rule, 1 when the rule before it must be closed first, -1 when it is bad. */
    method ParseLine(m: Entry) returns (code: int)
      requires Sized(State())
      modifies this, li
      ensures li == old(li) || fresh(li)
      ensures Sized(State())
      ensures code == 1 <==> m.level == 0 && old(current) != []
      ensures var o := Opened(old(State()), m, junk);
              if code == 1 then State() == o
              else if m.level > 0 && old(current) == [] then code == -1 && State() == o
              else code in {0, -1} && State().(errs := State().errs + if code == -1 then 1 else 0) == Joined(o, m)
    {
      hide Reset;
      ghost var s := State();
      if m.level == 0 || m.level > last {
        CheckMem(m.level);
      }
      last := m.level;
      assert State() == Opened(s, m, junk);
      if m.level != 0 {
        if current == [] { return -1; }
      } else if current != [] {
        return 1;
      }
      current := current + [m];
      if m.level == 0 && (m.offAdd || m.indirOffAdd) { return -1; }
      var ok := CheckCond(m.cond, m.level);
      if !ok { return -1; }
      if m.kind.Name? && m.level != 0 { return -1; }
      code := 0;
    }

    method AddEntry()
      requires current != []
      modifies this`plain, this`named, this`current
      ensures State() == Closed(old(State()))
    {
      if current[0].kind.Name? {
        named := named + [current];
      } else {
        plain := plain + [current];
      }
      current := [];
    }

    /** One line of the file, with the retry after a finished rule. */
    method TakeLine(m: Entry)
      requires Sized(State())
      modifies this, li
      ensures li == old(li) || fresh(li)
      ensures State() == Line(old(State()), m, junk) && Sized(State())
    {
      hide Joined;
      OpenedAgain(State(), m, junk);
      var code := ParseLine(m);
      if code == 1 {
        AddEntry();
        code := ParseLine(m);
      }
      if code == -1 {
        errs := errs + 1;
      }
    }

    /** A whole file. */
    method Load(ms: seq<Entry>)
      requires current == []
      modifies this, li
      ensures State() == File(old(State()), ms, junk)
    {
      hide Line, Closed;
      ghost var s := State();
      var i := 0;
      while i < |ms|
        invariant 0 <= i <= |ms| && Sized(State())
        invariant li == old(li) || fresh(li)
        invariant State() == Lines(s, ms[..i], junk)
      {
        assert ms[..i + 1][..i] == ms[..i];
        TakeLine(ms[i]);
        i := i + 1;
      }
      assert ms[..i] == ms;
      FlushNothing(State());
      if current != [] {
        AddEntry();
      }
    }
  }

  lemma OpenedAgain(s: Loader, m: Entry, junk: Cond)
    ensures m.level == 0 ==> Opened(Opened(s, m, junk), m, junk) == Opened(s, m, junk)
    ensures s.current == [] ==> Closed(Opened(s, m, junk)) == Opened(s, m, junk)
  {
  }

  lemma FlushNothing(s: Loader)
    ensures s.current == [] ==> Closed(s) == s
  {
  }

  /** coalesce_entries: the rules one after the other, unless they are too many. */
  method Coalesce(me: seq<seq<Entry>>) returns (r: Option<seq<Entry>>)
    ensures r == if |Concat(me)| > 0xFFFF_FFFF / MagicDb.RECORD then None else Some(Concat(me))
  {
    var count, i := 0, 0;
    while i < |me|
      invariant 0 <= i <= |me| && count == |Concat(me[..i])|
    {
      ConcatStep(me, i);
      count := count + |me[i]|;
      i := i + 1;
    }
    assert me[..i] == me;
    if count > 0xFFFF_FFFF / MagicDb.RECORD { return None; }
    if count == 0 { return Some([]); }
    var ma: seq<Entry> := [];
    i := 0;
    while i < |me|
      invariant 0 <= i <= |me| && ma == Concat(me[..i])
    {
      ConcatStep(me, i);
      ma := ma + me[i];
      i := i + 1;
    }
    assert me[..i] == me;
    r := Some(ma);
  }

  lemma ConcatStep(me: seq<seq<Entry>>, i: nat)
    requires i < |me|
    ensures Concat(me[..i + 1]) == Concat(me[..i]) + me[i]
  {
    assert me[..i + 1] == me[..i] + [me[i]];
    ConcatTwo(me[..i], [me[i]]);
    assert Concat([me[i]]) == me[i];
  }

  /** file_magicfind: the first entry of that name in the lists of named rules, with its continuations. */
  method MagicFind(lists: seq<seq<Entry>>, name: string) returns (r: Option<seq<Entry>>)
    ensures r == Find(lists, name)
  {
    hide FindIn;
    var l := 0;
    while l < |lists|
      invariant 0 <= l <= |lists| && Find(lists, name) == Find(lists[l..], name)
    {
      var ma := lists[l];
      var i := 0;
      assert ma[0..] == ma;
      while i < |ma|
        invariant 0 <= i <= |ma| && FindIn(ma, name) == FindIn(ma[i..], name)
      {
        FindStep(ma[i..], name);
        if ma[i].kind.Name? {
          if ma[i].kind.name == name {
            var j := i + 1;
            while j < |ma|
              invariant i < j <= |ma| && Conts(ma[i + 1..]) == j - i - 1 + Conts(ma[j..])
            {
              if ma[j].level == 0 { break; }
              assert ma[j..][1..] == ma[j + 1..];
              j := j + 1;
            }
            assert ma[i..][..j - i] == ma[i..j];
            return Some(ma[i..j]);
          }
        }
        assert ma[i..][1..] == ma[i + 1..];
        i := i + 1;
      }
      FindStep([], name);
      assert ma[i..] == [];
      assert lists[l..][1..] == lists[l + 1..];
      l := l + 1;
    }
    r := None;
  }

  lemma FindStep(es: seq<Entry>, name: string)
    ensures FindIn(es, name) ==
            if es == [] then None
            else if es[0].kind == Name(name) then Some(es[..1 + Conts(es[1..])]) else FindIn(es[1..], name)
  {
  }
}
