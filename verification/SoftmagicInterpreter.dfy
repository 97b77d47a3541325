/** The rule interpreter with its mutable state: the level table is an array that `use` copies and puts back. */
module SoftmagicInterpreter {
  import opened Bytes
  import opened SoftmagicEntry
  import S = SoftmagicScan

  /** How a top-level entry, its continuations, and one continuation come out. */
  datatype Begun = Past | Again | Ended | Inside

  datatype Left = Fell | Flushed | Returned

  datatype Step = Passed | Flush | Over | Down

  class Interpreter {
    const env: Env
    var li: array<S.Slot>
    var offset: int
    var eoffset: int
    var window: seq<Byte>
    var out: seq<Event>
    var indir: nat
    var name: nat
    var printed: bool
    var sep: bool
    var first: bool
    var ret: bool
    var found: bool

    constructor (env: Env)
      ensures this.env == env && fresh(li) && indir == 0 && name == 0 && first && !sep && !printed && out == []
    {
      this.env := env;
      li := new S.Slot[0];
      offset, eoffset, window, out, indir, name := 0, 0, [], [], 0, 0;
      printed, sep, first, ret, found := false, false, true, false, false;
    }

    function Now(): Core
      reads this
    {
      Core(offset, eoffset, window, out, indir, name, printed, sep, first, ret, found)
    }

    ghost function State(): S.State
      reads this, li
    {
      S.State(li[..], Now())
    }

    /** The table grows, or is reset at one level, as the scan goes down to it. */
    method CheckMem(level: nat)
      modifies this`li, li
      ensures li[..] == S.Opened(old(li[..]), level)
      ensures li == old(li) || fresh(li)
    {
      if level >= li.Length {
        var grown := new S.Slot[20 + level](i => S.EMPTY);
        var i := 0;
        while i < li.Length
          invariant 0 <= i <= li.Length <= grown.Length == 20 + level && fresh(grown)
          invariant grown[..i] == li[..i] && forall k | i <= k < grown.Length :: grown[k] == S.EMPTY
          invariant li[..] == old(li[..]) && li == old(li)
        {
          grown[i] := li[i];
          i := i + 1;
        }
        li := grown;
        assert li[..] == old(li[..]) + seq(20 + level - old(li.Length), _ => S.EMPTY);
      }
      li[level] := S.Slot(li[level].off, false, false);
    }

    /** Sets where an entry looks; reports whether it could. */
    method SetOffset(c: Call, m: Entry, level: nat) returns (ok: bool, unreadable: bool)
      modifies this`offset, this`eoffset, this`window
      ensures match Place(c, m, level, old(Now()))
              case Placed(s) => ok && Now() == s
              case Unreadable => !ok && unreadable && Now() == old(Now())
              case OutOfRange => !ok && !unreadable && Now() == old(Now())
    {
      if m.fromEnd && !(level > 0 && (m.offAdd || m.indirOffAdd)) {
        if !c.data.inMemory && Tail(c.data).None? {
          return false, true;
        }
        if c.base != 0 {
          return false, false;
        }
        if c.data.inMemory {
          offset := Wrap32(Signed(|c.data.head| - m.offset));
          eoffset := offset;
        } else {
          var tail := Tail(c.data).value;
          if m.offset < 0 || m.offset > |tail| {
            return false, false;
          }
          window := tail;
          offset := Wrap32(Signed(|tail| - m.offset));
          eoffset := offset;
        }
      } else if m.fromEnd || m.fromStart || level == 0 {
        window := c.data.head;
        offset := Wrap32(if m.fromEnd then -m.offset else m.offset);
        eoffset := 0;
      } else {
        offset := Wrap32(eoffset + m.offset);
      }
      return true, false;
    }

    method Print(e: Event)
      modifies this`out
      ensures out == old(out) + [e]
    {
      out := out + [e];
    }

    /** `handle_annotation` and the flags set around it. */
    method DoAnnotate(m: Entry)
      modifies this`out, this`found, this`sep, this`printed, this`ret, this`first
      ensures Now() == Annotate(env, m, old(Now()))
    {
      if first || env.flags.more {
        if !first {
          Print(Separator);
        }
        Print(Annotation(m));
      }
      found, sep, printed, ret, first := true, true, true, true, false;
    }

    method DoAnnounce(m: Entry, v: View)
      modifies this`out, this`found, this`sep, this`printed, this`ret
      ensures Now() == Announce(env, m, v, old(Now()))
    {
      if m.described {
        found := true;
        if !env.flags.noDesc {
          ret, sep, printed := true, true, true;
          if !first {
            Print(Separator);
          }
          Print(Described(m, v));
        }
      }
    }

    method DoAnnounceMore(m: Entry, v: View)
      modifies this`out, this`found, this`sep, this`printed, this`ret
      ensures Now() == AnnounceMore(env, m, v, old(Now()))
    {
      if m.described {
        found := true;
      }
      if !env.flags.noDesc && m.described {
        ret := true;
        if !printed {
          printed := true;
          if !first {
            Print(Separator);
          }
        }
        if sep && !m.noSpace {
          Print(Space);
        }
        Print(Described(m, v));
        sep := true;
      }
    }

    /** The value of an entry: -1 error, 0 not there, 1 there; and for `use` whether the rule found anything. */
    method Get(c: Call, m: Entry, level: nat, parent: int) returns (code: int, value: bool)
      requires S.Within(env, Now())
      modifies this, li
      ensures var g := S.Get(env, c, m, level, parent, old(State()));
              State() == g.st && code == g.code && value == g.value
      ensures li == old(li) || fresh(li)
      ensures m.kind.Use? ==> li == old(li) && li[..] == old(li[..]) && eoffset == old(eoffset) && name == old(name)
      decreases env.indirMax - indir, env.nameMax - name, 0, 0, 0
    {
      if indir >= env.indirMax {
        return -1, false;
      }
      if name >= env.nameMax {
        return -1, false;
      }
      var f := env.fetch(m, ViewOf(c, Now(), level, parent));
      offset := Wrap32(f.offset);
      if f.code != 1 {
        return f.code, false;
      }
      match m.kind {
        case Name(_) =>
          if !env.flags.noDesc {
            Print(NameText(m));
          }
          return 1, false;
        case Use(rule, flips) =>
          code, value := GetUse(c, m, rule, flips);
        case Indirect(relative) =>
          code := GetIndirect(c, m, relative);
          value := false;
        case _ =>
          return 1, false;
      }
    }

    /** `save_cont`: the caller keeps its table, the named rule gets a copy. */
    method SaveCont() returns (saved: array<S.Slot>)
      modifies this`li
      ensures saved == old(li) && fresh(li) && li[..] == saved[..]
    {
      saved := li;
      var copy := new S.Slot[saved.Length](i => S.EMPTY);
      var i := 0;
      while i < saved.Length
        invariant 0 <= i <= saved.Length && copy[..i] == saved[..i]
      {
        copy[i] := saved[i];
        i := i + 1;
      }
      li := copy;
    }

    method GetUse(c: Call, m: Entry, rule: string, flips: bool) returns (code: int, value: bool)
      requires S.Within(env, Now()) && name < env.nameMax && offset >= 0
      modifies this, li
      ensures var g := S.GetUse(env, c, m, rule, flips, old(State()));
              State() == g.st && code == g.code && value == g.value
      ensures li == old(li) && li[..] == old(li[..])
      ensures offset == old(offset) && eoffset == old(eoffset) && name == old(name)
      decreases env.indirMax - indir, env.nameMax - name - 1, 3, 0, 0
    {
      hide S.Match, S.Rules, Find;
      if offset > |window| {
        return 0, false;
      }
      var es := Find(env.named, rule);
      if es.None? {
        return -1, false;
      }
      ghost var s := Now();
      var at, end, oldSep, oldFound, oldWindow := offset, eoffset, sep, found, window;
      var saved := SaveCont();
      EnterUse(m);
      var rv := Match(c.(base := at + c.base, flip := c.flip != flips), es.value);
      ghost var t := Now();
      value := found;
      li := saved;
      LeaveUse(at, end, oldSep, oldFound, oldWindow, rv);
      assert Now() == UseAfter(s, t, rv);
      code := if rv != 0 then rv else if found then 1 else 0;
    }

    method EnterUse(m: Entry)
      modifies this`sep, this`name, this`found
      ensures Now() == UseInner(m, old(Now()))
    {
      if m.noSpace {
        sep := false;
      }
      name := name + 1;
      found := false;
    }

    method LeaveUse(at: int, end: int, oldSep: bool, oldFound: bool, oldWindow: seq<Byte>, rv: int)
      requires name > 0
      modifies this`sep, this`name, this`found, this`offset, this`eoffset, this`window
      ensures Now() == old(Now()).(sep := if rv != 1 then oldSep else old(sep), name := old(name) - 1, offset := at,
                                   eoffset := end, window := oldWindow, found := oldFound || old(found))
    {
      name := name - 1;
      found := oldFound || found;
      if rv != 1 {
        sep := oldSep;
      }
      offset, eoffset, window := at, end, oldWindow;
    }

    method GetIndirect(c: Call, m: Entry, relative: bool) returns (code: int)
      requires S.Within(env, Now()) && indir < env.indirMax
      modifies this, li
      ensures var g := S.GetIndirect(env, c, m, relative, old(State())); State() == g.st && code == g.code
      ensures li == old(li) || fresh(li)
      decreases env.indirMax - indir - 1, env.nameMax - name, 4, 0, 0
    {
      hide S.Match, S.Rules, S.MatchLists;
      var at := if relative then Wrap32(offset + c.base) else offset;
      if at <= 0 || at > |window| {
        return 0;
      }
      ghost var s := Now();
      var oldOut, oldOffset, oldRet, oldFound, oldWindow := out, offset, ret, found, window;
      EnterIndirect();
      code := MatchLists(Call(Buffer(oldWindow[at..], c.data.inMemory, c.data.file), 0, true, false, c.text, false));
      ghost var t := Now();
      LeaveIndirect(m, at, oldOut, oldOffset, oldRet, oldFound, oldWindow, code);
      assert Now() == IndirectAfter(env, m, at, s, t, code);
    }

    method EnterIndirect()
      modifies this`out, this`offset, this`indir
      ensures Now() == IndirectInner(old(Now()))
    {
      out, offset := [], 0;
      indir := indir + 1;
    }

    method LeaveIndirect(m: Entry, at: int, oldOut: seq<Event>, oldOffset: int, oldRet: bool, oldFound: bool,
                         oldWindow: seq<Byte>, code: int)
      modifies this`out, this`offset, this`window, this`ret, this`found
      ensures var text := if code != 1 then []
                          else (if env.flags.noDesc then [] else [IndirectText(m, at)]) + old(out);
              Now() == old(Now()).(out := oldOut + text, offset := oldOffset, window := oldWindow,
                                   ret := oldRet, found := oldFound)
    {
      var inner := out;
      out, offset, window, ret, found := oldOut, oldOffset, oldWindow, oldRet, oldFound;
      if code == 1 {
        out := out + (if env.flags.noDesc then [] else [IndirectText(m, at)]) + inner;
        assert out == oldOut + ((if env.flags.noDesc then [] else [IndirectText(m, at)]) + inner);
      } else {
        assert out == oldOut + [];
      }
    }

    method MatchLists(c: Call) returns (rv: int)
      requires S.Within(env, Now())
      modifies this, li
      ensures var (t, code) := S.MatchLists(env, c, env.lists, old(State())); State() == t && rv == code
      ensures li == old(li) || fresh(li)
      decreases env.indirMax - indir, env.nameMax - name, 3, 0, 0
    {
      rv := -1;
      var i := 0;
      ghost var goal := S.MatchLists(env, c, env.lists, State());
      ghost var start := State();
      while i < |env.lists|
        invariant 0 <= i <= |env.lists| && S.Within(env, Now())
        invariant S.Counted(env, start, State())
        invariant li == old(li) || fresh(li)
        invariant i < |env.lists| ==> goal == S.MatchLists(env, c, env.lists[i..], State())
        invariant i == |env.lists| ==> goal == (State(), rv)
      {
        ret, found := false, false;
        rv := Match(c, env.lists[i]);
        assert env.lists[i..][1..] == env.lists[i + 1..];
        if rv != 0 {
          break;
        }
        i := i + 1;
      }
    }

    /** One activation over the entries of a list or of a named rule. */
    method Match(c: Call, es: seq<Entry>) returns (rv: int)
      requires S.Within(env, Now())
      modifies this, li
      ensures var (t, code) := S.Match(env, c, es, old(State())); State() == t && rv == code
      ensures li == old(li) || fresh(li)
      decreases env.indirMax - indir, env.nameMax - name, 2, 0, 0
    {
      hide S.Rules, S.Begin, S.Scan, S.Opened, Skipped, Conts, FinishRule;
      window := [];
      CheckMem(0);
      ghost var start := State();
      assert start == S.State(S.Opened(old(li[..]), 0), old(Now()).(window := []));
      ghost var goal := S.Rules(env, c, es, start);
      var i := 0;
      assert es[0..] == es;
      while i < |es|
        invariant 0 <= i <= |es| && S.Within(env, Now()) && S.Counted(env, start, State())
        invariant li == old(li) || fresh(li)
        invariant goal == S.Rules(env, c, es[i..], State())
      {
        var done: bool;
        i, done, rv := Rule(c, es, i);
        if done {
          return;
        }
      }
      assert es[i..] == [];
      S.RulesEnd(env, c, State());
      rv := S.Back(Now());
    }

    /** One top-level entry at place `i` with its continuations, or one entry whose place could not be read. */
    method Rule(c: Call, es: seq<Entry>, i: nat) returns (next: nat, done: bool, rv: int)
      requires S.Within(env, Now()) && li.Length > 0 && i < |es|
      modifies this, li
      ensures S.Counted(env, old(State()), State()) && i < next <= |es|
      ensures S.Rules(env, c, es[i..], old(State())) ==
              if done then (State(), rv) else S.Rules(env, c, es[next..], State())
      ensures li == old(li) || fresh(li)
      decreases env.indirMax - indir, env.nameMax - name, 1, 3, 0
    {
      hide S.Rules, S.Begin, S.Scan, S.Opened, Skipped, Conts, FinishRule;
      S.RulesStep(env, c, es, i, State());
      var conts := Conts(es[i + 1..]);
      next, done := i + 1 + conts, false;
      var head: Begun;
      head, rv := Begin(c, es[i]);
      match head {
        case Past =>
        case Again => next := i + 1;
        case Ended => done := true;
        case Inside =>
          var how: Left;
          how, rv := Continue(c, es[i + 1..next]);
          if how == Returned {
            done := true;
          } else if how == Fell {
            done := Finish();
            rv := S.Back(Now());
          }
      }
    }

    method Finish() returns (stop: bool)
      modifies this`printed, this`first
      ensures Now() == FinishRule(env, old(Now())).core && (stop <==> FinishRule(env, old(Now())).Stop?)
    {
      if printed {
        first := false;
      }
      if found {
        if !env.flags.more {
          return true;
        }
        printed := false;
        first := false;
      }
      return false;
    }

    /** What a top-level entry comes to once its value has been asked for. */
    method DecideHead(c: Call, m: Entry, code: int, value: bool) returns (how: Begun, rv: int)
      modifies this`out, this`found, this`sep, this`printed, this`ret, this`first
      ensures match SettleHead(env, c, m, old(Now()), code, value)
              case Left(s, x) => how == Ended && rv == x && Now() == s
              case Missed(s) => how == Past && Now() == s
              case Entered(s, end) => how == Inside && rv == end && Now() == s
    {
      hide Checked, Annotated, Annotate, Announce;
      if code == -1 {
        return Ended, -1;
      }
      if code == 0 && !m.negated {
        return Past, 0;
      }
      if code != 0 && m.kind.Indirect? {
        found, ret := true, true;
      }
      var v := ViewOf(c, Now(), 0, 0);
      if code != 0 {
        var yes := Checked(env, m, v, value);
        if yes == -1 {
          return Ended, -1;
        }
        if yes == 0 {
          return Past, 0;
        }
      }
      if Annotated(env, m) {
        DoAnnotate(m);
        return Ended, 1;
      }
      DoAnnounce(m, v);
      var end := env.extent(m, v);
      if end.None? {
        return Past, 0;
      }
      return Inside, end.value;
    }

    method MarkDiffers(level: nat)
      requires level < li.Length
      modifies li
      ensures li[..] == S.SetSiblings(old(li[..]), level, old(S.Siblings(li[..], level)).(last := false))
    {
      li[level] := li[level].(last := false);
    }

    /** Notes a match; reports a default that an earlier match has switched off. */
    method MarkMatched(m: Entry) returns (overruled: bool)
      requires m.level < li.Length
      modifies li
      ensures li[..] == S.SetSiblings(old(li[..]), m.level, AfterMatch(m, old(S.Siblings(li[..], m.level))))
      ensures overruled == Superseded(m, old(S.Siblings(li[..], m.level)))
    {
      var level := m.level;
      li[level] := li[level].(last := true);
      if m.kind.Clear? {
        li[level] := li[level].(got := false);
      } else if li[level].got {
        if m.kind.Default? {
          return true;
        }
      } else {
        li[level] := li[level].(got := true);
      }
      return false;
    }

    method SetEnd(level: nat, end: int)
      requires level < li.Length
      modifies li
      ensures li[..] == S.SetEnd(old(li[..]), level, end)
    {
      li[level] := li[level].(off := end);
    }

    /** What a continuation comes to once its value has been asked for; its match state is in the table. */
    method Decide(c: Call, m: Entry, parent: int, code: int, value: bool) returns (verdict: Verdict)
      requires m.level < li.Length
      modifies this`out, this`found, this`sep, this`printed, this`ret, this`first, li
      ensures var (v, sib, s) :=
                Settle(env, c, m, old(S.Siblings(li[..], m.level)), parent, old(Now()), code, value);
              verdict == v && Now() == s && li[..] == S.SetSiblings(old(li[..]), m.level, sib)
    {
      hide Checked, SettleMatch, S.SetSiblings, S.Siblings;
      var level := m.level;
      S.SiblingsKept(li[..], level);
      if code == -1 {
        return Leave(-1);
      }
      if code == 0 && !m.negated {
        return Absent;
      }
      if code != 0 && m.kind.Indirect? {
        found, ret := true, true;
      }
      var v := ViewOf(c, Now(), level, parent);
      if code != 0 {
        var yes := Checked(env, m, v, value);
        if yes == -1 {
          return Leave(-1);
        }
        if yes == 0 {
          MarkDiffers(level);
          return Differs;
        }
      }
      verdict := DecideMatch(m, v);
    }

    /** A continuation that matched: the match is noted, and announced unless it is a default too many. */
    method DecideMatch(m: Entry, v: View) returns (verdict: Verdict)
      requires m.level < li.Length
      modifies this`out, this`found, this`sep, this`printed, this`ret, this`first, li
      ensures var (x, sib, s) := SettleMatch(env, m, old(S.Siblings(li[..], m.level)), v, old(Now()));
              verdict == x && Now() == s && li[..] == S.SetSiblings(old(li[..]), m.level, sib)
    {
      hide Annotated, Annotate, AnnounceMore, S.SetSiblings, S.Siblings, AfterMatch, Superseded;
      var overruled := MarkMatched(m);
      if overruled {
        return Overruled;
      }
      if Annotated(env, m) {
        DoAnnotate(m);
        return Leave(1);
      }
      DoAnnounceMore(m, v);
      var end := env.extent(m, v);
      verdict := if end.None? then NoEnd else Deeper(end.value);
    }

    /** Tries a top-level entry: skipped, unreadable, the activation is over, or its continuations come next. */
    method Begin(c: Call, m: Entry) returns (how: Begun, code: int)
      requires S.Within(env, Now()) && li.Length > 0
      modifies this, li
      ensures match S.Begin(env, c, m, old(State()))
              case Past(t) => how == Past && State() == t
              case Again(t) => how == Again && State() == t
              case Ended(t, rv) => how == Ended && State() == t && code == rv
              case Inside(t) => how == Inside && State() == t
      ensures li == old(li) || fresh(li)
      decreases env.indirMax - indir, env.nameMax - name, 1, 0, 0
    {
      hide S.Get, Place, Skipped, SettleHead, S.Opened;
      code := 0;
      if Skipped(c, m) {
        return Past, 0;
      }
      var ok, unreadable := SetOffset(c, m, 0);
      if !ok {
        return if unreadable then Again else Past, 0;
      }
      var value: bool;
      code, value := Get(c, m, 0, 0);
      how, code := DecideHead(c, m, code, value);
      if how == Inside {
        SetEnd(0, code);
        CheckMem(1);
      }
    }

    /** The scan over the continuations of a top-level entry that matched. */
    method Continue(c: Call, es: seq<Entry>) returns (how: Left, code: int)
      requires S.Within(env, Now()) && li.Length > 1 && AllDeeper(es, 0)
      modifies this, li
      ensures match S.Scan(env, c, es, 1, old(State()))
              case Fell(t) => how == Fell && State() == t
              case Flushed(t) => how == Flushed && State() == t
              case Returned(t, rv) => how == Returned && State() == t && code == rv
      ensures li == old(li) || fresh(li)
      decreases env.indirMax - indir, env.nameMax - name, 1, 2, 0
    {
      hide S.Try;
      ghost var start := State();
      ghost var goal := S.Scan(env, c, es, 1, start);
      var level: nat := 1;
      var i := 0;
      code := 0;
      assert es[0..] == es;
      while i < |es|
        invariant 0 <= i <= |es| && S.Within(env, Now()) && S.Counted(env, start, State())
        invariant li == old(li) || fresh(li)
        invariant level < li.Length && AllDeeper(es[i..], 0)
        invariant goal == S.Scan(env, c, es[i..], level, State())
      {
        var m := es[i];
        assert es[i..][0] == m && es[i..][1..] == es[i + 1..];
        i := i + 1;
        if level >= m.level {
          level := m.level;
          var t: Step;
          t, code := Try(c, m);
          match t {
            case Passed => 
            case Flush => return Flushed, 0;
            case Over => return Returned, code;
            case Down => level := level + 1;
          }
        }
      }
      how := Fell;
    }

    /** One continuation whose level is the current one. */
    method Try(c: Call, m: Entry) returns (t: Step, code: int)
      requires S.Within(env, Now()) && 0 < m.level < li.Length
      modifies this, li
      ensures match S.Try(env, c, m, old(State()))
              case Skip(st) => t == Passed && State() == st
              case Flush(st) => t == Flush && State() == st
              case Tried(st, v) =>
                && State() == st
                && t == (match v case Leave(_) => Over case Deeper(_) => Down case _ => Passed)
                && (v.Leave? ==> code == v.code)
      ensures li == old(li) || fresh(li)
      decreases env.indirMax - indir, env.nameMax - name, 1, 1, 0
    {
      hide S.Get, Place, S.AfterGet;
      var level := m.level;
      code := 0;
      var ok, unreadable := SetOffset(c, m, level);
      if !ok {
        return if unreadable then Passed else Flush, 0;
      }
      if m.offAdd {
        offset := Wrap32(offset + li[level - 1].off);
      }
      if (m.cond == Else || m.cond == Elif) && li[level].last {
        return Passed, 0;
      }
      t, code := Ask(c, m);
    }

    /** Asks for the value of a continuation and puts the outcome into the table. */
    method Ask(c: Call, m: Entry) returns (t: Step, code: int)
      requires S.Within(env, Now()) && 0 < m.level < li.Length
      modifies this, li
      ensures match S.AfterGet(env, c, m, S.Get(env, c, m, m.level, old(li[m.level - 1].off), old(State())))
              case Skip(st) => false
              case Flush(st) => false
              case Tried(st, v) =>
                && State() == st
                && t == (match v case Leave(_) => Over case Deeper(_) => Down case _ => Passed)
                && (v.Leave? ==> code == v.code)
      ensures li == old(li) || fresh(li)
      decreases env.indirMax - indir, env.nameMax - name, 1, 0, 0
    {
      hide S.Get, S.AfterGet;
      var value: bool;
      code, value := Get(c, m, m.level, li[m.level - 1].off);
      t, code := Conclude(c, m, code, value);
    }

    /** Puts the outcome of a continuation into the table. */
    method Conclude(c: Call, m: Entry, got: int, value: bool) returns (t: Step, code: int)
      requires S.Within(env, Now()) && 0 < m.level < li.Length
      modifies this, li
      ensures match S.AfterGet(env, c, m, S.Got(old(State()), got, value))
              case Skip(st) => false
              case Flush(st) => false
              case Tried(st, v) =>
                && State() == st
                && t == (match v case Leave(_) => Over case Deeper(_) => Down case _ => Passed)
                && (v.Leave? ==> code == v.code)
      ensures li == old(li) || fresh(li)
    {
      hide Settle, S.Opened, S.SetSiblings, S.SetEnd;
      var level := m.level;
      var v := Decide(c, m, li[level - 1].off, got, value);
      match v {
        case Leave(rv) => return Over, rv;
        case NoEnd =>
          CheckMem(level);
          return Passed, 0;
        case Deeper(end) =>
          SetEnd(level, end);
          CheckMem(level + 1);
          return Down, 0;
        case _ => return Passed, 0;
      }
    }
  }
}
