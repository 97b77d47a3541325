/** Magic entries, the data they test, and what one entry does to the running state. */
module SoftmagicEntry {
  import opened Bytes

  /** `text` or binary restriction of a string test. */
  datatype Restriction = Unrestricted | BinaryOnly | TextOnly

  datatype Cond = NoCond | If | Elif | Else

  datatype Kind = Compare | Default | Clear | Name(name: string) | Use(rule: string, flips: bool) | Indirect(relative: bool)

  /** One line of a magic file. `payload` stands for the type, operators and value of its test. */
  datatype Entry = Entry(
    level: nat, kind: Kind, cond: Cond, negated: bool, restriction: Restriction, binTest: bool, textTest: bool,
    offset: int, offAdd: bool, indirOffAdd: bool, fromEnd: bool, fromStart: bool, noSpace: bool,
    described: bool, apple: bool, ext: bool, mime: bool, payload: int)

  /** The data under test: its head as read, and the whole file when it can be read again. */
  datatype Buffer = Buffer(head: seq<Byte>, inMemory: bool, file: Option<seq<Byte>>)

  /** The last bytes of the file, as many as the head has; none when it cannot be read. */
  function Tail(b: Buffer): Option<seq<Byte>> {
    match b.file
    case None => None
    case Some(f) => Some(if |f| < |b.head| then f else f[|f| - |b.head|..])
  }

  /** What a test can see. */
  datatype View = View(window: seq<Byte>, offset: int, base: nat, flip: bool, text: bool, top: bool, parent: int)

  /** Outcome of fetching the value: -1 error, 0 not there, 1 fetched; and the offset it was fetched at. */
  datatype Fetched = Fetched(code: int, offset: int)

  datatype Flags = Flags(noDesc: bool, more: bool, apple: bool, ext: bool, mime: bool)

  /** The parts that stay fixed over a run. The three tests per entry are taken as given functions. */
  datatype Env = Env(
    fetch: (Entry, View) -> Fetched, check: (Entry, View) -> int, extent: (Entry, View) -> Option<int>,
    lists: seq<seq<Entry>>, named: seq<seq<Entry>>, flags: Flags, indirMax: nat, nameMax: nat)

  /** What one activation is given. */
  datatype Call = Call(data: Buffer, base: nat, binMode: bool, textMode: bool, text: bool, flip: bool)

  datatype Event =
    | Separator
    | Space
    | Described(m: Entry, view: View)
    | NameText(m: Entry)
    | Annotation(m: Entry)
    | IndirectText(m: Entry, at: int)

  /** The running state apart from the level table. */
  datatype Core = Core(
    offset: int, eoffset: int, window: seq<Byte>, out: seq<Event>, indir: nat, name: nat,
    printed: bool, sep: bool, first: bool, ret: bool, found: bool)

  /** The activation counters of two states agree. */
  predicate SameCounts(s: Core, t: Core) { s.indir == t.indir && s.name == t.name }

  function Wrap32(x: int): int { x % 0x1_0000_0000 }

  function Signed(x: int): int {
    if Wrap32(x) < 0x8000_0000 then Wrap32(x) else Wrap32(x) - 0x1_0000_0000
  }

  /** A top-level test that does not apply in this mode. */
  predicate Skipped(c: Call, m: Entry) {
    && !m.kind.Name?
    && (|| (c.text && m.restriction == BinaryOnly)
        || (!c.text && m.restriction == TextOnly)
        || (c.binMode && !m.binTest)
        || (c.textMode && !m.textTest))
  }

  datatype Placed = Placed(core: Core) | Unreadable | OutOfRange

  /** Works out where an entry at `level` looks, and in which window. */
  function Place(c: Call, m: Entry, level: nat, s: Core): (r: Placed)
    ensures r.Placed? ==> SameCounts(s, r.core)
  {
    if m.fromEnd && !(level > 0 && (m.offAdd || m.indirOffAdd)) then
      if !c.data.inMemory && Tail(c.data).None? then Unreadable
      else if c.base != 0 then OutOfRange
      else if c.data.inMemory then
        var at := Wrap32(Signed(|c.data.head| - m.offset));
        Placed(s.(offset := at, eoffset := at))
      else
        var tail := Tail(c.data).value;
        if m.offset < 0 || m.offset > |tail| then OutOfRange
        else
          var at := Wrap32(Signed(|tail| - m.offset));
          Placed(s.(offset := at, eoffset := at, window := tail))
    else if m.fromEnd || m.fromStart || level == 0 then
      Placed(s.(window := c.data.head, offset := Wrap32(if m.fromEnd then -m.offset else m.offset), eoffset := 0))
    else
      Placed(s.(offset := Wrap32(s.eoffset + m.offset)))
  }

  function ViewOf(c: Call, s: Core, level: nat, parent: int): View {
    View(s.window, s.offset, c.base, c.flip, c.text, level == 0, parent)
  }

  /** Whether a fetched entry matches: -1 error, 0 no, 1 yes. `value` is what a `use` found. */
  function Checked(env: Env, m: Entry, v: View, value: bool): int {
    match m.kind
    case Use(_, _) => if value then 1 else 0
    case Name(_) => 1
    case Indirect(_) => 1
    case _ => env.check(m, v)
  }

  predicate Annotated(env: Env, m: Entry) {
    || (env.flags.apple && m.apple)
    || (env.flags.ext && m.ext)
    || (env.flags.mime && m.mime)
  }

  /** An annotated match ends the activation; a later one than the first prints nothing. */
  function Annotate(env: Env, m: Entry, s: Core): Core {
    var out :=
      if !s.first && !env.flags.more then s.out
      else if s.first then s.out + [Annotation(m)]
      else s.out + [Separator, Annotation(m)];
    s.(out := out, found := true, sep := true, printed := true, ret := true, first := false)
  }

  /** Prints a matched top-level entry. */
  function Announce(env: Env, m: Entry, v: View, s: Core): Core {
    if !m.described then s
    else if env.flags.noDesc then s.(found := true)
    else
      var lead := if s.first then [] else [Separator];
      s.(found := true, ret := true, sep := true, printed := true, out := s.out + lead + [Described(m, v)])
  }

  /** Prints a matched continuation, after a separator or a blank as needed. */
  function AnnounceMore(env: Env, m: Entry, v: View, s: Core): Core {
    if !m.described then s
    else if env.flags.noDesc then s.(found := true)
    else
      var lead := if !s.printed && !s.first then [Separator] else [];
      var gap := if s.sep && !m.noSpace then [Space] else [];
      s.(found := true, ret := true, printed := true, sep := true, out := s.out + lead + gap + [Described(m, v)])
  }

  /** Whether and how the siblings seen so far matched. */
  datatype Sibling = Sibling(got: bool, last: bool)

  const FRESH := Sibling(false, false)

  /**
   * What a continuation's test led to: no value there, a value that differs, a default switched off by an
   * earlier match, a match with its end, a match whose end is out of range, or the end of the activation.
   */
  datatype Verdict = Absent | Differs | Overruled | Deeper(end: int) | NoEnd | Leave(code: int)

  /** Marks an `indirect` that matched. */
  function Noted(m: Entry, s: Core): Core {
    if m.kind.Indirect? then s.(found := true, ret := true) else s
  }

  /** A branch that an earlier one of its chain has made moot. */
  predicate Moot(m: Entry, sib: Sibling) {
    (m.cond == Else || m.cond == Elif) && sib.last
  }

  /** The sibling state after an entry that matched. */
  function AfterMatch(m: Entry, sib: Sibling): Sibling {
    Sibling(!m.kind.Clear?, true)
  }

  /** A default entry that an earlier match of its siblings has switched off. */
  predicate Superseded(m: Entry, sib: Sibling) {
    m.kind.Default? && sib.got
  }

  /** What a continuation that matched leads to. */
  function SettleMatch(env: Env, m: Entry, sib: Sibling, v: View, s: Core): (r: (Verdict, Sibling, Core))
    ensures SameCounts(s, r.2)
  {
    var after := AfterMatch(m, sib);
    if Superseded(m, sib) then (Overruled, after, s)
    else if Annotated(env, m) then (Leave(1), after, Annotate(env, m, s))
    else
      var s2 := AnnounceMore(env, m, v, s);
      match env.extent(m, v)
      case None => (NoEnd, after, s2)
      case Some(end) => (Deeper(end), after, s2)
  }

  /** What happens once a continuation's value has been asked for, with outcome `code`. */
  function Settle(env: Env, c: Call, m: Entry, sib: Sibling, parent: int, s: Core, code: int, value: bool)
    : (r: (Verdict, Sibling, Core))
    ensures SameCounts(s, r.2)
  {
    if code == -1 then (Leave(-1), sib, s)
    else if code == 0 && !m.negated then (Absent, sib, s)
    else
      var s1 := if code == 0 then s else Noted(m, s);
      var v := ViewOf(c, s1, m.level, parent);
      var ok := if code == 0 then 1 else Checked(env, m, v, value);
      if ok == -1 then (Leave(-1), sib, s1)
      else if ok == 0 then (Differs, sib.(last := false), s1)
      else SettleMatch(env, m, sib, v, s1)
  }

  /** What happens once a top-level entry's value has been asked for: None when it did not match. */
  datatype Head = Missed(core: Core) | Entered(core: Core, end: int) | Left(core: Core, code: int)

  function SettleHead(env: Env, c: Call, m: Entry, s: Core, code: int, value: bool): (r: Head)
    ensures SameCounts(s, r.core)
  {
    if code == -1 then Left(s, -1)
    else if code == 0 && !m.negated then Missed(s)
    else
      var s1 := if code == 0 then s else Noted(m, s);
      var v := ViewOf(c, s1, 0, 0);
      var ok := if code == 0 then 1 else Checked(env, m, v, value);
      if ok == -1 then Left(s1, -1)
      else if ok == 0 then Missed(s1)
      else if Annotated(env, m) then Left(Annotate(env, m, s1), 1)
      else
        var s2 := Announce(env, m, v, s1);
        match env.extent(m, v)
        case None => Missed(s2)
        case Some(end) => Entered(s2, end)
  }

  /** After the continuations of a top-level match. */
  datatype Finish = GoOn(core: Core) | Stop(core: Core)

  function FinishRule(env: Env, s: Core): (r: Finish)
    ensures SameCounts(s, r.core)
  {
    var s1 := if s.printed then s.(first := false) else s;
    if !s1.found then GoOn(s1)
    else if !env.flags.more then Stop(s1)
    else GoOn(s1.(printed := false, first := false))
  }

  predicate AllDeeper(es: seq<Entry>, level: nat) {
    forall i | 0 <= i < |es| :: es[i].level > level
  }

  /** How many entries from the first on are continuations. */
  function Conts(es: seq<Entry>): (n: nat)
    ensures n <= |es|
    ensures AllDeeper(es[..n], 0)
    ensures n < |es| ==> es[n].level == 0
  {
    if es == [] || es[0].level == 0 then 0 else 1 + Conts(es[1..])
  }

  /** The named rule: its entry and the continuations after it. */
  function FindIn(es: seq<Entry>, name: string): Option<seq<Entry>> {
    if es == [] then None
    else if es[0].kind == Name(name) then Some(es[..1 + Conts(es[1..])])
    else FindIn(es[1..], name)
  }

  function Find(lists: seq<seq<Entry>>, name: string): Option<seq<Entry>> {
    if lists == [] then None
    else
      match FindIn(lists[0], name)
      case Some(r) => Some(r)
      case None => Find(lists[1..], name)
  }

  /** What a named rule is run on and starts from. */
  function UseCall(c: Call, s: Core, flips: bool): Call
    requires s.offset >= 0
  {
    c.(base := s.offset + c.base, flip := c.flip != flips)
  }

  function UseInner(m: Entry, s: Core): Core {
    s.(sep := if m.noSpace then false else s.sep, name := s.name + 1, found := false)
  }

  /** The caller's state once the rule it used has come back with `rv` in state `t`. */
  function UseAfter(s: Core, t: Core, rv: int): Core {
    t.(sep := if rv != 1 then s.sep else t.sep, name := s.name, offset := s.offset, eoffset := s.eoffset,
       window := s.window, found := s.found || t.found)
  }

  function UseCode(s: Core, t: Core, rv: int): int {
    if rv != 0 then rv else if s.found || t.found then 1 else 0
  }

  /** What the whole database is run on, from `at` on, and starts from. */
  function IndirectCall(c: Call, s: Core, at: int): Call
    requires 0 <= at <= |s.window|
  {
    Call(Buffer(s.window[at..], c.data.inMemory, c.data.file), 0, true, false, c.text, false)
  }

  function IndirectInner(s: Core): Core {
    s.(indir := s.indir + 1, out := [], offset := 0)
  }

  function IndirectAfter(env: Env, m: Entry, at: int, s: Core, t: Core, rv: int): Core {
    var text := if rv != 1 then [] else (if env.flags.noDesc then [] else [IndirectText(m, at)]) + t.out;
    t.(out := s.out + text, offset := s.offset, window := s.window, ret := s.ret, found := s.found)
  }
}
