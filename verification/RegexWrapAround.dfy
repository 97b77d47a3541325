/**
 A match lost to the matcher's own bookkeeping: on the code of `w(a)|q(b)(c)|(d)|.(e)f?` and the text `we` the
 register flags drift apart, the space asked for one more failure point wraps round, and the matcher gives up
 with nothing on its stack.
 */
module RegexWrapAround {
  import opened Bytes
  import opened RegexNode
  import opened RegexNfa
  import opened RegexMachine
  import opened RegexFlow
  import opened RegexOverflow

  function One(c: Byte): Node { Run([c]) }

  /** The four alternatives. */
  function First(): Node { Cat(One(119), Group(1, 0, One(97))) }
  function Second(): Node { Cat(One(113), Cat(Group(2, 0, One(98)), Group(3, 0, One(99)))) }
  function Third(): Node { Group(4, 0, One(100)) }
  function Fourth(): Node { Cat(Any, Cat(Group(5, 0, One(101)), Opt(One(102)))) }

  function Example(): Node { Alt(First(), Alt(Second(), Alt(Third(), Fourth()))) }

  const TEXT: seq<Byte> := [119, 101]

  // ----- the code -----

  lemma OneSize(c: Byte)
    ensures |Code(One(c))| == 3
  {
  }

  lemma CatSize(a: Node, b: Node)
    ensures |Code(Cat(a, b))| == |Code(a)| + |Code(b)|
  {
  }

  lemma GroupSize(r: Byte, c: Byte)
    ensures |Code(Group(r, 0, One(c)))| == 9
  {
    OneSize(c);
  }

  lemma AltSize(a: Node, b: Node)
    ensures |Code(Alt(a, b))| == |Code(a)| + 6 + |Code(b)|
  {
  }

  lemma PartSizes()
    ensures |Code(First())| == 12 && |Code(Second())| == 21 && |Code(Third())| == 9 && |Code(Fourth())| == 16
    ensures |Code(Example())| == 76
  {
    assert |Code(Any)| == 1 && |Code(Opt(One(102)))| == 6;
    hide Code;
    OneSize(119);
    OneSize(113);
    GroupSize(1, 97);
    GroupSize(2, 98);
    GroupSize(3, 99);
    GroupSize(4, 100);
    GroupSize(5, 101);
    CatSize(One(119), Group(1, 0, One(97)));
    CatSize(Group(2, 0, One(98)), Group(3, 0, One(99)));
    CatSize(One(113), Cat(Group(2, 0, One(98)), Group(3, 0, One(99))));
    CatSize(Group(5, 0, One(101)), Opt(One(102)));
    CatSize(Any, Cat(Group(5, 0, One(101)), Opt(One(102))));
    AltSize(Third(), Fourth());
    AltSize(Second(), Alt(Third(), Fourth()));
    AltSize(First(), Alt(Second(), Alt(Third(), Fourth())));
  }

  /** The example is one of the nodes the theorems about matching are about. */
  lemma ExampleIsFlat()
    ensures Sized(Example()) && Flat(Example()) && ShortSets(Example()) && Numbered(Example(), 0) && GroupCount(Example()) == 5
  {
    PartsAreFlat();
    hide Numbered, Sized, Flat, ShortSets, GroupCount, First, Second, Third, Fourth;
    AltFlat(Third(), Fourth(), 3);
    AltFlat(Second(), Alt(Third(), Fourth()), 1);
    AltFlat(First(), Alt(Second(), Alt(Third(), Fourth())), 0);
  }

  /** A node that fits behind `k` groups and has `count` of its own. */
  predicate Good(n: Node, k: nat, count: nat) {
    Sized(n) && Flat(n) && ShortSets(n) && Numbered(n, k) && GroupCount(n) == count
  }

  lemma PartsAreFlat()
    ensures Good(First(), 0, 1) && Good(Second(), 1, 2) && Good(Third(), 3, 1) && Good(Fourth(), 4, 1)
  {
    hide Sized, Flat, ShortSets, Numbered, GroupCount, Good;
    AtomsGood();
    GroupGood(1, 97);
    GroupGood(2, 98);
    GroupGood(3, 99);
    GroupGood(4, 100);
    GroupGood(5, 101);
    CatGood(One(119), Group(1, 0, One(97)), 0, 0, 1);
    CatGood(Group(2, 0, One(98)), Group(3, 0, One(99)), 1, 1, 1);
    CatGood(One(113), Cat(Group(2, 0, One(98)), Group(3, 0, One(99))), 1, 0, 2);
    CatGood(Group(5, 0, One(101)), Opt(One(102)), 4, 1, 0);
    CatGood(Any, Cat(Group(5, 0, One(101)), Opt(One(102))), 4, 0, 1);
  }

  lemma AtomsGood()
    ensures Good(One(119), 0, 0) && Good(One(113), 1, 0) && Good(Any, 4, 0) && Good(Opt(One(102)), 5, 0)
  {
  }

  lemma GroupGood(r: Byte, c: Byte)
    requires r > 0
    ensures Good(Group(r, 0, One(c)), r - 1, 1)
  {
  }

  lemma CatGood(a: Node, b: Node, k: nat, x: nat, y: nat)
    requires Good(a, k, x) && Good(b, k + x, y)
    ensures Good(Cat(a, b), k, x + y)
  {
  }

  lemma AltFlat(a: Node, b: Node, k: nat)
    ensures Sized(Alt(a, b)) == (Sized(a) && Sized(b)) && Flat(Alt(a, b)) == (Flat(a) && Flat(b))
    ensures ShortSets(Alt(a, b)) == (ShortSets(a) && ShortSets(b))
    ensures GroupCount(Alt(a, b)) == GroupCount(a) + GroupCount(b)
    ensures Numbered(Alt(a, b), k) == (Numbered(a, k) && Numbered(b, k + GroupCount(a)))
  {
  }

  lemma ExampleAccepts()
    ensures Accepts(Example(), TEXT, 0, 2)
  {
    var e, f := Group(5, 0, One(101)), Opt(One(102));
    assert TEXT[1..2] == [101];
    assert Accepts(One(101), TEXT, 1, 2);
    assert Accepts(e, TEXT, 1, 2);
    OptNothing(One(102), 2);
    assert Accepts(Cat(e, f), TEXT, 1, 2);
    assert Accepts(Any, TEXT, 0, 1);
    assert Accepts(Fourth(), TEXT, 0, 2);
    hide Accepts;
    LastAccepts(Third(), Fourth());
    LastAccepts(Second(), Alt(Third(), Fourth()));
    LastAccepts(First(), Alt(Second(), Alt(Third(), Fourth())));
  }

  lemma OptNothing(n: Node, i: nat)
    ensures Accepts(Opt(n), TEXT, i, i)
  {
  }

  lemma LastAccepts(a: Node, b: Node)
    requires Accepts(b, TEXT, 0, 2)
    ensures Accepts(Alt(a, b), TEXT, 0, 2)
  {
  }

  // ----- the run -----

  /** What stands where in the code. */
  ghost predicate Commands(c: seq<Byte>) {
    && |c| == 76 && Decode(c, 0) == OnFail(18) && Decode(c, 6) == Memory(true, 1, 0)
    && Decode(c, 18) == OnFail(45) && Decode(c, 45) == OnFail(60) && Decode(c, 48) == Memory(true, 4, 0)
    && Decode(c, 60) == AnyChar && Decode(c, 61) == Memory(true, 5, 0)
    && Decode(c, 67) == Memory(false, 5, 0) && Decode(c, 70) == OnFail(76)
    && Decode(c, 3) == Exact([119]) && Decode(c, 9) == Exact([97]) && Decode(c, 21) == Exact([113])
    && Decode(c, 51) == Exact([100]) && Decode(c, 64) == Exact([101]) && Decode(c, 73) == Exact([102])
  }

  lemma ExampleCommands()
    ensures Commands(Code(Example()))
  {
    hide Code, Decode, First, Second, Third, Fourth, At;
    var c := Code(Example());
    Forks(c);
    FirstCommands(c);
    FourthCommands(c);
    OtherCommands(c);
  }

  /** The heads of the alternatives, and where these stand. */
  lemma Forks(c: seq<Byte>)
    requires c == Code(Example())
    ensures |c| == 76 && Decode(c, 0) == OnFail(18) && Decode(c, 18) == OnFail(45) && Decode(c, 45) == OnFail(60)
    ensures At(c, 3, First()) && At(c, 21, Second()) && At(c, 48, Third()) && At(c, 60, Fourth())
  {
    hide Code, Decode, First, Second, Third, Fourth, At;
    PartSizes();
    WholeCode(c);
    AtAlt(c, 0, Example());
    AtAlt(c, 18, Example().right);
    AtAlt(c, 45, Example().right.right);
  }

  lemma WholeCode(c: seq<Byte>)
    requires c == Code(Example()) && |c| == 76
    ensures At(c, 0, Example())
  {
    hide Code, Example, Sized, Flat, ShortSets, Numbered, GroupCount;
    ExampleIsFlat();
  }

  lemma FirstCommands(c: seq<Byte>)
    requires At(c, 3, First()) && |c| == 76
    ensures Decode(c, 3) == Exact([119]) && Decode(c, 6) == Memory(true, 1, 0) && Decode(c, 9) == Exact([97])
  {
    hide At, Decode, Code;
    OneSize(119);
    AtCat(c, 3, First());
    AtTest(c, 3, One(119));
    AtGroup(c, 6, Group(1, 0, One(97)));
    AtTest(c, 9, One(97));
  }

  lemma OtherCommands(c: seq<Byte>)
    requires At(c, 21, Second()) && At(c, 48, Third()) && |c| == 76
    ensures Decode(c, 21) == Exact([113]) && Decode(c, 48) == Memory(true, 4, 0) && Decode(c, 51) == Exact([100])
  {
    hide At, Decode, Code;
    AtCat(c, 21, Second());
    AtTest(c, 21, One(113));
    AtGroup(c, 48, Third());
    AtTest(c, 51, One(100));
  }

  lemma FourthCommands(c: seq<Byte>)
    requires At(c, 60, Fourth()) && |c| == 76
    ensures Decode(c, 60) == AnyChar && Decode(c, 61) == Memory(true, 5, 0) && Decode(c, 64) == Exact([101])
    ensures Decode(c, 67) == Memory(false, 5, 0) && Decode(c, 70) == OnFail(76) && Decode(c, 73) == Exact([102])
  {
    assert |Code(Any)| == 1;
    hide At, Decode, Code;
    OneSize(101);
    OneSize(102);
    GroupSize(5, 101);
    AtCat(c, 60, Fourth());
    AtTest(c, 60, Any);
    AtCat(c, 61, Cat(Group(5, 0, One(101)), Opt(One(102))));
    AtGroup(c, 61, Group(5, 0, One(101)));
    AtTest(c, 64, One(101));
    AtOpt(c, 70, Opt(One(102)));
    AtTest(c, 73, One(102));
  }

  lemma Readings()
    ensures Eat(Exact([119]), TEXT, 0) == Some(1) && Eat(Exact([97]), TEXT, 1) == None
    ensures Eat(Exact([113]), TEXT, 0) == None && Eat(Exact([100]), TEXT, 0) == None
    ensures Eat(AnyChar, TEXT, 0) == Some(1) && Eat(Exact([101]), TEXT, 1) == Some(2)
  {
    assert TEXT[0..1] == [119] && TEXT[1..2] == [101];
  }

  const IDLE := RegInfo(false, false)
  const OPEN := RegInfo(true, false)
  const DONE := RegInfo(false, true)

  /** No group open; group 1 left open by a failed attempt; and so on, as the run goes. */
  const INFO0 := [IDLE, IDLE, IDLE, IDLE, IDLE, IDLE]
  const INFO1 := [IDLE, OPEN, IDLE, IDLE, IDLE, IDLE]
  const INFO2 := [IDLE, OPEN, IDLE, IDLE, OPEN, IDLE]
  const INFO3 := [IDLE, OPEN, IDLE, IDLE, DONE, IDLE]
  const INFO4 := [IDLE, OPEN, IDLE, IDLE, DONE, OPEN]
  const INFO5 := [IDLE, OPEN, IDLE, IDLE, DONE, RegInfo(true, true)]
  const INFO6 := [IDLE, OPEN, IDLE, IDLE, DONE, DONE]

  function Bare(c: seq<Byte>, p: int, d: nat, size: nat, low: nat, high: nat, info: seq<RegInfo>): State {
    State(c, Cfg(p, d), [], size, 0, low, high, info, None)
  }

  /** The same with one failure point, at the start of the text. */
  function Saved(c: seq<Byte>, p: int, d: nat, at: int, size: nat, low: nat, high: nat, info: seq<RegInfo>, f: Frame): State {
    State(c, Cfg(p, d), [f.(dummy := false, at := Cfg(at, 0))], size, 4 + 3 * SavedRegs(f.low, f.high), low, high, info, None)
  }

  function Point(low: nat, high: nat, info: seq<RegInfo>): Frame { Frame(false, Cfg(0, 0), low, high, info) }

  /** The first alternative: the letter is there, group 1 is entered, and fails. */
  lemma FirstFails(c: seq<Byte>)
    requires Commands(c)
    ensures Execute(Start(c, 5, 0), TEXT, 4) == Running(Bare(c, 18, 0, 5, 257, 256, INFO1))
  {
    hide Decode, Eat;
    Readings();
    var f := Point(257, 256, INFO0);
    var s0, s1 := Start(c, 5, 0), Saved(c, 3, 0, 18, 5, 257, 256, INFO0, f);
    var s2, s3 := Saved(c, 6, 1, 18, 5, 257, 256, INFO0, f), Saved(c, 9, 1, 18, 5, 1, 1, INFO1, f);
    assert s0 == Bare(c, 0, 0, 5, 257, 256, INFO0);
    assert Step(s0, TEXT) == Running(s1);
    assert MarkMatched(s1) == s1;
    assert Step(s1, TEXT) == Running(s2);
    assert Step(s2, TEXT) == Running(s3);
    var s4 := Bare(c, 18, 0, 5, 257, 256, INFO1);
    assert Restore(s3) == s4;
    assert Step(s3, TEXT) == Running(s4);
    hide Step;
    FourSteps(s0, s1, s2, s3, s4);
  }

  lemma FourSteps(s0: State, s1: State, s2: State, s3: State, s4: State)
    requires Step(s0, TEXT) == Running(s1) && Step(s1, TEXT) == Running(s2)
    requires Step(s2, TEXT) == Running(s3) && Step(s3, TEXT) == Running(s4)
    ensures Execute(s0, TEXT, 4) == Running(s4)
  {
    hide Step;
    assert Execute(s3, TEXT, 1) == Running(s4);
    assert Execute(s2, TEXT, 2) == Running(s4);
    assert Execute(s1, TEXT, 3) == Running(s4);
  }

  /** The second fails at its letter. */
  lemma SecondFails(c: seq<Byte>)
    requires Commands(c)
    ensures Execute(Bare(c, 18, 0, 5, 257, 256, INFO1), TEXT, 2) == Running(Bare(c, 45, 0, 5, 257, 256, INFO1))
  {
    hide Decode, Eat;
    Readings();
    var s0, s1 := Bare(c, 18, 0, 5, 257, 256, INFO1), Saved(c, 21, 0, 45, 5, 257, 256, INFO1, Point(257, 256, INFO1));
    var s2 := Bare(c, 45, 0, 5, 257, 256, INFO1);
    assert Step(s0, TEXT) == Running(s1);
    assert Restore(s1) == s2;
    assert Step(s1, TEXT) == Running(s2);
    hide Step;
    assert Execute(s1, TEXT, 1) == Running(s2);
  }

  /** The third fails in group 4, whose number stays the lowest although it is closed. */
  lemma ThirdFails(c: seq<Byte>)
    requires Commands(c)
    ensures Execute(Bare(c, 45, 0, 5, 257, 256, INFO1), TEXT, 3) == Running(Bare(c, 60, 0, 10, 4, 4, INFO1))
  {
    hide Step, Bare, Saved, Point;
    var f := Point(4, 4, INFO1);
    ThirdEnters(c, f);
    ThirdBacksOut(c, f);
    assert Execute(Saved(c, 51, 0, 60, 10, 4, 4, INFO2, f), TEXT, 1) == Running(Bare(c, 60, 0, 10, 4, 4, INFO1));
    assert Execute(Saved(c, 48, 0, 60, 10, 4, 4, INFO1, f), TEXT, 2) == Running(Bare(c, 60, 0, 10, 4, 4, INFO1));
  }

  lemma ThirdEnters(c: seq<Byte>, f: Frame)
    requires Commands(c) && f == Point(4, 4, INFO1)
    ensures Step(Bare(c, 45, 0, 5, 257, 256, INFO1), TEXT) == Running(Saved(c, 48, 0, 60, 10, 4, 4, INFO1, f))
    ensures Step(Saved(c, 48, 0, 60, 10, 4, 4, INFO1, f), TEXT) == Running(Saved(c, 51, 0, 60, 10, 4, 4, INFO2, f))
  {
    hide Decode, Eat;
    SevenItems();
  }

  lemma ThirdBacksOut(c: seq<Byte>, f: Frame)
    requires Commands(c) && f == Point(4, 4, INFO1)
    ensures Step(Saved(c, 51, 0, 60, 10, 4, 4, INFO2, f), TEXT) == Running(Bare(c, 60, 0, 10, 4, 4, INFO1))
  {
    hide Decode, Eat;
    Readings();
    assert Restore(Saved(c, 51, 0, 60, 10, 4, 4, INFO2, f)) == Bare(c, 60, 0, 10, 4, 4, INFO1);
  }

  lemma SevenItems()
    ensures Grown(5, 0, ItemsAsked(4, 4), StackLimit(6)) == Some(10)
  {
    assert ItemsAsked(4, 4) == 7;
    assert Grown(10, 0, 7, StackLimit(6)) == Some(10);
  }

  /** The fourth gets through group 5, after which group 1 counts as the highest, and cannot save a failure point. */
  lemma FourthGivesUp(c: seq<Byte>)
    requires Commands(c)
    ensures Execute(Bare(c, 60, 0, 10, 4, 4, INFO1), TEXT, 5) == Overflow
  {
    hide Step, Bare;
    FourthEnters(c);
    FourthReads(c);
    GroupFiveCloses(c, Bare(c, 67, 2, 10, 4, 5, INFO5), Bare(c, 70, 2, 10, 4, 1, INFO6));
    CannotSave(c);
    assert Execute(Bare(c, 70, 2, 10, 4, 1, INFO6), TEXT, 1) == Overflow;
    assert Execute(Bare(c, 67, 2, 10, 4, 5, INFO5), TEXT, 2) == Overflow;
    assert Execute(Bare(c, 64, 1, 10, 4, 5, INFO4), TEXT, 3) == Overflow;
    assert Execute(Bare(c, 61, 1, 10, 4, 4, INFO3), TEXT, 4) == Overflow;
  }

  lemma FourthEnters(c: seq<Byte>)
    requires Commands(c)
    ensures Step(Bare(c, 60, 0, 10, 4, 4, INFO1), TEXT) == Running(Bare(c, 61, 1, 10, 4, 4, INFO3))
    ensures Step(Bare(c, 61, 1, 10, 4, 4, INFO3), TEXT) == Running(Bare(c, 64, 1, 10, 4, 5, INFO4))
  {
    hide Decode, Eat;
    Readings();
    assert MarkMatched(Bare(c, 60, 0, 10, 4, 4, INFO1)).info == INFO3;
  }

  lemma FourthReads(c: seq<Byte>)
    requires Commands(c)
    ensures Step(Bare(c, 64, 1, 10, 4, 5, INFO4), TEXT) == Running(Bare(c, 67, 2, 10, 4, 5, INFO5))
  {
    hide Decode, Eat;
    Readings();
    assert MarkMatched(Bare(c, 64, 1, 10, 4, 5, INFO4)).info == INFO5;
  }

  lemma CannotSave(c: seq<Byte>)
    requires Commands(c)
    ensures Step(Bare(c, 70, 2, 10, 4, 1, INFO6), TEXT) == Overflow
  {
    hide Decode, Push;
    WrapsIsRefused(Bare(c, 70, 2, 10, 4, 1, INFO6), false, Cfg(76, 2));
  }

  lemma GroupFiveCloses(c: seq<Byte>, s: State, t: State)
    requires Commands(c) && s == Bare(c, 67, 2, 10, 4, 5, INFO5) && t == Bare(c, 70, 2, 10, 4, 1, INFO6)
    ensures Step(s, TEXT) == Running(t)
  {
    hide Decode, CloseGroup, ForcedExit, Commands;
    var u := Bare(c, 67, 2, 10, 4, 1, INFO6);
    CommandHere(c);
    FiveClosed(c);
    NoExit(c);
  }

  lemma CommandHere(c: seq<Byte>)
    requires Commands(c)
    ensures |c| == 76 && Decode(c, 67) == Memory(false, 5, 0)
  {
    hide Decode;
  }

  lemma FiveClosed(c: seq<Byte>)
    ensures CloseGroup(Bare(c, 67, 2, 10, 4, 5, INFO5), 5) == Bare(c, 67, 2, 10, 4, 1, INFO6)
  {
    var info := INFO6;
    assert HighestActive(info, 1) == 1;
    assert HighestActive(info, 2) == 1;
    assert HighestActive(info, 3) == 1;
    assert HighestActive(info, 4) == 1;
    assert INFO5[5 := INFO5[5].(active := false)] == info;
  }

  lemma NoExit(c: seq<Byte>)
    requires Commands(c)
    ensures ForcedExit(Bare(c, 67, 2, 10, 4, 1, INFO6), 5) == None
  {
    hide Decode;
    CountByte(c, 64, 101);
  }

  lemma CountByte(c: seq<Byte>, p: nat, x: Byte)
    requires p + 1 < |c| && Decode(c, p) == Exact([x])
    ensures c[p + 1] == 1
  {
    assert Decode(c, p).Exact?;
    assert |Decode(c, p).chars| == c[p + 1];
  }

  lemma {:induction false} ExecuteOn(s: State, t: State, fuel: nat, more: nat)
    requires Execute(s, TEXT, fuel) == Running(t)
    ensures Execute(s, TEXT, fuel + more) == Execute(t, TEXT, more)
    decreases fuel
  {
    hide Step;
    if fuel > 0 { ExecuteOn(Step(s, TEXT).state, t, fuel - 1, more); }
  }

  /**
   A pattern that repeats no group can make the matcher give up on two characters of text that it matches: the
   limit of the failure stack is not met, the flags wrap round.
   */
  lemma GivesUpEarly()
    ensures Sized(Example()) && Flat(Example()) && ShortSets(Example()) && Numbered(Example(), 0) && GroupCount(Example()) == 5
    ensures Accepts(Example(), TEXT, 0, 2)
    ensures forall fuel: nat | fuel >= 14 :: Execute(Start(Code(Example()), 5, 0), TEXT, fuel) == Overflow
  {
    hide Code, Execute, Accepts, Flat, Sized, ShortSets, Numbered, GroupCount, Example, Commands, Start;
    var c := Code(Example());
    ExampleIsFlat();
    ExampleAccepts();
    ExampleCommands();
    forall fuel: nat | fuel >= 14 ensures Execute(Start(c, 5, 0), TEXT, fuel) == Overflow {
      RunGivesUp(c, fuel);
    }
  }

  lemma RunGivesUp(c: seq<Byte>, fuel: nat)
    requires Commands(c) && fuel >= 14
    ensures Execute(Start(c, 5, 0), TEXT, fuel) == Overflow
  {
    hide Execute, Commands, Bare, Start;
    FirstFails(c);
    SecondFails(c);
    ThirdFails(c);
    FourthGivesUp(c);
    ExecuteOn(Start(c, 5, 0), Bare(c, 18, 0, 5, 257, 256, INFO1), 4, fuel - 4);
    ExecuteOn(Bare(c, 18, 0, 5, 257, 256, INFO1), Bare(c, 45, 0, 5, 257, 256, INFO1), 2, fuel - 6);
    ExecuteOn(Bare(c, 45, 0, 5, 257, 256, INFO1), Bare(c, 60, 0, 10, 4, 4, INFO1), 3, fuel - 9);
    StaysOver(Bare(c, 60, 0, 10, 4, 4, INFO1), 5, fuel - 9);
  }

  lemma {:induction false} StaysOver(s: State, fuel: nat, more: nat)
    requires Execute(s, TEXT, fuel) == Overflow && fuel <= more
    ensures Execute(s, TEXT, more) == Overflow
    decreases fuel
  {
    hide Step;
    if fuel > 0 && Step(s, TEXT).Running? { StaysOver(Step(s, TEXT).state, fuel - 1, more - 1); }
  }
}
