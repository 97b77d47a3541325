/** The compiled rule database: how it is written, checked on loading, and read across byte orders. */
module MagicDb {
  import opened Bytes

  /** sizeof(struct magic). */
  const RECORD: nat := 432

  const MAGICNO: nat := 0xF11E041C
  const VERSIONNO: nat := 21

  type Record = r: seq<Byte> | |r| == RECORD witness seq(RECORD, _ => 0)

  /** A number of four bytes, in the given byte order. */
  function Word(b: seq<Byte>, at: nat, big: bool): nat
    requires at + 4 <= |b|
  {
    if big then Four(b[at], b[at + 1], b[at + 2], b[at + 3]) else Four(b[at + 3], b[at + 2], b[at + 1], b[at])
  }

  function Four(a: Byte, b: Byte, c: Byte, d: Byte): nat {
    a as int * 0x100_0000 + b as int * 0x1_0000 + c as int * 0x100 + d as int
  }

  function Half(b: seq<Byte>, at: nat, big: bool): nat
    requires at + 2 <= |b|
  {
    if big then b[at] as int * 256 + b[at + 1] as int else b[at + 1] as int * 256 + b[at] as int
  }

  function Long(b: seq<Byte>, at: nat, big: bool): nat
    requires at + 8 <= |b|
  {
    if big then Word(b, at, true) * 0x1_0000_0000 + Word(b, at + 4, true)
    else Word(b, at + 4, false) * 0x1_0000_0000 + Word(b, at, false)
  }

  /** A number below 2^32 as four bytes. */
  function Bytes4(n: nat, big: bool): (b: seq<Byte>)
    requires n < 0x1_0000_0000
    ensures |b| == 4
  {
    var b: seq<Byte> := [n / 0x100_0000, n / 0x1_0000 % 256, n / 0x100 % 256, n % 256];
    if big then b else [b[3], b[2], b[1], b[0]]
  }

  lemma Bytes4Word(n: nat, big: bool)
    requires n < 0x1_0000_0000
    ensures Word(Bytes4(n, big), 0, big) == n
  {
    assert n == n / 0x100_0000 * 0x100_0000 + n / 0x1_0000 % 256 * 0x1_0000 + n / 0x100 % 256 * 0x100 + n % 256;
  }

  /** Swapping the bytes of a number read in the wrong order gives the number. */
  function Swap4(n: nat): nat
    requires n < 0x1_0000_0000
  {
    Word(Bytes4(n, false), 0, true)
  }

  /** The digits of a number in base 256. */
  lemma Digits(a: Byte, b: Byte, c: Byte, d: Byte)
    ensures var n := Four(a, b, c, d);
            && n < 0x1_0000_0000 && n / 0x100_0000 == a && n / 0x1_0000 % 256 == b && n / 0x100 % 256 == c && n % 256 == d
  {
    var n, high := Four(a, b, c, d), a as int * 256 + b as int;
    assert n == high * 0x1_0000 + (c as int * 256 + d as int);
    assert n / 0x1_0000 == high;
    assert n == (high * 256 + c as int) * 256 + d as int;
    assert n / 0x100 == high * 256 + c as int;
  }

  lemma SwapReads(b: seq<Byte>, at: nat)
    requires at + 4 <= |b|
    ensures Word(b, at, false) < 0x1_0000_0000
    ensures Swap4(Word(b, at, false)) == Word(b, at, true)
  {
    hide Four;
    Digits(b[at + 3], b[at + 2], b[at + 1], b[at]);
    assert Bytes4(Word(b, at, false), false) == [b[at], b[at + 1], b[at + 2], b[at + 3]];
  }

  // ----- one entry -----

  /** The types whose value is a string. */
  predicate IsString(r: Record) { r[6] in {5, 13, 17, 18, 19, 20, 41, 45, 46, 61} }

  /** Where the byte that bs1 puts at `i` comes from. */
  function Source(text: bool, i: nat): (s: nat)
    ensures i < RECORD ==> s < RECORD
  {
    if i < 2 then 1 - i
    else if 12 <= i < 16 then 27 - i
    else if 16 <= i < 20 then 35 - i
    else if 20 <= i < 24 then 43 - i
    else if text then
      if 24 <= i < 28 then 51 - i else if 28 <= i < 32 then 59 - i else i
    else
      if 24 <= i < 32 then 55 - i else if 32 <= i < 40 then 71 - i else i
  }

  lemma SourceTwice(text: bool, i: nat)
    requires i < RECORD
    ensures Source(text, Source(text, i)) == i
  {
  }

  /** bs1: the flags, the offsets and the line number, and the numbers of the value's kind, turned around. */
  function Swapped(r: Record): (s: Record)
    ensures forall i: nat | i < RECORD :: s[i] == r[Source(IsString(r), i)]
  {
    seq(RECORD, i requires 0 <= i < RECORD => r[Source(IsString(r), i)])
  }

  /** Swapping twice changes nothing. */
  lemma SwapTwice(r: Record)
    ensures Swapped(Swapped(r)) == r
  {
    hide Swapped, Source;
    var s := Swapped(r);
    assert IsString(s) == IsString(r) by { TypeKept(r); }
    forall i: nat | i < RECORD ensures Swapped(s)[i] == r[i] {
      SourceTwice(IsString(r), i);
    }
  }

  lemma TypeKept(r: Record)
    ensures IsString(Swapped(r)) == IsString(r)
  {
    assert Swapped(r)[6] == r[Source(IsString(r), 6)];
  }

  /** The `n` bytes at `at`, in the opposite order. */
  function Flip(s: seq<Byte>, at: nat, n: nat): (t: seq<Byte>)
    requires at + n <= |s|
    ensures |t| == |s|
    ensures forall i | 0 <= i < |s| :: t[i] == s[if at <= i < at + n then 2 * at + n - 1 - i else i]
  {
    seq(|s|, i requires 0 <= i < |s| => s[if at <= i < at + n then 2 * at + n - 1 - i else i])
  }

  lemma FlipsSwap(r: Record)
    ensures var s := Flip(Flip(Flip(Flip(r, 0, 2), 12, 4), 16, 4), 20, 4);
            Swapped(r) == if IsString(r) then Flip(Flip(s, 24, 4), 28, 4) else Flip(Flip(s, 24, 8), 32, 8)
  {
    hide Swapped, Flip, IsString;
    var s1 := Flip(r, 0, 2);
    var s2 := Flip(s1, 12, 4);
    var s3 := Flip(s2, 16, 4);
    var s := Flip(s3, 20, 4);
    forall i | 0 <= i < RECORD ensures s[i] == r[if i < 24 then Source(true, i) else i] {
      assert s1[if i < 2 then 1 - i else i] == r[i];
    }
    FlipsFinish(r, s);
  }

  lemma FlipsFinish(r: Record, s: Record)
    requires forall i | 0 <= i < RECORD :: s[i] == r[if i < 24 then Source(true, i) else i]
    ensures Swapped(r) == if IsString(r) then Flip(Flip(s, 24, 4), 28, 4) else Flip(Flip(s, 24, 8), 32, 8)
  {
    hide Swapped, Flip, IsString;
    if IsString(r) {
      var t := Flip(s, 24, 4);
      forall i | 0 <= i < RECORD ensures Flip(t, 28, 4)[i] == r[Source(true, i)] {}
    } else {
      var t := Flip(s, 24, 8);
      forall i | 0 <= i < RECORD ensures Flip(t, 32, 8)[i] == r[Source(false, i)] {}
    }
  }

  /** Turning bytes around inside one part of a buffer. */
  lemma FlipInside(x: seq<Byte>, r: seq<Byte>, y: seq<Byte>, at: nat, n: nat)
    requires at + n <= |r|
    ensures Flip(x + r + y, |x| + at, n) == x + Flip(r, at, n) + y
  {
    hide Flip;
    var s, t := x + r + y, x + Flip(r, at, n) + y;
    forall i | 0 <= i < |s| ensures Flip(s, |x| + at, n)[i] == t[i] {}
  }

  /** bs1 on the entry at `at`, in place. */
  method SwapEntry(m: array<Byte>, at: nat)
    requires at + RECORD <= m.Length
    modifies m
    ensures m[..] == old(m[..at]) + Swapped(old(m[at..at + RECORD])) + old(m[at + RECORD..])
  {
    hide Swapped, Flip;
    ghost var x, r, y := m[..at], m[at..at + RECORD], m[at + RECORD..];
    FlipsSwap(r);
    var text := m[at + 6] in {5, 13, 17, 18, 19, 20, 41, 45, 46, 61};
    assert m[..] == x + r + y;
    Turn(m, at, x, r, y, 0, 2);
    r := Flip(r, 0, 2);
    Turn(m, at, x, r, y, 12, 4);
    r := Flip(r, 12, 4);
    Turn(m, at, x, r, y, 16, 4);
    r := Flip(r, 16, 4);
    Turn(m, at, x, r, y, 20, 4);
    r := Flip(r, 20, 4);
    if text {
      Turn(m, at, x, r, y, 24, 4);
      r := Flip(r, 24, 4);
      Turn(m, at, x, r, y, 28, 4);
    } else {
      Turn(m, at, x, r, y, 24, 8);
      r := Flip(r, 24, 8);
      Turn(m, at, x, r, y, 32, 8);
    }
  }

  /** Swaps one number of the entry at `at`. */
  method Turn(m: array<Byte>, at: nat, ghost x: seq<Byte>, ghost r: seq<Byte>, ghost y: seq<Byte>, k: nat, n: nat)
    requires m[..] == x + r + y && |x| == at && k + n <= |r|
    modifies m
    ensures m[..] == x + Flip(r, k, n) + y
  {
    FlipInside(x, r, y, k, n);
    TurnAround(m, at + k, n);
  }

  /** The same when only the outermost `k` pairs have been exchanged. */
  ghost function Partly(s: seq<Byte>, at: nat, n: nat, k: nat): (t: seq<Byte>)
    requires at + n <= |s|
    ensures |t| == |s|
    ensures forall i | 0 <= i < |s| ::
              t[i] == s[if at <= i < at + n && (i < at + k || at + n - k <= i) then 2 * at + n - 1 - i else i]
  {
    seq(|s|, i requires 0 <= i < |s| => s[if at <= i < at + n && (i < at + k || at + n - k <= i) then 2 * at + n - 1 - i else i])
  }

  lemma PartlyStep(s: seq<Byte>, at: nat, n: nat, k: nat)
    requires at + n <= |s| && k < n / 2
    ensures var t := Partly(s, at, n, k);
            Partly(s, at, n, k + 1) == t[at + k := t[at + n - 1 - k]][at + n - 1 - k := t[at + k]]
  {
    hide Partly;
  }

  lemma PartlyEnds(s: seq<Byte>, at: nat, n: nat)
    requires at + n <= |s|
    ensures Partly(s, at, n, 0) == s && Partly(s, at, n, n / 2) == Flip(s, at, n)
  {
    hide Partly, Flip;
  }

  /** Turns the `n` bytes at `at` around, in place. */
  method TurnAround(m: array<Byte>, at: nat, n: nat)
    requires at + n <= m.Length
    modifies m
    ensures m[..] == Flip(old(m[..]), at, n)
  {
    hide Partly, Flip;
    ghost var s := m[..];
    PartlyEnds(s, at, n);
    var k := 0;
    while k < n / 2
      invariant 0 <= k <= n / 2
      invariant m[..] == Partly(s, at, n, k)
    {
      PartlyStep(s, at, n, k);
      m[at + k], m[at + n - 1 - k] := m[at + n - 1 - k], m[at + k];
      k := k + 1;
    }
  }

  /** The numbers an entry holds, read in a byte order. */
  datatype Numbers = Numbers(flag: nat, offset: nat, inOffset: nat, line: nat, range: nat, flags: nat, mask: nat, value: nat)

  function Read(r: Record, big: bool): Numbers {
    Numbers(Half(r, 0, big), Word(r, 12, big), Word(r, 16, big), Word(r, 20, big),
            if IsString(r) then Word(r, 24, big) else 0, if IsString(r) then Word(r, 28, big) else 0,
            if IsString(r) then 0 else Long(r, 24, big), if IsString(r) then 0 else Long(r, 32, big))
  }

  /** The `n` bytes of `s` at `at` are those of `r` in the opposite order. */
  predicate Opposite(r: Record, s: Record, at: nat, n: nat)
    requires at + n <= RECORD
  {
    forall i | at <= i < at + n :: s[i] == r[2 * at + n - 1 - i]
  }

  lemma OppositeWord(r: Record, s: Record, at: nat)
    requires at + 4 <= RECORD && Opposite(r, s, at, 4)
    ensures Word(s, at, false) == Word(r, at, true)
  {
    assert s[at] == r[at + 3] && s[at + 1] == r[at + 2] && s[at + 2] == r[at + 1] && s[at + 3] == r[at];
  }

  lemma OppositeLong(r: Record, s: Record, at: nat)
    requires at + 8 <= RECORD && Opposite(r, s, at, 8)
    ensures Long(s, at, false) == Long(r, at, true)
  {
    assert s[at] == r[at + 7] && s[at + 1] == r[at + 6] && s[at + 2] == r[at + 5] && s[at + 3] == r[at + 4];
    assert s[at + 4] == r[at + 3] && s[at + 5] == r[at + 2] && s[at + 6] == r[at + 1] && s[at + 7] == r[at];
  }

  lemma SwappedFields(r: Record)
    ensures var s := Swapped(r);
            && s[0] == r[1] && s[1] == r[0] && IsString(s) == IsString(r)
            && Opposite(r, s, 12, 4) && Opposite(r, s, 16, 4) && Opposite(r, s, 20, 4)
            && (IsString(r) ==> Opposite(r, s, 24, 4) && Opposite(r, s, 28, 4) && s[32..] == r[32..])
            && (!IsString(r) ==> Opposite(r, s, 24, 8) && Opposite(r, s, 32, 8) && s[40..] == r[40..])
            && s[2..12] == r[2..12]
  {
    TypeKept(r);
    hide Swapped, IsString;
  }

  /**
   * An entry written in the other byte order, once swapped, reads here as it did there; its strings and
   * single bytes stay as they are.
   */
  lemma SwappedReads(r: Record)
    ensures Read(Swapped(r), false) == Read(r, true)
    ensures Swapped(r)[2..12] == r[2..12] && Swapped(r)[40..] == r[40..]
    ensures IsString(r) ==> Swapped(r)[32..] == r[32..]
  {
    SwappedFields(r);
    hide Swapped, IsString, Opposite;
    var s := Swapped(r);
    OppositeWord(r, s, 12);
    OppositeWord(r, s, 16);
    OppositeWord(r, s, 20);
    if IsString(r) {
      OppositeWord(r, s, 24);
      OppositeWord(r, s, 28);
      assert s[40..] == s[32..][8..] && r[40..] == r[32..][8..];
    } else {
      OppositeLong(r, s, 24);
      OppositeLong(r, s, 32);
    }
  }

  /**
   * A `float` value takes only the first half of the eight bytes that are turned around: its bits survive
   * exactly when the second half holds the same.
   */
  lemma FloatMoves(r: Record)
    requires !IsString(r)
    ensures Word(Swapped(r), 32, false) == Word(r, 32, true) <==> Word(r, 36, true) == Word(r, 32, true)
  {
    SwappedFields(r);
    hide Swapped, IsString;
    var s := Swapped(r);
    assert s[32] == r[39] && s[33] == r[38] && s[34] == r[37] && s[35] == r[36];
  }

  // ----- the file -----

  function Concat(rs: seq<Record>): (b: seq<Byte>)
    ensures |b| == |rs| * RECORD
  {
    if rs == [] then [] else rs[0] + Concat(rs[1..])
  }

  /** The records of `b`, one after the other. */
  function Split(b: seq<Byte>): seq<Record> {
    if |b| < RECORD then [] else [b[..RECORD]] + Split(b[RECORD..])
  }

  lemma {:induction false} SplitConcat(rs: seq<Record>)
    ensures Split(Concat(rs)) == rs
  {
    if rs != [] {
      SplitConcat(rs[1..]);
      assert Concat(rs)[..RECORD] == rs[0] && Concat(rs)[RECORD..] == Concat(rs[1..]);
    }
  }

  /** The first record: magic, version and the two numbers of entries, and zeros. */
  function Header(n0: nat, n1: nat, big: bool): (r: Record)
    requires n0 < 0x1_0000_0000 && n1 < 0x1_0000_0000
  {
    Bytes4(MAGICNO, big) + Bytes4(VERSIONNO, big) + Bytes4(n0, big) + Bytes4(n1, big) + seq(RECORD - 16, _ => 0)
  }

  lemma HeaderWords(n0: nat, n1: nat, big: bool)
    requires n0 < 0x1_0000_0000 && n1 < 0x1_0000_0000
    ensures var h := Header(n0, n1, big);
            && Word(h, 0, big) == MAGICNO && Word(h, 4, big) == VERSIONNO
            && Word(h, 8, big) == n0 && Word(h, 12, big) == n1
  {
    Bytes4Word(MAGICNO, big);
    Bytes4Word(VERSIONNO, big);
    Bytes4Word(n0, big);
    Bytes4Word(n1, big);
  }

  /** apprentice_compile on a host of the given byte order. */
  function Written(a: seq<Record>, b: seq<Record>, big: bool): seq<Byte>
    requires |a| < 0x1_0000_0000 && |b| < 0x1_0000_0000
  {
    Header(|a|, |b|, big) + Concat(a) + Concat(b)
  }

  function Each(rs: seq<Record>): (t: seq<Record>)
    ensures |t| == |rs|
  {
    if rs == [] then [] else [Swapped(rs[0])] + Each(rs[1..])
  }

  /** A header word, turned around when the file came from the other kind of host. */
  function HeaderWord(b: seq<Byte>, at: nat, turn: bool): nat
    requires at + 4 <= |b|
  {
    SwapReads(b, at);
    if turn then Swap4(Word(b, at, false)) else Word(b, at, false)
  }

  /** What the header of a good file says: whether its numbers are turned around, and how many entries each set has. */
  function Counts(b: seq<Byte>): Option<(bool, nat, nat)> {
    var entries := |b| / RECORD % 0x1_0000_0000;
    if entries < 2 || entries * RECORD != |b| then None
    else
      SwapReads(b, 0);
      var turn := Word(b, 0, false) != MAGICNO;
      if turn && Swap4(Word(b, 0, false)) != MAGICNO then None
      else if HeaderWord(b, 4, turn) != VERSIONNO then None
      else
        var n0, n1 := HeaderWord(b, 8, turn), HeaderWord(b, 12, turn);
        if n0 > entries || n1 > entries || entries != ((n0 + n1) % 0x1_0000_0000 + 1) % 0x1_0000_0000 then None
        else Some((turn, n0, n1))
  }

  /**
   * check_buffer on a little-endian host: the two sets of entries, or nothing for a bad file. The last test
   * is not in the source; it only stops the one sum of counts that wraps round to the right total.
   */
  function Loaded(b: seq<Byte>): Option<(seq<Record>, seq<Record>)> {
    match Counts(b)
    case None => None
    case Some((turn, n0, n1)) =>
      if |b| < RECORD || n0 + n1 > |Split(b[RECORD..])| then None
      else
        var rs := Split(b[RECORD..]);
        Some(if turn then (Each(rs[..n0]), Each(rs[n0..n0 + n1])) else (rs[..n0], rs[n0..n0 + n1]))
  }

  /** The counts of a good header are those of the file's entries, but for the one sum that wraps round. */
  lemma CountsAddUp(b: seq<Byte>)
    requires Counts(b).Some?
    ensures |b| >= 2 * RECORD && |b| % RECORD == 0
    ensures var (_, n0, n1) := Counts(b).value;
            n0 + n1 == |Split(b[RECORD..])| || n0 == n1 == |b| / RECORD == 0xFFFF_FFFF
  {
    hide HeaderWord, Word, Swap4, Split;
    SplitLength(b[RECORD..]);
  }

  lemma {:induction false} SplitLength(b: seq<Byte>)
    ensures |Split(b)| == |b| / RECORD
  {
    if |b| >= RECORD {
      SplitLength(b[RECORD..]);
    }
  }

  lemma MagicTurned()
    ensures Swap4(Word(Bytes4(MAGICNO, true), 0, false)) == MAGICNO != Word(Bytes4(MAGICNO, true), 0, false)
  {
    SwapReads(Bytes4(MAGICNO, true), 0);
    Bytes4Word(MAGICNO, true);
  }

  /** The words of the header, as the other kind of host wrote them. */
  lemma TurnedWords(f: seq<Byte>)
    requires |f| >= RECORD && Word(f, 0, true) == MAGICNO
    ensures Word(f, 0, false) < 0x1_0000_0000
    ensures Word(f, 0, false) != MAGICNO && Swap4(Word(f, 0, false)) == MAGICNO
    ensures HeaderWord(f, 4, true) == Word(f, 4, true)
    ensures HeaderWord(f, 8, true) == Word(f, 8, true)
    ensures HeaderWord(f, 12, true) == Word(f, 12, true)
  {
    MagicTurned();
    SwapReads(f, 0);
    SwapReads(f, 4);
    SwapReads(f, 8);
    SwapReads(f, 12);
    assert Swap4(MAGICNO) != MAGICNO;
  }

  /** What the header of a file with `entries` records says in one byte order, in a database that may be loaded. */
  predicate HeaderSays(b: seq<Byte>, entries: nat, big: bool)
    requires |b| >= 16
  {
    && Word(b, 0, big) == 0xF11E041C && Word(b, 4, big) == 21
    && Word(b, 8, big) <= entries && Word(b, 12, big) <= entries
    && (Word(b, 8, big) + Word(b, 12, big) + 1) % 0x1_0000_0000 == entries
  }

  /** A file of whole records, at least two of them and not too many to count in 32 bits. */
  predicate WholeRecords(b: seq<Byte>) { |b| % 432 == 0 && 2 <= |b| / 432 < 0x1_0000_0000 }

  /**
   * A file is accepted exactly when it is whole records and in one byte order its header has the magic, the
   * version, and two counts that add up with the header to the number of records; those are then the counts.
   */
  lemma AcceptedExactly(b: seq<Byte>, turn: bool, n0: nat, n1: nat)
    ensures Counts(b) == Some((turn, n0, n1)) <==>
            WholeRecords(b) && HeaderSays(b, |b| / 432, turn) && n0 == Word(b, 8, turn) && n1 == Word(b, 12, turn)
  {
    hide Counts, Word, HeaderSays;
    if !WholeRecords(b) {
      NotWhole(b);
    } else {
      OtherOrder(b);
      if Word(b, 0, false) == MAGICNO {
        PlainCounts(b);
      } else if Word(b, 0, true) == MAGICNO {
        TurnedCounts(b);
      } else {
        NoCounts(b);
      }
      MagicInOne(b, turn);
    }
  }

  lemma NotWhole(b: seq<Byte>)
    requires !WholeRecords(b)
    ensures Counts(b) == None
  {
    hide Word, Swap4, HeaderWord;
  }

  lemma MagicInOne(b: seq<Byte>, turn: bool)
    requires |b| >= RECORD
    ensures Word(b, 0, true) == MAGICNO ==> Word(b, 0, false) != MAGICNO
    ensures HeaderSays(b, |b| / 432, turn) ==> Word(b, 0, turn) == MAGICNO
  {
    hide Word, Swap4, HeaderWord;
    if Word(b, 0, true) == MAGICNO { TurnedWords(b); }
  }

  lemma PlainCounts(b: seq<Byte>)
    requires WholeRecords(b) && Word(b, 0, false) == MAGICNO
    ensures Counts(b) == if HeaderSays(b, |b| / 432, false) then Some((false, Word(b, 8, false), Word(b, 12, false))) else None
  {
    hide Word, Swap4, HeaderWord;
    PlainWords(b);
  }

  lemma TurnedCounts(b: seq<Byte>)
    requires WholeRecords(b) && Word(b, 0, true) == MAGICNO
    ensures Counts(b) == if HeaderSays(b, |b| / 432, true) then Some((true, Word(b, 8, true), Word(b, 12, true))) else None
  {
    hide Word, Swap4, HeaderWord;
    TurnedWords(b);
  }

  lemma NoCounts(b: seq<Byte>)
    requires WholeRecords(b) && Word(b, 0, false) != MAGICNO && Word(b, 0, true) != MAGICNO
    ensures Counts(b) == None
  {
    hide Word, Swap4, HeaderWord;
    OtherOrder(b);
  }

  /** A first word that is the magic when turned around is the magic of the other byte order. */
  lemma OtherOrder(b: seq<Byte>)
    requires |b| >= RECORD
    ensures Word(b, 0, false) < 0x1_0000_0000 && Swap4(Word(b, 0, false)) == Word(b, 0, true)
  {
    SwapReads(b, 0);
  }

  /** Where the parts of a written file stand, and what its header says. */
  lemma FileParts(a: seq<Record>, b: seq<Record>, big: bool)
    requires |a| + |b| < 0xFFFF_FFFF
    ensures var f := Written(a, b, big);
            && |f| == (1 + |a| + |b|) * RECORD && f[..RECORD] == Header(|a|, |b|, big)
            && Split(f[RECORD..]) == a + b
            && Word(f, 0, big) == MAGICNO && Word(f, 4, big) == VERSIONNO
            && Word(f, 8, big) == |a| && Word(f, 12, big) == |b|
  {
    hide Word, Split, Header, Concat;
    var f, h := Written(a, b, big), Header(|a|, |b|, big);
    HeaderWords(|a|, |b|, big);
    SplitConcat(a + b);
    ConcatTwo(a, b);
    assert f[RECORD..] == Concat(a) + Concat(b);
    WordInPrefix(h, f, 0, big);
    WordInPrefix(h, f, 4, big);
    WordInPrefix(h, f, 8, big);
    WordInPrefix(h, f, 12, big);
  }

  lemma WordInPrefix(h: seq<Byte>, f: seq<Byte>, at: nat, big: bool)
    requires at + 4 <= |h| <= |f| && f[..|h|] == h
    ensures Word(f, at, big) == Word(h, at, big)
  {
    forall i: nat | i < |h| ensures f[i] == h[i] { assert f[..|h|][i] == h[i]; }
  }

  lemma {:induction false} ConcatTwo(a: seq<Record>, b: seq<Record>)
    ensures Concat(a + b) == Concat(a) + Concat(b)
  {
    if a == [] {
      assert a + b == b;
    } else {
      ConcatTwo(a[1..], b);
      assert (a + b)[1..] == a[1..] + b && (a + b)[0] == a[0];
      assert a[0] + (Concat(a[1..]) + Concat(b)) == (a[0] + Concat(a[1..])) + Concat(b);
    }
  }

  lemma WrittenCounts(a: seq<Record>, b: seq<Record>, big: bool)
    requires |a| + |b| < 0xFFFF_FFFF
    ensures Counts(Written(a, b, big)) == if a == [] && b == [] then None else Some((big, |a|, |b|))
  {
    hide Word, Split, Swap4, Written, HeaderWord;
    FileParts(a, b, big);
    var f := Written(a, b, big);
    assert |f| / RECORD == 1 + |a| + |b|;
    if big {
      TurnedWords(f);
    } else {
      PlainWords(f);
    }
  }

  lemma PlainWords(f: seq<Byte>)
    requires |f| >= RECORD
    ensures HeaderWord(f, 4, false) == Word(f, 4, false)
    ensures HeaderWord(f, 8, false) == Word(f, 8, false)
    ensures HeaderWord(f, 12, false) == Word(f, 12, false)
  {
    hide Word, Swap4;
  }

  /** The entries are those after the header, in two parts. */
  lemma LoadedIs(f: seq<Byte>, a: seq<Record>, b: seq<Record>, turn: bool)
    requires |f| >= RECORD && Split(f[RECORD..]) == a + b
    requires Counts(f) == None || Counts(f) == Some((turn, |a|, |b|))
    ensures Loaded(f) == if Counts(f) == None then None else Some(if turn then (Each(a), Each(b)) else (a, b))
  {
    hide Split, Counts, Each;
    assert (a + b)[..|a|] == a && (a + b)[|a|..|a| + |b|] == b;
  }

  /** A database of at least one entry is found again in the file written from it; an empty one is refused. */
  lemma WrittenIsLoaded(a: seq<Record>, b: seq<Record>)
    requires |a| + |b| < 0xFFFF_FFFF
    ensures Loaded(Written(a, b, false)) == if a == [] && b == [] then None else Some((a, b))
  {
    hide Word, Split, Written, Counts, Loaded;
    FileParts(a, b, false);
    WrittenCounts(a, b, false);
    LoadedIs(Written(a, b, false), a, b, false);
  }

  /** The same across byte orders: every entry comes out swapped, so that its numbers read as they were written. */
  lemma ForeignIsLoaded(a: seq<Record>, b: seq<Record>)
    requires |a| + |b| < 0xFFFF_FFFF
    ensures Loaded(Written(a, b, true)) == if a == [] && b == [] then None else Some((Each(a), Each(b)))
  {
    hide Word, Split, Written, Counts, Each, Loaded;
    FileParts(a, b, true);
    WrittenCounts(a, b, true);
    LoadedIs(Written(a, b, true), a, b, true);
  }

  // ----- loading, in place -----

  lemma {:induction false} ConcatSplit(b: seq<Byte>)
    requires |b| % RECORD == 0
    ensures Concat(Split(b)) == b
  {
    if |b| >= RECORD {
      ConcatSplit(b[RECORD..]);
      assert b == b[..RECORD] + b[RECORD..];
    }
  }

  lemma {:induction false} EachTwo(a: seq<Record>, b: seq<Record>)
    ensures Each(a + b) == Each(a) + Each(b)
  {
    hide Swapped;
    if a == [] {
      assert a + b == b;
    } else {
      EachTwo(a[1..], b);
      assert (a + b)[1..] == a[1..] + b && (a + b)[0] == a[0];
    }
  }

  /** A buffer whose first `i` entries have been swapped. */
  ghost function Halfway(x: seq<Byte>, rs: seq<Record>, i: nat, y: seq<Byte>): seq<Byte>
    requires i <= |rs|
  {
    x + Concat(Each(rs[..i])) + (Concat(rs[i..]) + y)
  }

  lemma HalfwayStep(x: seq<Byte>, rs: seq<Record>, i: nat, y: seq<Byte>)
    requires i < |rs|
    ensures var at, s := |x| + i * RECORD, Halfway(x, rs, i, y);
            && at + RECORD <= |s| && s[at..at + RECORD] == rs[i]
            && Halfway(x, rs, i + 1, y) == s[..at] + Swapped(rs[i]) + s[at + RECORD..]
  {
    hide Swapped;
    var before, after := x + Concat(Each(rs[..i])), Concat(rs[i + 1..]) + y;
    assert rs[i..] == [rs[i]] + rs[i + 1..];
    assert Halfway(x, rs, i, y) == before + (rs[i] + after);
    assert rs[..i + 1] == rs[..i] + [rs[i]];
    EachTwo(rs[..i], [rs[i]]);
    assert Each([rs[i]]) == [Swapped(rs[i])];
    ConcatTwo(Each(rs[..i]), [Swapped(rs[i])]);
    assert Concat([Swapped(rs[i])]) == Swapped(rs[i]);
    assert Halfway(x, rs, i + 1, y) == before + Swapped(rs[i]) + after;
  }

  /** byteswap: every entry from `at` on. */
  method Byteswap(m: array<Byte>, at: nat, n: nat, ghost x: seq<Byte>, ghost rs: seq<Record>, ghost y: seq<Byte>)
    requires m[..] == x + Concat(rs) + y && |x| == at && |rs| == n
    modifies m
    ensures m[..] == x + Concat(Each(rs)) + y
  {
    hide Swapped, Each, Concat, Halfway;
    HalfwayEnds(x, rs, y);
    var i := 0;
    while i < n
      invariant 0 <= i <= n
      invariant m[..] == Halfway(x, rs, i, y)
    {
      HalfwayStep(x, rs, i, y);
      SwapEntry(m, at + i * RECORD);
      i := i + 1;
    }
  }

  lemma HalfwayEnds(x: seq<Byte>, rs: seq<Record>, y: seq<Byte>)
    ensures Halfway(x, rs, 0, y) == x + Concat(rs) + y
    ensures Halfway(x, rs, |rs|, y) == x + Concat(Each(rs)) + y
  {
    hide Each, Concat;
    EmptySets();
    assert rs[..0] == [] && rs[0..] == rs && rs[..|rs|] == rs && rs[|rs|..] == [];
    Joined(x, [], Concat(rs), y);
    Joined(x, Concat(Each(rs)), [], y);
  }

  lemma Joined(x: seq<Byte>, a: seq<Byte>, b: seq<Byte>, y: seq<Byte>)
    ensures x + a + (b + y) == x + (a + b) + y
    ensures [] + b == b && a + [] == a
  {
  }

  lemma EmptySets()
    ensures Each([]) == [] && Concat([]) == []
  {
  }

  /**
   * check_buffer on a little-endian host: the number of entries in each set, the entries made readable where
   * they stand. Counts that only add up because their sum wraps round are reported as they are; to swap that
   * many entries would leave the buffer, and is where this method gives up.
   */
  method CheckBuffer(p: array<Byte>) returns (r: Option<(nat, nat)>)
    modifies p
    ensures Counts(old(p[..])).None? ==> r.None? && p[..] == old(p[..])
    ensures Loaded(old(p[..])).Some? ==>
              var (x, y) := Loaded(old(p[..])).value;
              r == Some((|x|, |y|)) && p[..] == old(p[..RECORD]) + Concat(x) + Concat(y)
    ensures Counts(old(p[..])).Some? && Loaded(old(p[..])).None? ==>
              var (turn, n0, n1) := Counts(old(p[..])).value;
              r == (if turn then None else Some((n0, n1))) && p[..] == old(p[..])
  {
    hide Word, Swap4, Swapped, Each, Split, Concat, HeaderWord, Loaded;
    ghost var b := p[..];
    if Counts(b).None? { NoneLoaded(b); }
    var entries := p.Length / RECORD % 0x1_0000_0000;
    if entries < 2 { return None; }
    if entries * RECORD != p.Length { return None; }
    SwapReads(b, 0);
    var turn := false;
    if Word(p[..], 0, false) != MAGICNO {
      if Swap4(Word(p[..], 0, false)) != MAGICNO { return None; }
      turn := true;
    }
    if HeaderWord(p[..], 4, turn) != VERSIONNO { return None; }
    var n0 := HeaderWord(p[..], 8, turn);
    if n0 > entries { return None; }
    var n1 := HeaderWord(p[..], 12, turn);
    if n1 > entries { return None; }
    if entries != ((n0 + n1) % 0x1_0000_0000 + 1) % 0x1_0000_0000 { return None; }
    assert Counts(b) == Some((turn, n0, n1));
    CountsAddUp(b);
    SplitLength(b[RECORD..]);
    LoadedParts(b);
    if n0 + n1 > entries - 1 {
      return if turn then None else Some((n0, n1));
    }
    ghost var rs := Split(b[RECORD..]);
    ghost var x, y := rs[..n0], rs[n0..n0 + n1];
    PartsConcat(b, n0);
    assert y == rs[n0..];
    if turn {
      Byteswap(p, RECORD, n0, b[..RECORD], x, Concat(y));
      assert p[..] == (b[..RECORD] + Concat(Each(x))) + Concat(y) + [];
      Byteswap(p, RECORD + n0 * RECORD, n1, b[..RECORD] + Concat(Each(x)), y, []);
      assert p[..] == b[..RECORD] + Concat(Each(x)) + Concat(Each(y));
    }
    r := Some((n0, n1));
  }

  lemma LoadedParts(b: seq<Byte>)
    requires Counts(b).Some? && |b| >= RECORD
    ensures var (turn, n0, n1) := Counts(b).value;
            var rs := Split(b[RECORD..]);
            if n0 + n1 > |rs| then Loaded(b) == None
            else Loaded(b) == Some(if turn then (Each(rs[..n0]), Each(rs[n0..n0 + n1])) else (rs[..n0], rs[n0..n0 + n1]))
  {
    hide Counts, Split, Each;
  }

  lemma NoneLoaded(b: seq<Byte>)
    requires Counts(b).None?
    ensures Loaded(b).None?
  {
    hide Counts;
  }

  /** The two sets, in the bytes after the header. */
  lemma PartsConcat(b: seq<Byte>, n: nat)
    requires |b| >= RECORD && |b| % RECORD == 0 && n <= |Split(b[RECORD..])|
    ensures var rs := Split(b[RECORD..]); b == b[..RECORD] + Concat(rs[..n]) + Concat(rs[n..])
  {
    hide Split, Concat;
    var rs := Split(b[RECORD..]);
    ConcatSplit(b[RECORD..]);
    ConcatTwo(rs[..n], rs[n..]);
    assert rs == rs[..n] + rs[n..];
    assert b == b[..RECORD] + b[RECORD..];
  }
}
