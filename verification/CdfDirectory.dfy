/** The directory of a Composite Document, and the root stream it names. */
module CdfDirectory {
  import opened Bytes
  import opened CdfChain
  import opened CdfStream
  import CdfTables

  const RECORD: nat := 128
  const ROOT_STORAGE := 5

  /** The whole records of each sector of the directory chain, for sectors of `ss` bytes. */
  predicate AreRecords(records: seq<seq<Byte>>, bytes: seq<Byte>) {
    && (forall m | 0 <= m < |records| :: |records[m]| == RECORD)
    && (forall m | 0 <= m < |records| :: RECORD * m + RECORD <= |bytes|
                                      && records[m] == bytes[RECORD * m..RECORD * m + RECORD])
  }

  class Directory {
    var tab: array<seq<Byte>>
    var len: nat

    constructor ()
      ensures len == 0
    {
      tab := new seq<Byte>[0];
      len := 0;
    }
  }

  lemma WholeNumber(n: nat, k: nat)
    requires n == RECORD * k
    ensures n == RECORD * (n / RECORD)
  {
  }

  /** A sector holds a whole number of records, or is too small for one. */
  lemma SectorOfRecords(h: Header)
    ensures SecSize(h) < RECORD || SecSize(h) == RECORD * (SecSize(h) / RECORD)
  {
    if h.secSizeP2 >= 7 {
      CdfTables.MultipleOf(h.secSizeP2, 7);
      assert Power2(7) == 128;
      WholeNumber(SecSize(h), Power2(h.secSizeP2 - 7));
    } else {
      PowerGrows(h.secSizeP2, 6);
      assert Power2(6) == 64;
    }
  }

  lemma RecordPlaces(i: nat, nd: nat)
    ensures nd == 0 ==> Off(i, nd) == 0
    ensures Off(i, RECORD * nd) == RECORD * Off(i, nd)
  {
  }

  /** Splits one sector into its records, after the `i` sectors already split. */
  method Unpack(buf: array<Byte>, nd: nat, tab: array<seq<Byte>>, i: nat, ghost before: seq<Byte>)
    requires RECORD * nd <= buf.Length && Off(i, nd) + nd <= tab.Length
    requires nd > 0 ==> |before| == RECORD * Off(i, nd)
    requires AreRecords(tab[..Off(i, nd)], before)
    modifies tab
    ensures AreRecords(tab[..Off(i, nd) + nd], before + buf[..])
  {
    RecordPlaces(i, nd);
    var at := Off(i, nd);
    var j := 0;
    ghost var all := before + buf[..];
    forall m | 0 <= m < at
      ensures |tab[m]| == RECORD && RECORD * m + RECORD <= |all| && tab[m] == all[RECORD * m..RECORD * m + RECORD]
    {
      assert tab[..at][m] == tab[m];
      assert before[RECORD * m..RECORD * m + RECORD] == all[RECORD * m..RECORD * m + RECORD];
    }
    while j < nd
      invariant 0 <= j <= nd
      invariant forall m | 0 <= m < at + j ::
                  && |tab[m]| == RECORD && RECORD * m + RECORD <= |all|
                  && tab[m] == all[RECORD * m..RECORD * m + RECORD]
    {
      tab[at + j] := buf[RECORD * j..RECORD * j + RECORD];
      assert all[RECORD * (at + j)..RECORD * (at + j) + RECORD] == buf[RECORD * j..RECORD * j + RECORD];
      j := j + 1;
    }
  }

  lemma NoRecords(tab: array<seq<Byte>>)
    ensures AreRecords(tab[..0], [])
  {
  }

  /** Reads one more sector and splits it. */
  method ReadRecords(file: seq<Byte>, h: Header, sid: int, buf: array<Byte>, tab: array<seq<Byte>>, i: nat,
                     ghost ids: seq<int>)
    returns (nr: int)
    requires sid >= 0 && i == |ids| && buf.Length == SecSize(h)
    requires Off(i, SecSize(h) / RECORD) <= Off(i + 1, SecSize(h) / RECORD) <= tab.Length
    requires AllInside(file, SecSize(h), SecSize(h), ids)
    requires AreRecords(tab[..Off(i, SecSize(h) / RECORD)], Gather(file, SecSize(h), SecSize(h), ids))
    modifies buf, tab
    ensures nr == SecSize(h) <==> Inside(file, SecSize(h), SecSize(h), sid)
    ensures nr == SecSize(h) ==> AllInside(file, SecSize(h), SecSize(h), ids + [sid])
    ensures nr == SecSize(h) ==>
              AreRecords(tab[..Off(i + 1, SecSize(h) / RECORD)], Gather(file, SecSize(h), SecSize(h), ids + [sid]))
  {
    hide Off, Place, Gather, AreRecords;
    SizesArePositive(h.secSizeP2);
    SectorOfRecords(h);
    var ss := SecSize(h);
    var nd := ss / RECORD;
    NothingGathered(file, ss, ss);
    nr := ReadUnit(file, ss, ss, sid, buf, 0);
    if nr == ss {
      assert buf[..] == buf[..0 + ss] == buf[..0] + Unit(file, ss, ss, sid) == Unit(file, ss, ss, sid);
      OffRoom(i, i + 1, nd);
      RecordPlaces(i, nd);
      Unpack(buf, nd, tab, i, Gather(file, ss, ss, ids));
      ghost var ext := ids + [sid];
      assert ext[..i] == ids && ext[..i + 1] == ext && ext[i] == sid;
      GatherSnoc(file, ss, ss, ext, i);
      assert Gather(file, ss, ss, ext) == Gather(file, ss, ss, ids) + buf[..];
    }
  }

  /** Reads the directory: the records of the sectors of its chain, in order. */
  method ReadDirectory(file: seq<Byte>, h: Header, sat: Table, dir: Directory) returns (ok: bool)
    requires Accepted(h) && Off(sat.len, SecSize(h)) <= sat.tab.Length
    modifies dir
    ensures var want := ChainBytes(file, SecSize(h), SecSize(h), sat.Next(SecSize(h)),
                                   MaxSector(Off(sat.len, SecSize(h)) / 4), Signed32(h.firstDirectory));
            && ok == want.Some?
            && (ok ==> && dir.len <= dir.tab.Length && fresh(dir.tab)
                       && AreRecords(dir.tab[..dir.len], want.value)
                       && RECORD * dir.len == if SecSize(h) < RECORD then 0 else |want.value|)
  {
    hide Off, Place, Follow, Walk, Gather, AreRecords, MaxSector, Signed32;
    SizesArePositive(h.secSizeP2);
    SectorOfRecords(h);
    var ss := SecSize(h);
    var sid := Signed32(h.firstDirectory);
    ghost var first := sid;
    ghost var next := sat.Next(ss);
    ghost var limit := MaxSector(Off(sat.len, ss) / 4);
    var ns := CountChain(sat, sid, ss);
    CountFollows(next, limit, sid);
    if ns == -1 {
      return false;
    }
    var nd := ss / RECORD;
    dir.len := Off(ns, nd);
    var tab := new seq<Byte>[dir.len];
    dir.tab := tab;
    var buf := new Byte[ss];
    ghost var whole := if ns == 0 then [] else Follow(next, limit, first, LOOP_LIMIT).value;
    if ns > 0 {
      FollowIsChain(next, limit, first, LOOP_LIMIT, whole);
      AtStart(next, limit, first, whole);
    }
    NothingGathered(file, ss, ss);
    NothingGathered(file, ss, nd);
    NoRecords(tab);
    var i: nat, j: nat := 0, 0;
    while i < ns
      invariant 0 <= i <= ns == |whole| && j <= nd + 1 && sat.Next(ss) == next
      invariant dir.tab == tab && dir.len == Off(ns, nd) == tab.Length
      invariant At(next, limit, whole, i, sid)
      invariant AllInside(file, ss, ss, whole[..i])
      invariant Off(i, nd) <= tab.Length
      invariant AreRecords(tab[..Off(i, nd)], Gather(file, ss, ss, whole[..i]))
    {
      // `j` was left at the number of records of a sector, which is below the limit.
      if j >= LOOP_LIMIT {
        assert false;
      }
      AtNext(next, limit, first, whole, i);
      OffRoom(i, ns, nd);
      assert whole[..i] + [sid] == whole[..i + 1];
      var nr := ReadRecords(file, h, sid, buf, tab, i, whole[..i]);
      if nr != ss {
        assert !Inside(file, ss, ss, whole[i]);
        return false;
      }
      j := nd;
      sid := NextOf(sat, ss, sid);
      i, j := i + 1, j + 1;
    }
    RecordPlaces(ns, nd);
    assert whole[..i] == whole;
    ok := true;
  }

  function TypeOf(record: seq<Byte>): int
    requires |record| == RECORD
  {
    record[66]
  }

  function FirstSector(record: seq<Byte>): int
    requires |record| == RECORD
  {
    Word(record, 29)
  }

  /** The stream size, an unsigned field. */
  function StreamSize(record: seq<Byte>): nat
    requires |record| == RECORD
  {
    Word(record, 30) % 0x1_0000_0000
  }

  /** A number as four bytes, lowest first. */
  function LowestFirst(n: int): (b: seq<Byte>)
    ensures |b| == 4
  {
    var m := n % 0x1_0000_0000;
    [m % 256, m / 256 % 256, m / 0x1_0000 % 256, m / 0x100_0000]
  }

  /** A directory record as it is written: its fields in their order and widths. */
  function Written(name: seq<Byte>, nameLen: seq<Byte>, kind: Byte, color: Byte, links: seq<Byte>, uuid: seq<Byte>,
                   flags: seq<Byte>, times: seq<Byte>, first: int, size: nat, unused: seq<Byte>): seq<Byte>
  {
    name + nameLen + [kind, color] + links + uuid + flags + times + LowestFirst(first) + LowestFirst(size) + unused
  }

  /** What a record is written with is read from it. */
  lemma WrittenIsRead(name: seq<Byte>, nameLen: seq<Byte>, kind: Byte, color: Byte, links: seq<Byte>, uuid: seq<Byte>,
                      flags: seq<Byte>, times: seq<Byte>, first: int, size: nat, unused: seq<Byte>)
    requires |name| == 64 && |nameLen| == 2 && |links| == 12 && |uuid| == 16 && |flags| == 4 && |times| == 16 && |unused| == 4
    requires -0x8000_0000 <= first < 0x8000_0000 && size < 0x1_0000_0000
    ensures var r := Written(name, nameLen, kind, color, links, uuid, flags, times, first, size, unused);
            && |r| == RECORD && r[..64] == name && TypeOf(r) == kind && FirstSector(r) == first && StreamSize(r) == size
  {
    hide LowestFirst, Word;
    var r := Written(name, nameLen, kind, color, links, uuid, flags, times, first, size, unused);
    var stored := if size < 0x8000_0000 then size else size - 0x1_0000_0000;
    assert r[116..120] == LowestFirst(first) && r[120..124] == LowestFirst(size);
    ReadBack(r, 29, first);
    assert LowestFirst(size) == LowestFirst(stored) by { SameBytes(size, stored); }
    ReadBack(r, 30, stored);
  }

  lemma SameBytes(n: int, m: int)
    requires n % 0x1_0000_0000 == m % 0x1_0000_0000
    ensures LowestFirst(n) == LowestFirst(m)
  {
  }

  lemma ReadBack(r: seq<Byte>, k: nat, n: int)
    requires 4 * k + 4 <= |r| && r[4 * k..4 * k + 4] == LowestFirst(n) && -0x8000_0000 <= n < 0x8000_0000
    ensures Word(r, k) == n
  {
    hide Word;
    var b := LowestFirst(n);
    assert r[4 * k] == b[0] && r[4 * k + 1] == b[1] && r[4 * k + 2] == b[2] && r[4 * k + 3] == b[3];
    WordIs(r, k, n);
  }

  /** The position of the first record that describes the root storage. */
  function RootRecord(records: seq<seq<Byte>>): (r: Option<nat>)
    requires forall m | 0 <= m < |records| :: |records[m]| == RECORD
    ensures r.Some? ==> r.value < |records| && TypeOf(records[r.value]) == ROOT_STORAGE
    ensures r.Some? ==> forall m | 0 <= m < r.value :: TypeOf(records[m]) != ROOT_STORAGE
    ensures r.None? ==> forall m | 0 <= m < |records| :: TypeOf(records[m]) != ROOT_STORAGE
  {
    if records == [] then None
    else if TypeOf(records[0]) == ROOT_STORAGE then Some(0)
    else
      match RootRecord(records[1..])
      case None => assert forall m | 1 <= m < |records| :: records[m] == records[1..][m - 1]; None
      case Some(k) => assert forall m | 1 <= m < |records| :: records[m] == records[1..][m - 1]; Some(k + 1)
  }

  lemma RootRecordIs(records: seq<seq<Byte>>, k: nat)
    requires forall m | 0 <= m < |records| :: |records[m]| == RECORD
    requires k <= |records| && forall m | 0 <= m < k :: TypeOf(records[m]) != ROOT_STORAGE
    ensures k == |records| ==> RootRecord(records) == None
    ensures k < |records| && TypeOf(records[k]) == ROOT_STORAGE ==> RootRecord(records) == Some(k)
  {
  }

  /**
   * Reads the root stream, the source of all short streams. A document without one is not an error: its
   * stream is left empty.
   */
  method ReadShortStream(file: seq<Byte>, h: Header, sat: Table, dir: Directory, scn: Stream)
    returns (ok: bool, root: Option<nat>)
    requires Accepted(h) && Off(sat.len, SecSize(h)) <= sat.tab.Length && dir.len <= dir.tab.Length
    requires forall m | 0 <= m < dir.len :: |dir.tab[m]| == RECORD
    modifies scn
    ensures root == RootRecord(dir.tab[..dir.len])
    ensures root.None? || FirstSector(dir.tab[root.value]) < 0 ==> ok && scn.Cleared()
    ensures root.Some? && FirstSector(dir.tab[root.value]) >= 0 ==>
              (var record := dir.tab[root.value];
               var want := LongStream(file, h, sat.Next(SecSize(h)), MaxSector(Off(sat.len, SecSize(h)) / 4),
                                      FirstSector(record), StreamSize(record));
               && ok == want.Some?
               && (ok ==> scn.Holds(want.value) && scn.ss == SecSize(h))
               && (!ok ==> scn.Cleared()))
  {
    var i := 0;
    while i < dir.len && TypeOf(dir.tab[i]) != ROOT_STORAGE
      invariant 0 <= i <= dir.len
      invariant forall m | 0 <= m < i :: TypeOf(dir.tab[m]) != ROOT_STORAGE
    {
      i := i + 1;
    }
    RootRecordIs(dir.tab[..dir.len], i);
    if i == dir.len {
      scn.Zero();
      return true, None;
    }
    root := Some(i);
    var d := dir.tab[i];
    if FirstSector(d) < 0 {
      scn.Zero();
      return true, root;
    }
    ok := ReadLongSectorChain(file, h, sat, FirstSector(d), StreamSize(d), scn);
  }
}
