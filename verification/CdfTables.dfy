/** The sector allocation tables and the directory of a Composite Document. */
module CdfTables {
  import opened Bytes
  import opened CdfChain
  import opened CdfStream

  /** The entries before the first negative one. */
  function Leading(ids: seq<int>): (r: seq<int>)
    ensures r <= ids && forall i | 0 <= i < |r| :: r[i] >= 0
    ensures |r| < |ids| ==> ids[|r|] < 0
  {
    if ids == [] || ids[0] < 0 then [] else [ids[0]] + Leading(ids[1..])
  }

  lemma {:induction false} LeadingIs(ids: seq<int>, n: nat)
    requires n <= |ids| && (forall i | 0 <= i < n :: ids[i] >= 0)
    requires n < |ids| ==> ids[n] < 0
    ensures Leading(ids) == ids[..n]
  {
    if n > 0 {
      LeadingIs(ids[1..], n - 1);
      assert ids[..n] == [ids[0]] + ids[1..][..n - 1];
    }
  }

  /** How many entries come before the first free mark. */
  function UntilFree(ids: seq<int>): (n: nat)
    ensures |Leading(ids)| <= n <= |ids|
  {
    if ids == [] || ids[0] == FREE then 0 else 1 + UntilFree(ids[1..])
  }

  const SIZE_MAX: nat := 0xFFFF_FFFF_FFFF_FFFF

  /** Table sectors named by one master sector; the size_t subtraction wraps for sectors below four bytes. */
  function PerSector(h: Header): nat {
    if SecSize(h) < 4 then SIZE_MAX else SecSize(h) / 4 - 1
  }

  function SectorLimit(h: Header): nat {
    SizesArePositive(h.secSizeP2);
    0xFFFF_FFFF / (64 * SecSize(h))
  }

  predicate TooMany(h: Header) {
    || (PerSector(h) > 0 && h.masterSectors > SectorLimit(h) / PerSector(h))
    || UntilFree(h.masterSat) > SectorLimit(h)
  }

  /** The size checks rule out master sectors too small to hold an entry. */
  lemma SmallSectors(h: Header)
    requires !TooMany(h)
    ensures h.masterSectors == 0 || SecSize(h) >= 4
  {
    SizesArePositive(h.secSizeP2);
    assert SectorLimit(h) < SIZE_MAX;
  }

  /** The table sectors that master sector number `j`, at `mid`, and those after it name. */
  function MasterChain(file: seq<Byte>, h: Header, mid: int, j: nat): Option<seq<int>>
    requires h.masterSectors == 0 || SecSize(h) >= 4
    decreases h.masterSectors - j
  {
    if j >= h.masterSectors || mid < 0 then Some([])
    else if j >= LOOP_LIMIT || !Inside(file, SecSize(h), SecSize(h), mid) then None
    else
      var words := Entries(Unit(file, SecSize(h), SecSize(h), mid));
      var ids := Leading(words[..PerSector(h)]);
      if |ids| < PerSector(h) then Some(ids)
      else match MasterChain(file, h, words[PerSector(h)], j + 1)
        case None => None
        case Some(rest) => Some(ids + rest)
  }

  /** The sectors the allocation table is made of, in order. */
  function TableSectors(file: seq<Byte>, h: Header): Option<seq<int>>
    requires Accepted(h)
  {
    if TooMany(h) then None
    else
      SmallSectors(h);
      match MasterChain(file, h, h.firstMasterSat, 0)
      case None => None
      case Some(rest) =>
        var ids := Leading(h.masterSat) + rest;
        if AllInside(file, SecSize(h), SecSize(h), ids) then Some(ids) else None
  }

  lemma {:induction false} MasterChainFits(file: seq<Byte>, h: Header, mid: int, j: nat)
    requires h.masterSectors == 0 || SecSize(h) >= 4
    requires j <= h.masterSectors && MasterChain(file, h, mid, j).Some?
    ensures |MasterChain(file, h, mid, j).value| <= Off(h.masterSectors - j, PerSector(h))
    decreases h.masterSectors - j
  {
    if j < h.masterSectors && mid >= 0 {
      var words := Entries(Unit(file, SecSize(h), SecSize(h), mid));
      var ids := Leading(words[..PerSector(h)]);
      OffRoom(h.masterSectors - j - 1, h.masterSectors - j, PerSector(h));
      if |ids| == PerSector(h) {
        MasterChainFits(file, h, words[PerSector(h)], j + 1);
      }
    }
  }

  /** The room set aside for the table. */
  function Room(h: Header): nat { Off(h.masterSectors, PerSector(h)) + UntilFree(h.masterSat) }

  lemma RoomIsSmall(h: Header)
    requires !TooMany(h)
    ensures Room(h) <= 2 * SectorLimit(h)
    ensures Off(Room(h), SecSize(h)) <= 0x800_0000
  {
    SmallSectors(h);
    SizesArePositive(h.secSizeP2);
    var limit, per, ss := SectorLimit(h), PerSector(h), SecSize(h);
    if h.masterSectors == 0 {
      assert Off(h.masterSectors, per) == 0;
    } else if per == 0 {
      assert Off(h.masterSectors, per) == 0;
    } else {
      QuotientBound(h.masterSectors, limit, per);
    }
    Scaled(Room(h), limit, ss);
  }

  lemma QuotientBound(n: nat, limit: nat, per: nat)
    requires per > 0 && n <= limit / per
    ensures Off(n, per) <= limit
  {
    assert n * per <= (limit / per) * per;
  }

  lemma Scaled(n: nat, limit: nat, ss: nat)
    requires ss > 0 && limit == 0xFFFF_FFFF / (64 * ss) && n <= 2 * limit
    ensures Off(n, ss) <= 0x800_0000
  {
    assert limit * (64 * ss) <= 0xFFFF_FFFF;
    assert limit * (64 * ss) == 64 * (limit * ss);
    assert n * ss <= (2 * limit) * ss == 2 * (limit * ss);
  }

  /** The size checks keep every sector number of the table, and their count, in 32 bits. */
  lemma TableFits(file: seq<Byte>, h: Header)
    requires Accepted(h) && TableSectors(file, h).Some?
    ensures |TableSectors(file, h).value| <= Room(h)
    ensures var n := Off(|TableSectors(file, h).value|, SecSize(h)) / 4; MaxSector(n) == n
  {
    SmallSectors(h);
    MasterChainFits(file, h, h.firstMasterSat, 0);
    RoomIsSmall(h);
    OffGrows(|TableSectors(file, h).value|, Room(h), SecSize(h));
  }

  lemma OffGrows(i: nat, n: nat, size: nat)
    requires i <= n
    ensures Off(i, size) <= Off(n, size)
  {
    if i < n { OffRoom(i, n, size); }
  }

  lemma {:induction false} MultipleOf(k: nat, m: nat)
    requires m <= k
    ensures Power2(k) == Power2(m) * Power2(k - m)
  {
    if m > 0 { MultipleOf(k - 1, m - 1); }
  }

  lemma Quarter(h: Header)
    requires SecSize(h) >= 4
    ensures SecSize(h) % 4 == 0 && SecSize(h) == 4 * (SecSize(h) / 4)
  {
    if h.secSizeP2 >= 2 {
      MultipleOf(h.secSizeP2, 2);
      assert Power2(2) == 4;
    } else {
      assert Power2(0) == 1 && Power2(1) == 2;
    }
  }

  /** A master sector is words to its end: all but the last name table sectors, and the last leads to the next one. */
  lemma LastWordLeadsOn(h: Header)
    requires SecSize(h) >= 4
    ensures 4 * PerSector(h) + 4 == SecSize(h)
  {
    Quarter(h);
  }

  /** The table rule: entry `r` of the table's sector `q` is word `r` of the file's sector `ids[q]`. */
  lemma TableEntry(file: seq<Byte>, h: Header, ids: seq<int>, q: nat, r: nat)
    requires SecSize(h) >= 4 && AllInside(file, SecSize(h), SecSize(h), ids)
    requires q < |ids| && r < SecSize(h) / 4
    ensures var n := Off(q, SecSize(h) / 4) + r;
            var next := Entries(Gather(file, SecSize(h), SecSize(h), ids));
            && n < |next|
            && next[n] == Word(Unit(file, SecSize(h), SecSize(h), ids[q]), r)
  {
    hide Off, Place, Gather, Signed32, LittleEndian;
    var ss := SecSize(h);
    Quarter(h);
    OffRoom(q, |ids|, ss);
    OffRoom(q, |ids|, ss / 4);
    FourTimes(|ids|, ss / 4);
    var all := Gather(file, ss, ss, ids);
    var unit := Unit(file, ss, ss, ids[q]);
    var n := Off(q, ss / 4) + r;
    FourTimes(q, ss / 4);
    assert 4 * n == Off(q, ss) + 4 * r;
    GatherByte(file, ss, ss, ids, q, 4 * r);
    GatherByte(file, ss, ss, ids, q, 4 * r + 1);
    GatherByte(file, ss, ss, ids, q, 4 * r + 2);
    GatherByte(file, ss, ss, ids, q, 4 * r + 3);
    assert all[4 * n] == unit[4 * r] && all[4 * n + 1] == unit[4 * r + 1];
    assert all[4 * n + 2] == unit[4 * r + 2] && all[4 * n + 3] == unit[4 * r + 3];
  }

  lemma FourTimes(q: nat, quarter: nat)
    ensures Off(q, 4 * quarter) == 4 * Off(q, quarter)
  {
  }

  /** Reads one more sector into the table, after those named by `ids`. */
  method Append(file: seq<Byte>, h: Header, tab: array<Byte>, i: nat, id: int, ghost ids: seq<int>)
    returns (nr: int)
    requires id >= 0 && i == |ids| && Off(i + 1, SecSize(h)) <= tab.Length
    requires AllInside(file, SecSize(h), SecSize(h), ids)
    requires Off(i, SecSize(h)) <= tab.Length
    requires tab[..Off(i, SecSize(h))] == Gather(file, SecSize(h), SecSize(h), ids)
    modifies tab
    ensures nr == SecSize(h) <==> AllInside(file, SecSize(h), SecSize(h), ids + [id])
    ensures nr == SecSize(h) ==>
              tab[..Off(i + 1, SecSize(h))] == Gather(file, SecSize(h), SecSize(h), ids + [id])
  {
    hide Off, Place;
    SizesArePositive(h.secSizeP2);
    var ss := SecSize(h);
    OffRoom(i, i + 1, ss);
    nr := ReadUnit(file, ss, ss, id, tab, Off(i, ss));
    ghost var ext := ids + [id];
    assert ext[..i] == ids && ext[..i + 1] == ext;
    assert ext[i] == id;
    if nr == ss {
      GatherSnoc(file, ss, ss, ext, i);
    }
  }

  datatype Progress = More | Done | Failed

  /** One master sector: reads the table sectors it names, up to a negative entry. */
  method ReadNamed(file: seq<Byte>, h: Header, tab: array<Byte>, start: nat, room: nat, msa: array<Byte>,
                   ghost ids: seq<int>)
    returns (p: Progress, i: nat)
    requires SecSize(h) >= 4 && msa.Length == SecSize(h) && msa != tab
    requires start == |ids| && start + PerSector(h) <= room
    requires Off(room, SecSize(h)) <= tab.Length
    requires AllInside(file, SecSize(h), SecSize(h), ids)
    requires Off(start, SecSize(h)) <= tab.Length
    requires tab[..Off(start, SecSize(h))] == Gather(file, SecSize(h), SecSize(h), ids)
    modifies tab
    ensures var named := Leading(Entries(msa[..])[..PerSector(h)]);
            && (p == Failed <==> !AllInside(file, SecSize(h), SecSize(h), ids + named))
            && (p != Failed ==>
                  && i == |ids + named| && Off(i, SecSize(h)) <= tab.Length
                  && tab[..Off(i, SecSize(h))] == Gather(file, SecSize(h), SecSize(h), ids + named)
                  && (p == Done <==> |named| < PerSector(h)))
    ensures msa[..] == old(msa[..])
  {
    hide Off, Place, Gather, Leading, AllInside, SecSize, Word, Inside;
    var ss := SecSize(h);
    var per := PerSector(h);
    ghost var words := Entries(msa[..])[..per];
    i := start;
    var k := 0;
    assert ids + words[..0] == ids;
    while k < per
      invariant 0 <= k <= per && i == start + k
      invariant forall m | 0 <= m < k :: words[m] >= 0
      invariant AllInside(file, ss, ss, ids + words[..k])
      invariant Off(i, ss) <= tab.Length && tab[..Off(i, ss)] == Gather(file, ss, ss, ids + words[..k])
      invariant msa[..] == old(msa[..])
    {
      var sec := Entry(msa, k);
      assert sec == words[k];
      if sec < 0 {
        LeadingIs(words, k);
        return Done, i;
      }
      // The room was computed for every entry of every master sector.
      if i >= room {
        assert false;
      }
      OffRoom(i, room, ss);
      assert (ids + words[..k]) + [sec] == ids + words[..k + 1];
      var nr := Append(file, h, tab, i, sec, ids + words[..k]);
      if nr != ss {
        NotAllNamed(file, ss, ids, words, k);
        return Failed, i;
      }
      k := k + 1;
      i := i + 1;
    }
    assert words[..per] == words;
    LeadingIs(words, per);
    p := More;
  }

  lemma NotAllNamed(file: seq<Byte>, ss: nat, ids: seq<int>, words: seq<int>, k: nat)
    requires k < |words| && (forall m | 0 <= m <= k :: words[m] >= 0)
    requires !AllInside(file, ss, ss, ids + words[..k + 1])
    ensures !AllInside(file, ss, ss, ids + Leading(words))
  {
    var named := Leading(words);
    assert |named| > k;
    var a, b := ids + words[..k + 1], ids + named;
    var m :| 0 <= m < |a| && !Inside(file, ss, ss, a[m]);
    assert b[m] == a[m];
  }

  /** The entries held in the header itself. */
  method ReadHeaderPart(file: seq<Byte>, h: Header, tab: array<Byte>) returns (ok: bool, i: nat)
    requires Accepted(h) && Off(|Leading(h.masterSat)|, SecSize(h)) <= tab.Length
    modifies tab
    ensures ok == AllInside(file, SecSize(h), SecSize(h), Leading(h.masterSat))
    ensures ok ==> i == |Leading(h.masterSat)|
    ensures ok ==> tab[..Off(i, SecSize(h))] == Gather(file, SecSize(h), SecSize(h), Leading(h.masterSat))
  {
    hide Off, Place, Gather, Leading, Unit, UntilFree, AllInside, SecSize, NoneNegative;
    var ss := SecSize(h);
    var m := h.masterSat;
    NothingGathered(file, ss, ss);
    i := 0;
    assert m[..0] == [];
    NothingNegative(file, ss);
    while i < MASTER_ENTRIES
      invariant 0 <= i <= MASTER_ENTRIES
      invariant NoneNegative(m[..i])
      invariant AllInside(file, ss, ss, m[..i])
      invariant Off(i, ss) <= tab.Length && tab[..Off(i, ss)] == Gather(file, ss, ss, m[..i])
    {
      if m[i] < 0 {
        break;
      }
      OneMore(m, i);
      OffRoom(i, |Leading(m)|, ss);
      assert m[..i] + [m[i]] == m[..i + 1];
      var nr := Append(file, h, tab, i, m[i], m[..i]);
      if nr != ss {
        HeaderOutside(file, ss, m, i);
        return false, i;
      }
      i := i + 1;
    }
    LeadingPrefix(m, i);
    ok := true;
  }

  predicate NoneNegative(ids: seq<int>) {
    forall k | 0 <= k < |ids| :: ids[k] >= 0
  }

  lemma NothingNegative(file: seq<Byte>, ss: nat)
    ensures NoneNegative([]) && AllInside(file, ss, ss, [])
  {
  }

  lemma OneMore(ids: seq<int>, k: nat)
    requires k < |ids| && NoneNegative(ids[..k]) && ids[k] >= 0
    ensures NoneNegative(ids[..k + 1]) && k < |Leading(ids)|
  {
    forall m | 0 <= m <= k ensures ids[m] >= 0 {
      if m < k { assert ids[..k][m] >= 0; }
    }
    LongerThan(ids, k);
  }

  lemma LeadingPrefix(ids: seq<int>, n: nat)
    requires n <= |ids| && NoneNegative(ids[..n]) && (n < |ids| ==> ids[n] < 0)
    ensures Leading(ids) == ids[..n]
  {
    forall m | 0 <= m < n ensures ids[m] >= 0 {
      assert ids[..n][m] >= 0;
    }
    LeadingIs(ids, n);
  }

  lemma HeaderOutside(file: seq<Byte>, ss: nat, ids: seq<int>, k: nat)
    requires k < |ids| && NoneNegative(ids[..k + 1]) && !AllInside(file, ss, ss, ids[..k + 1])
    ensures !AllInside(file, ss, ss, Leading(ids))
  {
    forall m | 0 <= m <= k ensures ids[m] >= 0 {
      assert ids[..k + 1][m] >= 0;
    }
    assert [] + ids[..k + 1] == ids[..k + 1] && [] + Leading(ids) == Leading(ids);
    NotAllNamed(file, ss, [], ids, k);
  }

  lemma LongerThan(ids: seq<int>, k: nat)
    requires k < |ids| && forall m | 0 <= m <= k :: ids[m] >= 0
    ensures k < |Leading(ids)|
  {
  }

  lemma PartOutside(file: seq<Byte>, ss: nat, a: seq<int>, b: seq<int>)
    requires !AllInside(file, ss, ss, a)
    ensures !AllInside(file, ss, ss, a + b)
  {
    var m :| 0 <= m < |a| && !Inside(file, ss, ss, a[m]);
    assert (a + b)[m] == a[m];
  }

  /** The sectors `ids` and those the walk over the master sectors has yet to name, when all lie in the file. */
  function Wanted(file: seq<Byte>, h: Header, ids: seq<int>, mid: int, j: nat): Option<seq<int>>
    requires h.masterSectors == 0 || SecSize(h) >= 4
  {
    Joined(file, SecSize(h), ids, MasterChain(file, h, mid, j))
  }

  /** `ids` and the rest of them, when there is a rest and all lie in the file. */
  function Joined(file: seq<Byte>, ss: nat, ids: seq<int>, rest: Option<seq<int>>): Option<seq<int>> {
    match rest
    case None => None
    case Some(r) => if AllInside(file, ss, ss, ids + r) then Some(ids + r) else None
  }

  lemma JoinedMore(file: seq<Byte>, ss: nat, ids: seq<int>, more: seq<int>, rest: Option<seq<int>>)
    ensures Joined(file, ss, ids, match rest case None => None case Some(r) => Some(more + r)) ==
            if AllInside(file, ss, ss, ids + more) then Joined(file, ss, ids + more, rest) else None
  {
    hide AllInside;
    if rest.Some? {
      assert (ids + more) + rest.value == ids + (more + rest.value);
      if !AllInside(file, ss, ss, ids + more) {
        PartOutside(file, ss, ids + more, rest.value);
      }
    }
  }

  /** One step of the walk over the master sectors. */
  lemma WantedStep(file: seq<Byte>, h: Header, ids: seq<int>, mid: int, j: nat, words: seq<int>)
    requires SecSize(h) >= 4 && j < h.masterSectors && mid >= 0
    requires j < LOOP_LIMIT && Inside(file, SecSize(h), SecSize(h), mid)
    requires words == Entries(Unit(file, SecSize(h), SecSize(h), mid))
    ensures var more := Leading(words[..PerSector(h)]);
            Wanted(file, h, ids, mid, j) ==
              if !AllInside(file, SecSize(h), SecSize(h), ids + more) then None
              else if |more| < PerSector(h) then Some(ids + more)
              else Wanted(file, h, ids + more, words[PerSector(h)], j + 1)
  {
    MasterStep(file, h, mid, j, words);
    var more := Leading(words[..PerSector(h)]);
    hide Leading, MasterChain, AllInside, Inside, Entries;
    if |more| == PerSector(h) {
      hide Joined;
      JoinedMore(file, SecSize(h), ids, more, MasterChain(file, h, words[PerSector(h)], j + 1));
    }
  }

  lemma MasterStep(file: seq<Byte>, h: Header, mid: int, j: nat, words: seq<int>)
    requires SecSize(h) >= 4 && j < h.masterSectors && mid >= 0
    requires j < LOOP_LIMIT && Inside(file, SecSize(h), SecSize(h), mid)
    requires words == Entries(Unit(file, SecSize(h), SecSize(h), mid))
    ensures PerSector(h) < |words|
    ensures var more := Leading(words[..PerSector(h)]);
            MasterChain(file, h, mid, j) ==
              if |more| < PerSector(h) then Some(more)
              else match MasterChain(file, h, words[PerSector(h)], j + 1)
                   case None => None
                   case Some(rest) => Some(more + rest)
  {
    hide Leading, Inside, Entries, Unit;
  }

  lemma WantedEnd(file: seq<Byte>, h: Header, ids: seq<int>, mid: int, j: nat)
    requires h.masterSectors == 0 || SecSize(h) >= 4
    ensures j >= h.masterSectors || mid < 0 ==>
              (Wanted(file, h, ids, mid, j) ==
               if AllInside(file, SecSize(h), SecSize(h), ids) then Some(ids) else None)
    ensures j < h.masterSectors && mid >= 0
            && (j >= LOOP_LIMIT || !Inside(file, SecSize(h), SecSize(h), mid)) ==>
              Wanted(file, h, ids, mid, j) == None
  {
    assert ids + [] == ids;
  }

  /** One round of the walk: a master sector, and the table sectors it names. */
  method ReadMaster(file: seq<Byte>, h: Header, tab: array<Byte>, room: nat, msa: array<Byte>, start: nat, mid: int,
                    ghost j: nat, ghost ids: seq<int>)
    returns (p: Progress, i: nat, next: int, ghost named: seq<int>)
    requires SecSize(h) >= 4 && j < h.masterSectors && j < LOOP_LIMIT && mid >= 0
    requires msa.Length == SecSize(h) && msa != tab
    requires start == |ids| && start + PerSector(h) <= room && Off(room, SecSize(h)) <= tab.Length
    requires Off(start, SecSize(h)) <= tab.Length && AllInside(file, SecSize(h), SecSize(h), ids)
    requires tab[..Off(start, SecSize(h))] == Gather(file, SecSize(h), SecSize(h), ids)
    modifies tab, msa
    ensures Wanted(file, h, ids, mid, j) ==
              (match p
               case Failed => None
               case Done => Some(named)
               case More => Wanted(file, h, named, next, j + 1))
    ensures p != Failed ==>
              && i == |named| <= start + PerSector(h) && AllInside(file, SecSize(h), SecSize(h), named)
              && Off(i, SecSize(h)) <= tab.Length
              && tab[..Off(i, SecSize(h))] == Gather(file, SecSize(h), SecSize(h), named)
  {
    hide Off, Place, Gather, Leading, MasterChain, Wanted, AllInside, Unit, Power2;
    var ss := SecSize(h);
    named, next := ids, mid;
    NothingGathered(file, ss, ss);
    WantedEnd(file, h, ids, mid, j);
    var nr := ReadUnit(file, ss, ss, mid, msa, 0);
    if nr != ss {
      return Failed, start, mid, ids;
    }
    assert msa[..0 + ss] == msa[..];
    ghost var words := Entries(msa[..]);
    WantedStep(file, h, ids, mid, j, words);
    p, i := ReadNamed(file, h, tab, start, room, msa, ids);
    named := ids + Leading(words[..PerSector(h)]);
    if p == More {
      next := Entry(msa, PerSector(h));
    }
  }

  /** The entries held in the chain of master sectors, read after those named by `start`. */
  method ReadMasterChain(file: seq<Byte>, h: Header, tab: array<Byte>, room: nat, ghost start: seq<int>, begin: nat)
    returns (ok: bool, i: nat)
    requires h.masterSectors == 0 || SecSize(h) >= 4
    requires begin == |start| && begin + Off(h.masterSectors, PerSector(h)) <= room
    requires Off(room, SecSize(h)) <= tab.Length && Off(begin, SecSize(h)) <= tab.Length
    requires AllInside(file, SecSize(h), SecSize(h), start)
    requires tab[..Off(begin, SecSize(h))] == Gather(file, SecSize(h), SecSize(h), start)
    modifies tab
    ensures var want := Wanted(file, h, start, h.firstMasterSat, 0);
            && ok == want.Some?
            && (ok ==> && i == |want.value| && AllInside(file, SecSize(h), SecSize(h), want.value)
                       && Off(i, SecSize(h)) <= tab.Length
                       && tab[..Off(i, SecSize(h))] == Gather(file, SecSize(h), SecSize(h), want.value))
  {
    hide Off, Place, Gather, Leading, MasterChain, Wanted, AllInside, Unit, Inside, Power2;
    SizesArePositive(h.secSizeP2);
    var ss := SecSize(h);
    var msa := new Byte[ss];
    var mid := h.firstMasterSat;
    var j: nat := 0;
    i := begin;
    ghost var ids := start;
    ghost var want := Wanted(file, h, ids, mid, 0);
    NothingGathered(file, ss, PerSector(h));
    NothingGathered(file, ss, ss);
    while j < h.masterSectors
      invariant 0 <= j <= h.masterSectors && msa.Length == ss && fresh(msa)
      invariant i == |ids| <= begin + Off(j, PerSector(h))
      invariant want == Wanted(file, h, ids, mid, j)
      invariant AllInside(file, ss, ss, ids)
      invariant Off(i, ss) <= tab.Length && tab[..Off(i, ss)] == Gather(file, ss, ss, ids)
    {
      WantedEnd(file, h, ids, mid, j);
      if mid < 0 {
        return true, i;
      }
      if j >= LOOP_LIMIT {
        return false, i;
      }
      OffRoom(j, h.masterSectors, PerSector(h));
      var p: Progress;
      p, i, mid, ids := ReadMaster(file, h, tab, room, msa, i, mid, j, ids);
      if p == Failed {
        return false, i;
      }
      if p == Done {
        return true, i;
      }
      j := j + 1;
    }
    WantedEnd(file, h, ids, mid, j);
    ok := true;
  }

  /** Reads the sector allocation table. A failure leaves `sat` without a usable table. */
  method ReadSat(file: seq<Byte>, h: Header, sat: Table) returns (ok: bool)
    requires Accepted(h)
    modifies sat
    ensures ok == TableSectors(file, h).Some?
    ensures ok ==>
              (var ids := TableSectors(file, h).value;
               && sat.len == |ids| && Off(sat.len, SecSize(h)) <= sat.tab.Length && fresh(sat.tab)
               && AllInside(file, SecSize(h), SecSize(h), ids)
               && sat.tab[..Off(sat.len, SecSize(h))] == Gather(file, SecSize(h), SecSize(h), ids)
               && MaxSector(Off(sat.len, SecSize(h)) / 4) == Off(sat.len, SecSize(h)) / 4)
  {
    hide Off, Place, Gather, Leading, UntilFree, MasterChain;
    SizesArePositive(h.secSizeP2);
    var ss := SecSize(h);
    if TooMany(h) {
      return false;
    }
    SmallSectors(h);
    var room := Room(h);
    OffRoom(0, 1, ss);
    sat.len := room;
    var tab := new Byte[Off(if room == 0 then 1 else room, ss)];
    sat.tab := tab;
    ghost var head := Leading(h.masterSat);
    OffGrows(|head|, room, ss);
    OffGrows(room, if room == 0 then 1 else room, ss);
    var i: nat;
    ok, i := ReadHeaderPart(file, h, tab);
    if !ok {
      if MasterChain(file, h, h.firstMasterSat, 0).Some? {
        PartOutside(file, ss, head, MasterChain(file, h, h.firstMasterSat, 0).value);
      }
      return;
    }
    ok, i := ReadMasterChain(file, h, tab, room, head, i);
    if ok {
      sat.len := i;
      TableFits(file, h);
    }
  }

  /** Reads the short-sector allocation table; a document without one has an empty table. */
  method ReadShortSat(file: seq<Byte>, h: Header, sat: Table, ssat: Table) returns (ok: bool)
    requires Accepted(h) && Off(sat.len, SecSize(h)) <= sat.tab.Length && sat != ssat
    modifies ssat
    ensures var want := ChainBytes(file, SecSize(h), SecSize(h), sat.Next(SecSize(h)),
                                   MaxSector(Off(sat.len, SecSize(h)) / 4), h.firstShortSat);
            && ok == want.Some?
            && (ok ==> && Off(ssat.len, SecSize(h)) == |want.value| <= ssat.tab.Length && fresh(ssat.tab)
                       && ssat.tab[..Off(ssat.len, SecSize(h))] == want.value && ssat.len <= LOOP_LIMIT)
  {
    hide Off, Follow;
    SizesArePositive(h.secSizeP2);
    var ss := SecSize(h);
    var first := h.firstShortSat;
    var count := CountChain(sat, first, ss);
    CountFollows(sat.Next(ss), MaxSector(Off(sat.len, ss) / 4), first);
    CountMeaning(sat.Next(ss), MaxSector(Off(sat.len, ss) / 4), first, count);
    if count == -1 {
      return false;
    }
    ssat.len := count;
    OffRoom(0, 1, ss);
    var tab := new Byte[Off(if count == 0 then 1 else count, ss)];
    ssat.tab := tab;
    ok := CopyChain(file, ss, ss, sat, ss, first, count, tab);
  }

  /**
   * The limit taken for the short-sector table is its number of entries, except when sectors are of the
   * largest size and the table has at least 8192 of them: then the limit is negative and no sector passes.
   */
  lemma ShortLimit(h: Header, len: nat)
    requires Accepted(h) && len <= LOOP_LIMIT
    ensures MaxSector(Off(len, SecSize(h)) / 4) == Off(len, SecSize(h)) / 4 <==> !(h.secSizeP2 == 20 && len >= 8192)
    ensures h.secSizeP2 == 20 && len >= 8192 ==> MaxSector(Off(len, SecSize(h)) / 4) < 0
  {
    var ss := SecSize(h);
    if h.secSizeP2 == 20 {
      MultipleOf(20, 10);
      assert Power2(10) == 1024;
      assert ss == 0x10_0000;
    } else {
      PowerGrows(h.secSizeP2, 19);
      MultipleOf(19, 10);
      assert Power2(10) == 1024 && Power2(9) == 512;
      Product(len, LOOP_LIMIT, ss, 0x8_0000);
    }
  }

  lemma Product(a: nat, b: nat, c: nat, d: nat)
    requires a <= b && c <= d
    ensures Off(a, c) <= b * d
  {
    assert a * c <= b * c <= b * d;
  }
}
