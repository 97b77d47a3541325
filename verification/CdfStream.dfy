/** Streams of a Composite Document: the sectors of a chain, copied one after the other. */
module CdfStream {
  import opened Bytes
  import opened CdfChain

  /** The header fields the sector readers use. */
  datatype Header = Header(
    secSizeP2: nat, shortSizeP2: nat, minStandard: nat,
    firstDirectory: int, firstShortSat: int, firstMasterSat: int, masterSectors: nat, masterSat: seq<int>)

  const MASTER_ENTRIES: nat := 109

  /** A header that passed the checks made on reading it, with fields of their stored width. */
  predicate Accepted(h: Header) {
    && h.secSizeP2 <= 20 && h.shortSizeP2 <= 20
    && h.minStandard < 0x1_0000_0000 && h.masterSectors < 0x1_0000_0000
    && |h.masterSat| == MASTER_ENTRIES
    && (forall i | 0 <= i < MASTER_ENTRIES :: -0x8000_0000 <= h.masterSat[i] < 0x8000_0000)
  }

  function SecSize(h: Header): nat { Power2(h.secSizeP2) }

  function ShortSize(h: Header): nat { Power2(h.shortSizeP2) }

  lemma {:induction false} SizesArePositive(k: nat)
    ensures 1 <= Power2(k)
    ensures k <= 20 ==> Power2(k) <= 0x10_0000
    decreases k
  {
    if k > 0 { SizesArePositive(k - 1); }
    PowerGrows(k, 20);
    assert Power2(20) == 0x10_0000 by {
      assert Power2(10) == 1024;
      assert Power2(15) == 32 * 1024;
    }
  }

  lemma {:induction false} PowerGrows(k: nat, m: nat)
    ensures k <= m ==> Power2(k) <= Power2(m)
    decreases m
  {
    if k < m { PowerGrows(k, m - 1); }
  }

  /** Where unit `id` of `size` bytes starts, `base` bytes into its source. */
  function Place(base: nat, size: nat, id: nat): nat { base + Off(id, size) }

  predicate Inside(src: seq<Byte>, base: nat, size: nat, id: int) {
    id >= 0 && Place(base, size, id) + size <= |src|
  }

  predicate AllInside(src: seq<Byte>, base: nat, size: nat, ids: seq<int>) {
    forall i | 0 <= i < |ids| :: Inside(src, base, size, ids[i])
  }

  function Unit(src: seq<Byte>, base: nat, size: nat, id: int): (u: seq<Byte>)
    requires Inside(src, base, size, id)
    ensures |u| == size
  {
    src[Place(base, size, id)..Place(base, size, id) + size]
  }

  /** The units named by `ids`, concatenated in order. */
  function Gather(src: seq<Byte>, base: nat, size: nat, ids: seq<int>): (r: seq<Byte>)
    requires AllInside(src, base, size, ids)
    ensures |r| == Off(|ids|, size)
  {
    if ids == [] then []
    else
      var n := |ids| - 1;
      assert forall i | 0 <= i < n :: ids[..n][i] == ids[i];
      OffRoom(n, n + 1, size);
      Gather(src, base, size, ids[..n]) + Unit(src, base, size, ids[n])
  }

  /** Byte `o` of unit `i` of the concatenation is byte `o` of the unit named `ids[i]`. */
  lemma {:induction false} GatherByte(src: seq<Byte>, base: nat, size: nat, ids: seq<int>, i: nat, o: nat)
    requires AllInside(src, base, size, ids) && i < |ids| && o < size
    ensures Off(i, size) + o < Off(|ids|, size)
    ensures Place(base, size, ids[i]) + o < |src|
    ensures Gather(src, base, size, ids)[Off(i, size) + o] == src[Place(base, size, ids[i]) + o]
    decreases |ids|
  {
    hide Off, Place;
    var n := |ids| - 1;
    OffRoom(i, |ids|, size);
    assert forall i | 0 <= i < n :: ids[..n][i] == ids[i];
    if i < n {
      GatherByte(src, base, size, ids[..n], i, o);
    }
  }

  lemma GatherSnoc(src: seq<Byte>, base: nat, size: nat, ids: seq<int>, i: nat)
    requires i < |ids| && AllInside(src, base, size, ids[..i + 1])
    ensures AllInside(src, base, size, ids[..i]) && Inside(src, base, size, ids[i])
    ensures Gather(src, base, size, ids[..i + 1])
         == Gather(src, base, size, ids[..i]) + Unit(src, base, size, ids[i])
  {
    var ext := ids[..i + 1];
    assert ext[..i] == ids[..i] && ext[i] == ids[i];
    forall k | 0 <= k < i ensures Inside(src, base, size, ids[..i][k]) {
      assert ext[k] == ids[..i][k];
    }
  }

  /** The units a chain names, in its order: none for an end mark, no result for a bad chain or place. */
  function ChainBytes(src: seq<Byte>, base: nat, size: nat, next: seq<int>, limit: int, sid: int)
    : Option<seq<Byte>>
    requires limit <= |next|
  {
    if sid == END_OF_CHAIN then Some([])
    else if sid < 0 then None
    else match Follow(next, limit, sid, LOOP_LIMIT)
      case None => None
      case Some(p) => if AllInside(src, base, size, p) then Some(Gather(src, base, size, p)) else None
  }

  /** What reading the chain from `sid` as whole sectors gives. */
  function LongStream(file: seq<Byte>, h: Header, next: seq<int>, limit: int, sid: int, len: nat)
    : Option<seq<Byte>>
    requires limit <= |next|
  {
    if sid == END_OF_CHAIN || len == 0 then None
    else ChainBytes(file, SecSize(h), SecSize(h), next, limit, sid)
  }

  /** What reading the chain from `sid` as pieces of the root stream `root` gives. */
  function ShortStream(root: seq<Byte>, h: Header, next: seq<int>, limit: int, sid: int)
    : Option<seq<Byte>>
    requires limit <= |next|
  {
    ChainBytes(root, 0, ShortSize(h), next, limit, sid)
  }

  /** `p` is a chain from `sid` whose sectors lie in the file and make up `r`. */
  ghost predicate IsLong(file: seq<Byte>, h: Header, next: seq<int>, limit: int, sid: int, p: seq<int>, r: seq<Byte>)
    requires limit <= |next|
  {
    && Chain(next, limit, sid, p) && |p| <= LOOP_LIMIT
    && AllInside(file, SecSize(h), SecSize(h), p)
    && r == Gather(file, SecSize(h), SecSize(h), p)
  }

  /** A long stream is read exactly when a chain of sectors lying in the file exists, and then is it. */
  lemma LongStreamIsChain(file: seq<Byte>, h: Header, next: seq<int>, limit: int, sid: int, len: nat,
                          r: seq<Byte>)
    requires limit <= |next|
    ensures LongStream(file, h, next, limit, sid, len) == Some(r) <==>
            (len > 0 && exists p :: IsLong(file, h, next, limit, sid, p, r))
  {
    if LongStream(file, h, next, limit, sid, len) == Some(r) {
      var p := Follow(next, limit, sid, LOOP_LIMIT).value;
      if p == [] { FollowEmpty(next, limit, sid, LOOP_LIMIT); }
      FollowIsChain(next, limit, sid, LOOP_LIMIT, p);
      assert IsLong(file, h, next, limit, sid, p, r);
    }
    forall p | IsLong(file, h, next, limit, sid, p, r) && len > 0
      ensures LongStream(file, h, next, limit, sid, len) == Some(r)
    {
      FollowIsChain(next, limit, sid, LOOP_LIMIT, p);
    }
  }

  /** `p` is a chain of pieces of the root stream from `sid`, all inside it, and they make up `r`. */
  ghost predicate IsShort(root: seq<Byte>, h: Header, next: seq<int>, limit: int, sid: int, p: seq<int>, r: seq<Byte>)
    requires limit <= |next|
  {
    && Chain(next, limit, sid, p) && |p| <= LOOP_LIMIT
    && AllInside(root, 0, ShortSize(h), p)
    && r == Gather(root, 0, ShortSize(h), p)
  }

  /**
   * A short stream is read exactly when it is empty, its first piece being the end mark, or a chain of pieces
   * lying in the root stream exists, and then is that chain.
   */
  lemma ShortStreamIsChain(root: seq<Byte>, h: Header, next: seq<int>, limit: int, sid: int, r: seq<Byte>)
    requires limit <= |next|
    ensures ShortStream(root, h, next, limit, sid) == Some(r) <==>
            (sid == END_OF_CHAIN && r == []) || exists p :: IsShort(root, h, next, limit, sid, p, r)
  {
    if sid != END_OF_CHAIN && ShortStream(root, h, next, limit, sid) == Some(r) {
      var p := Follow(next, limit, sid, LOOP_LIMIT).value;
      if p == [] { FollowEmpty(next, limit, sid, LOOP_LIMIT); }
      FollowIsChain(next, limit, sid, LOOP_LIMIT, p);
      assert IsShort(root, h, next, limit, sid, p, r);
    }
    forall p | IsShort(root, h, next, limit, sid, p, r)
      ensures ShortStream(root, h, next, limit, sid) == Some(r)
    {
      FollowIsChain(next, limit, sid, LOOP_LIMIT, p);
    }
  }

  /**
   * The mini stream rule: byte `o` of piece `i` of a short stream is the byte of the root stream at
   * the piece's place there, byte `s` of its sector `q`, which is a sector of the file.
   */
  lemma ShortStreamInFile(file: seq<Byte>, h: Header, next: seq<int>, rootIds: seq<int>, root: seq<Byte>,
                          limit: int, sid: int, p: seq<int>, r: seq<Byte>, i: nat, o: nat, q: nat, s: nat)
    requires Accepted(h) && limit <= |next| && o < ShortSize(h) && s < SecSize(h)
    requires AllInside(file, SecSize(h), SecSize(h), rootIds)
    requires root == Gather(file, SecSize(h), SecSize(h), rootIds)
    requires Chain(next, limit, sid, p) && |p| <= LOOP_LIMIT && i < |p|
    requires ShortStream(root, h, next, limit, sid) == Some(r)
    requires q < |rootIds| && Off(p[i], ShortSize(h)) + o == Off(q, SecSize(h)) + s
    ensures |r| == Off(|p|, ShortSize(h)) && Off(i, ShortSize(h)) + o < |r|
    ensures Place(SecSize(h), SecSize(h), rootIds[q]) + s < |file|
    ensures r[Off(i, ShortSize(h)) + o] == file[Place(SecSize(h), SecSize(h), rootIds[q]) + s]
  {
    hide Off, Gather;
    var ss, mini := SecSize(h), ShortSize(h);
    FollowIsChain(next, limit, sid, LOOP_LIMIT, p);
    GatherByte(root, 0, mini, p, i, o);
    GatherByte(file, ss, ss, rootIds, q, s);
  }

  /** A stream as the readers fill it in. */
  class Stream {
    var tab: array?<Byte>
    var len: nat
    var dirlen: nat
    var ss: nat

    constructor ()
      ensures tab == null && len == 0
    {
      tab := null;
      len, dirlen, ss := 0, 0, 0;
    }

    ghost predicate Cleared()
      reads this
    {
      tab == null && len == 0 && dirlen == 0 && ss == 0
    }

    /** The stream holds `r`, as `len` units of `ss` bytes. */
    ghost predicate Holds(r: seq<Byte>)
      reads this, tab
    {
      && tab != null && Off(len, ss) == |r| <= tab.Length
      && tab[..Off(len, ss)] == r
    }

    method Zero()
      modifies this
      ensures Cleared()
    {
      tab := null;
      len, dirlen, ss := 0, 0, 0;
    }
  }

  /** Copies `size` bytes at `Place(base, size, id)` into `buf` at `offs`, or reports -1. */
  method ReadUnit(src: seq<Byte>, base: nat, size: nat, id: int, buf: array<Byte>, offs: nat) returns (nr: int)
    requires id >= 0 && size > 0 && offs + size <= buf.Length
    modifies buf
    ensures nr == size <==> Inside(src, base, size, id)
    ensures nr == size || nr == -1
    ensures nr == size ==> buf[..offs + size] == old(buf[..offs]) + Unit(src, base, size, id)
    ensures nr == -1 ==> buf[..] == old(buf[..])
  {
    var pos := Place(base, size, id);
    if pos + size > |src| {
      return -1;
    }
    var i := 0;
    while i < size
      invariant 0 <= i <= size
      invariant buf[..offs] == old(buf[..offs])
      invariant buf[offs..offs + i] == src[pos..pos + i]
    {
      buf[offs + i] := src[pos + i];
      i := i + 1;
    }
    assert buf[..offs + size] == buf[..offs] + buf[offs..offs + size];
    nr := size;
  }

  lemma NothingGathered(src: seq<Byte>, base: nat, size: nat)
    ensures Off(0, size) == 0 && Gather(src, base, size, []) == []
  {
  }

  /** One step of a chain walk that has seen `seen` and stands at `sid`. */
  ghost predicate At(next: seq<int>, limit: int, whole: seq<int>, i: nat, sid: int)
    requires limit <= |next|
  {
    i <= |whole| && if i < |whole| then sid == whole[i] else sid < 0
  }

  lemma AtNext(next: seq<int>, limit: int, first: int, whole: seq<int>, i: nat)
    requires limit <= |next| && Chain(next, limit, first, whole) && i < |whole|
    ensures 0 <= whole[i] < limit
    ensures At(next, limit, whole, i + 1, next[whole[i]])
  {
  }

  lemma AtStart(next: seq<int>, limit: int, first: int, whole: seq<int>)
    requires limit <= |next| && Chain(next, limit, first, whole)
    ensures At(next, limit, whole, 0, first)
  {
  }

  lemma AtEnd(next: seq<int>, limit: int, first: int, whole: seq<int>, i: nat, sid: int)
    requires limit <= |next| && Chain(next, limit, first, whole) && At(next, limit, whole, i, sid)
    ensures sid < 0 <==> i == |whole|
  {
  }

  /** The reading walk: copies the units of a counted chain into `tab`, or fails on one that is out of place. */
  method CopyChain(src: seq<Byte>, base: nat, size: nat, sat: Table, satSize: nat, first: int, count: nat,
                   tab: array<Byte>)
    returns (ok: bool)
    requires size > 0 && Off(sat.len, satSize) <= sat.tab.Length && tab != sat.tab
    requires count == Count(sat.Next(satSize), MaxSector(Off(sat.len, satSize) / 4), first)
    requires Off(count, size) <= tab.Length
    modifies tab
    ensures var want := ChainBytes(src, base, size, sat.Next(satSize), MaxSector(Off(sat.len, satSize) / 4), first);
            ok == want.Some? && (ok ==> |want.value| == Off(count, size) && tab[..Off(count, size)] == want.value)
  {
    hide Off, Place, Gather, Follow, Walk;
    ghost var next := sat.Next(satSize);
    ghost var limit := MaxSector(Off(sat.len, satSize) / 4);
    CountFollows(next, limit, first);
    ghost var whole := if count == 0 then [] else Follow(next, limit, first, LOOP_LIMIT).value;
    if count > 0 {
      FollowIsChain(next, limit, first, LOOP_LIMIT, whole);
      AtStart(next, limit, first, whole);
    }
    NothingGathered(src, base, size);
    var sid := first;
    var i: nat, j: nat := 0, 0;
    while sid >= 0
      invariant i == j && count == |whole| && sat.Next(satSize) == next
      invariant At(next, limit, whole, i, sid)
      invariant AllInside(src, base, size, whole[..i])
      invariant Off(i, size) <= tab.Length && tab[..Off(i, size)] == Gather(src, base, size, whole[..i])
      decreases count - i
    {
      // The counting walk has already ruled both out.
      if j >= LOOP_LIMIT {
        assert false;
      }
      if i >= count {
        assert false;
      }
      OffRoom(i, count, size);
      var nr := ReadUnit(src, base, size, sid, tab, Off(i, size));
      if nr != size {
        // A unit cut off by the end of its source is reported as -1, never as a shorter read.
        if i == count - 1 && nr > 0 {
          assert false;
        }
        assert !Inside(src, base, size, whole[i]);
        return false;
      }
      assert AllInside(src, base, size, whole[..i + 1]);
      GatherSnoc(src, base, size, whole, i);
      AtNext(next, limit, first, whole, i);
      sid := NextOf(sat, satSize, sid);
      i, j := i + 1, j + 1;
    }
    if count > 0 { AtEnd(next, limit, first, whole, i, sid); }
    assert whole[..i] == whole;
    ok := true;
  }

  method ReadLongSectorChain(file: seq<Byte>, h: Header, sat: Table, first: int, len: nat, scn: Stream)
    returns (ok: bool)
    requires Accepted(h) && Off(sat.len, SecSize(h)) <= sat.tab.Length
    modifies scn
    ensures var want := LongStream(file, h, sat.Next(SecSize(h)), MaxSector(Off(sat.len, SecSize(h)) / 4), first, len);
            && ok == want.Some?
            && (ok ==> scn.Holds(want.value) && scn.ss == SecSize(h) && fresh(scn.tab)
                       && scn.dirlen == if len > h.minStandard then len else h.minStandard)
            && (!ok ==> scn.Cleared())
  {
    hide Off, Follow;
    SizesArePositive(h.secSizeP2);
    var ss := SecSize(h);
    scn.tab := null;
    var count := CountChain(sat, first, ss);
    CountFollows(sat.Next(ss), MaxSector(Off(sat.len, ss) / 4), first);
    scn.dirlen := if len > h.minStandard then len else h.minStandard;
    scn.ss := ss;
    if first == END_OF_CHAIN || len == 0 {
      scn.Zero();
      return false;
    }
    if count == -1 {
      scn.Zero();
      return false;
    }
    scn.len := count;
    var tab := new Byte[Off(count, ss)];
    scn.tab := tab;
    ok := CopyChain(file, ss, ss, sat, ss, first, count, tab);
    if !ok {
      scn.Zero();
    }
  }

  method ReadShortSectorChain(h: Header, ssat: Table, sst: Stream, first: int, len: nat, scn: Stream)
    returns (ok: bool)
    requires Accepted(h) && Off(ssat.len, SecSize(h)) <= ssat.tab.Length
    requires sst.tab == null ==> sst.len == 0
    requires sst.tab != null ==> Off(sst.len, SecSize(h)) <= sst.tab.Length
    requires scn != sst
    modifies scn
    ensures var root := if sst.tab == null then [] else sst.tab[..Off(sst.len, SecSize(h))];
            var want := ShortStream(root, h, ssat.Next(SecSize(h)), MaxSector(Off(ssat.len, SecSize(h)) / 4), first);
            && ok == want.Some?
            && (ok ==> scn.Holds(want.value) && scn.ss == ShortSize(h) && fresh(scn.tab) && scn.dirlen == len)
            && (!ok ==> scn.Cleared())
  {
    hide Off, Follow;
    SizesArePositive(h.secSizeP2);
    SizesArePositive(h.shortSizeP2);
    var ss := ShortSize(h);
    var root := if sst.tab == null then [] else sst.tab[..Off(sst.len, SecSize(h))];
    scn.tab := null;
    var count := CountChain(ssat, first, SecSize(h));
    CountFollows(ssat.Next(SecSize(h)), MaxSector(Off(ssat.len, SecSize(h)) / 4), first);
    scn.dirlen := len;
    scn.ss := ss;
    if count == -1 {
      scn.Zero();
      return false;
    }
    scn.len := count;
    OffRoom(0, 1, ss);
    var tab := new Byte[Off(if count == 0 then 1 else count, ss)];
    scn.tab := tab;
    ok := CopyChain(root, 0, ss, ssat, SecSize(h), first, count, tab);
    if !ok {
      scn.Zero();
    }
  }

  /** A stream shorter than the cut-off is read from the root stream when there is one. */
  method ReadSectorChain(file: seq<Byte>, h: Header, sat: Table, ssat: Table, sst: Stream, first: int, len: nat,
                         scn: Stream)
    returns (ok: bool)
    requires Accepted(h) && Off(sat.len, SecSize(h)) <= sat.tab.Length && Off(ssat.len, SecSize(h)) <= ssat.tab.Length
    requires sst.tab == null ==> sst.len == 0
    requires sst.tab != null ==> Off(sst.len, SecSize(h)) <= sst.tab.Length
    requires scn != sst
    modifies scn
    ensures var want :=
              if len < h.minStandard && sst.tab != null
              then ShortStream(sst.tab[..Off(sst.len, SecSize(h))], h, ssat.Next(SecSize(h)),
                               MaxSector(Off(ssat.len, SecSize(h)) / 4), first)
              else LongStream(file, h, sat.Next(SecSize(h)), MaxSector(Off(sat.len, SecSize(h)) / 4), first, len);
            && ok == want.Some?
            && (ok ==> scn.Holds(want.value))
            && (!ok ==> scn.Cleared())
  {
    if len < h.minStandard && sst.tab != null {
      ok := ReadShortSectorChain(h, ssat, sst, first, len, scn);
    } else {
      ok := ReadLongSectorChain(file, h, sat, first, len, scn);
    }
  }
}
