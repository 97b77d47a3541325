/** A named stream of a Composite Document, from the bytes of the file to the bytes of the stream. */
module CdfDocument {
  import opened Bytes
  import opened CdfChain
  import opened CdfStream
  import opened CdfTables
  import opened CdfDirectory

  const USER_STREAM := 2

  // ----- what a document holds -----

  /** The sectors that follow each sector of the file. */
  function Links(file: seq<Byte>, h: Header): Option<seq<int>>
    requires Accepted(h)
  {
    match TableSectors(file, h)
    case None => None
    case Some(ids) => Some(Entries(Gather(file, SecSize(h), SecSize(h), ids)))
  }

  /** The bytes of the sectors chained from `sid`. */
  function Chained(file: seq<Byte>, h: Header, next: seq<int>, sid: int): Option<seq<Byte>> {
    ChainBytes(file, SecSize(h), SecSize(h), next, |next|, sid)
  }

  /** The directory records in the directory's bytes. */
  function Records(h: Header, bytes: seq<Byte>): (rs: seq<seq<Byte>>)
    ensures forall m | 0 <= m < |rs| :: |rs[m]| == RECORD
  {
    if SecSize(h) < RECORD then []
    else seq(|bytes| / RECORD, m requires 0 <= m < |bytes| / RECORD => bytes[RECORD * m..RECORD * m + RECORD])
  }

  /** cdf_namecmp on a record's name, with the NUL that ends it. */
  predicate NameIs(record: seq<Byte>, name: seq<Byte>)
    requires |record| == RECORD && |name| < 32
  {
    && (forall k | 0 <= k < |name| :: record[2 * k] as int + 0x100 * record[2 * k + 1] as int == name[k] as int)
    && record[2 * |name|] == 0 && record[2 * |name| + 1] == 0
  }

  predicate IsStream(record: seq<Byte>, name: seq<Byte>)
    requires |record| == RECORD && |name| < 32
  {
    TypeOf(record) == USER_STREAM && NameIs(record, name)
  }

  /** cdf_find_stream: the first stream of that name. */
  function FindStream(rs: seq<seq<Byte>>, name: seq<Byte>): (r: Option<nat>)
    requires |name| < 32 && forall m | 0 <= m < |rs| :: |rs[m]| == RECORD
    ensures r.Some? ==> r.value < |rs| && IsStream(rs[r.value], name)
    ensures forall m | 0 <= m < (if r.Some? then r.value else |rs|) :: !IsStream(rs[m], name)
  {
    if rs == [] then None
    else if IsStream(rs[0], name) then Some(0)
    else
      var r := FindStream(rs[1..], name);
      assert forall m | 1 <= m < |rs| :: rs[m] == rs[1..][m - 1];
      if r.None? then None else Some(r.value + 1)
  }

  /** The root stream: none, or its bytes; a root whose sectors cannot be read spoils the document. */
  datatype Root = Spoiled | NoRoot | RootBytes(first: int, bytes: seq<Byte>)

  function RootOf(file: seq<Byte>, h: Header, next: seq<int>, rs: seq<seq<Byte>>): Root
    requires forall m | 0 <= m < |rs| :: |rs[m]| == RECORD
  {
    match RootRecord(rs)
    case None => NoRoot
    case Some(k) =>
      if FirstSector(rs[k]) < 0 then NoRoot
      else
        match LongStream(file, h, next, |next|, FirstSector(rs[k]), StreamSize(rs[k]))
        case None => Spoiled
        case Some(r) => RootBytes(FirstSector(rs[k]), r)
  }

  /** A document whose tables, directory and root stream can all be read. */
  datatype Document = Document(next: seq<int>, mini: seq<int>, miniLimit: int, records: seq<seq<Byte>>, root: Root)

  predicate Whole(d: Document) {
    && d.miniLimit <= |d.mini| && !d.root.Spoiled?
    && forall m | 0 <= m < |d.records| :: |d.records[m]| == RECORD
  }

  function Opened(file: seq<Byte>, h: Header): (d: Option<Document>)
    requires Accepted(h)
    ensures d.Some? ==> Whole(d.value)
  {
    match Links(file, h)
    case None => None
    case Some(next) =>
      match Chained(file, h, next, h.firstShortSat)
      case None => None
      case Some(mini) =>
        match Chained(file, h, next, Signed32(h.firstDirectory))
        case None => None
        case Some(dir) =>
          var rs := Records(h, dir);
          var root := RootOf(file, h, next, rs);
          if root.Spoiled? then None
          else Some(Document(next, Entries(mini), MaxSector(|mini| / 4), rs, root))
  }

  /** The bytes of one record's stream. */
  function StreamOf(file: seq<Byte>, h: Header, d: Document, record: seq<Byte>): Option<seq<Byte>>
    requires Whole(d) && |record| == RECORD
  {
    if StreamSize(record) < h.minStandard && d.root.RootBytes?
    then ShortStream(d.root.bytes, h, d.mini, d.miniLimit, FirstSector(record))
    else LongStream(file, h, d.next, |d.next|, FirstSector(record), StreamSize(record))
  }

  /** A stream of that name in the file. */
  function UserStream(file: seq<Byte>, h: Header, name: seq<Byte>): Option<seq<Byte>>
    requires Accepted(h) && |name| < 32
  {
    match Opened(file, h)
    case None => None
    case Some(d) =>
      match FindStream(d.records, name)
      case None => None
      case Some(k) => StreamOf(file, h, d, d.records[k])
  }

  // ----- reading it -----

  lemma LinksLimit(file: seq<Byte>, h: Header)
    requires Accepted(h) && Links(file, h).Some?
    ensures var n := Off(|TableSectors(file, h).value|, SecSize(h));
            |Links(file, h).value| == n / 4 && MaxSector(n / 4) == n / 4
  {
    TableFits(file, h);
  }

  lemma RecordsAre(h: Header, bytes: seq<Byte>, rs: seq<seq<Byte>>)
    requires AreRecords(rs, bytes) && RECORD * |rs| == if SecSize(h) < RECORD then 0 else |bytes|
    ensures rs == Records(h, bytes)
  {
  }

  /** cdf_find_stream, as a search; its positions count from 1. */
  method Find(tab: array<seq<Byte>>, len: nat, name: seq<Byte>) returns (i: nat)
    requires len <= tab.Length && |name| < 32 && forall m | 0 <= m < len :: |tab[m]| == RECORD
    ensures i == match FindStream(tab[..len], name) case None => 0 case Some(k) => k + 1
  {
    i := 1;
    while i <= len && !IsStream(tab[i - 1], name)
      invariant 1 <= i <= len + 1
      invariant forall m | 0 <= m < i - 1 :: !IsStream(tab[m], name)
    {
      i := i + 1;
    }
    if i > len { i := 0; }
  }

  /** The tables that have been read are those of the document. */
  ghost predicate Represents(h: Header, d: Document, sat: Table, ssat: Table, dir: Directory)
    reads sat, sat.tab, ssat, ssat.tab, dir, dir.tab
  {
    && Off(sat.len, SecSize(h)) <= sat.tab.Length && sat.Next(SecSize(h)) == d.next
    && MaxSector(Off(sat.len, SecSize(h)) / 4) == |d.next|
    && Off(ssat.len, SecSize(h)) <= ssat.tab.Length && ssat.Next(SecSize(h)) == d.mini
    && MaxSector(Off(ssat.len, SecSize(h)) / 4) == d.miniLimit
    && dir.len <= dir.tab.Length && dir.tab[..dir.len] == d.records
  }

  /** So is the root stream. */
  ghost predicate HoldsRoot(h: Header, d: Document, sst: Stream)
    reads sst, sst.tab
  {
    match d.root
    case RootBytes(_, bytes) => sst.Holds(bytes) && sst.ss == SecSize(h)
    case _ => sst.Cleared()
  }

  /** The tables and the directory; the root stream is still to come. */
  function Tables(file: seq<Byte>, h: Header): (d: Option<Document>)
    requires Accepted(h)
    ensures d.Some? ==> Whole(d.value)
  {
    match Links(file, h)
    case None => None
    case Some(next) =>
      match Chained(file, h, next, h.firstShortSat)
      case None => None
      case Some(mini) =>
        match Chained(file, h, next, Signed32(h.firstDirectory))
        case None => None
        case Some(dir) => Some(Document(next, Entries(mini), MaxSector(|mini| / 4), Records(h, dir), NoRoot))
  }

  method ReadTables(file: seq<Byte>, h: Header) returns (ok: bool, sat: Table, ssat: Table, dir: Directory)
    requires Accepted(h)
    ensures ok == Tables(file, h).Some?
    ensures ok ==> Represents(h, Tables(file, h).value, sat, ssat, dir)
  {
    hide Off, TableSectors, Gather, ChainBytes, Entries, Records, AreRecords;
    sat := new Table();
    ssat := new Table();
    dir := new Directory();
    ok := ReadSat(file, h, sat);
    if !ok { return; }
    LinksLimit(file, h);
    ghost var next := Links(file, h).value;
    assert sat.Next(SecSize(h)) == next;
    ok := ReadShortSat(file, h, sat, ssat);
    if !ok { return; }
    ghost var mini := Chained(file, h, next, h.firstShortSat).value;
    assert ssat.Next(SecSize(h)) == Entries(mini);
    ok := ReadDirectory(file, h, sat, dir);
    if !ok { return; }
    RecordsAre(h, Chained(file, h, next, Signed32(h.firstDirectory)).value, dir.tab[..dir.len]);
  }

  /** Opens a document: its tables, its directory and its root stream. */
  method Open(file: seq<Byte>, h: Header) returns (ok: bool, sat: Table, ssat: Table, dir: Directory, sst: Stream)
    requires Accepted(h)
    ensures ok == Opened(file, h).Some?
    ensures ok ==> Represents(h, Opened(file, h).value, sat, ssat, dir) && HoldsRoot(h, Opened(file, h).value, sst)
    ensures fresh(sst)
  {
    hide Off, LongStream, Links, Chained, Records, Entries;
    sst := new Stream();
    ok, sat, ssat, dir := ReadTables(file, h);
    if !ok { return; }
    ghost var d := Tables(file, h).value;
    var root: Option<nat>;
    assert forall m | 0 <= m < dir.len :: dir.tab[m] == d.records[m];
    ok, root := ReadShortStream(file, h, sat, dir, sst);
  }

  /** Opens a document and reads the stream of that name; nothing is left in `scn` when there is none. */
  method ReadUserStream(file: seq<Byte>, h: Header, name: seq<Byte>, scn: Stream) returns (ok: bool)
    requires Accepted(h) && |name| < 32
    modifies scn
    ensures ok == UserStream(file, h, name).Some?
    ensures ok ==> scn.Holds(UserStream(file, h, name).value)
    ensures !ok ==> scn.Cleared()
  {
    hide Off, LongStream, ShortStream, Opened, FindStream;
    scn.Zero();
    var sat: Table, ssat: Table, dir: Directory, sst: Stream;
    ok, sat, ssat, dir, sst := Open(file, h);
    if !ok { return; }
    ghost var d := Opened(file, h).value;
    assert forall m | 0 <= m < dir.len :: dir.tab[m] == d.records[m];
    var i := Find(dir.tab, dir.len, name);
    if i == 0 { return false; }
    var record := dir.tab[i - 1];
    ok := ReadSectorChain(file, h, sat, ssat, sst, FirstSector(record), StreamSize(record), scn);
  }

  // ----- when it can be read -----

  /** `r` are the bytes of the sectors chained from `sid`, or nothing from an end mark. */
  ghost predicate ChainHolds(file: seq<Byte>, h: Header, next: seq<int>, sid: int, r: seq<Byte>) {
    (sid == END_OF_CHAIN && r == []) || exists p :: IsLong(file, h, next, |next|, sid, p, r)
  }

  lemma ChainedIs(file: seq<Byte>, h: Header, next: seq<int>, sid: int, r: seq<Byte>)
    ensures Chained(file, h, next, sid) == Some(r) <==> ChainHolds(file, h, next, sid, r)
  {
    LongStreamIsChain(file, h, next, |next|, sid, 1, r);
    forall p | IsLong(file, h, next, |next|, sid, p, r) ensures sid != END_OF_CHAIN {
      ChainStart(next, |next|, sid, p);
    }
  }

  /** The root stream of the records: its bytes, or none for a document that has no root or an empty one. */
  ghost predicate RootIs(file: seq<Byte>, h: Header, next: seq<int>, rs: seq<seq<Byte>>, root: Root)
    requires forall m | 0 <= m < |rs| :: |rs[m]| == RECORD
  {
    var k := RootRecord(rs);
    if k.None? || FirstSector(rs[k.value]) < 0 then root == NoRoot
    else
      && root.RootBytes? && root.first == FirstSector(rs[k.value]) && StreamSize(rs[k.value]) > 0
      && exists p :: IsLong(file, h, next, |next|, root.first, p, root.bytes)
  }

  lemma RootOfIs(file: seq<Byte>, h: Header, next: seq<int>, rs: seq<seq<Byte>>, root: Root)
    requires forall m | 0 <= m < |rs| :: |rs[m]| == RECORD
    ensures RootOf(file, h, next, rs) == root && !root.Spoiled? <==> RootIs(file, h, next, rs, root)
  {
    hide LongStream, IsLong;
    var k := RootRecord(rs);
    if k.Some? && FirstSector(rs[k.value]) >= 0 {
      var first, size := FirstSector(rs[k.value]), StreamSize(rs[k.value]);
      var stream := LongStream(file, h, next, |next|, first, size);
      if stream.Some? { LongStreamIsChain(file, h, next, |next|, first, size, stream.value); }
      if root.RootBytes? { LongStreamIsChain(file, h, next, |next|, first, size, root.bytes); }
    }
  }

  /** The document in the file: its chains exist and lie in the file. */
  ghost predicate IsDocument(file: seq<Byte>, h: Header, mini: seq<Byte>, dir: seq<Byte>, d: Document)
    requires Accepted(h)
  {
    && Links(file, h) == Some(d.next)
    && ChainHolds(file, h, d.next, h.firstShortSat, mini)
    && ChainHolds(file, h, d.next, Signed32(h.firstDirectory), dir)
    && d.records == Records(h, dir) && RootIs(file, h, d.next, d.records, d.root)
    && d.mini == Entries(mini) && d.miniLimit == MaxSector(|mini| / 4)
  }

  lemma OpenedIs(file: seq<Byte>, h: Header, d: Document)
    requires Accepted(h)
    ensures Opened(file, h) == Some(d) <==> exists mini, dir :: IsDocument(file, h, mini, dir, d)
  {
    hide Links, Chained, ChainHolds, Records, RootIs, RootOf, Entries, MaxSector;
    if Opened(file, h) == Some(d) {
      var mini := Chained(file, h, d.next, h.firstShortSat).value;
      var dir := Chained(file, h, d.next, Signed32(h.firstDirectory)).value;
      ChainedIs(file, h, d.next, h.firstShortSat, mini);
      ChainedIs(file, h, d.next, Signed32(h.firstDirectory), dir);
      RootOfIs(file, h, d.next, d.records, d.root);
      assert IsDocument(file, h, mini, dir, d);
    }
    forall mini, dir | IsDocument(file, h, mini, dir, d) ensures Opened(file, h) == Some(d) {
      ChainedIs(file, h, d.next, h.firstShortSat, mini);
      ChainedIs(file, h, d.next, Signed32(h.firstDirectory), dir);
      RootOfIs(file, h, d.next, d.records, d.root);
    }
  }

  /** The first stream of that name, given by its place. */
  predicate FirstOf(rs: seq<seq<Byte>>, name: seq<Byte>, k: nat)
    requires |name| < 32 && forall m | 0 <= m < |rs| :: |rs[m]| == RECORD
  {
    k < |rs| && IsStream(rs[k], name) && forall m | 0 <= m < k :: !IsStream(rs[m], name)
  }

  /** The bytes of a record's stream, in its own chain. */
  ghost predicate StreamIs(file: seq<Byte>, h: Header, d: Document, record: seq<Byte>, r: seq<Byte>)
    requires Whole(d) && |record| == RECORD
  {
    var first := FirstSector(record);
    if StreamSize(record) < h.minStandard && d.root.RootBytes?
    then (first == END_OF_CHAIN && r == []) || exists p :: IsShort(d.root.bytes, h, d.mini, d.miniLimit, first, p, r)
    else StreamSize(record) > 0 && exists p :: IsLong(file, h, d.next, |d.next|, first, p, r)
  }

  /**
   * A stream is read exactly when the document's chains exist in the file, the directory has a stream of that
   * name, and the first such record's own chain exists: sectors of the file, or pieces of the root stream below
   * the cut-off.
   */
  lemma UserStreamExactly(file: seq<Byte>, h: Header, name: seq<Byte>, r: seq<Byte>)
    requires Accepted(h) && |name| < 32
    ensures UserStream(file, h, name) == Some(r) <==>
            exists d, k: nat :: Opened(file, h) == Some(d) && FirstOf(d.records, name, k) && StreamIs(file, h, d, d.records[k], r)
  {
    hide Opened, ShortStream, LongStream, IsLong, IsShort, IsStream;
    if Opened(file, h).Some? {
      var d := Opened(file, h).value;
      var at := FindStream(d.records, name);
      if at.Some? {
        var record := d.records[at.value];
        if d.root.RootBytes? {
          ShortStreamIsChain(d.root.bytes, h, d.mini, d.miniLimit, FirstSector(record), r);
        }
        LongStreamIsChain(file, h, d.next, |d.next|, FirstSector(record), StreamSize(record), r);
        assert FirstOf(d.records, name, at.value);
        assert StreamOf(file, h, d, record) == Some(r) <==> StreamIs(file, h, d, record, r);
      }
      forall k: nat | FirstOf(d.records, name, k) ensures at == Some(k) {}
    }
  }

  // ----- where its bytes are -----

  /** Where byte `o` of the sectors `p` stands in the file. */
  function FilePlace(size: nat, p: seq<int>, o: nat): (at: int)
    requires size > 0 && o / size < |p|
  {
    size + p[o / size] * size + o % size
  }

  lemma Quotient(o: nat, n: nat, size: nat)
    requires size > 0 && o < Off(n, size)
    ensures o / size < n && o == Off(o / size, size) + o % size
  {
    if n <= o / size { Multiples(n, o / size, size); }
  }

  lemma Multiples(m: nat, n: nat, size: nat)
    requires m <= n
    ensures Off(m, size) <= Off(n, size)
  {
    OffGrows(m, n, size);
  }

  lemma GatheredByte(file: seq<Byte>, h: Header, p: seq<int>, o: nat)
    requires Accepted(h) && AllInside(file, SecSize(h), SecSize(h), p) && o < Off(|p|, SecSize(h))
    ensures SecSize(h) > 0 && o / SecSize(h) < |p| && 0 <= FilePlace(SecSize(h), p, o) < |file|
    ensures o < |Gather(file, SecSize(h), SecSize(h), p)|
    ensures Gather(file, SecSize(h), SecSize(h), p)[o] == file[FilePlace(SecSize(h), p, o)]
  {
    SizesArePositive(h.secSizeP2);
    var ss := SecSize(h);
    Quotient(o, |p|, ss);
    GatherByte(file, ss, ss, p, o / ss, o % ss);
    SectorAt(ss, p, o);
  }

  lemma SectorAt(size: nat, p: seq<int>, o: nat)
    requires size > 0 && o / size < |p| && p[o / size] >= 0
    ensures FilePlace(size, p, o) == Place(size, size, p[o / size]) + o % size >= 0
  {
  }

  /** The sectors of a long stream. */
  lemma LongSectors(file: seq<Byte>, h: Header, next: seq<int>, first: int, len: nat) returns (p: seq<int>)
    requires LongStream(file, h, next, |next|, first, len).Some?
    ensures IsLong(file, h, next, |next|, first, p, LongStream(file, h, next, |next|, first, len).value)
  {
    var r := LongStream(file, h, next, |next|, first, len).value;
    LongStreamIsChain(file, h, next, |next|, first, len, r);
    p :| IsLong(file, h, next, |next|, first, p, r);
  }

  /** The pieces of a short stream that is not empty. */
  lemma ShortPieces(h: Header, root: seq<Byte>, mini: seq<int>, limit: int, first: int) returns (p: seq<int>)
    requires limit <= |mini| && first != END_OF_CHAIN && ShortStream(root, h, mini, limit, first).Some?
    ensures Chain(mini, limit, first, p) && AllInside(root, 0, ShortSize(h), p)
    ensures ShortStream(root, h, mini, limit, first).value == Gather(root, 0, ShortSize(h), p)
  {
    p := Follow(mini, limit, first, LOOP_LIMIT).value;
    if p == [] { FollowEmpty(mini, limit, first, LOOP_LIMIT); }
    FollowIsChain(mini, limit, first, LOOP_LIMIT, p);
  }

  /** Byte `o` of a short stream stands at this byte of the root stream. */
  function RootPlace(size: nat, p: seq<int>, o: nat): int
    requires size > 0 && o / size < |p|
  {
    p[o / size] * size + o % size
  }

  /** The sectors `p` are those of a long stream and hold its byte `o` at `at`. */
  ghost predicate InSectors(file: seq<Byte>, h: Header, next: seq<int>, first: int, p: seq<int>, o: nat, at: int) {
    && Chain(next, |next|, first, p) && SecSize(h) > 0 && o / SecSize(h) < |p|
    && at == FilePlace(SecSize(h), p, o) && 0 <= at < |file|
  }

  /**
   * Every byte of a stream is a byte of the file, at the place its sector has there: the sectors are the chain
   * from the record's first sector in the document's table, or, for a short stream, the pieces are the chain in
   * its mini table, and lie in the sectors of the chain from the root's first sector.
   */
  lemma StreamBytes(file: seq<Byte>, h: Header, name: seq<Byte>, o: nat)
    returns (k: nat, p: seq<int>, rootSectors: seq<int>, at: int)
    requires Accepted(h) && |name| < 32 && UserStream(file, h, name).Some? && o < |UserStream(file, h, name).value|
    ensures Opened(file, h).Some? && k < |Opened(file, h).value.records|
    ensures IsStream(Opened(file, h).value.records[k], name)
    ensures 0 <= at < |file| && UserStream(file, h, name).value[o] == file[at]
    ensures var d := Opened(file, h).value;
            var record := d.records[k];
            if StreamSize(record) < h.minStandard && d.root.RootBytes? then
              && Chain(d.mini, d.miniLimit, FirstSector(record), p)
              && ShortSize(h) > 0 && o / ShortSize(h) < |p| && RootPlace(ShortSize(h), p, o) >= 0
              && InSectors(file, h, d.next, d.root.first, rootSectors, RootPlace(ShortSize(h), p, o), at)
            else InSectors(file, h, d.next, FirstSector(record), p, o, at)
  {
    hide Off, Gather, LongStream, ShortStream, Opened, FilePlace, RootPlace;
    var d := Opened(file, h).value;
    k := FindStream(d.records, name).value;
    var record := d.records[k];
    var first := FirstSector(record);
    rootSectors := [];
    if StreamSize(record) < h.minStandard && d.root.RootBytes? {
      NotEmpty(h, d, first, o);
      p := ShortPieces(h, d.root.bytes, d.mini, d.miniLimit, first);
      rootSectors := RootSectors(file, h);
      at := ShortByte(file, h, d, p, rootSectors, o);
    } else {
      p := LongSectors(file, h, d.next, first, StreamSize(record));
      GatheredByte(file, h, p, o);
      at := FilePlace(SecSize(h), p, o);
    }
  }

  lemma NotEmpty(h: Header, d: Document, first: int, o: nat)
    requires Whole(d) && d.root.RootBytes?
    requires ShortStream(d.root.bytes, h, d.mini, d.miniLimit, first).Some?
    requires o < |ShortStream(d.root.bytes, h, d.mini, d.miniLimit, first).value|
    ensures first != END_OF_CHAIN
  {
  }

  lemma RootSectors(file: seq<Byte>, h: Header) returns (p: seq<int>)
    requires Accepted(h) && Opened(file, h).Some? && Opened(file, h).value.root.RootBytes?
    ensures var d := Opened(file, h).value; IsLong(file, h, d.next, |d.next|, d.root.first, p, d.root.bytes)
  {
    hide LongStream, IsLong, Records, Links, ChainBytes;
    var d := Opened(file, h).value;
    var j := RootRecord(d.records).value;
    p := LongSectors(file, h, d.next, FirstSector(d.records[j]), StreamSize(d.records[j]));
  }

  lemma ShortByte(file: seq<Byte>, h: Header, d: Document, p: seq<int>, sectors: seq<int>, o: nat) returns (at: int)
    requires Accepted(h) && Whole(d) && d.root.RootBytes?
    requires AllInside(d.root.bytes, 0, ShortSize(h), p) && o < |Gather(d.root.bytes, 0, ShortSize(h), p)|
    requires IsLong(file, h, d.next, |d.next|, d.root.first, sectors, d.root.bytes)
    ensures ShortSize(h) > 0 && o / ShortSize(h) < |p| && RootPlace(ShortSize(h), p, o) >= 0
    ensures InSectors(file, h, d.next, d.root.first, sectors, RootPlace(ShortSize(h), p, o), at)
    ensures Gather(d.root.bytes, 0, ShortSize(h), p)[o] == file[at]
  {
    hide Off, Gather, Chain, FilePlace;
    SizesArePositive(h.shortSizeP2);
    var mini := ShortSize(h);
    Quotient(o, |p|, mini);
    GatherByte(d.root.bytes, 0, mini, p, o / mini, o % mini);
    PieceAt(mini, p, o);
    var there: nat := RootPlace(ShortSize(h), p, o);
    GatheredByte(file, h, sectors, there);
    at := FilePlace(SecSize(h), sectors, there);
  }

  lemma PieceAt(size: nat, p: seq<int>, o: nat)
    requires size > 0 && o / size < |p| && p[o / size] >= 0
    ensures RootPlace(size, p, o) == Place(0, size, p[o / size]) + o % size >= 0
  {
  }
}
