/** Sector chains of a Composite Document: linked lists of sector numbers inside an allocation table. */
module CdfChain {
  import opened Bytes

  const LOOP_LIMIT: nat := 10000
  const FREE := -1
  const END_OF_CHAIN := -2

  /** Conversion to the signed 32-bit sector number. */
  function Signed32(x: int): int {
    var m := x % 0x1_0000_0000;
    if m < 0x8000_0000 then m else m - 0x1_0000_0000
  }

  function LittleEndian(b0: int, b1: int, b2: int, b3: int): int {
    b0 + 0x100 * b1 + 0x1_0000 * b2 + 0x100_0000 * b3
  }

  /** The `k`th little-endian 32-bit word of a byte table, as a sector number. */
  function Word(b: seq<Byte>, k: nat): (r: int)
    requires 4 * k + 4 <= |b|
    ensures -0x8000_0000 <= r < 0x8000_0000
  {
    Signed32(LittleEndian(b[4 * k], b[4 * k + 1], b[4 * k + 2], b[4 * k + 3]))
  }

  /** A word is read as a number exactly when its bytes are the number's, modulo 2^32, in base 256, lowest first. */
  lemma WordIs(b: seq<Byte>, k: nat, n: int)
    requires 4 * k + 4 <= |b| && -0x8000_0000 <= n < 0x8000_0000
    ensures var m := n % 0x1_0000_0000;
            Word(b, k) == n <==>
            b[4 * k] == m % 256 && b[4 * k + 1] == m / 256 % 256 && b[4 * k + 2] == m / 0x1_0000 % 256
            && b[4 * k + 3] == m / 0x100_0000
  {
    var m := n % 0x1_0000_0000;
    BaseDigits(b[4 * k], b[4 * k + 1], b[4 * k + 2], b[4 * k + 3], m);
  }

  lemma BaseDigits(b0: Byte, b1: Byte, b2: Byte, b3: Byte, m: nat)
    requires m < 0x1_0000_0000
    ensures 0 <= LittleEndian(b0, b1, b2, b3) < 0x1_0000_0000
    ensures LittleEndian(b0, b1, b2, b3) == m <==>
            b0 == m % 256 && b1 == m / 256 % 256 && b2 == m / 0x1_0000 % 256 && b3 == m / 0x100_0000
  {
    DigitsOf(b0, b1, b2, b3);
    SumOfDigits(m);
    hide LittleEndian;
  }

  lemma SumOfDigits(m: nat)
    ensures LittleEndian(m % 256, m / 256 % 256, m / 0x1_0000 % 256, m / 0x100_0000) == m
  {
    var q := m / 256;
    var r := q / 256;
    var t := r / 256;
    assert m == 256 * q + m % 256 && q == 256 * r + q % 256 && r == 256 * t + r % 256;
    assert m / 0x1_0000 == r by { assert m == 0x1_0000 * r + (256 * (q % 256) + m % 256); }
    assert m / 0x100_0000 == t by { assert m == 0x100_0000 * t + (0x1_0000 * (r % 256) + 256 * (q % 256) + m % 256); }
  }

  lemma DigitsOf(b0: Byte, b1: Byte, b2: Byte, b3: Byte)
    ensures var m := LittleEndian(b0, b1, b2, b3);
            && 0 <= m < 0x1_0000_0000
            && b0 == m % 256 && b1 == m / 256 % 256 && b2 == m / 0x1_0000 % 256 && b3 == m / 0x100_0000
  {
    var m, high := LittleEndian(b0, b1, b2, b3), b2 as int + 256 * b3 as int;
    assert m == 0x1_0000 * high + (b0 as int + 256 * b1 as int);
    assert m / 0x1_0000 == high;
    assert m == 256 * (b1 as int + 256 * high) + b0 as int;
    assert m / 256 == b1 as int + 256 * high;
  }

  /** The sector that follows each sector, read out of the bytes of a table. */
  function Entries(b: seq<Byte>): (next: seq<int>)
    ensures |next| == |b| / 4
    ensures forall k: nat | k < |next| :: next[k] == Word(b, k)
  {
    seq(|b| / 4, k requires 0 <= k < |b| / 4 => Word(b, k))
  }

  /** A table entry only depends on the table's first bytes. */
  lemma EntriesPrefix(a: seq<Byte>, b: seq<Byte>)
    requires a <= b
    ensures Entries(a) <= Entries(b)
  {
    forall k: nat | k < |a| / 4
      ensures Entries(a)[k] == Entries(b)[k]
    {
      assert forall i | 0 <= i < |a| :: a[i] == b[i];
    }
  }

  /** `p` visits sectors from `sid` on, all below `limit`, each leading to the next. */
  ghost predicate Walk(next: seq<int>, limit: int, sid: int, p: seq<int>)
    requires limit <= |next|
  {
    && |p| > 0
    && p[0] == sid
    && (forall i | 0 <= i < |p| :: 0 <= p[i] < limit)
    && (forall i | 0 <= i < |p| - 1 :: next[p[i]] == p[i + 1])
  }

  /** A walk that ends: the last sector's entry is a negative mark. */
  ghost predicate Chain(next: seq<int>, limit: int, sid: int, p: seq<int>)
    requires limit <= |next|
  {
    Walk(next, limit, sid, p) && next[p[|p| - 1]] < 0
  }

  /** The sectors visited from `sid` until a negative mark, in at most `fuel` steps. */
  function Follow(next: seq<int>, limit: int, sid: int, fuel: nat): Option<seq<int>>
    requires limit <= |next|
    decreases fuel
  {
    if sid < 0 then Some([])
    else if fuel == 0 || sid >= limit then None
    else match Follow(next, limit, next[sid], fuel - 1)
      case None => None
      case Some(p) => Some([sid] + p)
  }

  /** What the chain counter reports: the number of sectors, 0 for an empty chain, -1 for a bad one. */
  function Count(next: seq<int>, limit: int, sid: int): int
    requires limit <= |next|
  {
    if sid == END_OF_CHAIN then 0
    else match Follow(next, limit, sid, LOOP_LIMIT)
      case None => -1
      case Some(p) => if p == [] then -1 else |p|
  }

  /** A chain of several sectors is its first sector and a chain from the next. */
  lemma ChainStep(next: seq<int>, limit: int, sid: int, p: seq<int>)
    requires limit <= |next| && |p| > 1 && 0 <= sid < limit
    ensures Chain(next, limit, sid, p) <==> p[0] == sid && Chain(next, limit, next[sid], p[1..])
  {
    var tail := p[1..];
    if p[0] == sid && Chain(next, limit, next[sid], tail) {
      forall i | 0 <= i < |p|
        ensures 0 <= p[i] < limit
        ensures i + 1 < |p| ==> next[p[i]] == p[i + 1]
      {
        if i > 0 { assert p[i] == tail[i - 1]; }
        if i + 1 < |p| { assert p[i + 1] == tail[i]; }
      }
    }
    if Chain(next, limit, sid, p) {
      forall i | 0 <= i < |tail|
        ensures 0 <= tail[i] < limit
        ensures i + 1 < |tail| ==> next[tail[i]] == tail[i + 1]
      {
        assert tail[i] == p[i + 1];
        if i + 1 < |tail| { assert next[p[i + 1]] == p[i + 2]; }
      }
      assert next[p[0]] == p[1];
    }
  }

  lemma ChainOne(next: seq<int>, limit: int, sid: int, p: seq<int>)
    requires limit <= |next| && |p| == 1
    ensures Chain(next, limit, sid, p) <==> p[0] == sid && 0 <= sid < limit && next[sid] < 0
  {
  }

  lemma {:induction false} FollowIsChain(next: seq<int>, limit: int, sid: int, fuel: nat, p: seq<int>)
    requires limit <= |next| && p != []
    ensures Follow(next, limit, sid, fuel) == Some(p) <==> Chain(next, limit, sid, p) && |p| <= fuel
    decreases fuel
  {
    hide Chain;
    ChainStart(next, limit, sid, p);
    if 0 <= sid < limit && fuel > 0 {
      var tail := p[1..];
      assert p == [p[0]] + tail;
      var rest := Follow(next, limit, next[sid], fuel - 1);
      assert forall t :: [sid] + t == p <==> sid == p[0] && t == tail by { ConsIs(sid, p); }
      if tail == [] {
        ChainOne(next, limit, sid, p);
        FollowNone(next, limit, next[sid], fuel - 1);
      } else {
        ChainStep(next, limit, sid, p);
        FollowIsChain(next, limit, next[sid], fuel - 1, tail);
      }
    }
  }

  lemma ChainStart(next: seq<int>, limit: int, sid: int, p: seq<int>)
    requires limit <= |next| && p != []
    ensures Chain(next, limit, sid, p) ==> 0 <= sid < limit
  {
  }

  lemma ConsIs(x: int, p: seq<int>)
    requires p != []
    ensures forall t: seq<int> :: [x] + t == p <==> x == p[0] && t == p[1..]
  {
    forall t: seq<int>
      ensures [x] + t == p <==> x == p[0] && t == p[1..]
    {
      assert ([x] + t)[1..] == t;
      assert p == [p[0]] + p[1..];
    }
  }

  lemma FollowNone(next: seq<int>, limit: int, sid: int, fuel: nat)
    requires limit <= |next|
    ensures Follow(next, limit, sid, fuel) == Some([]) <==> sid < 0
  {
  }

  lemma FollowEmpty(next: seq<int>, limit: int, sid: int, fuel: nat)
    requires limit <= |next| && Follow(next, limit, sid, fuel) == Some([])
    ensures sid < 0
  {
  }

  lemma WalkStep(next: seq<int>, limit: int, sid: int, p: seq<int>, i: nat)
    requires limit <= |next| && Walk(next, limit, sid, p) && i + 1 < |p|
    ensures 0 <= p[i] < |next| && next[p[i]] >= 0
  {
    assert next[p[i]] == p[i + 1];
  }

  /** No sector is visited twice by a chain. */
  lemma ChainDistinct(next: seq<int>, limit: int, sid: int, p: seq<int>, i: nat, j: nat)
    requires limit <= |next| && Chain(next, limit, sid, p) && i < j < |p|
    ensures p[i] != p[j]
    decreases |p| - j
  {
    if p[i] == p[j] {
      if j + 1 < |p| {
        assert next[p[i]] == p[i + 1] && next[p[j]] == p[j + 1];
        ChainDistinct(next, limit, sid, p, i + 1, j + 1);
      } else {
        WalkStep(next, limit, sid, p, i);
      }
    }
  }

  /** Distinct numbers below `n` are at most `n` many. */
  lemma Pigeonhole(p: seq<int>, n: nat)
    requires forall i | 0 <= i < |p| :: 0 <= p[i] < n
    requires forall i, j | 0 <= i < j < |p| :: p[i] != p[j]
    ensures |p| <= n
  {
    Elements(p);
    Subset((set x | x in p), UpTo(n));
  }

  ghost function UpTo(n: nat): (s: set<int>)
    ensures |s| == n
    ensures forall i :: i in s <==> 0 <= i < n
  {
    if n == 0 then {} else UpTo(n - 1) + {n - 1}
  }

  lemma {:induction false} Elements(p: seq<int>)
    requires forall i, j | 0 <= i < j < |p| :: p[i] != p[j]
    ensures |set x | x in p| == |p|
  {
    if |p| > 0 {
      var q := p[..|p| - 1];
      Elements(q);
      assert p == q + [p[|p| - 1]];
      assert (set x | x in p) == (set x | x in q) + {p[|p| - 1]};
    }
  }

  lemma Subset(a: set<int>, b: set<int>)
    requires a <= b
    ensures |a| <= |b|
  {
    assert b == a + (b - a);
  }

  /** A positive count is exactly the length of a chain that the limit allows; an end mark counts 0. */
  lemma CountMeaning(next: seq<int>, limit: int, sid: int, n: int)
    requires limit <= |next|
    ensures n > 0 ==> (Count(next, limit, sid) == n <==>
                       exists p :: Chain(next, limit, sid, p) && |p| == n <= LOOP_LIMIT)
    ensures Count(next, limit, sid) == 0 <==> sid == END_OF_CHAIN
    ensures Count(next, limit, sid) >= -1
  {
    if n > 0 {
      forall p | Chain(next, limit, sid, p) && |p| == n <= LOOP_LIMIT
        ensures Count(next, limit, sid) == n
      {
        FollowIsChain(next, limit, sid, LOOP_LIMIT, p);
      }
      if Count(next, limit, sid) == n {
        var p := Follow(next, limit, sid, LOOP_LIMIT).value;
        FollowIsChain(next, limit, sid, LOOP_LIMIT, p);
        assert Chain(next, limit, sid, p) && |p| == n <= LOOP_LIMIT;
      }
    }
  }

  /** From a sector number, the counter and the walk succeed together. */
  lemma CountFollows(next: seq<int>, limit: int, sid: int)
    requires limit <= |next|
    ensures sid < 0 ==> Count(next, limit, sid) == if sid == END_OF_CHAIN then 0 else -1
    ensures sid >= 0 && Count(next, limit, sid) == -1 ==> Follow(next, limit, sid, LOOP_LIMIT) == None
    ensures sid >= 0 && Count(next, limit, sid) != -1 ==>
              exists p :: Follow(next, limit, sid, LOOP_LIMIT) == Some(p) && Count(next, limit, sid) == |p| > 0
  {
    if sid >= 0 && Follow(next, limit, sid, LOOP_LIMIT) == Some([]) {
      FollowEmpty(next, limit, sid, LOOP_LIMIT);
    }
  }

  /** A counted chain is acyclic and in range, hence no longer than the table. */
  lemma CountedIsAcyclic(next: seq<int>, limit: int, sid: int, p: seq<int>)
    requires limit <= |next| && Follow(next, limit, sid, LOOP_LIMIT) == Some(p) && p != []
    ensures forall i, j | 0 <= i < j < |p| :: p[i] != p[j]
    ensures forall i | 0 <= i < |p| :: 0 <= p[i] < limit
    ensures Count(next, limit, sid) == |p| <= limit && |p| <= LOOP_LIMIT
  {
    FollowIsChain(next, limit, sid, LOOP_LIMIT, p);
    forall i, j | 0 <= i < j < |p| ensures p[i] != p[j] {
      ChainDistinct(next, limit, sid, p, i, j);
    }
    assert 0 <= p[0] < limit;
    Pigeonhole(p, limit);
  }

  /** Two walks from one sector agree as far as both go. */
  lemma {:induction false} WalksAgree(next: seq<int>, limit: int, sid: int, p: seq<int>, w: seq<int>, i: nat)
    requires limit <= |next| && Walk(next, limit, sid, p) && Walk(next, limit, sid, w)
    requires i < |p| && i < |w|
    ensures p[i] == w[i]
  {
    if i > 0 {
      WalksAgree(next, limit, sid, p, w, i - 1);
      assert next[p[i - 1]] == p[i] && next[w[i - 1]] == w[i];
    }
  }

  /** Every chain that comes back to a sector it visited is rejected. */
  lemma RevisitRejected(next: seq<int>, limit: int, sid: int, w: seq<int>, i: nat, j: nat)
    requires limit <= |next| && Walk(next, limit, sid, w)
    requires i < j < |w| && w[i] == w[j]
    ensures Count(next, limit, sid) == -1
  {
    if Count(next, limit, sid) > 0 {
      var p := Follow(next, limit, sid, LOOP_LIMIT).value;
      FollowIsChain(next, limit, sid, LOOP_LIMIT, p);
      if j < |p| {
        WalksAgree(next, limit, sid, p, w, i);
        WalksAgree(next, limit, sid, p, w, j);
        ChainDistinct(next, limit, sid, p, i, j);
      } else {
        var last := |p| - 1;
        WalksAgree(next, limit, sid, p, w, last);
        WalkStep(next, limit, sid, w, last);
      }
    }
  }

  /** Where unit `i` of `size` bytes starts. */
  function Off(i: nat, size: nat): nat { i * size }

  lemma OffRoom(i: nat, n: nat, size: nat)
    requires i < n
    ensures Off(i, size) + size == Off(i + 1, size) <= Off(n, size)
  {
  }

  /** A sector allocation table: the words of `tab`, `len` sectors of them. */
  class Table {
    var tab: array<Byte>
    var len: nat

    constructor ()
      ensures len == 0 && tab.Length == 0 && fresh(tab)
    {
      tab := new Byte[0];
      len := 0;
    }

    /** The table's entries, for sectors of `size` bytes. */
    ghost function Next(size: nat): (next: seq<int>)
      requires Off(len, size) <= tab.Length
      reads this, tab
      ensures |next| == Off(len, size) / 4
    {
      Entries(tab[..Off(len, size)])
    }
  }

  /** The highest sector number a table of `n` entries is taken to have, as a signed 32-bit value. */
  function MaxSector(n: nat): (r: int)
    ensures r <= n
    ensures n < 0x8000_0000 ==> r == n
    ensures 0x8000_0000 <= n < 0x1_0000_0000 ==> r < 0
  {
    Signed32(n)
  }

  /** `sat->sat_tab[sid]`. */
  method Entry(tab: array<Byte>, sid: nat) returns (r: int)
    requires 4 * sid + 4 <= tab.Length
    ensures r == Word(tab[..], sid)
  {
    r := Signed32(LittleEndian(tab[4 * sid], tab[4 * sid + 1], tab[4 * sid + 2], tab[4 * sid + 3]));
  }

  /** `Entry` reads the table's entry. */
  method NextOf(sat: Table, size: nat, sid: nat) returns (r: int)
    requires Off(sat.len, size) <= sat.tab.Length && sid < Off(sat.len, size) / 4
    ensures r == sat.Next(size)[sid]
  {
    hide Off;
    r := Entry(sat.tab, sid);
    EntriesPrefix(sat.tab[..Off(sat.len, size)], sat.tab[..]);
    assert sat.Next(size)[sid] == Entries(sat.tab[..])[sid];
  }

  method CountChain(sat: Table, first: int, size: nat) returns (n: int)
    requires Off(sat.len, size) <= sat.tab.Length
    ensures n == Count(sat.Next(size), MaxSector(Off(sat.len, size) / 4), first)
  {
    var maxsector := MaxSector(Off(sat.len, size) / 4);
    if first == END_OF_CHAIN {
      return 0;
    }
    ghost var next := sat.Next(size);
    ghost var whole := Follow(next, maxsector, first, LOOP_LIMIT);
    var sid := first;
    var i: nat, j: nat := 0, 0;
    ghost var seen: seq<int> := [];
    if whole.Some? { assert [] + whole.value == whole.value; }
    while sid >= 0
      invariant i == j == |seen| <= LOOP_LIMIT
      invariant i == 0 ==> sid == first
      invariant whole == match Follow(next, maxsector, sid, LOOP_LIMIT - i)
                         case None => None
                         case Some(p) => Some(seen + p)
      decreases LOOP_LIMIT - i, sid >= 0
    {
      if j >= LOOP_LIMIT {
        return -1;
      }
      if sid >= maxsector {
        return -1;
      }
      ghost var at := sid;
      sid := NextOf(sat, size, sid);
      match Follow(next, maxsector, sid, LOOP_LIMIT - i - 1) {
        case None =>
        case Some(p) =>
          assert seen + ([at] + p) == (seen + [at]) + p;
      }
      seen := seen + [at];
      i, j := i + 1, j + 1;
    }
    assert seen + [] == seen;
    if i == 0 {
      return -1;
    }
    n := i;
  }
}
