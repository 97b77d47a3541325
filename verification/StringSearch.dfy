/**
 * The `search` test: the first place in a range of the data where a string stands, with blanks and case
 * compared as the flags say.
 */
module StringSearch {
  import opened Bytes

  /** `c`, `C`, `W` and `w` of a string test. */
  datatype Flags = Flags(lower: bool, upper: bool, compact: bool, optional: bool)

  const EXACT := Flags(false, false, false, false)

  predicate Blank(b: Byte) { b == 32 || 9 <= b <= 13 }

  predicate Lower(b: Byte) { 97 <= b <= 122 }

  predicate Upper(b: Byte) { 65 <= b <= 90 }

  function ToLower(b: Byte): Byte { if Upper(b) then b + 32 else b }

  function ToUpper(b: Byte): Byte { if Lower(b) then b - 32 else b }

  /** A blank of the string that stands for a run of blanks in the data. */
  predicate Elastic(f: Flags, a: Byte) { (f.compact || f.optional) && Blank(a) }

  /** A byte of the string and a byte of the data agree. */
  predicate Same(f: Flags, a: Byte, b: Byte) {
    if f.lower && Lower(a) then ToLower(b) == a
    else if f.upper && Upper(a) then ToUpper(b) == a
    else a == b
  }

  /** How many elastic blanks `p` starts with. */
  function Run(f: Flags, p: seq<Byte>): (k: nat)
    ensures k <= |p|
    ensures forall i | 0 <= i < k :: Elastic(f, p[i])
    ensures k < |p| ==> !Elastic(f, p[k])
  {
    if p == [] || !Elastic(f, p[0]) then 0 else 1 + Run(f, p[1..])
  }

  predicate AllBlank(d: seq<Byte>) { forall i | 0 <= i < |d| :: Blank(d[i]) }

  /** How many blanks of the data a run of `k` blanks stands for, at least. */
  function Least(f: Flags, k: nat): nat { if f.compact then k else 0 }

  /**
   * The data begins with what the string stands for: a run of `k` blanks for `k` or more blanks, or for
   * any number of them when they are optional, and every other byte for a byte like it.
   */
  ghost predicate Begins(f: Flags, p: seq<Byte>, d: seq<Byte>)
    decreases |p|
  {
    if p == [] then true
    else if Elastic(f, p[0]) then
      var k := Run(f, p);
      exists m: nat | Least(f, k) <= m <= |d| :: AllBlank(d[..m]) && Begins(f, p[k..], d[m..])
    else d != [] && Same(f, p[0], d[0]) && Begins(f, p[1..], d[1..])
  }

  /** The data without its leading blanks. */
  function Skip(d: seq<Byte>): (n: nat)
    ensures n <= |d| && AllBlank(d[..n])
    ensures n < |d| ==> !Blank(d[n])
  {
    if d == [] || !Blank(d[0]) then 0 else 1 + Skip(d[1..])
  }

  lemma SkipIsMost(d: seq<Byte>, m: nat)
    requires m <= |d| && AllBlank(d[..m])
    ensures m <= Skip(d)
  {
    if Skip(d) < m {
      BlankAt(d, m, Skip(d));
    }
  }

  lemma BlankAt(d: seq<Byte>, m: nat, i: nat)
    requires i < m <= |d| && AllBlank(d[..m])
    ensures Blank(d[i])
  {
    assert d[..m][i] == d[i];
  }

  /** After a run, taking every blank loses nothing. */
  lemma GreedyRun(f: Flags, p: seq<Byte>, d: seq<Byte>, k: nat)
    requires p != [] && Elastic(f, p[0]) && k == Run(f, p)
    ensures Begins(f, p, d) <==> Least(f, k) <= Skip(d) && Begins(f, p[k..], d[Skip(d)..])
  {
    var n := Skip(d);
    var rest := p[k..];
    forall m: nat | Least(f, k) <= m <= |d| && AllBlank(d[..m]) && Begins(f, rest, d[m..])
      ensures m <= n && Begins(f, rest, d[n..])
    {
      SkipIsMost(d, m);
      if rest != [] && m < n {
        NoBlankFits(f, rest, d[m..], d[..n][m]);
      }
    }
  }

  /** A string that does not start with an elastic blank does not fit data that starts with a blank. */
  lemma NoBlankFits(f: Flags, p: seq<Byte>, d: seq<Byte>, b: Byte)
    requires (f.compact || f.optional) && p != [] && !Elastic(f, p[0]) && d != [] && d[0] == b && Blank(b)
    ensures !Begins(f, p, d)
  {
  }

  lemma RunTail(f: Flags, p: seq<Byte>)
    requires p != [] && Elastic(f, p[0])
    ensures Run(f, p) == 1 + Run(f, p[1..])
  {
  }

  /** One blank of a run that goes on: it takes one blank of the data. */
  lemma InsideRun(f: Flags, p: seq<Byte>, d: seq<Byte>)
    requires f.compact && |p| > 1 && Elastic(f, p[0]) && Elastic(f, p[1])
    ensures Begins(f, p, d) <==> d != [] && Blank(d[0]) && Begins(f, p[1..], d[1..])
  {
    var k := Run(f, p);
    RunTail(f, p);
    GreedyRun(f, p, d, k);
    if d != [] && Blank(d[0]) {
      GreedyRun(f, p[1..], d[1..], k - 1);
      assert p[k..] == p[1..][k - 1..] && d[Skip(d)..] == d[1..][Skip(d) - 1..];
    }
  }

  /** The last blank of a run: it takes one blank and then all others. */
  lemma LastOfRun(f: Flags, p: seq<Byte>, d: seq<Byte>)
    requires f.compact && p != [] && Elastic(f, p[0]) && (|p| == 1 || !Elastic(f, p[1]))
    ensures Begins(f, p, d) <==> d != [] && Blank(d[0]) && Begins(f, p[1..], d[Skip(d)..])
  {
    RunTail(f, p);
    GreedyRun(f, p, d, 1);
  }

  /** An optional blank takes every blank there is; the ones after it in a run then take none. */
  lemma OptionalBlank(f: Flags, p: seq<Byte>, d: seq<Byte>)
    requires !f.compact && p != [] && Elastic(f, p[0])
    ensures Begins(f, p, d) <==> Begins(f, p[1..], d[Skip(d)..])
  {
    var k := Run(f, p);
    RunTail(f, p);
    GreedyRun(f, p, d, k);
    var more := d[Skip(d)..];
    assert p[k..] == p[1..][k - 1..];
    if k > 1 {
      GreedyRun(f, p[1..], more, k - 1);
      assert Skip(more) == 0 && more[0..] == more;
    }
  }

  /** One byte of the string that is not an elastic blank. */
  lemma OneByte(f: Flags, p: seq<Byte>, d: seq<Byte>)
    requires p != [] && !Elastic(f, p[0])
    ensures Begins(f, p, d) <==> d != [] && Same(f, p[0], d[0]) && Begins(f, p[1..], d[1..])
  {
  }

  lemma Tails(s: seq<Byte>, i: nat)
    requires i < |s|
    ensures s[i..] != [] && s[i..][0] == s[i] && s[i..][1..] == s[i + 1..]
    ensures i + 1 < |s| ==> |s[i..]| > 1 && s[i..][1] == s[i + 1]
    ensures i + 1 == |s| ==> |s[i..]| == 1
  {
  }

  lemma SkipMore(d: seq<Byte>, k: nat, j: nat)
    requires k <= j <= |d| && (forall x | k <= x < j :: Blank(d[x])) && (j < |d| ==> !Blank(d[j]))
    ensures Skip(d[k..]) == j - k && d[k..][Skip(d[k..])..] == d[j..]
    decreases j - k
  {
    if k < j {
      assert d[k..][1..] == d[k + 1..];
      SkipMore(d, k + 1, j);
    }
  }

  /** One pass: each byte of the string takes its share of the data at once. */
  predicate Greedy(f: Flags, p: seq<Byte>, d: seq<Byte>)
    decreases |p|
  {
    if p == [] then true
    else if d == [] then false
    else if !Elastic(f, p[0]) then Same(f, p[0], d[0]) && Greedy(f, p[1..], d[1..])
    else if !f.compact then Greedy(f, p[1..], d[Skip(d)..])
    else if !Blank(d[0]) then false
    else if |p| > 1 && Blank(p[1]) then Greedy(f, p[1..], d[1..])
    else Greedy(f, p[1..], d[Skip(d)..])
  }

  /** With optional blanks only, a string that ends in a blank can be refused for want of data. */
  predicate Definite(f: Flags, a: seq<Byte>) {
    f.compact || !f.optional || a == [] || !Blank(a[|a| - 1])
  }

  lemma DefiniteTail(f: Flags, a: seq<Byte>)
    requires Definite(f, a) && a != []
    ensures Definite(f, a[1..])
  {
  }

  /** The one pass never accepts too much, and decides exactly the declarative match of a definite string. */
  lemma {:induction false} GreedyIsRight(f: Flags, p: seq<Byte>, d: seq<Byte>)
    ensures Greedy(f, p, d) ==> Begins(f, p, d)
    ensures Definite(f, p) ==> (Greedy(f, p, d) <==> Begins(f, p, d))
    decreases |p|
  {
    hide Begins, Same;
    if p == [] {
      NothingLeft(f, d);
    } else {
      if Definite(f, p) { DefiniteTail(f, p); }
      if d == [] {
        if Definite(f, p) { NeedsData(f, p); }
      } else if !Elastic(f, p[0]) {
        OneByte(f, p, d);
        GreedyIsRight(f, p[1..], d[1..]);
      } else if !f.compact {
        OptionalBlank(f, p, d);
        GreedyIsRight(f, p[1..], d[Skip(d)..]);
      } else if !Blank(d[0]) {
        CompactNeedsBlank(f, p, d);
      } else if |p| > 1 && Blank(p[1]) {
        InsideRun(f, p, d);
        GreedyIsRight(f, p[1..], d[1..]);
      } else {
        LastOfRun(f, p, d);
        GreedyIsRight(f, p[1..], d[Skip(d)..]);
      }
    }
  }

  /**
   * file_strncmp, as far as it says whether the two agree: a cursor in each. The data has at least as many
   * bytes as the string, and a string is followed by a byte that is not blank.
   */
  method Agree(f: Flags, a: seq<Byte>, d: seq<Byte>) returns (equal: bool)
    requires |a| <= |d|
    ensures equal == Greedy(f, a, d)
    ensures Definite(f, a) ==> (equal <==> Begins(f, a, d))
  {
    hide Begins, Same, Blank;
    GreedyIsRight(f, a, d);
    var spread := f.compact || f.optional;
    var limit := if spread then |d| else |a|;
    var i: nat, k: nat := 0, 0;
    assert a[0..] == a && d[0..] == d;
    while i < |a|
      invariant i <= |a| && k <= |d| && (!spread ==> k == i)
      invariant Greedy(f, a, d) == Greedy(f, a[i..], d[k..])
      decreases |a| - i
    {
      Tails(a, i);
      if k >= limit {
        return false;
      }
      Tails(d, k);
      if !(spread && Blank(a[i])) {
        if !Same(f, a[i], d[k]) {
          return false;
        }
        i, k := i + 1, k + 1;
      } else {
        if f.compact && !Blank(d[k]) {
          return false;
        }
        if f.compact && i + 1 < |a| && Blank(a[i + 1]) {
          i, k := i + 1, k + 1;
        } else {
          var j := k;
          while j < |d| && Blank(d[j])
            invariant k <= j <= |d| && forall x | k <= x < j :: Blank(d[x])
          {
            j := j + 1;
          }
          SkipMore(d, k, j);
          i, k := i + 1, j;
        }
      }
    }
    assert a[i..] == [];
    equal := true;
  }

  lemma NothingLeft(f: Flags, d: seq<Byte>)
    ensures Begins(f, [], d)
  {
  }

  lemma CompactNeedsBlank(f: Flags, p: seq<Byte>, d: seq<Byte>)
    requires f.compact && p != [] && Elastic(f, p[0]) && d != [] && !Blank(d[0])
    ensures !Begins(f, p, d)
  {
    GreedyRun(f, p, d, Run(f, p));
  }

  lemma {:induction false} NeedsData(f: Flags, p: seq<Byte>)
    requires p != [] && (f.compact || !f.optional || !Blank(p[|p| - 1]))
    ensures !Begins(f, p, [])
    decreases |p|
  {
    if Elastic(f, p[0]) {
      var k := Run(f, p);
      RunTail(f, p);
      GreedyRun(f, p, [], k);
      if !f.compact && k < |p| {
        assert p[k..][|p| - k - 1] == p[|p| - 1];
        NeedsData(f, p[k..]);
      }
    }
  }

  /** The string stands in the data at offset `at`. */
  ghost predicate Stands(f: Flags, a: seq<Byte>, s: seq<Byte>, at: nat) {
    at + |a| <= |s| && Begins(f, a, s[at..])
  }

  /** A range of 0 is no limit. */
  predicate InRange(range: nat, at: nat) { range == 0 || at < range }

  /** file_strncmp finds no difference at offset `at`. */
  predicate Hits(f: Flags, a: seq<Byte>, s: seq<Byte>, at: nat) {
    at + |a| <= |s| && Greedy(f, a, s[at..])
  }

  /** The comparison hits where the string stands, and only there, unless the string ends in an optional blank. */
  lemma HitsStand(f: Flags, a: seq<Byte>, s: seq<Byte>, at: nat)
    ensures Hits(f, a, s, at) ==> Stands(f, a, s, at)
    ensures Definite(f, a) ==> (Hits(f, a, s, at) <==> Stands(f, a, s, at))
  {
    hide Greedy, Begins;
    if at + |a| <= |s| { GreedyIsRight(f, a, s[at..]); }
  }

  /** The offsets tried one after the other. */
  method SearchLoop(f: Flags, a: seq<Byte>, s: seq<Byte>, range: nat) returns (r: Option<nat>)
    ensures r.Some? ==> InRange(range, r.value) && Hits(f, a, s, r.value)
    ensures r.Some? ==> forall at: nat | at < r.value :: !Hits(f, a, s, at)
    ensures r.None? ==> forall at: nat | InRange(range, at) :: !Hits(f, a, s, at)
  {
    hide Begins, Greedy;
    var at: nat := 0;
    while range == 0 || at < range
      invariant at <= |s| + 1 && (range > 0 ==> at <= range)
      invariant forall x: nat | x < at :: !Hits(f, a, s, x)
      decreases |s| + 1 - at
    {
      if |a| + at > |s| {
        return None;
      }
      var equal := Agree(f, a, s[at..]);
      if equal {
        return Some(at);
      }
      at := at + 1;
    }
    r := None;
  }

  /** `a` stands in `s` at `at`, byte for byte. */
  predicate Occurs(a: seq<Byte>, s: seq<Byte>, at: nat) {
    at + |a| <= |s| && s[at..at + |a|] == a
  }

  /** memmem: the first place where `a` stands in `s`, byte for byte. */
  method Find(a: seq<Byte>, s: seq<Byte>) returns (r: Option<nat>)
    ensures r.Some? ==> Occurs(a, s, r.value) && forall at: nat | at < r.value :: !Occurs(a, s, at)
    ensures r.None? ==> forall at: nat :: !Occurs(a, s, at)
  {
    var at: nat := 0;
    while at + |a| <= |s|
      invariant forall x: nat | x < at :: !Occurs(a, s, x)
    {
      if Occurs(a, s, at) {
        return Some(at);
      }
      at := at + 1;
    }
    r := None;
  }

  lemma {:induction false} ExactBegins(a: seq<Byte>, d: seq<Byte>)
    ensures Begins(EXACT, a, d) <==> |a| <= |d| && d[..|a|] == a
    decreases |a|
  {
    if a != [] {
      if d != [] {
        ExactBegins(a[1..], d[1..]);
        assert a == [a[0]] + a[1..];
        if |a| <= |d| { assert d[..|a|] == [d[0]] + d[1..][..|a| - 1]; }
      }
    }
  }

  lemma ExactStands(a: seq<Byte>, s: seq<Byte>, at: nat)
    ensures Stands(EXACT, a, s, at) <==> Occurs(a, s, at)
    ensures Hits(EXACT, a, s, at) <==> Occurs(a, s, at)
  {
    HitsStand(EXACT, a, s, at);
    if at + |a| <= |s| {
      ExactBegins(a, s[at..]);
      assert s[at..][..|a|] == s[at..at + |a|];
    }
  }

  /** The number of offsets the test looks at: 0 for all. The library's search gets room for one more than the loop. */
  function Reach(f: Flags, a: seq<Byte>, range: nat, hasMemmem: bool): nat {
    if hasMemmem && f == EXACT && a != [] && range > 0 then range + 1 else range
  }

  /** What the test reports: the least offset within reach where the comparison hits, or none. */
  ghost predicate Reports(f: Flags, a: seq<Byte>, s: seq<Byte>, range: nat, hasMemmem: bool, r: Option<nat>) {
    match r
    case Some(at) =>
      InRange(Reach(f, a, range, hasMemmem), at) && Hits(f, a, s, at) && forall x: nat | x < at :: !Hits(f, a, s, x)
    case None => forall x: nat | InRange(Reach(f, a, range, hasMemmem), x) :: !Hits(f, a, s, x)
  }

  /** The whole test: without flags the library's search is used, on data cut to the range and the string. */
  method FileSearch(f: Flags, a: seq<Byte>, s: seq<Byte>, range: nat, hasMemmem: bool) returns (r: Option<nat>)
    ensures Reports(f, a, s, range, hasMemmem, r)
  {
    hide Begins, Greedy;
    if hasMemmem && |a| > 0 && f == EXACT {
      var end := range + |a|;
      if range == 0 || |s| < end {
        end := |s|;
      }
      r := Find(a, s[..end]);
      forall at: nat
        ensures Occurs(a, s[..end], at) <==> Hits(EXACT, a, s, at) && at + |a| <= end
      {
        ExactStands(a, s, at);
        if at + |a| <= end { assert s[..end][at..at + |a|] == s[at..at + |a|]; }
      }
      return;
    }
    r := SearchLoop(f, a, s, range);
  }

  /** A report is determined by what is searched, and how. */
  lemma OneReport(f: Flags, a: seq<Byte>, s: seq<Byte>, range: nat, hasMemmem: bool, r: Option<nat>, q: Option<nat>)
    requires Reports(f, a, s, range, hasMemmem, r) && Reports(f, a, s, range, hasMemmem, q)
    ensures r == q
  {
    hide Hits;
  }

  /**
   * With and without the library's search the test reports the same, except where the string, compared byte for
   * byte, first stands right behind the range: there only the library's search finds it.
   */
  lemma FastLooksFurther(f: Flags, a: seq<Byte>, s: seq<Byte>, range: nat, fast: Option<nat>, slow: Option<nat>)
    requires Reports(f, a, s, range, true, fast) && Reports(f, a, s, range, false, slow)
    ensures fast == slow <==> !(f == EXACT && a != [] && range > 0 && fast == Some(range))
    ensures fast != slow ==> slow == None
  {
    hide Hits;
    if Reach(f, a, range, true) == range {
      OneReport(f, a, s, range, true, fast, slow);
    }
  }

  /** "a" in "ba" with a range of 1: found at offset 1 by the library's search, and not at all without it. */
  lemma FoundBehindRange()
    ensures Reports(EXACT, [97], [98, 97], 1, true, Some(1)) && Reports(EXACT, [97], [98, 97], 1, false, None)
  {
    ExactStands([97], [98, 97], 0);
    ExactStands([97], [98, 97], 1);
    assert [98, 97][0..1] == [98] && [98, 97][1..2] == [97];
  }

  // ----- optional blanks at the end of the string -----

  /**
   * Two optional blanks at the end of a string are refused by the very same text: the first takes both
   * blanks, and the second finds no data to look at.
   */
  lemma OptionalTailRefused(f: Flags, a: seq<Byte>)
    requires f == Flags(false, false, false, true) && a == [97, 32, 32]
    ensures Begins(f, a, a) && !Greedy(f, a, a)
  {
    OneByte(f, a, a);
    assert a[1..] == [32, 32];
    GreedyRun(f, a[1..], a[1..], 2);
    assert Skip([32]) == 1;
    assert [32, 32][1..] == [32];
    assert Skip(a[1..]) == 2;
    assert Greedy(f, a, a) == Greedy(f, a[1..], a[1..]);
    assert a[1..][2..] == [];
  }

  /** Without its last blanks. */
  function Trim(s: seq<Byte>): (t: seq<Byte>)
    ensures t <= s && (t == [] || !Blank(t[|t| - 1]))
  {
    if s == [] || !Blank(s[|s| - 1]) then s else Trim(s[..|s| - 1])
  }

  lemma {:induction false} TrimCons(s: seq<Byte>)
    requires s != []
    ensures Trim(s) == if Trim(s[1..]) == [] && Blank(s[0]) then [] else [s[0]] + Trim(s[1..])
    ensures AllBlank(s) <==> Trim(s) == []
  {
    var n := |s| - 1;
    if n == 0 {
      assert s[1..] == [] && s[..0] == [];
    } else {
      assert s[1..][n - 1] == s[n];
      if Blank(s[n]) {
        TrimCons(s[..n]);
        assert s[1..][..n - 1] == s[..n][1..];
      } else {
        assert s == [s[0]] + s[1..];
      }
    }
  }

  lemma {:induction false} TrimSkip(s: seq<Byte>)
    ensures Trim(s[Skip(s)..]) == [] <==> Trim(s) == []
    ensures Trim(s) != [] ==> Skip(s) < |Trim(s)| && Trim(s[Skip(s)..]) == Trim(s)[Skip(s)..]
  {
    hide Trim, Skip, AllBlank, Blank;
    SkipStep(s);
    if s == [] || !Blank(s[0]) {
      assert s[0..] == s;
      if s != [] { TrimCons(s); }
    } else {
      var n := Skip(s[1..]);
      TrimCons(s);
      TrimSkip(s[1..]);
      assert s[1..][n..] == s[n + 1..];
      if Trim(s) != [] { assert Trim(s)[n + 1..] == Trim(s[1..])[n..]; }
    }
  }

  lemma SkipStep(s: seq<Byte>)
    ensures Skip(s) == if s == [] || !Blank(s[0]) then 0 else 1 + Skip(s[1..])
  {
  }

  lemma SkipIs(x: seq<Byte>, n: nat)
    requires n <= |x| && AllBlank(x[..n]) && (n < |x| ==> !Blank(x[n]))
    ensures Skip(x) == n
  {
    SkipIsMost(x, n);
    if n < Skip(x) { BlankAt(x, Skip(x), n); }
  }

  /** The data that a string ending in `k` optional blanks needs to have something behind. */
  function Room(d: seq<Byte>, k: nat): seq<Byte> { if k == 1 then d else Trim(d) }

  /** The string without its last blanks fits, and leaves at least one byte of `room`. */
  ghost predicate FitsInside(f: Flags, core: seq<Byte>, room: seq<Byte>) {
    room != [] && Begins(f, core, room[..|room| - 1])
  }

  /**
   * A string that ends in optional blanks is accepted exactly when what comes before them fits and leaves a
   * byte of the data, a byte that is not blank when there are two or more of them.
   */
  lemma {:induction false} OptionalTail(f: Flags, p: seq<Byte>, d: seq<Byte>)
    requires !Definite(f, p)
    ensures Greedy(f, p, d) <==> FitsInside(f, Trim(p), Room(d, |p| - |Trim(p)|))
    decreases |p|
  {
    hide Begins, Same, Greedy;
    var core, k := Trim(p), |p| - |Trim(p)|;
    TrimCons(p);
    GreedyStep(f, p, d);
    if core == [] {
      AllOptional(f, p, d);
    } else if !Blank(p[0]) {
      TailAfterByte(f, p, d);
    } else {
      TailAfterBlank(f, p, d);
    }
  }

  /** The first step of the one pass, for optional blanks. */
  lemma GreedyStep(f: Flags, p: seq<Byte>, d: seq<Byte>)
    requires !Definite(f, p)
    ensures Greedy(f, p, d) <==> d != [] && (if Blank(p[0]) then Greedy(f, p[1..], d[Skip(d)..])
                                             else Same(f, p[0], d[0]) && Greedy(f, p[1..], d[1..]))
  {
  }

  lemma {:induction false} AllOptional(f: Flags, p: seq<Byte>, d: seq<Byte>)
    requires !Definite(f, p) && Trim(p) == []
    ensures Greedy(f, p, d) <==> FitsInside(f, [], Room(d, |p|))
    decreases |p|
  {
    hide Begins, Greedy;
    GreedyStep(f, p, d);
    TrimCons(p);
    NothingLeft(f, if Room(d, |p|) == [] then [] else Room(d, |p|)[..|Room(d, |p|)| - 1]);
    if |p| == 1 {
      assert Greedy(f, p[1..], d[Skip(d)..]) by { EmptyAccepted(f, d[Skip(d)..]); }
    } else {
      var d' := d[Skip(d)..];
      AllOptional(f, p[1..], d');
      NothingLeft(f, if Room(d', |p| - 1) == [] then [] else Room(d', |p| - 1)[..|Room(d', |p| - 1)| - 1]);
      TrimSkip(d);
      if d' != [] { TrimCons(d'); }
    }
  }

  lemma EmptyAccepted(f: Flags, d: seq<Byte>)
    ensures Greedy(f, [], d)
  {
  }

  lemma TailAfterByte(f: Flags, p: seq<Byte>, d: seq<Byte>)
    requires !Definite(f, p) && Trim(p) != [] && !Blank(p[0])
    ensures Greedy(f, p, d) <==> FitsInside(f, Trim(p), Room(d, |p| - |Trim(p)|))
    decreases |p|, 0
  {
    hide Begins, Same, Greedy, Trim, Room, Blank, FitsInside;
    var core, k := Trim(p), |p| - |Trim(p)|;
    TrimCons(p);
    GreedyStep(f, p, d);
    if d == [] {
      NoRoom(f, core, k);
    } else {
      OptionalTail(f, p[1..], d[1..]);
      assert core[1..] == Trim(p[1..]);
      FitsByte(f, core, d, k);
    }
  }

  lemma FitsByte(f: Flags, core: seq<Byte>, d: seq<Byte>, k: nat)
    requires core != [] && !Blank(core[0]) && d != []
    ensures FitsInside(f, core, Room(d, k)) <==> Same(f, core[0], d[0]) && FitsInside(f, core[1..], Room(d[1..], k))
  {
    hide Begins, Same, Trim, Blank;
    var room := Room(d, k);
    TrimCons(d);
    if |room| > 1 {
      var x := room[..|room| - 1];
      OneByte(f, core, x);
      assert x[1..] == room[1..][..|room| - 2];
      assert room[1..] == Room(d[1..], k);
    } else if room != [] {
      OneByte(f, core, []);
      assert room[..0] == [];
    }
  }

  lemma TailAfterBlank(f: Flags, p: seq<Byte>, d: seq<Byte>)
    requires !Definite(f, p) && Trim(p) != [] && Blank(p[0])
    ensures Greedy(f, p, d) <==> FitsInside(f, Trim(p), Room(d, |p| - |Trim(p)|))
    decreases |p|, 0
  {
    hide Begins, Same, Greedy, Trim, Skip, Room, Blank, FitsInside;
    var core, k := Trim(p), |p| - |Trim(p)|;
    TrimCons(p);
    CoreTail(p);
    GreedyStep(f, p, d);
    OptionalTail(f, p[1..], d[Skip(d)..]);
    assert |p[1..]| - |Trim(p[1..])| == k;
    FitsSkipped(f, core, d, k);
    if d == [] { NoRoom(f, core, k); }
  }

  /** What is left of a string that starts with a blank but is not all blank ends as it did. */
  lemma CoreTail(p: seq<Byte>)
    requires p != [] && Trim(p) != [] && Blank(p[0])
    ensures |p| > 1 && Trim(p[1..]) == Trim(p)[1..] != [] && Trim(p)[0] == p[0]
  {
    TrimCons(p);
  }

  lemma NoRoom(f: Flags, core: seq<Byte>, k: nat)
    ensures !FitsInside(f, core, Room([], k))
  {
  }

  lemma FitsSkipped(f: Flags, core: seq<Byte>, d: seq<Byte>, k: nat)
    requires !f.compact && |core| > 1 && Elastic(f, core[0]) && !Blank(core[|core| - 1])
    ensures FitsInside(f, core, Room(d, k)) <==> FitsInside(f, core[1..], Room(d[Skip(d)..], k))
  {
    hide Begins, Trim, Skip, Blank;
    var room, room' := Room(d, k), Room(d[Skip(d)..], k);
    NeedsData(f, core[1..]);
    if room == [] {
      RoomGone(d, k);
    } else {
      RoomSkipped(d, k);
      OptionalBlank(f, core, room[..|room| - 1]);
    }
  }

  lemma RoomGone(d: seq<Byte>, k: nat)
    requires Room(d, k) == []
    ensures Room(d[Skip(d)..], k) == []
  {
    TrimSkip(d);
  }

  /** Skipping the blanks before the room's last byte, or before the room. */
  lemma RoomSkipped(d: seq<Byte>, k: nat)
    requires Room(d, k) != []
    ensures var d', room := d[Skip(d)..], Room(d, k);
            var room', x := Room(d', k), room[..|room| - 1];
            if room' == [] then x[Skip(x)..] == [] else x[Skip(x)..] == room'[..|room'| - 1]
  {
    hide Trim, Skip, AllBlank;
    var n, room := Skip(d), Room(d, k);
    var d', x := d[n..], room[..|room| - 1];
    if k != 1 { TrimSkip(d); }
    if n <= |x| {
      assert x[..n] == d[..n];
      SkipIs(x, n);
    } else {
      assert x == d[..n][..|x|];
      PartBlank(d[..n], |x|);
      SkipIs(x, |x|);
    }
  }

  lemma PartBlank(s: seq<Byte>, n: nat)
    requires AllBlank(s) && n <= |s|
    ensures AllBlank(s[..n]) && s[..n][..n] == s[..n]
  {
  }
}
