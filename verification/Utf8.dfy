/**
 UTF-8 as RFC 3629, section 4 defines it, the table-driven recogniser and decoder, and
 the encoder.
 */
module Utf8 {
  import opened Bytes

  // ----- the standard -----

  predicate IsTail(b: Byte) { 0x80 <= b <= 0xBF }

  /** One character: the ABNF of section 4. */
  predicate WellFormed(s: seq<Byte>) {
    match |s|
    case 1 => s[0] <= 0x7F
    case 2 => 0xC2 <= s[0] <= 0xDF && IsTail(s[1])
    case 3 =>
      && IsTail(s[2])
      && ( || (s[0] == 0xE0 && 0xA0 <= s[1] <= 0xBF)
           || (0xE1 <= s[0] <= 0xEC && IsTail(s[1]))
           || (s[0] == 0xED && 0x80 <= s[1] <= 0x9F)
           || (0xEE <= s[0] <= 0xEF && IsTail(s[1])))
    case 4 =>
      && IsTail(s[2]) && IsTail(s[3])
      && ( || (s[0] == 0xF0 && 0x90 <= s[1] <= 0xBF)
           || (0xF1 <= s[0] <= 0xF3 && IsTail(s[1]))
           || (s[0] == 0xF4 && 0x80 <= s[1] <= 0x8F))
    case _ => false
  }

  /** The character number of a well-formed sequence (the table of section 3). */
  function Value(s: seq<Byte>): nat
    requires WellFormed(s)
  {
    match |s|
    case 1 => s[0]
    case 2 => Join(s[0] as int - 0xC0, s[1])
    case 3 => Join(Join(s[0] as int - 0xE0, s[1]), s[2])
    case _ => Join(Join(Join(s[0] as int - 0xF0, s[1]), s[2]), s[3])
  }

  /** Six more bits, from a continuation byte. */
  function Join(high: nat, tail: Byte): nat
    requires IsTail(tail)
  {
    high * 64 + (tail as int - 0x80)
  }

  /** Unicode scalar values: what UTF-8 can carry. */
  predicate IsScalar(v: nat) { v <= 0x10FFFF && !(0xD800 <= v <= 0xDFFF) }

  /** `s` is a sequence of well-formed characters with the numbers `vs`. */
  ghost predicate Carries(s: seq<Byte>, vs: seq<nat>)
    decreases |vs|
  {
    if vs == [] then s == []
    else exists n | 1 <= n <= |s| ::
      WellFormed(s[..n]) && Value(s[..n]) == vs[0] && Carries(s[n..], vs[1..])
  }

  /** The beginning of a well-formed character that is not yet complete; nothing at all counts. */
  ghost predicate Unfinished(t: seq<Byte>) {
    t == [] || exists u: seq<Byte> :: u != [] && WellFormed(t + u)
  }

  /** Well-formed UTF-8, except that the last character may be cut off. */
  ghost predicate Acceptable(s: seq<Byte>) {
    exists k, vs | 0 <= k <= |s| :: Carries(s[..k], vs) && Unfinished(s[k..])
  }

  // ----- the next character -----

  datatype Next = Char(n: nat, v: nat) | Cut | Broken

  /** Range of the second byte after a first byte that announces more. */
  function SecondLow(b: Byte): Byte { if b == 0xE0 then 0xA0 else if b == 0xF0 then 0x90 else 0x80 }
  function SecondHigh(b: Byte): Byte { if b == 0xED then 0x9F else if b == 0xF4 then 0x8F else 0xBF }

  /** The number of bytes a first byte announces; 0 when it cannot be first. */
  function Announced(b: Byte): nat {
    if b <= 0x7F then 1
    else if b < 0xC2 then 0
    else if b <= 0xDF then 2
    else if b <= 0xEF then 3
    else if b <= 0xF4 then 4
    else 0
  }

  /** The bytes of `s` after the first, up to `n`, are possible continuations. */
  predicate Continues(s: seq<Byte>, n: nat)
    requires 1 <= n <= |s|
  {
    && (n >= 2 ==> SecondLow(s[0]) <= s[1] <= SecondHigh(s[0]))
    && (n >= 3 ==> IsTail(s[2]))
    && (n >= 4 ==> IsTail(s[3]))
  }

  function NextChar(s: seq<Byte>): Next
    requires s != []
  {
    var n := Announced(s[0]);
    if n == 0 then Broken
    else if |s| < n then (if Continues(s, |s|) then Cut else Broken)
    else if Continues(s, n) then
      assert WellFormed(s[..n]) by { ContinuesIsWellFormed(s, n); }
      Char(n, Value(s[..n]))
    else Broken
  }

  lemma ContinuesIsWellFormed(s: seq<Byte>, n: nat)
    requires s != [] && n == Announced(s[0]) && 1 <= n <= |s|
    ensures Continues(s, n) <==> WellFormed(s[..n])
  {
  }

  /** A character is as long as its first byte announces, so no character begins another. */
  lemma AnnouncedLength(s: seq<Byte>)
    requires WellFormed(s)
    ensures Announced(s[0]) == |s|
  {
  }

  lemma OnlyPrefix(s: seq<Byte>, n: nat)
    requires 1 <= n <= |s| && WellFormed(s[..n])
    ensures NextChar(s) == Char(n, Value(s[..n]))
  {
    AnnouncedLength(s[..n]);
    ContinuesIsWellFormed(s, n);
  }

  lemma CharIsPrefix(s: seq<Byte>)
    requires s != [] && NextChar(s).Char?
    ensures var c := NextChar(s); 1 <= c.n <= |s| && WellFormed(s[..c.n]) && Value(s[..c.n]) == c.v
  {
    ContinuesIsWellFormed(s, Announced(s[0]));
  }

  /** An unfinished character is one whose announced bytes have not all arrived. */
  lemma UnfinishedIsCut(s: seq<Byte>)
    requires s != []
    ensures Unfinished(s) <==> NextChar(s) == Cut
  {
    if Unfinished(s) {
      var u: seq<Byte> :| u != [] && WellFormed(s + u);
      var w := s + u;
      AnnouncedLength(w);
      ContinuesIsWellFormed(w, |w|);
      assert w[..|w|] == w;
      assert forall k :: 0 <= k < |s| ==> w[k] == s[k];
    }
    if NextChar(s) == Cut {
      var n := Announced(s[0]);
      var u: seq<Byte> := if |s| == 1 then [SecondLow(s[0]), 0x80, 0x80][..n - 1] else [0x80, 0x80][..n - |s|];
      var w := s + u;
      assert forall k :: 0 <= k < |s| ==> w[k] == s[k];
      ContinuesIsWellFormed(w, n);
      assert w[..n] == w;
    }
  }

  /** Behind a complete character the question is the same again. */
  lemma AcceptableRest(s: seq<Byte>)
    requires s != [] && NextChar(s).Char?
    ensures 1 <= NextChar(s).n <= |s|
    ensures Acceptable(s) <==> Acceptable(s[NextChar(s).n..])
  {
    hide NextChar, WellFormed, Value, Carries, Unfinished;
    CharIsPrefix(s);
    var n := NextChar(s).n;
    var r := s[n..];
    if Acceptable(s) {
      var k, vs :| 0 <= k <= |s| && Carries(s[..k], vs) && Unfinished(s[k..]);
      AcceptableTail(s, k, vs);
    }
    if Acceptable(r) {
      var k, vs :| 0 <= k <= |r| && Carries(r[..k], vs) && Unfinished(r[k..]);
      CarriesMore(s, n, k, vs);
      assert s[n + k..] == r[k..];
    }
  }

  lemma AcceptableTail(s: seq<Byte>, k: nat, vs: seq<nat>)
    requires s != [] && NextChar(s).Char? && k <= |s| && Carries(s[..k], vs) && Unfinished(s[k..])
    ensures 1 <= NextChar(s).n <= |s| && Acceptable(s[NextChar(s).n..])
  {
    hide NextChar, WellFormed, Value, Unfinished;
    CharIsPrefix(s);
    var n := NextChar(s).n;
    if vs == [] {
      assert s[k..] == s;
      UnfinishedIsCut(s);
      assert false;
    } else {
      var m :| 1 <= m <= k && WellFormed(s[..k][..m]) && Value(s[..k][..m]) == vs[0] && Carries(s[..k][m..], vs[1..]);
      assert s[..k][..m] == s[..m];
      OnlyPrefix(s, m);
      assert s[..k][m..] == s[n..][..k - n] && s[k..] == s[n..][k - n..];
    }
  }

  lemma CarriesMore(s: seq<Byte>, n: nat, k: nat, vs: seq<nat>)
    requires 1 <= n && n + k <= |s| && WellFormed(s[..n]) && Carries(s[n..][..k], vs)
    ensures Carries(s[..n + k], [Value(s[..n])] + vs)
  {
    var a := s[..n + k];
    assert a[..n] == s[..n] && a[n..] == s[n..][..k];
    assert ([Value(s[..n])] + vs)[1..] == vs;
  }

  lemma NonEmpty(c: seq<Byte>)
    requires WellFormed(c)
    ensures 1 <= |c| <= 4
  {
  }

  /** One more character at the end. */
  lemma {:induction false} CarriesSnoc(a: seq<Byte>, vs: seq<nat>, c: seq<Byte>)
    requires Carries(a, vs) && WellFormed(c)
    ensures Carries(a + c, vs + [Value(c)])
    decreases |vs|
  {
    hide WellFormed, Value;
    NonEmpty(c);
    if vs == [] {
      assert a + c == c && c[..|c|] == c && c[|c|..] == [];
      assert ([] + [Value(c)])[1..] == [];
    } else {
      var n :| 1 <= n <= |a| && WellFormed(a[..n]) && Value(a[..n]) == vs[0] && Carries(a[n..], vs[1..]);
      CarriesSnoc(a[n..], vs[1..], c);
      assert (a + c)[..n] == a[..n] && (a + c)[n..] == a[n..] + c;
      assert (vs + [Value(c)])[1..] == vs[1..] + [Value(c)];
    }
  }

  /** The numbers carried are determined by the bytes. */
  lemma {:induction false} CarriesUnique(s: seq<Byte>, vs: seq<nat>, ws: seq<nat>)
    requires Carries(s, vs) && Carries(s, ws)
    ensures vs == ws
    decreases |vs|
  {
    if vs != [] && ws != [] {
      var n :| 1 <= n <= |s| && WellFormed(s[..n]) && Value(s[..n]) == vs[0] && Carries(s[n..], vs[1..]);
      var m :| 1 <= m <= |s| && WellFormed(s[..m]) && Value(s[..m]) == ws[0] && Carries(s[m..], ws[1..]);
      OnlyPrefix(s, n);
      OnlyPrefix(s, m);
      CarriesUnique(s[n..], vs[1..], ws[1..]);
      assert vs == [vs[0]] + vs[1..] && ws == [ws[0]] + ws[1..];
    }
  }
}
