/** file_looks_utf8 with its tables, and encode_utf8: they undo each other. */
module Utf8Codec {
  import opened Bytes
  import opened Utf8

  // ----- the recogniser -----

  /** Characters the text table marks as plain text, among the 7-bit ones. */
  predicate IsText(b: nat) { 7 <= b <= 13 || b == 26 || b == 27 || 32 <= b <= 126 }

  /** Codes of the `first` table: range number in the high half, size in the low half. */
  const XX: Byte := 0xF1
  const AS: Byte := 0xF0

  function First(b: Byte): Byte {
    if b < 0x80 then AS
    else if b < 0xC2 then XX
    else if b < 0xE0 then 0x02
    else if b == 0xE0 then 0x13
    else if b == 0xED then 0x23
    else if b < 0xF0 then 0x03
    else if b == 0xF0 then 0x34
    else if b < 0xF4 then 0x04
    else if b == 0xF4 then 0x44
    else XX
  }

  /** The `accept_ranges` table. */
  function AcceptRange(k: nat): (Byte, Byte) {
    if k == 0 then (0x80, 0xBF)
    else if k == 1 then (0xA0, 0xBF)
    else if k == 2 then (0x80, 0x9F)
    else if k == 3 then (0x90, 0xBF)
    else if k == 4 then (0x80, 0x8F)
    else (0, 0)
  }

  /** The two tables together are the first- and second-byte rules of the standard. */
  lemma TablesAreTheStandard(b: Byte)
    ensures First(b) == XX <==> Announced(b) == 0
    ensures b >= 0x80 && First(b) != XX ==>
      AcceptRange(First(b) / 16) == (SecondLow(b), SecondHigh(b)) && First(b) % 16 == Announced(b)
  {
  }

  predicate Odd(vs: seq<nat>) { exists k :: 0 <= k < |vs| && vs[k] < 0x80 && !IsText(vs[k]) }
  predicate Wide(vs: seq<nat>) { exists k :: 0 <= k < |vs| && vs[k] >= 0x80 }

  lemma VerdictSnoc(vs: seq<nat>, v: nat)
    ensures Odd(vs + [v]) <==> Odd(vs) || (v < 0x80 && !IsText(v))
    ensures Wide(vs + [v]) <==> Wide(vs) || v >= 0x80
  {
    var ws := vs + [v];
    if Odd(vs) { var k :| 0 <= k < |vs| && vs[k] < 0x80 && !IsText(vs[k]); assert ws[k] == vs[k]; }
    if Wide(vs) { var k :| 0 <= k < |vs| && vs[k] >= 0x80; assert ws[k] == vs[k]; }
    assert ws[|vs|] == v;
  }

  datatype Tail = Whole(c: nat) | EndOfData | Bad

  /** The bits a first byte carries. */
  function Lead(b: Byte): nat {
    if b % 64 < 32 then b % 32 else if b % 32 < 16 then b % 16 else b % 8
  }

  /** Those bits and the bits of the next `n` bytes. */
  function Gathered(s: seq<Byte>, n: nat): nat
    requires n < |s|
  {
    if n == 0 then Lead(s[0]) else Gathered(s, n - 1) * 64 + s[n] % 64
  }

  lemma GatheredValue(s: seq<Byte>, n: nat)
    requires s != [] && s[0] >= 0xC0 && n == Announced(s[0]) && 2 <= n <= |s| && Continues(s, n)
    ensures WellFormed(s[..n]) && Value(s[..n]) == Gathered(s, n - 1) >= 0x80
  {
    ContinuesIsWellFormed(s, n);
    var w := s[..n];
    TailBits(w[1]);
    GatheredPrefix(s, n, n - 1);
    match n {
      case 2 => GatheredTwo(w);
      case 3 => GatheredThree(w);
      case _ => GatheredFour(w);
    }
  }

  lemma TailBits(b: Byte)
    ensures IsTail(b) ==> b % 64 == b as int - 0x80
  {
  }

  lemma {:induction false} GatheredPrefix(s: seq<Byte>, n: nat, k: nat)
    requires k < n <= |s|
    ensures Gathered(s[..n], k) == Gathered(s, k)
  {
    if k > 0 { GatheredPrefix(s, n, k - 1); }
  }

  lemma GatheredTwo(w: seq<Byte>)
    requires |w| == 2 && WellFormed(w)
    ensures Value(w) == Gathered(w, 1) >= 0x80
  {
    TailBits(w[1]);
    assert Gathered(w, 1) == Gathered(w, 0) * 64 + w[1] % 64;
  }

  lemma GatheredThree(w: seq<Byte>)
    requires |w| == 3 && WellFormed(w)
    ensures Value(w) == Gathered(w, 2) >= 0x80
  {
    TailBits(w[1]);
    TailBits(w[2]);
    assert Gathered(w, 1) == Gathered(w, 0) * 64 + w[1] % 64;
    assert Gathered(w, 2) == Gathered(w, 1) * 64 + w[2] % 64;
  }

  lemma GatheredFour(w: seq<Byte>)
    requires |w| == 4 && WellFormed(w)
    ensures Value(w) == Gathered(w, 3) >= 0x80
  {
    TailBits(w[1]);
    TailBits(w[2]);
    TailBits(w[3]);
    assert Gathered(w, 1) == Gathered(w, 0) * 64 + w[1] % 64;
    assert Gathered(w, 2) == Gathered(w, 1) * 64 + w[2] % 64;
    assert Gathered(w, 3) == Gathered(w, 2) * 64 + w[3] % 64;
  }

  /** How many bytes follow a first byte. */
  lemma FollowingBytes(b: Byte)
    requires b >= 0xC0 && First(b) != XX
    ensures Announced(b) == 1 + if b % 64 < 32 then 1 else if b % 32 < 16 then 2 else 3
  {
  }

  /** The byte after the first `n` continues the character, or the character is broken. */
  lemma NextByte(s: seq<Byte>, n: nat)
    requires s != [] && 1 <= n < |s| && n < Announced(s[0]) && Continues(s, n)
    ensures var ok := if n == 1 then SecondLow(s[0]) <= s[1] <= SecondHigh(s[0]) else IsTail(s[n]);
            (ok <==> Continues(s, n + 1)) && (!ok ==> NextChar(s) == Broken)
  {
  }

  lemma SecondIsTail(b: Byte, t: Byte)
    requires SecondLow(b) <= t <= SecondHigh(b)
    ensures IsTail(t)
  {
  }

  /** The continuation bytes after a first byte at `i`: the inner loop. */
  method ReadTail(buf: seq<Byte>, i: nat) returns (r: Tail)
    requires i < |buf| && buf[i] >= 0xC0 && First(buf[i]) != XX
    ensures match NextChar(buf[i..])
            case Char(n, v) => r == Whole(v) && n == Announced(buf[i]) && v >= 0x80
            case Cut => r == EndOfData
            case Broken => r == Bad
  {
    hide First, AcceptRange, Announced, WellFormed, Value, SecondLow, SecondHigh, Continues, NextChar;
    var b := buf[i];
    var x := First(b);
    var (lo, hi) := AcceptRange(x / 16);
    TablesAreTheStandard(b);
    FollowingBytes(b);
    var c: nat, following: nat;
    if b % 64 < 32 { c, following := b % 32, 1; }
    else if b % 32 < 16 { c, following := b % 16, 2; }
    else { c, following := b % 8, 3; }
    ghost var s := buf[i..];
    FirstContinues(s);
    for n := 0 to following
      invariant i + n < |buf|
      invariant Continues(s, n + 1)
      invariant c == Gathered(s, n)
    {
      CutShort(s, n + 1);
      if i + n + 1 >= |buf| { return EndOfData; }
      NextByte(s, n + 1);
      var t := buf[i + n + 1];
      assert s[n + 1] == t;
      if n == 0 && (t < lo || t > hi) { return Bad; }
      if n == 0 { SecondIsTail(b, t); }
      if t < 0x80 || t % 128 >= 64 { return Bad; }
      c := c * 64 + t % 64;
    }
    GatheredValue(s, following + 1);
    WholeChar(s);
    r := Whole(c);
  }

  lemma FirstContinues(s: seq<Byte>)
    requires s != []
    ensures Continues(s, 1)
  {
  }

  lemma CutShort(s: seq<Byte>, n: nat)
    requires s != [] && 1 <= n <= |s| && n < Announced(s[0]) && Continues(s, n)
    ensures n == |s| ==> NextChar(s) == Cut
  {
  }

  lemma WholeChar(s: seq<Byte>)
    requires s != [] && 1 <= Announced(s[0]) <= |s| && Continues(s, Announced(s[0]))
    ensures WellFormed(s[..Announced(s[0])])
    ensures NextChar(s) == Char(Announced(s[0]), Value(s[..Announced(s[0])]))
  {
    ContinuesIsWellFormed(s, Announced(s[0]));
  }

  /** What has been decoded, what is left, and what it all means for the verdict. */
  ghost predicate Decoded(buf: seq<Byte>, k: nat, vs: seq<nat>, ctrl: bool, gotone: bool) {
    && k <= |buf| && Carries(buf[..k], vs)
    && ctrl == Odd(vs) && gotone == Wide(vs)
    && (Acceptable(buf) <==> Acceptable(buf[k..]))
  }

  lemma NothingDecoded(buf: seq<Byte>)
    ensures Decoded(buf, 0, [], false, false)
  {
    assert buf[0..] == buf;
  }

  lemma DecodedMore(buf: seq<Byte>, k: nat, vs: seq<nat>, ctrl: bool, gotone: bool)
    requires Decoded(buf, k, vs, ctrl, gotone) && k < |buf| && NextChar(buf[k..]).Char?
    ensures var c := NextChar(buf[k..]);
            Decoded(buf, k + c.n, vs + [c.v], ctrl || (c.v < 0x80 && !IsText(c.v)), gotone || c.v >= 0x80)
  {
    hide NextChar, Carries, Acceptable, Odd, Wide, WellFormed, Value;
    var s := buf[k..];
    var c := NextChar(s);
    CharIsPrefix(s);
    CarriesSnoc(buf[..k], vs, s[..c.n]);
    assert buf[..k] + s[..c.n] == buf[..k + c.n];
    AcceptableRest(s);
    assert s[c.n..] == buf[k + c.n..];
    VerdictSnoc(vs, c.v);
  }

  lemma DecodedEnd(buf: seq<Byte>, k: nat, vs: seq<nat>, ctrl: bool, gotone: bool)
    requires Decoded(buf, k, vs, ctrl, gotone)
    ensures k == |buf| ==> Acceptable(buf) && Unfinished(buf[k..])
    ensures k < |buf| && NextChar(buf[k..]) == Cut ==> Acceptable(buf) && Unfinished(buf[k..])
    ensures k < |buf| && NextChar(buf[k..]) == Broken ==> !Acceptable(buf)
  {
    hide NextChar;
    var s := buf[k..];
    if k < |buf| {
      UnfinishedIsCut(s);
      if NextChar(s) == Broken { BrokenStart(s); }
    }
    if k == |buf| || NextChar(s) == Cut {
      assert s[..0] == [] && s[0..] == s;
      assert Carries(s[..0], []);
    }
  }

  lemma BrokenStart(s: seq<Byte>)
    requires s != [] && NextChar(s) == Broken
    ensures !Acceptable(s)
  {
    hide NextChar, Unfinished;
    if Acceptable(s) {
      var m, ws :| 0 <= m <= |s| && Carries(s[..m], ws) && Unfinished(s[m..]);
      if ws == [] {
        assert s[m..] == s;
        UnfinishedIsCut(s);
        assert false;
      } else {
        var n :| 1 <= n <= m && WellFormed(s[..m][..n]) && Value(s[..m][..n]) == ws[0] && Carries(s[..m][n..], ws[1..]);
        assert s[..m][..n] == s[..n];
        OnlyPrefix(s, n);
        assert false;
      }
    }
  }

  /** The result for data that carries `vs` and then at most an unfinished character. */
  function Verdict(vs: seq<nat>): int
  {
    if Odd(vs) then 0 else if Wide(vs) then 2 else 1
  }

  /**
   file_looks_utf8: -1 exactly when the data is not well-formed UTF-8 up to a cut-off last
   character; otherwise the numbers of the complete characters are in `ubuf`, and the result
   says whether there is an odd control character (0), a character of several bytes (2), or
   neither (1).
   */
  method FileLooksUtf8(buf: seq<Byte>, ubuf: array<nat>) returns (r: int, ulen: nat, ghost vs: seq<nat>, ghost k: nat)
    requires ubuf.Length >= |buf|
    modifies ubuf
    ensures r == -1 <==> !Acceptable(buf)
    ensures r != -1 ==> k <= |buf| && Carries(buf[..k], vs) && Unfinished(buf[k..])
    ensures r != -1 ==> ulen <= ubuf.Length && ubuf[..ulen] == vs && r == Verdict(vs)
  {
    var i := 0;
    var ctrl, gotone := false, false;
    ulen, vs, k := 0, [], 0;
    NothingDecoded(buf);
    while i < |buf|
      invariant Decoded(buf, i, vs, ctrl, gotone)
      invariant ulen == |vs| <= i && ubuf[..ulen] == vs
    {
      DecodedEnd(buf, i, vs, ctrl, gotone);
      var b := buf[i];
      assert buf[i..][0] == b;
      if b < 0x80 {
        AsciiNext(buf[i..]);
        DecodedMore(buf, i, vs, ctrl, gotone);
        if !IsText(b) { ctrl := true; }
        ubuf[ulen] := b;
        ulen, vs, i := ulen + 1, vs + [b], i + 1;
      } else if b < 0xC0 {
        TablesAreTheStandard(b);
        r := -1;
        return;
      } else {
        TablesAreTheStandard(b);
        if First(b) == XX { r := -1; return; }
        var t := ReadTail(buf, i);
        match t {
          case Bad => r := -1; return;
          case EndOfData =>
            k := i;
            r := if ctrl then 0 else if gotone then 2 else 1;
            return;
          case Whole(c) =>
            DecodedMore(buf, i, vs, ctrl, gotone);
            ubuf[ulen] := c;
            gotone := true;
            CharIsPrefix(buf[i..]);
            ulen, vs, i := ulen + 1, vs + [c], i + Announced(b);
        }
      }
    }
    DecodedEnd(buf, i, vs, ctrl, gotone);
    k := i;
    r := if ctrl then 0 else if gotone then 2 else 1;
  }

  lemma AsciiNext(s: seq<Byte>)
    requires s != [] && s[0] < 0x80
    ensures NextChar(s) == Char(1, s[0])
  {
    ContinuesIsWellFormed(s, 1);
  }

  // ----- the encoder -----

  /** 64 to the power `k`: how far right the k-th group of six bits stands. */
  function Place(k: nat): nat
    ensures Place(k) >= 1
  {
    if k == 0 then 1 else if k == 1 then 64 else if k == 2 then 4096
    else if k == 3 then 262144 else if k == 4 then 16777216 else 1073741824
  }

  /** `((v >> 6k) & 0x3f) + 0x80`. */
  function TailByte(v: nat, k: nat): Byte { v / Place(k) % 64 + 0x80 }

  /** The last `n` groups of six bits. */
  function Tails(v: nat, n: nat): seq<Byte> {
    if n == 0 then [] else [TailByte(v, n - 1)] + Tails(v, n - 1)
  }

  /** How many bytes follow the first; encode_utf8 knows forms of up to six bytes. */
  function TailCount(v: nat): nat {
    if v <= 0x7f then 0 else if v <= 0x7ff then 1 else if v <= 0xffff then 2
    else if v <= 0x1fffff then 3 else if v <= 0x3ffffff then 4 else 5
  }

  function FirstByte(v: nat): Byte
    requires v <= 0x7fffffff
  {
    var n := TailCount(v);
    v / Place(n) + (if n == 0 then 0 else if n == 1 then 0xc0 else if n == 2 then 0xe0
                    else if n == 3 then 0xf0 else if n == 4 then 0xf8 else 0xfc)
  }

  /** What encode_utf8 writes for one number. */
  function Encoded(v: nat): (s: seq<Byte>)
    requires v <= 0x7fffffff
    ensures 1 <= |s| <= 6 && |s| == 1 + TailCount(v)
  {
    TailsSize(v, TailCount(v));
    [FirstByte(v)] + Tails(v, TailCount(v))
  }

  lemma TailsSize(v: nat, n: nat)
    ensures |Tails(v, n)| == n
  {
  }

  predicate Encodable(us: seq<nat>) { forall k :: 0 <= k < |us| ==> us[k] <= 0x7fffffff }

  function EncodedAll(us: seq<nat>): seq<Byte>
    requires Encodable(us)
  {
    if us == [] then [] else EncodedAll(us[..|us| - 1]) + Encoded(us[|us| - 1])
  }

  lemma {:induction false} EncodedSize(us: seq<nat>)
    requires Encodable(us)
    ensures |EncodedAll(us)| <= 6 * |us|
  {
    if us != [] { EncodedSize(us[..|us| - 1]); }
  }

  lemma {:induction false} EncodedGrows(us: seq<nat>, i: nat)
    requires Encodable(us) && i <= |us|
    ensures |EncodedAll(us[..i])| <= |EncodedAll(us)|
    decreases |us| - i
  {
    if i < |us| {
      EncodedGrows(us, i + 1);
      assert us[..i + 1][..i] == us[..i];
    } else {
      assert us[..i] == us;
    }
  }

  /** `*buf++ = ...` for a group of six bits, on the way to `goal`. */
  method EmitTail(buf: array<Byte>, at: nat, v: nat, n: nat, ghost goal: seq<Byte>) returns (next: nat)
    requires at < buf.Length && n > 0 && buf[..at] + Tails(v, n) == goal
    modifies buf
    ensures next == at + 1 && buf[..next] + Tails(v, n - 1) == goal
  {
    buf[at] := TailByte(v, n - 1);
    next := at + 1;
    assert buf[..next] == old(buf[..at]) + [TailByte(v, n - 1)];
  }

  /**
   encode_utf8 into the first `len` bytes of `buf`.  Failure means that some number is too
   large for any form or that the bytes do not fit; success leaves exactly the encoding.
   */
  method EncodeUtf8(buf: array<Byte>, len: nat, us: seq<nat>) returns (end: Option<nat>)
    requires len <= buf.Length
    modifies buf
    ensures end.None? <==> !(Encodable(us) && |EncodedAll(us)| <= len)
    ensures end.Some? ==> end.value <= len && buf[..end.value] == EncodedAll(us)
  {
    var at: nat := 0;
    for i := 0 to |us|
      invariant Encodable(us[..i]) && at <= len && buf[..at] == EncodedAll(us[..i])
    {
      var v := us[i];
      if v > 0x7fffffff { return None; }
      PrefixEncodable(us, i);
      assert us[..i + 1][..i] == us[..i] && us[..i + 1][i] == v;
      if at + |Encoded(v)| > len {
        if Encodable(us) { EncodedGrows(us, i + 1); }
        return None;
      }
      at := EncodeOne(buf, at, v);
    }
    assert us[..|us|] == us;
    end := Some(at);
  }

  lemma PrefixEncodable(us: seq<nat>, i: nat)
    requires i < |us| && Encodable(us[..i]) && us[i] <= 0x7fffffff
    ensures Encodable(us[..i + 1])
  {
    assert us[..i + 1] == us[..i] + [us[i]];
  }

  /** The first byte, then the chain of labels out5 to out1: six bits at a time. */
  method EncodeOne(buf: array<Byte>, start: nat, v: nat) returns (at: nat)
    requires v <= 0x7fffffff && start + |Encoded(v)| <= buf.Length
    modifies buf
    ensures at == start + |Encoded(v)| && buf[..at] == old(buf[..start]) + Encoded(v)
  {
    hide Encoded, TailByte, FirstByte;
    ghost var goal := buf[..start] + Encoded(v);
    EncodedIs(v);
    buf[start] := FirstByte(v);
    at := start + 1;
    assert buf[..at] == old(buf[..start]) + [FirstByte(v)];
    assert buf[..at] + Tails(v, TailCount(v)) == goal;
    if v > 0x3ffffff { at := EmitTail(buf, at, v, 5, goal); }
    if v > 0x1fffff { at := EmitTail(buf, at, v, 4, goal); }
    if v > 0xffff { at := EmitTail(buf, at, v, 3, goal); }
    if v > 0x7ff { at := EmitTail(buf, at, v, 2, goal); }
    if v > 0x7f { at := EmitTail(buf, at, v, 1, goal); }
    assert buf[..at] + [] == buf[..at];
  }

  lemma EncodedIs(v: nat)
    requires v <= 0x7fffffff
    ensures Encoded(v) == [FirstByte(v)] + Tails(v, TailCount(v))
  {
  }

  // ----- round trips -----

  /** Splitting off six bits and joining them back. */
  lemma SixBits(v: nat, k: nat)
    requires k < 5
    ensures v / Place(k) / 64 == v / Place(k + 1)
    ensures Join(v / Place(k + 1), TailByte(v, k)) == v / Place(k)
  {
  }

  /** Scalar values and well-formed characters correspond one to one. */
  lemma EncodedIsWellFormed(v: nat)
    requires IsScalar(v)
    ensures WellFormed(Encoded(v)) && Value(Encoded(v)) == v
  {
    var n := TailCount(v);
    TailsAre(v);
    hide TailByte;
    if n == 2 { ThreeBytes(v); } else if n == 3 { FourBytes(v); } else if n == 1 { TwoBytes(v); }
  }

  lemma TailsAre(v: nat)
    ensures Tails(v, 0) == [] && Tails(v, 1) == [TailByte(v, 0)] && Tails(v, 2) == [TailByte(v, 1), TailByte(v, 0)]
    ensures Tails(v, 3) == [TailByte(v, 2), TailByte(v, 1), TailByte(v, 0)]
  {
  }

  lemma TwoBytes(v: nat)
    requires 0x80 <= v <= 0x7ff
    ensures WellFormed(Encoded(v)) && Value(Encoded(v)) == v
  {
    TailsAre(v);
    SixBits(v, 0);
  }

  lemma ThreeBytes(v: nat)
    requires 0x800 <= v <= 0xffff && IsScalar(v)
    ensures WellFormed(Encoded(v)) && Value(Encoded(v)) == v
  {
    TailsAre(v);
    SixBits(v, 0);
    SixBits(v, 1);
  }

  lemma FourBytes(v: nat)
    requires 0x10000 <= v <= 0x10ffff
    ensures WellFormed(Encoded(v)) && Value(Encoded(v)) == v
  {
    TailsAre(v);
    SixBits(v, 0);
    SixBits(v, 1);
    SixBits(v, 2);
  }

  /** Taking apart what was joined. */
  lemma Unjoin(high: nat, tail: Byte)
    requires IsTail(tail)
    ensures Join(high, tail) / 64 == high && Join(high, tail) % 64 + 0x80 == tail
  {
  }

  lemma ValueIsEncoded(s: seq<Byte>)
    requires WellFormed(s)
    ensures IsScalar(Value(s)) && Encoded(Value(s)) == s
  {
    var v := Value(s);
    TailsAre(v);
    if |s| == 2 {
      Unjoin(s[0] as int - 0xC0, s[1]);
    } else if |s| == 3 {
      ValueThree(s);
    } else if |s| == 4 {
      ValueFour(s);
    }
  }

  lemma ValueThree(s: seq<Byte>)
    requires WellFormed(s) && |s| == 3
    ensures IsScalar(Value(s)) && Encoded(Value(s)) == s
  {
    var a := Join(s[0] as int - 0xE0, s[1]);
    var v := Join(a, s[2]);
    Unjoin(s[0] as int - 0xE0, s[1]);
    Unjoin(a, s[2]);
    SixBits(v, 0);
    SixBits(v, 1);
    TailsAre(v);
  }

  lemma ValueFour(s: seq<Byte>)
    requires WellFormed(s) && |s| == 4
    ensures IsScalar(Value(s)) && Encoded(Value(s)) == s
  {
    var a := Join(s[0] as int - 0xF0, s[1]);
    var b := Join(a, s[2]);
    var v := Join(b, s[3]);
    Unjoin(s[0] as int - 0xF0, s[1]);
    Unjoin(a, s[2]);
    Unjoin(b, s[3]);
    SixBits(v, 0);
    SixBits(v, 1);
    SixBits(v, 2);
    TailsAre(v);
  }

  predicate AllScalar(us: seq<nat>) { forall k :: 0 <= k < |us| ==> IsScalar(us[k]) }

  /** Decoding an encoding gives the numbers back. */
  lemma {:induction false} EncodingCarries(us: seq<nat>)
    requires AllScalar(us)
    ensures Encodable(us) && Carries(EncodedAll(us), us)
  {
    if us != [] {
      var n := |us| - 1;
      EncodingCarries(us[..n]);
      EncodedIsWellFormed(us[n]);
      CarriesSnoc(EncodedAll(us[..n]), us[..n], Encoded(us[n]));
      assert us[..n] + [us[n]] == us;
    }
  }

  /** Encoding what was decoded gives the bytes back. */
  lemma {:induction false} DecodingEncodes(s: seq<Byte>, vs: seq<nat>)
    requires Carries(s, vs)
    ensures AllScalar(vs) && Encodable(vs) && EncodedAll(vs) == s
    decreases |vs|
  {
    hide Encoded, WellFormed, Value, IsScalar;
    if vs != [] {
      var n :| 1 <= n <= |s| && WellFormed(s[..n]) && Value(s[..n]) == vs[0] && Carries(s[n..], vs[1..]);
      DecodingEncodes(s[n..], vs[1..]);
      ValueIsEncoded(s[..n]);
      assert vs == [vs[0]] + vs[1..];
      EncodedCons(vs[0], vs[1..]);
      assert s == s[..n] + s[n..];
    }
  }

  lemma {:induction false} EncodedCons(v: nat, us: seq<nat>)
    requires v <= 0x7fffffff && Encodable(us)
    ensures Encodable([v] + us) && EncodedAll([v] + us) == Encoded(v) + EncodedAll(us)
    decreases |us|
  {
    hide Encoded;
    var ws := [v] + us;
    if us == [] {
      assert ws[..0] == [];
      assert EncodedAll(ws) == EncodedAll(ws[..0]) + Encoded(ws[0]);
    } else {
      EncodedCons(v, us[..|us| - 1]);
      assert ws[..|ws| - 1] == [v] + us[..|us| - 1];
    }
  }

  /** Numbers carried by bytes, both ways. */
  lemma CarriesIsEncoding(s: seq<Byte>, vs: seq<nat>)
    ensures Carries(s, vs) <==> AllScalar(vs) && Encodable(vs) && EncodedAll(vs) == s
  {
    if Carries(s, vs) { DecodingEncodes(s, vs); }
    if AllScalar(vs) && Encodable(vs) && EncodedAll(vs) == s { EncodingCarries(vs); }
  }

  /**
   The two together, as the text recogniser uses them: what file_looks_utf8 puts into `ubuf`,
   encode_utf8 turns back into the complete characters of the data, and the 6 bytes a number
   that file_ascmagic allots always suffice.
   */
  method Reencode(buf: seq<Byte>) returns (r: int, utf8: seq<Byte>, ghost k: nat)
    ensures r == -1 <==> !Acceptable(buf)
    ensures r != -1 ==> k <= |buf| && utf8 == buf[..k] && Unfinished(buf[k..])
  {
    var ubuf := new nat[|buf|];
    var ulen;
    ghost var vs;
    r, ulen, vs, k := FileLooksUtf8(buf, ubuf);
    utf8 := [];
    if r != -1 {
      DecodingEncodes(buf[..k], vs);
      EncodedSize(vs);
      var out := new Byte[6 * ulen];
      var end := EncodeUtf8(out, 6 * ulen, ubuf[..ulen]);
      utf8 := out[..end.value];
    }
  }
}
