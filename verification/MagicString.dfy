/** Strings of magic files: printed with escapes, and read back. */
module MagicString {
  import opened Bytes

  /** Bytes a value can hold, with the NUL after them. */
  const ROOM: nat := 128

  const BACKSLASH: Byte := 92

  predicate Space(c: Byte) { c == 32 || 9 <= c <= 13 }

  predicate Octal(c: Byte) { 48 <= c <= 55 }

  /** The value of a hexadecimal digit, or -1. */
  function Hex(c: Byte): int {
    if 48 <= c <= 57 then c - 48
    else if 97 <= c <= 102 then c + 10 - 97
    else if 65 <= c <= 70 then c + 10 - 65
    else -1
  }

  /** The letter that stands for a control character, or 0. */
  function Letter(c: Byte): Byte {
    match c
    case 7 => 97
    case 8 => 98
    case 12 => 102
    case 10 => 110
    case 13 => 114
    case 9 => 116
    case 11 => 118
    case _ => 0
  }

  /** The control character a letter stands for, or the letter itself. */
  function Control(c: Byte): Byte {
    match c
    case 97 => 7
    case 98 => 8
    case 102 => 12
    case 110 => 10
    case 114 => 13
    case 116 => 9
    case 118 => 11
    case _ => c
  }

  /** One byte as it is printed: as it is, as a letter, or as three octal digits. */
  function Shown(c: Byte): (s: seq<Byte>)
    ensures s != []
  {
    if 32 <= c <= 126 then [c]
    else if Letter(c) != 0 then [BACKSLASH, Letter(c)]
    else [BACKSLASH, 48 + c / 64, 48 + c / 8 % 8, 48 + c % 8]
  }

  function Show(w: seq<Byte>): seq<Byte> {
    if w == [] then [] else Shown(w[0]) + Show(w[1..])
  }

  function Digit(c: Byte): int
    requires Octal(c)
  {
    c - 48
  }

  /** The byte an escape stands for, and how many characters after the backslash it takes. */
  function Escape(s: seq<Byte>): (r: (Byte, nat))
    requires s != []
    ensures 1 <= r.1 <= |s|
  {
    var c := s[0];
    if Octal(c) then
      if |s| > 1 && Octal(s[1]) then
        if |s| > 2 && Octal(s[2]) then ((Digit(c) * 64 + Digit(s[1]) * 8 + Digit(s[2])) % 256, 3)
        else (Digit(c) * 8 + Digit(s[1]), 2)
      else (Digit(c), 1)
    else if c == 120 then
      if |s| > 1 && Hex(s[1]) >= 0 then
        if |s| > 2 && Hex(s[2]) >= 0 then ((Hex(s[1]) * 16 + Hex(s[2])) % 256, 3) else (Hex(s[1]), 2)
      else (120, 1)
    else (Control(c), 1)
  }

  /** Where a value ends: at the end of the line, a NUL, or a space. */
  predicate Stops(s: seq<Byte>) { s == [] || s[0] == 0 || Space(s[0]) }

  /** The value at the start of `s` and what follows it, `n` bytes having been stored before. */
  function Read(s: seq<Byte>, n: nat): Option<(seq<Byte>, seq<Byte>)>
    decreases |s|
  {
    if Stops(s) then Some(([], s))
    else if n >= ROOM - 1 then None
    else if s[0] != BACKSLASH then Put(s[0], Read(s[1..], n + 1))
    else if |s| == 1 || s[1] == 0 then Some(([], s[1..]))
    else
      var (b, k) := Escape(s[1..]);
      Put(b, Read(s[1 + k..], n + 1))
  }

  function Put(b: Byte, r: Option<(seq<Byte>, seq<Byte>)>): Option<(seq<Byte>, seq<Byte>)> {
    match r
    case None => None
    case Some((w, t)) => Some(([b] + w, t))
  }

  /** Neither a space nor a backslash, which are printed as they are. */
  predicate Plain(w: seq<Byte>) { forall i | 0 <= i < |w| :: w[i] != 32 && w[i] != BACKSLASH }

  lemma OctalDigits(c: Byte)
    ensures var a, b, d := c / 64, c / 8 % 8, c % 8; a < 8 && b < 8 && d < 8 && a * 64 + b * 8 + d == c
  {
  }

  /** A byte is read back from what is printed for it, whatever comes next. */
  lemma ByteRead(c: Byte, t: seq<Byte>, n: nat)
    requires c != 32 && c != BACKSLASH && n < ROOM - 1
    ensures Read(Shown(c) + t, n) == Put(c, Read(t, n + 1))
  {
    var s := Shown(c) + t;
    if 32 <= c <= 126 {
      assert s[1..] == t;
    } else if Letter(c) != 0 {
      assert s[1..] == [Letter(c)] + t && s[2..] == t;
      assert Escape(s[1..]) == (c, 1);
    } else {
      OctalDigits(c);
      var digits := [48 + c / 64, 48 + c / 8 % 8, 48 + c % 8];
      assert s[1..] == digits + t && s[4..] == t;
      assert Escape(s[1..]) == (c, 3);
    }
  }

  // ----- the other spellings of a byte -----

  const LETTERS: seq<Byte> := [97, 98, 102, 110, 114, 116, 118]
  const CONTROLS: seq<Byte> := [7, 8, 12, 10, 13, 9, 11]

  /** A digit below 16, its letter in upper or lower case. */
  function HexDigit(v: nat, upper: bool): Byte
    requires v < 16
  {
    if v < 10 then 48 + v else if upper then 55 + v else 87 + v
  }

  predicate IsHexDigit(c: Byte) { 48 <= c <= 57 || 65 <= c <= 70 || 97 <= c <= 102 }

  /** What may stand behind a backslash: a letter for a control character, digits in base 8 or 16, or a byte itself. */
  datatype Spelling =
    | Itself(c: Byte)
    | ControlLetter(k: nat)
    | Octal1(a: nat)
    | Octal2(a: nat, b: nat)
    | Octal3(a: nat, b: nat, d: nat)
    | NoHex
    | Hex1(a: nat, upperA: bool)
    | Hex2(a: nat, upperA: bool, b: nat, upperB: bool)

  predicate Legal(x: Spelling) {
    match x
    case Itself(c) => c != 0 && c != 120 && !(48 <= c <= 55) && c !in LETTERS
    case ControlLetter(k) => k < 7
    case Octal1(a) => a < 8
    case Octal2(a, b) => a < 8 && b < 8
    case Octal3(a, b, d) => a < 8 && b < 8 && d < 8
    case NoHex => true
    case Hex1(a, _) => a < 16
    case Hex2(a, _, b, _) => a < 16 && b < 16
  }

  function Spelled(x: Spelling): (s: seq<Byte>)
    requires Legal(x)
    ensures 1 <= |s| <= 3 && s[0] != 0
  {
    match x
    case Itself(c) => [c]
    case ControlLetter(k) => [LETTERS[k]]
    case Octal1(a) => [48 + a]
    case Octal2(a, b) => [48 + a, 48 + b]
    case Octal3(a, b, d) => [48 + a, 48 + b, 48 + d]
    case NoHex => [120]
    case Hex1(a, upperA) => [120, HexDigit(a, upperA)]
    case Hex2(a, upperA, b, upperB) => [120, HexDigit(a, upperA), HexDigit(b, upperB)]
  }

  /** The byte meant; three octal digits can name more than a byte, of which the low eight bits are kept. */
  function Meant(x: Spelling): Byte
    requires Legal(x)
  {
    match x
    case Itself(c) => c
    case ControlLetter(k) => CONTROLS[k]
    case Octal1(a) => a
    case Octal2(a, b) => 8 * a + b
    case Octal3(a, b, d) => (64 * a + 8 * b + d) % 256
    case NoHex => 120
    case Hex1(a, _) => a
    case Hex2(a, _, b, _) => 16 * a + b
  }

  /** Fewer digits than there may be are followed by something that is not a digit. */
  predicate Complete(x: Spelling, t: seq<Byte>) {
    match x
    case Octal1(_) => t == [] || !(48 <= t[0] <= 55)
    case Octal2(_, _) => t == [] || !(48 <= t[0] <= 55)
    case NoHex => t == [] || !IsHexDigit(t[0])
    case Hex1(_, _) => t == [] || !IsHexDigit(t[0])
    case _ => true
  }

  lemma HexValue(v: nat, upper: bool)
    requires v < 16
    ensures Hex(HexDigit(v, upper)) == v && IsHexDigit(HexDigit(v, upper)) && HexDigit(v, upper) != 0
  {
  }

  /** Every spelling is read as the byte it means, whatever comes next. */
  lemma SpellingRead(x: Spelling, t: seq<Byte>, n: nat)
    requires Legal(x) && Complete(x, t) && n < ROOM - 1
    ensures Read([BACKSLASH] + Spelled(x) + t, n) == Put(Meant(x), Read(t, n + 1))
  {
    var s := [BACKSLASH] + Spelled(x) + t;
    var k := |Spelled(x)|;
    assert s[1..] == Spelled(x) + t && s[1..][0] == Spelled(x)[0] && s[1 + k..] == t;
    SpellingEscape(x, t);
  }

  lemma SpellingEscape(x: Spelling, t: seq<Byte>)
    requires Legal(x) && Complete(x, t)
    ensures Escape(Spelled(x) + t) == (Meant(x), |Spelled(x)|)
  {
    var s := Spelled(x) + t;
    assert forall i | 0 <= i < |Spelled(x)| :: s[i] == Spelled(x)[i];
    assert t != [] ==> s[|Spelled(x)|] == t[0];
    if x.Hex1? || x.Hex2? { HexValue(x.a, x.upperA); }
    if x.Hex2? { HexValue(x.b, x.upperB); }
  }

  /** Each byte is read back from its two hexadecimal digits, in either case. */
  lemma HexRead(c: Byte, upperA: bool, upperB: bool, t: seq<Byte>, n: nat)
    requires n < ROOM - 1
    ensures Read([BACKSLASH, 120, HexDigit(c / 16, upperA), HexDigit(c % 16, upperB)] + t, n) == Put(c, Read(t, n + 1))
  {
    hide Read;
    var x := Hex2(c / 16, upperA, c % 16, upperB);
    assert [BACKSLASH] + Spelled(x) == [BACKSLASH, 120, HexDigit(c / 16, upperA), HexDigit(c % 16, upperB)];
    SpellingRead(x, t, n);
  }

  /** A space or a backslash written with a backslash before it stands for itself. */
  lemma SpaceRead(c: Byte, t: seq<Byte>, n: nat)
    requires (c == 32 || c == BACKSLASH) && n < ROOM - 1
    ensures Read([BACKSLASH, c] + t, n) == Put(c, Read(t, n + 1))
  {
    hide Read;
    assert [BACKSLASH] + Spelled(Itself(c)) == [BACKSLASH, c];
    SpellingRead(Itself(c), t, n);
  }

  /** The number that an octal digit or a hexadecimal one stands for. */
  lemma DigitOf(c: Byte) returns (v: nat, upper: bool)
    requires IsHexDigit(c)
    ensures v < 16 && c == HexDigit(v, upper)
  {
    upper := 65 <= c <= 70;
    v := if c <= 57 then c - 48 else if upper then c - 55 else c - 87;
  }

  lemma LetterOf(c: Byte) returns (k: nat)
    requires c in LETTERS
    ensures k < 7 && c == LETTERS[k]
  {
    k :| k < |LETTERS| && LETTERS[k] == c;
  }

  /** There are no others: whatever stands behind a backslash, short of the end, is one of these spellings. */
  lemma EverySpelling(s: seq<Byte>) returns (x: Spelling)
    requires s != [] && s[0] != 0
    ensures Legal(x) && Spelled(x) <= s && Complete(x, s[|Spelled(x)|..])
  {
    var c := s[0];
    if 48 <= c <= 55 {
      if |s| > 1 && 48 <= s[1] <= 55 {
        if |s| > 2 && 48 <= s[2] <= 55 {
          x := Octal3(c - 48, s[1] - 48, s[2] - 48);
        } else {
          x := Octal2(c - 48, s[1] - 48);
        }
      } else {
        x := Octal1(c - 48);
      }
    } else if c == 120 {
      x := NoHex;
      if |s| > 1 && IsHexDigit(s[1]) {
        var a, upperA := DigitOf(s[1]);
        x := Hex1(a, upperA);
        if |s| > 2 && IsHexDigit(s[2]) {
          var b, upperB := DigitOf(s[2]);
          x := Hex2(a, upperA, b, upperB);
        }
      }
    } else if c in LETTERS {
      var k := LetterOf(c);
      x := ControlLetter(k);
    } else {
      x := Itself(c);
    }
  }

  /** At the limit every further byte is too much. */
  lemma FullRead(c: Byte, t: seq<Byte>, n: nat)
    requires c != 32 && n >= ROOM - 1
    ensures Read(Shown(c) + t, n) == None
  {
    assert (Shown(c) + t)[0] == Shown(c)[0];
  }

  /**
   * Reading what was printed gives the string back and stops behind it, exactly when it fits: a string without
   * spaces and backslashes, followed by something a value stops at.
   */
  lemma {:induction false} ShownIsRead(w: seq<Byte>, t: seq<Byte>, n: nat)
    requires Plain(w) && Stops(t) && n <= ROOM - 1
    ensures Read(Show(w) + t, n) == if n + |w| <= ROOM - 1 then Some((w, t)) else None
    decreases |w|
  {
    hide Shown, Escape;
    if w == [] {
      assert Show(w) + t == t;
    } else {
      assert Show(w) + t == Shown(w[0]) + (Show(w[1..]) + t);
      if n < ROOM - 1 {
        ByteRead(w[0], Show(w[1..]) + t, n);
        ShownIsRead(w[1..], t, n + 1);
        assert [w[0]] + w[1..] == w;
      } else {
        FullRead(w[0], Show(w[1..]) + t, n);
      }
    }
  }

  /** A space ends the value early, so what is read is only what came before it. */
  lemma SpaceCutsShort(w: seq<Byte>, x: seq<Byte>, t: seq<Byte>)
    requires Plain(w) && |w| <= ROOM - 1
    ensures Read(Show(w) + ([32] + x + t), 0) == Some((w, [32] + x + t))
  {
    ShownIsRead(w, [32] + x + t, 0);
  }

  /** file_showstr for a string of known length. */
  method ShowString(w: seq<Byte>) returns (out: seq<Byte>)
    ensures out == Show(w)
  {
    hide Show;
    out := [];
    var i := 0;
    assert w[0..] == w;
    while i < |w|
      invariant 0 <= i <= |w| && out + Show(w[i..]) == Show(w)
    {
      var c := w[i];
      ShowOne(w, i, out);
      if 32 <= c <= 126 {
        out := out + [c];
      } else if Letter(c) != 0 {
        out := out + [BACKSLASH, Letter(c)];
      } else {
        out := out + [BACKSLASH, 48 + c / 64, 48 + c / 8 % 8, 48 + c % 8];
      }
      i := i + 1;
    }
    assert w[i..] == [] && Show([]) == [] by { ShowNone(); }
    assert out + [] == out;
  }

  lemma ShowOne(w: seq<Byte>, i: nat, out: seq<Byte>)
    requires i < |w|
    ensures out + Show(w[i..]) == (out + Shown(w[i])) + Show(w[i + 1..])
  {
    hide Shown;
    assert w[i..][1..] == w[i + 1..];
  }

  lemma ShowNone()
    ensures Show([]) == []
  {
  }

  /** getstr, for values other than Pascal strings: fills `value` and reports its length and the place behind. */
  method GetString(s: seq<Byte>, value: array<Byte>) returns (ok: bool, len: nat, at: nat)
    requires value.Length == ROOM
    modifies value
    ensures match Read(s, 0)
            case None => !ok
            case Some((w, t)) =>
              && ok && len == |w| < ROOM && value[..len] == w && value[len] == 0
              && at <= |s| && s[at..] == t
  {
    hide Escape;
    len, at := 0, 0;
    assert s[0..] == s;
    ghost var goal := Read(s, 0);
    assert value[..0] == [];
    if goal.Some? { assert [] + goal.value.0 == goal.value.0; }
    while at < |s| && s[at] != 0 && !Space(s[at])
      invariant at <= |s| && len < ROOM
      invariant goal == match Read(s[at..], len) case None => None case Some((w, t)) => Some((value[..len] + w, t))
      decreases |s| - at
    {
      if len >= ROOM - 1 {
        return false, len, at;
      }
      ghost var before := value[..len];
      ghost var rest := s[at..];
      var b: Byte;
      if s[at] != BACKSLASH {
        b := s[at];
        assert rest[1..] == s[at + 1..];
        at := at + 1;
      } else if at + 1 == |s| || s[at + 1] == 0 {
        assert rest[1..] == s[at + 1..];
        at := at + 1;
        break;
      } else {
        var e := Escape(s[at + 1..]);
        assert rest[1..] == s[at + 1..] && rest[1 + e.1..] == s[at + 1 + e.1..];
        b := e.0;
        at := at + 1 + e.1;
      }
      value[len] := b;
      len := len + 1;
      assert value[..len] == before + [b];
      ReadOn(before, b, Read(s[at..], len));
    }
    assert value[..len] + [] == value[..len];
    value[len] := 0;
    ok := true;
  }

  lemma ReadOn(before: seq<Byte>, b: Byte, r: Option<(seq<Byte>, seq<Byte>)>)
    ensures r.Some? ==> before + ([b] + r.value.0) == (before + [b]) + r.value.0
  {
  }
}
