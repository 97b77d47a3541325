/** The recursive descent as it runs: cursors that move over the data and an array of counters. */
module JsonParser {
  import opened Bytes
  import opened Json
  import P = JsonParse

  const ARRAY: nat := 0
  const CONSTANT: nat := 1
  const NUMBER: nat := 2
  const OBJECT: nat := 3
  const STRING: nat := 4
  const ARRAYN: nat := 5

  /** What the counters hold. */
  ghost function CountsOf(st: array<nat>): Counts
    requires st.Length == 6
    reads st
  {
    Counts(st[ARRAY], st[CONSTANT], st[NUMBER], st[OBJECT], st[STRING], st[ARRAYN])
  }

  method SkipSpace(t: seq<Byte>, p: nat) returns (q: nat)
    requires p <= |t|
    ensures q == P.Skip(t, p)
  {
    q := p;
    while q < |t| && Space(t[q])
      invariant p <= q <= |t| && P.Skip(t, p) == P.Skip(t, q)
    {
      q := q + 1;
    }
  }

  method SkipDigits(t: seq<Byte>, p: nat) returns (q: nat)
    requires p <= |t|
    ensures q == P.SkipDigits(t, p)
  {
    q := p;
    while q < |t| && Digit(t[q])
      invariant p <= q <= |t| && P.SkipDigits(t, p) == P.SkipDigits(t, q)
    {
      q := q + 1;
    }
  }

  method ParseString(t: seq<Byte>, p: nat) returns (ok: bool, q: nat)
    requires p <= |t|
    ensures P.StringEnd(t, p) == if ok then Some(q) else None
  {
    q := p;
    while q < |t|
      invariant p <= q <= |t| && P.StringEnd(t, p) == P.StringEnd(t, q)
    {
      var b := t[q];
      q := q + 1;
      if b == 0 {
        return false, q;
      }
      if b == QUOTE {
        return true, q;
      }
      if b == BACKSLASH {
        if q == |t| {
          return false, q;
        }
        var c := t[q];
        q := q + 1;
        if c == LETTER_U {
          if |t| - q < 4 {
            return false, |t|;
          }
          var i := 0;
          ghost var at := q;
          while i < 4
            invariant 0 <= i <= 4 && q == at + i
            invariant forall k | at <= k < q :: Hex(t[k])
          {
            var x := t[q];
            q := q + 1;
            if !Hex(x) {
              return false, q;
            }
            i := i + 1;
          }
        } else if !Escapable(c) {
          return false, q;
        }
      }
    }
    ok := false;
  }

  method ParseNumber(t: seq<Byte>, p: nat) returns (ok: bool, q: nat)
    requires p < |t|
    ensures P.NumberEnd(t, p) == if ok then Some(q) else None
  {
    q := p;
    var got := false;
    if t[q] == MINUS {
      q := q + 1;
    }
    var start := q;
    q := SkipDigits(t, q);
    got := q > start;
    if q == |t| {
      return got, q;
    }
    if t[q] == DOT {
      q := q + 1;
    }
    start := q;
    q := SkipDigits(t, q);
    got := got || q > start;
    if q == |t| {
      return got, q;
    }
    if got && Exponent(t[q]) {
      q := q + 1;
      if q == |t| {
        return false, q;
      }
      if t[q] == PLUS || t[q] == MINUS {
        q := q + 1;
      }
      start := q;
      q := SkipDigits(t, q);
      got := q > start;
    }
    ok := got;
  }

  /** The cursor moves on by the length of the literal first; the letters are compared as far as there are any. */
  method ParseConst(t: seq<Byte>, p: nat, tail: seq<Byte>) returns (ok: bool, q: nat)
    requires p <= |t|
    ensures P.WordEnd(t, p, tail) == if ok then Some(q) else None
  {
    q := if p + |tail| > |t| then |t| else p + |tail|;
    var u, i := p, 0;
    while u < |t| && i < |tail|
      invariant 0 <= i <= |tail| && u == p + i <= |t|
      invariant t[p..u] == tail[..i]
    {
      if t[u] != tail[i] {
        assert t[p..q][i] != tail[..q - p][i];
        return false, q;
      }
      assert t[p..u + 1] == t[p..u] + [t[u]] && tail[..i + 1] == tail[..i] + [tail[i]];
      u, i := u + 1, i + 1;
    }
    assert u == q && t[p..q] == tail[..q - p];
    assert tail[..|tail|] == tail && t[p..|t|] == t[p..];
    ok := true;
  }

  method CloseArray(st: array<nat>)
    requires st.Length == 6
    modifies st
    ensures CountsOf(st) == P.Closing(old(CountsOf(st)))
  {
    st[ARRAYN] := st[ARRAYN] + 1;
  }

  method ParseArray(t: seq<Byte>, p: nat, st: array<nat>, lvl: nat) returns (ok: bool, q: nat)
    requires p <= |t| && st.Length == 6
    modifies st
    ensures P.ArrayFrom(t, p, old(CountsOf(st)), lvl) == if ok then Some((q, CountsOf(st))) else None
    decreases |t| - p, 3
  {
    hide P.Parse, P.Skip, P.Closing, P.KeyEnd, P.StringEnd, CountsOf;
    q := p;
    ghost var goal := P.ArrayFrom(t, p, CountsOf(st), lvl);
    while q < |t|
      invariant p <= q <= |t| && goal == P.ArrayFrom(t, q, CountsOf(st), lvl)
    {
      q := SkipSpace(t, q);
      if q == |t| {
        return false, q;
      }
      if t[q] == CLOSE_ARRAY {
        CloseArray(st);
        return true, q + 1;
      }
      ok, q := Parse(t, q, st, lvl + 1);
      if !ok {
        return false, q;
      }
      if q == |t| {
        return false, q;
      }
      if t[q] == CLOSE_ARRAY {
        CloseArray(st);
        return true, q + 1;
      }
      if t[q] != COMMA {
        return false, q;
      }
      q := q + 1;
    }
    ok := false;
  }

  /** A key after its opening quote, and the colon after it. */
  method ParseKey(t: seq<Byte>, p: nat) returns (ok: bool, q: nat)
    requires p <= |t|
    ensures P.KeyEnd(t, p) == if ok then Some(q) else None
  {
    ok, q := ParseString(t, p);
    if !ok {
      return false, q;
    }
    q := SkipSpace(t, q);
    if q == |t| || t[q] != COLON {
      return false, q;
    }
    return true, q + 1;
  }

  method ParseObject(t: seq<Byte>, p: nat, st: array<nat>, lvl: nat) returns (ok: bool, q: nat)
    requires p <= |t| && st.Length == 6
    modifies st
    ensures P.ObjectFrom(t, p, old(CountsOf(st)), lvl) == if ok then Some((q, CountsOf(st))) else None
    decreases |t| - p, 3
  {
    hide P.Parse, P.Skip, P.KeyEnd, P.StringEnd, CountsOf;
    q := p;
    ghost var goal := P.ObjectFrom(t, p, CountsOf(st), lvl);
    while q < |t|
      invariant p <= q <= |t| && goal == P.ObjectFrom(t, q, CountsOf(st), lvl)
    {
      q := SkipSpace(t, q);
      if q == |t| {
        return false, q;
      }
      if t[q] == CLOSE_OBJECT {
        return true, q + 1;
      }
      if t[q] != QUOTE {
        return false, q;
      }
      ok, q := ParseKey(t, q + 1);
      if !ok {
        return false, q;
      }
      ok, q := Parse(t, q, st, lvl + 1);
      if !ok || q == |t| {
        return false, q;
      }
      if t[q] == CLOSE_OBJECT {
        return true, q + 1;
      }
      if t[q] != COMMA {
        return false, q;
      }
      q := q + 1;
    }
    ok := false;
  }

  /** A value with the blanks around it; a good one is counted. */
  method Parse(t: seq<Byte>, p: nat, st: array<nat>, lvl: nat) returns (ok: bool, q: nat)
    requires p <= |t| && st.Length == 6
    modifies st
    ensures P.Parse(t, p, old(CountsOf(st)), lvl) == if ok then Some((q, CountsOf(st))) else None
    decreases |t| - p, 2
  {
    hide P.Body, P.Skip, CountsOf;
    q := SkipSpace(t, p);
    if q == |t| {
      return false, q;
    }
    if lvl > P.MAX_LEVEL {
      return false, p;
    }
    ok, q := ParseBody(t, q, st, lvl);
    if ok {
      q := SkipSpace(t, q);
    }
  }

  /** The value that starts at `p`. */
  method ParseBody(t: seq<Byte>, p: nat, st: array<nat>, lvl: nat) returns (ok: bool, q: nat)
    requires p < |t| && st.Length == 6
    modifies st
    ensures P.Body(t, p, old(CountsOf(st)), lvl) == if ok then Some((q, CountsOf(st))) else None
    decreases |t| - p, 1
  {
    hide P.StringEnd, P.ArrayFrom, P.ObjectFrom, P.WordEnd, P.NumberEnd;
    var kind: nat;
    var b := t[p];
    if b == QUOTE {
      ok, q := ParseString(t, p + 1);
      kind := STRING;
    } else if b == OPEN_ARRAY {
      ok, q := ParseArray(t, p + 1, st, lvl + 1);
      kind := ARRAY;
    } else if b == OPEN_OBJECT {
      ok, q := ParseObject(t, p + 1, st, lvl + 1);
      kind := OBJECT;
    } else if b == WordHead(True) {
      ok, q := ParseConst(t, p + 1, WordTail(True));
      kind := CONSTANT;
    } else if b == WordHead(False) {
      ok, q := ParseConst(t, p + 1, WordTail(False));
      kind := CONSTANT;
    } else if b == WordHead(Null) {
      ok, q := ParseConst(t, p + 1, WordTail(Null));
      kind := CONSTANT;
    } else {
      ok, q := ParseNumber(t, p);
      kind := NUMBER;
    }
    if ok {
      st[kind] := st[kind] + 1;
    }
  }

  /** The whole data, from counters at zero. */
  method ParseWhole(t: seq<Byte>, st: array<nat>) returns (r: int)
    requires st.Length == 6 && CountsOf(st) == NONE
    modifies st
    ensures r == P.Whole(t)
    ensures r == 1 ==> P.Parse(t, 0, NONE, 0) == Some((|t|, CountsOf(st)))
  {
    var first := SkipSpace(t, 0);
    var ok, q := Parse(t, 0, st, 0);
    if !ok {
      return 0;
    }
    if q == |t| {
      return if st[ARRAYN] > 0 || st[OBJECT] > 0 then 1 else 0;
    }
    if t[first] != t[q] {
      return 0;
    }
    ok, q := Parse(t, q, st, 1);
    if !ok {
      return 0;
    }
    r := if st[ARRAYN] > 0 || st[OBJECT] > 0 then 2 else 0;
  }
}
