/** The recursive descent over JSON text, by positions. None stands for every failure. */
module JsonParse {
  import opened Bytes
  import opened Json

  const MAX_LEVEL: nat := 500

  function Skip(t: seq<Byte>, p: nat): (q: nat)
    requires p <= |t|
    ensures p <= q <= |t|
    ensures q < |t| ==> !Space(t[q])
    ensures Blank(t[p..q])
    decreases |t| - p
  {
    if p < |t| && Space(t[p]) then Skip(t, p + 1) else p
  }

  function SkipDigits(t: seq<Byte>, p: nat): (q: nat)
    requires p <= |t|
    ensures p <= q <= |t|
    ensures q < |t| ==> !Digit(t[q])
    ensures Digits(t[p..q])
    decreases |t| - p
  {
    if p < |t| && Digit(t[p]) then SkipDigits(t, p + 1) else p
  }

  /** The end of the string whose opening quote comes right before `p`. */
  function StringEnd(t: seq<Byte>, p: nat): (r: Option<nat>)
    requires p <= |t|
    ensures r.Some? ==> p < r.value <= |t|
    decreases |t| - p
  {
    if p == |t| || t[p] == 0 then None
    else if t[p] == QUOTE then Some(p + 1)
    else if t[p] != BACKSLASH then StringEnd(t, p + 1)
    else if p + 1 == |t| then None
    else if Escapable(t[p + 1]) then StringEnd(t, p + 2)
    else if t[p + 1] != LETTER_U || |t| - (p + 2) < 4 then None
    else if Hex(t[p + 2]) && Hex(t[p + 3]) && Hex(t[p + 4]) && Hex(t[p + 5]) then StringEnd(t, p + 6)
    else None
  }

  /** The end of the number that starts at `p`. */
  function NumberEnd(t: seq<Byte>, p: nat): (r: Option<nat>)
    requires p < |t|
    ensures r.Some? ==> p < r.value <= |t|
  {
    var a := if t[p] == MINUS then p + 1 else p;
    var b := SkipDigits(t, a);
    if b == |t| then (if b > a then Some(b) else None)
    else
      var c := if t[b] == DOT then b + 1 else b;
      var d := SkipDigits(t, c);
      if !(b > a || d > c) then None
      else if d == |t| || !Exponent(t[d]) then Some(d)
      else if d + 1 == |t| then None
      else
        var f := if t[d + 1] == PLUS || t[d + 1] == MINUS then d + 2 else d + 1;
        var g := SkipDigits(t, f);
        if g > f then Some(g) else None
  }

  /** The end of a literal whose first letter comes right before `p`: the end of the data cuts it short. */
  function WordEnd(t: seq<Byte>, p: nat, tail: seq<Byte>): (r: Option<nat>)
    requires p <= |t|
    ensures r.Some? ==> p <= r.value <= |t|
  {
    if p + |tail| <= |t| then (if t[p..p + |tail|] == tail then Some(p + |tail|) else None)
    else if t[p..] == tail[..|t| - p] then Some(|t|)
    else None
  }

  type Parsed = Option<(nat, Counts)>

  predicate Advances(t: seq<Byte>, p: nat, r: Parsed) { r.Some? ==> p <= r.value.0 <= |t| }

  /** A value with the blanks around it. */
  function Parse(t: seq<Byte>, p: nat, st: Counts, lvl: nat): (r: Parsed)
    requires p <= |t|
    ensures Advances(t, p, r)
    decreases |t| - p, 2
  {
    var q := Skip(t, p);
    if q == |t| || lvl > MAX_LEVEL then None
    else
      match Body(t, q, st, lvl)
      case None => None
      case Some((e, c)) => Some((Skip(t, e), c))
  }

  function Body(t: seq<Byte>, q: nat, st: Counts, lvl: nat): (r: Parsed)
    requires q < |t|
    ensures Advances(t, q, r)
    decreases |t| - q, 1
  {
    var b := t[q];
    if b == QUOTE then
      match StringEnd(t, q + 1) case None => None case Some(e) => Some((e, st.(strings := st.strings + 1)))
    else if b == OPEN_ARRAY then
      match ArrayFrom(t, q + 1, st, lvl + 1)
      case None => None
      case Some((e, c)) => Some((e, c.(arrays := c.arrays + 1)))
    else if b == OPEN_OBJECT then
      match ObjectFrom(t, q + 1, st, lvl + 1)
      case None => None
      case Some((e, c)) => Some((e, c.(objects := c.objects + 1)))
    else if b == WordHead(True) then Counted(WordEnd(t, q + 1, WordTail(True)), st)
    else if b == WordHead(False) then Counted(WordEnd(t, q + 1, WordTail(False)), st)
    else if b == WordHead(Null) then Counted(WordEnd(t, q + 1, WordTail(Null)), st)
    else
      match NumberEnd(t, q) case None => None case Some(e) => Some((e, st.(numbers := st.numbers + 1)))
  }

  function Counted(end: Option<nat>, st: Counts): Parsed {
    match end case None => None case Some(e) => Some((e, st.(words := st.words + 1)))
  }

  /** One more well-closed array. */
  function Closing(c: Counts): Counts { c.(closed := c.closed + 1) }

  /** The items of an array from after its bracket or a comma. */
  function ArrayFrom(t: seq<Byte>, p: nat, st: Counts, lvl: nat): (r: Parsed)
    requires p <= |t|
    ensures Advances(t, p, r)
    decreases |t| - p, 3
  {
    var q := Skip(t, p);
    if q == |t| then None
    else if t[q] == CLOSE_ARRAY then Some((q + 1, Closing(st)))
    else
      match Parse(t, q, st, lvl + 1)
      case None => None
      case Some((e, c)) =>
        if e == |t| then None
        else if t[e] == COMMA then ArrayFrom(t, e + 1, c, lvl)
        else if t[e] == CLOSE_ARRAY then Some((e + 1, Closing(c)))
        else None
  }

  /** The members of an object from after its brace or a comma. */
  function ObjectFrom(t: seq<Byte>, p: nat, st: Counts, lvl: nat): (r: Parsed)
    requires p <= |t|
    ensures Advances(t, p, r)
    decreases |t| - p, 3
  {
    var q := Skip(t, p);
    if q == |t| then None
    else if t[q] == CLOSE_OBJECT then Some((q + 1, st))
    else if t[q] != QUOTE then None
    else
      match KeyEnd(t, q + 1)
      case None => None
      case Some(k) =>
        match Parse(t, k, st, lvl + 1)
        case None => None
        case Some((e, c)) =>
          if e == |t| then None
          else if t[e] == COMMA then ObjectFrom(t, e + 1, c, lvl)
          else if t[e] == CLOSE_OBJECT then Some((e + 1, c))
          else None
  }

  /** Past the colon after the key whose opening quote comes right before `p`. */
  function KeyEnd(t: seq<Byte>, p: nat): (r: Option<nat>)
    requires p <= |t|
    ensures r.Some? ==> p < r.value <= |t|
  {
    match StringEnd(t, p)
    case None => None
    case Some(e) =>
      var k := Skip(t, e);
      if k == |t| || t[k] != COLON then None else Some(k + 1)
  }

  predicate HasCollection(c: Counts) { c.closed > 0 || c.objects > 0 }

  /** The whole text: 1 for one document, 2 for a document and the start of another of its kind, 0 otherwise. */
  function Whole(t: seq<Byte>): int {
    var q := Skip(t, 0);
    match Parse(t, 0, NONE, 0)
    case None => 0
    case Some((e, c)) =>
      if e == |t| then (if HasCollection(c) then 1 else 0)
      else if t[q] != t[e] then 0
      else
        match Parse(t, e, c, 1)
        case None => 0
        case Some((_, c2)) => if HasCollection(c2) then 2 else 0
  }
}
