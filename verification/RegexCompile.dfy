/**
 The one-pass compiler, byte by byte: it appends code, inserts jumps into code already
 emitted, and fills in the jumps at the ends of alternatives when it knows where they
 lead.  Syntax fixed to POSIX extended without REG_NEWLINE; intervals, character classes
 by name and the backslash commands are refused as `Unsupported`.
 */
module RegexCompile {
  import opened Bytes
  import opened Closure
  import opened RegexSyntax
  import RegexNode

  const MAX_BUF_SIZE: nat := 65536
  const MAX_REGNUM: nat := 255

  datatype Error = TrailingBackslash | UnmatchedBracket | InvalidRangeEnd | UnmatchedParen | TooBig | Unsupported

  datatype Result<T> = Ok(value: T) | Err(error: Error)

  /** What is remembered at an open parenthesis. */
  datatype Open = Open(begalt: nat, fixup: Option<nat>, laststart: nat, regnum: nat)

  datatype CState = CState(
    b: seq<Byte>, laststart: Option<nat>, begalt: nat, fixup: Option<nat>, pending: Option<nat>,
    regnum: nat, opens: seq<Open>)

  /** The compiler after some pattern bytes: where it is and what it holds. */
  datatype Place = Place(p: nat, st: CState)

  function Peek(pat: seq<Byte>, p: nat): Byte { if p < |pat| then pat[p] else 0 }

  predicate HasRoom(b: seq<Byte>, n: nat) { |b| + n <= MAX_BUF_SIZE }

  // ----- the buffer -----

  function Insert(b: seq<Byte>, loc: nat, bytes: seq<Byte>): seq<Byte>
    requires loc <= |b|
  {
    b[..loc] + bytes + b[loc..]
  }

  /** Overwrites the bytes at `loc`. */
  function Store(b: seq<Byte>, loc: nat, bytes: seq<Byte>): seq<Byte>
    requires loc + |bytes| <= |b|
  {
    b[..loc] + bytes + b[loc + |bytes|..]
  }

  /** STORE_JUMP at `loc` to `to`. */
  function StoreJump(b: seq<Byte>, op: Byte, loc: nat, to: int): seq<Byte>
    requires loc + 3 <= |b|
  {
    Store(b, loc, RegexNode.Op1(op, to - loc - 3))
  }

  function InsertJump(b: seq<Byte>, op: Byte, loc: nat, to: int): seq<Byte>
    requires loc <= |b|
  {
    Insert(b, loc, RegexNode.Op1(op, to - loc - 3))
  }

  /** The pending jump past the alternatives, if there is one, now leads to `to`. */
  function Patch(b: seq<Byte>, fixup: Option<nat>, to: int): seq<Byte> {
    match fixup
    case None => b
    case Some(loc) => if loc + 3 <= |b| then StoreJump(b, RegexNode.JUMP_PAST_ALT, loc, to) else b
  }

  // ----- literals -----

  predicate StartsRun(st: CState, next: Byte) {
    || st.pending.None?
    || st.pending.value >= |st.b|
    || st.pending.value + st.b[st.pending.value] + 1 != |st.b|
    || st.b[st.pending.value] == 255
    || next in {STAR, HAT, PLUS, QUESTION, LBRACE}
  }

  function NormalChar(st: CState, pat: seq<Byte>, p: nat, c: Byte): Result<Place> {
    if StartsRun(st, Peek(pat, p)) then
      if !HasRoom(st.b, 3) then Err(TooBig)
      else Ok(Place(p, st.(laststart := Some(|st.b|), pending := Some(|st.b| + 1), b := st.b + [RegexNode.EXACTN, 1, c])))
    else if !HasRoom(st.b, 1) then Err(TooBig)
    else
      var q := st.pending.value;
      Ok(Place(p, st.(b := st.b[q := st.b[q] + 1] + [c])))
  }

  // ----- repetition -----

  /** The end of the run of repetition operators at `p`. */
  function OpsEnd(pat: seq<Byte>, p: nat): (e: nat)
    requires p <= |pat|
    ensures p <= e <= |pat|
    decreases |pat| - p
  {
    if p < |pat| && IsOp(pat[p]) then OpsEnd(pat, p + 1) else p
  }

  /** The code of the finished expression wrapped in a repetition. */
  function Repeated(b: seq<Byte>, start: nat, zero: bool, many: bool): seq<Byte>
    requires start <= |b|
  {
    var looped := if many then b + RegexNode.Op1(RegexNode.MAYBE_POP_JUMP, (start - 3) - |b| - 3) else b;
    var guarded := InsertJump(looped, RegexNode.ON_FAILURE_JUMP, start, |looped| + 3);
    if zero then guarded else InsertJump(guarded, RegexNode.DUMMY_FAILURE_JUMP, start, start + 6)
  }

  /** A repetition operator at `p - 1`. */
  function RepeatOp(st: CState, pat: seq<Byte>, p: nat): Result<Place>
    requires 0 < p <= |pat|
  {
    var e := OpsEnd(pat, p);
    var ops := pat[p - 1..e];
    match st.laststart
    case None => Ok(Place(e, st))
    case Some(start) =>
      if start > |st.b| then Err(TooBig)
      else
        var b := Repeated(st.b, start, ZeroOk(ops), ManyOk(ops));
        if |b| > MAX_BUF_SIZE then Err(TooBig)
        else Ok(Place(e, st.(b := b, pending := None)))
  }

  // ----- bracket expressions -----

  /** SET_LIST_BIT. */
  function SetListBit(bits: seq<Byte>, c: Byte): (r: seq<Byte>)
    requires |bits| == 32
    ensures |r| == 32
  {
    SetBitFits(bits[c / 8], c % 8, 8);
    bits[c / 8 := SetBit(bits[c / 8], c % 8)]
  }

  /** The loop of compile_range: all bits from `lo` through `hi`. */
  function SetListRange(bits: seq<Byte>, lo: nat, hi: Byte): (r: seq<Byte>)
    requires |bits| == 32 && lo <= 256
    ensures |r| == 32
    decreases 256 - lo
  {
    if lo > hi then bits else SetListRange(SetListBit(bits, lo), lo + 1, hi)
  }

  datatype Brackets = Brackets(p: nat, bits: seq<Byte>)

  function RangeFrom(bits: seq<Byte>, lo: Byte, pat: seq<Byte>, p: nat): Result<Brackets>
    requires |bits| == 32
  {
    if p >= |pat| then Err(InvalidRangeEnd)
    else if lo > pat[p] then Err(InvalidRangeEnd)
    else Ok(Brackets(p + 1, SetListRange(bits, lo, pat[p])))
  }

  /** A hyphen that does not stand first in the list. */
  predicate HyphenInside(pat: seq<Byte>, p: nat)
    requires 0 < p <= |pat|
  {
    pat[p - 1] != LBRACKET && !(p >= 2 && pat[p - 2] == LBRACKET && pat[p - 1] == HAT)
  }

  /** One element of the list, at `p`; the list began at `first`.  `Ok` with the same map and
      an unmoved position never occurs. */
  function BracketItem(pat: seq<Byte>, p: nat, bits: seq<Byte>): (r: Result<Brackets>)
    requires 0 < p < |pat| && |bits| == 32
    ensures r.Ok? ==> r.value.p > p && r.value.p <= |pat| && |r.value.bits| == 32
  {
    var c := pat[p];
    if c == HYPHEN && HyphenInside(pat, p) && Peek(pat, p + 1) != RBRACKET then
      RangeFrom(bits, pat[p - 1], pat, p + 1)
    else if Peek(pat, p + 1) == HYPHEN && Peek(pat, p + 2) != RBRACKET then
      RangeFrom(bits, c, pat, p + 2)
    else if c == LBRACKET && Peek(pat, p + 1) == COLON then Err(Unsupported)
    else Ok(Brackets(p + 1, SetListBit(bits, c)))
  }

  /** The list up to and including its closing bracket. */
  function BracketList(pat: seq<Byte>, first: nat, p: nat, bits: seq<Byte>): (r: Result<Brackets>)
    requires 0 < p && |bits| == 32
    ensures r.Ok? ==> r.value.p > p && r.value.p <= |pat| && |r.value.bits| == 32
    decreases |pat| - p
  {
    if p >= |pat| then Err(UnmatchedBracket)
    else if pat[p] == RBRACKET && p != first then Ok(Brackets(p + 1, bits))
    else
      match BracketItem(pat, p, bits)
      case Err(e) => Err(e)
      case Ok(next) => BracketList(pat, first, next.p, next.bits)
  }

  /** The bitmap without the zero bytes at its end. */
  function Trim(bits: seq<Byte>): seq<Byte> {
    if bits != [] && bits[|bits| - 1] == 0 then Trim(bits[..|bits| - 1]) else bits
  }

  lemma TrimSize(bits: seq<Byte>)
    ensures |Trim(bits)| <= |bits|
  {
  }

  /** A bracket expression; `p` is just past its opening bracket. */
  function BracketExpr(st: CState, pat: seq<Byte>, p: nat): (r: Result<Place>)
    requires 0 < p <= |pat|
    ensures r.Ok? ==> r.value.p > p && r.value.p <= |pat|
  {
    if p == |pat| then Err(UnmatchedBracket)
    else if !HasRoom(st.b, 34) then Err(TooBig)
    else
      var negated := pat[p] == HAT;
      var first := if negated then p + 1 else p;
      match BracketList(pat, first, first, seq(32, _ => 0))
      case Err(e) => Err(e)
      case Ok(list) =>
        var trimmed := Trim(list.bits);
        TrimSize(list.bits);
        var op := if negated then RegexNode.CHARSET_NOT else RegexNode.CHARSET;
        Ok(Place(list.p, st.(laststart := Some(|st.b|), b := st.b + [op, |trimmed|] + trimmed)))
  }

  // ----- groups and alternatives -----

  function OpenGroup(st: CState, p: nat): Result<Place> {
    var r := st.regnum + 1;
    var code := if r <= MAX_REGNUM then [RegexNode.START_MEMORY, r, 0] else [];
    if !HasRoom(st.b, |code|) then Err(TooBig)
    else
      var b := st.b + code;
      Ok(Place(p, CState(b, None, |b|, None, None, r, st.opens + [Open(st.begalt, st.fixup, |st.b|, r)])))
  }

  /** The end of the last alternative: a dummy failure point, and the pending jump filled in. */
  function EndAlternatives(st: CState): CState {
    match st.fixup
    case None => st
    case Some(_) =>
      var b := st.b + [RegexNode.PUSH_DUMMY_FAILURE];
      st.(b := Patch(b, st.fixup, |b| - 1))
  }

  function CloseGroup(st: CState, pat: seq<Byte>, p: nat): Result<Place> {
    if st.fixup.Some? && !HasRoom(st.b, 1) then Err(TooBig)
    else
      var s := EndAlternatives(st);
      if s.opens == [] then NormalChar(s, pat, p, RPAREN)
      else
        var o := s.opens[|s.opens| - 1];
        var outer := s.(laststart := Some(o.laststart), begalt := o.begalt, fixup := o.fixup, pending := None,
                        opens := s.opens[..|s.opens| - 1]);
        if o.regnum > MAX_REGNUM then Ok(Place(p, outer))
        else if !HasRoom(s.b, 3) || o.laststart + 2 >= |s.b| then Err(TooBig)
        else
          var inner: Byte := (s.regnum - o.regnum) % 256;
          Ok(Place(p, outer.(b := s.b[o.laststart + 2 := inner] + [RegexNode.STOP_MEMORY, o.regnum, inner])))
  }

  /** `junk` is what the three bytes left for the jump at the end of this alternative happen to hold. */
  function NextAlternative(st: CState, p: nat, junk: seq<Byte>): Result<Place>
    requires |junk| == 3
  {
    if !HasRoom(st.b, 6) || st.begalt > |st.b| then Err(TooBig)
    else
      var b := InsertJump(st.b, RegexNode.ON_FAILURE_JUMP, st.begalt, |st.b| + 6);
      var c := Patch(b, st.fixup, |b|);
      Ok(Place(p, st.(b := c + junk, fixup := Some(|c|), laststart := None, begalt := |c| + 3, pending := None)))
  }

  // ----- the whole pattern -----

  /** One round of the main loop, at `p`. */
  function CompileOne(pat: seq<Byte>, p: nat, st: CState, junk: seq<Byte>): (r: Result<Place>)
    requires p < |pat| && |junk| == 3
    ensures r.Ok? ==> p < r.value.p <= |pat|
  {
    var c := pat[p];
    if c == HAT then
      if HasRoom(st.b, 1) then Ok(Place(p + 1, st.(b := st.b + [RegexNode.BEGLINE]))) else Err(TooBig)
    else if c == DOLLAR then
      if HasRoom(st.b, 1) then Ok(Place(p + 1, st.(b := st.b + [RegexNode.ENDLINE]))) else Err(TooBig)
    else if IsOp(c) then RepeatOp(st, pat, p + 1)
    else if c == DOT then
      if HasRoom(st.b, 1) then Ok(Place(p + 1, st.(laststart := Some(|st.b|), b := st.b + [RegexNode.ANYCHAR])))
      else Err(TooBig)
    else if c == LBRACKET then BracketExpr(st, pat, p + 1)
    else if c == LPAREN then OpenGroup(st, p + 1)
    else if c == RPAREN then CloseGroup(st, pat, p + 1)
    else if c == BAR then NextAlternative(st, p + 1, junk)
    else if c == LBRACE then Err(Unsupported)
    else if c == BACKSLASH then
      if p + 1 == |pat| then Err(TrailingBackslash)
      else if IsEscapeCode(pat[p + 1]) then Err(Unsupported)
      else NormalChar(st, pat, p + 2, pat[p + 1])
    else NormalChar(st, pat, p + 1, c)
  }

  datatype Compiled = Compiled(code: seq<Byte>, groups: nat)

  /** The end of the pattern. */
  function Finish(st: CState): Result<Compiled> {
    if st.opens != [] then Err(UnmatchedParen)
    else Ok(Compiled(Patch(st.b, st.fixup, |st.b|), st.regnum))
  }

  function CompileFrom(pat: seq<Byte>, p: nat, st: CState, junk: seq<Byte>): Result<Compiled>
    requires p <= |pat| && |junk| == 3
    decreases |pat| - p
  {
    if p == |pat| then Finish(st)
    else
      match CompileOne(pat, p, st, junk)
      case Err(e) => Err(e)
      case Ok(next) => CompileFrom(pat, next.p, next.st, junk)
  }

  const FRESH: CState := CState([], None, 0, None, None, 0, [])

  function Compile(pat: seq<Byte>, junk: seq<Byte>): Result<Compiled>
    requires |junk| == 3
  {
    CompileFrom(pat, 0, FRESH, junk)
  }
}
