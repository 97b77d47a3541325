/**
 Extended regular expressions as their grammar trees, the bytes each tree is written
 with, and the text each tree matches (POSIX extended syntax without REG_NEWLINE:
 `.` matches newline but not NUL, `[^...]` matches newline, `^` and `$` only at the
 two ends of the subject).
 */
module RegexSyntax {
  import opened Bytes
  import opened Closure

  const HAT: Byte := 94
  const DOLLAR: Byte := 36
  const PLUS: Byte := 43
  const QUESTION: Byte := 63
  const STAR: Byte := 42
  const DOT: Byte := 46
  const LBRACKET: Byte := 91
  const RBRACKET: Byte := 93
  const LPAREN: Byte := 40
  const RPAREN: Byte := 41
  const BAR: Byte := 124
  const LBRACE: Byte := 123
  const BACKSLASH: Byte := 92
  const HYPHEN: Byte := 45
  const COLON: Byte := 58

  /** What may stand between the brackets of a bracket expression. */
  datatype Item = Single(c: Byte) | Range(lo: Byte, hi: Byte)

  datatype Re =
    | Empty
    | Lit(c: Byte, escaped: bool)
    | Any
    | Bracket(negated: bool, closeFirst: bool, items: seq<Item>, hyphenLast: bool)
    | LineStart
    | LineEnd
    | Group(body: Re)
    | Repeat(body: Re, ops: seq<Byte>)
    | Cat(left: Re, right: Re)
    | Alt(left: Re, right: Re)

  // ----- well-formed trees: the shape the grammar gives them -----

  predicate IsAtom(e: Re) { e.Lit? || e.Any? || e.Bracket? || e.Group? }

  /** An atom, an atom followed by repetition operators, or an anchor. */
  predicate IsPiece(e: Re) { IsAtom(e) || e.Repeat? || e.LineStart? || e.LineEnd? }

  predicate IsBranch(e: Re) { e.Empty? || e.Cat? }

  predicate IsSpecial(c: Byte) {
    c in {HAT, DOLLAR, PLUS, QUESTION, STAR, DOT, LBRACKET, LPAREN, RPAREN, BAR, LBRACE, BACKSLASH, 0}
  }

  /** Characters that a backslash turns into something other than themselves: w W < > b B ` ' 1..9. */
  predicate IsEscapeCode(c: Byte) {
    c in {119, 87, 60, 62, 98, 66, 96, 39, 0} || 49 <= c <= 57
  }

  predicate WellFormed(e: Re) {
    match e
    case Empty => true
    case Lit(c, escaped) => if escaped then !IsEscapeCode(c) else !IsSpecial(c)
    case Any => true
    case Bracket(negated, closeFirst, items, hyphenLast) =>
      && (closeFirst || items != [] || hyphenLast)
      && (!negated && !closeFirst && items != [] ==> FirstByte(items[0]) != HAT)
      && (closeFirst && items != [] ==> FirstByte(items[0]) != HYPHEN)
      && WellFormedItems(items)
    case LineStart => true
    case LineEnd => true
    case Group(body) => (IsBranch(body) || body.Alt?) && WellFormed(body)
    case Repeat(body, ops) =>
      IsAtom(body) && WellFormed(body) && ops != [] && forall k :: 0 <= k < |ops| ==> IsOp(ops[k])
    case Cat(left, right) => IsBranch(left) && IsPiece(right) && WellFormed(left) && WellFormed(right)
    case Alt(left, right) => IsBranch(left) && (IsBranch(right) || right.Alt?) && WellFormed(left) && WellFormed(right)
  }

  predicate WellFormedItem(item: Item) {
    match item
    case Single(c) => c !in {RBRACKET, 0}
    case Range(lo, hi) => lo !in {RBRACKET, 0} && hi !in {RBRACKET, 0} && lo <= hi
  }

  /** Only the first item may start with a hyphen, and a listed `[` stands before no colon. */
  predicate WellFormedItems(items: seq<Item>) {
    && (forall k :: 0 <= k < |items| ==> WellFormedItem(items[k]))
    && (forall k :: 1 <= k < |items| ==> FirstByte(items[k]) != HYPHEN)
    && (forall k :: 1 <= k < |items| && items[k - 1] == Single(LBRACKET) ==> FirstByte(items[k]) != COLON)
  }

  function FirstByte(item: Item): Byte {
    match item
    case Single(c) => c
    case Range(lo, hi) => lo
  }

  /** A whole pattern: alternatives of branches. */
  predicate IsPattern(e: Re) { (IsBranch(e) || e.Alt?) && WellFormed(e) }

  function Groups(e: Re): nat {
    match e
    case Group(body) => 1 + Groups(body)
    case Repeat(body, _) => Groups(body)
    case Cat(left, right) => Groups(left) + Groups(right)
    case Alt(left, right) => Groups(left) + Groups(right)
    case _ => 0
  }

  // ----- concrete syntax -----

  function PrintItem(item: Item): seq<Byte> {
    match item
    case Single(c) => [c]
    case Range(lo, hi) => [lo, HYPHEN, hi]
  }

  function PrintItems(items: seq<Item>): seq<Byte> {
    if items == [] then [] else PrintItem(items[0]) + PrintItems(items[1..])
  }

  function Print(e: Re): seq<Byte> {
    match e
    case Empty => []
    case Lit(c, escaped) => if escaped then [BACKSLASH, c] else [c]
    case Any => [DOT]
    case Bracket(negated, closeFirst, items, hyphenLast) =>
      [LBRACKET] + (if negated then [HAT] else []) + (if closeFirst then [RBRACKET] else [])
      + PrintItems(items) + (if hyphenLast then [HYPHEN] else []) + [RBRACKET]
    case LineStart => [HAT]
    case LineEnd => [DOLLAR]
    case Group(body) => [LPAREN] + Print(body) + [RPAREN]
    case Repeat(body, ops) => Print(body) + ops
    case Cat(left, right) => Print(left) + Print(right)
    case Alt(left, right) => Print(left) + [BAR] + Print(right)
  }

  // ----- meaning -----

  predicate Lists(item: Item, c: Byte) {
    match item
    case Single(x) => c == x
    case Range(lo, hi) => lo <= c <= hi
  }

  predicate Listed(closeFirst: bool, items: seq<Item>, hyphenLast: bool, c: Byte) {
    (closeFirst && c == RBRACKET) || (hyphenLast && c == HYPHEN)
    || exists k :: 0 <= k < |items| && Lists(items[k], c)
  }

  /** `text[i..j]` is in the language of `e`; the anchors look at the whole subject. */
  ghost predicate Matches(e: Re, text: seq<Byte>, i: nat, j: nat)
    decreases e
  {
    match e
    case Empty => i == j
    case Lit(c, _) => j == i + 1 <= |text| && text[i] == c
    case Any => j == i + 1 <= |text| && text[i] != 0
    case Bracket(negated, closeFirst, items, hyphenLast) =>
      j == i + 1 <= |text| && Listed(closeFirst, items, hyphenLast, text[i]) != negated
    case LineStart => i == j == 0
    case LineEnd => i == j == |text|
    case Group(body) => Matches(body, text, i, j)
    case Repeat(body, ops) =>
      Closure.Repeat((x: nat, y: nat) => Matches(body, text, x, y), ops)(i, j)
    case Cat(left, right) =>
      exists m: nat | i <= m <= j :: Matches(left, text, i, m) && Matches(right, text, m, j)
    case Alt(left, right) => Matches(left, text, i, j) || Matches(right, text, i, j)
  }
}
