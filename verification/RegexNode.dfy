/**
 The tree of code the compiler builds, the bytes each node occupies in the compiled
 pattern, and the text each node matches.  Every jump is relative, so the code of a
 node is the same wherever the node stands.
 */
module RegexNode {
  import opened Bytes
  import opened Closure

  const NO_OP: Byte := 0
  const EXACTN: Byte := 1
  const ANYCHAR: Byte := 2
  const CHARSET: Byte := 3
  const CHARSET_NOT: Byte := 4
  const START_MEMORY: Byte := 5
  const STOP_MEMORY: Byte := 6
  const BEGLINE: Byte := 8
  const ENDLINE: Byte := 9
  const JUMP: Byte := 12
  const JUMP_PAST_ALT: Byte := 13
  const ON_FAILURE_JUMP: Byte := 14
  const POP_FAILURE_JUMP: Byte := 16
  const MAYBE_POP_JUMP: Byte := 17
  const DUMMY_FAILURE_JUMP: Byte := 18
  const PUSH_DUMMY_FAILURE: Byte := 19
  const JUMP_N: Byte := 21

  datatype Node =
    | Nothing
    | Run(chars: seq<Byte>)
    | Any
    | Set(negated: bool, bits: seq<Byte>)
    | LineStart
    | LineEnd
    | Group(reg: Byte, inner: Byte, body: Node)
    | Star(body: Node)
    | Plus(body: Node)
    | Opt(body: Node)
    | Cat(left: Node, right: Node)
    | Alt(left: Node, right: Node)

  // ----- two-byte numbers -----

  function Low(n: int): Byte { n % 256 }
  function High(n: int): Byte { (n / 256) % 256 }

  function Number(low: Byte, high: Byte): int {
    low + 256 * (if high >= 128 then high - 256 else high)
  }

  lemma NumberRoundTrip(n: int)
    ensures Number(Low(n), High(n)) == n <==> -32768 <= n < 32768
  {
  }

  /** An opcode followed by a two-byte displacement. */
  function Op1(op: Byte, n: int): seq<Byte> { [op, Low(n), High(n)] }

  // ----- code -----

  function Code(n: Node): seq<Byte>
    decreases n, 0
  {
    match n
    case Nothing => []
    case Run(chars) => [EXACTN, |chars| % 256] + chars
    case Any => [ANYCHAR]
    case Set(negated, bits) => [if negated then CHARSET_NOT else CHARSET, |bits| % 256] + bits
    case LineStart => [BEGLINE]
    case LineEnd => [ENDLINE]
    case Group(reg, inner, body) =>
      [START_MEMORY, reg, inner] + Code(body)
      + (if body.Alt? then [PUSH_DUMMY_FAILURE] else []) + [STOP_MEMORY, reg, inner]
    case Star(body) => StarCode(Code(body))
    case Plus(body) => Op1(DUMMY_FAILURE_JUMP, 3) + StarCode(Code(body))
    case Opt(body) => Op1(ON_FAILURE_JUMP, |Code(body)|) + Code(body)
    case Cat(left, right) => Code(left) + Code(right)
    case Alt(left, right) =>
      Op1(ON_FAILURE_JUMP, |Code(left)| + 3) + Code(left)
      + Op1(JUMP_PAST_ALT, PastAlt(right)) + Code(right)
  }

  function StarCode(body: seq<Byte>): seq<Byte> {
    Op1(ON_FAILURE_JUMP, |body| + 3) + body + Op1(MAYBE_POP_JUMP, -(|body| + 6))
  }

  /** Where the jump before the alternatives `n` leads, counted from the start of `n`:
      to the same jump of the next alternative, or past the last one. */
  function PastAlt(n: Node): nat
    decreases n, 1
  {
    if n.Alt? then |Code(n.left)| + 3 else |Code(n)|
  }

  /** What the one-byte counts and register numbers can express. */
  predicate Sized(n: Node) {
    match n
    case Run(chars) => 1 <= |chars| <= 255
    case Set(_, bits) => |bits| <= 32
    case Group(_, _, body) => Sized(body)
    case Star(body) => Sized(body)
    case Plus(body) => Sized(body)
    case Opt(body) => Sized(body)
    case Cat(left, right) => Sized(left) && Sized(right)
    case Alt(left, right) => Sized(left) && Sized(right)
    case _ => true
  }

  /** How many groups there are. */
  function GroupCount(n: Node): nat {
    match n
    case Group(_, _, body) => 1 + GroupCount(body)
    case Star(body) => GroupCount(body)
    case Plus(body) => GroupCount(body)
    case Opt(body) => GroupCount(body)
    case Cat(left, right) => GroupCount(left) + GroupCount(right)
    case Alt(left, right) => GroupCount(left) + GroupCount(right)
    case _ => 0
  }

  /** The groups are numbered from `first + 1` on in the order in which they open, and each knows how many it encloses. */
  predicate Numbered(n: Node, first: nat) {
    match n
    case Group(reg, inner, body) => reg == first + 1 && inner == GroupCount(body) && Numbered(body, first + 1)
    case Star(body) => Numbered(body, first)
    case Plus(body) => Numbered(body, first)
    case Opt(body) => Numbered(body, first)
    case Cat(left, right) => Numbered(left, first) && Numbered(right, first + GroupCount(left))
    case Alt(left, right) => Numbered(left, first) && Numbered(right, first + GroupCount(left))
    case _ => true
  }

  // ----- meaning -----

  predicate SetHas(bits: seq<Byte>, c: Byte) {
    c < 8 * |bits| && Bit(bits[c / 8], c % 8)
  }

  ghost predicate Accepts(n: Node, text: seq<Byte>, i: nat, j: nat)
    decreases n
  {
    match n
    case Nothing => i == j
    case Run(chars) => j == i + |chars| <= |text| && text[i..j] == chars
    case Any => j == i + 1 <= |text| && text[i] != 0
    case Set(negated, bits) => j == i + 1 <= |text| && SetHas(bits, text[i]) != negated
    case LineStart => i == j == 0
    case LineEnd => i == j == |text|
    case Group(_, _, body) => Accepts(body, text, i, j)
    case Star(body) => Closure.Star((x: nat, y: nat) => Accepts(body, text, x, y), i, j)
    case Plus(body) => Closure.Plus((x: nat, y: nat) => Accepts(body, text, x, y), i, j)
    case Opt(body) => Closure.Opt((x: nat, y: nat) => Accepts(body, text, x, y), i, j)
    case Cat(left, right) =>
      exists m: nat | i <= m <= j :: Accepts(left, text, i, m) && Accepts(right, text, m, j)
    case Alt(left, right) => Accepts(left, text, i, j) || Accepts(right, text, i, j)
  }

  /** The relation of one node, as the repetitions use it. */
  ghost function Spans(n: Node, text: seq<Byte>): Span {
    (x: nat, y: nat) => Accepts(n, text, x, y)
  }

  lemma {:induction false} AcceptsForward(n: Node, text: seq<Byte>, i: nat, j: nat)
    requires Accepts(n, text, i, j) && i <= |text|
    ensures i <= j <= |text|
    decreases n, j - i, 0
  {
    match n
    case Group(_, _, body) => AcceptsForward(body, text, i, j);
    case Star(body) => StarInText(body, text, i, j);
    case Plus(body) =>
      var r := Spans(body, text);
      var m: nat :| i <= m <= j && r(i, m) && Closure.Star(r, m, j);
      AcceptsForward(body, text, i, m);
      StarInText(body, text, m, j);
    case Opt(body) => if i != j { AcceptsForward(body, text, i, j); }
    case Cat(left, right) =>
      var m: nat :| i <= m <= j && Accepts(left, text, i, m) && Accepts(right, text, m, j);
      AcceptsForward(left, text, i, m);
      AcceptsForward(right, text, m, j);
    case Alt(left, right) =>
      if Accepts(left, text, i, j) { AcceptsForward(left, text, i, j); } else { AcceptsForward(right, text, i, j); }
    case _ =>
  }

  lemma {:induction false} StarInText(body: Node, text: seq<Byte>, i: nat, j: nat)
    requires Closure.Star(Spans(body, text), i, j) && i <= |text|
    ensures i <= j <= |text|
    decreases body, j - i, 1
  {
    var r := Spans(body, text);
    if i != j {
      var m: nat :| i < m <= j && r(i, m) && Closure.Star(r, m, j);
      AcceptsForward(body, text, i, m);
      StarInText(body, text, m, j);
    }
  }
}
