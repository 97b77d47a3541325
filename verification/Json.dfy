/**
 * JSON text: the grammar of RFC 7159, sections 2 to 7, as it is accepted here. A trailing comma is
 * allowed, strings hold any byte but NUL, and numbers are loose about leading and missing digits.
 */
module Json {
  import opened Bytes

  const QUOTE: Byte := 0x22
  const COMMA: Byte := 0x2C
  const MINUS: Byte := 0x2D
  const PLUS: Byte := 0x2B
  const DOT: Byte := 0x2E
  const SLASH: Byte := 0x2F
  const COLON: Byte := 0x3A
  const OPEN_ARRAY: Byte := 0x5B
  const BACKSLASH: Byte := 0x5C
  const CLOSE_ARRAY: Byte := 0x5D
  const LETTER_U: Byte := 0x75
  const OPEN_OBJECT: Byte := 0x7B
  const CLOSE_OBJECT: Byte := 0x7D

  predicate Space(b: Byte) { b == 0x20 || b == 0x0A || b == 0x0D || b == 0x09 }

  predicate Digit(b: Byte) { 0x30 <= b <= 0x39 }

  predicate Hex(b: Byte) { Digit(b) || 0x41 <= b <= 0x46 || 0x61 <= b <= 0x66 }

  /** What may follow a backslash, apart from `u`. */
  predicate Escapable(b: Byte) {
    || b == QUOTE || b == BACKSLASH || b == SLASH
    || b == 0x62 || b == 0x66 || b == 0x6E || b == 0x72 || b == 0x74
  }

  predicate Exponent(b: Byte) { b == 0x65 || b == 0x45 }

  predicate Blank(s: seq<Byte>) { forall i | 0 <= i < |s| :: Space(s[i]) }

  predicate Digits(s: seq<Byte>) { forall i | 0 <= i < |s| :: Digit(s[i]) }

  /** One piece of a string: a plain byte, an escaped one, or four hexadecimal digits. */
  datatype Piece = Plain(b: Byte) | Escaped(b: Byte) | Unicode(a: Byte, b: Byte, c: Byte, d: Byte)

  datatype Power = NoPower | Power(letter: Byte, sign: seq<Byte>, digits: seq<Byte>)

  datatype Word = True | False | Null

  datatype Value =
    | Str(pieces: seq<Piece>)
    | Num(minus: bool, whole: seq<Byte>, dot: bool, fraction: seq<Byte>, power: Power)
    | Lit(word: Word)
    | Arr(items: Items)
    | Obj(members: Members)

  /** What follows an opening bracket or a comma in an array, up to and with the closing bracket. */
  datatype Items =
    | NoItem(before: seq<Byte>)
    | LastItem(before: seq<Byte>, value: Value, after: seq<Byte>)
    | Item(before: seq<Byte>, value: Value, after: seq<Byte>, more: Items)

  /** What follows an opening brace or a comma in an object, up to and with the closing brace. */
  datatype Members =
    | NoMember(before: seq<Byte>)
    | LastMember(before: seq<Byte>, key: seq<Piece>, colon: seq<Byte>, gap: seq<Byte>, value: Value, after: seq<Byte>)
    | Member(before: seq<Byte>, key: seq<Piece>, colon: seq<Byte>, gap: seq<Byte>, value: Value, after: seq<Byte>,
             more: Members)

  predicate PieceOk(p: Piece) {
    match p
    case Plain(b) => b != 0 && b != BACKSLASH && b != QUOTE
    case Escaped(b) => Escapable(b)
    case Unicode(a, b, c, d) => Hex(a) && Hex(b) && Hex(c) && Hex(d)
  }

  predicate PiecesOk(ps: seq<Piece>) { forall i | 0 <= i < |ps| :: PieceOk(ps[i]) }

  predicate PowerOk(p: Power) {
    p.Power? ==> Exponent(p.letter) && Digits(p.digits) && p.digits != [] && p.sign in [[], [PLUS], [MINUS]]
  }

  /** The text is put together from parts of the right kind. */
  predicate Good(v: Value) {
    match v
    case Str(ps) => PiecesOk(ps)
    case Num(_, whole, dot, fraction, power) =>
      && Digits(whole) && Digits(fraction) && |whole| + |fraction| > 0 && (!dot ==> fraction == []) && PowerOk(power)
    case Lit(_) => true
    case Arr(items) => GoodItems(items)
    case Obj(members) => GoodMembers(members)
  }

  predicate GoodItems(i: Items) {
    && Blank(i.before)
    && (!i.NoItem? ==> Good(i.value) && Blank(i.after))
    && (i.Item? ==> GoodItems(i.more))
  }

  predicate GoodMembers(m: Members) {
    && Blank(m.before)
    && (!m.NoMember? ==> PiecesOk(m.key) && Blank(m.colon) && Blank(m.gap) && Good(m.value) && Blank(m.after))
    && (m.Member? ==> GoodMembers(m.more))
  }

  function PieceText(p: Piece): seq<Byte> {
    match p
    case Plain(b) => [b]
    case Escaped(b) => [BACKSLASH, b]
    case Unicode(a, b, c, d) => [BACKSLASH, LETTER_U, a, b, c, d]
  }

  /** The rest of a string after its opening quote. */
  function PiecesText(ps: seq<Piece>): (s: seq<Byte>)
    ensures s != []
  {
    if ps == [] then [QUOTE] else PieceText(ps[0]) + PiecesText(ps[1..])
  }

  function PowerText(p: Power): seq<Byte> {
    if p.NoPower? then [] else [p.letter] + p.sign + p.digits
  }

  /** The letters of a literal after the first. */
  function WordTail(w: Word): seq<Byte> {
    match w
    case True => [0x72, 0x75, 0x65]
    case False => [0x61, 0x6C, 0x73, 0x65]
    case Null => [0x75, 0x6C, 0x6C]
  }

  function WordHead(w: Word): Byte {
    match w
    case True => 0x74
    case False => 0x66
    case Null => 0x6E
  }

  function NumText(v: Value): seq<Byte>
    requires v.Num?
  {
    (if v.minus then [MINUS] else []) + v.whole + (if v.dot then [DOT] else []) + v.fraction + PowerText(v.power)
  }

  function Text(v: Value): seq<Byte> {
    match v
    case Str(ps) => [QUOTE] + PiecesText(ps)
    case Num(_, _, _, _, _) => NumText(v)
    case Lit(w) => [WordHead(w)] + WordTail(w)
    case Arr(items) => [OPEN_ARRAY] + ItemsText(items)
    case Obj(members) => [OPEN_OBJECT] + MembersText(members)
  }

  function ItemsText(i: Items): seq<Byte> {
    match i
    case NoItem(before) => before + [CLOSE_ARRAY]
    case LastItem(before, v, after) => before + Text(v) + after + [CLOSE_ARRAY]
    case Item(before, v, after, more) => before + Text(v) + after + [COMMA] + ItemsText(more)
  }

  function MembersText(m: Members): seq<Byte> {
    match m
    case NoMember(before) => before + [CLOSE_OBJECT]
    case LastMember(before, key, colon, gap, v, after) =>
      before + [QUOTE] + PiecesText(key) + colon + [COLON] + gap + Text(v) + after + [CLOSE_OBJECT]
    case Member(before, key, colon, gap, v, after, more) =>
      before + [QUOTE] + PiecesText(key) + colon + [COLON] + gap + Text(v) + after + [COMMA] + MembersText(more)
  }

  function Max(a: nat, b: nat): nat { if a < b then b else a }

  /** How deep the deepest value inside a value is. */
  function Depth(v: Value): nat {
    match v
    case Arr(items) => ItemsDepth(items)
    case Obj(members) => MembersDepth(members)
    case _ => 0
  }

  function ItemsDepth(i: Items): nat {
    match i
    case NoItem(_) => 0
    case LastItem(_, v, _) => 1 + Depth(v)
    case Item(_, v, _, more) => Max(1 + Depth(v), ItemsDepth(more))
  }

  function MembersDepth(m: Members): nat {
    match m
    case NoMember(_) => 0
    case LastMember(_, _, _, _, v, _) => 1 + Depth(v)
    case Member(_, _, _, _, v, _, more) => Max(1 + Depth(v), MembersDepth(more))
  }

  /** The counters kept while parsing; well-closed arrays are counted twice. */
  datatype Counts = Counts(arrays: nat, words: nat, numbers: nat, objects: nat, strings: nat, closed: nat)

  const NONE := Counts(0, 0, 0, 0, 0, 0)

  function Add(a: Counts, b: Counts): Counts {
    Counts(a.arrays + b.arrays, a.words + b.words, a.numbers + b.numbers, a.objects + b.objects,
           a.strings + b.strings, a.closed + b.closed)
  }

  const ONE_ARRAY := Counts(1, 0, 0, 0, 0, 1)

  const ONE_OBJECT := Counts(0, 0, 0, 1, 0, 0)

  /** The numbers of arrays, literals, numbers, objects and strings in a value; keys are not strings. */
  function Tally(v: Value): Counts {
    match v
    case Str(_) => NONE.(strings := 1)
    case Num(_, _, _, _, _) => NONE.(numbers := 1)
    case Lit(_) => NONE.(words := 1)
    case Arr(items) => Add(ItemsTally(items), ONE_ARRAY)
    case Obj(members) => Add(MembersTally(members), ONE_OBJECT)
  }

  function ItemsTally(i: Items): Counts {
    match i
    case NoItem(_) => NONE
    case LastItem(_, v, _) => Tally(v)
    case Item(_, v, _, more) => Add(Tally(v), ItemsTally(more))
  }

  function MembersTally(m: Members): Counts {
    match m
    case NoMember(_) => NONE
    case LastMember(_, _, _, _, v, _) => Tally(v)
    case Member(_, _, _, _, v, _, more) => Add(Tally(v), MembersTally(more))
  }
}
