/** The bitmap of a bracket expression holds exactly the characters the expression lists. */
module RegexBrackets {
  import opened Bytes
  import opened RegexSyntax
  import opened RegexCompile
  import opened RegexMeaning
  import RegexNode

  predicate Has(bits: seq<Byte>, c: Byte)
    requires |bits| == 32
  {
    Bit(bits[c / 8], c % 8)
  }

  /** `s` is what stands at `p`. */
  predicate Reads(pat: seq<Byte>, p: nat, s: seq<Byte>) {
    p + |s| <= |pat| && pat[p..p + |s|] == s
  }

  lemma ReadsSplit(pat: seq<Byte>, p: nat, a: seq<Byte>, b: seq<Byte>)
    requires Reads(pat, p, a + b)
    ensures Reads(pat, p, a) && Reads(pat, p + |a|, b)
  {
    var s := pat[p..p + |a + b|];
    assert forall k :: 0 <= k < |a| ==> pat[p + k] == s[k] == a[k];
    assert forall k :: 0 <= k < |b| ==> pat[p + |a| + k] == s[|a| + k] == b[k];
  }

  lemma ReadsAt(pat: seq<Byte>, p: nat, s: seq<Byte>, k: nat)
    requires Reads(pat, p, s) && k < |s|
    ensures pat[p + k] == s[k]
  {
    assert pat[p..p + |s|][k] == pat[p + k];
  }

  lemma SetOne(bits: seq<Byte>, x: Byte, c: Byte)
    requires |bits| == 32
    ensures Has(SetListBit(bits, x), c) <==> c == x || Has(bits, c)
  {
    if c / 8 == x / 8 {
      SetBitBits(bits[x / 8], x % 8, c % 8);
    }
  }

  lemma {:induction false} SetRangeBits(bits: seq<Byte>, lo: nat, hi: Byte, c: Byte)
    requires |bits| == 32 && lo <= 256
    ensures Has(SetListRange(bits, lo, hi), c) <==> lo <= c <= hi || Has(bits, c)
    decreases 256 - lo
  {
    hide SetListBit;
    if lo <= hi {
      SetRangeBits(SetListBit(bits, lo), lo + 1, hi, c);
      SetOne(bits, lo, c);
    }
  }

  predicate ListedItems(items: seq<Item>, c: Byte) {
    exists k :: 0 <= k < |items| && Lists(items[k], c)
  }

  lemma ListedSplit(items: seq<Item>, c: Byte)
    requires items != []
    ensures ListedItems(items, c) <==> Lists(items[0], c) || ListedItems(items[1..], c)
  {
    if ListedItems(items, c) {
      var k :| 0 <= k < |items| && Lists(items[k], c);
      if k > 0 { assert items[1..][k - 1] == items[k]; }
    }
    if ListedItems(items[1..], c) {
      var k :| 0 <= k < |items[1..]| && Lists(items[1..][k], c);
      assert items[k + 1] == items[1..][k];
    }
  }

  /** Reading one listed item sets its bits and moves past it. */
  lemma ItemStep(pat: seq<Byte>, p: nat, bits: seq<Byte>, item: Item, rest: seq<Byte>)
    requires 0 < p && |bits| == 32 && WellFormedItem(item)
    requires Reads(pat, p, PrintItem(item) + rest) && rest != []
    requires rest[0] == HYPHEN ==> |rest| >= 2 && rest[1] == RBRACKET
    requires FirstByte(item) == HYPHEN ==> p <= |pat| && !HyphenInside(pat, p)
    requires item == Single(LBRACKET) ==> rest[0] != COLON
    ensures p < |pat| && pat[p] != RBRACKET
    ensures BracketItem(pat, p, bits).Ok?
    ensures var r := BracketItem(pat, p, bits).value;
            && r.p == p + |PrintItem(item)|
            && forall c: Byte :: Has(r.bits, c) <==> Lists(item, c) || Has(bits, c)
  {
    var s := PrintItem(item) + rest;
    ReadsAt(pat, p, s, 0);
    ReadsAt(pat, p, s, 1);
    if |s| > 2 { ReadsAt(pat, p, s, 2); }
    match item
    case Single(x) =>
      forall c: Byte ensures Has(SetListBit(bits, x), c) <==> c == x || Has(bits, c) { SetOne(bits, x, c); }
    case Range(lo, hi) =>
      forall c: Byte ensures Has(SetListRange(bits, lo, hi), c) <==> lo <= c <= hi || Has(bits, c) {
        SetRangeBits(bits, lo, hi, c);
      }
  }

  function Tail(hyphenLast: bool): seq<Byte> { (if hyphenLast then [HYPHEN] else []) + [RBRACKET] }

  /** After an item or a leading `]` comes a hyphen only if it is the last thing listed. */
  lemma RestStarts(items: seq<Item>, hyphenLast: bool)
    requires items != [] ==> WellFormedItem(items[0]) && FirstByte(items[0]) != HYPHEN
    ensures var rest := PrintItems(items) + Tail(hyphenLast);
            rest != [] && (rest[0] == HYPHEN ==> |rest| >= 2 && rest[1] == RBRACKET)
            && (rest[0] == COLON ==> items != [] && FirstByte(items[0]) == COLON)
  {
    if items != [] {
      assert PrintItems(items)[0] == FirstByte(items[0]);
    }
  }

  lemma TailStep(pat: seq<Byte>, first: nat, p: nat, bits: seq<Byte>, hyphenLast: bool)
    requires 0 < p && first <= p && |bits| == 32 && Reads(pat, p, Tail(hyphenLast)) && (hyphenLast || p != first)
    ensures BracketList(pat, first, p, bits).Ok?
    ensures var r := BracketList(pat, first, p, bits).value;
            && r.p == p + |Tail(hyphenLast)|
            && forall c: Byte :: Has(r.bits, c) <==> (hyphenLast && c == HYPHEN) || Has(bits, c)
  {
    hide Has, SetListBit;
    var s := Tail(hyphenLast);
    ReadsAt(pat, p, s, 0);
    if hyphenLast {
      ReadsAt(pat, p, s, 1);
      assert BracketItem(pat, p, bits) == Result.Ok(Brackets(p + 1, SetListBit(bits, HYPHEN)));
      forall c: Byte { SetOne(bits, HYPHEN, c); }
    }
  }

  /** The list from some item on, up to and including the closing bracket. */
  lemma {:induction false} ListStep(pat: seq<Byte>, first: nat, p: nat, bits: seq<Byte>, items: seq<Item>, hyphenLast: bool)
    requires 0 < p && first <= p && |bits| == 32
    requires WellFormedItems(items)
    requires items != [] && FirstByte(items[0]) == HYPHEN ==> p <= |pat| && !HyphenInside(pat, p)
    requires Reads(pat, p, PrintItems(items) + Tail(hyphenLast))
    requires items == [] && !hyphenLast ==> p != first
    ensures BracketList(pat, first, p, bits).Ok?
    ensures var r := BracketList(pat, first, p, bits).value;
            && r.p == p + |PrintItems(items)| + |Tail(hyphenLast)|
            && forall c: Byte :: Has(r.bits, c) <==> ListedItems(items, c) || (hyphenLast && c == HYPHEN) || Has(bits, c)
    decreases |items|
  {
    hide Has, SetListBit, BracketItem, ListedItems, Lists, Reads;
    if items == [] {
      assert PrintItems(items) + Tail(hyphenLast) == Tail(hyphenLast);
      TailStep(pat, first, p, bits, hyphenLast);
      forall c: Byte ensures !ListedItems(items, c) { NothingListed(c); }
    } else {
      var item, rest := items[0], PrintItems(items[1..]) + Tail(hyphenLast);
      assert PrintItems(items) + Tail(hyphenLast) == PrintItem(item) + rest;
      assert |items| > 1 ==> items[1..][0] == items[1] && WellFormedItem(items[1]) && FirstByte(items[1]) != HYPHEN;
      RestStarts(items[1..], hyphenLast);
      ItemStep(pat, p, bits, item, rest);
      ReadsSplit(pat, p, PrintItem(item), rest);
      var next := BracketItem(pat, p, bits).value;
      ListStep(pat, first, next.p, next.bits, items[1..], hyphenLast);
      forall c: Byte ensures ListedItems(items, c) <==> Lists(item, c) || ListedItems(items[1..], c) { ListedSplit(items, c); }
    }
  }

  lemma NothingListed(c: Byte)
    ensures !ListedItems([], c)
  {
  }

  // ----- the trimmed bitmap -----

  predicate HasIn(bits: seq<Byte>, c: Byte) { RegexNode.SetHas(bits, c) }

  lemma {:induction false} TrimKeeps(bits: seq<Byte>, c: Byte)
    ensures HasIn(Trim(bits), c) <==> HasIn(bits, c)
    decreases |bits|
  {
    if bits != [] && bits[|bits| - 1] == 0 {
      TrimKeeps(bits[..|bits| - 1], c);
      ZeroHasNoBits(c % 8);
    }
  }

  lemma {:induction false} NoBitsZero(x: nat, n: nat)
    requires x < Power2(n) && forall k :: 0 <= k < n ==> !Bit(x, k)
    ensures x == 0
  {
    if n > 0 {
      assert !Bit(x, 0);
      forall k | 0 <= k < n - 1 ensures !Bit(x / 2, k) { assert !Bit(x, k + 1); }
      NoBitsZero(x / 2, n - 1);
    }
  }

  /** A bitmap without any of the last eight characters loses its last byte. */
  lemma TrimShort(bits: seq<Byte>)
    requires |bits| == 32 && forall c: Byte :: Has(bits, c) ==> c < 248
    ensures |Trim(bits)| < 32
  {
    forall k | 0 <= k < 8 ensures !Bit(bits[31], k) {
      assert !Has(bits, 248 + k);
    }
    assert Power2(8) == 256;
    NoBitsZero(bits[31], 8);
    TrimSize(bits[..31]);
  }

  // ----- the whole bracket expression -----

  lemma EmptyBitmap(c: Byte)
    ensures !Has(seq(32, _ => 0), c)
  {
    ZeroHasNoBits(c % 8);
  }

  predicate Lists1(e: Re, c: Byte)
    requires e.Bracket?
  {
    Listed(e.closeFirst, e.items, e.hyphenLast, c)
  }

  /** Past the bracket and the hat, the list itself. */
  lemma ListFrom(pat: seq<Byte>, first: nat, e: Re)
    requires 0 < first <= |pat| && e.Bracket? && WellFormed(e) && !HyphenInside(pat, first)
    requires Reads(pat, first, (if e.closeFirst then [RBRACKET] else []) + (PrintItems(e.items) + Tail(e.hyphenLast)))
    ensures BracketList(pat, first, first, seq(32, _ => 0)).Ok?
    ensures var r := BracketList(pat, first, first, seq(32, _ => 0)).value;
            && r.p == first + (if e.closeFirst then 1 else 0) + |PrintItems(e.items)| + |Tail(e.hyphenLast)|
            && forall c: Byte :: Has(r.bits, c) <==> Lists1(e, c)
  {
    hide Has, SetListBit, ListedItems, Lists, Reads, BracketItem;
    var bits: seq<Byte> := seq(32, _ => 0);
    var rest := PrintItems(e.items) + Tail(e.hyphenLast);
    forall c: Byte ensures !Has(bits, c) { EmptyBitmap(c); }
    forall c: Byte ensures ListedItems(e.items, c) <==> exists k :: 0 <= k < |e.items| && Lists(e.items[k], c) {
      ListedItemsIs(e.items, c);
    }
    if e.closeFirst {
      ReadsSplit(pat, first, [RBRACKET], rest);
      LeadingBracket(pat, first, rest, bits, e);
      ListStep(pat, first, first + 1, SetListBit(bits, RBRACKET), e.items, e.hyphenLast);
      forall c: Byte { SetOne(bits, RBRACKET, c); }
    } else {
      assert [] + rest == rest;
      ListStep(pat, first, first, bits, e.items, e.hyphenLast);
    }
  }

  lemma ListedItemsIs(items: seq<Item>, c: Byte)
    ensures ListedItems(items, c) <==> exists k :: 0 <= k < |items| && Lists(items[k], c)
  {
  }

  /** A `]` standing first is listed. */
  lemma LeadingBracket(pat: seq<Byte>, first: nat, rest: seq<Byte>, bits: seq<Byte>, e: Re)
    requires 0 < first && |bits| == 32 && e.Bracket? && e.closeFirst && WellFormed(e)
    requires rest == PrintItems(e.items) + Tail(e.hyphenLast) && Reads(pat, first, [RBRACKET] + rest)
    ensures BracketList(pat, first, first, bits) == BracketList(pat, first, first + 1, SetListBit(bits, RBRACKET))
  {
    hide SetListBit;
    RestStarts(e.items, e.hyphenLast);
    var s := [RBRACKET] + rest;
    ReadsAt(pat, first, s, 0);
    ReadsAt(pat, first, s, 1);
    if |rest| > 1 { ReadsAt(pat, first, s, 2); }
    assert BracketItem(pat, first, bits) == Result.Ok(Brackets(first + 1, SetListBit(bits, RBRACKET)));
  }

  /** The trimmed bitmap of a list. */
  lemma TrimmedBits(r: seq<Byte>, e: Re)
    requires e.Bracket? && |r| == 32 && forall c: Byte :: Has(r, c) <==> Lists1(e, c)
    ensures |Trim(r)| <= 32
    ensures forall c: Byte :: RegexNode.SetHas(Trim(r), c) <==> Lists1(e, c)
    ensures Limited(e) ==> e.negated || |Trim(r)| < 32
  {
    TrimSize(r);
    forall c: Byte ensures RegexNode.SetHas(Trim(r), c) <==> Lists1(e, c) {
      TrimKeeps(r, c);
      assert HasIn(r, c) <==> Has(r, c);
    }
    if Limited(e) && !e.negated {
      forall c: Byte | Lists1(e, c) ensures c < 248 { LimitedLists(e, c); }
      TrimShort(r);
    }
  }

  /** Where the list of a bracket expression starts, and what is read there. */
  lemma BracketReads(pat: seq<Byte>, p: nat, e: Re)
    requires e.Bracket? && WellFormed(e) && Reads(pat, p, Print(e))
    ensures p + 1 < |pat| && (pat[p + 1] == HAT <==> e.negated)
    ensures var first := p + 1 + (if e.negated then 1 else 0);
            && first <= |pat| && !HyphenInside(pat, first)
            && Reads(pat, first, (if e.closeFirst then [RBRACKET] else []) + (PrintItems(e.items) + Tail(e.hyphenLast)))
    ensures |Print(e)| == 1 + (if e.negated then 1 else 0) + (if e.closeFirst then 1 else 0)
                            + |PrintItems(e.items)| + |Tail(e.hyphenLast)|
  {
    hide PrintItems, WellFormed;
    var hat := if e.negated then [HAT] else [];
    var list := (if e.closeFirst then [RBRACKET] else []) + (PrintItems(e.items) + Tail(e.hyphenLast));
    assert Print(e) == [LBRACKET] + (hat + list);
    ReadsSplit(pat, p, [LBRACKET], hat + list);
    ReadsAt(pat, p, [LBRACKET], 0);
    ReadsSplit(pat, p + 1, hat, list);
    HatOnlyIfNegated(pat, p + 1, e, hat, list);
  }

  /** Compiling a bracket expression: the code of a set node with exactly the listed characters. */
  lemma BracketCompiles(pat: seq<Byte>, p: nat, st: CState, e: Re) returns (n: RegexNode.Node)
    requires e.Bracket? && WellFormed(e) && Reads(pat, p, Print(e)) && HasRoom(st.b, 34)
    ensures p + 1 <= |pat|
    ensures BracketExpr(st, pat, p + 1) ==
            Result.Ok(Place(p + |Print(e)|, st.(laststart := Some(|st.b|), b := st.b + RegexNode.Code(n))))
    ensures Models(n, e) && n.Set? && |RegexNode.Code(n)| <= 34
    ensures n.negated == e.negated && |n.bits| <= 32 && forall c: Byte :: RegexNode.SetHas(n.bits, c) <==> Lists1(e, c)
  {
    hide Print, PrintItems, WellFormed, Reads, BracketList, Lists1, Has, Trim, Models, Limited;
    BracketReads(pat, p, e);
    var first := p + 1 + (if e.negated then 1 else 0);
    ListFrom(pat, first, e);
    var r := BracketList(pat, first, first, seq(32, _ => 0)).value;
    TrimmedBits(r.bits, e);
    var t := Trim(r.bits);
    n := RegexNode.Set(e.negated, t);
    var op := if e.negated then RegexNode.CHARSET_NOT else RegexNode.CHARSET;
    assert st.b + [op, |t|] + t == st.b + ([op, |t|] + t);
    ListedSet(e.negated, Trim(r.bits), e);
  }

  lemma ListedSet(negated: bool, bits: seq<Byte>, e: Re)
    requires e.Bracket? && e.negated == negated && |bits| <= 32
    requires forall c: Byte :: RegexNode.SetHas(bits, c) <==> Lists1(e, c)
    requires Limited(e) ==> negated || |bits| < 32
    ensures Models(RegexNode.Set(negated, bits), e)
  {
    SetModels(negated, bits, e);
  }

  lemma LimitedLists(e: Re, c: Byte)
    requires e.Bracket? && Limited(e) && !e.negated && Lists1(e, c)
    ensures c < 248
  {
    if k :| 0 <= k < |e.items| && Lists(e.items[k], c) {
      assert LastByte(e.items[k]) < 248;
    }
  }

  lemma HatOnlyIfNegated(pat: seq<Byte>, p: nat, e: Re, hat: seq<Byte>, list: seq<Byte>)
    requires e.Bracket? && WellFormed(e) && Reads(pat, p, hat + list)
    requires hat == if e.negated then [HAT] else []
    requires list == (if e.closeFirst then [RBRACKET] else []) + (PrintItems(e.items) + Tail(e.hyphenLast))
    ensures p < |pat| && (pat[p] == HAT <==> e.negated)
  {
    ReadsAt(pat, p, hat + list, 0);
    if !e.negated && !e.closeFirst && e.items != [] {
      assert PrintItems(e.items)[0] == FirstByte(e.items[0]);
    }
  }
}
