/** What is parsed is a text of the grammar, no deeper than the deepest level, and the counts are its own. */
module JsonSound {
  import opened Bytes
  import opened Json
  import opened JsonParse
  import opened JsonComplete

  /** Two stretches side by side. */
  lemma AtJoin(t: seq<Byte>, p: nat, a: seq<Byte>, b: seq<Byte>)
    requires At(t, p, a) && At(t, p + |a|, b)
    ensures At(t, p, a + b)
  {
  }

  lemma AtOne(t: seq<Byte>, p: nat)
    requires p < |t|
    ensures At(t, p, [t[p]])
  {
  }

  lemma {:induction false} StringSound(t: seq<Byte>, p: nat) returns (ps: seq<Piece>)
    requires p <= |t| && StringEnd(t, p).Some?
    ensures PiecesOk(ps) && At(t, p, PiecesText(ps)) && StringEnd(t, p) == Some(p + |PiecesText(ps)|)
    decreases |t| - p
  {
    AtOne(t, p);
    if t[p] == QUOTE {
      ps := [];
    } else {
      var first :=
        if t[p] != BACKSLASH then Plain(t[p])
        else if Escapable(t[p + 1]) then Escaped(t[p + 1])
        else Unicode(t[p + 2], t[p + 3], t[p + 4], t[p + 5]);
      var s := PieceText(first);
      match first {
        case Plain(b) => assert t[p..p + 1] == [t[p]];
        case Escaped(b) => assert t[p..p + 2] == [t[p], t[p + 1]];
        case Unicode(_, _, _, _) =>
          assert t[p..p + 6] == [t[p], t[p + 1], t[p + 2], t[p + 3], t[p + 4], t[p + 5]];
      }
      var rest := StringSound(t, p + |s|);
      ps := [first] + rest;
      PiecesCons(first, rest);
      AtJoin(t, p, s, PiecesText(rest));
    }
  }

  lemma PiecesCons(p: Piece, ps: seq<Piece>)
    requires PieceOk(p) && PiecesOk(ps)
    ensures PiecesOk([p] + ps) && PiecesText([p] + ps) == PieceText(p) + PiecesText(ps)
  {
    assert ([p] + ps)[1..] == ps;
  }

  /** The power of ten after the digits of a number that end at `d`, if there is one. */
  lemma PowerSound(t: seq<Byte>, p: nat, d: nat) returns (w: Power, e: nat)
    requires p < d <= |t|
    requires d < |t| && Exponent(t[d]) ==>
               (d + 1 < |t| && var f := if t[d + 1] == PLUS || t[d + 1] == MINUS then d + 2 else d + 1;
                SkipDigits(t, f) > f)
    ensures PowerOk(w) && d <= e <= |t| && t[d..e] == PowerText(w)
    ensures e == if d < |t| && Exponent(t[d])
                 then SkipDigits(t, if t[d + 1] == PLUS || t[d + 1] == MINUS then d + 2 else d + 1)
                 else d
  {
    w, e := NoPower, d;
    if d < |t| && Exponent(t[d]) {
      var f := if t[d + 1] == PLUS || t[d + 1] == MINUS then d + 2 else d + 1;
      e := SkipDigits(t, f);
      w := Power(t[d], t[d + 1..f], t[f..e]);
      assert t[d..d + 1] == [t[d]];
      assert t[d + 1..f] == if f == d + 1 then [] else [t[d + 1]];
      assert t[d..e] == t[d..d + 1] + t[d + 1..f] + t[f..e];
    }
  }

  /** Where the parts of the number at `p` start. */
  datatype Cuts = Cuts(a: nat, b: nat, c: nat, d: nat)

  function CutsOf(t: seq<Byte>, p: nat): (k: Cuts)
    requires p < |t|
    ensures p <= k.a <= k.b <= k.c <= k.d <= |t|
  {
    var a := if t[p] == MINUS then p + 1 else p;
    var b := SkipDigits(t, a);
    var c := if b < |t| && t[b] == DOT then b + 1 else b;
    Cuts(a, b, c, SkipDigits(t, c))
  }

  /** What stands between the cuts. */
  lemma CutSlices(t: seq<Byte>, p: nat)
    requires p < |t|
    ensures var k := CutsOf(t, p);
            && Digits(t[k.a..k.b]) && Digits(t[k.c..k.d])
            && t[p..k.a] == (if t[p] == MINUS then [MINUS] else [])
            && t[k.b..k.c] == (if k.c > k.b then [DOT] else [])
            && (k.c == k.b ==> k.d == k.c)
  {
    hide Digits, SkipDigits, Digit;
    var k := CutsOf(t, p);
    NoDigits(t, k.b);
    OneOrNone(t, p, k.a);
    OneOrNone(t, k.b, k.c);
  }

  lemma NumberFacts(t: seq<Byte>, p: nat)
    requires p < |t| && NumberEnd(t, p).Some?
    ensures var k := CutsOf(t, p);
            && (k.b > k.a || k.d > k.c)
            && (k.d < |t| && Exponent(t[k.d]) ==>
                  && k.d + 1 < |t|
                  && var f := if t[k.d + 1] == PLUS || t[k.d + 1] == MINUS then k.d + 2 else k.d + 1;
                     SkipDigits(t, f) > f && NumberEnd(t, p) == Some(SkipDigits(t, f)))
            && (!(k.d < |t| && Exponent(t[k.d])) ==> NumberEnd(t, p) == Some(k.d))
  {
    hide Digits, SkipDigits, Digit, Exponent;
    NoDigits(t, CutsOf(t, p).b);
  }

  lemma OneOrNone(t: seq<Byte>, i: nat, j: nat)
    requires i <= j <= i + 1 && j <= |t|
    ensures t[i..j] == if i == j then [] else [t[i]]
  {
  }

  lemma NumberSound(t: seq<Byte>, p: nat) returns (v: Value)
    requires p < |t| && NumberEnd(t, p).Some?
    ensures v.Num? && Good(v) && At(t, p, NumText(v)) && NumberEnd(t, p) == Some(p + |NumText(v)|)
  {
    hide PowerOk, PowerText, Digits, NumberEnd, SkipDigits, CutsOf;
    NumberFacts(t, p);
    CutSlices(t, p);
    var k := CutsOf(t, p);
    var power, e := PowerSound(t, p, k.d);
    v := NumberOf(t, p, k, power, e);
  }

  lemma NumberOf(t: seq<Byte>, p: nat, k: Cuts, w: Power, e: nat) returns (v: Value)
    requires p <= k.a <= k.b <= k.c <= k.d <= e <= |t| && p < |t| && PowerOk(w) && t[k.d..e] == PowerText(w)
    requires Digits(t[k.a..k.b]) && Digits(t[k.c..k.d]) && (k.b > k.a || k.d > k.c)
    requires t[p..k.a] == (if t[p] == MINUS then [MINUS] else [])
    requires t[k.b..k.c] == (if k.c > k.b then [DOT] else [])
    requires k.c == k.b ==> k.d == k.c
    ensures v.Num? && Good(v) && At(t, p, NumText(v)) && e == p + |NumText(v)|
  {
    hide PowerOk, PowerText, Digits;
    v := Num(t[p] == MINUS, t[k.a..k.b], k.c > k.b, t[k.c..k.d], w);
    assert t[p..e] == NumText(v) by {
      Five(t, p, k.a, k.b, k.c, k.d, e);
    }
    assert |t[p..e]| == e - p && |v.whole| == k.b - k.a && |v.fraction| == k.d - k.c;
  }

  lemma Five(t: seq<Byte>, p: nat, a: nat, b: nat, c: nat, d: nat, e: nat)
    requires p <= a <= b <= c <= d <= e <= |t|
    ensures t[p..e] == t[p..a] + t[a..b] + t[b..c] + t[c..d] + t[d..e]
  {
    TwoParts(t, p, a, b);
    TwoParts(t, p, b, c);
    TwoParts(t, p, c, d);
    TwoParts(t, p, d, e);
  }

  lemma TwoParts(t: seq<Byte>, p: nat, m: nat, e: nat)
    requires p <= m <= e <= |t|
    ensures t[p..e] == t[p..m] + t[m..e]
  {
  }

  lemma NoDigits(t: seq<Byte>, b: nat)
    requires b <= |t| && (b < |t| ==> !Digit(t[b]))
    ensures SkipDigits(t, b) == b
  {
  }

  /** A first byte that opens something closed by a mark of its own. */
  predicate Bracket(b: Byte) { b == QUOTE || b == OPEN_ARRAY || b == OPEN_OBJECT }

  /** The value read from `q`: only a literal that the end of the data cuts short is none. */
  lemma {:induction false} BodySound(t: seq<Byte>, q: nat, st: Counts, lvl: nat) returns (v: Value)
    requires q < |t| && lvl <= MAX_LEVEL && Body(t, q, st, lvl).Some?
    requires Body(t, q, st, lvl).value.0 < |t| || Bracket(t[q])
    ensures Good(v) && At(t, q, Text(v)) && lvl + 2 * Depth(v) <= MAX_LEVEL
    ensures Body(t, q, st, lvl) == Some((q + |Text(v)|, Add(st, Tally(v))))
    ensures v.Arr? <==> t[q] == OPEN_ARRAY
    ensures v.Obj? <==> t[q] == OPEN_OBJECT
    decreases |t| - q, 1
  {
    hide StringEnd, NumberEnd, ArrayFrom, ObjectFrom, WordEnd, PiecesText, ItemsText, MembersText, NumText,
      GoodItems, GoodMembers, ItemsTally, MembersTally, ItemsDepth, MembersDepth, PiecesOk, Digits;
    AtOne(t, q);
    if t[q] == QUOTE {
      var ps := StringSound(t, q + 1);
      v := Str(ps);
      AtJoin(t, q, [QUOTE], PiecesText(ps));
    } else if t[q] == OPEN_ARRAY {
      var items := ItemsSound(t, q + 1, st, lvl + 1);
      v := Arr(items);
      AtJoin(t, q, [OPEN_ARRAY], ItemsText(items));
    } else if t[q] == OPEN_OBJECT {
      var members := MembersSound(t, q + 1, st, lvl + 1);
      v := Obj(members);
      AtJoin(t, q, [OPEN_OBJECT], MembersText(members));
    } else if t[q] == WordHead(True) {
      v := Lit(True);
      WordSound(t, q, True);
    } else if t[q] == WordHead(False) {
      v := Lit(False);
      WordSound(t, q, False);
    } else if t[q] == WordHead(Null) {
      v := Lit(Null);
      WordSound(t, q, Null);
    } else {
      v := NumberSound(t, q);
    }
  }

  lemma WordSound(t: seq<Byte>, q: nat, w: Word)
    requires q < |t| && t[q] == WordHead(w)
    requires var r := WordEnd(t, q + 1, WordTail(w)); r.Some? && r.value < |t|
    ensures At(t, q, Text(Lit(w))) && WordEnd(t, q + 1, WordTail(w)) == Some(q + |Text(Lit(w))|)
  {
    AtOne(t, q);
    AtJoin(t, q, [WordHead(w)], WordTail(w));
  }

  lemma AtSpan(t: seq<Byte>, p: nat, q: nat)
    requires p <= q <= |t|
    ensures At(t, p, t[p..q])
  {
  }

  /** A value with the blanks around it, when something follows. */
  lemma {:induction false} ParseSound(t: seq<Byte>, p: nat, st: Counts, lvl: nat)
    returns (before: seq<Byte>, v: Value, after: seq<Byte>)
    requires p <= |t| && Parse(t, p, st, lvl).Some?
    requires var q := Skip(t, p); Parse(t, p, st, lvl).value.0 < |t| || (q < |t| && Bracket(t[q]))
    ensures Good(v) && Blank(before) && Blank(after) && lvl + 2 * Depth(v) <= MAX_LEVEL
    ensures At(t, p, before + Text(v) + after) && |before| == Skip(t, p) - p
    ensures Parse(t, p, st, lvl) == Some((p + |before + Text(v) + after|, Add(st, Tally(v))))
    ensures Skip(t, p) < |t|
    ensures v.Arr? <==> t[Skip(t, p)] == OPEN_ARRAY
    ensures v.Obj? <==> t[Skip(t, p)] == OPEN_OBJECT
    decreases |t| - p, 2
  {
    hide Body, Text, Good, Depth, Tally, At;
    var q := Skip(t, p);
    v := BodySound(t, q, st, lvl);
    var e := q + |Text(v)|;
    before, after := t[p..q], t[e..Skip(t, e)];
    AtSpan(t, p, q);
    AtSpan(t, e, Skip(t, e));
    AtJoin(t, p, before, Text(v));
    AtJoin(t, p, before + Text(v), after);
  }

  lemma {:induction false} ItemsSound(t: seq<Byte>, p: nat, st: Counts, lvl: nat) returns (items: Items)
    requires p <= |t| && 1 <= lvl <= MAX_LEVEL + 1 && ArrayFrom(t, p, st, lvl).Some?
    ensures GoodItems(items) && At(t, p, ItemsText(items)) && lvl + 2 * ItemsDepth(items) <= MAX_LEVEL + 1
    ensures var c := Add(st, ItemsTally(items));
            ArrayFrom(t, p, st, lvl) == Some((p + |ItemsText(items)|, Closing(c)))
    decreases |t| - p, 4
  {
    hide Parse, Text, Good, Depth, Tally, At, Skip, Blank, ItemsText, ItemsDepth, ItemsTally, GoodItems, Add,
      Max, Closing;
    var q := Skip(t, p);
    AddNone(st);
    AtSpan(t, p, q);
    AtOne(t, q);
    if t[q] == CLOSE_ARRAY {
      items := NoItem(t[p..q]);
      ItemsParts(items);
      AtJoin(t, p, t[p..q], [CLOSE_ARRAY]);
      NoItemFacts(t, p, st, lvl);
      hide ArrayFrom;
      assert |ItemsText(items)| == q - p + 1;
    } else {
      items := SomeItemsSound(t, p, st, lvl);
    }
  }

  lemma {:induction false} SomeItemsSound(t: seq<Byte>, p: nat, st: Counts, lvl: nat) returns (items: Items)
    requires p <= |t| && 1 <= lvl <= MAX_LEVEL + 1 && ArrayFrom(t, p, st, lvl).Some?
    requires Skip(t, p) < |t| && t[Skip(t, p)] != CLOSE_ARRAY
    ensures GoodItems(items) && At(t, p, ItemsText(items)) && lvl + 2 * ItemsDepth(items) <= MAX_LEVEL + 1
    ensures var c := Add(st, ItemsTally(items));
            ArrayFrom(t, p, st, lvl) == Some((p + |ItemsText(items)|, Closing(c)))
    decreases |t| - p, 3, 1
  {
    hide *;
    ArrayFacts(t, p, st, lvl);
    var before, v, after := ItemSound(t, p, st, lvl + 1);
    var e := p + |before + Text(v) + after|;
    if t[e] == COMMA {
      var more := ItemsSound(t, e + 1, Add(st, Tally(v)), lvl);
      items := Item(before, v, after, more);
      ItemMore(t, p, e, st, lvl, before, v, after, more);
    } else {
      items := LastItem(before, v, after);
      ItemLast(t, p, e, lvl, before, v, after);
    }
  }

  lemma ItemMore(t: seq<Byte>, p: nat, e: nat, st: Counts, lvl: nat, before: seq<Byte>, v: Value, after: seq<Byte>,
                 more: Items)
    requires e == p + |before + Text(v) + after| && At(t, p, before + Text(v) + after + [COMMA])
    requires Good(v) && Blank(before) && Blank(after) && lvl + 1 + 2 * Depth(v) <= MAX_LEVEL
    requires GoodItems(more) && At(t, e + 1, ItemsText(more)) && lvl + 2 * ItemsDepth(more) <= MAX_LEVEL + 1
    ensures var i := Item(before, v, after, more);
            && GoodItems(i) && At(t, p, ItemsText(i)) && lvl + 2 * ItemsDepth(i) <= MAX_LEVEL + 1
            && p + |ItemsText(i)| == e + 1 + |ItemsText(more)|
            && Add(st, ItemsTally(i)) == Add(Add(st, Tally(v)), ItemsTally(more))
  {
    hide *;
    var i := Item(before, v, after, more);
    ItemsParts(i);
    AddAssoc(st, Tally(v), ItemsTally(more));
    MaxDepth(1 + Depth(v), ItemsDepth(more), lvl);
    AtJoin(t, p, before + Text(v) + after + [COMMA], ItemsText(more));
  }

  lemma ItemLast(t: seq<Byte>, p: nat, e: nat, lvl: nat, before: seq<Byte>, v: Value, after: seq<Byte>)
    requires e == p + |before + Text(v) + after| && At(t, p, before + Text(v) + after + [CLOSE_ARRAY])
    requires Good(v) && Blank(before) && Blank(after) && lvl + 1 + 2 * Depth(v) <= MAX_LEVEL
    ensures var i := LastItem(before, v, after);
            && GoodItems(i) && At(t, p, ItemsText(i)) && lvl + 2 * ItemsDepth(i) <= MAX_LEVEL + 1
            && p + |ItemsText(i)| == e + 1 && ItemsTally(i) == Tally(v)
  {
    hide *;
    ItemsParts(LastItem(before, v, after));
  }

  lemma AddNone(a: Counts)
    ensures Add(a, NONE) == a
  {
  }

  lemma AddAssoc(a: Counts, b: Counts, c: Counts)
    ensures Add(Add(a, b), c) == Add(a, Add(b, c))
  {
  }

  lemma MaxDepth(a: nat, b: nat, lvl: nat)
    ensures lvl + 2 * Max(a, b) <= MAX_LEVEL + 1 <==> lvl + 2 * a <= MAX_LEVEL + 1 && lvl + 2 * b <= MAX_LEVEL + 1
  {
  }

  lemma ItemsParts(i: Items)
    ensures GoodItems(i) <==>
            && Blank(i.before) && (!i.NoItem? ==> Good(i.value) && Blank(i.after)) && (i.Item? ==> GoodItems(i.more))
    ensures ItemsText(i) ==
            if i.NoItem? then i.before + [CLOSE_ARRAY]
            else if i.LastItem? then i.before + Text(i.value) + i.after + [CLOSE_ARRAY]
            else i.before + Text(i.value) + i.after + [COMMA] + ItemsText(i.more)
    ensures ItemsDepth(i) ==
            if i.NoItem? then 0
            else if i.LastItem? then 1 + Depth(i.value)
            else Max(1 + Depth(i.value), ItemsDepth(i.more))
    ensures ItemsTally(i) ==
            if i.NoItem? then NONE
            else if i.LastItem? then Tally(i.value)
            else Add(Tally(i.value), ItemsTally(i.more))
  {
  }

  lemma MembersParts(m: Members)
    ensures GoodMembers(m) <==>
            && Blank(m.before)
            && (!m.NoMember? ==> && PiecesOk(m.key) && Blank(m.colon) && Blank(m.gap) && Good(m.value)
                                 && Blank(m.after))
            && (m.Member? ==> GoodMembers(m.more))
    ensures MembersDepth(m) ==
            if m.NoMember? then 0
            else if m.LastMember? then 1 + Depth(m.value)
            else Max(1 + Depth(m.value), MembersDepth(m.more))
    ensures MembersTally(m) ==
            if m.NoMember? then NONE
            else if m.LastMember? then Tally(m.value)
            else Add(Tally(m.value), MembersTally(m.more))
    ensures m.NoMember? ==> MembersText(m) == m.before + [CLOSE_OBJECT]
  {
  }

  lemma NoItemFacts(t: seq<Byte>, p: nat, st: Counts, lvl: nat)
    requires p <= |t| && Skip(t, p) < |t| && t[Skip(t, p)] == CLOSE_ARRAY
    ensures ArrayFrom(t, p, st, lvl) == Some((Skip(t, p) + 1, Closing(st)))
  {
    hide Parse, Skip;
  }

  lemma ArrayFacts(t: seq<Byte>, p: nat, st: Counts, lvl: nat)
    requires p <= |t| && ArrayFrom(t, p, st, lvl).Some? && t[Skip(t, p)] != CLOSE_ARRAY
    ensures Skip(t, p) < |t| && Parse(t, Skip(t, p), st, lvl + 1).Some?
    ensures var r := Parse(t, Skip(t, p), st, lvl + 1).value;
            && r.0 < |t| && (t[r.0] == COMMA || t[r.0] == CLOSE_ARRAY)
            && (t[r.0] == COMMA ==> ArrayFrom(t, p, st, lvl) == ArrayFrom(t, r.0 + 1, r.1, lvl))
            && (t[r.0] == CLOSE_ARRAY ==> ArrayFrom(t, p, st, lvl) == Some((r.0 + 1, Closing(r.1))))
  {
    hide Parse, Skip;
  }

  /** An item of an array with the mark that follows it. */
  lemma {:induction false} ItemSound(t: seq<Byte>, p: nat, st: Counts, lvl: nat)
    returns (before: seq<Byte>, v: Value, after: seq<Byte>)
    requires p <= |t| && Skip(t, p) < |t| && Parse(t, Skip(t, p), st, lvl).Some?
    requires Parse(t, Skip(t, p), st, lvl).value.0 < |t|
    ensures Good(v) && Blank(before) && Blank(after) && lvl + 2 * Depth(v) <= MAX_LEVEL
    ensures var e := p + |before + Text(v) + after|;
            e < |t| && At(t, p, before + Text(v) + after + [t[e]])
            && Parse(t, Skip(t, p), st, lvl) == Some((e, Add(st, Tally(v))))
    decreases |t| - p, 3, 0
  {
    hide Parse, Text, Good, Depth, Tally, At, Skip, Blank;
    SkipTwice(t, p);
    var q := Skip(t, p);
    AtSpan(t, p, q);
    var gap: seq<Byte>;
    gap, v, after := ParseSound(t, q, st, lvl);
    assert gap == [];
    assert [] + Text(v) + after == Text(v) + after;
    before := t[p..q];
    AtJoin(t, p, before, Text(v) + after);
    assert before + Text(v) + after == before + (Text(v) + after);
    var e := p + |before + Text(v) + after|;
    AtOne(t, e);
    AtJoin(t, p, before + Text(v) + after, [t[e]]);
  }

  lemma SkipTwice(t: seq<Byte>, p: nat)
    requires p <= |t|
    ensures Skip(t, Skip(t, p)) == Skip(t, p)
  {
  }

  lemma KeySound(t: seq<Byte>, p: nat) returns (key: seq<Piece>, colon: seq<Byte>)
    requires p <= |t| && KeyEnd(t, p).Some?
    ensures PiecesOk(key) && Blank(colon) && At(t, p, KeyText(key, colon))
    ensures KeyEnd(t, p) == Some(p + |KeyText(key, colon)|)
  {
    hide At, PiecesText, StringEnd;
    key := StringSound(t, p);
    var e := p + |PiecesText(key)|;
    var k := Skip(t, e);
    colon := t[e..k];
    AtSpan(t, e, k);
    AtOne(t, k);
    AtJoin(t, p, PiecesText(key), colon);
    AtJoin(t, p, PiecesText(key) + colon, [COLON]);
  }

  lemma {:induction false} MembersSound(t: seq<Byte>, p: nat, st: Counts, lvl: nat) returns (members: Members)
    requires p <= |t| && 1 <= lvl <= MAX_LEVEL + 1 && ObjectFrom(t, p, st, lvl).Some?
    ensures GoodMembers(members) && At(t, p, MembersText(members))
    ensures lvl + 2 * MembersDepth(members) <= MAX_LEVEL + 1
    ensures ObjectFrom(t, p, st, lvl) == Some((p + |MembersText(members)|, Add(st, MembersTally(members))))
    decreases |t| - p, 4
  {
    hide Parse, Text, Good, Depth, Tally, At, Skip, Blank, KeyEnd, KeyText, PiecesText, PiecesOk, MembersText,
      MembersDepth, MembersTally, GoodMembers, Add, Max;
    var q := Skip(t, p);
    AddNone(st);
    AtSpan(t, p, q);
    AtOne(t, q);
    if t[q] == CLOSE_OBJECT {
      members := NoMember(t[p..q]);
      MembersParts(members);
      assert |MembersText(members)| == q - p + 1;
      AtJoin(t, p, t[p..q], [CLOSE_OBJECT]);
    } else {
      members := SomeMembersSound(t, p, st, lvl);
    }
  }

  lemma {:induction false} SomeMembersSound(t: seq<Byte>, p: nat, st: Counts, lvl: nat) returns (members: Members)
    requires p <= |t| && 1 <= lvl <= MAX_LEVEL + 1 && ObjectFrom(t, p, st, lvl).Some?
    requires Skip(t, p) < |t| && t[Skip(t, p)] != CLOSE_OBJECT
    ensures GoodMembers(members) && At(t, p, MembersText(members))
    ensures lvl + 2 * MembersDepth(members) <= MAX_LEVEL + 1
    ensures ObjectFrom(t, p, st, lvl) == Some((p + |MembersText(members)|, Add(st, MembersTally(members))))
    decreases |t| - p, 3, 1
  {
    hide *;
    ObjectFacts(t, p, st, lvl);
    var m, e := MemberSound(t, p, st, lvl + 1);
    if t[e] == COMMA {
      var more := MembersSound(t, e + 1, Add(st, Tally(m.value)), lvl);
      members := Member(m.before, m.key, m.colon, m.gap, m.value, m.after, more);
      MemberMore(t, p, e, st, lvl, m, more);
    } else {
      members := m;
      MemberLast(t, p, e, lvl, m);
    }
  }

  /** The parts of a member are good, apart from what follows it. */
  predicate GoodMember(m: Members, lvl: nat)
    requires !m.NoMember?
  {
    && Blank(m.before) && PiecesOk(m.key) && Blank(m.colon) && Blank(m.gap)
    && Good(m.value) && Blank(m.after) && lvl + 2 * Depth(m.value) <= MAX_LEVEL
  }

  lemma MemberMore(t: seq<Byte>, p: nat, e: nat, st: Counts, lvl: nat, m: Members, more: Members)
    requires m.LastMember? && e == p + |HeadText(m)| && At(t, p, HeadText(m) + [COMMA]) && GoodMember(m, lvl + 1)
    requires GoodMembers(more) && At(t, e + 1, MembersText(more)) && lvl + 2 * MembersDepth(more) <= MAX_LEVEL + 1
    ensures var n := Member(m.before, m.key, m.colon, m.gap, m.value, m.after, more);
            && GoodMembers(n) && At(t, p, MembersText(n)) && lvl + 2 * MembersDepth(n) <= MAX_LEVEL + 1
            && p + |MembersText(n)| == e + 1 + |MembersText(more)|
            && Add(st, MembersTally(n)) == Add(Add(st, Tally(m.value)), MembersTally(more))
  {
    hide *;
    var n := Member(m.before, m.key, m.colon, m.gap, m.value, m.after, more);
    GoodMemberParts(m, lvl + 1);
    MembersParts(n);
    SameHead(m, n);
    HeadIs(n);
    AddAssoc(st, Tally(m.value), MembersTally(more));
    MaxDepth(1 + Depth(m.value), MembersDepth(more), lvl);
    AtJoin(t, p, HeadText(m) + [COMMA], MembersText(more));
  }

  lemma MemberLast(t: seq<Byte>, p: nat, e: nat, lvl: nat, m: Members)
    requires m.LastMember? && e == p + |HeadText(m)| && At(t, p, HeadText(m) + [CLOSE_OBJECT]) && GoodMember(m, lvl + 1)
    ensures GoodMembers(m) && At(t, p, MembersText(m)) && lvl + 2 * MembersDepth(m) <= MAX_LEVEL + 1
    ensures p + |MembersText(m)| == e + 1 && MembersTally(m) == Tally(m.value)
  {
    hide *;
    GoodMemberParts(m, lvl + 1);
    MembersParts(m);
    HeadIs(m);
  }

  lemma GoodMemberParts(m: Members, lvl: nat)
    requires !m.NoMember? && GoodMember(m, lvl)
    ensures Blank(m.before) && PiecesOk(m.key) && Blank(m.colon) && Blank(m.gap)
    ensures Good(m.value) && Blank(m.after) && lvl + 2 * Depth(m.value) <= MAX_LEVEL
  {
  }

  lemma SameHead(m: Members, n: Members)
    requires !m.NoMember? && !n.NoMember? && m.before == n.before && m.key == n.key && m.colon == n.colon
    requires m.gap == n.gap && m.value == n.value && m.after == n.after
    ensures HeadText(m) == HeadText(n)
  {
  }

  lemma HeadIs(m: Members)
    requires !m.NoMember?
    ensures MembersText(m) == if m.LastMember? then HeadText(m) + [CLOSE_OBJECT] else HeadText(m) + [COMMA] + MembersText(m.more)
    ensures HeadText(m) == m.before + [QUOTE] + KeyText(m.key, m.colon) + (m.gap + Text(m.value) + m.after)
  {
    MembersTextIs(m);
  }

  function HeadText(m: Members): seq<Byte>
    requires !m.NoMember?
  {
    m.before + [QUOTE] + KeyText(m.key, m.colon) + (m.gap + Text(m.value) + m.after)
  }

  lemma ObjectFacts(t: seq<Byte>, p: nat, st: Counts, lvl: nat)
    requires p <= |t| && ObjectFrom(t, p, st, lvl).Some? && t[Skip(t, p)] != CLOSE_OBJECT
    ensures Skip(t, p) < |t| && t[Skip(t, p)] == QUOTE && KeyEnd(t, Skip(t, p) + 1).Some?
    ensures Parse(t, KeyEnd(t, Skip(t, p) + 1).value, st, lvl + 1).Some?
    ensures var r := Parse(t, KeyEnd(t, Skip(t, p) + 1).value, st, lvl + 1).value;
            && r.0 < |t| && (t[r.0] == COMMA || t[r.0] == CLOSE_OBJECT)
            && (t[r.0] == COMMA ==> ObjectFrom(t, p, st, lvl) == ObjectFrom(t, r.0 + 1, r.1, lvl))
            && (t[r.0] == CLOSE_OBJECT ==> ObjectFrom(t, p, st, lvl) == Some((r.0 + 1, r.1)))
  {
    hide Parse, Skip, KeyEnd;
  }

  /** A member of an object with the mark that follows it, as if it were the last. */
  lemma {:induction false} MemberSound(t: seq<Byte>, p: nat, st: Counts, lvl: nat) returns (m: Members, e: nat)
    requires p <= |t| && Skip(t, p) < |t| && t[Skip(t, p)] == QUOTE && KeyEnd(t, Skip(t, p) + 1).Some?
    requires var k := KeyEnd(t, Skip(t, p) + 1).value;
             Parse(t, k, st, lvl).Some? && Parse(t, k, st, lvl).value.0 < |t|
    ensures m.LastMember? && GoodMember(m, lvl)
    ensures e == p + |HeadText(m)| < |t| && At(t, p, HeadText(m) + [t[e]])
    ensures Parse(t, KeyEnd(t, Skip(t, p) + 1).value, st, lvl) == Some((e, Add(st, Tally(m.value))))
    decreases |t| - p, 3, 0
  {
    hide Parse, Text, Good, Depth, Tally, At, Skip, Blank, KeyEnd, KeyText, PiecesText, PiecesOk;
    var q := Skip(t, p);
    var before := t[p..q];
    AtSpan(t, p, q);
    AtOne(t, q);
    AtJoin(t, p, before, [QUOTE]);
    var key, colon := KeySound(t, q + 1);
    AtJoin(t, p, before + [QUOTE], KeyText(key, colon));
    var k := q + 1 + |KeyText(key, colon)|;
    var gap, v, after := ParseSound(t, k, st, lvl);
    AtJoin(t, p, before + [QUOTE] + KeyText(key, colon), gap + Text(v) + after);
    m := LastMember(before, key, colon, gap, v, after);
    e := p + |HeadText(m)|;
    AtOne(t, e);
    AtJoin(t, p, HeadText(m), [t[e]]);
  }
}
