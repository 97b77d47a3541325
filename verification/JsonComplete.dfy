/** Every text of the grammar is parsed, whole and with the right counts, down to the deepest level allowed. */
module JsonComplete {
  import opened Bytes
  import opened Json
  import opened JsonParse

  /** `s` stands in `t` at `p`. */
  predicate At(t: seq<Byte>, p: nat, s: seq<Byte>) { p + |s| <= |t| && t[p..p + |s|] == s }

  lemma AtSplit(t: seq<Byte>, p: nat, a: seq<Byte>, b: seq<Byte>)
    requires At(t, p, a + b)
    ensures At(t, p, a) && At(t, p + |a|, b)
  {
    var s := t[p..p + |a + b|];
    assert s[..|a|] == a && s[|a|..] == b;
    assert t[p..p + |a|] == s[..|a|];
    assert t[p + |a|..p + |a| + |b|] == s[|a|..];
  }

  lemma AtFirst(t: seq<Byte>, p: nat, s: seq<Byte>)
    requires At(t, p, s) && s != []
    ensures p < |t| && t[p] == s[0]
  {
    assert t[p..p + |s|][0] == t[p];
  }

  lemma {:induction false} SkipBlank(t: seq<Byte>, p: nat, ws: seq<Byte>)
    requires At(t, p, ws) && Blank(ws)
    requires p + |ws| == |t| || !Space(t[p + |ws|])
    ensures Skip(t, p) == p + |ws|
    decreases |ws|
  {
    if ws != [] {
      AtFirst(t, p, ws);
      assert ws == [ws[0]] + ws[1..];
      AtSplit(t, p, [ws[0]], ws[1..]);
      SkipBlank(t, p + 1, ws[1..]);
    }
  }

  lemma {:induction false} SkipAll(t: seq<Byte>, p: nat, ds: seq<Byte>)
    requires At(t, p, ds) && Digits(ds)
    requires p + |ds| == |t| || !Digit(t[p + |ds|])
    ensures SkipDigits(t, p) == p + |ds|
    decreases |ds|
  {
    if ds != [] {
      AtFirst(t, p, ds);
      assert ds == [ds[0]] + ds[1..];
      AtSplit(t, p, [ds[0]], ds[1..]);
      SkipAll(t, p + 1, ds[1..]);
    }
  }

  lemma AtIndex(t: seq<Byte>, p: nat, s: seq<Byte>, k: nat)
    requires At(t, p, s) && k < |s|
    ensures p + k < |t| && t[p + k] == s[k]
  {
    assert t[p..p + |s|][k] == t[p + k];
  }

  /** A piece of a string is passed over in one go. */
  lemma PieceComplete(t: seq<Byte>, p: nat, x: Piece)
    requires PieceOk(x) && At(t, p, PieceText(x))
    ensures p + |PieceText(x)| <= |t| && StringEnd(t, p) == StringEnd(t, p + |PieceText(x)|)
  {
    var s := PieceText(x);
    AtIndex(t, p, s, 0);
    if !x.Plain? {
      AtIndex(t, p, s, 1);
      if x.Unicode? {
        AtIndex(t, p, s, 2);
        AtIndex(t, p, s, 3);
        AtIndex(t, p, s, 4);
        AtIndex(t, p, s, 5);
      }
    }
  }

  lemma QuoteComplete(t: seq<Byte>, p: nat)
    requires At(t, p, [QUOTE])
    ensures p <= |t| && StringEnd(t, p) == Some(p + 1)
  {
    AtIndex(t, p, [QUOTE], 0);
  }

  lemma {:induction false} StringComplete(t: seq<Byte>, p: nat, ps: seq<Piece>)
    requires At(t, p, PiecesText(ps)) && PiecesOk(ps)
    ensures p <= |t| && StringEnd(t, p) == Some(p + |PiecesText(ps)|)
    decreases |ps|
  {
    hide StringEnd, At, PieceText, PieceOk;
    if ps == [] {
      QuoteComplete(t, p);
    } else {
      AtSplit(t, p, PieceText(ps[0]), PiecesText(ps[1..]));
      StringComplete(t, p + |PieceText(ps[0])|, ps[1..]);
      PieceComplete(t, p, ps[0]);
    }
  }

  /** The number ends where it does: what follows cannot carry it on. */
  predicate NumberStops(t: seq<Byte>, e: nat) {
    e < |t| ==> !Digit(t[e]) && t[e] != DOT && !Exponent(t[e])
  }

  lemma PowerComplete(t: seq<Byte>, d: nat, w: Power)
    requires w.Power? && PowerOk(w) && At(t, d, PowerText(w))
    requires d + |PowerText(w)| == |t| || !Digit(t[d + |PowerText(w)|])
    ensures d + 1 < |t| && t[d] == w.letter
    ensures var f := if t[d + 1] == PLUS || t[d + 1] == MINUS then d + 2 else d + 1;
            f <= |t| && SkipDigits(t, f) == d + |PowerText(w)| && SkipDigits(t, f) > f
  {
    hide SkipDigits, At;
    var f := d + 1 + |w.sign|;
    PowerPlaces(t, d, w);
    SkipAll(t, f, w.digits);
    AtFirst(t, f, w.digits);
    FirstDigit(w.digits);
    if w.sign != [] { AtFirst(t, d + 1, w.sign); }
  }

  lemma FirstDigit(ds: seq<Byte>)
    requires Digits(ds) && ds != []
    ensures ds[0] != PLUS && ds[0] != MINUS
  {
    assert Digit(ds[0]);
  }

  lemma PowerPlaces(t: seq<Byte>, d: nat, w: Power)
    requires w.Power? && At(t, d, PowerText(w))
    ensures d < |t| && t[d] == w.letter && At(t, d + 1, w.sign) && At(t, d + 1 + |w.sign|, w.digits)
    ensures |PowerText(w)| == 1 + |w.sign| + |w.digits|
  {
    hide At;
    AtSplit(t, d, [w.letter] + w.sign, w.digits);
    AtSplit(t, d, [w.letter], w.sign);
    AtFirst(t, d, [w.letter]);
  }

  lemma NumberComplete(t: seq<Byte>, p: nat, v: Value)
    requires v.Num? && Good(v) && At(t, p, NumText(v)) && NumberStops(t, p + |NumText(v)|)
    ensures p < |t| && NumberEnd(t, p) == Some(p + |NumText(v)|)
  {
    hide Digits, PowerOk, SkipDigits, At, NumText, PowerText, NumberStops;
    var a := p + if v.minus then 1 else 0;
    var b := a + |v.whole|;
    var c := b + if v.dot then 1 else 0;
    var d := c + |v.fraction|;
    NumberPlaces(t, p, v);
    NumberParts(t, a, b, c, d, v);
    NumberHead(t, p, v);
  }

  lemma NumberPlaces(t: seq<Byte>, p: nat, v: Value)
    requires v.Num? && At(t, p, NumText(v))
    ensures var a := p + if v.minus then 1 else 0;
            var b := a + |v.whole|;
            var c := b + if v.dot then 1 else 0;
            var d := c + |v.fraction|;
            && At(t, a, v.whole) && At(t, b, if v.dot then [DOT] else []) && At(t, c, v.fraction)
            && At(t, d, PowerText(v.power)) && p + |NumText(v)| == d + |PowerText(v.power)|
            && b <= |t| && d <= |t| && (v.power.NoPower? ==> PowerText(v.power) == [])
  {
    hide At, PowerText;
    assert v.power.NoPower? ==> PowerText(v.power) == [] by { NoPowerText(v.power); }
    var sign := if v.minus then [MINUS] else [];
    var point := if v.dot then [DOT] else [];
    AtSplit(t, p, sign + v.whole + point + v.fraction, PowerText(v.power));
    AtSplit(t, p, sign + v.whole + point, v.fraction);
    AtSplit(t, p, sign + v.whole, point);
    AtSplit(t, p, sign, v.whole);
    AtRoom(t, p + |sign + v.whole|, point);
    AtRoom(t, p + |sign + v.whole + point + v.fraction|, PowerText(v.power));
  }

  lemma NoPowerText(w: Power)
    ensures w.NoPower? ==> PowerText(w) == []
  {
  }

  lemma AtRoom(t: seq<Byte>, p: nat, s: seq<Byte>)
    requires At(t, p, s)
    ensures p + |s| <= |t|
  {
  }

  /** Where the parts of a number end. */
  lemma NumberParts(t: seq<Byte>, a: nat, b: nat, c: nat, d: nat, v: Value)
    requires v.Num? && Good(v) && b == a + |v.whole| && c == b + (if v.dot then 1 else 0) && d == c + |v.fraction|
    requires At(t, a, v.whole) && At(t, b, if v.dot then [DOT] else []) && At(t, c, v.fraction)
    requires At(t, d, PowerText(v.power)) && NumberStops(t, d + |PowerText(v.power)|)
    ensures SkipDigits(t, a) == b
    ensures b < |t| ==> (if t[b] == DOT then b + 1 else b) == c
    ensures SkipDigits(t, c) == d
    ensures v.power.NoPower? ==> d == |t| || !Exponent(t[d])
    ensures v.power.Power? ==> d < |t| && Exponent(t[d]) && d + 1 < |t|
    ensures v.power.Power? ==> var f := if t[d + 1] == PLUS || t[d + 1] == MINUS then d + 2 else d + 1;
              f <= |t| && SkipDigits(t, f) == d + |PowerText(v.power)| && SkipDigits(t, f) > f
  {
    var w := v.power;
    if w.Power? {
      PowerComplete(t, d, w);
    }
    SkipAll(t, c, v.fraction);
    if v.dot {
      AtFirst(t, b, [DOT]);
    } else {
      assert c == b == d;
    }
    SkipAll(t, a, v.whole);
  }

  /** A number begins with a minus sign, a digit or a point, and a minus sign only when it has one. */
  lemma NumberHead(t: seq<Byte>, p: nat, v: Value)
    requires v.Num? && Good(v) && At(t, p, NumText(v))
    ensures NumText(v) != [] && p < |t| && t[p] == NumText(v)[0]
    ensures t[p] == MINUS <==> v.minus
    ensures t[p] == MINUS || t[p] == DOT || Digit(t[p])
  {
    var s := NumText(v);
    AtFirst(t, p, s);
    if !v.minus {
      if v.whole != [] {
        assert s[0] == v.whole[0];
      } else if !v.dot {
        assert false;
      }
    }
  }

  /** What may come right after a value and the blanks after it. */
  predicate Closes(b: Byte) { b == COMMA || b == CLOSE_ARRAY || b == CLOSE_OBJECT }

  lemma ClosingStops(t: seq<Byte>, e: nat)
    requires e == |t| || (e < |t| && (Space(t[e]) || Closes(t[e])))
    ensures NumberStops(t, e)
  {
  }

  /** The first byte of a value tells what it is, and is neither blank nor a closing mark. */
  lemma TextHead(t: seq<Byte>, q: nat, v: Value)
    requires Good(v) && At(t, q, Text(v))
    ensures q < |t| && !Space(t[q]) && !Closes(t[q])
    ensures v.Str? <==> t[q] == QUOTE
    ensures v.Arr? <==> t[q] == OPEN_ARRAY
    ensures v.Obj? <==> t[q] == OPEN_OBJECT
    ensures v.Lit? ==> t[q] == WordHead(v.word)
    ensures v.Num? ==> t[q] !in {WordHead(True), WordHead(False), WordHead(Null)}
  {
    hide PiecesText, ItemsText, MembersText, Good, NumText;
    if v.Num? {
      NumberHead(t, q, v);
    } else {
      AtFirst(t, q, Text(v));
    }
  }

  lemma WordComplete(t: seq<Byte>, p: nat, tail: seq<Byte>)
    requires At(t, p, tail)
    ensures p <= |t| && WordEnd(t, p, tail) == Some(p + |tail|)
  {
  }

  lemma {:induction false} BodyComplete(t: seq<Byte>, q: nat, v: Value, st: Counts, lvl: nat)
    requires Good(v) && At(t, q, Text(v)) && lvl + 2 * Depth(v) <= MAX_LEVEL
    requires v.Num? ==> NumberStops(t, q + |Text(v)|)
    ensures q < |t| && Body(t, q, st, lvl) == Some((q + |Text(v)|, Add(st, Tally(v))))
    decreases v, 0
  {
    hide StringEnd, NumberEnd, ArrayFrom, ObjectFrom, WordEnd, PiecesText, ItemsText, MembersText, NumText,
      GoodItems, GoodMembers, ItemsTally, MembersTally, ItemsDepth, MembersDepth, PiecesOk, Digits, Closes, Space;
    TextHead(t, q, v);
    match v
    case Str(ps) =>
      AtSplit(t, q, [QUOTE], PiecesText(ps));
      StringComplete(t, q + 1, ps);
    case Num(_, _, _, _, _) => NumberComplete(t, q, v);
    case Lit(w) =>
      AtSplit(t, q, [WordHead(w)], WordTail(w));
      WordComplete(t, q + 1, WordTail(w));
    case Arr(items) =>
      AtSplit(t, q, [OPEN_ARRAY], ItemsText(items));
      ItemsComplete(t, q + 1, items, st, lvl + 1);
    case Obj(members) =>
      AtSplit(t, q, [OPEN_OBJECT], MembersText(members));
      MembersComplete(t, q + 1, members, st, lvl + 1);
  }

  /** A value with blanks around it, up to something that can follow one. */
  lemma {:induction false} ParseComplete(t: seq<Byte>, p: nat, before: seq<Byte>, v: Value, after: seq<Byte>,
                                         st: Counts, lvl: nat)
    requires Good(v) && Blank(before) && Blank(after) && lvl + 2 * Depth(v) <= MAX_LEVEL
    requires At(t, p, before + Text(v) + after)
    requires var e := p + |before + Text(v) + after|; e < |t| ==> !Space(t[e]) && (v.Num? ==> Closes(t[e]))
    ensures Parse(t, p, st, lvl) == Some((p + |before + Text(v) + after|, Add(st, Tally(v))))
    decreases v, 1
  {
    hide Body, Skip, Text;
    AtSplit(t, p, before + Text(v), after);
    AtSplit(t, p, before, Text(v));
    var q := p + |before|;
    var e := q + |Text(v)|;
    TextHead(t, q, v);
    SkipBlank(t, p, before);
    if after != [] { AtFirst(t, e, after); }
    if v.Num? { ClosingStops(t, e); }
    BodyComplete(t, q, v, st, lvl);
    SkipBlank(t, e, after);
  }

  /** An item of an array with its mark after it. */
  lemma {:induction false} ItemComplete(t: seq<Byte>, p: nat, before: seq<Byte>, v: Value, after: seq<Byte>,
                                        mark: Byte, st: Counts, lvl: nat)
    requires Good(v) && Blank(before) && Blank(after) && lvl + 2 * Depth(v) <= MAX_LEVEL && Closes(mark)
    requires At(t, p, before + Text(v) + after + [mark])
    ensures p <= |t|
    ensures var q := Skip(t, p); var e := p + |before + Text(v) + after|;
            && q < |t| && !Closes(t[q]) && e < |t| && t[e] == mark
            && Parse(t, q, st, lvl) == Some((e, Add(st, Tally(v))))
    decreases v, 2
  {
    hide Parse, Skip, Text;
    AtSplit(t, p, before + Text(v) + after, [mark]);
    AtSplit(t, p, before + Text(v), after);
    AtSplit(t, p, before, Text(v));
    var q := p + |before|;
    var e := q + |Text(v) + after|;
    AtFirst(t, e, [mark]);
    TextHead(t, q, v);
    SkipBlank(t, p, before);
    assert before + Text(v) + after == before + (Text(v) + after);
    AtSplit(t, p, before, Text(v) + after);
    assert [] + Text(v) + after == Text(v) + after;
    ParseComplete(t, q, [], v, after, st, lvl);
  }

  lemma {:induction false} ItemsComplete(t: seq<Byte>, p: nat, items: Items, st: Counts, lvl: nat)
    requires GoodItems(items) && At(t, p, ItemsText(items))
    requires lvl <= MAX_LEVEL + 1 && lvl + 2 * ItemsDepth(items) <= MAX_LEVEL + 1
    ensures p <= |t|
    ensures var c := Add(st, ItemsTally(items));
            ArrayFrom(t, p, st, lvl) == Some((p + |ItemsText(items)|, Closing(c)))
    decreases items, 0
  {
    hide Parse, Skip, Text, ArrayFrom, At, Tally, Depth, Good;
    match items
    case NoItem(before) => NoItemComplete(t, p, before, st, lvl);
    case LastItem(before, v, after) =>
      ItemComplete(t, p, before, v, after, CLOSE_ARRAY, st, lvl + 1);
      ArrayStep(t, p, st, lvl, p + |before + Text(v) + after|, Add(st, Tally(v)));
    case Item(before, v, after, more) =>
      AtSplit(t, p, before + Text(v) + after + [COMMA], ItemsText(more));
      ItemComplete(t, p, before, v, after, COMMA, st, lvl + 1);
      ArrayStep(t, p, st, lvl, p + |before + Text(v) + after|, Add(st, Tally(v)));
      ItemsComplete(t, p + |before + Text(v) + after| + 1, more, Add(st, Tally(v)), lvl);
  }

  lemma NoItemComplete(t: seq<Byte>, p: nat, before: seq<Byte>, st: Counts, lvl: nat)
    requires Blank(before) && At(t, p, before + [CLOSE_ARRAY])
    ensures p <= |t| && ArrayFrom(t, p, st, lvl) == Some((p + |before| + 1, Closing(Add(st, NONE))))
  {
    hide Parse, Skip;
    AtSplit(t, p, before, [CLOSE_ARRAY]);
    AtFirst(t, p + |before|, [CLOSE_ARRAY]);
    SkipBlank(t, p, before);
  }

  lemma ArrayStep(t: seq<Byte>, p: nat, st: Counts, lvl: nat, e: nat, c: Counts)
    requires p <= |t| && Skip(t, p) < |t| && !Closes(t[Skip(t, p)]) && e < |t|
    requires Parse(t, Skip(t, p), st, lvl + 1) == Some((e, c))
    ensures t[e] == CLOSE_ARRAY ==> ArrayFrom(t, p, st, lvl) == Some((e + 1, Closing(c)))
    ensures t[e] == COMMA ==> ArrayFrom(t, p, st, lvl) == ArrayFrom(t, e + 1, c, lvl)
  {
    hide Parse, Skip;
  }

  /** The part of a member before its value. */
  function KeyText(key: seq<Piece>, colon: seq<Byte>): seq<Byte> { PiecesText(key) + colon + [COLON] }

  lemma KeyComplete(t: seq<Byte>, p: nat, key: seq<Piece>, colon: seq<Byte>)
    requires PiecesOk(key) && Blank(colon) && At(t, p, KeyText(key, colon))
    ensures p <= |t| && KeyEnd(t, p) == Some(p + |KeyText(key, colon)|)
  {
    hide StringEnd, Skip, PiecesText;
    AtSplit(t, p, PiecesText(key) + colon, [COLON]);
    AtSplit(t, p, PiecesText(key), colon);
    StringComplete(t, p, key);
    AtFirst(t, p + |PiecesText(key) + colon|, [COLON]);
    SkipBlank(t, p + |PiecesText(key)|, colon);
  }

  /** A member of an object with its mark after it. */
  lemma {:induction false} MemberComplete(t: seq<Byte>, p: nat, before: seq<Byte>, key: seq<Piece>,
                                          colon: seq<Byte>, gap: seq<Byte>, v: Value, after: seq<Byte>,
                                          mark: Byte, st: Counts, lvl: nat)
    requires PiecesOk(key) && Blank(colon) && Blank(gap) && Closes(mark)
    requires Good(v) && Blank(before) && Blank(after) && lvl + 2 * Depth(v) <= MAX_LEVEL
    requires At(t, p, before + [QUOTE] + KeyText(key, colon) + (gap + Text(v) + after) + [mark])
    ensures var q := Skip(t, p);
            var k := q + 1 + |KeyText(key, colon)|;
            var e := k + |gap + Text(v) + after|;
            && q == p + |before| && e < |t| && t[q] == QUOTE && KeyEnd(t, q + 1) == Some(k)
            && Parse(t, k, st, lvl) == Some((e, Add(st, Tally(v)))) && t[e] == mark
    decreases v, 2
  {
    hide Parse, Skip, Text, KeyText, KeyEnd;
    var inner := gap + Text(v) + after;
    AtSplit(t, p, before + [QUOTE] + KeyText(key, colon) + inner, [mark]);
    AtSplit(t, p, before + [QUOTE] + KeyText(key, colon), inner);
    AtSplit(t, p, before + [QUOTE], KeyText(key, colon));
    AtSplit(t, p, before, [QUOTE]);
    var q := p + |before|;
    AtFirst(t, q, [QUOTE]);
    SkipBlank(t, p, before);
    KeyComplete(t, q + 1, key, colon);
    var k := q + 1 + |KeyText(key, colon)|;
    AtFirst(t, k + |inner|, [mark]);
    ParseComplete(t, k, gap, v, after, st, lvl);
  }

  lemma MembersTextIs(m: Members)
    requires !m.NoMember?
    ensures var head := m.before + [QUOTE] + KeyText(m.key, m.colon) + (m.gap + Text(m.value) + m.after);
            MembersText(m) == if m.LastMember? then head + [CLOSE_OBJECT] else head + [COMMA] + MembersText(m.more)
  {
    hide Text, PiecesText;
    var key, colon, gap, text, after := PiecesText(m.key), m.colon, m.gap, Text(m.value), m.after;
    assert m.before + [QUOTE] + (key + colon + [COLON]) + (gap + text + after)
        == m.before + [QUOTE] + key + colon + [COLON] + gap + text + after;
  }

  lemma ObjectStep(t: seq<Byte>, p: nat, st: Counts, lvl: nat, q: nat, k: nat, e: nat, c: Counts)
    requires p <= |t| && Skip(t, p) == q < |t| && t[q] == QUOTE && KeyEnd(t, q + 1) == Some(k)
    requires k <= |t| && Parse(t, k, st, lvl + 1) == Some((e, c)) && e < |t|
    ensures t[e] == CLOSE_OBJECT ==> ObjectFrom(t, p, st, lvl) == Some((e + 1, c))
    ensures t[e] == COMMA ==> ObjectFrom(t, p, st, lvl) == ObjectFrom(t, e + 1, c, lvl)
  {
    hide Parse, Skip, KeyEnd;
  }

  lemma Marks()
    ensures Closes(CLOSE_OBJECT) && Closes(COMMA) && !Space(CLOSE_OBJECT)
  {
  }

  lemma {:induction false} MembersComplete(t: seq<Byte>, p: nat, m: Members, st: Counts, lvl: nat)
    requires GoodMembers(m) && At(t, p, MembersText(m))
    requires lvl <= MAX_LEVEL + 1 && lvl + 2 * MembersDepth(m) <= MAX_LEVEL + 1
    ensures p <= |t|
    ensures ObjectFrom(t, p, st, lvl) == Some((p + |MembersText(m)|, Add(st, MembersTally(m))))
    decreases m, 1
  {
    hide Parse, Skip, Text, KeyText, KeyEnd, PiecesText, Tally, Depth, Good, PiecesOk, Closes, Space;
    assert Closes(CLOSE_OBJECT) && Closes(COMMA) && !Space(CLOSE_OBJECT) by { Marks(); }
    if m.NoMember? {
      AtSplit(t, p, m.before, [CLOSE_OBJECT]);
      AtFirst(t, p + |m.before|, [CLOSE_OBJECT]);
      SkipBlank(t, p, m.before);
    } else {
      FullMembersComplete(t, p, m, st, lvl);
    }
  }

  lemma {:induction false} FullMembersComplete(t: seq<Byte>, p: nat, m: Members, st: Counts, lvl: nat)
    requires GoodMembers(m) && At(t, p, MembersText(m)) && !m.NoMember?
    requires lvl <= MAX_LEVEL + 1 && lvl + 2 * MembersDepth(m) <= MAX_LEVEL + 1
    ensures p <= |t|
    ensures ObjectFrom(t, p, st, lvl) == Some((p + |MembersText(m)|, Add(st, MembersTally(m))))
    decreases m, 0
  {
    hide ObjectFrom, Parse, Skip, Text, KeyText, KeyEnd, PiecesText, Tally, Depth, Good, PiecesOk, Closes, Space, At,
      MembersText;
    Marks();
    MembersTextIs(m);
    var head := m.before + [QUOTE] + KeyText(m.key, m.colon) + (m.gap + Text(m.value) + m.after);
    var q := p + |m.before|;
    var k := q + 1 + |KeyText(m.key, m.colon)|;
    var e := k + |m.gap + Text(m.value) + m.after|;
    if m.LastMember? {
      MemberComplete(t, p, m.before, m.key, m.colon, m.gap, m.value, m.after, CLOSE_OBJECT, st, lvl + 1);
      ObjectStep(t, p, st, lvl, q, k, e, Add(st, Tally(m.value)));
    } else {
      AtSplit(t, p, head + [COMMA], MembersText(m.more));
      MemberComplete(t, p, m.before, m.key, m.colon, m.gap, m.value, m.after, COMMA, st, lvl + 1);
      ObjectStep(t, p, st, lvl, q, k, e, Add(st, Tally(m.value)));
      MembersComplete(t, p + |head| + 1, m.more, Add(st, Tally(m.value)), lvl);
    }
  }
}
