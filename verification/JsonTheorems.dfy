/** Exactly which texts are taken for JSON, and what the counters say of them. */
module JsonTheorems {
  import opened Bytes
  import opened Json
  import opened JsonParse
  import opened JsonComplete
  import opened JsonSound

  const MAX_DEPTH: nat := 250

  /** One array or object with blanks around it, no value in it deeper than the deepest level. */
  ghost predicate IsDocument(t: seq<Byte>, before: seq<Byte>, v: Value, after: seq<Byte>) {
    && t == before + Text(v) + after && Good(v) && Blank(before) && Blank(after)
    && (v.Arr? || v.Obj?) && Depth(v) <= MAX_DEPTH
  }

  /** A document, and a second one of the same kind one level less deep, whatever comes after it. */
  ghost predicate IsTwo(t: seq<Byte>, before: seq<Byte>, v: Value, mid: seq<Byte>, w: Value, rest: seq<Byte>) {
    && t == before + Text(v) + mid + (Text(w) + rest) && Good(v) && Good(w) && Blank(before) && Blank(mid)
    && ((v.Arr? && w.Arr?) || (v.Obj? && w.Obj?)) && Depth(v) <= MAX_DEPTH && Depth(w) < MAX_DEPTH
  }

  lemma {:induction false} TallyHasCollection(v: Value)
    ensures v.Arr? || v.Obj? ==> HasCollection(Tally(v))
    ensures !v.Arr? && !v.Obj? ==> !HasCollection(Tally(v))
  {
  }

  lemma Whole0(t: seq<Byte>)
    ensures At(t, 0, t)
  {
  }

  /** A document is read to its end, and every counter is the number of such values in it. */
  lemma DocumentParsed(t: seq<Byte>, before: seq<Byte>, v: Value, after: seq<Byte>)
    requires IsDocument(t, before, v, after)
    ensures Parse(t, 0, NONE, 0) == Some((|t|, Tally(v))) && Whole(t) == 1
  {
    hide Parse, Text, Good, Depth, Tally, Skip, HasCollection;
    Whole0(t);
    ParseComplete(t, 0, before, v, after, NONE, 0);
    NoneAdd(Tally(v));
    TallyHasCollection(v);
  }

  lemma NoneAdd(a: Counts)
    ensures Add(NONE, a) == a
  {
  }

  /** A text that comes to 1 is a document. */
  lemma OneIsDocument(t: seq<Byte>) returns (before: seq<Byte>, v: Value, after: seq<Byte>)
    requires Whole(t) == 1
    ensures IsDocument(t, before, v, after)
  {
    hide Text, Good, Depth, Tally, At;
    CollectionBracket(t, 0, NONE, 0);
    before, v, after := ParseSound(t, 0, NONE, 0);
    AtWhole(t, before + Text(v) + after);
    NoneAdd(Tally(v));
    TallyHasCollection(v);
  }

  lemma AtWhole(t: seq<Byte>, s: seq<Byte>)
    requires At(t, 0, s) && |s| == |t|
    ensures t == s
  {
    assert t[0..|s|] == t;
  }

  /** Only a bracket or a brace brings an array or an object. */
  lemma CollectionBracket(t: seq<Byte>, p: nat, st: Counts, lvl: nat)
    requires p <= |t| && Parse(t, p, st, lvl).Some? && !HasCollection(st)
    requires HasCollection(Parse(t, p, st, lvl).value.1)
    ensures Skip(t, p) < |t| && (t[Skip(t, p)] == OPEN_ARRAY || t[Skip(t, p)] == OPEN_OBJECT)
  {
    hide StringEnd, NumberEnd, WordEnd, ArrayFrom, ObjectFrom;
  }

  /** Exactly the documents come to 1. */
  lemma WholeIsOne(t: seq<Byte>)
    ensures Whole(t) == 1 <==> exists before, v, after :: IsDocument(t, before, v, after)
  {
    if Whole(t) == 1 {
      var before, v, after := OneIsDocument(t);
    }
    forall before, v, after | IsDocument(t, before, v, after)
      ensures Whole(t) == 1
    {
      DocumentParsed(t, before, v, after);
    }
  }

  /** The first of two documents is read up to the second. */
  lemma FirstParsed(t: seq<Byte>, before: seq<Byte>, v: Value, mid: seq<Byte>, w: Value, rest: seq<Byte>)
    requires IsTwo(t, before, v, mid, w, rest)
    ensures var e := |before + Text(v) + mid|;
            && Parse(t, 0, NONE, 0) == Some((e, Tally(v)))
            && At(t, e, Text(w)) && e < |t| && Skip(t, 0) < |t| && t[Skip(t, 0)] == t[e] && !Space(t[e])
  {
    hide Text, Good, Depth, Tally, Skip, At, Parse;
    hide HasCollection, Blank, Space, Closes;
    var e := |before + Text(v) + mid|;
    TwoPlaces(t, before, v, mid, w, rest);
    TextHead(t, |before|, v);
    TextHead(t, e, w);
    SkipBlank(t, 0, before);
    ParseComplete(t, 0, before, v, mid, NONE, 0);
    NoneAdd(Tally(v));
  }

  lemma TwoPlaces(t: seq<Byte>, before: seq<Byte>, v: Value, mid: seq<Byte>, w: Value, rest: seq<Byte>)
    requires t == before + Text(v) + mid + (Text(w) + rest)
    ensures At(t, 0, before + Text(v) + mid) && At(t, 0, before) && At(t, |before|, Text(v))
    ensures At(t, |before + Text(v) + mid|, Text(w))
  {
    hide Text, At;
    Whole0(t);
    AtSplit(t, 0, before + Text(v) + mid, Text(w) + rest);
    AtSplit(t, 0, before + Text(v), mid);
    AtSplit(t, 0, before, Text(v));
    AtSplit(t, |before + Text(v) + mid|, Text(w), rest);
  }

  lemma PairParsed(t: seq<Byte>, before: seq<Byte>, v: Value, mid: seq<Byte>, w: Value, rest: seq<Byte>)
    requires IsTwo(t, before, v, mid, w, rest)
    ensures Whole(t) == 2
  {
    hide Text, Good, Depth, Tally, At, HasCollection, Body;
    FirstParsed(t, before, v, mid, w, rest);
    var e := |before + Text(v) + mid|;
    SkipNone(t, e);
    BodyComplete(t, e, w, Tally(v), 1);
    TallyHasCollection(v);
    MoreCollections(Tally(v), Tally(w));
  }

  /** A text that comes to 2 starts with two documents of one kind. */
  lemma TwoIsPair(t: seq<Byte>)
    returns (before: seq<Byte>, v: Value, mid: seq<Byte>, w: Value, rest: seq<Byte>)
    requires Whole(t) == 2
    ensures IsTwo(t, before, v, mid, w, rest)
  {
    hide Text, Good, Depth, Tally, At, Body;
    var (e, c) := Parse(t, 0, NONE, 0).value;
    before, v, mid := ParseSound(t, 0, NONE, 0);
    NoneAdd(Tally(v));
    SkipNone(t, e);
    SecondBracket(t, e);
    w := BodySound(t, e, c, 1);
    rest := t[e + |Text(w)|..];
    PairText(t, before + Text(v) + mid, Text(w));
    TallyHasCollection(v);
  }

  lemma PairText(t: seq<Byte>, a: seq<Byte>, b: seq<Byte>)
    requires At(t, 0, a) && At(t, |a|, b)
    ensures t == a + (b + t[|a| + |b|..])
  {
    assert t[0..|a|] == a && t[|a|..|a| + |b|] == b;
    assert t == t[0..|a|] + t[|a|..|a| + |b|] + t[|a| + |b|..];
  }

  lemma SecondBracket(t: seq<Byte>, e: nat)
    requires Whole(t) == 2 && e == Parse(t, 0, NONE, 0).value.0
    ensures e < |t| && !Space(t[e]) && (t[e] == OPEN_ARRAY || t[e] == OPEN_OBJECT)
    ensures Parse(t, e, Parse(t, 0, NONE, 0).value.1, 1).Some? && t[Skip(t, 0)] == t[e]
  {
    var c := Parse(t, 0, NONE, 0).value.1;
    if HasCollection(c) {
      CollectionBracket(t, 0, NONE, 0);
    } else {
      CollectionBracket(t, e, c, 1);
    }
  }

  /** Exactly the texts that start with two documents of one kind come to 2. */
  lemma WholeIsTwo(t: seq<Byte>)
    ensures Whole(t) == 2 <==> exists before, v, mid, w, rest :: IsTwo(t, before, v, mid, w, rest)
  {
    if Whole(t) == 2 {
      var before, v, mid, w, rest := TwoIsPair(t);
    }
    forall before, v, mid, w, rest | IsTwo(t, before, v, mid, w, rest)
      ensures Whole(t) == 2
    {
      PairParsed(t, before, v, mid, w, rest);
    }
  }

  lemma SkipNone(t: seq<Byte>, e: nat)
    requires e < |t| && !Space(t[e])
    ensures Skip(t, e) == e
  {
  }

  lemma MoreCollections(a: Counts, b: Counts)
    requires HasCollection(a)
    ensures HasCollection(Add(a, b))
  {
  }
}
