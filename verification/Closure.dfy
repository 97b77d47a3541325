/** Repetition of a relation between text positions: the meaning of `*`, `+` and `?`. */
module Closure {
  type Span = (nat, nat) -> bool

  ghost predicate Star(r: Span, i: nat, j: nat)
    decreases j - i
  {
    i == j || exists m: nat | i < m <= j :: r(i, m) && Star(r, m, j)
  }

  ghost predicate Plus(r: Span, i: nat, j: nat) {
    exists m: nat | i <= m <= j :: r(i, m) && Star(r, m, j)
  }

  ghost predicate Opt(r: Span, i: nat, j: nat) {
    i == j || r(i, j)
  }

  ghost predicate Forward(r: Span) {
    forall i, j :: r(i, j) ==> i <= j
  }

  ghost predicate Same(r: Span, s: Span) {
    forall i, j :: r(i, j) <==> s(i, j)
  }

  lemma {:induction false} StarForward(r: Span, i: nat, j: nat)
    requires Star(r, i, j)
    ensures i <= j
  {
  }

  lemma {:induction false} StarAppend(r: Span, i: nat, k: nat, j: nat)
    requires Star(r, i, k) && Star(r, k, j)
    ensures Star(r, i, j)
    decreases k - i
  {
    if i != k {
      var m: nat :| i < m <= k && r(i, m) && Star(r, m, k);
      StarAppend(r, m, k, j);
      StarForward(r, m, j);
    }
  }

  lemma StarOne(r: Span, i: nat, j: nat)
    requires i <= j && r(i, j)
    ensures Star(r, i, j)
  {
    if i < j {
      assert Star(r, j, j);
    }
  }

  lemma StarSnoc(r: Span, i: nat, k: nat, j: nat)
    requires k <= j && Star(r, i, k) && r(k, j)
    ensures Star(r, i, j) && Plus(r, i, j)
  {
    StarOne(r, k, j);
    StarAppend(r, i, k, j);
    StarForward(r, i, k);
    if i == k {
      assert Star(r, j, j);
    } else {
      var m: nat :| i < m <= k && r(i, m) && Star(r, m, k);
      StarAppend(r, m, k, j);
    }
  }

  lemma PlusIsStar(r: Span, i: nat, j: nat)
    requires Plus(r, i, j)
    ensures Star(r, i, j) && i <= j
  {
    var m: nat :| i <= m <= j && r(i, m) && Star(r, m, j);
    StarOne(r, i, m);
    StarAppend(r, i, m, j);
  }

  lemma {:induction false} StarSame(r: Span, s: Span, i: nat, j: nat)
    requires Same(r, s) && Star(r, i, j)
    ensures Star(s, i, j)
    decreases j - i
  {
    if i != j {
      var m: nat :| i < m <= j && r(i, m) && Star(r, m, j);
      StarSame(r, s, m, j);
      assert s(i, m);
    }
  }

  // ----- a run of repetition operators collapses to one -----

  /** Operators applied one after the other, innermost first. */
  ghost function Repeat(r: Span, ops: seq<int>): Span {
    if ops == [] then r
    else
      var q := Repeat(r, ops[..|ops| - 1]);
      var op := ops[|ops| - 1];
      if op == 42 then (i: nat, j: nat) => Star(q, i, j)
      else if op == 43 then (i: nat, j: nat) => Plus(q, i, j)
      else (i: nat, j: nat) => Opt(q, i, j)
  }

  /** The single operator the compiler keeps: whether zero and whether many matches are allowed. */
  ghost function Collapsed(r: Span, zero: bool, many: bool): Span {
    if zero && many then (i: nat, j: nat) => Star(r, i, j)
    else if many then (i: nat, j: nat) => Plus(r, i, j)
    else if zero then (i: nat, j: nat) => Opt(r, i, j)
    else r
  }

  predicate ZeroOk(ops: seq<int>) { exists k :: 0 <= k < |ops| && ops[k] != 43 }
  predicate ManyOk(ops: seq<int>) { exists k :: 0 <= k < |ops| && ops[k] != 63 }
  predicate IsOp(c: int) { c == 42 || c == 43 || c == 63 }

  lemma {:induction false} RepeatCollapses(r: Span, ops: seq<int>)
    requires Forward(r)
    requires forall k :: 0 <= k < |ops| ==> IsOp(ops[k])
    ensures Same(Repeat(r, ops), Collapsed(r, ZeroOk(ops), ManyOk(ops)))
    ensures Forward(Repeat(r, ops))
  {
    if ops != [] {
      var n := |ops| - 1;
      var init := ops[..n];
      RepeatCollapses(r, init);
      assert ops == init + [ops[n]];
      assert ZeroOk(ops) <==> (ZeroOk(init) || ops[n] != 43) by {
        if ZeroOk(init) { var k :| 0 <= k < n && init[k] != 43; assert ops[k] != 43; }
        if ZeroOk(ops) && ops[n] == 43 { var k :| 0 <= k < |ops| && ops[k] != 43; assert init[k] != 43; }
      }
      assert ManyOk(ops) <==> (ManyOk(init) || ops[n] != 63) by {
        if ManyOk(init) { var k :| 0 <= k < n && init[k] != 63; assert ops[k] != 63; }
        if ManyOk(ops) && ops[n] == 63 { var k :| 0 <= k < |ops| && ops[k] != 63; assert init[k] != 63; }
      }
      var q := Repeat(r, init);
      forall i, j
        ensures Repeat(r, ops)(i, j) <==> Collapsed(r, ZeroOk(ops), ManyOk(ops))(i, j)
        ensures Repeat(r, ops)(i, j) ==> i <= j
      {
        RepeatOnce(r, q, ZeroOk(init), ManyOk(init), ops[n], i, j);
      }
    }
  }

  /** One more operator on top of a collapsed one, at one pair of positions. */
  lemma RepeatOnce(r: Span, q: Span, zero: bool, many: bool, op: int, i: nat, j: nat)
    requires Forward(r) && Forward(q) && Same(q, Collapsed(r, zero, many)) && IsOp(op)
    ensures (if op == 42 then Star(q, i, j) else if op == 43 then Plus(q, i, j) else Opt(q, i, j))
       <==> Collapsed(r, zero || op != 43, many || op != 63)(i, j)
    ensures (if op == 42 then Star(q, i, j) else if op == 43 then Plus(q, i, j) else Opt(q, i, j)) ==> i <= j
  {
    if Star(q, i, j) { StarOfCollapsed(r, q, zero, many, i, j); StarForward(q, i, j); }
    if Star(r, i, j) { StarOfBase(r, q, zero, many, i, j); StarForward(r, i, j); }
    if Plus(q, i, j) { PlusIsStar(q, i, j); PlusOfCollapsed(r, q, zero, many, i, j); }
    if Plus(r, i, j) { PlusIsStar(r, i, j); PlusOfBase(r, q, zero, many, i, j); }
    if op == 43 && zero && i == j {
      assert q(i, i) && Star(q, i, i);
    }
  }

  lemma {:induction false} StarOfCollapsed(r: Span, q: Span, zero: bool, many: bool, i: nat, j: nat)
    requires Forward(r) && Same(q, Collapsed(r, zero, many)) && Star(q, i, j)
    ensures Star(r, i, j)
    decreases j - i
  {
    if i != j {
      var m: nat :| i < m <= j && q(i, m) && Star(q, m, j);
      StarOfCollapsed(r, q, zero, many, m, j);
      CollapsedIsStar(r, zero, many, i, m);
      StarAppend(r, i, m, j);
    }
  }

  lemma CollapsedIsStar(r: Span, zero: bool, many: bool, i: nat, j: nat)
    requires Forward(r) && Collapsed(r, zero, many)(i, j)
    ensures Star(r, i, j)
    ensures !zero ==> Plus(r, i, j)
  {
    if zero && many {
    } else if many {
      PlusIsStar(r, i, j);
    } else if i != j || !zero {
      StarOne(r, i, j);
      assert Star(r, j, j);
    }
  }

  lemma BaseIsCollapsed(r: Span, zero: bool, many: bool, i: nat, j: nat)
    requires Forward(r) && r(i, j)
    ensures Collapsed(r, zero, many)(i, j)
  {
    StarOne(r, i, j);
    assert Star(r, j, j);
  }

  lemma {:induction false} StarOfBase(r: Span, q: Span, zero: bool, many: bool, i: nat, j: nat)
    requires Forward(r) && Same(q, Collapsed(r, zero, many)) && Star(r, i, j)
    ensures Star(q, i, j)
    decreases j - i
  {
    if i != j {
      var m: nat :| i < m <= j && r(i, m) && Star(r, m, j);
      BaseIsCollapsed(r, zero, many, i, m);
      StarOfBase(r, q, zero, many, m, j);
    }
  }

  lemma PlusOfCollapsed(r: Span, q: Span, zero: bool, many: bool, i: nat, j: nat)
    requires Forward(r) && Same(q, Collapsed(r, zero, many)) && Plus(q, i, j)
    ensures zero ==> Star(r, i, j)
    ensures !zero ==> Plus(r, i, j)
  {
    var m: nat :| i <= m <= j && q(i, m) && Star(q, m, j);
    CollapsedIsStar(r, zero, many, i, m);
    StarOfCollapsed(r, q, zero, many, m, j);
    StarAppend(r, i, m, j);
    if !zero {
      var k: nat :| i <= k <= m && r(i, k) && Star(r, k, m);
      StarAppend(r, k, m, j);
    }
  }

  lemma PlusOfBase(r: Span, q: Span, zero: bool, many: bool, i: nat, j: nat)
    requires Forward(r) && Same(q, Collapsed(r, zero, many)) && Plus(r, i, j)
    ensures Plus(q, i, j)
  {
    var m: nat :| i <= m <= j && r(i, m) && Star(r, m, j);
    BaseIsCollapsed(r, zero, many, i, m);
    StarOfBase(r, q, zero, many, m, j);
  }
}
