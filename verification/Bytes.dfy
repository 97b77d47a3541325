/** Bytes, options, and the bit operations of bracket-expression bitmaps. */
module Bytes {
  type Byte = b: int | 0 <= b < 256

  datatype Option<+T> = None | Some(value: T)

  /** `x & (1 << k)`, low bit first. */
  predicate Bit(x: nat, k: nat) {
    if k == 0 then x % 2 == 1 else Bit(x / 2, k - 1)
  }

  /** `x | (1 << k)`. */
  function SetBit(x: nat, k: nat): nat {
    if k == 0 then x - x % 2 + 1 else x % 2 + 2 * SetBit(x / 2, k - 1)
  }

  lemma {:induction false} SetBitBits(x: nat, k: nat, m: nat)
    ensures Bit(SetBit(x, k), m) <==> (m == k || Bit(x, m))
  {
    if k > 0 {
      assert SetBit(x, k) / 2 == SetBit(x / 2, k - 1);
      if m > 0 {
        SetBitBits(x / 2, k - 1, m - 1);
      }
    } else if m > 0 {
      assert SetBit(x, 0) / 2 == x / 2;
    }
  }

  /** Setting one of the low `n` bits stays below 2^n, here for bytes. */
  lemma {:induction false} SetBitFits(x: nat, k: nat, bound: nat)
    requires k < bound && x < Power2(bound)
    ensures SetBit(x, k) < Power2(bound)
  {
    if k > 0 {
      SetBitFits(x / 2, k - 1, bound - 1);
    }
  }

  function Power2(n: nat): nat {
    if n == 0 then 1 else 2 * Power2(n - 1)
  }

  lemma {:induction false} ZeroHasNoBits(k: nat)
    ensures !Bit(0, k)
  {
    if k > 0 { ZeroHasNoBits(k - 1); }
  }
}
