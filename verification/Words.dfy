/** 64-bit machine words, bit by bit: index i of the sequence is the bit of weight 2^i. */
module Words {

  type Word = w: seq<bool> | |w| == 64 witness seq(64, i => false)

  function Zero(): Word { seq(64, i => false) }

  function Ones(): Word { seq(64, i => true) }

  function Unit(): Word { seq(64, i => i == 0) }

  predicate IsZero(w: Word) { forall i :: 0 <= i < 64 ==> !w[i] }

  function Or(a: Word, b: Word): Word { seq(64, i requires 0 <= i < 64 => a[i] || b[i]) }

  function And(a: Word, b: Word): Word { seq(64, i requires 0 <= i < 64 => a[i] && b[i]) }

  function Not(a: Word): Word { seq(64, i requires 0 <= i < 64 => !a[i]) }

  /** a << n; a shift count of 64 or more is undefined, hence the precondition. */
  function Shl(a: Word, n: nat): Word
    requires n < 64
  {
    seq(64, i requires 0 <= i < 64 => i >= n && a[i - n])
  }

  function Shr(a: Word, n: nat): Word
    requires n < 64
  {
    seq(64, i requires 0 <= i < 64 => i + n < 64 && a[i + n])
  }

  /** The bits at or above b. */
  function BitsFrom(w: Word, b: nat): (m: Word)
    requires b < 64
    ensures forall k :: 0 <= k < 64 ==> m[k] == (k >= b && w[k])
  {
    And(w, Shl(Ones(), b))
  }

  /** The bits at or below b. */
  function BitsUpTo(w: Word, b: nat): (m: Word)
    requires b < 64
    ensures forall k :: 0 <= k < 64 ==> m[k] == (k <= b && w[k])
  {
    And(w, Shr(Ones(), 63 - b))
  }

  /** The bits strictly above b, guarded so that the shift count stays below 64. */
  function BitsAbove(w: Word, b: nat): (m: Word)
    requires b < 64
    ensures forall k :: 0 <= k < 64 ==> m[k] == (k > b && w[k])
  {
    And(w, if b == 63 then Zero() else Shl(Ones(), b + 1))
  }

  /** The bits strictly below b, guarded so that the shift count stays below 64. */
  function BitsBelow(w: Word, b: nat): (m: Word)
    requires b < 64
    ensures forall k :: 0 <= k < 64 ==> m[k] == (k < b && w[k])
  {
    And(w, if b == 0 then Zero() else Shr(Ones(), 64 - b))
  }

  /** __builtin_ctzll: undefined on zero, otherwise the lowest set bit. */
  method CountTrailingZeros(w: Word) returns (n: nat)
    requires !IsZero(w)
    ensures n < 64 && w[n]
    ensures forall j :: 0 <= j < n ==> !w[j]
  {
    n := 0;
    while !w[n]
      invariant n < 64
      invariant forall j :: 0 <= j < n ==> !w[j]
      decreases 64 - n
    {
      n := n + 1;
    }
  }

  /** __builtin_clzll: undefined on zero, otherwise 63 minus the highest set bit. */
  method CountLeadingZeros(w: Word) returns (n: nat)
    requires !IsZero(w)
    ensures n < 64 && w[63 - n]
    ensures forall j :: 63 - n < j < 64 ==> !w[j]
  {
    n := 0;
    while !w[63 - n]
      invariant n < 64
      invariant forall j :: 63 - n < j < 64 ==> !w[j]
      decreases 64 - n
    {
      n := n + 1;
    }
  }
}
