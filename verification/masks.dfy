/** Cohort bitmasks. A PHP integer is a 64-bit two's-complement word; the
    engine only ever combines masks with `|` and `&` and tests them against
    zero or for equality, so a mask is modelled as the set of positions of its
    one-bits: `|` is union, `&` is intersection and 0 is the empty set.
    Cohort index i (1-based) owns bit i-1. The shift follows PHP 8: a negative
    shift amount raises ArithmeticError and a shift by 64 or more yields 0. */
module Masks {
  import opened Php

  const WordSize: nat := 64

  /** The one-bits of a 64-bit word. */
  type Mask = m: set<nat> | forall b :: b in m ==> b < WordSize

  /** The zero word. */
  const Zero: Mask := {}

  /** PHP's `1 << n`. */
  function ShiftOne(n: int): (r: Result<Mask>)
    ensures r.Err? <==> n < 0
    ensures r.Err? ==> r.error == ArithmeticError(ShiftByNegative)
    ensures 0 <= n < WordSize ==> r == Ok({n as nat})
    ensures n >= WordSize ==> r == Ok(Zero)
  {
    if n < 0 then Err(ArithmeticError(ShiftByNegative))
    else if n >= WordSize then Ok(Zero)
    else Ok({n as nat})
  }

  /** `1 << ($index - 1)`: the mask of one cohort. */
  function CohortBit(index: int): (r: Result<Mask>)
    ensures r.Err? <==> index < 1
  {
    ShiftOne(index - 1)
  }

  /** Distinct cohorts 1..64 own distinct bits, so their masks never overlap. */
  lemma CohortBitsDisjoint(i: int, j: int)
    requires 1 <= i <= WordSize && 1 <= j <= WordSize
    ensures CohortBit(i).value * CohortBit(j).value != Zero <==> i == j
  {
    var bi, bj := (i - 1) as nat, (j - 1) as nat;
    assert CohortBit(i).value == {bi} && CohortBit(j).value == {bj};
    if i == j {
      assert bi in {bi} * {bj};
    } else {
      assert {bi} * {bj} == {};
    }
  }

  /** PHP turns null into 0 in a bitwise OR. */
  function OrZero(m: Option<Mask>): Mask
  {
    if m.Some? then m.value else Zero
  }

  /** Cohort c (1..64) is enabled by a parsed mask: the mask is not null and
      has c's bit set. */
  predicate Has(m: Option<Mask>, c: int)
    requires 1 <= c <= WordSize
  {
    m.Some? && (c - 1) as nat in m.value
  }

  /** `$mask & (1 << ($c - 1))` is non-zero iff the mask has cohort c. */
  lemma CohortBitTest(m: Mask, c: int)
    requires 1 <= c <= WordSize
    ensures m * CohortBit(c).value != Zero <==> Has(Some(m), c)
  {
    var e := (c - 1) as nat;
    assert CohortBit(c).value == {e};
    if e in m {
      assert e in m * {e};
    } else {
      assert m * {e} == {};
    }
  }

  /** A list entry is acceptable to the shift when every index is at least 1. */
  predicate PositiveIndices(list: seq<int>)
  {
    forall i :: 0 <= i < |list| ==> list[i] >= 1
  }

  /** `array_reduce($list, fn($mask, $i) => $mask | (1 << ($i - 1)), $acc)`,
      a left fold that starts from `acc` (null when no initial value is given). */
  function ReduceFrom(acc: Option<Mask>, list: seq<int>): (r: Result<Option<Mask>>)
    ensures r.Ok? <==> PositiveIndices(list)
    ensures r.Ok? ==> (r.value.None? <==> acc.None? && list == [])
    ensures r.Ok? ==> forall c :: 1 <= c <= WordSize ==> (Has(r.value, c) <==> Has(acc, c) || c in list)
    decreases |list|
  {
    if list == [] then Ok(acc)
    else
      var b :- CohortBit(list[0]);
      ReduceFrom(Some(OrZero(acc) + b), list[1..])
  }

  /** `reduceToBitmask` on a list of indices. An empty list reduces to null
      because the fold has no initial value. */
  function ReduceToBitmask(list: seq<int>): (r: Result<Option<Mask>>)
    ensures r.Ok? <==> PositiveIndices(list)
    ensures r.Ok? ==> (r.value.None? <==> list == [])
    ensures r.Ok? ==> forall c :: 1 <= c <= WordSize ==> (Has(r.value, c) <==> c in list)
  {
    ReduceFrom(None, list)
  }

  /** 2 to the power n. */
  function Pow2(n: nat): nat
  {
    if n == 0 then 1 else 2 * Pow2(n - 1)
  }

  /** The unsigned value of the bits of m below position n. */
  function ValueBelow(m: Mask, n: nat): nat
    requires n <= WordSize
  {
    if n == 0 then 0
    else ValueBelow(m, n - 1) + (if n - 1 in m then Pow2(n - 1) else 0)
  }

  /** The PHP integer whose one-bits are m (two's complement: bit 63 is the sign). */
  function IntValue(m: Mask): int
  {
    ValueBelow(m, WordSize - 1) - (if WordSize - 1 in m then Pow2(WordSize - 1) else 0)
  }

  /** A mask with no bit below n has nothing below n. */
  lemma {:induction false} ValueBelowVanishes(m: Mask, n: nat)
    requires n <= WordSize
    requires forall b :: b in m ==> b >= n
    ensures ValueBelow(m, n) == 0
    decreases n
  {
    if n > 0 {
      ValueBelowVanishes(m, n - 1);
    }
  }

  /** Bits at or above k add nothing when the mask has none there. */
  lemma {:induction false} ValueBelowSaturates(m: Mask, k: nat, n: nat)
    requires k <= n <= WordSize
    requires forall b :: b in m ==> b < k
    ensures ValueBelow(m, n) == ValueBelow(m, k)
    decreases n
  {
    if n > k {
      ValueBelowSaturates(m, k, n - 1);
    }
  }
}
