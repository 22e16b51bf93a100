/** Shared helper types and page arithmetic. */
module Common {

  datatype Option<+T> = None | Some(value: T)

  datatype Result<+T, +E> = Ok(value: T) | Err(error: E)

  newtype Byte = x: int | 0 <= x < 256

  const PAGE_SIZE: nat := 4096
  const BITS_PER_LONG: nat := 64

  /** Least multiple of `a` that is not below `x`: the kernel's ALIGN and roundup. */
  function AlignUp(x: nat, a: nat): (r: nat)
    requires a > 0
    ensures x <= r < x + a && r % a == 0
  {
    MultipleOf((x + a - 1) / a, a);
    ((x + a - 1) / a) * a
  }

  lemma MulMonotone(i: int, j: int, a: int)
    requires a > 0
    ensures i <= j <==> i * a <= j * a
    ensures i < j <==> i * a < j * a
    ensures i < j ==> i * a + a <= j * a
  {
    if i < j {
      assert (i + 1) * a <= j * a;
    }
  }

  lemma MultipleOf(q: int, a: int)
    requires a > 0
    ensures (q * a) % a == 0 && (q * a) / a == q
  {
    var x := q * a;
    MulMonotone(x / a, q, a);
    MulMonotone(q, x / a, a);
  }

  /** Two multiples of `a` are at least `a` apart. */
  lemma MultiplesApart(x: int, y: int, a: int)
    requires a > 0 && x % a == 0 && y % a == 0
    ensures x < y ==> x + a <= y
  {
    MulMonotone(x / a, y / a, a);
  }

  lemma MultipleSum(x: int, y: int, a: int)
    requires a > 0 && x % a == 0 && y % a == 0
    ensures (x + y) % a == 0 && (x - y) % a == 0
  {
    MultipleOf(x / a + y / a, a);
    MultipleOf(x / a - y / a, a);
    assert (x / a + y / a) * a == x + y;
    assert (x / a - y / a) * a == x - y;
  }

  /** No multiple of `a` lies in `[x, AlignUp(x, a))`. */
  lemma AlignUpLeast(x: nat, a: nat, m: nat)
    requires a > 0 && m % a == 0 && x <= m
    ensures AlignUp(x, a) <= m
  {
    MultiplesApart(m, AlignUp(x, a), a);
  }

  function Min(a: int, b: int): int { if a <= b then a else b }
  function Max(a: int, b: int): int { if a >= b then a else b }

  function PfnDown(x: nat): nat { x / PAGE_SIZE }
  function PfnUp(x: nat): nat { (x + PAGE_SIZE - 1) / PAGE_SIZE }

  /** find_next_zero_bit: the first clear bit in [start, size), or `size`. */
  method FindNextZeroBit(bits: array<bool>, size: nat, start: nat) returns (k: nat)
    requires size <= bits.Length
    ensures k <= size && (start <= size ==> start <= k) && (start > size ==> k == size)
    ensures k < size ==> !bits[k]
    ensures forall i :: start <= i < k ==> bits[i]
  {
    if start >= size { return size; }
    k := start;
    while k < size && bits[k]
      invariant start <= k <= size
      invariant forall i :: start <= i < k ==> bits[i]
    {
      k := k + 1;
    }
  }
}
