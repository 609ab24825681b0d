/** Products, quotients and remainders, stated so that the models can use them one instance at a time. */
module Arithmetic {

  lemma MultipleAtLeast(a: int, d: nat)
    ensures a >= 1 ==> a * d >= d
  {
    if a >= 1 {
      assert (a - 1) * d >= 0;
    }
  }

  lemma QuotientUnique(n: nat, d: nat, q: nat, r: nat)
    requires n == q * d + r && r < d
    ensures n / d == q && n % d == r
  {
    var q', r' := n / d, n % d;
    assert n == q' * d + r';
    MultipleAtLeast(q - q', d);
    MultipleAtLeast(q' - q, d);
    assert (q - q') * d == q * d - q' * d;
    assert (q' - q) * d == q' * d - q * d;
  }

  lemma MulMonotone(a: nat, b: nat, d: nat)
    requires a <= b
    ensures 0 <= a * d <= b * d
  {
    assert (b - a) * d >= 0;
    assert (b - a) * d == b * d - a * d;
  }

  lemma MulSucc(a: int, d: int)
    ensures (a + 1) * d == a * d + d
  {
  }

  /** Element `j` of group `i` lies in `[0, groups * size)`. */
  lemma GroupIndex(i: nat, j: nat, groups: nat, size: nat)
    requires i < groups && j < size
    ensures 0 <= i * size + j < groups * size
    ensures (i * size + j) / size == i && (i * size + j) % size == j
  {
    MulMonotone(i + 1, groups, size);
    MulSucc(i, size);
    QuotientUnique(i * size + j, size, i, j);
  }

  lemma DivMod(n: nat, d: nat)
    requires d > 0
    ensures n == (n / d) * d + n % d && n % d < d
  {
  }

  /** The group of element `n`. */
  lemma GroupOfIndex(n: nat, groups: nat, size: nat)
    requires n < groups * size
    ensures size > 0 && n / size < groups && n % size < size && n == (n / size) * size + n % size
  {
    assert size == 0 ==> groups * size == 0;
    DivMod(n, size);
    if n / size >= groups {
      MulMonotone(groups, n / size, size);
    }
  }

  lemma ExactQuotient(n: nat, d: nat)
    requires d > 0 && n % d == 0
    ensures n == d * (n / d) == (n / d) * d
  {
    DivMod(n, d);
  }

  lemma NextMultiple(m: nat, n: nat)
    requires n > 0 && m % n == 0
    ensures (m + n) % n == 0
  {
    DivMod(m, n);
    MulSucc(m / n, n);
    QuotientUnique(m + n, n, m / n + 1, 0);
  }

  lemma MulAssoc(a: int, b: int, c: int)
    ensures a * (b * c) == (a * b) * c
  {
  }

  lemma MulAdd(a: int, b: int, d: int)
    ensures (a + b) * d == a * d + b * d
  {
  }

  /** Row `j * size` of block `t` is row `t * (local * size) + j * size` of the whole. */
  lemma BlockOffset(t: int, local: int, size: int, j: int)
    ensures (t * local + j) * size == t * (local * size) + j * size
  {
    MulAdd(t * local, j, size);
    MulAssoc(t, local, size);
  }

  lemma CancelFactor(m: nat, a: nat, b: nat)
    requires m > 0 && m * a == m * b
    ensures a == b
  {
    MultipleAtLeast(a - b, m);
    MultipleAtLeast(b - a, m);
    assert (a - b) * m == m * a - m * b && (b - a) * m == m * b - m * a;
  }
}
