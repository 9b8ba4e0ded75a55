/** Quotient and remainder by a positive number are unique. */
module Quotients {

  lemma MulMonotone(x: int, y: int, m: nat)
    requires x <= y
    ensures x * m <= y * m
  {
  }

  lemma Quotient(x: nat, k: int, r: nat, size: nat)
    requires r < size && x == k * size + r
    ensures x / size == k && x % size == r
  {
    var l, t := x / size, x % size;
    assert x == l * size + t;
    assert r - t == (l - k) * size;
    if l > k {
      MulMonotone(1, l - k, size);
    } else if l < k {
      MulMonotone(l - k, -1, size);
    }
  }
}
