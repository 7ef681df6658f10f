/** Remainders, as the cursor arithmetic uses them. */
module Modular {

  lemma ModUnique(x: int, q: int, r: int, n: int)
    requires n > 0 && 0 <= r < n && x == q * n + r
    ensures x % n == r && x / n == q
  {
    var q', r' := x / n, x % n;
    assert x == q' * n + r';
    if q > q' {
      Apart(q, q', n);
    } else if q < q' {
      Apart(q', q, n);
    }
  }

  lemma Apart(more: int, less: int, n: int)
    requires n > 0 && more > less
    ensures more * n >= less * n + n
  {
    var k := more - less;
    assert more * n == less * n + k * n;
    assert (k - 1) * n >= 0;
    assert k * n == (k - 1) * n + n;
  }

  lemma ModAdd(a: int, b: int, n: int)
    requires n > 0
    ensures (a % n + b) % n == (a + b) % n
  {
    var x := a % n + b;
    var q, r := x / n, x % n;
    assert a == (a / n) * n + a % n && x == q * n + r;
    assert a + b == (a / n + q) * n + r;
    ModUnique(a + b, a / n + q, r, n);
  }

  lemma ModOnce(x: int, n: int)
    requires n > 0 && 0 <= x < 2 * n
    ensures x % n == if x < n then x else x - n
  {
    if x < n {
      ModUnique(x, 0, x, n);
    } else {
      ModUnique(x, 1, x - n, n);
    }
  }
}
