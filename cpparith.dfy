/** Integer semantics of the C++ operators the sequencer relies on. Dafny's `%` is
    Euclidean; C++'s `%` truncates toward zero, and a `static_cast<int>` of a
    double drops the fraction toward zero as well. */
module CppArith {

  /** `a % b` in C++ for a positive divisor: the remainder has the sign of `a`. */
  function CppRem(a: int, b: int): (r: int)
    requires b > 0
    ensures (a - r) % b == 0
    ensures a >= 0 ==> 0 <= r < b
    ensures a < 0 ==> -b < r <= 0
  {
    if a >= 0 then
      DivModUnique(a - a % b, b, a / b, 0);
      a % b
    else
      DivModUnique(a + (-a) % b, b, -((-a) / b), 0);
      -((-a) % b)
  }

  /** `static_cast<int>(x)` for a double `x`, ignoring the range of `int`. */
  function Trunc(x: real): (i: int)
    ensures x >= 0.0 ==> 0 <= i && i as real <= x < i as real + 1.0
    ensures x < 0.0 ==> i <= 0 && i as real - 1.0 < x <= i as real
  {
    if x >= 0.0 then x.Floor else -((-x).Floor)
  }

  /** The least integer not below `x`. */
  function Ceil(x: real): (i: int)
    ensures i as real - 1.0 < x <= i as real
  {
    -((-x).Floor)
  }

  predicate IsWhole(x: real) {
    x == x.Floor as real
  }

  function Min(a: int, b: int): int {
    if a <= b then a else b
  }

  function Max(a: int, b: int): int {
    if a >= b then a else b
  }

  /** Quotient and remainder are determined by any decomposition with a remainder in range. */
  lemma DivModUnique(a: int, n: int, q: int, r: int)
    requires n > 0 && a == q * n + r && 0 <= r < n
    ensures a / n == q && a % n == r
  {
    var d := q - a / n;
    assert n * d == a % n - r;
  }

  /** `k` copies of `n` added up: the product `k * n` built by repeated addition, so
      that reasoning about a run of `k` equal steps stays linear. */
  function Multiple(k: nat, n: int): (m: int)
    ensures n >= 0 ==> m >= 0
  {
    if k == 0 then 0 else Multiple(k - 1, n) + n
  }

  /** Repeated addition is multiplication. */
  lemma {:induction false} MultipleIsProduct(k: nat, n: int)
    ensures Multiple(k, n) == k * n
  {
    if k > 0 {
      MultipleIsProduct(k - 1, n);
      assert (k - 1) * n + n == k * n;
    }
  }

  /** Adding one before or after reducing modulo `n` gives the same remainder. */
  lemma ModSucc(a: int, n: int)
    requires n > 0
    ensures ((a % n) + 1) % n == (a + 1) % n
  {
    var q, r := a / n, a % n;
    assert a == q * n + r;
    if r + 1 < n {
      DivModUnique(a + 1, n, q, r + 1);
      DivModUnique(r + 1, n, 0, r + 1);
    } else {
      DivModUnique(a + 1, n, q + 1, 0);
      DivModUnique(r + 1, n, 1, 0);
    }
  }
}
