/** What every other module builds on. */
module Basics {
  type byte = b: int | 0 <= b < 256

  datatype Option<T> = None | Some(value: T)

  function Max(a: int, b: int): int { if a >= b then a else b }

  function Min(a: int, b: int): int { if a <= b then a else b }

  function Zeros(n: nat): seq<byte> { seq(n, _ => 0) }

  lemma RemainderIs(x: int, n: int, q: int, r: int)
    requires 0 < n && 0 <= r < n && x == q * n + r
    ensures x % n == r
  {
    var d := x / n - q;
    assert x % n == r - d * n;
    assert d * n < n && d * n > -n;
    assert d == 0;
  }
}
