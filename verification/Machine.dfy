/** Widths and sizes the models share. */
module Machine {

  type Byte = x: int | 0 <= x < 256

  /** One more than the largest 32-bit value. */
  const WORD: nat := 0x1_0000_0000

  /** One more than the largest `u_long` (64 bits). */
  const ULONG: nat := 0x1_0000_0000_0000_0000

  /** The text buffer of unp.h. */
  const MAXLINE := 4096

  lemma Product(d: int, m: int)
    requires m > 0
    ensures d >= 1 ==> d * m >= m
    ensures d <= -1 ==> d * m <= -m
  {
    if d >= 1 {
      assert d * m == m + (d - 1) * m;
    } else if d <= -1 {
      assert d * m == -m + (d + 1) * m;
    }
  }

  lemma Remainder(x: int, q: int, r: int, m: int)
    requires m > 0 && x == q * m + r && 0 <= r < m
    ensures x % m == r
  {
    var d := x / m - q;
    assert x == (x / m) * m + x % m;
    assert d * m == r - x % m;
    Product(d, m);
  }

  /** Wrapping around any number of times changes nothing. */
  lemma Wraps(x: int, k: int, m: int)
    requires m > 0
    ensures (x + k * m) % m == x % m
  {
    var q := x / m;
    assert x + k * m == (q + k) * m + x % m;
    Remainder(x + k * m, q + k, x % m, m);
  }
}
