/** Unsigned machine words, and division by a variable. */
module Numbers {
  /** The counters are atomic uint64s. */
  const UINT64: nat := 0x1_0000_0000_0000_0000

  function Wrapped(x: nat): nat {
    x % UINT64
  }

  lemma MulSign(n: int, d: int)
    requires n > 0
    ensures d >= 1 ==> n * d >= n
    ensures d <= -1 ==> n * d <= -n
  {
    if d >= 1 {
      assert n * (d - 1) >= 0;
    } else if d <= -1 {
      assert n * (-1 - d) >= 0;
    }
  }

  lemma Distribute(n: nat, a: int, b: int)
    ensures n * (a - b) == n * a - n * b
    ensures n * (a + b) == n * a + n * b
  {
  }

  lemma QuotientUnique(n: nat, q: int, r: nat, q': int, r': nat)
    requires r < n && r' < n && n * q + r == n * q' + r'
    ensures q == q' && r == r'
  {
    Distribute(n, q, q');
    MulSign(n, q - q');
  }

  lemma QuotientOf(x: nat, n: nat) returns (q: nat, r: nat)
    requires n > 0
    ensures r < n && x == n * q + r && r == x % n
  {
    q, r := x / n, x % n;
  }

  lemma ModUnique(x: nat, n: nat, q: int, r: nat)
    requires r < n && x == n * q + r
    ensures x % n == r && x / n == q
  {
    QuotientUnique(n, q, r, x / n, x % n);
  }

  lemma NextMod(x: nat, w: nat)
    requires w > 0
    ensures (x % w + 1) % w == (x + 1) % w
  {
    var q, r := QuotientOf(x, w);
    if r + 1 == w {
      Distribute(w, q, 1);
      ModUnique(x + 1, w, q + 1, 0);
      ModUnique(r + 1, w, 1, 0);
    } else {
      ModUnique(x + 1, w, q, r + 1);
      ModUnique(r + 1, w, 0, r + 1);
    }
  }
}
