/** Division and remainder facts used by the hash index, the ring buffer and the digests. */
module Arith {

  lemma MulMono(a: int, b: int, m: int)
    requires a <= b && 0 <= m
    ensures a * m <= b * m
  {
  }

  /** Quotient and remainder are unique. */
  lemma DivUnique(x: int, q: int, r: int, m: int)
    requires 0 < m && x == q * m + r && 0 <= r < m
    ensures x / m == q && x % m == r
  {
    var q', r' := x / m, x % m;
    assert x == q' * m + r';
    assert (q + 1) * m == q * m + m && (q' + 1) * m == q' * m + m;
    if q' > q {
      MulMono(q + 1, q', m);
    }
    if q' < q {
      MulMono(q' + 1, q, m);
    }
  }

  lemma AddWhole(x: nat, m: nat)
    requires 0 < m
    ensures (x + m) % m == x % m
  {
    var q := x / m;
    assert (q + 1) * m == q * m + m;
    DivUnique(x + m, q + 1, x % m, m);
  }

  /** Adding less than a whole modulus wraps at most once. */
  lemma ModAdd(x: nat, p: nat, m: nat)
    requires 0 < m && p < m
    ensures (x + p) % m == if x % m + p < m then x % m + p else x % m + p - m
  {
    var q := x / m;
    assert x == q * m + x % m;
    if x % m + p < m {
      DivUnique(x + p, q, x % m + p, m);
    } else {
      assert (q + 1) * m == q * m + m;
      DivUnique(x + p, q + 1, x % m + p - m, m);
    }
  }

  /** A remainder by a multiple of `m` does not change the remainder by `m`. */
  lemma ModMod(x: nat, k: nat, m: nat)
    requires 0 < m && 0 < k
    ensures 0 < k * m && (x % (k * m)) % m == x % m
  {
    MulMono(1, k, m);
    var a, r := x / (k * m), x % (k * m);
    assert x == a * (k * m) + r;
    var b, s := r / m, r % m;
    assert r == b * m + s;
    assert (a * k + b) * m == a * (k * m) + b * m by {
      assert (a * k) * m == a * (k * m);
    }
    DivUnique(x, a * k + b, s, m);
  }

  ghost predicate PowerOfTwo(n: nat) {
    n == 1 || (n > 0 && n % 2 == 0 && PowerOfTwo(n / 2))
  }

  lemma {:induction false} PowerOfProduct(a: nat, b: nat)
    requires PowerOfTwo(a) && PowerOfTwo(b)
    ensures PowerOfTwo(a * b)
  {
    if a != 1 {
      PowerOfProduct(a / 2, b);
      assert a * b == (a / 2 * b) * 2 by {
        assert a == a / 2 * 2;
      }
      DivUnique(a * b, a / 2 * b, 0, 2);
    }
  }

  /** Of two powers of two the smaller divides the larger. */
  lemma {:induction false} PowersDivide(a: nat, b: nat) returns (k: nat)
    requires PowerOfTwo(a) && PowerOfTwo(b) && a <= b
    ensures 0 < k && k * a == b
  {
    if a == 1 {
      k := b;
    } else {
      k := PowersDivide(a / 2, b / 2);
      assert k * a == k * (a / 2) * 2;
    }
  }

  /** The bits that two numbers share. */
  function BitAnd(x: nat, y: nat): nat {
    if x == 0 || y == 0 then 0 else (if x % 2 == 1 && y % 2 == 1 then 1 else 0) + 2 * BitAnd(x / 2, y / 2)
  }

  /** Masking with a power of two less one is taking the remainder. */
  lemma {:induction false} MaskIsMod(x: nat, n: nat)
    requires PowerOfTwo(n)
    ensures BitAnd(x, n - 1) == x % n
    decreases n
  {
    if x == 0 || n == 1 {
      DivUnique(x, if n == 1 then x else 0, 0, n);
    } else {
      var m := n / 2;
      MaskIsMod(x / 2, m);
      HalfMod(x, m);
      assert n == 2 * m && (n - 1) / 2 == m - 1;
    }
  }

  lemma HalfMod(x: nat, m: nat)
    requires 0 < m
    ensures x % (2 * m) == x % 2 + 2 * (x / 2 % m)
  {
    var q, r := x / 2 / m, x / 2 % m;
    assert x / 2 == q * m + r;
    assert q * (2 * m) == 2 * (q * m);
    DivUnique(x, q, x % 2 + 2 * r, 2 * m);
  }

  /** Distinct numbers below `n` are at most `n` many. */
  lemma {:induction false} Pigeonhole(f: seq<nat>, n: nat)
    requires forall i :: 0 <= i < |f| ==> f[i] < n
    requires forall i, j :: 0 <= i < j < |f| ==> f[i] != f[j]
    ensures |f| <= n
    decreases |f|
  {
    if f != [] {
      var g := f[..|f|-1];
      var last := f[|f|-1];
      // Renaming n-1 to the last number keeps the rest distinct and below n-1.
      var h := seq(|g|, i requires 0 <= i < |g| => if g[i] == n - 1 then last else g[i]);
      Pigeonhole(h, n - 1);
    }
  }

  /** The number of values of a 64-bit word. */
  const WORDS: nat := 0x1_0000_0000_0000_0000

  lemma WordsPower()
    ensures PowerOfTwo(WORDS)
  {
    PowerOfProduct(0x10, 0x10);
    PowerOfProduct(0x100, 0x100);
    PowerOfProduct(0x1_0000, 0x1_0000);
    PowerOfProduct(0x1_0000_0000, 0x1_0000_0000);
  }

  /** The value of `x` in an unsigned word. */
  function Wrap(x: int): nat {
    x % WORDS
  }
}
