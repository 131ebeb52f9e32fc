/**
 * Index wrapping for the ring buffer.
 *
 * The library masks its indices with `2C - 1` and its slots with `C - 1`
 * for a power-of-two capacity C. On the non-negative values involved that
 * is reduction modulo 2C and C; `Wrap` computes it by repeated subtraction,
 * which keeps the buffer's proofs free of non-linear arithmetic, and
 * `WrapIsMod` shows it agrees with `%`.
 */
module ModArith {

  /** `x` reduced modulo `m`. */
  function Wrap(x: nat, m: nat): (r: nat)
    requires 0 < m
    ensures r < m
    decreases x
  {
    if x < m then x else Wrap(x - m, m)
  }

  lemma MulBounds(m: int, k: int)
    requires 0 < m
    ensures k >= 1 ==> m * k >= m
    ensures k <= -1 ==> m * k <= -m
    decreases if k < 0 then -k else k
  {
    if k >= 1 {
      MulBounds(m, k - 1);
    } else if k <= -1 {
      MulBounds(m, k + 1);
    }
  }

  /** Division with remainder is unique. */
  lemma ModUnique(y: int, m: int, q: int, s: int)
    requires 0 < m && y == m * q + s && 0 <= s < m
    ensures y % m == s
  {
    var q', s' := y / m, y % m;
    assert m * (q - q') == s' - s;
    MulBounds(m, q - q');
  }

  /** Reducing a counter before adding to it does not change its reduced sum. */
  lemma ModAddMod(a: nat, n: nat, m: nat)
    requires 0 < m
    ensures (a % m + n) % m == (a + n) % m
  {
    var q, q2 := a / m, (a % m + n) / m;
    var s := (a % m + n) % m;
    assert a == m * q + a % m;
    assert a % m + n == m * q2 + s;
    assert a + n == m * (q + q2) + s;
    ModUnique(a + n, m, q + q2, s);
  }

  /** `Wrap` is the remainder of Euclidean division. */
  lemma {:induction false} WrapIsMod(x: nat, m: nat)
    requires 0 < m
    ensures Wrap(x, m) == x % m
    decreases x
  {
    if x < m {
      ModUnique(x, m, 0, x);
    } else {
      WrapIsMod(x - m, m);
      ModUnique(x, m, (x - m) / m + 1, (x - m) % m);
    }
  }

  /** Stepping at most one full turn past `x`'s slot. */
  lemma {:induction false} WrapShift(x: nat, j: nat, m: nat)
    requires 0 < m && j <= m
    ensures Wrap(x + j, m) == if Wrap(x, m) + j < m then Wrap(x, m) + j else Wrap(x, m) + j - m
    decreases x
  {
    if x < m {
      if x + j >= m {
        assert Wrap(x + j, m) == Wrap(x + j - m, m);
      }
    } else {
      WrapShift(x - m, j, m);
      assert Wrap(x + j, m) == Wrap(x + j - m, m);
    }
  }

  /** A value below twice the modulus wraps at most once. */
  lemma WrapOnce(x: nat, m: nat)
    requires 0 < m && x < 2 * m
    ensures Wrap(x, m) == if x < m then x else x - m
  {
    if m <= x {
      assert Wrap(x, m) == Wrap(x - m, m);
    }
  }

  /** Indices that differ by twice the capacity share a slot. */
  lemma WrapPeriod(x: nat, m: nat)
    requires 0 < m
    ensures Wrap(x + 2 * m, m) == Wrap(x, m)
  {
    assert Wrap(x + 2 * m, m) == Wrap(x + m, m);
    assert Wrap(x + m, m) == Wrap(x, m);
  }
}
