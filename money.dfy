/**
 * Amounts are held in whole cents. The schema setters and getters
 * `Math.round(v * 100) / 100` (Wallet.balance, Transaction.amount,
 * Transaction.balanceAfter) round a dollar value to cents, half up.
 */
module Money {

  /** The starting balance of a new wallet, 1000 dollars, in cents. */
  const StartingBalance: int := 100000

  /** The smallest amount a transaction may carry, 0.01 dollars, in cents. */
  const MinAmount: int := 1

  /**
   * `Math.round(v * 100)` for the dollar value `v = num / den`: the whole
   * number of cents nearest to `v`, halves rounded up (towards +infinity, as
   * Math.round does).
   */
  function RoundToCents(num: int, den: int): (c: int)
    requires den > 0
    ensures 2 * den * c <= 200 * num + den < 2 * den * c + 2 * den
  {
    var n, d := 200 * num + den, 2 * den;
    var q := n / d;
    assert n == d * q + n % d && 0 <= n % d < d;
    q
  }

  /** A value already in whole cents (`c / 100` dollars) is left as it is. */
  lemma ExactCentsUnchanged(c: int)
    ensures RoundToCents(c, 100) == c
  {
    var r := RoundToCents(c, 100);
    assert 200 * r <= 200 * c + 100 < 200 * r + 200;
  }

  /** Rounding to cents twice is rounding once: re-reading a stored amount does not move it. */
  lemma {:induction false} RoundIdempotent(num: int, den: int)
    requires den > 0
    ensures RoundToCents(RoundToCents(num, den), 100) == RoundToCents(num, den)
  {
    ExactCentsUnchanged(RoundToCents(num, den));
  }

  /** 19.999 dollars is stored and read back as 20.00. */
  lemma RoundExample()
    ensures RoundToCents(19999, 1000) == 2000
  {
    var r := RoundToCents(19999, 1000);
    assert 2000 * r <= 4000800 < 2000 * r + 2000;
  }
}
