/** Powers of two. */
module Powers {

  function Pow2(n: nat): (p: nat)
    ensures p > 0
  {
    if n == 0 then 1 else 2 * Pow2(n - 1)
  }

  /** The first of `power`, twice that, and so on, that is at least `n`. */
  function PowerFrom(power: nat, n: nat): (r: nat)
    requires power > 0
    ensures n <= r && power <= r && (r == power || r < 2 * n)
    decreases n - power
  {
    if power >= n then power else PowerFrom(2 * power, n)
  }

  lemma {:induction false} PowerFromIsPower(k: nat, n: nat) returns (j: nat)
    ensures PowerFrom(Pow2(k), n) == Pow2(j) && j >= k
    decreases n - Pow2(k)
  {
    if Pow2(k) >= n {
      j := k;
    } else {
      j := PowerFromIsPower(k + 1, n);
    }
  }

  /** The smallest power of two that is at least `n`. */
  function BitCeil(n: nat): (r: nat)
    ensures n <= r && (r == 1 || r < 2 * n)
  {
    PowerFrom(1, n)
  }

  /** Rounding up gives a power of two, and half of it is too small. */
  lemma BitCeilIsPower(n: nat) returns (j: nat)
    ensures BitCeil(n) == Pow2(j) && (j > 0 ==> Pow2(j - 1) < n)
  {
    j := PowerFromIsPower(0, n);
  }
}
