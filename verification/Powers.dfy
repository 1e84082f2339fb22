/** Integer powers. */
module Powers {

  function Pow(x: int, n: nat): (p: int)
    ensures x > 0 ==> p > 0
  {
    if n == 0 then 1 else x * Pow(x, n - 1)
  }

  lemma {:induction false} PowAdd(x: int, m: nat, n: nat)
    ensures Pow(x, m + n) == Pow(x, m) * Pow(x, n)
  {
    if m > 0 {
      PowAdd(x, m - 1, n);
      Associate(x, Pow(x, m - 1), Pow(x, n));
    }
  }

  lemma Associate(x: int, y: int, z: int)
    ensures x * (y * z) == (x * y) * z
  {
  }
}
