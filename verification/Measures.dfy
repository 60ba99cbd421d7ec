/** Sums over maps, as measures of the work that is left. */
module Measures {
  /** The values of the keys below n, added up. */
  function Total(m: map<nat, nat>, n: nat): (t: nat) {
    if n == 0 then 0 else Total(m, n - 1) + if n - 1 in m then m[n - 1] else 0
  }

  lemma {:induction false} TotalUpdate(m: map<nat, nat>, k: nat, v: nat, n: nat)
    requires k < n
    ensures Total(m[k := v], n) == Total(m, n) + v - if k in m then m[k] else 0
  {
    if k == n - 1 {
      TotalAbove(m, k, v, n - 1);
    } else {
      TotalUpdate(m, k, v, n - 1);
    }
  }

  lemma {:induction false} TotalAbove(m: map<nat, nat>, k: nat, v: nat, n: nat)
    requires n <= k
    ensures Total(m[k := v], n) == Total(m, n)
  {
    if n > 0 {
      TotalAbove(m, k, v, n - 1);
    }
  }
}
