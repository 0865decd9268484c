/** Sums of a natural-valued function over an initial range of ids. */
module Sums {
  ghost function Sum(f: nat -> nat, n: nat): nat {
    if n == 0 then 0 else Sum(f, n - 1) + f(n - 1)
  }

  lemma {:induction false} SumEqual(f: nat -> nat, g: nat -> nat, n: nat)
    requires forall i: nat | i < n :: f(i) == g(i)
    ensures Sum(f, n) == Sum(g, n)
  {
    if n > 0 {
      SumEqual(f, g, n - 1);
    }
  }

  lemma {:induction false} SumMonotone(f: nat -> nat, g: nat -> nat, n: nat)
    requires forall i: nat | i < n :: f(i) <= g(i)
    ensures Sum(f, n) <= Sum(g, n)
  {
    if n > 0 {
      SumMonotone(f, g, n - 1);
    }
  }

  /** A term that falls pulls the sum down by as much. */
  lemma {:induction false} SumFallsAt(f: nat -> nat, g: nat -> nat, n: nat, k: nat, d: nat)
    requires k < n && f(k) + d <= g(k)
    requires forall i: nat | i < n && i != k :: f(i) <= g(i)
    ensures Sum(f, n) + d <= Sum(g, n)
  {
    if k == n - 1 {
      SumMonotone(f, g, n - 1);
    } else {
      SumFallsAt(f, g, n - 1, k, d);
    }
  }

  /** Terms that each fall by one pull the sum down by their number. */
  lemma {:induction false} SumFallsOn(f: nat -> nat, g: nat -> nat, n: nat, ids: set<nat>)
    requires forall i | i in ids :: i < n && f(i) + 1 <= g(i)
    requires forall i: nat | i < n && i !in ids :: f(i) <= g(i)
    ensures Sum(f, n) + |ids| <= Sum(g, n)
  {
    if n == 0 {
      assert forall i :: i !in ids;
      assert ids == {};
    } else if n - 1 in ids {
      SumFallsOn(f, g, n - 1, ids - {n - 1});
    } else {
      SumFallsOn(f, g, n - 1, ids);
    }
  }

  lemma {:induction false} SumAtLeastTerm(f: nat -> nat, n: nat, k: nat)
    requires k < n
    ensures f(k) <= Sum(f, n)
  {
    if k < n - 1 {
      SumAtLeastTerm(f, n - 1, k);
    }
  }
}
