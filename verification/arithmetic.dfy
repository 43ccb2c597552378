/** Multiplication and division, kept away from the solver except where a bound needs them. */
module Arithmetic {
  /** n * i by repeated addition. */
  function Times(n: nat, i: nat): nat {
    if n == 0 then 0 else Times(n - 1, i) + i
  }

  lemma {:induction false} TimesIsProduct(n: nat, i: nat)
    ensures Times(n, i) == n * i
  {
    if n > 0 {
      TimesIsProduct(n - 1, i);
      assert n * i == (n - 1) * i + i;
    }
  }

  lemma {:induction false} TimesMonotone(m: nat, n: nat, i: nat)
    requires m <= n
    ensures Times(m, i) <= Times(n, i)
  {
    if m < n {
      TimesMonotone(m, n - 1, i);
    }
  }

  lemma DivTimes(d: nat, n: nat)
    requires n >= 1
    ensures Times(n, d / n) <= d
  {
    TimesIsProduct(n, d / n);
  }

  /** If n steps of i cover no more than m steps and d, then n exceeds m by at most d / i. */
  lemma {:induction false} StepsBound(n: nat, m: nat, i: nat, d: nat)
    requires i >= 1 && Times(n, i) <= Times(m, i) + d
    ensures n <= m + d / i
  {
    if n > m {
      TimesIsProduct(n, i);
      TimesIsProduct(m, i);
      assert (n - m) * i <= d;
      DivBound(n - m, i, d);
    }
  }

  lemma DivBound(n: nat, i: nat, d: nat)
    requires i >= 1 && n * i <= d
    ensures n <= d / i
  {
    if n > d / i {
      MulMonotone(d / i + 1, n, i);
    }
  }

  lemma MulMonotone(m: nat, n: nat, i: nat)
    requires m <= n
    ensures m * i <= n * i
  {
    assert (n - m) * i >= 0;
  }

  lemma WholeSteps(m: nat, i: nat)
    requires i >= 1
    ensures Times(m, i) / i == m
  {
    var t := Times(m, i);
    StepsBound(m, 0, i, t);
    DivTimes(t, i);
    TimesCommutes(i, t / i);
    if t / i > m {
      TimesMonotone(m + 1, t / i, i);
    }
  }

  lemma TimesCommutes(n: nat, i: nat)
    ensures Times(n, i) == Times(i, n)
  {
    TimesIsProduct(n, i);
    TimesIsProduct(i, n);
  }

  lemma NoWholeStep(i: nat)
    requires i >= 1
    ensures (i - 1) / i == 0
  {
  }
}
