/** Products of two variables, unfolded one unit at a time, so that the proofs about windows, frames
    and chunks need no multiplication; with division and remainder in the same terms. */
module Products {
  /** n * unit. */
  function Repeat(n: nat, unit: nat): nat {
    if n == 0 then 0 else Repeat(n - 1, unit) + unit
  }

  lemma {:induction false} RepeatIsProduct(n: nat, unit: nat)
    ensures Repeat(n, unit) == n * unit
  {
    if n > 0 {
      RepeatIsProduct(n - 1, unit);
      assert n * unit == (n - 1) * unit + unit;
    }
  }

  lemma {:induction false} RepeatAdds(m: nat, n: nat, unit: nat)
    ensures Repeat(m + n, unit) == Repeat(m, unit) + Repeat(n, unit)
  {
    if n > 0 {
      RepeatAdds(m, n - 1, unit);
    }
  }

  lemma {:induction false} RepeatAssociative(n: nat, m: nat, unit: nat)
    ensures Repeat(n, Repeat(m, unit)) == Repeat(Repeat(n, m), unit)
  {
    if n > 0 {
      RepeatAssociative(n - 1, m, unit);
      RepeatAdds(Repeat(n - 1, m), m, unit);
    }
  }

  lemma Divide(total: nat, unit: nat)
    requires unit > 0
    ensures total == Repeat(total / unit, unit) + total % unit
  {
    RepeatIsProduct(total / unit, unit);
  }

  lemma Remainder(q: nat, r: nat, unit: nat)
    requires r < unit
    ensures (Repeat(q, unit) + r) / unit == q && (Repeat(q, unit) + r) % unit == r
  {
    RepeatIsProduct(q, unit);
    Quotient(q * unit + r, unit, q, r);
  }

  lemma {:induction false} RepeatGrows(m: nat, n: nat, unit: nat)
    requires m <= n
    ensures Repeat(m, unit) <= Repeat(n, unit)
    ensures m < n ==> Repeat(m, unit) + unit <= Repeat(n, unit)
  {
    if m < n {
      RepeatGrows(m, n - 1, unit);
    }
  }

  /** Division and remainder when the dividend grows by one. */
  lemma DivideNext(m: nat, unit: nat)
    requires unit > 0
    ensures (m + 1) / unit == m / unit + (if (m + 1) % unit == 0 then 1 else 0)
    ensures (m + 1) % unit == 0 ==> Repeat(m / unit + 1, unit) == m + 1
  {
    var q, r := m / unit, m % unit;
    Divide(m, unit);
    if r + 1 == unit {
      Remainder(q + 1, 0, unit);
    } else {
      Remainder(q, r + 1, unit);
    }
  }

  lemma Quotient(m: nat, d: nat, q: nat, r: nat)
    requires 0 <= r < d && m == q * d + r
    ensures m / d == q && m % d == r
  {
    var q', r' := m / d, m % d;
    assert (q - q') * d == r' - r;
    if q' < q {
      AtLeastOnce(q - q', d);
    } else if q < q' {
      AtLeastOnce(q' - q, d);
    }
  }

  lemma AtLeastOnce(a: int, d: nat)
    requires a >= 1
    ensures a * d >= d
  {
    assert a * d == (a - 1) * d + d;
  }
}
