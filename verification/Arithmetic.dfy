/** The few facts about products and quotients the models need, proved one step at a time. */
module Arithmetic {
  lemma {:induction false} OneMultipleMore(n: nat, d: nat)
    ensures (n + 1) * d == n * d + d
  {
  }

  lemma {:induction false} MultipleGrows(a: nat, b: nat, d: nat)
    requires a < b
    ensures a * d + d <= b * d
  {
    OneMultipleMore(b - 1, d);
    if a + 1 < b {
      MultipleGrows(a, b - 1, d);
    }
  }

  lemma {:induction false} MultiplesGrow(a: nat, b: nat, d: nat)
    requires a <= b
    ensures a * d <= b * d
  {
    if a < b {
      MultipleGrows(a, b, d);
    }
  }

  lemma {:induction false} DivisionIsUnique(i: nat, d: nat, q: nat, r: nat)
    requires r < d && i == q * d + r
    ensures i / d == q && i % d == r
  {
    var p := i / d;
    assert i == p * d + i % d;
    if p > q {
      MultipleGrows(q, p, d);
    } else if p < q {
      MultipleGrows(p, q, d);
    }
  }

  lemma {:induction false} DivisionMonotone(a: nat, b: nat, d: nat)
    requires a <= b && 0 < d
    ensures a / d <= b / d
  {
    var p, q := a / d, b / d;
    assert a == p * d + a % d && b == q * d + b % d;
    if p > q {
      MultipleGrows(q, p, d);
    }
  }

  lemma {:induction false} StepDown(i: nat, d: nat)
    requires 0 < d <= i
    ensures i / d == (i - d) / d + 1 && i % d == (i - d) % d
  {
    var q, r := (i - d) / d, (i - d) % d;
    OneMultipleMore(q, d);
    DivisionIsUnique(i, d, q + 1, r);
  }
}
