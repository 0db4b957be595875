/** Products, quotients and remainders by a variable. */
module Arithmetic {
  lemma MulMono(a: nat, b: nat, s: nat)
    requires a <= b
    ensures a * s <= b * s
  {
  }

  lemma MulOrder(p: int, q: int, m: nat)
    ensures p < q ==> p * m + m <= q * m
  {
    if p < q {
      assert q * m == p * m + (q - p) * m;
      MulMono(1, q - p, m);
    }
  }

  lemma MulAssociates(a: nat, b: nat, c: nat)
    ensures a * (b * c) == (a * b) * c
  {
  }

  lemma DivMod(q: int, m: nat, r: nat)
    requires r < m
    ensures (q * m + r) % m == r && (q * m + r) / m == q
  {
    var x := q * m + r;
    assert x == (x / m) * m + x % m;
    MulOrder(q, x / m, m);
    MulOrder(x / m, q, m);
  }

  lemma AddMod(a: nat, m: nat)
    requires m > 0
    ensures (a + m) % m == a % m
  {
    var q, r := a / m, a % m;
    assert a + m == (q + 1) * m + r;
    DivMod(q + 1, m, r);
  }

  lemma MultipleMod(q: nat, step: nat)
    requires step > 0
    ensures (q * step) % step == 0
  {
    if q > 0 {
      MultipleMod(q - 1, step);
      assert q * step == (q - 1) * step + step;
      AddMod((q - 1) * step, step);
    }
  }

  lemma AddMultiple(a: nat, k: nat, m: nat)
    requires m > 0
    ensures (a + k * m) % m == a % m
  {
    if k > 0 {
      AddMultiple(a, k - 1, m);
      AddMod(a + (k - 1) * m, m);
      assert a + k * m == a + (k - 1) * m + m;
    }
  }

  lemma AtLeast(room: nat, size: nat, k: nat)
    requires size > 0 && room >= k * size
    ensures room / size >= k
  {
    MulOrder(room / size, k, size);
  }
}
