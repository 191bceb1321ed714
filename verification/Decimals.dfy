// Exact base-10 scaling (packages/ledger/src/encoding.ts:91-103, packages/core/src/quantity.ts).
module Decimals {
  import opened Common

  function Pow10(n: nat): (p: nat)
    ensures p >= 1
  {
    if n == 0 then 1 else 10 * Pow10(n - 1)
  }

  lemma {:induction false} Pow10Sum(a: nat, b: nat)
    ensures Pow10(a + b) == Pow10(a) * Pow10(b)
  {
    if a > 0 {
      Pow10Sum(a - 1, b);
      assert Pow10(a + b) == 10 * (Pow10(a - 1) * Pow10(b));
      assert 10 * (Pow10(a - 1) * Pow10(b)) == (10 * Pow10(a - 1)) * Pow10(b);
    }
  }

  // The value of `atoms` at `from` decimals, restated at `to`; a dropped digit is dropped (floor).
  function Scaled(atoms: int, from: nat, to: nat): int {
    if to >= from then atoms * Pow10(to - from) else atoms / Pow10(from - to)
  }

  // Whether restating loses nothing.
  predicate Exact(atoms: int, from: nat, to: nat) {
    to >= from || atoms % Pow10(from - to) == 0
  }

  // The restated amount, if it is the same rational number.
  function RescaleExact(atoms: int, from: nat, to: nat): (r: Option<int>)
    ensures r.Some? ==> r.value * Pow10(from) == atoms * Pow10(to)
  {
    if Exact(atoms, from, to) then
      ScaledIsExact(atoms, from, to);
      Some(Scaled(atoms, from, to))
    else None
  }

  lemma DivExact(a: int, k: int)
    requires k > 0 && a % k == 0
    ensures (a / k) * k == a
  {
  }

  lemma MulAssoc(a: int, b: int, c: int)
    ensures (a * b) * c == a * (b * c)
  {
  }

  // Same rational number: the two sides agree after cross-multiplication.
  lemma ScaledIsExact(atoms: int, from: nat, to: nat)
    requires Exact(atoms, from, to)
    ensures Scaled(atoms, from, to) * Pow10(from) == atoms * Pow10(to)
  {
    if to >= from {
      Pow10Sum(to - from, from);
      MulAssoc(atoms, Pow10(to - from), Pow10(from));
    } else {
      Pow10Sum(from - to, to);
      var k := Pow10(from - to);
      DivExact(atoms, k);
      MulAssoc(atoms / k, k, Pow10(to));
    }
  }

  lemma ModSum(a: int, b: int, k: int)
    requires k > 0 && a % k == 0 && b % k == 0
    ensures (a + b) % k == 0 && (a + b) / k == a / k + b / k
    ensures (a - b) % k == 0 && (a - b) / k == a / k - b / k
  {
    var x, y := a / k, b / k;
    DivExact(a, k);
    DivExact(b, k);
    assert a + b == (x + y) * k && a - b == (x - y) * k;
    MulDiv(x + y, k);
    MulDiv(x - y, k);
  }

  lemma MulDiv(q: int, k: int)
    requires k > 0
    ensures (q * k) / k == q && (q * k) % k == 0
  {
    var d, m := (q * k) / k, (q * k) % k;
    assert (q - d) * k == m;
    assert !(q - d >= 1) && !(q - d <= -1) by {
      MulMonotone(1, q - d, k);
      MulMonotone(q - d, -1, k);
    }
  }

  lemma MulMonotone(a: int, b: int, k: int)
    requires k >= 0
    ensures a <= b ==> a * k <= b * k
  {
  }

  // Exact scaling is additive, so what is left after exact parts are taken is exact too.
  lemma ScaledSum(a: int, b: int, from: nat, to: nat)
    requires Exact(a, from, to) && Exact(b, from, to)
    ensures Exact(a + b, from, to) && Scaled(a + b, from, to) == Scaled(a, from, to) + Scaled(b, from, to)
    ensures Exact(a - b, from, to) && Scaled(a - b, from, to) == Scaled(a, from, to) - Scaled(b, from, to)
  {
    if to >= from {
      var k := Pow10(to - from);
      assert (a + b) * k == a * k + b * k;
      assert (a - b) * k == a * k - b * k;
    } else {
      ModSum(a, b, Pow10(from - to));
    }
  }

  lemma ScaledNonNegative(a: int, from: nat, to: nat)
    requires a >= 0
    ensures Scaled(a, from, to) >= 0
  {
  }
}
