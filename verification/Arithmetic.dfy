/** Division facts that the solver does not find by itself. */
module Arithmetic {

  lemma MulBound(d: int, m: int)
    requires m > 0
    ensures d >= 1 ==> d * m >= m
    ensures d <= -1 ==> d * m <= -m
  {
  }

  lemma MulAdd(k: int, x: int, y: int)
    ensures k * (x + y) == k * x + k * y
  {
  }

  lemma MulSub(x: int, y: int, m: int)
    ensures (x - y) * m == x * m - y * m
  {
  }

  lemma MulSwap(k: int, a: int, p: int)
    ensures k * (a * p) == a * (k * p)
  {
  }

  lemma DivModUnique(v: int, q: int, r: int, m: int)
    requires m > 0 && 0 <= r < m && v == q * m + r
    ensures v / m == q && v % m == r
  {
    var d := q - v / m;
    MulSub(q, v / m, m);
    assert v == (v / m) * m + v % m;
    assert d * m == v % m - r;
    MulBound(d, m);
  }

  /** The remainder modulo a product, digit by digit. */
  lemma ModProduct(v: nat, k: nat, p: nat)
    requires k > 0 && p > 0
    ensures k * p > 0
    ensures v % (k * p) == v % k + k * ((v / k) % p)
  {
    var q, r := v / k, v % k;
    var a, b := q / p, q % p;
    MulAdd(k, a * p, b);
    MulSwap(k, a, p);
    DigitBound(k, b, p, r);
    Regroup(v, k * q, a * (k * p), k * b, r);
    DivModUnique(v, a, k * b + r, k * p);
  }

  lemma DigitBound(k: nat, b: nat, p: nat, r: nat)
    requires b < p && r < k
    ensures 0 <= k * b + r < k * p
  {
    MulMonotone(b + 1, p, k);
    MulAdd(k, b, 1);
  }

  lemma Regroup(v: int, kq: int, akp: int, kb: int, r: int)
    requires v == kq + r && kq == akp + kb
    ensures v == akp + (kb + r)
  {
  }

  lemma ModMod(v: nat, m: nat, k: nat)
    requires m > 0 && k > 0
    ensures m * k > 0 && (v % (m * k)) % m == v % m
  {
    ModProduct(v, m, k);
    MulMonotone(1, k, m);
    DivModUnique(v % (m * k), (v / m) % k, v % m, m);
  }

  lemma ModAdd(v: nat, w: nat, m: nat)
    requires m > 0
    ensures (v % m + w) % m == (v + w) % m
  {
    var q := v / m;
    var a, b := (v % m + w) / m, (v % m + w) % m;
    MulAdd(m, q, a);
    DivModUnique(v + w, q + a, b, m);
  }

  lemma DivBound(v: nat, q: nat, m: nat)
    requires m > 0 && v <= q * m
    ensures v / m <= q
  {
    var d := v / m - q;
    assert v == (v / m) * m + v % m;
    assert d * m == (v / m) * m - q * m;
    MulBound(d, m);
  }

  lemma DivBelow(v: nat, q: nat, m: nat)
    requires m > 0 && v < q * m
    ensures v / m < q
  {
    var d := q - v / m;
    assert v == (v / m) * m + v % m;
    assert d * m == q * m - (v / m) * m;
    MulBound(d, m);
  }

  lemma MulMonotone(a: nat, b: nat, c: nat)
    requires a <= b
    ensures a * c <= b * c == c * b
  {
  }
}
