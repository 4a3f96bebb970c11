/** Big-endian digit strings and the arithmetic of shifting them. */
module Numerals {
  type byte = b: int | 0 <= b < 256

  function Pow(base: nat, n: nat): (r: nat)
    requires base > 0
    ensures r > 0
  {
    if n == 0 then 1 else base * Pow(base, n - 1)
  }

  /** The number a big-endian digit string denotes. */
  function Value(ds: seq<nat>, base: nat): nat {
    if ds == [] then 0 else Value(ds[..|ds| - 1], base) * base + ds[|ds| - 1]
  }

  predicate AllBelow(ds: seq<nat>, base: nat) {
    forall i | 0 <= i < |ds| :: ds[i] < base
  }

  /** The last `n` digits of `v`. */
  function Digits(v: nat, base: nat, n: nat): (ds: seq<nat>)
    requires base > 0
    ensures |ds| == n && AllBelow(ds, base)
    decreases n
  {
    if n == 0 then [] else Digits(Quotient(v, base), base, n - 1) + [v % base]
  }

  function Quotient(v: nat, base: nat): (q: nat)
    requires base > 0
    ensures v == base * q + v % base
  {
    DivNonNegative(v, base);
    v / base
  }

  lemma DivNonNegative(v: nat, base: nat)
    requires base > 0
    ensures v / base >= 0
  {
  }

  lemma ValueAppend(ds: seq<nat>, d: nat, base: nat)
    ensures Value(ds + [d], base) == Value(ds, base) * base + d
  {
    assert (ds + [d])[..|ds|] == ds;
  }

  lemma MulAtLeast(k: int, b: nat)
    ensures k >= 1 ==> k * b >= b
    ensures k <= -1 ==> k * b <= -(b as int)
  {
    assert k * b == (k - 1) * b + b && k * b == (k + 1) * b - b;
    if k >= 1 {
      assert (k - 1) * b >= 0;
    } else {
      assert k <= -1 ==> (k + 1) * b <= 0;
    }
  }

  lemma DivModOf(q: nat, d: nat, base: nat)
    requires d < base
    ensures (q * base + d) / base == q && (q * base + d) % base == d
  {
    var x := q * base + d;
    var p, r := x / base, x % base;
    assert x == base * p + r && 0 <= r < base;
    assert (q - p) * base == r - d;
    MulAtLeast(q - p, base);
  }

  /** A digit string is the expansion of its value, so no two of one length share a value. */
  lemma {:induction false} DigitsOfValue(ds: seq<nat>, base: nat)
    requires base > 0 && AllBelow(ds, base)
    ensures Digits(Value(ds, base), base, |ds|) == ds
  {
    if ds != [] {
      var front, d := ds[..|ds| - 1], ds[|ds| - 1];
      DivModOf(Value(front, base), d, base);
      DigitsOfValue(front, base);
      assert ds == front + [d];
    }
  }

  lemma {:induction false} ValueOfDigits(v: nat, base: nat, n: nat)
    requires base > 0 && v < Pow(base, n)
    ensures Value(Digits(v, base, n), base) == v
    decreases n
  {
    if n > 0 {
      var q := Quotient(v, base);
      QuotientBelow(v, base, Pow(base, n - 1));
      ValueOfDigits(q, base, n - 1);
      ValueAppend(Digits(q, base, n - 1), v % base, base);
      assert q * base == base * q;
    }
  }

  lemma QuotientBelow(v: nat, base: nat, p: nat)
    requires base > 0 && v < base * p
    ensures v / base < p
  {
    var q := v / base;
    assert v == base * q + v % base;
    if p <= q {
      MulMonotone(base, p, q);
      assert false;
    }
  }

  lemma MulMonotone(a: nat, x: nat, y: nat)
    requires x <= y
    ensures a * x <= a * y
  {
  }

  lemma {:induction false} ValueBelowPow(ds: seq<nat>, base: nat)
    requires base > 0 && AllBelow(ds, base)
    ensures Value(ds, base) < Pow(base, |ds|)
  {
    if ds != [] {
      var front := ds[..|ds| - 1];
      ValueBelowPow(front, base);
      MulMonotone(base, Value(front, base) + 1, Pow(base, |front|));
      assert base * (Value(front, base) + 1) == Value(front, base) * base + base;
    }
  }

  // ------------------------------------------------------------------- shifting

  lemma DivDiv(n: nat, a: nat, b: nat)
    requires a > 0 && b > 0
    ensures a * b > 0 && n / (a * b) == n / a / b
  {
    var q, r := Quotient(n, a), n % a;
    var q2, r2 := Quotient(q, b), q % b;
    assert n == a * q + r && q == b * q2 + r2;
    assert n == (a * b) * q2 + (a * r2 + r) by {
      assert a * (b * q2 + r2) == (a * b) * q2 + a * r2;
    }
    MulMonotone(a, r2 + 1, b);
    assert a * (r2 + 1) == a * r2 + a;
    assert 0 <= a * r2 + r < a * b;
    QuotientIs(n, a * b, q2, a * r2 + r);
  }

  lemma QuotientIs(n: nat, d: nat, q: nat, r: nat)
    requires d > 0 && r < d && n == d * q + r
    ensures n / d == q && n % d == r
  {
    DivModOf(q, r, d);
    assert q * d == d * q;
  }

  lemma ModOfMultiple(x: nat, m: nat, k: nat)
    requires m > 0
    ensures (m * k + x) % m == x % m
  {
    var f := Quotient(x, m);
    assert m * k + x == m * (k + f) + x % m by {
      assert m * (k + f) == m * k + m * f;
    }
    QuotientIs(m * k + x, m, k + f, x % m);
  }

  lemma DivOfMultiple(x: nat, d: nat, k: nat)
    requires d > 0
    ensures (d * k + x) / d == k + x / d
  {
    var f := Quotient(x, d);
    assert d * (k + f) == d * k + d * f;
    QuotientIs(d * k + x, d, k + f, x % d);
  }

  /** Bits below `d * m` are read alike from a number and from its remainder modulo `d * m * k`. */
  lemma DigitOfRemainder(n: nat, d: nat, m: nat, k: nat)
    requires d > 0 && m > 0 && k > 0
    ensures d * (m * k) > 0 && (n % (d * (m * k))) / d % m == n / d % m
  {
    MulPositive(m, k);
    MulPositive(d, m * k);
    var w := d * (m * k);
    var q, r := Quotient(n, w), n % w;
    assert w * q == d * ((m * k) * q);
    DivOfMultiple(r, d, (m * k) * q);
    assert (m * k) * q == m * (k * q);
    ModOfMultiple(Quotient(r, d), m, k * q);
  }

  lemma MulPositive(a: nat, b: nat)
    requires a > 0 && b > 0
    ensures a * b > 0
  {
  }
}
