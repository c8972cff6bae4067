/** The arithmetic RSA stands on: powers modulo a number, Euclid's lemma, Fermat's little
    theorem, and the uniqueness half of the Chinese remainder theorem. */
module NumberTheory {

  function Pow(b: int, e: nat): int {
    if e == 0 then 1 else b * Pow(b, e - 1)
  }

  ghost predicate Prime(p: int) {
    p >= 2 && forall d :: 1 < d < p ==> p % d != 0
  }

  // ----- remainders -----

  lemma MulOrder(k: int, m: int)
    requires m > 0
    ensures k >= 1 ==> k * m >= m
    ensures k <= -1 ==> k * m <= -m
  {
    if k >= 1 { assert k * m == (k - 1) * m + m; assert (k - 1) * m >= 0; }
    if k <= -1 { assert k * m == (k + 1) * m - m; assert (k + 1) * m <= 0; }
  }

  lemma DivMod(a: int, m: int)
    requires m > 0
    ensures a == (a / m) * m + a % m && 0 <= a % m < m
  {
  }

  /** Quotient and remainder are unique. */
  lemma ModIs(a: int, q: int, r: int, m: int)
    requires m > 0 && a == q * m + r && 0 <= r < m
    ensures a % m == r
  {
    DivMod(a, m);
    var k := q - a / m;
    assert k * m == q * m - (a / m) * m;
    MulOrder(k, m);
  }

  lemma AddMultiple(a: int, k: int, m: int)
    requires m > 0
    ensures (a + k * m) % m == a % m
  {
    DivMod(a, m);
    assert (a / m + k) * m == (a / m) * m + k * m;
    ModIs(a + k * m, a / m + k, a % m, m);
  }

  lemma ModMod(a: int, m: int)
    requires m > 0
    ensures (a % m) % m == a % m
  {
    ModIs(a % m, 0, a % m, m);
  }

  lemma MulModLeft(a: int, b: int, m: int)
    requires m > 0
    ensures (a * b) % m == ((a % m) * b) % m
  {
    DivMod(a, m);
    var q, r := a / m, a % m;
    assert a * b == r * b + (q * b) * m by {
      assert (q * m + r) * b == (q * m) * b + r * b;
      assert (q * m) * b == (q * b) * m;
    }
    AddMultiple(r * b, q * b, m);
  }

  lemma MulMod(a: int, b: int, m: int)
    requires m > 0
    ensures (a * b) % m == ((a % m) * (b % m)) % m
  {
    MulModLeft(a, b, m);
    MulModLeft(b, a % m, m);
    assert b * (a % m) == (a % m) * b && (b % m) * (a % m) == (a % m) * (b % m);
  }

  lemma CongSub(a: int, b: int, m: int)
    requires m > 0
    ensures a % m == b % m <==> (a - b) % m == 0
  {
    DivMod(a, m);
    DivMod(b, m);
    if a % m == b % m {
      assert a - b == (a / m - b / m) * m + 0 by {
        assert (a / m - b / m) * m == (a / m) * m - (b / m) * m;
      }
      ModIs(a - b, a / m - b / m, 0, m);
    }
    if (a - b) % m == 0 {
      DivMod(a - b, m);
      AddMultiple(b, (a - b) / m, m);
    }
  }

  lemma MultipleIsZero(k: int, m: int)
    requires m > 0
    ensures (k * m) % m == 0
  {
    ModIs(k * m, k, 0, m);
  }

  // ----- powers -----

  lemma {:induction false} PowAdd(b: int, m: nat, n: nat)
    ensures Pow(b, m + n) == Pow(b, m) * Pow(b, n)
    decreases m
  {
    if m > 0 {
      PowAdd(b, m - 1, n);
      assert b * (Pow(b, m - 1) * Pow(b, n)) == (b * Pow(b, m - 1)) * Pow(b, n);
    }
  }

  lemma {:induction false} PowMul(b: int, m: nat, n: nat)
    ensures Pow(b, m * n) == Pow(Pow(b, m), n)
    decreases n
  {
    if n == 0 {
      assert m * n == 0;
    } else {
      PowMul(b, m, n - 1);
      assert m * n == m + m * (n - 1);
      PowAdd(b, m, m * (n - 1));
    }
  }

  /** A power's remainder depends only on the base's remainder. */
  lemma {:induction false} PowMod(b: int, e: nat, m: int)
    requires m > 0
    ensures Pow(b, e) % m == Pow(b % m, e) % m
    decreases e
  {
    if e > 0 {
      PowMod(b, e - 1, m);
      MulMod(b, Pow(b, e - 1), m);
      MulMod(b % m, Pow(b % m, e - 1), m);
      ModMod(b, m);
    }
  }

  lemma {:induction false} PowOne(e: nat)
    ensures Pow(1, e) == 1
  {
    if e > 0 { PowOne(e - 1); }
  }

  lemma PowZero(e: nat)
    requires e > 0
    ensures Pow(0, e) == 0
  {
  }

  // ----- primes -----

  /** Euclid's lemma for a factor below the prime, by descent on the factor. */
  lemma {:induction false} EuclidSmall(p: int, a: int, b: int)
    requires Prime(p) && 0 < a < p && (a * b) % p == 0
    ensures b % p == 0
    decreases a
  {
    if a == 1 {
      assert a * b == b;
    } else {
      var q, r := p / a, p % a;
      DivMod(p, a);
      assert r != 0;
      DivMod(a * b, p);
      var k := a * b / p;
      assert r * b == (b - q * k) * p by {
        assert r == p - q * a;
        assert (p - q * a) * b == p * b - q * (a * b);
        assert q * (k * p) == (q * k) * p;
        assert p * b - (q * k) * p == (b - q * k) * p;
      }
      MultipleIsZero(b - q * k, p);
      EuclidSmall(p, r, b);
    }
  }

  /** A prime that divides a product divides one of its factors. */
  lemma Euclid(p: int, a: int, b: int)
    requires Prime(p) && (a * b) % p == 0
    ensures a % p == 0 || b % p == 0
  {
    if a % p != 0 {
      MulModLeft(a, b, p);
      EuclidSmall(p, a % p, b);
    }
  }

  function Factorial(n: nat): nat { if n == 0 then 1 else n * Factorial(n - 1) }

  lemma {:induction false} FactorialUnit(p: int, n: nat)
    requires Prime(p) && n < p
    ensures Factorial(n) % p != 0
    decreases n
  {
    if n > 0 {
      FactorialUnit(p, n - 1);
      if Factorial(n) % p == 0 {
        Euclid(p, n, Factorial(n - 1));
        ModIs(n, 0, n, p);
      }
    } else {
      ModIs(1, 0, 1, p);
    }
  }

  // ----- a sequence of m distinct numbers in 1..m multiplies to m! -----

  function Product(s: seq<int>): int { if s == [] then 1 else s[0] * Product(s[1..]) }

  ghost predicate DistinctBelow(s: seq<int>, m: int) {
    && (forall i | 0 <= i < |s| :: 1 <= s[i] <= m)
    && (forall i, j | 0 <= i < j < |s| :: s[i] != s[j])
  }

  lemma {:induction false} ProductRemove(s: seq<int>, k: nat)
    requires k < |s|
    ensures Product(s) == s[k] * Product(s[..k] + s[k + 1..])
    decreases k
  {
    if k == 0 {
      assert s[..0] + s[1..] == s[1..];
    } else {
      ProductRemove(s[1..], k - 1);
      var rest := s[..k] + s[k + 1..];
      assert rest[1..] == s[1..][..k - 1] + s[1..][k..];
      var inner := Product(rest[1..]);
      assert s[0] * (s[k] * inner) == s[k] * (s[0] * inner);
    }
  }

  /** Pigeonhole: m distinct numbers in 1..m include m. */
  lemma {:induction false} DistinctCount(s: seq<int>, m: nat)
    requires DistinctBelow(s, m)
    ensures |s| <= m
    decreases m
  {
    assert |s| > 0 ==> 1 <= s[0] <= m;
    if m > 0 {
      if exists k :: 0 <= k < |s| && s[k] == m {
        var k :| 0 <= k < |s| && s[k] == m;
        RemoveDistinct(s, k, m);
        DistinctCount(s[..k] + s[k + 1..], m - 1);
      } else {
        DistinctCount(s, m - 1);
      }
    }
  }

  lemma RemoveDistinct(s: seq<int>, k: nat, m: nat)
    requires m > 0 && DistinctBelow(s, m) && k < |s| && s[k] == m
    ensures DistinctBelow(s[..k] + s[k + 1..], m - 1)
  {
    var t := s[..k] + s[k + 1..];
    forall i | 0 <= i < |t|
      ensures 1 <= t[i] <= m - 1
    {
      var j := if i < k then i else i + 1;
      assert t[i] == s[j] && j != k;
    }
    forall i, j | 0 <= i < j < |t|
      ensures t[i] != t[j]
    {
      assert t[i] == s[if i < k then i else i + 1] && t[j] == s[if j < k then j else j + 1];
    }
  }

  lemma {:induction false} PermutationProduct(s: seq<int>, m: nat)
    requires DistinctBelow(s, m) && |s| == m
    ensures Product(s) == Factorial(m)
    decreases m
  {
    if m > 0 {
      if forall k | 0 <= k < |s| :: s[k] != m {
        DistinctCount(s, m - 1);
      } else {
        var k :| 0 <= k < |s| && s[k] == m;
        RemoveDistinct(s, k, m);
        ProductRemove(s, k);
        PermutationProduct(s[..k] + s[k + 1..], m - 1);
      }
    }
  }

  // ----- Fermat's little theorem -----

  /** The remainders of a, 2a, ..., na. */
  function Multiples(a: int, n: nat, p: int): (r: seq<int>)
    requires p > 0
    ensures |r| == n
    ensures forall i | 0 <= i < n :: r[i] == (a * (i + 1)) % p
  {
    if n == 0 then [] else Multiples(a, n - 1, p) + [(a * n) % p]
  }

  lemma {:induction false} ProductAppend(s: seq<int>, x: int)
    ensures Product(s + [x]) == Product(s) * x
    decreases |s|
  {
    if s == [] {
      assert ([] + [x])[1..] == [];
      assert Product([x]) == x * Product([]);
    } else {
      assert (s + [x])[1..] == s[1..] + [x];
      ProductAppend(s[1..], x);
      assert s[0] * (Product(s[1..]) * x) == (s[0] * Product(s[1..])) * x;
    }
  }

  lemma {:induction false} MultiplesProduct(a: int, n: nat, p: int)
    requires p > 0
    ensures Product(Multiples(a, n, p)) % p == (Pow(a, n) * Factorial(n)) % p
    decreases n
  {
    if n > 0 {
      var s := Multiples(a, n - 1, p);
      MultiplesProduct(a, n - 1, p);
      ProductAppend(s, (a * n) % p);
      MulMod(Product(s), (a * n) % p, p);
      ModMod(a * n, p);
      MulMod(Pow(a, n - 1) * Factorial(n - 1), a * n, p);
      assert (Pow(a, n - 1) * Factorial(n - 1)) * (a * n) == (a * Pow(a, n - 1)) * (n * Factorial(n - 1)) by {
        Shuffle(Pow(a, n - 1), Factorial(n - 1), a, n);
      }
    }
  }

  lemma Shuffle(x: int, f: int, a: int, n: int)
    ensures (x * f) * (a * n) == (a * x) * (n * f)
  {
    assert (x * f) * (a * n) == x * (f * (a * n));
    assert f * (a * n) == a * (n * f);
    assert x * (a * (n * f)) == (a * x) * (n * f);
  }

  lemma MultiplesDistinct(a: int, p: int)
    requires Prime(p) && a % p != 0
    ensures DistinctBelow(Multiples(a, p - 1, p), p - 1)
  {
    var s := Multiples(a, p - 1, p);
    forall i | 0 <= i < |s|
      ensures 1 <= s[i] <= p - 1
    {
      if (a * (i + 1)) % p == 0 {
        Euclid(p, a, i + 1);
        ModIs(i + 1, 0, i + 1, p);
      }
    }
    forall i, j | 0 <= i < j < |s|
      ensures s[i] != s[j]
    {
      if s[i] == s[j] {
        CongSub(a * (j + 1), a * (i + 1), p);
        assert a * (j + 1) - a * (i + 1) == a * (j - i);
        Euclid(p, a, j - i);
        ModIs(j - i, 0, j - i, p);
      }
    }
  }

  /** Fermat's little theorem. */
  lemma Fermat(a: int, p: int)
    requires Prime(p) && a % p != 0
    ensures Pow(a, p - 1) % p == 1
  {
    var s, f := Multiples(a, p - 1, p), Factorial(p - 1);
    MultiplesDistinct(a, p);
    PermutationProduct(s, p - 1);
    MultiplesProduct(a, p - 1, p);
    CongSub(Pow(a, p - 1) * f, f, p);
    assert Pow(a, p - 1) * f - f == (Pow(a, p - 1) - 1) * f;
    FactorialUnit(p, p - 1);
    Euclid(p, Pow(a, p - 1) - 1, f);
    CongSub(Pow(a, p - 1), 1, p);
    ModIs(1, 0, 1, p);
  }

  /** Modulo a prime an exponent that is 1 modulo p-1 changes nothing, multiples of p included. */
  lemma PowUnitExponent(v: int, k: nat, p: int)
    requires Prime(p)
    ensures Pow(v, 1 + k * (p - 1)) % p == v % p
  {
    var n := k * (p - 1);
    assert Pow(v, 1 + n) == v * Pow(v, n);
    if v % p == 0 {
      MulModLeft(v, Pow(v, n), p);
      assert 0 * Pow(v, n) == 0;
      ModIs(0, 0, 0, p);
    } else {
      PowMultipleOfOrder(v, k, p);
      MulMod(v, Pow(v, n), p);
      assert (v % p) * 1 == v % p;
      ModMod(v, p);
    }
  }

  lemma PowMultipleOfOrder(v: int, k: nat, p: int)
    requires Prime(p) && v % p != 0
    ensures Pow(v, k * (p - 1)) % p == 1
  {
    Fermat(v, p);
    assert k * (p - 1) == (p - 1) * k;
    PowMul(v, p - 1, k);
    PowMod(Pow(v, p - 1), k, p);
    PowOne(k);
    ModIs(1, 0, 1, p);
  }

  /** Reducing an exponent modulo p-1 keeps the power modulo p, unless it reduces to zero
      over a base that p divides. */
  lemma PowReduceExponent(v: int, d: nat, p: int)
    requires Prime(p) && (v % p != 0 || d % (p - 1) != 0)
    ensures Pow(v, d % (p - 1)) % p == Pow(v, d) % p
  {
    var r, k := d % (p - 1), d / (p - 1);
    DivMod(d, p - 1);
    if v % p == 0 {
      PowMod(v, r, p);
      PowMod(v, d, p);
      assert d != 0 by { if d == 0 { ModIs(0, 0, 0, p - 1); } }
      PowZero(r);
      PowZero(d);
    } else {
      assert k >= 0 by { if k < 0 { MulOrder(k, p - 1); } }
      PowAdd(v, k * (p - 1), r);
      PowMultipleOfOrder(v, k, p);
      MulMod(Pow(v, k * (p - 1)), Pow(v, r), p);
      assert 1 * (Pow(v, r) % p) == Pow(v, r) % p;
      ModMod(Pow(v, r), p);
    }
  }

  // ----- two primes -----

  lemma PrimeNotDivides(p: int, q: int)
    requires Prime(p) && Prime(q) && p != q
    ensures p % q != 0
  {
    if q > p { ModIs(p, 0, p, q); }
  }

  /** Numbers with equal remainders modulo two distinct primes have equal remainders
      modulo their product. */
  lemma RemaindersDecide(x: int, y: int, p: int, q: int)
    requires Prime(p) && Prime(q) && p != q
    requires x % p == y % p && x % q == y % q
    ensures p * q > 0 && x % (p * q) == y % (p * q)
  {
    var d := x - y;
    CongSub(x, y, p);
    CongSub(x, y, q);
    DivMod(d, p);
    var k := d / p;
    assert d == k * p;
    Euclid(q, k, p);
    PrimeNotDivides(p, q);
    DivMod(k, q);
    var j := k / q;
    assert d == j * (p * q) by { assert (j * q) * p == j * (p * q); }
    assert p * q > 0;
    MultipleIsZero(j, p * q);
    CongSub(x, y, p * q);
  }
}
