/** Option type, powers of two and the residue facts that the 16-bit and 32-bit registers rely on. */
module Arith {

  datatype Option<+T> = None | Some(value: T)

  // A register with its valid bit as what it contributes to a stream.
  function Opt<T>(o: Option<T>): seq<T> { if o.Some? then [o.value] else [] }

  function Min(a: nat, b: nat): nat { if a < b then a else b }

  // The drivers' pointers are 32 bits wide.
  const U32: nat := 0x1_0000_0000

  function Pow2(n: nat): (r: nat)
    ensures r >= 1
  {
    if n == 0 then 1 else 2 * Pow2(n - 1)
  }

  lemma {:induction false} Pow2Monotone(a: nat, b: nat)
    requires a <= b
    ensures Pow2(a) <= Pow2(b)
  {
    if a < b { Pow2Monotone(a, b - 1); }
  }

  // 2^a divides 2^b with the quotient 2^(b-a).
  lemma {:induction false} Pow2Split(a: nat, b: nat)
    requires a <= b
    ensures Pow2(b) == Pow2(a) * Pow2(b - a)
  {
    if a < b { Pow2Split(a, b - 1); }
  }

  // A multiple of m other than 0 is at least m away from 0.
  lemma MultipleFar(d: int, m: int)
    requires m > 0
    ensures d >= 1 ==> d * m >= m
    ensures d <= -1 ==> d * m <= -m
  {
    assert d >= 1 ==> (d - 1) * m >= 0;
    assert d <= -1 ==> (d + 1) * m <= 0;
  }

  // The quotient and remainder of a division are unique.
  lemma DivModUnique(x: int, m: int, q: int, r: int)
    requires 0 <= r < m
    requires x == q * m + r
    ensures x / m == q && x % m == r
  {
    var d := x / m - q;
    assert x == (x / m) * m + x % m;
    assert d * m == r - x % m;
    MultipleFar(d, m);
  }

  lemma DoubleProduct(x: int, y: int)
    ensures x * (2 * y) == 2 * (x * y)
  {
  }

  // Adding a multiple of m changes the quotient only.
  lemma AddMultiple(x: int, k: int, m: int)
    requires m > 0
    ensures (x + k * m) / m == x / m + k && (x + k * m) % m == x % m
  {
    assert (x / m + k) * m == (x / m) * m + k * m;
    DivModUnique(x + k * m, m, x / m + k, x % m);
  }

  // Adding to a residue and reducing again is adding and reducing once.
  lemma ModAdd(a: int, k: int, m: int)
    requires m > 0
    ensures (a % m + k) % m == (a + k) % m
  {
    var q, r := (a % m + k) / m, (a % m + k) % m;
    assert a == (a / m) * m + a % m;
    assert a + k == (a / m + q) * m + r by {
      assert (a / m + q) * m == (a / m) * m + q * m;
      assert a % m + k == q * m + r;
    }
    DivModUnique(a + k, m, a / m + q, r);
  }

  // The wrapped difference of two residues is the true distance while that is below the modulus.
  lemma ModDistance(a: int, b: int, m: int)
    requires 0 <= a - b < m
    ensures (a % m - b % m) % m == a - b
  {
    var d := a / m - b / m;
    assert a == (a / m) * m + a % m && b == (b / m) * m + b % m;
    assert d * m == (a / m) * m - (b / m) * m;
    DivModUnique(a % m - b % m, m, -d, a - b);
  }

  // Two numbers less than m apart with the same residue are the same number.
  lemma ModInjective(a: int, b: int, m: int)
    requires -m < a - b < m
    requires a % m == b % m
    ensures a == b
  {
    if a >= b { ModDistance(a, b, m); } else { ModDistance(b, a, m); }
  }

  // Numbers less than m apart are in different residue classes.
  lemma DifferentResidues(a: int, b: int, m: int)
    requires 0 < a - b < m
    ensures a % m != b % m
  {
    if a % m == b % m { ModInjective(a, b, m); }
  }

  // Two-digit numbers: r * m + t with digits r < k and t < m stays below m * k.
  lemma TwoDigits(r: int, t: int, k: int, m: int)
    requires 0 <= r < k && 0 <= t < m
    ensures 0 <= r * m + t < m * k
  {
    MultipleFar(k - r, m);
    assert (k - r) * m == k * m - r * m;
    assert r * m >= 0;
  }

  lemma Regroup(q: int, k: int, r: int, m: int, t: int)
    ensures (q * k + r) * m + t == q * (m * k) + (r * m + t)
  {
    assert (q * k + r) * m == (q * k) * m + r * m;
    assert (q * k) * m == q * (m * k);
  }

  // Reducing by a multiple of m first does not change the residue modulo m or the low bit above it.
  lemma ModOfMod(a: int, m: int, k: int)
    requires m > 0 && k > 0
    ensures m * k > 0
    ensures (a % (m * k)) % m == a % m
    ensures (a % (m * k)) / m == (a / m) % k
  {
    var y, t, M := a / m, a % m, m * k;
    var q, r := y / k, y % k;
    assert a == y * m + t && y == q * k + r;
    TwoDigits(r, t, k, m);
    Regroup(q, k, r, m, t);
    DivModUnique(a, M, q, r * m + t);
    DivModUnique(r * m + t, m, r, t);
  }
}
