/** The 32-bit string hash behind failure fingerprints, against the polynomial it stands for. */
module RollingHash {
  /** A UTF-16 code unit. */
  type Unit = n: int | 0 <= n < 0x1_0000

  const WRAP: int := 0x1_0000_0000

  /** Conversion to a signed 32-bit integer. */
  function Int32(n: int): (r: int)
    ensures -0x8000_0000 <= r < 0x8000_0000
  {
    (n + 0x8000_0000) % WRAP - 0x8000_0000
  }

  /** The string as a number in base 31. */
  function Polynomial(s: seq<Unit>): nat
    decreases |s|
  {
    if s == [] then 0 else Polynomial(s[..|s| - 1]) * 31 + s[|s| - 1]
  }

  function Power31(n: nat): nat {
    if n == 0 then 1 else Power31(n - 1) * 31
  }

  ghost predicate Congruent(a: int, b: int) {
    exists k: int :: Differ(a, b, k)
  }

  predicate Differ(a: int, b: int, k: int) {
    a - b == k * WRAP
  }

  /** The integers that a double holds exactly. */
  predicate Exact(n: int) {
    -0x20_0000_0000_0000 <= n <= 0x20_0000_0000_0000
  }

  lemma Shift(n: int, k: int)
    ensures (n + k * WRAP) % WRAP == n % WRAP
  {
    var q, r := n / WRAP, n % WRAP;
    var m := n + k * WRAP;
    assert m == (q + k) * WRAP + r;
    var d := m / WRAP - (q + k);
    assert d * WRAP == r - m % WRAP;
    assert d == 0;
  }

  /** Congruent numbers wrap to the same integer, and only those. */
  lemma WrapIff(a: int, b: int)
    ensures Int32(a) == Int32(b) <==> Congruent(a, b)
    ensures Congruent(Int32(a), a)
  {
    var qa, qb := (a + 0x8000_0000) / WRAP, (b + 0x8000_0000) / WRAP;
    assert Differ(Int32(a), a, -qa);
    if Int32(a) == Int32(b) {
      assert Differ(a, b, qa - qb);
    }
    if Congruent(a, b) {
      var k :| Differ(a, b, k);
      Shift(b + 0x8000_0000, k);
    }
  }

  lemma CongruentSum(a: int, b: int, c: int, d: int, m: int)
    requires Congruent(a, b) && Congruent(c, d)
    ensures Congruent(a * m + c, b * m + d)
  {
    var k :| Differ(a, b, k);
    var l :| Differ(c, d, l);
    assert a * m + c - (b * m + d) == (a - b) * m + (c - d);
    assert (a - b) * m == k * m * WRAP by { Swap(k, m); }
    assert Differ(a * m + c, b * m + d, k * m + l);
  }

  lemma Swap(k: int, m: int)
    ensures k * WRAP * m == k * m * WRAP
  {
  }

  lemma CongruentSame(a: int)
    ensures Congruent(a, a)
  {
    assert Differ(a, a, 0);
  }

  /** One round of the loop on 32-bit integers is one step of the polynomial, and stays exact. */
  lemma Round(p: int, c: Unit)
    ensures Int32(Int32(Int32(p) * 32) - Int32(p) + c) == Int32(p * 31 + c)
    ensures Exact(Int32(p) * 32) && Exact(Int32(Int32(p) * 32) - Int32(p) + c)
  {
    hide Int32;
    var h := Int32(p);
    WrapIff(p, p);
    WrapIff(h * 32, h * 32);
    CongruentSame(c - h);
    CongruentSum(Int32(h * 32), h * 32, c - h, c - h, 1);
    CongruentSame(c);
    CongruentSum(h, p, c, c, 31);
    WrapIff(Int32(h * 32) - h + c, h * 31 + c);
    WrapIff(h * 31 + c, p * 31 + c);
  }

  /** The hash is the signed 32-bit representative of the polynomial, its sign dropped. */
  method SimpleHash(s: seq<Unit>) returns (fingerprint: nat)
    ensures fingerprint == Abs(Int32(Polynomial(s)))
  {
    var hash := 0;
    for i := 0 to |s|
      invariant hash == Int32(Polynomial(s[..i]))
    {
      assert s[..i + 1][..i] == s[..i];
      Round(Polynomial(s[..i]), s[i]);
      hash := Int32(hash * 32) - hash + s[i];
      hash := Int32(hash);
    }
    assert s[..|s|] == s;
    return Abs(hash);
  }

  function Abs(n: int): nat {
    if n < 0 then -n else n
  }

  lemma {:induction false} PolynomialConcat(s: seq<Unit>, t: seq<Unit>)
    ensures Polynomial(s + t) == Polynomial(s) * Power31(|t|) + Polynomial(t)
    decreases |t|
  {
    if t == [] {
      assert s + t == s;
    } else {
      var n := |t| - 1;
      PolynomialConcat(s, t[..n]);
      assert (s + t)[..|s + t| - 1] == s + t[..n];
      assert (s + t)[|s + t| - 1] == t[n];
      Distribute(Polynomial(s), Power31(n), Polynomial(t[..n]), t[n]);
    }
  }

  /** A unit is its own hash, and each one before it counts thirty-one times as much. */
  lemma PolynomialStarts(c: Unit, d: Unit)
    ensures Polynomial([]) == 0 && Polynomial([c]) == c && Polynomial([c, d]) == 31 * c + d
    ensures Power31(0) == 1 && Power31(1) == 31
  {
    assert [c][..0] == [] && [c, d][..1] == [c];
  }

  lemma Distribute(p: nat, w: nat, q: nat, c: int)
    ensures (p * w + q) * 31 + c == p * (w * 31) + (q * 31 + c)
  {
  }

  /** The hash of a concatenation follows from the hashes of its parts and the length of the second. */
  lemma HashConcat(s: seq<Unit>, t: seq<Unit>)
    ensures Int32(Polynomial(s + t)) == Int32(Int32(Polynomial(s)) * Power31(|t|) + Int32(Polynomial(t)))
  {
    hide Int32;
    var p, q, w := Polynomial(s), Polynomial(t), Power31(|t|);
    PolynomialConcat(s, t);
    WrapIff(p, p);
    WrapIff(q, q);
    CongruentSum(Int32(p), p, Int32(q), q, w);
    WrapIff(Int32(p) * w + Int32(q), p * w + q);
  }

  /** Two strings share a fingerprint exactly if their polynomials agree modulo 2^32, or cancel. */
  lemma SameFingerprintIff(s: seq<Unit>, t: seq<Unit>)
    ensures Abs(Int32(Polynomial(s))) == Abs(Int32(Polynomial(t)))
       <==> Congruent(Polynomial(s), Polynomial(t)) || Congruent(Polynomial(s) + Polynomial(t), 0)
  {
    var p: int, q: int := Polynomial(s), Polynomial(t);
    WrapIff(p, q);
    WrapIff(p, -q);
    Negated(q);
    if Congruent(p, -q) {
      var k :| Differ(p, -q, k);
      assert Differ(p + q, 0, k);
    }
    if Congruent(p + q, 0) {
      var k :| Differ(p + q, 0, k);
      assert Differ(p, -q, k);
    }
  }

  lemma Negated(q: int)
    ensures Int32(-q) == if Int32(q) == -0x8000_0000 then -0x8000_0000 else -Int32(q)
  {
    var m := -Int32(q);
    WrapIff(q, q);
    var k :| Differ(Int32(q), q, k);
    assert Differ(-q, m, k);
    assert Congruent(-q, m);
    WrapIff(-q, m);
  }
}
