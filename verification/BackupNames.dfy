/** The order in which backup names sort, and its extremes. */
module BackupNames {
  /** The default order of `sort` on strings. */
  predicate AtMost(a: string, b: string) {
    a == [] || (b != [] && (a[0] < b[0] || (a[0] == b[0] && AtMost(a[1..], b[1..]))))
  }

  lemma {:induction false} Total(a: string, b: string)
    ensures AtMost(a, b) || AtMost(b, a)
    ensures AtMost(a, a)
    ensures AtMost(a, b) && AtMost(b, a) ==> a == b
  {
    if a != [] {
      Total(a[1..], if b == [] then [] else b[1..]);
      if b != [] && a[0] == b[0] && a[1..] == b[1..] {
        assert a == [a[0]] + a[1..] && b == [b[0]] + b[1..];
      }
    }
  }

  lemma {:induction false} Transitive(a: string, b: string, c: string)
    requires AtMost(a, b) && AtMost(b, c)
    ensures AtMost(a, c)
  {
    if a != [] && a[0] == b[0] && b[0] == c[0] {
      Transitive(a[1..], b[1..], c[1..]);
    }
  }

  predicate IsLeast(x: string, s: set<string>) {
    x in s && forall y <- s :: AtMost(x, y)
  }

  predicate IsGreatest(x: string, s: set<string>) {
    x in s && forall y <- s :: AtMost(y, x)
  }

  lemma {:induction false} ExtremesExist(s: set<string>)
    requires s != {}
    ensures exists x :: IsLeast(x, s)
    ensures exists x :: IsGreatest(x, s)
    decreases |s|
  {
    var a :| a in s;
    var rest := s - {a};
    Total(a, a);
    if rest == {} {
      assert s == {a};
      assert IsLeast(a, s) && IsGreatest(a, s);
    } else {
      ExtremesExist(rest);
      var l :| IsLeast(l, rest);
      var g :| IsGreatest(g, rest);
      Total(a, l);
      Total(a, g);
      forall y | y in s
        ensures AtMost(a, l) ==> AtMost(a, y)
        ensures AtMost(l, a) ==> AtMost(l, y)
        ensures AtMost(g, a) ==> AtMost(y, a)
        ensures AtMost(a, g) ==> AtMost(y, g)
      {
        if y != a {
          if AtMost(a, l) { Transitive(a, l, y); }
          if AtMost(g, a) { Transitive(y, g, a); }
        }
      }
      assert IsLeast(if AtMost(a, l) then a else l, s);
      assert IsGreatest(if AtMost(g, a) then a else g, s);
    }
  }

  /** What `shift` takes off the sorted names. */
  ghost function Least(s: set<string>): (x: string)
    requires s != {}
    ensures IsLeast(x, s)
  {
    ExtremesExist(s);
    var x :| IsLeast(x, s);
    x
  }

  /** The first of the names sorted in reverse. */
  ghost function Greatest(s: set<string>): (x: string)
    requires s != {}
    ensures IsGreatest(x, s)
  {
    ExtremesExist(s);
    var x :| IsGreatest(x, s);
    x
  }

  // ----- Timestamps -----

  function Decimal(n: nat): (r: string)
    ensures n < 10 <==> |r| == 1
    ensures |r| > 0
  {
    if n < 10 then [Digit(n)] else Decimal(n / 10) + [Digit(n % 10)]
  }

  function Digit(d: nat): char
    requires d < 10
  {
    "0123456789"[d]
  }

  lemma {:induction false} SnocOrder(a: string, b: string, c: char, d: char)
    requires |a| == |b|
    ensures AtMost(a + [c], b + [d]) <==> (AtMost(a, b) && a != b) || (a == b && c <= d)
  {
    Total(a, a);
    if a != [] {
      assert (a + [c])[1..] == a[1..] + [c] && (b + [d])[1..] == b[1..] + [d];
      assert a == b <==> a[0] == b[0] && a[1..] == b[1..] by {
        assert a == [a[0]] + a[1..] && b == [b[0]] + b[1..];
      }
      SnocOrder(a[1..], b[1..], c, d);
    }
  }

  lemma DigitOrder(c: nat, d: nat)
    requires c < 10 && d < 10
    ensures Digit(c) <= Digit(d) <==> c <= d
  {
  }

  lemma SnocEqual(a: string, b: string, c: char, d: char)
    ensures a + [c] == b + [d] <==> a == b && c == d
  {
    if a + [c] == b + [d] {
      assert (a + [c])[..|a|] == a && (b + [d])[..|b|] == b;
      assert (a + [c])[|a|] == c && (b + [d])[|b|] == d;
    }
  }

  /** Numbers of the same width sort as numbers. */
  lemma {:induction false} SameWidthOrder(m: nat, n: nat)
    requires |Decimal(m)| == |Decimal(n)|
    ensures AtMost(Decimal(m), Decimal(n)) <==> m <= n
    ensures Decimal(m) == Decimal(n) <==> m == n
    decreases m
  {
    hide AtMost, Digit;
    DigitOrder(m % 10, n % 10);
    DigitOrder(n % 10, m % 10);
    var a, b := if m < 10 then "" else Decimal(m / 10), if n < 10 then "" else Decimal(n / 10);
    var c, d := Digit(m % 10), Digit(n % 10);
    assert Decimal(m) == a + [c] && Decimal(n) == b + [d];
    SnocOrder(a, b, c, d);
    SnocEqual(a, b, c, d);
    Total(a, b);
    if m >= 10 {
      SameWidthOrder(m / 10, n / 10);
    }
  }

  lemma {:induction false} PrefixOrder(p: string, a: string, b: string)
    ensures AtMost(p + a, p + b) <==> AtMost(a, b)
  {
    if p == [] {
      assert p + a == a && p + b == b;
    } else {
      assert (p + a)[1..] == p[1..] + a && (p + b)[1..] == p[1..] + b;
      PrefixOrder(p[1..], a, b);
    }
  }

  function BackupName(base: string, time: nat): string {
    base + ".bak." + Decimal(time)
  }

  /** Backups whose timestamps have one width sort by age. */
  lemma BackupsSortByAge(base: string, m: nat, n: nat)
    requires |Decimal(m)| == |Decimal(n)|
    ensures AtMost(BackupName(base, m), BackupName(base, n)) <==> m <= n
  {
    SameWidthOrder(m, n);
    PrefixOrder(base + ".bak.", Decimal(m), Decimal(n));
  }

  function PowerOfTen(k: nat): (r: nat)
    ensures r > 0
  {
    if k == 0 then 1 else 10 * PowerOfTen(k - 1)
  }

  lemma {:induction false} LeadingDigits(k: nat)
    requires k > 0
    ensures Decimal(PowerOfTen(k))[0] == '1' && Decimal(PowerOfTen(k) - 1)[0] == '9'
  {
    if k > 1 {
      LeadingDigits(k - 1);
      var p := PowerOfTen(k - 1);
      assert 10 * p / 10 == p && (10 * p - 1) / 10 == p - 1;
      assert p >= 10;
    } else {
      assert Decimal(10) == Decimal(1) + [Digit(0)];
    }
  }

  /** Backups whose timestamps differ in width need not: the tick that makes a timestamp one digit wider sorts the
      newer backup first. */
  lemma WidthMatters(base: string, k: nat)
    requires k > 0
    ensures !AtMost(BackupName(base, PowerOfTen(k) - 1), BackupName(base, PowerOfTen(k)))
  {
    LeadingDigits(k);
    PrefixOrder(base + ".bak.", Decimal(PowerOfTen(k) - 1), Decimal(PowerOfTen(k)));
  }
}
