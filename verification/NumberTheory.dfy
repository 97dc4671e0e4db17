/** Congruences, Euclid's lemma and Fermat's little theorem. */
module NumberTheory {

  ghost predicate Prime(p: nat) { p >= 2 && forall d :: 2 <= d < p ==> p % d != 0 }

  function Pow(b: int, e: nat): int { if e == 0 then 1 else b * Pow(b, e - 1) }

  ghost function Times(k: int, m: int): int { k * m }

  // a and b differ by a multiple of m.
  ghost predicate Cong(a: int, b: int, m: int) { exists k :: a - b == Times(k, m) }

  // -------------------- congruences --------------------

  lemma CongBy(a: int, b: int, m: int, k: int)
    requires a - b == k * m
    ensures Cong(a, b, m)
  {
    assert a - b == Times(k, m);
  }

  lemma CongRefl(a: int, m: int)
    ensures Cong(a, a, m)
  {
    CongBy(a, a, m, 0);
  }

  lemma CongSym(a: int, b: int, m: int)
    requires Cong(a, b, m)
    ensures Cong(b, a, m)
  {
    var k :| a - b == Times(k, m);
    assert b - a == (-k) * m;
    CongBy(b, a, m, -k);
  }

  lemma CongTrans(a: int, b: int, c: int, m: int)
    requires Cong(a, b, m) && Cong(b, c, m)
    ensures Cong(a, c, m)
  {
    var k :| a - b == Times(k, m);
    var l :| b - c == Times(l, m);
    assert a - c == (k + l) * m;
    CongBy(a, c, m, k + l);
  }

  lemma CongAdd(a: int, b: int, c: int, d: int, m: int)
    requires Cong(a, b, m) && Cong(c, d, m)
    ensures Cong(a + c, b + d, m) && Cong(a - c, b - d, m)
  {
    var k :| a - b == Times(k, m);
    var l :| c - d == Times(l, m);
    assert (a + c) - (b + d) == (k + l) * m;
    assert (a - c) - (b - d) == (k - l) * m;
    CongBy(a + c, b + d, m, k + l);
    CongBy(a - c, b - d, m, k - l);
  }

  lemma CongMul(a: int, b: int, c: int, d: int, m: int)
    requires Cong(a, b, m) && Cong(c, d, m)
    ensures Cong(a * c, b * d, m)
  {
    var k :| a - b == Times(k, m);
    var l :| c - d == Times(l, m);
    calc {
      a * c - b * d;
      (a - b) * c + b * (c - d);
      (k * m) * c + b * (l * m);
      { assert (k * m) * c == (k * c) * m; assert b * (l * m) == (b * l) * m; }
      (k * c) * m + (b * l) * m;
      (k * c + b * l) * m;
    }
    CongBy(a * c, b * d, m, k * c + b * l);
  }

  lemma ModCong(a: int, m: int)
    requires m > 0
    ensures Cong(a % m, a, m) && Cong(a, a % m, m)
  {
    assert a == (a / m) * m + a % m;
    CongBy(a, a % m, m, a / m);
    CongSym(a, a % m, m);
  }

  lemma MultipleBound(k: int, m: int)
    requires m > 0
    ensures k >= 1 ==> k * m >= m
    ensures k <= -1 ==> k * m <= -m
  {
    if k >= 1 {
      assert k * m == m + (k - 1) * m;
    } else if k <= -1 {
      assert k * m == -m + (k + 1) * m;
      assert (k + 1) * m <= 0;
    }
  }

  // Congruent numbers less than m apart are equal.
  lemma CongClose(a: int, b: int, m: int)
    requires Cong(a, b, m) && -m < a - b < m
    ensures a == b
  {
    var k :| a - b == Times(k, m);
    MultipleBound(k, m);
    assert k == 0;
  }

  lemma CongMod(a: int, b: int, m: int)
    requires m > 0 && Cong(a, b, m)
    ensures a % m == b % m
  {
    ModCong(a, m);
    ModCong(b, m);
    CongTrans(a % m, a, b, m);
    CongTrans(a % m, b, b % m, m);
    CongClose(a % m, b % m, m);
  }

  lemma {:induction false} PowAdd(b: int, e: nat, f: nat)
    ensures Pow(b, e + f) == Pow(b, e) * Pow(b, f)
  {
    if e > 0 {
      PowAdd(b, e - 1, f);
      calc {
        Pow(b, e + f);
        b * Pow(b, e - 1 + f);
        b * (Pow(b, e - 1) * Pow(b, f));
        (b * Pow(b, e - 1)) * Pow(b, f);
      }
    }
  }

  lemma {:induction false} PowMul(b: int, e: nat, f: nat)
    ensures e * f >= 0 && Pow(b, e * f) == Pow(Pow(b, e), f)
  {
    if f > 0 {
      PowMul(b, e, f - 1);
      assert e * f == e * (f - 1) + e;
      PowAdd(b, e * (f - 1), e);
    } else {
      assert e * f == 0;
    }
  }

  lemma {:induction false} PowCong(a: int, b: int, e: nat, m: int)
    requires Cong(a, b, m)
    ensures Cong(Pow(a, e), Pow(b, e), m)
  {
    if e == 0 {
      CongRefl(1, m);
    } else {
      PowCong(a, b, e - 1, m);
      CongMul(a, b, Pow(a, e - 1), Pow(b, e - 1), m);
    }
  }

  lemma PowZero(b: int)
    ensures Pow(b, 0) == 1
  {
  }

  lemma PowStep(b: int, e: nat)
    ensures Pow(b, e + 1) == b * Pow(b, e)
  {
  }

  lemma {:induction false} PowPositive(b: int, e: nat)
    requires b > 0
    ensures Pow(b, e) > 0
  {
    if e > 0 {
      PowPositive(b, e - 1);
    }
  }

  lemma {:induction false} PowOne(e: nat)
    ensures Pow(1, e) == 1
  {
    if e > 0 {
      PowOne(e - 1);
    }
  }

  // Exponents matter only modulo the order of the base.
  lemma PowModOrder(b: int, e: nat, f: nat, q: nat, p: int)
    requires q > 0 && Cong(Pow(b, q), 1, p) && e % q == f % q
    ensures Cong(Pow(b, e), Pow(b, f), p)
  {
    PowReduced(b, e, q, p);
    PowReduced(b, f, q, p);
    CongSym(Pow(b, f), Pow(b, f % q), p);
    CongTrans(Pow(b, e), Pow(b, e % q), Pow(b, f), p);
  }

  lemma PowReduced(b: int, e: nat, q: nat, p: int)
    requires q > 0 && Cong(Pow(b, q), 1, p)
    ensures Cong(Pow(b, e), Pow(b, e % q), p)
  {
    var n := e / q;
    assert e == q * n + e % q;
    PowMul(b, q, n);
    PowAdd(b, q * n, e % q);
    PowCong(Pow(b, q), 1, n, p);
    PowOne(n);
    CongRefl(Pow(b, e % q), p);
    CongMul(Pow(Pow(b, q), n), 1, Pow(b, e % q), Pow(b, e % q), p);
  }

  // -------------------- Euclid and Fermat --------------------

  // A prime that divides a * b, with 0 < a < p, divides b.
  lemma {:induction false} Euclid(p: nat, a: nat, b: int)
    requires Prime(p) && 0 < a < p && Cong(a * b, 0, p)
    ensures Cong(b, 0, p)
    decreases a
  {
    if a > 1 {
      var q, r := p / a, p % a;
      assert r != 0;
      assert p == a * q + r;
      calc {
        r * b;
        (p - a * q) * b;
        { assert (a * q) * b == q * (a * b); }
        p * b - q * (a * b);
      }
      CongBy(p * b, 0, p, b);
      CongRefl(q, p);
      CongMul(q, q, a * b, 0, p);
      CongAdd(p * b, 0, q * (a * b), q * 0, p);
      Euclid(p, r, b);
    }
  }

  ghost function Prod(s: set<nat>): nat {
    if s == {} then 1 else var x :| x in s; x * Prod(s - {x})
  }

  lemma ProdEmpty()
    ensures Prod({}) == 1
  {
  }

  lemma {:induction false} ProdRemove(s: set<nat>, y: nat)
    requires y in s
    ensures Prod(s) == y * Prod(s - {y})
    decreases |s|
  {
    var x :| x in s && Prod(s) == x * Prod(s - {x});
    if x != y {
      ProdRemove(s - {x}, y);
      ProdRemove(s - {y}, x);
      assert s - {x} - {y} == s - {y} - {x};
      var rest := Prod(s - {x} - {y});
      assert x * (y * rest) == y * (x * rest);
    }
  }

  predicate IsUnit(x: nat, p: nat) { 1 <= x < p }

  ghost function Units(p: nat): set<nat> { set x: nat | x < p && IsUnit(x, p) }

  ghost function Image(s: set<nat>, a: nat, p: nat): set<nat>
    requires p > 0
  {
    set x | x in s :: Scale(a, x, p)
  }

  function Scale(a: nat, x: nat, p: nat): nat
    requires p > 0
  {
    (a * x) % p
  }

  // Multiplying by a unit is injective on units and never gives zero.
  lemma MulInjective(p: nat, a: nat, x: nat, y: nat)
    requires Prime(p) && 0 < a < p && x in Units(p) && y in Units(p) && Scale(a, x, p) == Scale(a, y, p)
    ensures x == y
  {
    ModCong(a * x, p);
    ModCong(a * y, p);
    CongTrans(a * x, (a * x) % p, a * y, p);
    CongRefl(a * y, p);
    CongAdd(a * x, a * y, a * y, a * y, p);
    assert a * x - a * y == a * (x - y);
    Euclid(p, a, x - y);
    CongClose(x - y, 0, p);
  }

  lemma MulNonzero(p: nat, a: nat, x: nat)
    requires Prime(p) && 0 < a < p && x in Units(p)
    ensures Scale(a, x, p) in Units(p)
  {
    hide Prime, Cong;
    if (a * x) % p == 0 {
      ModCong(a * x, p);
      Euclid(p, a, x);
      CongMod(x, 0, p);
    }
  }

  // The product of the image is a^|s| times the product.
  lemma {:induction false} ImageProd(p: nat, a: nat, s: set<nat>)
    requires Prime(p) && 0 < a < p && s <= Units(p)
    ensures Cong(Prod(Image(s, a, p)), Pow(a, |s|) * Prod(s), p) && |Image(s, a, p)| == |s|
    decreases |s|
  {
    hide Prime, Cong, Prod;
    if s == {} {
      ProdEmpty();
      CongRefl(1, p);
    } else {
      var x :| x in s;
      var rest, y := s - {x}, Scale(a, x, p);
      ImageProd(p, a, rest);
      ImageAdd(p, a, s, x);
      ProdRemove(Image(s, a, p), y);
      ProdRemove(s, x);
      ModCong(a * x, p);
      CongMul(y, a * x, Prod(Image(rest, a, p)), Pow(a, |rest|) * Prod(rest), p);
      Regroup(a, x, Pow(a, |rest|), Prod(rest));
      assert |s| == |rest| + 1;
    }
  }

  lemma Regroup(a: int, x: int, u: int, v: int)
    ensures (a * x) * (u * v) == (a * u) * (x * v)
  {
    calc {
      (a * x) * (u * v);
      a * (x * (u * v));
      { assert x * (u * v) == u * (x * v); }
      a * (u * (x * v));
      (a * u) * (x * v);
    }
  }

  // Taking x out of s takes exactly its product out of the image.
  lemma ImageAdd(p: nat, a: nat, s: set<nat>, x: nat)
    requires Prime(p) && 0 < a < p && s <= Units(p) && x in s
    ensures var y := Scale(a, x, p); y in Image(s, a, p) && Image(s, a, p) - {y} == Image(s - {x}, a, p)
  {
    hide Prime, Cong, Scale;
    var rest, y := s - {x}, Scale(a, x, p);
    assert Image(s, a, p) == Image(rest, a, p) + {y};
    forall z | z in rest ensures Scale(a, z, p) != y {
      if Scale(a, z, p) == y {
        MulInjective(p, a, x, z);
      }
    }
  }

  lemma SubsetSameSize(s: set<nat>, t: set<nat>)
    requires s <= t && |s| == |t|
    ensures s == t
  {
    assert t == s + (t - s);
    assert |t - s| == 0;
  }

  lemma {:induction false} UnitsSize(p: nat)
    requires p >= 1
    ensures |Units(p)| == p - 1
  {
    if p == 1 {
      assert Units(p) == {};
    } else {
      UnitsSize(p - 1);
      assert Units(p) == Units(p - 1) + {p - 1};
    }
  }

  lemma ImageOfUnits(p: nat, a: nat)
    requires Prime(p) && 0 < a < p
    ensures Image(Units(p), a, p) == Units(p)
  {
    hide Prime, Cong, Scale;
    ImageProd(p, a, Units(p));
    forall x | x in Units(p) ensures Scale(a, x, p) in Units(p) { MulNonzero(p, a, x); }
    SubsetSameSize(Image(Units(p), a, p), Units(p));
  }

  // A product of units can be cancelled.
  lemma {:induction false} CancelProd(p: nat, c: int, s: set<nat>)
    requires Prime(p) && s <= Units(p) && Cong(c * Prod(s), 0, p)
    ensures Cong(c, 0, p)
    decreases |s|
  {
    hide Prime, Cong, Prod;
    if s == {} {
      ProdEmpty();
    } else {
      var x :| x in s;
      ProdRemove(s, x);
      assert c * (x * Prod(s - {x})) == x * (c * Prod(s - {x}));
      Euclid(p, x, c * Prod(s - {x}));
      CancelProd(p, c, s - {x});
    }
  }

  lemma Fermat(p: nat, a: nat)
    requires Prime(p) && a % p != 0
    ensures Cong(Pow(a, p - 1), 1, p)
  {
    hide Cong, Prod, Pow, Units, Image;
    var b, units := a % p, Units(p);
    var power, all := Pow(b, p - 1), Prod(Units(p));
    ImageProd(p, b, units);
    UnitsSize(p);
    ImageOfUnits(p, b);
    CongSym(all, power * all, p);
    CongRefl(all, p);
    CongAdd(power * all, all, all, all, p);
    assert power * all - all == (power - 1) * all;
    CancelProd(p, power - 1, units);
    CongRefl(1, p);
    CongAdd(power - 1, 0, 1, 1, p);
    ModCong(a, p);
    PowCong(a, b, p - 1, p);
    CongTrans(Pow(a, p - 1), Pow(b, p - 1), 1, p);
  }
}
