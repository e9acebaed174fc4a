/**
 Powers of a generator: when 255 is its order, its powers are exactly the nonzero bytes, and logarithms
 multiply.
 */
module Powers {
  import opened ReedSolomon

  const ORDER: nat := 255

  function Power(code: Code, g: Octet, n: nat): (p: Octet) {
    if n == 0 then code.one else code.mul(g, Power(code, g, n - 1))
  }

  /** The 255th power is one, and none of the 15th, the 51st and the 85th is. */
  ghost predicate Generates(code: Code, g: Octet) {
    && Lawful(code)
    && Power(code, g, ORDER) == code.one
    && Power(code, g, 15) != code.one && Power(code, g, 51) != code.one && Power(code, g, 85) != code.one
  }

  lemma {:induction false} PowerAdd(code: Code, g: Octet, i: nat, j: nat)
    requires Lawful(code)
    ensures code.mul(Power(code, g, i), Power(code, g, j)) == Power(code, g, i + j)
  {
    hide Lawful;
    if i == 0 {
      OneMul(code, Power(code, g, j));
    } else {
      PowerAdd(code, g, i - 1, j);
      MulMul(code, g, Power(code, g, i - 1), Power(code, g, j));
    }
  }

  /** Whole multiples of a period do not count. */
  lemma {:induction false} PowerMultiple(code: Code, g: Octet, b: nat, q: nat, r: nat)
    requires Lawful(code) && Power(code, g, b) == code.one
    ensures Power(code, g, b * q + r) == Power(code, g, r)
  {
    hide Lawful, Power;
    if q > 0 {
      PowerMultiple(code, g, b, q - 1, r);
      assert b * q + r == b + (b * (q - 1) + r);
      PowerAdd(code, g, b, b * (q - 1) + r);
      OneMul(code, Power(code, g, b * (q - 1) + r));
    }
  }

  lemma PowerMod(code: Code, g: Octet, a: nat, b: nat)
    requires Lawful(code) && b > 0 && Power(code, g, b) == code.one
    ensures Power(code, g, a % b) == Power(code, g, a)
  {
    hide Lawful, Power;
    PowerMultiple(code, g, b, a / b, a % b);
  }

  function Gcd(a: nat, b: nat): (d: nat)
    decreases b
  {
    if b == 0 then a else Gcd(b, a % b)
  }

  lemma {:induction false} GcdDivides(a: nat, b: nat) returns (x: nat, y: nat)
    ensures a == Gcd(a, b) * x && b == Gcd(a, b) * y
    decreases b
  {
    if b > 0 {
      hide Gcd;
      GcdStep(a, b);
      y, x := GcdDivides(b, a % b);
      x := Combine(a, b, Gcd(a, b), y, x);
    } else {
      x, y := 1, 0;
    }
  }

  lemma GcdStep(a: nat, b: nat)
    requires b > 0
    ensures Gcd(a, b) == Gcd(b, a % b)
  {}

  lemma Combine(a: nat, b: nat, d: nat, y: nat, r: nat) returns (x: nat)
    requires b > 0 && b == d * y && a % b == d * r
    ensures a == d * x
  {
    var q := a / b;
    x := y * q + r;
    assert a == b * q + a % b;
    Distribute(d, y, q, r);
  }

  lemma Distribute(d: nat, y: nat, q: nat, r: nat)
    ensures (d * y) * q + d * r == d * (y * q + r)
  {
    assert (d * y) * q == d * (y * q);
  }

  lemma {:induction false} PowerGcd(code: Code, g: Octet, a: nat, b: nat)
    requires Lawful(code) && Power(code, g, a) == code.one && Power(code, g, b) == code.one
    ensures Power(code, g, Gcd(a, b)) == code.one
    decreases b
  {
    hide Lawful, Power;
    if b > 0 {
      PowerMod(code, g, a, b);
      PowerGcd(code, g, b, a % b);
    }
  }

  /** A proper divisor of 255 divides 15, 51 or 85. */
  lemma Divisors(d: nat, k: nat) returns (e: nat)
    requires d * k == ORDER && k != 1
    ensures d * e == 15 || d * e == 51 || d * e == 85
  {
    var r := Factor(d, k);
    e := k / r;
    assert d * k == d * (r * e) == r * (d * e);
  }

  lemma Factor(d: nat, k: nat) returns (r: nat)
    requires d * k == ORDER && k != 1
    ensures r in {3, 5, 17} && k % r == 0
  {
    if d < 16 {
      SmallDivisor(d, k);
      r := if d == 15 then 17 else if d == 3 then 5 else 3;
    } else {
      SmallFactor(d, k);
      SmallDivisor(k, d);
      r := if k == 5 then 5 else 3;
    }
  }

  lemma SmallDivisor(d: nat, k: nat)
    requires d * k == ORDER && d < 16
    ensures (d == 1 && k == 255) || (d == 3 && k == 85) || (d == 5 && k == 51) || (d == 15 && k == 17)
  {
    assert d == 0 || d == 1 || d == 2 || d == 3 || d == 4 || d == 5 || d == 6 || d == 7 || d == 8
        || d == 9 || d == 10 || d == 11 || d == 12 || d == 13 || d == 14 || d == 15;
  }

  lemma SmallFactor(d: nat, k: nat)
    requires 16 <= d && d * k == ORDER
    ensures k < 16
  {
    if k >= 16 {
      AtLeast(d, k);
    }
  }

  lemma AtLeast(d: nat, k: nat)
    requires d >= 16 && k >= 16
    ensures d * k >= 256
  {
    assert d * k == 16 * k + (d - 16) * k;
  }

  /** No smaller power is one. */
  lemma OrderIs(code: Code, g: Octet, m: nat)
    requires Generates(code, g) && 0 < m < ORDER
    ensures Power(code, g, m) != code.one
  {
    hide Lawful, Power;
    if Power(code, g, m) == code.one {
      var d := Gcd(ORDER, m);
      var k, y := GcdDivides(ORDER, m);
      PowerGcd(code, g, ORDER, m);
      assert k == 1 ==> d == ORDER;
      assert m == d * y && d > m ==> y == 0;
      var e := Divisors(d, k);
      PowerMultiple(code, g, d, e, 0);
      PowerZero(code, g);
      assert false;
    }
  }

  lemma PowerZero(code: Code, g: Octet)
    ensures Power(code, g, 0) == code.one
  {}

  /** Different exponents below 255, different powers; and none of them is zero. */
  lemma PowersDiffer(code: Code, g: Octet, i: nat, j: nat)
    requires Generates(code, g) && i < j < ORDER
    ensures Power(code, g, i) != Power(code, g, j)
  {
    hide Lawful, Power;
    if Power(code, g, i) == Power(code, g, j) {
      PowerAdd(code, g, i, ORDER - i);
      PowerAdd(code, g, j, ORDER - i);
      PowerMultiple(code, g, ORDER, 1, j - i);
      assert j + (ORDER - i) == ORDER * 1 + (j - i);
      OrderIs(code, g, j - i);
    }
  }

  lemma PowerNonzero(code: Code, g: Octet, i: nat)
    requires Generates(code, g) && i <= ORDER
    ensures Power(code, g, i) != code.zero
  {
    hide Lawful, Power;
    PowerAdd(code, g, i, ORDER - i);
    MulZero(code, Power(code, g, ORDER - i));
    OneNonzero(code);
  }

  // ----- every nonzero byte is a power -----

  ghost function Below(n: nat): (s: set<nat>) {
    if n == 0 then {} else Below(n - 1) + {n - 1}
  }

  lemma {:induction false} BelowIs(n: nat)
    ensures |Below(n)| == n && forall x: nat :: x in Below(n) <==> x < n
  {
    if n > 0 {
      BelowIs(n - 1);
    }
  }

  ghost function Numbers(code: Code, g: Octet, n: nat): (s: set<nat>) {
    if n == 0 then {} else Numbers(code, g, n - 1) + {Num(Power(code, g, n - 1))}
  }

  lemma {:induction false} NumbersAt(code: Code, g: Octet, n: nat, x: nat) returns (i: nat)
    requires x in Numbers(code, g, n)
    ensures i < n && Num(Power(code, g, i)) == x
  {
    hide Power, Num;
    i := n - 1;
    if Num(Power(code, g, n - 1)) != x {
      i := NumbersAt(code, g, n - 1, x);
    }
  }

  lemma {:induction false} NumbersSize(code: Code, g: Octet, n: nat)
    requires Generates(code, g) && n <= ORDER
    ensures |Numbers(code, g, n)| == n && Numbers(code, g, n) <= Below(256) - {Num(code.zero)}
  {
    hide Lawful, Power, Num, Below;
    if n > 0 {
      NumbersSize(code, g, n - 1);
      var x := Num(Power(code, g, n - 1));
      if x in Numbers(code, g, n - 1) {
        var i := NumbersAt(code, g, n - 1, x);
        NumUnique(Power(code, g, i), Power(code, g, n - 1));
        PowersDiffer(code, g, i, n - 1);
        assert false;
      }
      BelowIs(256);
      PowerNonzero(code, g, n - 1);
      NumUnique(Power(code, g, n - 1), code.zero);
    }
  }

  lemma {:induction false} SameSize(a: set<nat>, b: set<nat>)
    requires a <= b && |a| == |b|
    ensures a == b
  {
    if a != {} {
      var x :| x in a;
      SameSize(a - {x}, b - {x});
    }
  }

  /** The logarithm of a nonzero byte. */
  lemma LogOf(code: Code, g: Octet, o: Octet) returns (i: nat)
    requires Generates(code, g) && o != code.zero
    ensures i < ORDER && Power(code, g, i) == o
  {
    hide Lawful, Power, Num, Below, Numbers;
    NumbersSize(code, g, ORDER);
    BelowIs(256);
    var all := Below(256) - {Num(code.zero)};
    SameSize(Numbers(code, g, ORDER), all);
    NumUnique(o, code.zero);
    i := NumbersAt(code, g, ORDER, Num(o));
    NumUnique(Power(code, g, i), o);
  }
}
