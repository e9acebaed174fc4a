/**
 The exponent, logarithm, inverse and product tables of GF(256), built as the parity code builds them,
 and what they hold.
 */
module GfTables {
  import opened ReedSolomon
  import opened Powers
  import opened Gf256

  const X02 := Octet(false, true, false, false, false, false, false, false)
  const X04 := Octet(false, false, true, false, false, false, false, false)
  const X0a := Octet(false, true, false, true, false, false, false, false)
  const X10 := Octet(false, false, false, false, true, false, false, false)
  const X1d := Octet(true, false, true, true, true, false, false, false)
  const X4c := Octet(false, false, true, true, false, false, true, false)
  const X4e := Octet(false, true, true, true, false, false, true, false)
  const X98 := Octet(false, false, false, true, true, false, false, true)
  const X99 := Octet(true, false, false, true, true, false, false, true)
  const Xd6 := Octet(false, true, true, false, true, false, true, true)
  const Xd7 := Octet(true, true, true, false, true, false, true, true)

  /** Addition is exclusive or, and the generator is the polynomial x. */
  ghost predicate Polynomial(code: Code, g: Octet) {
    && Generates(code, g) && code.zero == ZERO && code.one == ONE
    && (forall a, b :: code.add(a, b) == Add(a, b))
    && (forall a :: code.mul(g, a) == Double(a))
  }

  lemma PowerDouble(code: Code, g: Octet, n: nat)
    requires Polynomial(code, g)
    ensures Power(code, g, n + 1) == Double(Power(code, g, n)) && Power(code, g, 0) == ONE
  {
    hide Double;
  }

  // ----- the audio code is one -----

  lemma AudioDouble(a: Octet)
    ensures AUDIO.mul(X02, a) == Double(a)
  {
    hide Mul, Double;
    DoubleOne();
    DoubleMul(ONE, a);
    Gf256.OneMul(a);
  }

  lemma DoubleOne()
    ensures Double(ONE) == X02
  {}

  lemma ExpProducts0()
    ensures Product(X02, X02) == X04 && Product(X04, X04) == X10
    ensures Product(X10, X10) == X1d && Product(X1d, X1d) == X4c
  {}

  lemma ExpProducts1()
    ensures Product(X4c, X02) == X98 && Product(X98, X98) == X4e
    ensures Product(X4e, X98) == X0a && Product(X4e, X4e) == X99
  {}

  lemma ExpProducts2()
    ensures Product(X99, X98) == Xd6 && Product(Xd6, Xd6) == Xd7 && Product(Xd7, Xd6) == ONE
  {}

  lemma PowerStep(code: Code, g: Octet, i: nat, j: nat, x: Octet, y: Octet)
    requires Lawful(code) && Power(code, g, i) == x && Power(code, g, j) == y
    ensures Power(code, g, i + j) == code.mul(x, y)
  {
    hide Power, Lawful;
    PowerAdd(code, g, i, j);
  }

  /** These products decide that 255 is the order of x. */
  ghost predicate Squares(code: Code) {
    && code.mul(X02, ONE) == X02
    && code.mul(X02, X02) == X04 && code.mul(X04, X04) == X10 && code.mul(X10, X10) == X1d
    && code.mul(X1d, X1d) == X4c && code.mul(X4c, X02) == X98 && code.mul(X98, X98) == X4e
    && code.mul(X4e, X98) == X0a && code.mul(X4e, X4e) == X99 && code.mul(X99, X98) == Xd6
    && code.mul(Xd6, Xd6) == Xd7 && code.mul(Xd7, Xd6) == ONE
  }

  lemma SquaresGenerate(code: Code)
    requires Lawful(code) && code.one == ONE && Squares(code)
    ensures Generates(code, X02)
  {
    hide Power, Lawful;
    FirstPower(code, X02);
    PowerStep(code, X02, 1, 1, X02, X02);
    PowerStep(code, X02, 2, 2, X04, X04);
    PowerStep(code, X02, 4, 4, X10, X10);
    PowerStep(code, X02, 8, 8, X1d, X1d);
    PowerStep(code, X02, 16, 1, X4c, X02);
    PowerStep(code, X02, 17, 17, X98, X98);
    PowerStep(code, X02, 34, 17, X4e, X98);
    PowerStep(code, X02, 34, 34, X4e, X4e);
    PowerStep(code, X02, 68, 17, X99, X98);
    PowerStep(code, X02, 85, 85, Xd6, Xd6);
    PowerStep(code, X02, 170, 85, Xd7, Xd6);
  }

  lemma FirstPower(code: Code, g: Octet)
    requires code.mul(g, code.one) == g
    ensures Power(code, g, 1) == g && Power(code, g, 16) == code.mul(g, Power(code, g, 15))
  {
    assert Power(code, g, 1) == code.mul(g, Power(code, g, 0));
  }

  /** In the audio code they hold, so x generates the nonzero bytes. */
  lemma AudioPolynomial()
    ensures Polynomial(AUDIO, X02)
  {
    hide Mul, Double, Power, Lawful, Product;
    AudioLawful();
    ExpProducts0();
    ExpProducts1();
    ExpProducts2();
    MulIs(X02, X02);
    MulIs(X04, X04);
    MulIs(X10, X10);
    MulIs(X1d, X1d);
    MulIs(X4c, X02);
    MulIs(X98, X98);
    MulIs(X4e, X98);
    MulIs(X4e, X4e);
    MulIs(X99, X98);
    MulIs(Xd6, Xd6);
    MulIs(Xd7, Xd6);
    DoubleOne();
    AudioDouble(ONE);
    SquaresGenerate(AUDIO);
    forall a
      ensures AUDIO.mul(X02, a) == Double(a)
    {
      AudioDouble(a);
    }
  }

  // ----- bytes by number -----

  function Byte(n: nat): (o: Octet) {
    var n1 := n / 2;
    var n2 := n1 / 2;
    var n3 := n2 / 2;
    var n4 := n3 / 2;
    var n5 := n4 / 2;
    var n6 := n5 / 2;
    var n7 := n6 / 2;
    Octet(Odd(n), Odd(n1), Odd(n2), Odd(n3), Odd(n4), Odd(n5), Odd(n6), Odd(n7))
  }

  predicate Odd(n: nat) {
    n % 2 == 1
  }

  function One(b: bool): (n: nat) {
    if b then 1 else 0
  }

  lemma NumIs(o: Octet)
    ensures Num(o) == One(o.b0) + 2 * One(o.b1) + 4 * One(o.b2) + 8 * One(o.b3)
                    + 16 * One(o.b4) + 32 * One(o.b5) + 64 * One(o.b6) + 128 * One(o.b7)
  {}

  lemma NumByte(n: nat)
    requires n < 256
    ensures Num(Byte(n)) == n
  {
    hide Num, One, Odd, Byte, Halves, HalfOf, Digits;
    var o, h := Byte(n), Halves(n);
    Pair(h[0], o.b0, h[1], o.b1, h[2]);
    Pair(h[2], o.b2, h[3], o.b3, h[4]);
    Pair(h[4], o.b4, h[5], o.b5, h[6]);
    Pair(h[6], o.b6, h[7], o.b7, h[8]);
    Total(n, h[2], h[4], h[6], h[8], o);
  }

  lemma Total(n: nat, n2: nat, n4: nat, n6: nat, n8: nat, o: Octet)
    requires n < 256 && Digits(n, o.b0, o.b1, n2) && Digits(n2, o.b2, o.b3, n4)
    requires Digits(n4, o.b4, o.b5, n6) && Digits(n6, o.b6, o.b7, n8)
    ensures Num(o) == n
  {
    hide One, Num;
    NumIs(o);
    assert n8 == 0;
  }

  predicate HalfOf(n: nat, h: nat) {
    h == n / 2
  }

  /** `n`, halved again and again. */
  function Halves(n: nat): (h: seq<nat>)
    ensures |h| == 9 && h[0] == n
    ensures Byte(n) == Octet(Odd(h[0]), Odd(h[1]), Odd(h[2]), Odd(h[3]), Odd(h[4]), Odd(h[5]), Odd(h[6]), Odd(h[7]))
    ensures HalfOf(h[0], h[1]) && HalfOf(h[1], h[2]) && HalfOf(h[2], h[3]) && HalfOf(h[3], h[4])
    ensures HalfOf(h[4], h[5]) && HalfOf(h[5], h[6]) && HalfOf(h[6], h[7]) && HalfOf(h[7], h[8])
  {
    var n1 := n / 2;
    var n2 := n1 / 2;
    var n3 := n2 / 2;
    var n4 := n3 / 2;
    var n5 := n4 / 2;
    var n6 := n5 / 2;
    var n7 := n6 / 2;
    [n, n1, n2, n3, n4, n5, n6, n7, n7 / 2]
  }

  lemma Pair(a: nat, p: bool, b: nat, q: bool, c: nat)
    requires HalfOf(a, b) && HalfOf(b, c) && p == Odd(a) && q == Odd(b)
    ensures Digits(a, p, q, c)
  {}

  predicate Digits(a: nat, p: bool, q: bool, c: nat) {
    a == One(p) + 2 * One(q) + 4 * c
  }

  lemma ByteNum(o: Octet)
    ensures Byte(Num(o)) == o
  {
    hide Byte, Num;
    NumByte(Num(o));
    NumUnique(Byte(Num(o)), o);
  }

  // ----- the tables -----

  /** `a << 1`, the high bit lost. */
  function Shift(a: Octet): (r: Octet) {
    Octet(false, a.b0, a.b1, a.b2, a.b3, a.b4, a.b5, a.b6)
  }

  /** Shift, and reduce by x^8 when the high bit was set. */
  lemma ShiftIsDouble(a: Octet)
    ensures Double(a) == if a.b7 then Add(X1d, Shift(a.(b7 := false))) else Shift(a)
  {}

  ghost predicate Exps(code: Code, g: Octet, exp: array<Octet>, n: nat)
    reads exp
  {
    exp.Length == 510 && n <= 510 && forall i :: 0 <= i < n ==> exp[i] == Power(code, g, i)
  }

  ghost predicate Logs(code: Code, g: Octet, log: array<nat>, n: nat)
    reads log
  {
    log.Length == 256 && forall i: nat :: i < n ==> log[Num(Power(code, g, i))] == i
  }

  /** The coefficients of the reducing polynomial below x^8. */
  const COEFFICIENTS: seq<bool> := [true, false, true, true, true, false, false, false]

  /** The sum of the powers the polynomial names among the first `n`. */
  ghost function Reduced(code: Code, g: Octet, n: nat): (o: Octet)
    requires n <= 8
  {
    if n == 0 then ZERO
    else if COEFFICIENTS[n - 1] then Add(Reduced(code, g, n - 1), Power(code, g, n - 1))
    else Reduced(code, g, n - 1)
  }

  const E3 := Octet(false, false, false, true, false, false, false, false)
  const E5 := Octet(false, false, false, false, false, true, false, false)
  const E6 := Octet(false, false, false, false, false, false, true, false)
  const E7 := Octet(false, false, false, false, false, false, false, true)

  lemma FirstPowersAre(code: Code, g: Octet)
    requires Polynomial(code, g)
    ensures Power(code, g, 0) == ONE && Power(code, g, 1) == X02 && Power(code, g, 2) == X04
    ensures Power(code, g, 3) == E3 && Power(code, g, 4) == X10 && Power(code, g, 5) == E5
    ensures Power(code, g, 6) == E6 && Power(code, g, 7) == E7 && Power(code, g, 8) == X1d
  {
    hide Polynomial, Power;
    PowerDouble(code, g, 0);
    PowerDouble(code, g, 1);
    PowerDouble(code, g, 2);
    PowerDouble(code, g, 3);
    PowerDouble(code, g, 4);
    PowerDouble(code, g, 5);
    PowerDouble(code, g, 6);
    PowerDouble(code, g, 7);
  }

  lemma ReducedNone(code: Code, g: Octet)
    ensures Reduced(code, g, 0) == ZERO
  {}

  lemma ReducedStep(code: Code, g: Octet, n: nat)
    requires n < 8
    ensures Reduced(code, g, n + 1)
         == if COEFFICIENTS[n] then Add(Reduced(code, g, n), Power(code, g, n)) else Reduced(code, g, n)
  {
    hide Power;
  }

  /** Below x^8 doubling only shifts, and the polynomial gives x^8. */
  lemma FirstExps(code: Code, g: Octet)
    requires Polynomial(code, g)
    ensures Reduced(code, g, 8) == Power(code, g, 8)
    ensures forall i :: 0 <= i < 7 ==> Shift(Power(code, g, i)) == Power(code, g, i + 1)
  {
    hide Polynomial, Power, Reduced;
    FirstPowersAre(code, g);
    ReducedNone(code, g);
    ReducedStep(code, g, 0);
    ReducedStep(code, g, 1);
    ReducedStep(code, g, 2);
    ReducedStep(code, g, 3);
    ReducedStep(code, g, 4);
    ReducedStep(code, g, 5);
    ReducedStep(code, g, 6);
    ReducedStep(code, g, 7);
  }

  lemma NumsDiffer(code: Code, g: Octet, i: nat, j: nat)
    requires Generates(code, g) && i < j < ORDER
    ensures Num(Power(code, g, i)) != Num(Power(code, g, j))
  {
    hide Power, Num, Generates;
    PowersDiffer(code, g, i, j);
    NumUnique(Power(code, g, i), Power(code, g, j));
  }

  lemma NumNonzero(code: Code, g: Octet, i: nat)
    requires Polynomial(code, g) && i < ORDER
    ensures Num(Power(code, g, i)) != 0
  {
    hide Power, Num, Generates;
    PowerNonzero(code, g, i);
    NumUnique(Power(code, g, i), ZERO);
    NumZero();
  }

  lemma NumZero()
    ensures Num(ZERO) == 0 && Num(ONE) == 1
  {}

  /** One more logarithm overwrites no other. */
  method SetLog(ghost code: Code, ghost g: Octet, log: array<nat>, o: Octet, n: nat)
    requires Polynomial(code, g) && Logs(code, g, log, n) && n < ORDER && o == Power(code, g, n)
    modifies log
    ensures Logs(code, g, log, n + 1)
  {
    hide Power, Num, Generates;
    log[Num(o)] := n;
    forall i: nat | i < n
      ensures log[Num(Power(code, g, i))] == i
    {
      NumsDiffer(code, g, i, n);
    }
  }

  /** Power `n` and its logarithm. */
  method Enter(ghost code: Code, ghost g: Octet, exp: array<Octet>, log: array<nat>, n: nat, o: Octet)
    requires Polynomial(code, g) && Exps(code, g, exp, n) && Logs(code, g, log, n) && n < ORDER
        && o == Power(code, g, n)
    modifies exp, log
    ensures Exps(code, g, exp, n + 1) && Logs(code, g, log, n + 1)
    ensures forall i :: n < i < 510 ==> exp[i] == old(exp[i])
  {
    hide Power, Num, Polynomial;
    exp[n] := o;
    SetLog(code, g, log, o, n);
  }

  /** The powers below x^8, and x^8 itself from the polynomial. */
  method FirstPowers(ghost code: Code, ghost g: Octet, exp: array<Octet>, log: array<nat>)
    requires Polynomial(code, g) && exp.Length == 510 && log.Length == 256
    modifies exp, log
    ensures Exps(code, g, exp, 9) && Logs(code, g, log, 9)
  {
    hide Power, Reduced, Shift, Num, Polynomial, Add;
    FirstExps(code, g);
    PowerDouble(code, g, 0);
    ReducedNone(code, g);
    var mask := ONE;
    exp[8] := ZERO;
    for i := 0 to 8
      invariant Exps(code, g, exp, i) && Logs(code, g, log, i)
      invariant (i < 8 ==> mask == Power(code, g, i)) && exp[8] == Reduced(code, g, i)
    {
      Enter(code, g, exp, log, i, mask);
      ReducedStep(code, g, i);
      if COEFFICIENTS[i] {
        exp[8] := Add(exp[8], mask);
      }
      mask := Shift(mask);
    }
    SetLog(code, g, log, exp[8], 8);
  }

  /** Each further power from the one before. */
  method MorePowers(ghost code: Code, ghost g: Octet, exp: array<Octet>, log: array<nat>)
    requires Polynomial(code, g) && Exps(code, g, exp, 9) && Logs(code, g, log, 9)
    modifies exp, log
    ensures Exps(code, g, exp, 255) && Logs(code, g, log, ORDER)
  {
    hide Power, Shift, Num, Double, Add, Polynomial;
    FirstPowersAre(code, g);
    for i := 9 to 255
      invariant Exps(code, g, exp, i) && Logs(code, g, log, i)
    {
      var a := exp[i - 1];
      ShiftIsDouble(a);
      PowerDouble(code, g, i - 1);
      Enter(code, g, exp, log, i, if a.b7 then Add(exp[8], Shift(a.(b7 := false))) else Shift(a));
    }
  }

  /** `generate_gf`: powers, logarithms and inverses. */
  method GenerateGf(ghost code: Code, ghost g: Octet, exp: array<Octet>, log: array<nat>, inverse: array<Octet>)
    requires Polynomial(code, g)
    requires exp.Length == 510 && log.Length == 256 && inverse.Length == 256 && exp != inverse
    modifies exp, log, inverse
    ensures Exps(code, g, exp, 510) && Logs(code, g, log, ORDER) && log[0] == ORDER
    ensures forall o :: o != ZERO ==> code.mul(o, inverse[Num(o)]) == ONE
  {
    hide Power, Num, Generates;
    FirstPowers(code, g, exp, log);
    MorePowers(code, g, exp, log);
    log[0] := 255;
    forall i: nat | i < ORDER
      ensures log[Num(Power(code, g, i))] == i
    {
      NumNonzero(code, g, i);
    }
    for i := 0 to 255
      invariant Exps(code, g, exp, 255 + i) && Logs(code, g, log, ORDER) && log[0] == ORDER
    {
      PowerPeriod(code, g, i);
      exp[i + 255] := exp[i];
    }
    Inverses(code, g, exp, log, inverse);
  }

  lemma PowerPeriod(code: Code, g: Octet, i: nat)
    requires Generates(code, g)
    ensures Power(code, g, i + ORDER) == Power(code, g, i)
  {
    hide Power, Lawful;
    PowerMultiple(code, g, ORDER, 1, i);
    assert ORDER * 1 + i == i + ORDER;
  }

  /** The logarithm of a nonzero byte, as the table has it. */
  lemma LogIs(code: Code, g: Octet, log: array<nat>, o: Octet)
    requires Polynomial(code, g) && Logs(code, g, log, ORDER) && o != ZERO
    ensures log[Num(o)] < ORDER && Power(code, g, log[Num(o)]) == o
  {
    hide Power, Num, Generates;
    var i := LogOf(code, g, o);
  }

  method Inverses(ghost code: Code, ghost g: Octet, exp: array<Octet>, log: array<nat>, inverse: array<Octet>)
    requires Polynomial(code, g) && Exps(code, g, exp, 510) && Logs(code, g, log, ORDER)
    requires inverse.Length == 256 && exp != inverse
    modifies inverse
    ensures forall o :: o != ZERO ==> code.mul(o, inverse[Num(o)]) == ONE
  {
    hide Power, Num, Byte, Generates, Add, Double;
    NumZero();
    inverse[0] := ZERO;
    inverse[1] := ONE;
    OneTimesOne(code, g);
    ByteNum(ONE);
    for i := 2 to 256
      invariant Exps(code, g, exp, 510) && Logs(code, g, log, ORDER)
      invariant forall j :: 1 <= j < i ==> code.mul(Byte(j), inverse[j]) == ONE
    {
      NonzeroByte(i);
      LogIs(code, g, log, Byte(i));
      InversePower(code, g, log[i]);
      inverse[i] := exp[255 - log[i]];
    }
    forall o | o != ZERO
      ensures code.mul(o, inverse[Num(o)]) == ONE
    {
      ByteNum(o);
      NumUnique(o, ZERO);
    }
  }

  lemma OneTimesOne(code: Code, g: Octet)
    requires Polynomial(code, g)
    ensures code.mul(ONE, ONE) == ONE
  {
    hide Power, Lawful;
    ReedSolomon.OneMul(code, ONE);
  }

  lemma InversePower(code: Code, g: Octet, n: nat)
    requires Polynomial(code, g) && n < ORDER
    ensures code.mul(Power(code, g, n), Power(code, g, 255 - n)) == ONE
  {
    hide Power, Lawful;
    PowerAdd(code, g, n, 255 - n);
  }

  /** `modnn`: the remainder by 255, without a division. */
  method ModNn(x0: nat) returns (x: nat)
    requires x0 <= 510
    ensures x == x0 % 255
  {
    x := x0;
    while x >= 255
      invariant x <= 510 && x % 255 == x0 % 255
    {
      x := x - 255;
      x := x / 256 + x % 256;
    }
  }

  /** `init_mul_table`: every entry is the product of its row and its column. */
  method InitMulTable(ghost code: Code, ghost g: Octet, exp: array<Octet>, log: array<nat>, table: array2<Octet>)
    requires Polynomial(code, g) && Exps(code, g, exp, 510) && Logs(code, g, log, ORDER) && log[0] == ORDER
    requires table.Length0 == table.Length1 == 256
    modifies table
    ensures forall a, b :: table[Num(a), Num(b)] == code.mul(a, b)
  {
    hide Power, Num, Byte, Generates, Add, Double;
    for i := 0 to 256
      invariant forall k, l :: 1 <= k < i && 1 <= l < 256 ==> table[k, l] == code.mul(Byte(k), Byte(l))
    {
      for j := 0 to 256
        invariant forall k, l :: 1 <= k < i && 1 <= l < 256 ==> table[k, l] == code.mul(Byte(k), Byte(l))
        invariant i >= 1 ==> forall l :: 1 <= l < j ==> table[i, l] == code.mul(Byte(i), Byte(l))
      {
        var o := LogProduct(code, g, exp, log, i, j);
        table[i, j] := o;
      }
    }
    for j := 0 to 256
      invariant forall k, l :: 1 <= k < 256 && 1 <= l < 256 ==> table[k, l] == code.mul(Byte(k), Byte(l))
      invariant forall k :: 0 <= k < j ==> table[k, 0] == ZERO && table[0, k] == ZERO
    {
      table[0, j] := ZERO;
      table[j, 0] := ZERO;
    }
    forall a, b
      ensures table[Num(a), Num(b)] == code.mul(a, b)
    {
      ByteNum(a);
      ByteNum(b);
      NumZero();
      NumUnique(a, ZERO);
      NumUnique(b, ZERO);
      ZeroProduct(code, g, a);
      ZeroProduct(code, g, b);
    }
  }

  lemma ZeroProduct(code: Code, g: Octet, a: Octet)
    requires Polynomial(code, g)
    ensures code.mul(ZERO, a) == ZERO && code.mul(a, ZERO) == ZERO
  {
    hide Power, Lawful;
    MulZero(code, a);
  }

  /** One entry, by logarithms. */
  method LogProduct(ghost code: Code, ghost g: Octet, exp: array<Octet>, log: array<nat>, i: nat, j: nat)
    returns (o: Octet)
    requires Polynomial(code, g) && Exps(code, g, exp, 510) && Logs(code, g, log, ORDER) && log[0] == ORDER
    requires i < 256 && j < 256
    ensures i > 0 && j > 0 ==> o == code.mul(Byte(i), Byte(j))
  {
    hide Power, Num, Byte, Lawful;
    LogBound(code, g, log, i);
    LogBound(code, g, log, j);
    var k := ModNn(log[i] + log[j]);
    o := exp[k];
    if i > 0 && j > 0 {
      NonzeroByte(i);
      NonzeroByte(j);
      LogIs(code, g, log, Byte(i));
      LogIs(code, g, log, Byte(j));
      PowerAdd(code, g, log[i], log[j]);
      PowerMod(code, g, log[i] + log[j], ORDER);
    }
  }

  lemma NonzeroByte(i: nat)
    requires 0 < i < 256
    ensures Byte(i) != ZERO && Num(Byte(i)) == i
  {
    hide Num, Byte;
    NumByte(i);
    NumZero();
  }

  lemma LogBound(code: Code, g: Octet, log: array<nat>, i: nat)
    requires Polynomial(code, g) && Logs(code, g, log, ORDER) && log[0] == ORDER && i < 256
    ensures log[i] <= ORDER
  {
    hide Power, Num, Byte, Generates;
    if i > 0 {
      NonzeroByte(i);
      LogIs(code, g, log, Byte(i));
    }
  }

  /** `reed_solomon_init`: the tables multiply and invert as GF(256) does. */
  method BuildTables(exp: array<Octet>, log: array<nat>, inverse: array<Octet>, table: array2<Octet>)
    requires exp.Length == 510 && log.Length == 256 && inverse.Length == 256 && exp != inverse
    requires table.Length0 == table.Length1 == 256
    modifies exp, log, inverse, table
    ensures forall a, b :: table[Num(a), Num(b)] == Mul(a, b)
    ensures forall o :: o != ZERO ==> Mul(o, inverse[Num(o)]) == ONE
    ensures forall o :: Undoes(AUDIO, o) ==> inverse[Num(o)] == Inverse(o)
  {
    hide Power, Num, Mul, Generates, Add, Double, Inverse;
    AudioPolynomial();
    GenerateGf(AUDIO, X02, exp, log, inverse);
    InitMulTable(AUDIO, X02, exp, log, table);
    forall o | Undoes(AUDIO, o)
      ensures inverse[Num(o)] == Inverse(o)
    {
      TableInverse(o, inverse[Num(o)]);
    }
  }

  /** Inverses are unique: wherever the code has one, it is the table's. */
  lemma TableInverse(c: Octet, x: Octet)
    requires Undoes(AUDIO, c) && (c != ZERO ==> Mul(c, x) == ONE)
    ensures x == Inverse(c)
  {
    hide Mul, Inverse;
    Gf256.MulMul(Inverse(c), c, x);
    Gf256.OneMul(x);
    Gf256.MulSwap(Inverse(c), ONE);
    Gf256.OneMul(Inverse(c));
    MulNothing(Inverse(c));
  }
}
