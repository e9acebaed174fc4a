/**
 The field GF(256) of the audio stream's parity: bytes as polynomials over GF(2), the parity matrix the
 audio thread installs, and the proof that they make a code the elimination can solve.
 */
module Gf256 {
  import opened ReedSolomon

  const ZERO := Octet(false, false, false, false, false, false, false, false)
  const ONE := Octet(true, false, false, false, false, false, false, false)

  /** `x ^ y`. */
  function Add(x: Octet, y: Octet): (r: Octet) {
    Octet(x.b0 != y.b0, x.b1 != y.b1, x.b2 != y.b2, x.b3 != y.b3,
          x.b4 != y.b4, x.b5 != y.b5, x.b6 != y.b6, x.b7 != y.b7)
  }

  /** Times x, modulo x^8 + x^4 + x^3 + x^2 + 1. */
  function Double(a: Octet): (r: Octet) {
    Octet(a.b7, a.b0, a.b1 != a.b7, a.b2 != a.b7, a.b3 != a.b7, a.b4, a.b5, a.b6)
  }

  function Gate(b: bool, a: Octet): (r: Octet) {
    if b then a else ZERO
  }

  /** `b >> 1`. */
  function Half(b: Octet): (r: Octet)
    ensures b != ZERO ==> Num(r) < Num(b)
  {
    Octet(b.b1, b.b2, b.b3, b.b4, b.b5, b.b6, b.b7, false)
  }

  /** The product in GF(256), `gf_mul`: Horner's rule over the bits of `b`. */
  function Mul(a: Octet, b: Octet): (r: Octet)
    decreases Num(b)
  {
    if b == ZERO then ZERO else Add(Gate(b.b0, a), Double(Mul(a, Half(b))))
  }

  lemma AddZero(x: Octet, y: Octet)
    ensures Add(x, ZERO) == x && Add(ZERO, x) == x && Add(x, x) == ZERO && Add(x, y) == Add(y, x)
  {}

  lemma AddAdd(x: Octet, y: Octet, z: Octet)
    ensures Add(Add(x, y), z) == Add(x, Add(y, z))
  {
    hide Add;
    var p, q := Add(x, y), Add(y, z);
    BitsAdd(x, y, p);
    BitsAdd(y, z, q);
    BitsAdd(p, z, Add(p, z));
    BitsAdd(x, q, Add(x, q));
  }

  lemma Add4(a: Octet, b: Octet, c: Octet, d: Octet)
    ensures Add(Add(a, b), Add(c, d)) == Add(Add(a, c), Add(b, d))
  {}

  lemma DoubleAdd(x: Octet, y: Octet)
    ensures Double(Add(x, y)) == Add(Double(x), Double(y)) && Double(ZERO) == ZERO
  {}

  lemma GateAdd(b: bool, c: bool, x: Octet, y: Octet)
    ensures Gate(b != c, x) == Add(Gate(b, x), Gate(c, x)) && Gate(b, Add(x, y)) == Add(Gate(b, x), Gate(b, y))
    ensures Gate(b, Double(x)) == Double(Gate(b, x))
  {}

  lemma BitsAdd(x: Octet, y: Octet, r: Octet)
    requires r == Add(x, y)
    ensures r.b0 == (x.b0 != y.b0) && r.b1 == (x.b1 != y.b1) && r.b2 == (x.b2 != y.b2) && r.b3 == (x.b3 != y.b3)
    ensures r.b4 == (x.b4 != y.b4) && r.b5 == (x.b5 != y.b5) && r.b6 == (x.b6 != y.b6) && r.b7 == (x.b7 != y.b7)
  {}

  lemma HalfAdd(x: Octet, y: Octet)
    ensures Half(Add(x, y)) == Add(Half(x), Half(y)) && Add(x, y).b0 == (x.b0 != y.b0)
  {}

  lemma HalfZero()
    ensures Half(ZERO) == ZERO && Double(ZERO) == ZERO && Add(ZERO, ZERO) == ZERO
  {}

  lemma MulStep(a: Octet, b: Octet)
    ensures Mul(a, b) == Add(Gate(b.b0, a), Double(Mul(a, Half(b))))
  {
    hide Add, Double, Half;
    HalfZero();
  }

  // The laws the elimination uses.

  lemma {:induction false} MulAdd(a: Octet, x: Octet, y: Octet)
    ensures Mul(a, Add(x, y)) == Add(Mul(a, x), Mul(a, y))
    decreases Num(x) + Num(y)
  {
    hide Mul, Gate, Double, Add, Half, Num;
    if x == ZERO && y == ZERO {
      HalfZero();
      MulNothing(a);
    } else {
      HalfLess(x, y);
      MulStep(a, x);
      MulStep(a, y);
      MulStep(a, Add(x, y));
      HalfAdd(x, y);
      MulAdd(a, Half(x), Half(y));
      GateAdd(x.b0, y.b0, a, a);
      DoubleAdd(Mul(a, Half(x)), Mul(a, Half(y)));
      Add4(Gate(x.b0, a), Gate(y.b0, a), Double(Mul(a, Half(x))), Double(Mul(a, Half(y))));
    }
  }

  lemma MulNothing(a: Octet)
    ensures Mul(a, ZERO) == ZERO
  {}

  lemma HalfLess(x: Octet, y: Octet)
    ensures x != ZERO || y != ZERO ==> Num(Half(x)) + Num(Half(y)) < Num(x) + Num(y)
  {
    hide Half, Num;
    HalfZero();
  }

  lemma {:induction false} AddMul(a: Octet, c: Octet, x: Octet)
    ensures Mul(Add(a, c), x) == Add(Mul(a, x), Mul(c, x))
    decreases Num(x)
  {
    hide Mul, Gate, Double, Add, Half, Num;
    if x == ZERO {
      MulNothing(a);
      MulNothing(c);
      MulNothing(Add(a, c));
      HalfZero();
    } else {
      MulStep(a, x);
      MulStep(c, x);
      MulStep(Add(a, c), x);
      AddMul(a, c, Half(x));
      GateAdd(x.b0, false, a, c);
      DoubleAdd(Mul(a, Half(x)), Mul(c, Half(x)));
      Add4(Gate(x.b0, a), Gate(x.b0, c), Double(Mul(a, Half(x))), Double(Mul(c, Half(x))));
    }
  }

  lemma {:induction false} DoubleMul(a: Octet, x: Octet)
    ensures Mul(Double(a), x) == Double(Mul(a, x))
    decreases Num(x)
  {
    hide Mul, Gate, Double, Add, Half, Num;
    if x == ZERO {
      MulNothing(a);
      MulNothing(Double(a));
      HalfZero();
    } else {
      MulStep(a, x);
      MulStep(Double(a), x);
      DoubleMul(a, Half(x));
      GateAdd(x.b0, false, a, a);
      DoubleAdd(Gate(x.b0, a), Double(Mul(a, Half(x))));
    }
  }

  lemma {:induction false} ZeroMul(x: Octet)
    ensures Mul(ZERO, x) == ZERO
    decreases Num(x)
  {
    hide Double, Add, Half, Num;
    HalfZero();
    if x != ZERO {
      ZeroMul(Half(x));
    }
  }

  /** Multiplying a product by `b` multiplies its first factor by `b`. */
  lemma {:induction false} MulFirst(c: Octet, x: Octet, b: Octet)
    ensures Mul(Mul(c, x), b) == Mul(Mul(c, b), x)
    decreases Num(x)
  {
    hide Mul, Double, Add, Half, Num;
    if x == ZERO {
      MulNothing(c);
      ZeroMul(b);
      MulNothing(Mul(c, b));
    } else {
      var d := Mul(c, Half(x));
      MulStep(c, x);
      MulStep(Mul(c, b), x);
      AddMul(Gate(x.b0, c), Double(d), b);
      MulFirst(c, Half(x), b);
      DoubleMul(d, b);
      ZeroMul(b);
    }
  }

  lemma {:induction false} OneMul(b: Octet)
    ensures Mul(ONE, b) == b
    decreases Num(b)
  {
    hide Mul, Num;
    if b == ZERO {
      MulNothing(ONE);
    } else {
      MulStep(ONE, b);
      OneMul(Half(b));
    }
  }

  lemma MulSwap(a: Octet, b: Octet)
    ensures Mul(a, b) == Mul(b, a)
  {
    hide Mul;
    OneMul(a);
    OneMul(b);
    MulFirst(ONE, a, b);
  }

  lemma MulMul(a: Octet, b: Octet, x: Octet)
    ensures Mul(a, Mul(b, x)) == Mul(Mul(a, b), x)
  {
    hide Mul;
    MulFirst(b, x, a);
    MulSwap(a, Mul(b, x));
    MulSwap(b, a);
  }

  // The bytes of the parity matrix, their inverses and the products of the elimination.

  const X05 := Octet(true, false, true, false, false, false, false, false)
  const X0d := Octet(true, false, true, true, false, false, false, false)
  const X0e := Octet(false, true, true, true, false, false, false, false)
  const X19 := Octet(true, false, false, true, true, false, false, false)
  const X20 := Octet(false, false, false, false, false, true, false, false)
  const X28 := Octet(false, false, false, true, false, true, false, false)
  const X2b := Octet(true, true, false, true, false, true, false, false)
  const X36 := Octet(false, true, true, false, true, true, false, false)
  const X38 := Octet(false, false, false, true, true, true, false, false)
  const X40 := Octet(false, false, false, false, false, false, true, false)
  const X44 := Octet(false, false, true, false, false, false, true, false)
  const X47 := Octet(true, true, true, false, false, false, true, false)
  const X4d := Octet(true, false, true, true, false, false, true, false)
  const X50 := Octet(false, false, false, false, true, false, true, false)
  const X54 := Octet(false, false, true, false, true, false, true, false)
  const X5a := Octet(false, true, false, true, true, false, true, false)
  const X5d := Octet(true, false, true, true, true, false, true, false)
  const X64 := Octet(false, false, true, false, false, true, true, false)
  const X6c := Octet(false, false, true, true, false, true, true, false)
  const X70 := Octet(false, false, false, false, true, true, true, false)
  const X75 := Octet(true, false, true, false, true, true, true, false)
  const X77 := Octet(true, true, true, false, true, true, true, false)
  const X78 := Octet(false, false, false, true, true, true, true, false)
  const X79 := Octet(true, false, false, true, true, true, true, false)
  const X9e := Octet(false, true, true, true, true, false, false, true)
  const Xa7 := Octet(true, true, true, false, false, true, false, true)
  const Xaa := Octet(false, true, false, true, false, true, false, true)
  const Xb7 := Octet(true, true, true, false, true, true, false, true)
  const Xc7 := Octet(true, true, true, false, false, false, true, true)
  const Xdb := Octet(true, true, false, true, true, false, true, true)
  const Xe4 := Octet(false, false, true, false, false, true, true, true)
  const Xe7 := Octet(true, true, true, false, false, true, true, true)

  /** Horner's rule written out. */
  function Product(a: Octet, b: Octet): (r: Octet) {
    Add(Gate(b.b0, a), Double(Add(Gate(b.b1, a), Double(Add(Gate(b.b2, a), Double(Add(Gate(b.b3, a),
      Double(Add(Gate(b.b4, a), Double(Add(Gate(b.b5, a), Double(Add(Gate(b.b6, a),
        Double(Gate(b.b7, a)))))))))))))))
  }

  lemma MulIs(a: Octet, b: Octet)
    ensures Mul(a, b) == Product(a, b)
  {
    hide Mul, Add, Double, Gate;
    var b1 := Half(b);
    var b2 := Half(b1);
    var b3 := Half(b2);
    var b4 := Half(b3);
    var b5 := Half(b4);
    var b6 := Half(b5);
    var b7 := Half(b6);
    MulStep(a, b);
    MulStep(a, b1);
    MulStep(a, b2);
    MulStep(a, b3);
    MulStep(a, b4);
    MulStep(a, b5);
    MulStep(a, b6);
    MulStep(a, b7);
    assert Half(b7) == ZERO;
    MulNothing(a);
    HalfZero();
    AddZero(Gate(b7.b0, a), ZERO);
  }

  lemma AudioProducts0()
    ensures Product(Xaa, X0d) == ONE && Product(X5d, X0e) == ONE
    ensures Product(X70, X28) == ONE && Product(X40, X36) == ONE
  {}

  lemma AudioProducts1()
    ensures Product(X50, X38) == ONE && Product(X36, X40) == ONE
    ensures Product(X20, X6c) == ONE && Product(X79, X77) == ONE
  {}

  lemma AudioProducts2()
    ensures Product(Xdb, X78) == ONE && Product(X05, Xa7) == ONE
    ensures Product(X9e, Xc7) == ONE && Product(X79, X40) == X2b
  {}

  lemma AudioProducts3()
    ensures Product(Xc7, X2b) == Xe7 && Product(X79, X38) == Xb7
    ensures Product(Xc7, Xb7) == X75 && Product(X79, X0e) == Xe4
  {}

  lemma AudioProducts4()
    ensures Product(Xc7, Xe4) == X5a && Product(X36, X38) == X64
    ensures Product(Xa7, X64) == X4d && Product(X36, X0e) == X19
  {}

  lemma AudioProducts5()
    ensures Product(Xa7, X19) == X54 && Product(X50, X0e) == X47
    ensures Product(X0d, X47) == X44
  {}

  lemma AudioSums()
    ensures Add(Xa7, Xe7) == X40 && Add(X0d, X75) == X78 && Add(X6c, X5a) == X36
    ensures Add(X0d, X4d) == X40 && Add(X6c, X54) == X38 && Add(X6c, X44) == X28
  {}

  // ----- the audio code -----

  /** The parity matrix of the audio stream. */
  function Entry(q: nat, i: nat): (c: Octet) {
    match (q, i)
    case (0, 0) => X77
    case (0, 1) => X40
    case (0, 2) => X38
    case (0, 3) => X0e
    case (1, 0) => Xc7
    case (1, 1) => Xa7
    case (1, 2) => X0d
    case (1, 3) => X6c
    case _ => ZERO
  }

  /** Its bytes, row by row. */
  lemma AudioMatrix()
    ensures forall q, i | 0 <= q < PARITY && 0 <= i < DATA ::
      Num(Entry(q, i)) == [0x77, 0x40, 0x38, 0x0e, 0xc7, 0xa7, 0x0d, 0x6c][DATA * q + i]
  {}

  /** The entries of the inverse table that the elimination can look up. */
  function Inverse(c: Octet): (r: Octet) {
    if c == X0d then Xaa
    else if c == X0e then X5d
    else if c == X28 then X70
    else if c == X36 then X40
    else if c == X38 then X50
    else if c == X40 then X36
    else if c == X6c then X20
    else if c == X77 then X79
    else if c == X78 then Xdb
    else if c == Xa7 then X05
    else if c == Xc7 then X9e
    else ZERO
  }

  /** The audio stream's code. */
  const AUDIO: Code := Code(ZERO, ONE, Add, Mul, Entry, Inverse)

  lemma AudioAdds()
    ensures AddLaws(AUDIO)
  {
    hide Add;
    forall x, y
      ensures Add(x, y) == Add(y, x) && Add(x, ZERO) == x && Add(x, x) == ZERO
    {
      AddZero(x, y);
    }
    forall x, y, z
      ensures Add(Add(x, y), z) == Add(x, Add(y, z))
    {
      AddAdd(x, y, z);
    }
  }

  lemma AudioMuls()
    ensures MulLaws(AUDIO)
  {
    hide Add, Mul;
    forall x, y
      ensures Mul(x, y) == Mul(y, x) && Mul(ONE, x) == x
    {
      MulSwap(x, y);
      OneMul(x);
    }
    forall x, y, z
      ensures Mul(x, Mul(y, z)) == Mul(Mul(x, y), z)
    {
      MulMul(x, y, z);
    }
    forall x, y, z
      ensures Mul(x, Add(y, z)) == Add(Mul(x, y), Mul(x, z))
    {
      MulAdd(x, y, z);
    }
  }

  /** No pivot is zero: the elimination never gives up. */
  lemma AudioPivots()
    ensures PivotLaws(AUDIO)
  {
    hide Add, Mul, Product;
    AudioProducts0();
    AudioProducts1();
    AudioProducts2();
    AudioProducts3();
    AudioProducts4();
    AudioProducts5();
    AudioSums();
    MulIs(Xaa, X0d);
    MulIs(X5d, X0e);
    MulIs(X70, X28);
    MulIs(X40, X36);
    MulIs(X50, X38);
    MulIs(X36, X40);
    MulIs(X20, X6c);
    MulIs(X79, X77);
    MulIs(Xdb, X78);
    MulIs(X05, Xa7);
    MulIs(X9e, Xc7);
    MulIs(X79, X40);
    MulIs(Xc7, X2b);
    MulIs(X79, X38);
    MulIs(Xc7, Xb7);
    MulIs(X79, X0e);
    MulIs(Xc7, Xe4);
    MulIs(X36, X38);
    MulIs(Xa7, X64);
    MulIs(X36, X0e);
    MulIs(Xa7, X19);
    MulIs(X50, X0e);
    MulIs(X0d, X47);
    forall q, i | 0 <= q < PARITY && 0 <= i < DATA
      ensures Undoes(AUDIO, AUDIO.entry(q, i))
    {
    }
    forall e0, e1 | 0 <= e0 < e1 < DATA
      ensures Undoes(AUDIO, Pivot(AUDIO, e0, e1))
    {
    }
  }

  /** Any four of the audio stream's six shards give back the data. */
  lemma AudioLawful()
    ensures Lawful(AUDIO)
  {
    hide AddLaws, MulLaws, PivotLaws;
    AudioAdds();
    AudioMuls();
    AudioPivots();
  }
}
