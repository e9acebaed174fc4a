/**
 A code of four data and two parity shards over any commutative ring of characteristic 2, and the
 elimination that fills missing data shards, byte column by byte column.
 */
module ReedSolomon {
  /** A byte as its bits, lowest first. */
  datatype Octet = Octet(b0: bool, b1: bool, b2: bool, b3: bool, b4: bool, b5: bool, b6: bool, b7: bool)

  /** The byte as a number. */
  function Num(o: Octet): (n: nat)
    ensures n < 256
  {
    (if o.b0 then 1 else 0) + (if o.b1 then 2 else 0) + (if o.b2 then 4 else 0) + (if o.b3 then 8 else 0)
    + (if o.b4 then 16 else 0) + (if o.b5 then 32 else 0) + (if o.b6 then 64 else 0) + (if o.b7 then 128 else 0)
  }

  lemma NumUnique(o: Octet, p: Octet)
    ensures Num(o) == Num(p) ==> o == p
  {}

  const DATA: nat := 4
  const PARITY: nat := 2
  const SHARDS: nat := 6

  /** Arithmetic on bytes, a parity matrix, and the inverses the elimination looks up. */
  datatype Code = Code(
    zero: Octet, one: Octet, add: (Octet, Octet) -> Octet, mul: (Octet, Octet) -> Octet,
    entry: (nat, nat) -> Octet, inverse: Octet -> Octet)

  ghost predicate AddLaws(code: Code) {
    && (forall x, y :: code.add(x, y) == code.add(y, x))
    && (forall x, y, z :: code.add(code.add(x, y), z) == code.add(x, code.add(y, z)))
    && (forall x :: code.add(x, code.zero) == x)
    && (forall x :: code.add(x, x) == code.zero)
  }

  ghost predicate MulLaws(code: Code) {
    && (forall x, y :: code.mul(x, y) == code.mul(y, x))
    && (forall x, y, z :: code.mul(x, code.mul(y, z)) == code.mul(code.mul(x, y), z))
    && (forall x, y, z :: code.mul(x, code.add(y, z)) == code.add(code.mul(x, y), code.mul(x, z)))
    && (forall x :: code.mul(code.one, x) == x)
  }

  /** The factor between the pivot row's two entries, and the second pivot, with `e0` and `e1` missing. */
  function Ratio(code: Code, e0: nat, e1: nat): (c: Octet) {
    code.mul(code.inverse(code.entry(0, e0)), code.entry(0, e1))
  }

  function Pivot(code: Code, e0: nat, e1: nat): (c: Octet) {
    code.add(code.entry(1, e1), code.mul(code.entry(1, e0), Ratio(code, e0, e1)))
  }

  ghost predicate Undoes(code: Code, c: Octet) {
    code.mul(code.inverse(c), c) == code.one
  }

  /** Every pivot the elimination can meet has its inverse. */
  ghost predicate PivotLaws(code: Code) {
    && (forall q, i :: 0 <= q < PARITY && 0 <= i < DATA ==> Undoes(code, code.entry(q, i)))
    && (forall e0, e1 :: 0 <= e0 < e1 < DATA ==> Undoes(code, Pivot(code, e0, e1)))
    && code.one != code.zero
  }

  ghost predicate Lawful(code: Code) {
    AddLaws(code) && MulLaws(code) && PivotLaws(code)
  }

  lemma AddZero(code: Code, x: Octet, y: Octet)
    requires Lawful(code)
    ensures code.add(x, code.zero) == x && code.add(code.zero, x) == x
    ensures code.add(x, x) == code.zero && code.add(x, y) == code.add(y, x)
  {}

  lemma AddAdd(code: Code, x: Octet, y: Octet, z: Octet)
    requires Lawful(code)
    ensures code.add(code.add(x, y), z) == code.add(x, code.add(y, z))
  {}

  lemma Add4(code: Code, a: Octet, b: Octet, c: Octet, d: Octet)
    requires Lawful(code)
    ensures code.add(code.add(a, b), code.add(c, d)) == code.add(code.add(a, c), code.add(b, d))
  {
    hide Lawful;
    AddAdd(code, a, b, code.add(c, d));
    AddAdd(code, b, c, d);
    AddZero(code, b, c);
    AddAdd(code, c, b, d);
    AddAdd(code, a, c, code.add(b, d));
  }

  lemma MulSwap(code: Code, a: Octet, b: Octet)
    requires Lawful(code)
    ensures code.mul(a, b) == code.mul(b, a)
  {}

  lemma MulAdd(code: Code, a: Octet, x: Octet, y: Octet)
    requires Lawful(code)
    ensures code.mul(a, code.add(x, y)) == code.add(code.mul(a, x), code.mul(a, y))
  {}

  lemma MulMul(code: Code, a: Octet, b: Octet, x: Octet)
    requires Lawful(code)
    ensures code.mul(a, code.mul(b, x)) == code.mul(code.mul(a, b), x)
  {}

  lemma OneMul(code: Code, x: Octet)
    requires Lawful(code)
    ensures code.mul(code.one, x) == x
  {}

  lemma EntryInverse(code: Code, q: nat, i: nat)
    requires Lawful(code) && q < PARITY && i < DATA
    ensures code.mul(code.inverse(code.entry(q, i)), code.entry(q, i)) == code.one
  {
    hide AddLaws, MulLaws;
    assert Undoes(code, code.entry(q, i));
  }

  lemma PivotInverse(code: Code, e0: nat, e1: nat)
    requires Lawful(code) && e0 < e1 < DATA
    ensures code.mul(code.inverse(Pivot(code, e0, e1)), Pivot(code, e0, e1)) == code.one
  {
    hide AddLaws, MulLaws, Pivot;
    assert Undoes(code, Pivot(code, e0, e1));
  }

  lemma OneNonzero(code: Code)
    requires Lawful(code)
    ensures code.one != code.zero
  {}

  function Gate(code: Code, b: bool, a: Octet): (r: Octet) {
    if b then a else code.zero
  }

  /** One column of a parity shard. */
  function Row(code: Code, q: nat, d: seq<Octet>): (r: Octet)
    requires |d| == DATA
  {
    Sum4(code, code.mul(code.entry(q, 0), d[0]), code.mul(code.entry(q, 1), d[1]), code.mul(code.entry(q, 2), d[2]),
        code.mul(code.entry(q, 3), d[3]))
  }

  function Sum4(code: Code, a: Octet, b: Octet, c: Octet, d: Octet): (r: Octet) {
    code.add(code.add(a, b), code.add(c, d))
  }

  /** Column `i` of the codeword of `d`: data, then parity. */
  function Word(code: Code, d: seq<Octet>, i: nat): (r: Octet)
    requires |d| == DATA
  {
    if i < DATA then d[i] else Row(code, i - DATA, d)
  }

  // ----- filling gaps -----

  /** The missing data shards, in order. */
  function Gaps(present: seq<bool>, i: nat): (g: seq<nat>)
    requires |present| == SHARDS
    ensures forall k :: 0 <= k < |g| ==> i <= g[k] < DATA && !present[g[k]]
    ensures forall j, k :: 0 <= j < k < |g| ==> g[j] < g[k]
    decreases DATA - i
  {
    if i >= DATA then [] else (if present[i] then [] else [i]) + Gaps(present, i + 1)
  }

  /** The first parity shard present. */
  function FirstParity(present: seq<bool>): (q: nat)
    requires |present| == SHARDS
  {
    if present[DATA] then 0 else 1
  }

  /** The shards the elimination reads: the data there is, and one parity shard for each gap. */
  predicate Used(present: seq<bool>, i: nat)
    requires |present| == SHARDS
  {
    i < SHARDS && present[i] && (i < DATA || |Gaps(present, 0)| == 2 || i == DATA + FirstParity(present))
  }

  /** There is a gap, and parity enough to fill the gaps. */
  predicate Solvable(present: seq<bool>)
    requires |present| == SHARDS
  {
    var n := |Gaps(present, 0)|;
    (n == 1 && (present[DATA] || present[DATA + 1])) || (n == 2 && present[DATA] && present[DATA + 1])
  }

  function Part(code: Code, q: nat, s: seq<Octet>, present: seq<bool>, j: nat): (r: Octet)
    requires |s| == |present| == SHARDS && j < DATA
  {
    Gate(code, present[j], code.mul(code.entry(q, j), s[j]))
  }

  /** A parity byte less what the data shards present account for. */
  function Known(code: Code, q: nat, s: seq<Octet>, present: seq<bool>): (r: Octet)
    requires |s| == |present| == SHARDS && q < PARITY
  {
    code.add(s[DATA + q],
        Sum4(code, Part(code, q, s, present, 0), Part(code, q, s, present, 1), Part(code, q, s, present, 2),
            Part(code, q, s, present, 3)))
  }

  /** The two rows solved for two gaps, step by step as the elimination does. */
  function Solve2(code: Code, e0: nat, e1: nat, k0: Octet, k1: Octet): (r: (Octet, Octet)) {
    var a := code.mul(code.inverse(code.entry(0, e0)), k0);
    var b := code.mul(code.inverse(Pivot(code, e0, e1)), code.add(k1, code.mul(code.entry(1, e0), a)));
    (code.add(a, code.mul(Ratio(code, e0, e1), b)), b)
  }

  /** The missing byte `i` of a column. */
  function Solve(code: Code, i: nat, s: seq<Octet>, present: seq<bool>): (r: Octet)
    requires |s| == |present| == SHARDS
  {
    var g := Gaps(present, 0);
    if |g| == 1 then
      var q := FirstParity(present);
      code.mul(code.inverse(code.entry(q, g[0])), Known(code, q, s, present))
    else if |g| == 2 then
      var r := Solve2(code, g[0], g[1], Known(code, 0, s, present), Known(code, 1, s, present));
      if i == g[0] then r.0 else r.1
    else code.zero
  }

  lemma Undo(code: Code, u: Octet, c: Octet, x: Octet)
    requires Lawful(code)
    requires code.mul(u, c) == code.one
    ensures code.mul(u, code.mul(c, x)) == x
  {
    hide Lawful;
    MulMul(code, u, c, x);
    OneMul(code, x);
  }

  lemma Cancel(code: Code, x: Octet, y: Octet)
    requires Lawful(code)
    ensures code.add(code.add(x, y), y) == x && code.add(code.add(x, y), x) == y && code.add(x, code.add(x, y)) == y
  {
    hide Lawful;
    AddAdd(code, x, y, y);
    AddZero(code, y, x);
    AddZero(code, x, y);
    AddAdd(code, y, x, x);
    AddAdd(code, x, x, y);
  }

  /** Two gaps, two rows: the elimination gives back what was lost. */
  lemma Solve2Is(code: Code, e0: nat, e1: nat, x: Octet, y: Octet)
    requires Lawful(code)
    requires e0 < e1 < DATA
    ensures Solve2(code, e0, e1, code.add(code.mul(code.entry(0, e0), x), code.mul(code.entry(0, e1), y)),
                           code.add(code.mul(code.entry(1, e0), x), code.mul(code.entry(1, e1), y))) == (x, y)
  {
    hide Lawful;
    var c00, c01, c10, c11 := code.entry(0, e0), code.entry(0, e1), code.entry(1, e0), code.entry(1, e1);
    var u, w := code.inverse(c00), Ratio(code, e0, e1);
    EntryInverse(code, 0, e0);
    PivotInverse(code, e0, e1);
    // a == x + w y
    MulAdd(code, u, code.mul(c00, x), code.mul(c01, y));
    Undo(code, u, c00, x);
    MulMul(code, u, c01, y);
    var a := code.add(x, code.mul(w, y));
    assert code.mul(u, code.add(code.mul(c00, x), code.mul(c01, y))) == a;
    // k1 + c10 a == pivot y
    MulAdd(code, c10, x, code.mul(w, y));
    MulMul(code, c10, w, y);
    Regroup(code, code.mul(c10, x), code.mul(c11, y), code.mul(code.mul(c10, w), y));
    MulSwap(code, Pivot(code, e0, e1), y);
    MulAdd(code, y, c11, code.mul(c10, w));
    MulSwap(code, y, c11);
    MulSwap(code, y, code.mul(c10, w));
    Undo(code, code.inverse(Pivot(code, e0, e1)), Pivot(code, e0, e1), y);
    Cancel(code, x, code.mul(w, y));
  }

  lemma Regroup(code: Code, p: Octet, q: Octet, r: Octet)
    requires Lawful(code)
    ensures code.add(code.add(p, q), code.add(p, r)) == code.add(q, r)
  {
    hide Lawful;
    Add4(code, p, q, p, r);
    AddZero(code, p, q);
    AddZero(code, code.add(q, r), p);
  }

  /** Used bytes are those of the codeword of `d`. */
  ghost predicate Spells(code: Code, d: seq<Octet>, s: seq<Octet>, present: seq<bool>)
    requires |d| == DATA && |s| == |present| == SHARDS
  {
    forall i :: 0 <= i < SHARDS && Used(present, i) ==> s[i] == Word(code, d, i)
  }

  function Lost(code: Code, q: nat, d: seq<Octet>, present: seq<bool>, j: nat): (r: Octet)
    requires |d| == DATA && |present| == SHARDS && j < DATA
  {
    Gate(code, !present[j], code.mul(code.entry(q, j), d[j]))
  }

  lemma PartLost(code: Code, q: nat, d: seq<Octet>, s: seq<Octet>, present: seq<bool>, j: nat)
    requires Lawful(code)
    requires |d| == DATA && |s| == |present| == SHARDS && j < DATA && (present[j] ==> s[j] == d[j])
    ensures code.add(code.mul(code.entry(q, j), d[j]), Part(code, q, s, present, j)) == Lost(code, q, d, present, j)
  {
    hide Lawful;
    AddZero(code, code.mul(code.entry(q, j), d[j]), code.zero);
  }

  /** What is left of a parity byte is what the lost data shards contributed. */
  lemma KnownIs(code: Code, q: nat, d: seq<Octet>, s: seq<Octet>, present: seq<bool>)
    requires Lawful(code)
    requires |d| == DATA && |s| == |present| == SHARDS && q < PARITY && s[DATA + q] == Row(code, q, d)
    requires forall j :: 0 <= j < DATA && present[j] ==> s[j] == d[j]
    ensures Known(code, q, s, present)
         == Sum4(code, Lost(code, q, d, present, 0), Lost(code, q, d, present, 1), Lost(code, q, d, present, 2),
             Lost(code, q, d, present, 3))
  {
    hide Lawful, Part, Lost;
    var t0, t1 := code.mul(code.entry(q, 0), d[0]), code.mul(code.entry(q, 1), d[1]);
    var t2, t3 := code.mul(code.entry(q, 2), d[2]), code.mul(code.entry(q, 3), d[3]);
    var p0, p1 := Part(code, q, s, present, 0), Part(code, q, s, present, 1);
    var p2, p3 := Part(code, q, s, present, 2), Part(code, q, s, present, 3);
    PartLost(code, q, d, s, present, 0);
    PartLost(code, q, d, s, present, 1);
    PartLost(code, q, d, s, present, 2);
    PartLost(code, q, d, s, present, 3);
    Add4(code, code.add(t0, t1), code.add(t2, t3), code.add(p0, p1), code.add(p2, p3));
    Add4(code, t0, t1, p0, p1);
    Add4(code, t2, t3, p2, p3);
  }

  lemma GapsAre(present: seq<bool>)
    requires |present| == SHARDS
    ensures var g := Gaps(present, 0);
            && (|g| == 1 ==> forall j :: 0 <= j < DATA ==> (present[j] <==> j != g[0]))
            && (|g| == 2 ==> forall j :: 0 <= j < DATA ==> (present[j] <==> j != g[0] && j != g[1]))
  {
    hide Lawful, Gaps;
    var g := Gaps(present, 0);
    forall j | 0 <= j < DATA
      ensures |g| == 1 ==> (present[j] <==> j != g[0])
      ensures |g| == 2 ==> (present[j] <==> j != g[0] && j != g[1])
    {
      GapsHold(present, 0, j);
      if |g| == 1 {
        assert g == [g[0]];
      } else if |g| == 2 {
        assert g == [g[0], g[1]];
      }
    }
  }

  lemma {:induction false} GapsHold(present: seq<bool>, i: nat, j: nat)
    requires |present| == SHARDS && i <= j < DATA
    ensures j in Gaps(present, i) <==> !present[j]
    decreases DATA - i
  {
    if i < j {
      GapsHold(present, i + 1, j);
    }
  }

  /** From any four shards the elimination gives back every lost byte. */
  lemma SolveIs(code: Code, d: seq<Octet>, s: seq<Octet>, present: seq<bool>, i: nat)
    requires Lawful(code)
    requires |d| == DATA && |s| == |present| == SHARDS && Solvable(present) && Spells(code, d, s, present)
    requires i < DATA && !present[i]
    ensures Solve(code, i, s, present) == d[i]
  {
    hide Lawful, Known, Solve2, Word, Gaps;
    GapsAre(present);
    var g := Gaps(present, 0);
    if |g| == 1 {
      var q := FirstParity(present);
      SpellsData(code, d, s, present, q);
      KnownIs(code, q, d, s, present);
      LostOne(code, q, d, present, i);
      EntryInverse(code, q, i);
      Undo(code, code.inverse(code.entry(q, i)), code.entry(q, i), d[i]);
    } else {
      SpellsData(code, d, s, present, 0);
      SpellsData(code, d, s, present, 1);
      KnownIs(code, 0, d, s, present);
      KnownIs(code, 1, d, s, present);
      LostTwo(code, 0, d, present, g[0], g[1]);
      LostTwo(code, 1, d, present, g[0], g[1]);
      Solve2Is(code, g[0], g[1], d[g[0]], d[g[1]]);
    }
  }

  lemma SpellsData(code: Code, d: seq<Octet>, s: seq<Octet>, present: seq<bool>, q: nat)
    requires Lawful(code)
    requires |d| == DATA && |s| == |present| == SHARDS && Solvable(present) && Spells(code, d, s, present)
    requires q < PARITY && (q == FirstParity(present) || |Gaps(present, 0)| == 2)
    ensures s[DATA + q] == Row(code, q, d) && forall j :: 0 <= j < DATA && present[j] ==> s[j] == d[j]
  {
    hide Lawful, Row, Gaps;
    assert Used(present, DATA + q);
    forall j | 0 <= j < DATA && present[j]
      ensures s[j] == d[j]
    {
      assert Used(present, j);
    }
  }

  lemma LostOne(code: Code, q: nat, d: seq<Octet>, present: seq<bool>, e: nat)
    requires Lawful(code)
    requires |d| == DATA && |present| == SHARDS && e < DATA && forall j :: 0 <= j < DATA ==> (present[j] <==> j != e)
    ensures Sum4(code, Lost(code, q, d, present, 0), Lost(code, q, d, present, 1), Lost(code, q, d, present, 2),
        Lost(code, q, d, present, 3))
         == code.mul(code.entry(q, e), d[e])
  {
    hide Lawful;
    AddZero(code, code.mul(code.entry(q, e), d[e]), code.zero);
    AddZero(code, code.zero, code.zero);
  }

  lemma LostTwo(code: Code, q: nat, d: seq<Octet>, present: seq<bool>, e0: nat, e1: nat)
    requires Lawful(code)
    requires |d| == DATA && |present| == SHARDS && e0 < e1 < DATA
    requires forall j :: 0 <= j < DATA ==> (present[j] <==> j != e0 && j != e1)
    ensures Sum4(code, Lost(code, q, d, present, 0), Lost(code, q, d, present, 1), Lost(code, q, d, present, 2),
        Lost(code, q, d, present, 3))
         == code.add(code.mul(code.entry(q, e0), d[e0]), code.mul(code.entry(q, e1), d[e1]))
  {
    hide Lawful;
    AddZero(code, code.mul(code.entry(q, e0), d[e0]), code.zero);
    AddZero(code, code.mul(code.entry(q, e1), d[e1]), code.zero);
    AddZero(code, code.add(code.mul(code.entry(q, e0), d[e0]), code.mul(code.entry(q, e1), d[e1])), code.zero);
    AddZero(code, code.zero, code.zero);
  }

  // ----- shards of another group -----

  /** The column with `x` at `a`, `y` at `b`, `z` at `c`, zero elsewhere. */
  function Sparse(code: Code, a: nat, x: Octet, b: nat, y: Octet, c: nat, z: Octet): (d: seq<Octet>)
    ensures |d| == DATA
  {
    seq(DATA, i => if i == a then x else if i == b then y else if i == c then z else code.zero)
  }

  function Minor(code: Code, a: nat, b: nat): (c: Octet) {
    code.add(code.mul(code.entry(0, a), code.entry(1, b)), code.mul(code.entry(0, b), code.entry(1, a)))
  }

  lemma MulZero(code: Code, a: Octet)
    requires Lawful(code)
    ensures code.mul(a, code.zero) == code.zero && code.mul(code.zero, a) == code.zero
  {
    hide Lawful;
    AddZero(code, code.zero, code.zero);
    MulAdd(code, a, code.zero, code.zero);
    AddZero(code, code.mul(a, code.zero), code.zero);
    MulSwap(code, a, code.zero);
  }

  lemma MinorSwap(code: Code, a: nat, b: nat)
    requires Lawful(code)
    ensures Minor(code, a, b) == Minor(code, b, a)
  {
    hide Lawful;
    AddZero(code, code.mul(code.entry(0, a), code.entry(1, b)), code.mul(code.entry(0, b), code.entry(1, a)));
  }

  /** No two columns of the matrix are multiples of one another. */
  lemma MinorNonzero(code: Code, a: nat, b: nat)
    requires Lawful(code)
    requires a < DATA && b < DATA && a != b
    ensures Minor(code, a, b) != code.zero
  {
    hide Lawful;
    OneNonzero(code);
    if b < a {
      MinorSwap(code, a, b);
      MinorNonzero(code, b, a);
    } else {
      var c00, c01, c10, c11 := code.entry(0, a), code.entry(0, b), code.entry(1, a), code.entry(1, b);
      var u, p := code.inverse(c00), Pivot(code, a, b);
      EntryInverse(code, 0, a);
      PivotInverse(code, a, b);
      MulAdd(code, u, code.mul(c00, c11), code.mul(c01, c10));
      Undo(code, u, c00, c11);
      MulMul(code, u, c01, c10);
      MulSwap(code, Ratio(code, a, b), c10);
      assert code.mul(u, Minor(code, a, b)) == p;
      MulZero(code, u);
      MulZero(code, code.inverse(p));
    }
  }

  lemma EntryNonzero(code: Code, q: nat, i: nat)
    requires Lawful(code)
    requires q < PARITY && i < DATA
    ensures code.entry(q, i) != code.zero
  {
    hide Lawful;
    OneNonzero(code);
    EntryInverse(code, q, i);
    MulZero(code, code.inverse(code.entry(q, i)));
  }

  function Unit(code: Code, a: nat, x: Octet): (d: seq<Octet>)
    ensures |d| == DATA
  {
    seq(DATA, i => if i == a then x else code.zero)
  }

  function AddColumns(code: Code, d: seq<Octet>, e: seq<Octet>): (r: seq<Octet>)
    requires |d| == |e| == DATA
    ensures |r| == DATA
  {
    seq(DATA, i requires 0 <= i < DATA => code.add(d[i], e[i]))
  }

  /** Parity is linear. */
  lemma RowAdd(code: Code, q: nat, d: seq<Octet>, e: seq<Octet>)
    requires Lawful(code)
    requires |d| == |e| == DATA
    ensures Row(code, q, AddColumns(code, d, e)) == code.add(Row(code, q, d), Row(code, q, e))
  {
    hide Lawful;
    MulAdd(code, code.entry(q, 0), d[0], e[0]);
    MulAdd(code, code.entry(q, 1), d[1], e[1]);
    MulAdd(code, code.entry(q, 2), d[2], e[2]);
    MulAdd(code, code.entry(q, 3), d[3], e[3]);
    Sum4Add(code, code.mul(code.entry(q, 0), d[0]), code.mul(code.entry(q, 1), d[1]),
        code.mul(code.entry(q, 2), d[2]), code.mul(code.entry(q, 3), d[3]),
            code.mul(code.entry(q, 0), e[0]), code.mul(code.entry(q, 1), e[1]), code.mul(code.entry(q, 2), e[2]),
                code.mul(code.entry(q, 3), e[3]));
  }

  lemma Sum4Add(code: Code, a: Octet, b: Octet, c: Octet, d: Octet, p: Octet, q: Octet, r: Octet, s: Octet)
    requires Lawful(code)
    ensures Sum4(code, code.add(a, p), code.add(b, q), code.add(c, r), code.add(d, s))
        == code.add(Sum4(code, a, b, c, d), Sum4(code, p, q, r, s))
  {
    hide Lawful;
    Add4(code, a, p, b, q);
    Add4(code, c, r, d, s);
    Add4(code, code.add(a, b), code.add(p, q), code.add(c, d), code.add(r, s));
  }

  lemma RowUnit(code: Code, q: nat, a: nat, x: Octet)
    requires Lawful(code)
    requires a < DATA
    ensures Row(code, q, Unit(code, a, x)) == code.mul(code.entry(q, a), x)
  {
    hide Lawful;
    MulZero(code, code.entry(q, 0));
    MulZero(code, code.entry(q, 1));
    MulZero(code, code.entry(q, 2));
    MulZero(code, code.entry(q, 3));
    AddZero(code, code.mul(code.entry(q, a), x), code.zero);
    AddZero(code, code.zero, code.zero);
  }

  lemma Row3(code: Code, q: nat, a: nat, x: Octet, b: nat, y: Octet, c: nat, z: Octet)
    requires Lawful(code)
    requires a < DATA && b < DATA && c < DATA && a != b && b != c && a != c
    ensures Row(code, q, Sparse(code, a, x, b, y, c, z))
        == code.add(code.add(code.mul(code.entry(q, a), x), code.mul(code.entry(q, b), y)),
            code.mul(code.entry(q, c), z))
  {
    hide Lawful, Row;
    var d := AddColumns(code, Unit(code, a, x), Unit(code, b, y));
    AddZero(code, x, code.zero);
    AddZero(code, y, code.zero);
    AddZero(code, z, code.zero);
    AddZero(code, code.zero, code.zero);
    assert Sparse(code, a, x, b, y, c, z) == AddColumns(code, d, Unit(code, c, z));
    RowAdd(code, q, d, Unit(code, c, z));
    RowAdd(code, q, Unit(code, a, x), Unit(code, b, y));
    RowUnit(code, q, a, x);
    RowUnit(code, q, b, y);
    RowUnit(code, q, c, z);
  }

  /** A column with two bytes that the parity row `q` does not notice. */
  lemma HiddenPair(code: Code, q: nat, a: nat, b: nat) returns (d: seq<Octet>)
    requires Lawful(code)
    requires q < PARITY && a < DATA && b < DATA && a != b
    ensures |d| == DATA && d[a] != code.zero && Row(code, q, d) == code.zero
    ensures forall i :: 0 <= i < DATA && i != a && i != b ==> d[i] == code.zero
  {
    hide Lawful, Row;
    var c := if a != 0 && b != 0 then 0 else if a != 1 && b != 1 then 1 else 2;
    d := Sparse(code, a, code.entry(q, b), b, code.entry(q, a), c, code.zero);
    Row3(code, q, a, code.entry(q, b), b, code.entry(q, a), c, code.zero);
    MulSwap(code, code.entry(q, a), code.entry(q, b));
    MulZero(code, code.entry(q, c));
    AddZero(code, code.mul(code.entry(q, a), code.entry(q, b)), code.zero);
    AddZero(code, code.zero, code.zero);
    EntryNonzero(code, q, b);
  }

  /** A column with three bytes that neither parity row notices. */
  lemma HiddenTriple(code: Code, a: nat, b: nat, c: nat) returns (d: seq<Octet>)
    requires Lawful(code)
    requires a < DATA && b < DATA && c < DATA && a != b && b != c && a != c
    ensures |d| == DATA && d[a] != code.zero && Row(code, 0, d) == code.zero && Row(code, 1, d) == code.zero
    ensures forall i :: 0 <= i < DATA && i != a && i != b && i != c ==> d[i] == code.zero
  {
    hide Lawful, Row, Minor;
    var x, y, z := Minor(code, b, c), Minor(code, a, c), Minor(code, a, b);
    d := Sparse(code, a, x, b, y, c, z);
    Row3(code, 0, a, x, b, y, c, z);
    Row3(code, 1, a, x, b, y, c, z);
    CramerTop(code, a, b, c);
    CramerBottom(code, a, b, c);
    MinorNonzero(code, b, c);
  }

  lemma Exchange(code: Code, a: Octet, b: Octet, z: Octet)
    requires Lawful(code)
    ensures code.mul(a, code.mul(b, z)) == code.mul(b, code.mul(a, z))
  {
    hide Lawful;
    MulMul(code, a, b, z);
    MulSwap(code, a, b);
    MulMul(code, b, a, z);
  }

  lemma CramerTop(code: Code, a: nat, b: nat, c: nat)
    requires Lawful(code)
    ensures code.add(code.add(code.mul(code.entry(0, a), Minor(code, b, c)),
        code.mul(code.entry(0, b), Minor(code, a, c))), code.mul(code.entry(0, c), Minor(code, a, b)))
         == code.zero
  {
    hide Lawful;
    var p, q, r, x, y, z := code.entry(0, a), code.entry(0, b), code.entry(0, c), code.entry(1, a), code.entry(1, b),
        code.entry(1, c);
    MulAdd(code, p, code.mul(q, z), code.mul(r, y));
    MulAdd(code, q, code.mul(p, z), code.mul(r, x));
    MulAdd(code, r, code.mul(p, y), code.mul(q, x));
    Exchange(code, p, q, z);
    Exchange(code, p, r, y);
    Exchange(code, q, r, x);
    Pairs(code, code.mul(p, code.mul(q, z)), code.mul(p, code.mul(r, y)), code.mul(q, code.mul(r, x)));
  }

  lemma CramerBottom(code: Code, a: nat, b: nat, c: nat)
    requires Lawful(code)
    ensures code.add(code.add(code.mul(code.entry(1, a), Minor(code, b, c)),
        code.mul(code.entry(1, b), Minor(code, a, c))), code.mul(code.entry(1, c), Minor(code, a, b)))
         == code.zero
  {
    hide Lawful;
    var p, q, r, x, y, z := code.entry(0, a), code.entry(0, b), code.entry(0, c), code.entry(1, a), code.entry(1, b),
        code.entry(1, c);
    MulAdd(code, x, code.mul(q, z), code.mul(r, y));
    MulAdd(code, y, code.mul(p, z), code.mul(r, x));
    MulAdd(code, z, code.mul(p, y), code.mul(q, x));
    Exchange(code, x, q, z);
    Exchange(code, z, q, x);
    MulSwap(code, x, z);
    Exchange(code, x, r, y);
    Exchange(code, y, r, x);
    MulSwap(code, x, y);
    Exchange(code, y, p, z);
    Exchange(code, z, p, y);
    MulSwap(code, y, z);
    AddZero(code, code.mul(y, code.mul(p, z)), code.mul(y, code.mul(r, x)));
    AddZero(code, code.mul(z, code.mul(p, y)), code.mul(z, code.mul(q, x)));
    Pairs(code, code.mul(x, code.mul(q, z)), code.mul(x, code.mul(r, y)), code.mul(y, code.mul(p, z)));
  }

  lemma Pairs(code: Code, a: Octet, b: Octet, c: Octet)
    requires Lawful(code)
    ensures code.add(code.add(code.add(a, b), code.add(a, c)), code.add(b, c)) == code.zero
    ensures code.add(code.add(code.add(a, b), code.add(b, c)), code.add(a, c)) == code.zero
        && code.add(code.add(code.add(a, b), code.add(c, b)), code.add(c, a)) == code.zero
  {
    hide Lawful;
    Regroup(code, a, b, c);
    AddZero(code, code.add(b, c), a);
    AddZero(code, a, b);
    AddZero(code, b, c);
    AddZero(code, a, c);
    Regroup(code, b, a, c);
    AddZero(code, code.add(a, c), b);
  }

  /**
   If some shard the elimination reads is not `mine`, a codeword that is zero on all of mine can still be
   nonzero where the gap is.
   */
  lemma Unnoticed(code: Code, present: seq<bool>, p: nat, mine: seq<bool>) returns (d: seq<Octet>)
    requires Lawful(code)
    requires |present| == |mine| == SHARDS && Solvable(present) && p < DATA && !present[p]
    requires exists i :: 0 <= i < SHARDS && Used(present, i) && !mine[i]
    ensures |d| == DATA && d[p] != code.zero
    ensures forall i :: 0 <= i < SHARDS && Used(present, i) && mine[i] ==> Word(code, d, i) == code.zero
  {
    hide Lawful, Row, Gaps;
    OneNonzero(code);
    GapsAre(present);
    var j :| 0 <= j < SHARDS && Used(present, j) && !mine[j];
    var g := Gaps(present, 0);
    if |g| == 1 {
      var q := FirstParity(present);
      if j >= DATA {
        d := Unit(code, p, code.one);
      } else {
        d := HiddenPair(code, q, p, j);
      }
    } else {
      var other := if g[0] == p then g[1] else g[0];
      if j >= DATA {
        d := HiddenPair(code, if j == DATA then 1 else 0, p, other);
      } else {
        d := HiddenTriple(code, p, other, j);
      }
    }
  }

  // ----- shards -----

  type Shard = seq<Octet>

  function At(code: Code, s: Shard, k: nat): (x: Octet) {
    if k < |s| then s[k] else code.zero
  }

  /** Byte `k` of every shard. */
  function Column(code: Code, shards: seq<Shard>, k: nat): (c: seq<Octet>)
    ensures |c| == |shards|
  {
    seq(|shards|, i requires 0 <= i < |shards| => At(code, shards[i], k))
  }

  /** Shard `i` of the group with data `d`, each of `size` bytes. */
  function Coded(code: Code, d: seq<Shard>, size: nat, i: nat): (s: Shard)
    requires |d| == DATA
  {
    if i < DATA then d[i] else seq(size, k requires 0 <= k < size => Row(code, i - DATA, Column(code, d, k)))
  }

  ghost predicate Even(d: seq<Shard>, size: nat) {
    |d| == DATA && forall i :: 0 <= i < DATA ==> |d[i]| == size
  }

  /** `reed_solomon_reconstruct`: the data shard `i`, lost or not. */
  function Reconstruct(code: Code, shards: seq<Shard>, present: seq<bool>, size: nat, i: nat): (s: Shard)
    requires |shards| == |present| == SHARDS && i < DATA
  {
    if present[i] then shards[i]
    else seq(size, k requires 0 <= k < size => Solve(code, i, Column(code, shards, k), present))
  }

  /** From the shards it reads, whatever group they spell. */
  lemma ReconstructIs(code: Code, d: seq<Shard>, size: nat, shards: seq<Shard>, present: seq<bool>, i: nat)
    requires Lawful(code)
    requires Even(d, size) && |shards| == |present| == SHARDS && Solvable(present) && i < DATA
    requires forall j :: 0 <= j < SHARDS && Used(present, j) ==> shards[j] == Coded(code, d, size, j)
    ensures Reconstruct(code, shards, present, size, i) == d[i]
  {
    hide Lawful, Solve, Row, Gaps;
    if present[i] {
      assert Used(present, i);
    } else {
      forall k | 0 <= k < size
        ensures Reconstruct(code, shards, present, size, i)[k] == d[i][k]
      {
        var c, s := Column(code, d, k), Column(code, shards, k);
        forall j | 0 <= j < SHARDS && Used(present, j)
          ensures s[j] == Word(code, c, j)
        {
        }
        SolveIs(code, c, s, present, i);
      }
    }
  }
}
