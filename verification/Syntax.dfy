/**
 Coded fields and the field walks built from them: fixed-width fields and the Exp-Golomb codes of
 section 9.1 of ITU-T H.264. A syntax table is a function from the values decoded so far to the
 next field, so one pair of print/parse lemmas serves every parameter set.
 */
module Syntax {
  import opened Bits

  datatype Option<+T> = None | Some(value: T)

  /** `u(n)`, `ue(v)` and `se(v)`. */
  datatype Field = U(width: nat) | UE | SE

  datatype Reading = Got(value: int, rest: seq<bool>) | Short

  function LeadingZeros(s: seq<bool>): (z: nat)
    ensures z <= |s|
    ensures forall i :: 0 <= i < z ==> !s[i]
    ensures z < |s| ==> s[z]
  {
    if |s| == 0 || s[0] then 0 else
      var z := LeadingZeros(s[1..]) + 1;
      assert forall i :: 0 < i < z ==> s[i] == s[1..][i - 1];
      assert z < |s| ==> s[z] == s[1..][z - 1];
      z
  }

  /** Reads `n` bits; `n` is at most 32 in the readers modelled here. */
  function ReadU(n: nat, s: seq<bool>): (r: Reading) {
    if n == 0 || n > 32 || |s| < n then Short else Got(Val(s[..n]), s[n..])
  }

  /** One `ue(v)` codeword; a prefix of more than 30 zeros is refused. */
  function ReadUE(s: seq<bool>): (r: Reading) {
    var z := LeadingZeros(s);
    if z > 30 || |s| < 2 * z + 1 then Short
    else Got(Pow2(z) - 1 + Val(s[z + 1..2 * z + 1]), s[2 * z + 1..])
  }

  /** Table 9-3 of H.264: the signed value of code number `k`. */
  function Signed(k: nat): (v: int)
    ensures v > 0 ==> k == 2 * v - 1
    ensures v <= 0 ==> k == -2 * v
  {
    if k % 2 == 1 then (k + 1) / 2 else -(k / 2)
  }

  function Unsigned(v: int): (k: nat) {
    if v > 0 then 2 * v - 1 else -2 * v
  }

  function Read(f: Field, s: seq<bool>): (r: Reading)
    ensures r.Got? ==> |r.rest| < |s|
  {
    match f
    case U(n) => ReadU(n, s)
    case UE => ReadUE(s)
    case SE => match ReadUE(s) { case Short => Short case Got(k, rest) => Got(Signed(k), rest) }
  }

  /** Index of the highest set bit. */
  function Log2(v: nat): (n: nat) {
    if v <= 1 then 0 else 1 + Log2(v / 2)
  }

  /** Code numbers below this have at most 30 leading zeros. */
  const UE_LIMIT: nat := 0x7FFF_FFFF

  predicate FieldOk(f: Field, v: int) {
    match f
    case U(n) => 1 <= n <= 32 && 0 <= v < Pow2(n)
    case UE => 0 <= v && v < UE_LIMIT
    case SE => Unsigned(v) < UE_LIMIT
  }

  function CodeUE(v: nat): (s: seq<bool>) {
    Zeros(Log2(v + 1)) + ToBits(v + 1, Log2(v + 1) + 1)
  }

  /** The codeword of value `v` in field `f`; a value out of range has none. */
  function Code(f: Field, v: int): (s: seq<bool>) {
    if !FieldOk(f, v) then [] else
      match f
      case U(n) => ToBits(v, n)
      case UE => CodeUE(v)
      case SE => CodeUE(Unsigned(v))
  }

  lemma UeLimit()
    ensures Pow2(31) == UE_LIMIT + 1
  {
    assert Pow2(10) == 1024;
    Pow2Add(10, 10);
    Pow2Add(20, 10);
    assert Pow2(31) == 2 * Pow2(30);
  }

  lemma LeadingZerosIs(s: seq<bool>, z: nat)
    requires z <= |s| && (forall i :: 0 <= i < z ==> !s[i]) && (z < |s| ==> s[z])
    ensures LeadingZeros(s) == z
  {
    var y := LeadingZeros(s);
    assert !(y < z) && !(z < y);
  }

  lemma {:induction false} Log2Bounds(v: nat)
    requires v >= 1
    ensures Pow2(Log2(v)) <= v < Pow2(Log2(v) + 1)
  {
    if v > 1 {
      Log2Bounds(v / 2);
    }
  }

  lemma Log2Unique(v: nat, n: nat)
    requires Pow2(n) <= v < Pow2(n + 1)
    ensures Log2(v) == n
  {
    Log2Bounds(v);
    var m := Log2(v);
    if m < n {
      Pow2Mono(m + 1, n);
    } else if n < m {
      Pow2Mono(n + 1, m);
    }
  }

  /** A number's top bit is set in its own width. */
  lemma TopBit(v: nat, n: nat)
    requires Pow2(n) <= v < Pow2(n + 1)
    ensures ToBits(v, n + 1)[0]
    ensures Val(ToBits(v, n + 1)[1..]) == v - Pow2(n)
  {
    var s := ToBits(v, n + 1);
    ValToBits(v, n + 1);
    assert s == [s[0]] + s[1..];
    ValCons(s[0], s[1..]);
    ValBound(s[1..]);
  }

  lemma CodeUEShape(v: nat)
    requires v < UE_LIMIT
    ensures Log2(v + 1) <= 30 && |CodeUE(v)| == 2 * Log2(v + 1) + 1 && CodeUE(v)[Log2(v + 1)]
    ensures forall i :: 0 <= i < Log2(v + 1) ==> !CodeUE(v)[i]
    ensures Val(CodeUE(v)[Log2(v + 1) + 1..]) == v + 1 - Pow2(Log2(v + 1))
  {
    hide Pow2, ToBits, Log2, Val;
    var n := Log2(v + 1);
    Log2Bounds(v + 1);
    TopBit(v + 1, n);
    UeLimit();
    if n > 30 {
      Pow2Mono(31, n);
    }
    assert CodeUE(v)[n + 1..] == ToBits(v + 1, n + 1)[1..];
  }

  lemma ReadCodeUE(v: nat, t: seq<bool>)
    requires v < UE_LIMIT
    ensures ReadUE(CodeUE(v) + t) == Got(v, t)
  {
    CodeUEShape(v);
    var n := Log2(v + 1);
    var c := CodeUE(v);
    LeadingZerosIs(c + t, n);
    assert (c + t)[n + 1..2 * n + 1] == c[n + 1..];
    assert (c + t)[2 * n + 1..] == t;
  }

  /** The number after `z` zeros, its top bit included, determines the codeword. */
  lemma CodeUEFrom(z: nat, m: seq<bool>, v: nat)
    requires |m| == z <= 30 && v + 1 == Pow2(z) + Val(m)
    ensures v < UE_LIMIT && CodeUE(v) == Zeros(z) + ([true] + m)
  {
    Pow2Step(z);
    hide *;
    ValBound(m);
    Pow2Mono(z + 1, 31);
    UeLimit();
    Log2Unique(v + 1, z);
    ValCons(true, m);
    ToBitsVal([true] + m);
    assert |[true] + m| == z + 1;
    assert ToBits(v + 1, z + 1) == [true] + m;
    CodeUEIs(v, z);
  }

  lemma CodeUEIs(v: nat, z: nat)
    requires Log2(v + 1) == z
    ensures CodeUE(v) == Zeros(z) + ToBits(v + 1, z + 1)
  {}

  lemma CodeReadUE(s: seq<bool>)
    requires ReadUE(s).Got?
    ensures 0 <= ReadUE(s).value < UE_LIMIT && s == CodeUE(ReadUE(s).value) + ReadUE(s).rest
  {
    hide Pow2, ToBits, Log2, Val;
    var z := LeadingZeros(s);
    var m := s[z + 1..2 * z + 1];
    CodeUEFrom(z, m, ReadUE(s).value);
    assert s == Zeros(z) + ([true] + m) + s[2 * z + 1..];
  }

  lemma StarvedUE(v: nat, p: seq<bool>)
    requires v < UE_LIMIT && p < CodeUE(v)
    ensures ReadUE(p).Short?
  {
    CodeUEShape(v);
    var n := Log2(v + 1);
    LeadingZerosIs(p, if |p| <= n then |p| else n);
  }

  /** Reading a codeword gives its value back and consumes exactly the codeword. */
  lemma ReadCode(f: Field, v: int, t: seq<bool>)
    requires FieldOk(f, v)
    ensures Read(f, Code(f, v) + t) == Got(v, t)
  {
    hide CodeUE, ReadUE, ToBits, Val, Pow2;
    match f
    case U(n) =>
      ValToBits(v, n);
      assert (Code(f, v) + t)[..n] == ToBits(v, n) && (Code(f, v) + t)[n..] == t;
    case UE => ReadCodeUE(v, t);
    case SE => ReadCodeUE(Unsigned(v), t);
  }

  /** What was consumed is the codeword of the value read: codes are unique. */
  lemma CodeRead(f: Field, s: seq<bool>)
    requires Read(f, s).Got?
    ensures var r := Read(f, s); FieldOk(f, r.value) && s == Code(f, r.value) + r.rest
  {
    hide CodeUE, ReadUE, ToBits, Val, Pow2;
    match f
    case U(n) =>
      ValBound(s[..n]);
      ToBitsVal(s[..n]);
    case UE => CodeReadUE(s);
    case SE => CodeReadUE(s);
  }

  /** A proper prefix of a codeword never reads. */
  lemma CodeStarved(f: Field, v: int, p: seq<bool>)
    requires FieldOk(f, v) && p < Code(f, v)
    ensures Read(f, p).Short?
  {
    match f
    case U(n) =>
    case UE => StarvedUE(v, p);
    case SE => StarvedUE(Unsigned(v), p);
  }

  // ----- walks -----

  /** A syntax table: the next field, given every value decoded so far. */
  type Table = seq<int> -> Option<Field>

  datatype Walked = Done(vals: seq<int>, rest: seq<bool>) | Starved(vals: seq<int>, rest: seq<bool>)

  function Walk(g: Table, vals: seq<int>, s: seq<bool>): (w: Walked)
    decreases |s|
  {
    match g(vals)
    case None => Done(vals, s)
    case Some(f) =>
      match Read(f, s)
      case Short => Starved(vals, s)
      case Got(v, rest) => Walk(g, vals + [v], rest)
  }

  ghost predicate StepOk(g: Table, vals: seq<int>, i: nat)
    requires i < |vals|
  {
    g(vals[..i]).Some? && FieldOk(g(vals[..i]).value, vals[i])
  }

  /** `vals[from..]` are legal values for the fields the table asks for. */
  ghost predicate Follows(g: Table, vals: seq<int>, from: nat)
    decreases |vals| - from
  {
    from <= |vals| && (from < |vals| ==> StepOk(g, vals, from) && Follows(g, vals, from + 1))
  }

  lemma {:induction false} FollowsAt(g: Table, vals: seq<int>, from: nat, i: nat)
    requires Follows(g, vals, from) && from <= i < |vals|
    ensures StepOk(g, vals, i)
    decreases i - from
  {
    if from < i {
      FollowsAt(g, vals, from + 1, i);
    }
  }

  /** The bits of `vals[from..]` under the table. */
  ghost function Print(g: Table, vals: seq<int>, from: nat): (s: seq<bool>)
    decreases |vals| - from
  {
    if from >= |vals| || !StepOk(g, vals, from) then [] else
      Code(g(vals[..from]).value, vals[from]) + Print(g, vals, from + 1)
  }

  /** Printed fields are walked back value for value. */
  lemma {:induction false} WalkPrint(g: Table, vals: seq<int>, from: nat, t: seq<bool>)
    requires Follows(g, vals, from)
    ensures Walk(g, vals[..from], Print(g, vals, from) + t) == Walk(g, vals, t)
    decreases |vals| - from
  {
    hide Code, FieldOk, Read;
    if from == |vals| {
      assert vals[..from] == vals && Print(g, vals, from) + t == t;
    } else {
      var f, v := g(vals[..from]).value, vals[from];
      var more := Print(g, vals, from + 1);
      Joined(Code(f, v), more, t);
      ReadCode(f, v, more + t);
      assert vals[..from] + [v] == vals[..from + 1];
      WalkPrint(g, vals, from + 1, t);
    }
  }

  /** `w` accounts for every bit of `s`: printed values, then the rest; and it stopped for cause. */
  ghost predicate Accounts(g: Table, vals: seq<int>, s: seq<bool>, w: Walked) {
    && vals <= w.vals
    && Follows(g, w.vals, |vals|)
    && s == Print(g, w.vals, |vals|) + w.rest
    && (w.Done? ==> g(w.vals).None?)
    && (w.Starved? ==> g(w.vals).Some? && Read(g(w.vals).value, w.rest).Short?)
  }

  lemma AccountsCons(g: Table, vals: seq<int>, v: int, rest: seq<bool>, w: Walked)
    requires g(vals).Some? && FieldOk(g(vals).value, v) && Accounts(g, vals + [v], rest, w)
    ensures Accounts(g, vals, Code(g(vals).value, v) + rest, w)
  {
    hide Code, FieldOk, Read;
    var n := |vals|;
    assert w.vals[..n + 1] == vals + [v];
    assert w.vals[..n] == vals && w.vals[n] == v;
    assert Follows(g, w.vals, n);
    assert Print(g, w.vals, n) == Code(g(vals).value, v) + Print(g, w.vals, n + 1);
    assert Code(g(vals).value, v) + rest
        == Code(g(vals).value, v) + (Print(g, w.vals, n + 1) + w.rest)
        == Print(g, w.vals, n) + w.rest;
  }

  /** A walk consumes exactly the printed form of the values it returns. */
  lemma {:induction false} PrintWalk(g: Table, vals: seq<int>, s: seq<bool>)
    ensures Accounts(g, vals, s, Walk(g, vals, s))
    decreases |s|
  {
    if g(vals).Some? && Read(g(vals).value, s).Got? {
      var r := Read(g(vals).value, s);
      CodeRead(g(vals).value, s);
      PrintWalk(g, vals + [r.value], r.rest);
      AccountsCons(g, vals, r.value, r.rest, Walk(g, vals, s));
    } else {
      assert [] + s == s;
    }
  }

  /** A proper prefix of a printed form starves the walk before its last value. */
  lemma {:induction false} WalkStarved(g: Table, vals: seq<int>, from: nat, p: seq<bool>)
    requires Follows(g, vals, from) && p < Print(g, vals, from)
    ensures var w := Walk(g, vals[..from], p); w.Starved? && w.vals < vals && from <= |w.vals|
    decreases |vals| - from
  {
    hide Code, FieldOk, Read;
    var f, v := g(vals[..from]).value, vals[from];
    var c := Code(f, v);
    if |p| < |c| {
      assert p < c;
      CodeStarved(f, v, p);
      assert vals[..from] < vals;
    } else {
      assert p == c + p[|c|..];
      ReadCode(f, v, p[|c|..]);
      assert vals[..from] + [v] == vals[..from + 1];
      WalkStarved(g, vals, from + 1, p[|c|..]);
    }
  }

  lemma {:induction false} PrintSplit(g: Table, vals: seq<int>, from: nat, mid: nat)
    requires from <= mid <= |vals| && Follows(g, vals, from)
    ensures Follows(g, vals[..mid], from) && Follows(g, vals, mid)
    ensures Print(g, vals, from) == Print(g, vals[..mid], from) + Print(g, vals, mid)
    decreases mid - from
  {
    hide Code, FieldOk;
    var head := vals[..mid];
    if from < mid {
      PrintSplit(g, vals, from + 1, mid);
      assert head[..from] == vals[..from] && StepOk(g, head, from);
      var c := Code(g(vals[..from]).value, vals[from]);
      Joined(c, Print(g, head, from + 1), Print(g, vals, mid));
    } else {
      Joined([], Print(g, head, from), Print(g, vals, mid));
    }
  }


  /** At `a[m]` and `b[m + d]` the table asks for the same field and finds the same value. */
  ghost predicate SameStep(g: Table, a: seq<int>, b: seq<int>, d: int, m: nat) {
    0 <= m + d < |b| && m < |a| && a[m] == b[m + d] && g(a[..m]) == g(b[..m + d])
  }

  /** Two value lists along which the table asks for the same fields print the same bits. */
  lemma {:induction false} PrintSame(g: Table, a: seq<int>, i: nat, b: seq<int>, d: int)
    requires Follows(g, a, i) && 0 <= i + d && |a| + d == |b|
    requires forall m: nat :: i <= m < |a| ==> SameStep(g, a, b, d, m)
    ensures Follows(g, b, i + d) && Print(g, a, i) == Print(g, b, i + d)
    decreases |a| - i
  {
    if i < |a| {
      assert SameStep(g, a, b, d, i);
      PrintSame(g, a, i + 1, b, d);
    }
  }

  lemma {:induction false} FollowsJoin(g: Table, v: seq<int>, i: nat, m: nat)
    requires i <= m <= |v| && Follows(g, v[..m], i) && Follows(g, v, m)
    ensures Follows(g, v, i)
    decreases m - i
  {
    if i < m {
      assert v[..m][..i] == v[..i];
      FollowsJoin(g, v, i + 1, m);
    }
  }

  /** `v[r := x]` prints like `v` but for the codeword of the one value. */
  ghost predicate Updated(g: Table, v: seq<int>, r: nat, x: int) {
    && r < |v| && Follows(g, v, 0) && Follows(g, v[r := x], 0) && Follows(g, v[..r], 0) && Follows(g, v, r + 1)
    && g(v[..r]).Some? && FieldOk(g(v[..r]).value, v[r]) && FieldOk(g(v[..r]).value, x)
    && Follows(g, v[r := x], r + 1) && Print(g, v[r := x], r + 1) == Print(g, v, r + 1)
    && Print(g, v, 0) == Print(g, v[..r], 0) + (Code(g(v[..r]).value, v[r]) + Print(g, v, r + 1))
    && Print(g, v[r := x], 0) == Print(g, v[..r], 0) + (Code(g(v[..r]).value, x) + Print(g, v, r + 1))
  }

  /** Changing one value the table never looks at changes one codeword. */
  lemma PrintUpdate(g: Table, v: seq<int>, r: nat, x: int, u: seq<int>)
    requires r < |v| && u == v[r := x] && Follows(g, v, 0) && g(v[..r]).Some? && FieldOk(g(v[..r]).value, x)
    requires forall m: nat :: r < m < |v| ==> SameStep(g, v, u, 0, m)
    ensures Updated(g, v, r, x)
  {
    hide Code, FieldOk, Follows, StepOk, Print, SameStep;
    UpdateFollows(g, v, r, x, u);
    PrintAround(g, u, r);
    PrintAround(g, v, r);
  }

  lemma PrintAround(g: Table, v: seq<int>, r: nat)
    requires Follows(g, v, 0) && r < |v|
    ensures Follows(g, v[..r], 0) && Follows(g, v, r + 1) && g(v[..r]).Some? && FieldOk(g(v[..r]).value, v[r])
    ensures Print(g, v, 0) == Print(g, v[..r], 0) + (Code(g(v[..r]).value, v[r]) + Print(g, v, r + 1))
  {
    hide Code, FieldOk, Follows, StepOk, Print;
    PrintSplit(g, v, 0, r);
    PrintStep(g, v, r);
  }

  lemma UpdateFollows(g: Table, v: seq<int>, r: nat, x: int, u: seq<int>)
    requires r < |v| && u == v[r := x] && Follows(g, v, 0) && g(v[..r]).Some? && FieldOk(g(v[..r]).value, x)
    requires forall m: nat :: r < m < |v| ==> SameStep(g, v, u, 0, m)
    ensures u[..r] == v[..r] && Follows(g, u, 0) && Follows(g, u, r + 1) && Follows(g, v, r + 1)
    ensures Print(g, u, r + 1) == Print(g, v, r + 1)
  {
    hide Code, FieldOk, Print;
    PrintSplit(g, v, 0, r);
    PrintSame(g, v, r + 1, u, 0);
    assert u[..r] == v[..r];
    assert StepOk(g, u, r);
    FollowsJoin(g, u, 0, r);
  }

  lemma PrintStep(g: Table, v: seq<int>, i: nat)
    requires Follows(g, v, i) && i < |v|
    ensures Follows(g, v, i + 1) && g(v[..i]).Some? && FieldOk(g(v[..i]).value, v[i])
    ensures Print(g, v, i) == Code(g(v[..i]).value, v[i]) + Print(g, v, i + 1)
  {}

  // ----- lists of fields -----

  /** Along `v` the table asks for exactly the fields `fs`. */
  ghost predicate Fields(g: Table, v: seq<int>, fs: seq<Field>) {
    |fs| == |v| && forall i :: 0 <= i < |v| ==> g(v[..i]) == Some(fs[i]) && FieldOk(fs[i], v[i])
  }

  /** The codewords of `v[i..]` in fields `fs[i..]`, one after another. */
  function Codes(fs: seq<Field>, v: seq<int>, i: nat): (s: seq<bool>)
    decreases |fs| - i
  {
    if i >= |fs| || i >= |v| then [] else Code(fs[i], v[i]) + Codes(fs, v, i + 1)
  }

  lemma {:induction false} PrintFields(g: Table, v: seq<int>, fs: seq<Field>, i: nat)
    requires Fields(g, v, fs) && i <= |v|
    ensures Follows(g, v, i) && Print(g, v, i) == Codes(fs, v, i)
    decreases |v| - i
  {
    hide Code, FieldOk;
    if i < |v| {
      PrintFields(g, v, fs, i + 1);
    }
  }

  lemma CodesStep(fs: seq<Field>, v: seq<int>, i: nat)
    requires i < |fs| == |v|
    ensures Codes(fs, v, i) == Code(fs[i], v[i]) + Codes(fs, v, i + 1)
  {}

  lemma CodesEnd(fs: seq<Field>, v: seq<int>, i: nat)
    requires i >= |fs|
    ensures Codes(fs, v, i) == []
  {}

  /** The table of a fixed list of fields. */
  function ListTable(fs: seq<Field>): (g: Table) {
    v => if |v| < |fs| then Some(fs[|v|]) else None
  }

  predicate ListOk(fs: seq<Field>, v: seq<int>) {
    |fs| == |v| && forall i :: 0 <= i < |v| ==> FieldOk(fs[i], v[i])
  }

  /** A list of legal values, written one after another, is walked back value for value. */
  lemma ListRoundTrip(fs: seq<Field>, v: seq<int>, t: seq<bool>)
    requires ListOk(fs, v)
    ensures Walk(ListTable(fs), [], Codes(fs, v, 0) + t) == Done(v, t)
  {
    hide FieldOk, Code;
    var g := ListTable(fs);
    assert Fields(g, v, fs);
    PrintFields(g, v, fs, 0);
    WalkPrint(g, v, 0, t);
    assert v[..0] == [];
    assert g(v).None?;
  }

  /** And only its own codewords are walked to it. */
  lemma ListWalked(fs: seq<Field>, s: seq<bool>)
    requires Walk(ListTable(fs), [], s).Done?
    ensures var w := Walk(ListTable(fs), [], s); ListOk(fs, w.vals) && s == Codes(fs, w.vals, 0) + w.rest
  {
    hide FieldOk, Code;
    var g, w := ListTable(fs), Walk(ListTable(fs), [], s);
    PrintWalk(g, [], s);
    ListBound(fs, [], s);
    forall i | 0 <= i < |w.vals|
      ensures g(w.vals[..i]) == Some(fs[i]) && FieldOk(fs[i], w.vals[i])
    {
      FollowsAt(g, w.vals, 0, i);
    }
    PrintFields(g, w.vals, fs, 0);
  }

  lemma {:induction false} ListBound(fs: seq<Field>, v: seq<int>, s: seq<bool>)
    requires |v| <= |fs|
    ensures |Walk(ListTable(fs), v, s).vals| <= |fs|
    decreases |s|
  {
    hide Read;
    if |v| < |fs| && Read(fs[|v|], s).Got? {
      ReadShorter(fs[|v|], s);
      ListBound(fs, v + [Read(fs[|v|], s).value], Read(fs[|v|], s).rest);
    }
  }

  lemma ReadShorter(f: Field, s: seq<bool>)
    ensures Read(f, s).Got? ==> |Read(f, s).rest| < |s|
  {}
}
