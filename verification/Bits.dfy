/**
 Bytes, bit strings and the values they spell, most significant bit first.
 */
module Bits {
  type byte = b: int | 0 <= b < 256

  type s16 = x: int | -0x8000 <= x < 0x8000

  function Pow2(n: nat): (p: nat)
    ensures p >= 1
  {
    if n == 0 then 1 else 2 * Pow2(n - 1)
  }

  /** The number a bit string spells. */
  function Val(s: seq<bool>): (v: nat) {
    if |s| == 0 then 0 else 2 * Val(s[..|s| - 1]) + (if s[|s| - 1] then 1 else 0)
  }

  /** The low `n` bits of `v`. */
  function ToBits(v: nat, n: nat): (s: seq<bool>)
    ensures |s| == n
  {
    if n == 0 then [] else ToBits(v / 2, n - 1) + [v % 2 == 1]
  }

  function Zeros(n: nat): (s: seq<bool>)
    ensures |s| == n && forall i :: 0 <= i < n ==> !s[i]
  {
    seq(n, _ => false)
  }

  predicate AllZero(s: seq<bool>) {
    forall i :: 0 <= i < |s| ==> !s[i]
  }

  lemma Twice(x: nat, y: nat)
    ensures 2 * (x * y) == x * (2 * y) == (2 * x) * y
  {}

  lemma {:induction false} Pow2Add(a: nat, b: nat)
    ensures Pow2(a + b) == Pow2(a) * Pow2(b)
  {
    if a > 0 {
      hide Pow2;
      Pow2Add(a - 1, b);
      Pow2Step(a - 1);
      Pow2Step(a - 1 + b);
      Twice(Pow2(a - 1), Pow2(b));
    }
  }

  lemma Pow2Step(n: nat)
    ensures Pow2(n + 1) == 2 * Pow2(n)
  {}

  lemma {:induction false} Pow2Mono(a: nat, b: nat)
    requires a <= b
    ensures Pow2(a) <= Pow2(b)
  {
    if a < b {
      Pow2Mono(a, b - 1);
    }
  }

  lemma ValStep(s: seq<bool>)
    requires |s| > 0
    ensures Val(s) == 2 * Val(s[..|s| - 1]) + if s[|s| - 1] then 1 else 0
  {}

  lemma ToBitsStep(v: nat, n: nat)
    ensures ToBits(v, n + 1) == ToBits(v / 2, n) + [v % 2 == 1]
  {}

  lemma {:induction false} ValBound(s: seq<bool>)
    ensures Val(s) < Pow2(|s|)
  {
    if |s| > 0 {
      ValBound(s[..|s| - 1]);
    }
  }

  lemma {:induction false} ValConcat(a: seq<bool>, b: seq<bool>)
    ensures Val(a + b) == Val(a) * Pow2(|b|) + Val(b)
  {
    if |b| == 0 {
      assert a + b == a;
    } else {
      hide Val, Pow2;
      var b' := b[..|b| - 1];
      assert (a + b)[..|a + b| - 1] == a + b';
      ValConcat(a, b');
      ValStep(b);
      ValStep(a + b);
      Pow2Step(|b'|);
      Twice(Val(a), Pow2(|b'|));
    }
  }

  lemma {:induction false} ValCons(b: bool, m: seq<bool>)
    ensures Val([b] + m) == (if b then Pow2(|m|) else 0) + Val(m)
  {
    if |m| == 0 {
      assert [b] + m == [b];
    } else {
      ValCons(b, m[..|m| - 1]);
      assert ([b] + m)[..|m|] == [b] + m[..|m| - 1];
    }
  }

  lemma {:induction false} ValZeros(s: seq<bool>)
    ensures AllZero(s) <==> Val(s) == 0
  {
    if |s| > 0 {
      ValZeros(s[..|s| - 1]);
      if AllZero(s[..|s| - 1]) && !s[|s| - 1] {
        assert AllZero(s);
      }
    }
  }

  lemma {:induction false} ValToBits(v: nat, n: nat)
    requires v < Pow2(n)
    ensures Val(ToBits(v, n)) == v
  {
    if n > 0 {
      ValToBits(v / 2, n - 1);
      assert ToBits(v, n)[..n - 1] == ToBits(v / 2, n - 1);
    }
  }

  lemma {:induction false} ToBitsVal(s: seq<bool>)
    ensures ToBits(Val(s), |s|) == s
  {
    if |s| > 0 {
      hide Val, ToBits;
      var n := |s| - 1;
      ToBitsVal(s[..n]);
      ValStep(s);
      ToBitsStep(Val(s), n);
      assert Val(s) / 2 == Val(s[..n]) && (Val(s) % 2 == 1 <==> s[n]);
      assert s == s[..n] + [s[n]];
    }
  }

  /** Bit `k` of a byte, counted from the top: `(b >> (7 - k)) & 1`. */
  function ByteBit(b: byte, k: nat): (r: bool)
    requires k < 8
  {
    b / Pow2(7 - k) % 2 == 1
  }

  lemma DivDiv(v: nat, p: nat)
    requires p > 0
    ensures v / 2 / p == v / (2 * p)
  {
    var q := v / (2 * p);
    var r := v % (2 * p);
    assert v == q * (2 * p) + r;
    assert q * (2 * p) == 2 * (q * p);
    assert v / 2 == q * p + r / 2;
    DivUnique(v / 2, p, q, r / 2);
  }

  lemma MulAtLeast(k: int, p: nat)
    requires k >= 1
    ensures k * p >= p
  {
    assert k * p == (k - 1) * p + p;
  }

  lemma DivUnique(v: nat, p: nat, q: nat, r: nat)
    requires p > 0 && v == q * p + r && r < p
    ensures v / p == q && v % p == r
  {
    var d := v / p - q;
    assert v == (v / p) * p + v % p;
    assert d * p == (v / p) * p - q * p;
    if d >= 1 {
      MulAtLeast(d, p);
      assert false;
    } else if d <= -1 {
      MulAtLeast(-d, p);
      assert false;
    }
  }

  lemma {:induction false} ToBitsAt(v: nat, n: nat, k: nat)
    requires k < n
    ensures ToBits(v, n)[k] == (v / Pow2(n - 1 - k) % 2 == 1)
  {
    if k < n - 1 {
      ToBitsAt(v / 2, n - 1, k);
      DivDiv(v, Pow2(n - 2 - k));
    }
  }

  /** `b | (0x80 >> k)`. */
  function SetBit(b: byte, k: nat): (r: byte)
    requires k < 8
    ensures forall j :: 0 <= j < 8 ==> ByteBit(r, j) == (j == k || ByteBit(b, j))
  {
    SetBitIs(b, k);
    if ByteBit(b, k) then b else b + Pow2(7 - k)
  }

  lemma {:induction false} ValUpdate(s: seq<bool>, k: nat)
    requires k < |s|
    ensures Val(s[k := true]) == Val(s) + if s[k] then 0 else Pow2(|s| - 1 - k)
  {
    var n := |s| - 1;
    if k == n {
      assert s[k := true][..n] == s[..n];
    } else {
      ValUpdate(s[..n], k);
      assert s[k := true][..n] == s[..n][k := true];
    }
  }

  lemma ByteBitIs(b: byte, k: nat)
    requires k < 8
    ensures ByteBit(b, k) == ToBits(b, 8)[k]
  {
    ToBitsAt(b, 8, k);
  }

  lemma SetBitIs(b: byte, k: nat)
    requires k < 8
    ensures var r := if ByteBit(b, k) then b else b + Pow2(7 - k);
            0 <= r < 256 && forall j :: 0 <= j < 8 ==> ByteBit(r, j) == (j == k || ByteBit(b, j))
  {
    hide Val, ToBits, Pow2, ByteBit;
    Pow2Bytes();
    ValToBits(b, 8);
    ByteBitIs(b, k);
    ValUpdate(ToBits(b, 8), k);
    ValBound(ToBits(b, 8)[k := true]);
    SetBitBits(b, k, Val(ToBits(b, 8)[k := true]));
  }

  lemma SetBitBits(b: byte, k: nat, r: byte)
    requires k < 8 && r == Val(ToBits(b, 8)[k := true])
    ensures forall j :: 0 <= j < 8 ==> ByteBit(r, j) == (j == k || ByteBit(b, j))
  {
    hide *;
    ToBitsVal(ToBits(b, 8)[k := true]);
    forall j | 0 <= j < 8
      ensures ByteBit(r, j) == (j == k || ByteBit(b, j))
    {
      ByteBitIs(b, j);
      ByteBitIs(r, j);
    }
  }

  /** The bits of a byte string. */
  function BitsOf(s: seq<byte>): (r: seq<bool>)
    ensures |r| == 8 * |s|
    ensures forall i {:trigger r[i]} :: 0 <= i < 8 * |s| ==> r[i] == ByteBit(s[i / 8], i % 8)
  {
    seq(8 * |s|, i requires 0 <= i < 8 * |s| => ByteBit(s[i / 8], i % 8))
  }

  lemma ByteBits(b: byte)
    ensures BitsOf([b]) == ToBits(b, 8)
  {
    forall k | 0 <= k < 8
      ensures BitsOf([b])[k] == ToBits(b, 8)[k]
    {
      ToBitsAt(b, 8, k);
    }
  }

  lemma BitsOfConcat(a: seq<byte>, b: seq<byte>)
    ensures BitsOf(a + b) == BitsOf(a) + BitsOf(b)
  {
    var r := BitsOf(a + b);
    forall i | 0 <= i < |r|
      ensures r[i] == (BitsOf(a) + BitsOf(b))[i]
    {
      if i >= 8 * |a| {
        assert i / 8 - |a| == (i - 8 * |a|) / 8;
        assert i % 8 == (i - 8 * |a|) % 8;
      }
    }
  }

  lemma BitsOfInjective(a: seq<byte>, b: seq<byte>)
    requires BitsOf(a) == BitsOf(b)
    ensures a == b
  {
    assert 8 * |a| == 8 * |b|;
    forall i | 0 <= i < |a|
      ensures a[i] == b[i]
    {
      ByteBits(a[i]);
      ByteBits(b[i]);
      forall k | 0 <= k < 8
        ensures ToBits(a[i], 8)[k] == ToBits(b[i], 8)[k]
      {
        assert (8 * i + k) / 8 == i && (8 * i + k) % 8 == k;
        assert BitsOf(a)[8 * i + k] == BitsOf(b)[8 * i + k];
        assert BitsOf([a[i]])[k] == ByteBit(a[i], k);
        assert BitsOf([b[i]])[k] == ByteBit(b[i], k);
      }
      assert ToBits(a[i], 8) == ToBits(b[i], 8);
      assert Pow2(8) == 256;
      ValToBits(a[i], 8);
      ValToBits(b[i], 8);
    }
  }

  /** The low 32 bits of a number as four bytes, big-endian. */
  function Be32(n: nat): (s: seq<byte>)
    ensures |s| == 4
  {
    [n / 0x100_0000 % 256, n / 0x1_0000 % 256, n / 256 % 256, n % 256]
  }

  function FromBe32(s: seq<byte>): (n: nat)
    requires |s| >= 4
  {
    0x100_0000 * (s[0] as int) + 0x1_0000 * (s[1] as int) + 256 * (s[2] as int) + s[3] as int
  }

  lemma Be32RoundTrip(n: nat, t: seq<byte>)
    requires n <= 0xffff_ffff
    ensures FromBe32(Be32(n) + t) == n
  {
    var b := Be32(n);
    assert (b + t)[0] == b[0] && (b + t)[1] == b[1] && (b + t)[2] == b[2] && (b + t)[3] == b[3];
    assert n / 0x1_0000 == (n / 256) / 256 && n / 0x100_0000 == (n / 0x1_0000) / 256;
  }

  lemma FromBe32RoundTrip(s: seq<byte>)
    requires |s| == 4
    ensures FromBe32(s) <= 0xffff_ffff && Be32(FromBe32(s)) == s
  {
    var n, y := FromBe32(s), s[0] as int * 256 + s[1];
    var z := y * 256 + s[2];
    assert n == z * 256 + s[3];
    DivUnique(n, 256, z, s[3]);
    DivUnique(z, 256, y, s[2]);
    DivUnique(y, 256, s[0], s[1]);
    DivBytes(n);
  }

  lemma DivBytes(n: nat)
    ensures n / 0x1_0000 == n / 256 / 256 && n / 0x100_0000 == n / 256 / 256 / 256
  {}

  /** Big-endian: the bytes spell the number, most significant bit first. */
  lemma Be32Spells(s: seq<byte>)
    requires |s| == 4
    ensures Val(BitsOf(s)) == FromBe32(s)
  {
    hide Val, BitsOf, Pow2, ToBits;
    assert s == [s[0]] + ([s[1]] + ([s[2]] + [s[3]]));
    assert [s[3]] == [s[3]] + [];
    ByteSpells(s[3], []);
    ByteSpells(s[2], [s[3]]);
    ByteSpells(s[1], [s[2]] + [s[3]]);
    ByteSpells(s[0], [s[1]] + ([s[2]] + [s[3]]));
    BitsOfNothing();
    Pow2Bytes();
  }

  lemma BitsOfNothing()
    ensures BitsOf([]) == [] && Val([]) == 0
  {}

  lemma Pow2Bytes()
    ensures Pow2(0) == 1 && Pow2(8) == 0x100 && Pow2(16) == 0x1_0000 && Pow2(24) == 0x100_0000
  {
    assert Pow2(8) == 0x100;
    Pow2Add(8, 8);
    Pow2Add(16, 8);
  }

  lemma ByteSpells(b: byte, t: seq<byte>)
    ensures Val(BitsOf([b] + t)) == b * Pow2(8 * |t|) + Val(BitsOf(t))
  {
    hide Val, BitsOf, Pow2, ToBits;
    BitsOfConcat([b], t);
    ValConcat(BitsOf([b]), BitsOf(t));
    ByteBits(b);
    Pow2Bytes();
    ValToBits(b, 8);
  }

  /** The bytes a bit string of whole octets spells. */
  function Pack(s: seq<bool>): (r: seq<byte>)
    requires |s| % 8 == 0
    ensures |r| == |s| / 8
  {
    if |s| == 0 then [] else
      ValBound(s[..8]);
      assert Pow2(8) == 256;
      [Val(s[..8])] + Pack(s[8..])
  }

  lemma {:induction false} BitsOfPack(s: seq<bool>)
    requires |s| % 8 == 0
    ensures BitsOf(Pack(s)) == s
  {
    if |s| > 0 {
      BitsOfPack(s[8..]);
      ValBound(s[..8]);
      assert Pow2(8) == 256;
      ByteBits(Val(s[..8]));
      ToBitsVal(s[..8]);
      BitsOfConcat([Val(s[..8])], Pack(s[8..]));
      assert s == s[..8] + s[8..];
    }
  }

  lemma PackBitsOf(r: seq<byte>)
    ensures Pack(BitsOf(r)) == r
  {
    BitsOfPack(BitsOf(r));
    BitsOfInjective(Pack(BitsOf(r)), r);
  }

  lemma ZeroBits()
    ensures forall k :: 0 <= k < 8 ==> !ByteBit(0, k)
  {}

  /** Setting one bit of a buffer changes that bit and no other. */
  lemma SpeltNext(before: seq<byte>, after: seq<byte>, pos: nat, bit: bool)
    requires |before| == |after| && pos < 8 * |before| && !ByteBit(before[pos / 8], pos % 8)
    requires after == if bit then before[pos / 8 := SetBit(before[pos / 8], pos % 8)] else before
    ensures forall i {:trigger ByteBit(after[i / 8], i % 8)} :: 0 <= i < 8 * |before| ==>
      ByteBit(after[i / 8], i % 8) == if i == pos then bit else ByteBit(before[i / 8], i % 8)
  {
    hide ByteBit;
    forall i | 0 <= i < 8 * |before|
      ensures ByteBit(after[i / 8], i % 8) == if i == pos then bit else ByteBit(before[i / 8], i % 8)
    {
      assert i == 8 * (i / 8) + i % 8;
    }
  }

  lemma ZerosSnoc(c: seq<bool>, k: nat)
    ensures c + Zeros(k) + [false] == c + Zeros(k + 1)
  {}

  lemma Joined(a: seq<bool>, b: seq<bool>, c: seq<bool>)
    ensures (a + b) + c == a + (b + c) && [] + c == c
  {}
}
