/**
 The bit writer of the legacy decoder, and that what it writes is read back.
 */
module BitWriter {
  import opened Bits
  import opened Syntax
  import opened Emulation
  import opened BitReader
  import opened Rewrite

  /** The part of `s` that fits `n` bytes. */
  function Clip(s: seq<bool>, n: nat): (r: seq<bool>) {
    if |s| <= 8 * n then s else s[..8 * n]
  }

  class Writer {
    const buf: array<byte>
    var bytePos: nat
    var bitPos: nat
    ghost var content: seq<bool>

    ghost predicate Valid()
      reads this, buf
    {
      bitPos < 8 && 8 * bytePos + bitPos == |content| <= 8 * buf.Length && Spelt()
    }

    /** The buffer spells `content` and is zero beyond it. */
    ghost predicate Spelt()
      reads this`content, buf
    {
      forall i :: 0 <= i < 8 * buf.Length ==> ByteBit(buf[i / 8], i % 8) == (i < |content| && content[i])
    }

    /** `bw_init`. */
    constructor (maxLen: nat)
      ensures Valid() && fresh(buf) && buf.Length == maxLen && content == []
    {
      buf := new byte[maxLen](_ => 0);
      bytePos, bitPos, content := 0, 0, [];
      new;
      ZeroBits();
    }

    /** `bw_put_bit`: a full buffer drops the bit. */
    method PutBit(bit: bool)
      requires Valid()
      modifies this, buf
      ensures Valid() && content == Clip(old(content) + [bit], buf.Length)
    {
      if bytePos >= buf.Length {
        assert (old(content) + [bit])[..8 * buf.Length] == old(content);
        return;
      }
      ghost var before, pos := buf[..], 8 * bytePos + bitPos;
      assert pos / 8 == bytePos && pos % 8 == bitPos;
      if bit {
        buf[bytePos] := SetBit(buf[bytePos], bitPos);
      }
      content := content + [bit];
      SpeltNext(before, buf[..], pos, bit);
      bitPos := bitPos + 1;
      if bitPos == 8 {
        bitPos, bytePos := 0, bytePos + 1;
      }
    }

    /** `bw_put_bits`. */
    method PutBits(val: nat, n: nat)
      requires Valid()
      modifies this, buf
      ensures Valid() && content == Clip(old(content) + ToBits(val, n), buf.Length)
    {
      hide Spelt, ByteBit;
      ghost var s := ToBits(val, n);
      var i := n;
      assert old(content) + s[..0] == old(content);
      while i > 0
        invariant 0 <= i <= n && Valid()
        invariant content == Clip(old(content) + s[..n - i], buf.Length)
      {
        ToBitsAt(val, n, n - i);
        ClipStep(old(content) + s[..n - i], s[n - i], buf.Length);
        assert old(content) + s[..n - i] + [s[n - i]] == old(content) + s[..n - i + 1];
        PutBit(val / Pow2(i - 1) % 2 == 1);
        i := i - 1;
      }
      assert s[..n] == s;
    }

    /** `bw_put_ue`. */
    method PutUe(val: nat)
      requires Valid() && val < UE_LIMIT
      modifies this, buf
      ensures Valid() && content == Clip(old(content) + CodeUE(val), buf.Length)
    {
      hide Spelt, ToBits, CodeUE, Clip, Zeros;
      var v := val + 1;
      var n, tmp := 0, v;
      while tmp > 1
        invariant tmp >= 1 && Log2(v) == n + Log2(tmp)
      {
        tmp, n := tmp / 2, n + 1;
      }
      PutZeros(n);
      ghost var c := old(content);
      ClipJoin(c + Zeros(n), ToBits(v, n + 1), buf.Length);
      CodeUEIs(val, n);
      Joined(c, Zeros(n), ToBits(v, n + 1));
      PutBits(v, n + 1);
    }

    method PutZeros(n: nat)
      requires Valid()
      modifies this, buf
      ensures Valid() && content == Clip(old(content) + Zeros(n), buf.Length)
    {
      hide Spelt;
      ghost var c := old(content);
      var i := 0;
      assert c + Zeros(0) == c;
      while i < n
        invariant 0 <= i <= n && Valid()
        invariant content == Clip(c + Zeros(i), buf.Length)
      {
        ClipStep(c + Zeros(i), false, buf.Length);
        ZerosSnoc(c, i);
        PutBit(false);
        i := i + 1;
      }
    }

    /** `bw_put_se`. */
    method PutSe(val: int)
      requires Valid() && Unsigned(val) < UE_LIMIT
      modifies this, buf
      ensures Valid() && content == Clip(old(content) + CodeUE(Unsigned(val)), buf.Length)
    {
      PutUe(if val > 0 then 2 * val - 1 else -2 * val);
    }

    /** `bw_rbsp_trailing`: the number of whole bytes. */
    method Trail() returns (n: nat)
      requires Valid()
      modifies this, buf
      ensures Valid() && content == Clip(Closed(old(content)), buf.Length)
      ensures n == |content| / 8 && |content| % 8 == 0
    {
      hide Spelt, PadTo8, Closed;
      ghost var c := old(content);
      ClipFull(c, buf.Length);
      PutBit(true);
      PadByte();
      n := bytePos;
      if |c| < 8 * buf.Length {
        ClosedIs(c, PadTo8(|c| + 1), buf.Length);
      }
    }

    /** Zeros up to the next byte. */
    method PadByte()
      requires Valid()
      modifies this, buf
      ensures Valid() && bitPos == 0 && content == old(content) + Zeros(PadTo8(|old(content)|))
    {
      hide Spelt, PadTo8, Zeros;
      ghost var c := old(content);
      ghost var k := 0;
      assert c + Zeros(0) == c;
      while bitPos != 0
        invariant Valid() && 0 <= k <= PadTo8(|c|) && content == c + Zeros(k)
        decreases PadTo8(|c|) - k
      {
        PadProgress(|c|, k);
        ZerosSnoc(c, k);
        PutBit(false);
        k := k + 1;
      }
      PadProgress(|c|, k);
    }
  }

  lemma ClosedIs(c: seq<bool>, k: nat, n: nat)
    requires k == PadTo8(|c| + 1) && |c| + 1 + k <= 8 * n
    ensures Clip(Closed(c), n) == c + [true] + Zeros(k)
  {
    hide PadTo8;
  }

  lemma PadProgress(n: nat, k: nat)
    requires k <= PadTo8(n)
    ensures (n + k) % 8 == 0 <==> k == PadTo8(n)
  {}

  lemma ClipFull(c: seq<bool>, n: nat)
    ensures |c| == 8 * n ==> Clip(c + [true], n) == c && Clip(Closed(c), n) == c
  {}

  lemma ClipStep(s: seq<bool>, b: bool, n: nat)
    ensures Clip(Clip(s, n) + [b], n) == Clip(s + [b], n)
  {}

  lemma ClipJoin(s: seq<bool>, t: seq<bool>, n: nat)
    ensures Clip(Clip(s, n) + t, n) == Clip(s + t, n)
  {}

  // ----- what is written can be read back -----

  /** What a writer of `cap` bytes holds after a list of fields and the trailing bits. */
  function Written(fs: seq<Field>, v: seq<int>, cap: nat): (s: seq<bool>) {
    Clip(Closed(Clip(Codes(fs, v, 0), cap)), cap)
  }

  /** The stop bit is found and the payload before it reads as `v`, bit for bit. */
  ghost predicate ReadsBack(s: seq<bool>, fs: seq<Field>, v: seq<int>) {
    !AllZero(s) && Walk(ListTable(fs), [], s[..Stop(s)]) == Done(v, [])
  }

  /** Any legal list of fields reads back field for field exactly if the buffer had a bit to spare. */
  lemma WrittenReadsBack(fs: seq<Field>, v: seq<int>, cap: nat)
    requires ListOk(fs, v)
    ensures ReadsBack(Written(fs, v, cap), fs, v) <==> |Codes(fs, v, 0)| < 8 * cap
    ensures |Codes(fs, v, 0)| < 8 * cap ==> Written(fs, v, cap) == Closed(Codes(fs, v, 0))
  {
    hide Codes, Walk, ListOk, Stop, AllZero, PadTo8;
    var c, s := Codes(fs, v, 0), Written(fs, v, cap);
    if |c| < 8 * cap {
      RoundUp(|c| + 1, 8 * cap);
      ClosedStop(c);
      ListRoundTrip(fs, v, []);
      assert c + [] == c && Closed(c)[..|c|] == c;
    } else {
      ClipFull(Clip(c, cap), cap);
      assert s == c[..8 * cap];
      if !AllZero(s) {
        ListStarved(fs, v, s[..Stop(s)]);
      }
    }
  }

  lemma ListStarved(fs: seq<Field>, v: seq<int>, p: seq<bool>)
    requires ListOk(fs, v) && p < Codes(fs, v, 0)
    ensures Walk(ListTable(fs), [], p).Starved?
  {
    hide Code, FieldOk, Walk;
    var g := ListTable(fs);
    assert Fields(g, v, fs);
    PrintFields(g, v, fs, 0);
    WalkStarved(g, v, 0, p);
    assert v[..0] == [];
  }

  // ----- zero runs -----

  /** No sixteen zero bits in a row, counting `r` just before `s`. */
  predicate RunOk(s: seq<bool>, r: nat) {
    r < 16 && (|s| == 0 || RunOk(s[1..], if s[0] then 0 else r + 1))
  }

  /** Zero bits pending after `s`. */
  function RunOut(s: seq<bool>, r: nat): (k: nat) {
    if |s| == 0 then r else RunOut(s[1..], if s[0] then 0 else r + 1)
  }

  lemma {:induction false} RunJoin(a: seq<bool>, b: seq<bool>, r: nat)
    ensures RunOk(a + b, r) <==> RunOk(a, r) && RunOk(b, RunOut(a, r))
    ensures RunOut(a + b, r) == RunOut(b, RunOut(a, r))
  {
    if |a| == 0 {
      assert a + b == b;
      RunHere(b, r);
    } else {
      assert (a + b)[1..] == a[1..] + b;
      RunJoin(a[1..], b, if a[0] then 0 else r + 1);
    }
  }

  lemma RunHere(b: seq<bool>, r: nat)
    ensures RunOk(b, r) ==> r < 16
  {}

  lemma {:induction false} RunShort(s: seq<bool>, r: nat)
    requires r + |s| < 16
    ensures RunOk(s, r) && RunOut(s, r) <= r + |s|
  {
    if |s| > 0 {
      RunShort(s[1..], if s[0] then 0 else r + 1);
    }
  }

  lemma {:induction false} RunWindow(s: seq<bool>, r: nat, i: nat)
    requires RunOk(s, r) && i + 16 <= |s| && AllZero(s[i..i + 16])
    ensures false
    decreases |s|
  {
    if i > 0 {
      assert s[1..][i - 1..i + 15] == s[i..i + 16];
      RunWindow(s[1..], if s[0] then 0 else r + 1, i - 1);
    } else {
      assert s == s[..16] + s[16..];
      RunJoin(s[..16], s[16..], r);
      RunZeros(s[..16], r);
    }
  }

  lemma {:induction false} RunZeros(s: seq<bool>, r: nat)
    requires AllZero(s) && r + |s| >= 16
    ensures !RunOk(s, r)
  {
    if |s| > 0 {
      RunZeros(s[1..], r + 1);
    }
  }

  /** Without sixteen zero bits in a row there are no two zero bytes in a row. */
  lemma RunNoPair(r: seq<byte>)
    requires RunOk(BitsOf(r), 0)
    ensures NoZeroPair(r)
  {
    forall i | 0 <= i < |r| - 1 && r[i] == 0
      ensures r[i + 1] != 0
    {
      if r[i + 1] == 0 {
        ZeroBits();
        var s := BitsOf(r);
        var t := s[8 * i..8 * i + 16];
        forall k | 0 <= k < 16
          ensures !t[k]
        {
          assert (8 * i + k) / 8 == i + k / 8 && (8 * i + k) % 8 == k % 8;
        }
        RunWindow(s, 0, 8 * i);
      }
    }
  }

  lemma ShortLog(v: nat)
    requires v <= 29
    ensures Log2(v + 1) <= 4
  {
    Log2Bounds(v + 1);
    if Log2(v + 1) >= 5 {
      Pow2Mono(5, Log2(v + 1));
    }
    assert Pow2(5) == 32;
  }

  /** A short codeword leaves at most four zeros pending. */
  lemma RunCode(v: nat, r: nat)
    requires v <= 29 && r <= 6
    ensures RunOk(CodeUE(v), r) && RunOut(CodeUE(v), r) <= 4
  {
    hide CodeUE, Log2, Val, Pow2;
    CodeUEShape(v);
    ShortLog(v);
    var n, c := Log2(v + 1), CodeUE(v);
    assert c == c[..n] + ([true] + c[n + 1..]);
    RunShort(c[..n], r);
    RunJoin(c[..n], [true] + c[n + 1..], r);
    RunShort(c[n + 1..], 0);
    RunJoin([true], c[n + 1..], RunOut(c[..n], r));
    assert RunOut([true], RunOut(c[..n], r)) == 0;
  }
}
