/**
 The one-bit-at-a-time reader over an unescaped parameter set, and the strict unescape that fills it.
 */
module BitReader {
  import opened Bits
  import opened Syntax
  import opened Emulation

  const CAPACITY: nat := 1024

  class SpsBits {
    const bytes: array<byte>
    var bits: nat
    var pos: nat
    var bad: bool
    /** The bits up to the end mark. */
    ghost var content: seq<bool>

    ghost predicate Valid()
      reads this, bytes
    {
      bytes.Length == CAPACITY && pos <= bits == |content| <= 8 * CAPACITY && Spelt()
    }

    /** The buffer spells `content`. */
    ghost predicate Spelt()
      requires bytes.Length == CAPACITY && |content| <= 8 * CAPACITY
      reads this`content, bytes
    {
      forall i :: 0 <= i < |content| ==> content[i] == ByteBit(bytes[i / 8], i % 8)
    }

    /** The bits still to be read. */
    ghost function Rest(): (s: seq<bool>)
      requires pos <= |content|
      reads this
      ensures |s| == |content| - pos
    {
      content[pos..]
    }

    constructor ()
      ensures Valid() && fresh(bytes) && bits == 0 && !bad
    {
      bytes := new byte[CAPACITY](_ => 0);
      bits, pos, bad, content := 0, 0, false, [];
    }

    /** Strict unescape of a NAL payload (everything after the header byte). */
    method Unescaped(payload: seq<byte>) returns (ok: bool)
      requires Valid() && |payload| <= CAPACITY
      modifies this, bytes
      ensures Valid() && pos == 0 && !bad
      ensures ok <==> Unescape(payload, 0).Some?
      ensures ok ==> content == BitsOf(Unescape(payload, 0).value)
    {
      var i, n, zeros := 0, 0, 0;
      bits, pos, bad, content := 0, 0, false, [];
      assert payload[0..] == payload && bytes[..0] == [];
      PrependNothing(Unescape(payload, 0));
      while i < |payload|
        invariant 0 <= i <= |payload| && n <= i && zeros <= 2 && bits == pos == 0 && !bad && content == []
        invariant Unescape(payload, 0) == Prepend(bytes[..n], Unescape(payload[i..], zeros))
      {
        ghost var left, done := payload[i..], bytes[..n];
        assert left[1..] == payload[i + 1..];
        var byte := payload[i];
        i := i + 1;
        if zeros == 2 && byte == 3 {
          if i >= |payload| || payload[i] > 3 {
            ok := false;
            return;
          }
          zeros := 0;
          continue;
        }
        if zeros == 2 && byte < 3 {
          ok := false;
          return;
        }
        bytes[n] := byte;
        n := n + 1;
        zeros := if byte == 0 then zeros + 1 else 0;
        assert bytes[..n] == done + [byte];
        PrependTwice(done, [byte], Unescape(payload[i..], zeros));
      }
      assert payload[i..] == [] && bytes[..n] + [] == bytes[..n];
      bits, content := 8 * n, BitsOf(bytes[..n]);
      ok := true;
    }

    /** `read_bits`: fixed-width read; too few bits left only marks the reader bad. */
    method ReadBits(count: nat) returns (value: nat)
      requires Valid()
      modifies this`pos, this`bad
      ensures Valid()
      ensures if count > 32 || count > |old(Rest())|
              then bad && value == 0 && pos == old(pos)
              else bad == old(bad) && pos == old(pos) + count && value == Val(old(Rest())[..count])
                   && Rest() == old(Rest())[count..]
    {
      value := 0;
      if count > 32 || count > bits - pos {
        bad := true;
        return;
      }
      ghost var s := Rest();
      var i := 0;
      while i < count
        invariant 0 <= i <= count && pos == old(pos) + i && bad == old(bad)
        invariant value == Val(s[..i])
      {
        assert s[i] == content[pos];
        assert s[..i + 1][..i] == s[..i];
        value := 2 * value + (if ByteBit(bytes[pos / 8], pos % 8) then 1 else 0);
        i, pos := i + 1, pos + 1;
      }
    }

    /** `read_bits(b,1)`. */
    method ReadOne() returns (bit: nat)
      requires Valid()
      modifies this`pos, this`bad
      ensures Valid()
      ensures if old(pos) < bits
              then bad == old(bad) && pos == old(pos) + 1 && bit == (if content[old(pos)] then 1 else 0)
              else bad && bit == 0 && pos == old(pos)
    {
      ghost var s := Rest();
      bit := ReadBits(1);
      if |s| > 0 {
        SingleBit(s);
      }
    }

    /** `read_ue`: one Exp-Golomb codeword; a bad reader stays where it is and yields 0. */
    method ReadUe() returns (value: nat)
      requires Valid()
      modifies this`pos, this`bad
      ensures Valid()
      ensures old(bad) ==> bad && value == 0 && pos == old(pos)
      ensures !old(bad) ==> match ReadUE(old(Rest())) {
                case Short => bad
                case Got(v, rest) => !bad && value == v && Rest() == rest
              }
    {
      hide Spelt, Val, Pow2, ReadUE;
      if bad {
        return 0;
      }
      ghost var p := pos;
      var zeros := 0;
      var one := ReadOne();
      while !bad && one == 0
        invariant Valid() && zeros <= 30 && p + zeros <= |content|
        invariant forall i :: p <= i < p + zeros ==> !content[i]
        invariant bad ==> p + zeros == |content|
        invariant !bad ==> pos == p + zeros + 1 && one == (if content[p + zeros] then 1 else 0)
        decreases 30 - zeros, !bad
      {
        zeros := zeros + 1;
        if zeros > 30 {
          bad := true;
          TooManyZeros(content[p..]);
          return 0;
        }
        one := ReadOne();
      }
      UeIs(content[p..], zeros);
      if bad {
        return 0;
      }
      var suffix := ReadBits(zeros);
      assert !bad ==> content[p + zeros + 1..][..zeros] == content[p..][zeros + 1..2 * zeros + 1];
      value := Pow2(zeros) - 1 + suffix;
    }

    /** Reading field by field has come to `vals` on the way to the walk `w`; a bad reader has ended it. */
    ghost predicate Tracks(g: Table, vals: seq<int>, w: Walked)
      requires pos <= |content|
      reads this
    {
      if bad then w.Starved? && w.vals == vals else w == Walk(g, vals, Rest())
    }

    /** `read_ue` as the next step of a walk. */
    method Ue(ghost g: Table, ghost vals: seq<int>, ghost w: Walked) returns (value: nat, ghost next: seq<int>)
      requires Valid() && Tracks(g, vals, w) && (!bad ==> g(vals) == Some(UE))
      modifies this`pos, this`bad
      ensures Valid() && Tracks(g, next, w) && (old(bad) ==> bad)
      ensures next == if bad then vals else vals + [value]
    {
      hide Spelt, ReadUE;
      value := ReadUe();
      next := if bad then vals else vals + [value];
    }

    /** `read_bits` as the next step of a walk. */
    method U(n: nat, ghost g: Table, ghost vals: seq<int>, ghost w: Walked) returns (value: nat, ghost next: seq<int>)
      requires 1 <= n <= 32
      requires Valid() && Tracks(g, vals, w) && (!bad ==> g(vals) == Some(Field.U(n)))
      modifies this`pos, this`bad
      ensures Valid() && Tracks(g, next, w) && (old(bad) ==> bad)
      ensures !old(bad) && |old(Rest())| >= n ==> !bad && |Rest()| == |old(Rest())| - n
      ensures n == 1 ==> value <= 1
      ensures next == if bad then vals else vals + [value]
    {
      assert Pow2(1) == 2;
      hide Spelt, Val;
      ghost var s := Rest();
      value := ReadBits(n);
      if |s| >= n {
        ValBound(s[..n]);
      }
      next := if bad then vals else vals + [value];
    }

    /** `read_se` as the next step of a walk. */
    method Se(ghost g: Table, ghost vals: seq<int>, ghost w: Walked) returns (value: int, ghost next: seq<int>)
      requires Valid() && Tracks(g, vals, w) && (!bad ==> g(vals) == Some(SE))
      modifies this`pos, this`bad
      ensures Valid() && Tracks(g, next, w) && (old(bad) ==> bad)
      ensures next == if bad then vals else vals + [value]
    {
      hide Spelt, ReadUE;
      var code: int := ReadUe();
      value := if bad then 0 else if code % 2 == 1 then (code + 1) / 2 else -(code / 2);
      next := if bad then vals else vals + [value];
    }

    /** Moves the end mark down, as `in.bits=stop` does. */
    method SetEnd(stop: nat)
      requires Valid() && pos <= stop <= bits
      modifies this`bits, this`content
      ensures Valid() && bits == stop && content == old(content)[..stop]
    {
      bits, content := stop, content[..stop];
    }

    /** `rbsp_stop_bit`: the last set bit. */
    method StopBit() returns (ok: bool, stop: nat)
      requires Valid()
      ensures ok == !AllZero(content)
      ensures ok ==> stop < |content| && content[stop] && AllZero(content[stop + 1..])
    {
      var p := bits;
      while p > 0
        invariant 0 <= p <= bits
        invariant AllZero(content[p..])
      {
        var bit := p - 1;
        assert content[bit] == ByteBit(bytes[bit / 8], bit % 8);
        if ByteBit(bytes[bit / 8], bit % 8) {
          return true, bit;
        }
        assert content[bit..] == [content[bit]] + content[p..];
        p := bit;
      }
      ok, stop := false, 0;
      assert content[0..] == content;
    }
  }

  lemma PrependNothing(r: Option<seq<byte>>)
    ensures Prepend([], r) == r
  {
    if r.Some? {
      assert [] + r.value == r.value;
    }
  }

  lemma PrependTwice(a: seq<byte>, b: seq<byte>, r: Option<seq<byte>>)
    ensures Prepend(a, Prepend(b, r)) == Prepend(a + b, r)
  {
    if r.Some? {
      assert a + (b + r.value) == (a + b) + r.value;
    }
  }

  lemma UeIs(s: seq<bool>, z: nat)
    requires z <= 30 && z <= |s| && (forall i :: 0 <= i < z ==> !s[i]) && (z < |s| ==> s[z])
    ensures ReadUE(s) == if |s| < 2 * z + 1 then Short
                         else Got(Pow2(z) - 1 + Val(s[z + 1..2 * z + 1]), s[2 * z + 1..])
  {
    LeadingZerosIs(s, z);
  }

  lemma TooManyZeros(s: seq<bool>)
    requires |s| > 30 && forall i :: 0 <= i < 31 ==> !s[i]
    ensures ReadUE(s).Short?
  {
    assert LeadingZeros(s) > 30;
  }

  lemma SingleBit(s: seq<bool>)
    requires |s| > 0
    ensures Val(s[..1]) == if s[0] then 1 else 0
  {
    assert s[..1] == [s[0]];
    assert [s[0]][..0] == [];
  }
}
