/**
 The 32-bit cached bit reader of the software decoder, against a plain bit cursor. A machine word is
 modelled as its 32 bits, most significant first.
 */
module CachedReader {
  import opened Bits
  import opened Syntax

  type Word = w: seq<bool> | |w| == 32 witness Zeros(32)

  /** `w << n`. */
  function Shl(w: Word, n: nat): (r: Word)
    requires n <= 32
  {
    w[n..] + Zeros(n)
  }

  /** `w >> (32 - n)`, as a number: the top `n` bits. */
  function Top(w: Word, n: nat): (v: nat)
    requires n <= 32
  {
    Val(w[..n])
  }

  /** `w | (b << (24 - at))`: byte `b` laid over the bits from `at` on. */
  function OrByte(w: Word, b: byte, at: nat): (r: Word)
    requires at <= 24
  {
    seq(32, i requires 0 <= i < 32 => w[i] || (at <= i < at + 8 && ToBits(b, 8)[i - at]))
  }

  /** The first `n` bits of `s`, zeros standing in for missing ones. */
  function Padded(s: seq<bool>, n: nat): (r: seq<bool>)
    ensures |r| == n
  {
    if n <= |s| then s[..n] else s + Zeros(n - |s|)
  }

  class SwBitstream {
    const data: array<byte>
    const size: nat
    var bytePos: nat
    var cache: Word
    var bitsLeft: int
    /** The bits still to be read: cached, then in the buffer. */
    ghost var stream: seq<bool>

    ghost predicate Valid()
      reads this, data
    {
      size <= data.Length && bytePos <= size && 0 <= bitsLeft <= 32 && Holds()
    }

    ghost predicate Holds()
      requires bytePos <= size <= data.Length && 0 <= bitsLeft <= 32
      reads this, data
    {
      AllZero(cache[bitsLeft..]) && stream == cache[..bitsLeft] + BitsOf(data[bytePos..size])
    }

    /** The cache holds 25 bits or more, or all there are. */
    ghost predicate Filled()
      requires Valid()
      reads this, data
    {
      bitsLeft > 24 || bytePos == size
    }

    /** `bs_init`. */
    constructor (bytes: array<byte>, n: nat)
      requires n <= bytes.Length
      ensures Valid() && Filled() && data == bytes && size == n && stream == BitsOf(bytes[..n])
    {
      data, size := bytes, n;
      bytePos, cache, bitsLeft, stream := 0, Zeros(32), 0, BitsOf(bytes[..n]);
      new;
      assert data[0..size] == data[..n] && cache[..0] + stream == stream;
      Refill();
    }

    /** `bs_refill`: the remaining bit string is untouched. */
    method Refill()
      requires Valid()
      modifies this`bytePos, this`cache, this`bitsLeft
      ensures Valid() && Filled() && bitsLeft >= old(bitsLeft)
    {
      while bitsLeft <= 24 && bytePos < size
        invariant Valid() && bitsLeft >= old(bitsLeft)
        decreases size - bytePos
      {
        ghost var tail := data[bytePos..size];
        RefillStep(cache, data[bytePos], bitsLeft, tail);
        cache := OrByte(cache, data[bytePos], bitsLeft);
        assert tail[1..] == data[bytePos + 1..size];
        bytePos, bitsLeft := bytePos + 1, bitsLeft + 8;
      }
    }

    /** Consumes `n` cached bits: `cache <<= n; bits_left -= n`. */
    method SkipFast(n: nat)
      requires Valid() && n <= 32
      modifies this`cache, this`bitsLeft, this`stream
      ensures n <= old(bitsLeft) ==> Valid() && bitsLeft == old(bitsLeft) - n && stream == old(stream)[n..]
    {
      ghost var b := bitsLeft;
      if n <= bitsLeft {
        SkipStep(cache, n, bitsLeft, BitsOf(data[bytePos..size]));
      }
      cache, bitsLeft := Shl(cache, n), bitsLeft - n;
      stream := if n <= |stream| then stream[n..] else [];
    }

    /**
     `ffmpeg_get_level_prefix`: the zeros before the next one, which is consumed too. A run of more
     than 24, or one that never ends, is only known to be long.
     */
    method LevelPrefix() returns (z: nat)
      requires Valid()
      modifies this`bytePos, this`cache, this`bitsLeft, this`stream
      ensures var n := LeadingZeros(old(stream));
              && (n <= 24 && n < |old(stream)| ==> z == n && Valid() && stream == old(stream)[n + 1..])
              && (n > 24 || n == |old(stream)| ==> z == 25)
    {
      hide BitsOf, AllZero, LeadingZeros;
      Refill();
      var lz := if cache != Zeros(32) then LeadingZeros(cache) else 32;
      CachePrefix(cache, bitsLeft, BitsOf(data[bytePos..size]), stream);
      if lz > 25 {
        lz := 25;
      }
      SkipFast(lz + 1);
      z := lz;
    }

    /** Cached bits are the next bits of the stream. */
    lemma CacheIs(n: int)
      requires Valid() && 0 <= n <= bitsLeft
      ensures n <= |stream| && cache[..n] == stream[..n]
    {
      hide BitsOf;
    }

    lemma CacheAll()
      requires Valid() && Filled()
      ensures bitsLeft > 24 || bitsLeft == |stream|
    {
      hide BitsOf;
    }

    /** After a refill, bits of the stream up to 25 are in the cache. */
    lemma Reaches(n: nat)
      requires Valid() && Filled() && n <= 25 && n <= |stream|
      ensures n <= bitsLeft
    {
      hide BitsOf;
    }

    /** `bs_show`: the next `n` bits, zeros past the end. */
    method Show(n: nat) returns (v: nat)
      requires Valid() && 1 <= n <= 25
      modifies this`bytePos, this`cache, this`bitsLeft
      ensures Valid() && Filled() && v == Val(Padded(stream, n))
    {
      Refill();
      CacheShows(cache, bitsLeft, BitsOf(data[bytePos..size]), n);
      v := Top(cache, n);
    }

    /** `bs_read1`: the next bit; 0 at the end. */
    method Read1() returns (bit: nat)
      requires Valid()
      modifies this`bytePos, this`cache, this`bitsLeft, this`stream
      ensures Valid()
      ensures if |old(stream)| == 0 then bit == 0 && stream == []
              else bit == (if old(stream)[0] then 1 else 0) && stream == old(stream)[1..]
    {
      if bitsLeft <= 0 {
        Refill();
        if bitsLeft <= 0 {
          return 0;
        }
      }
      OneTop(cache);
      bit := Top(cache, 1);
      SkipFast(1);
    }

    /** `bs_read`: the next `n` bits, or as many as there are, through the fast and the straddling path. */
    method Read(n: nat) returns (v: nat)
      requires Valid() && n <= 31
      modifies this`bytePos, this`cache, this`bitsLeft, this`stream
      ensures Valid()
      ensures var m := if n <= |old(stream)| then n else |old(stream)|;
              v == Val(old(stream)[..m]) && stream == old(stream)[m..]
    {
      if n == 0 {
        return 0;
      }
      Refill();
      if n > bitsLeft {
        v := ReadStraddling(n);
        return;
      }
      assert cache[..n] == stream[..n];
      v := Top(cache, n);
      SkipFast(n);
    }

    /** The straddling path of `bs_read`: empty the cache, refill, take the rest. */
    method ReadStraddling(n: nat) returns (v: nat)
      requires Valid() && Filled() && bitsLeft < n <= 31
      modifies this`bytePos, this`cache, this`bitsLeft, this`stream
      ensures Valid()
      ensures var m := if n <= |old(stream)| then n else |old(stream)|;
              v == Val(old(stream)[..m]) && stream == old(stream)[m..]
    {
      hide Val, Pow2, Holds;
      ghost var s := stream;
      var have := bitsLeft;
      var hi := Top(cache, have);
      CacheIs(have);
      CacheAll();
      Drain();
      Refill();
      ghost var t := stream;
      var left := n - have;
      if left > bitsLeft {
        left := bitsLeft;
      }
      var lo := Top(cache, left);
      CacheIs(left);
      CacheAll();
      SkipFast(left);
      v := hi * Pow2(left) + lo;
      TwoParts(s, have, left);
    }

    /** Drops every cached bit. */
    method Drain()
      requires Valid()
      modifies this`cache, this`bitsLeft, this`stream
      ensures Valid() && bitsLeft == 0 && old(bitsLeft) <= |old(stream)| && stream == old(stream)[old(bitsLeft)..]
    {
      stream := stream[bitsLeft..];
      cache, bitsLeft := Zeros(32), 0;
      assert cache[..0] + BitsOf(data[bytePos..size]) == stream;
    }

    /** `bs_eof`. */
    predicate Eof()
      requires Valid()
      reads this, data
      ensures Eof() <==> stream == []
    {
      bitsLeft <= 0 && bytePos >= size
    }

    /**
     `bs_read_ue`: a codeword with at most 30 leading zeros that lies inside the buffer is read as the
     plain cursor reads it, whether it sits in the cache, straddles a refill or starts with a cache of
     zeros.
     */
    method ReadUe() returns (v: nat)
      requires Valid()
      modifies this`bytePos, this`cache, this`bitsLeft, this`stream
      ensures Valid()
      ensures ReadUE(old(stream)).Got? ==> Got(v, stream) == ReadUE(old(stream))
    {
      hide Val, Pow2, BitsOf, AllZero, LeadingZeros, ReadUE;
      ghost var s := stream;
      Refill();
      if bitsLeft <= 0 {
        assert Eof();
        ZerosShort(s);
        return 0;
      }
      if cache != Zeros(32) {
        var lz := LeadingZeros(cache);
        CacheZeros(cache, bitsLeft, BitsOf(data[bytePos..size]), s);
        if 2 * lz + 1 <= bitsLeft {
          var code := Top(cache, 2 * lz + 1);
          assert cache[..2 * lz + 1] == s[..2 * lz + 1];
          UeWhole(s, lz);
          SkipFast(2 * lz + 1);
          return code - 1;
        }
        SkipFast(lz + 1);
        v := ReadUeSuffix(s, lz);
        return;
      }
      v := ReadUeSlowly();
    }

    /** After `lz` zeros and a one of `s`: the suffix. */
    method ReadUeSuffix(ghost s: seq<bool>, lz: nat) returns (v: nat)
      requires Valid() && lz <= 31 && lz < |s| && LeadingZeros(s) == lz && stream == s[lz + 1..]
      modifies this`bytePos, this`cache, this`bitsLeft, this`stream
      ensures Valid()
      ensures ReadUE(s).Got? ==> Got(v, stream) == ReadUE(s)
    {
      hide Val, Pow2, BitsOf, AllZero, LeadingZeros, ReadUE;
      UeParts(s, lz);
      if lz == 0 {
        return 0;
      }
      var suffix := Read(lz);
      v := Pow2(lz) - 1 + suffix;
    }

    method ReadUeSlowly() returns (v: nat)
      requires Valid()
      modifies this`bytePos, this`cache, this`bitsLeft, this`stream
      ensures Valid()
      ensures ReadUE(old(stream)).Got? ==> Got(v, stream) == ReadUE(old(stream))
    {
      hide Val, Pow2, BitsOf, AllZero, LeadingZeros, ReadUE, Valid, Holds;
      ghost var s := stream;
      var zeros := 0;
      while !Eof()
        invariant Valid() && zeros <= 31 && zeros <= |s| && stream == s[zeros..]
        invariant forall i :: 0 <= i < zeros ==> !s[i]
        decreases |stream|
      {
        var bit := Read1();
        if bit != 0 {
          LeadingZerosIs(s, zeros);
          v := ReadUeSuffix(s, zeros);
          return;
        }
        zeros := zeros + 1;
        if zeros > 31 {
          ManyZerosShort(s, zeros);
          return 0;
        }
      }
      ZerosShort(s);
      if zeros == 0 {
        return 0;
      }
      var suffix := Read(zeros);
      v := Pow2(zeros) - 1 + suffix;
    }

    /** `bs_read_se`. */
    method ReadSe() returns (v: int)
      requires Valid()
      modifies this`bytePos, this`cache, this`bitsLeft, this`stream
      ensures Valid()
      ensures Syntax.Read(SE, old(stream)).Got? ==> Got(v, stream) == Syntax.Read(SE, old(stream))
    {
      hide ReadUE, Valid, Holds;
      var code := ReadUe();
      if code % 2 == 1 {
        v := (code + 1) / 2;
      } else {
        var half: int := code / 2;
        v := -half;
      }
    }
  }

  lemma RefillStep(w: Word, b: byte, at: int, tail: seq<byte>)
    requires 0 <= at <= 24 && AllZero(w[at..]) && |tail| > 0 && tail[0] == b
    ensures var r := OrByte(w, b, at);
      AllZero(r[at + 8..]) && r[..at + 8] + BitsOf(tail[1..]) == w[..at] + BitsOf(tail)
  {
    hide *;
    RefillWord(w, b, at);
    ByteBits(b);
    BitsOfConcat([b], tail[1..]);
    assert [b] + tail[1..] == tail;
    Joined(w[..at], ToBits(b, 8), BitsOf(tail[1..]));
  }

  lemma TwoParts(s: seq<bool>, i: nat, j: nat)
    requires i + j <= |s|
    ensures Val(s[..i]) * Pow2(j) + Val(s[i..][..j]) == Val(s[..i + j]) && s[i..][j..] == s[i + j..]
  {
    hide Val, Pow2;
    ValConcat(s[..i], s[i..][..j]);
    assert s[..i] + s[i..][..j] == s[..i + j];
  }

  lemma RefillWord(w: Word, b: byte, at: int)
    requires 0 <= at <= 24 && AllZero(w[at..])
    ensures var r := OrByte(w, b, at); AllZero(r[at + 8..]) && r[..at + 8] == w[..at] + ToBits(b, 8)
  {
    hide ToBits;
    assert forall i :: at <= i < 32 ==> w[i] == w[at..][i - at];
  }

  lemma SkipStep(w: Word, n: nat, at: int, tail: seq<bool>)
    requires n <= at <= 32 && AllZero(w[at..])
    ensures var r := Shl(w, n); AllZero(r[at - n..]) && r[..at - n] + tail == (w[..at] + tail)[n..]
  {
    var r := Shl(w, n);
    assert r[at - n..] == w[at..] + Zeros(n);
    assert r[..at - n] == w[n..at];
  }

  lemma CacheShows(w: Word, at: int, tail: seq<bool>, n: nat)
    requires 0 <= at <= 32 && AllZero(w[at..]) && n <= 25 && (at > 24 || |tail| == 0)
    ensures w[..n] == Padded(w[..at] + tail, n)
  {
    if n > at {
      forall i | at <= i < n
        ensures !w[i]
      {
        assert w[at..][i - at] == w[i];
      }
    }
  }

  lemma OneTop(w: Word)
    ensures Top(w, 1) == if w[0] then 1 else 0
  {
    assert w[..1] == [w[0]] + [];
    ValCons(w[0], []);
  }

  /** Nothing but zeros holds no codeword. */
  lemma ZerosShort(s: seq<bool>)
    requires AllZero(s)
    ensures ReadUE(s).Short?
  {
    LeadingZerosIs(s, |s|);
  }

  lemma ManyZerosShort(s: seq<bool>, n: nat)
    requires 31 <= n <= |s| && forall i :: 0 <= i < n ==> !s[i]
    ensures ReadUE(s).Short?
  {
    var z := LeadingZeros(s);
    assert !(z < n);
  }

  /** A set bit in the cache is a set bit of the stream. */
  lemma CacheZeros(w: Word, at: int, tail: seq<bool>, s: seq<bool>)
    requires 0 <= at <= 32 && AllZero(w[at..]) && w != Zeros(32) && s == w[..at] + tail
    ensures LeadingZeros(w) < at && LeadingZeros(s) == LeadingZeros(w)
  {
    var z := LeadingZeros(w);
    var none := Zeros(32);
    assert z < 32 || w == none;
    assert forall i :: at <= i < 32 ==> w[i] == w[at..][i - at];
    LeadingZerosIs(s, z);
  }

  lemma CachePrefix(w: Word, at: int, tail: seq<bool>, s: seq<bool>)
    requires 0 <= at <= 32 && AllZero(w[at..]) && s == w[..at] + tail && (at > 24 || |tail| == 0)
    ensures var n := LeadingZeros(s);
            && (n <= 24 && n < |s| ==> w != Zeros(32) && LeadingZeros(w) == n < at)
            && (n > 24 || n == |s| ==> w == Zeros(32) || LeadingZeros(w) > 24)
  {
    var n := LeadingZeros(s);
    if w == Zeros(32) {
      assert forall i :: 0 <= i < at ==> !s[i];
      assert n < |s| ==> n >= at;
    } else {
      CacheZeros(w, at, tail, s);
    }
  }

  lemma UeParts(s: seq<bool>, z: nat)
    requires z < |s| && LeadingZeros(s) == z
    ensures ReadUE(s).Got? ==>
      |s| >= 2 * z + 1 && ReadUE(s) == Got(Pow2(z) - 1 + Val(s[z + 1..][..z]), s[z + 1..][z..])
    ensures z == 0 ==> ReadUE(s) == Got(0, s[1..])
  {
    hide LeadingZeros;
    if ReadUE(s).Got? {
      assert s[z + 1..][..z] == s[z + 1..2 * z + 1];
      assert s[z + 1..][z..] == s[2 * z + 1..];
    }
  }

  /** The whole codeword, read as a number, is one more than its value. */
  lemma UeWhole(s: seq<bool>, z: nat)
    requires 2 * z + 1 <= |s| && LeadingZeros(s) == z
    ensures Val(s[..2 * z + 1]) >= 1
    ensures ReadUE(s).Got? ==> ReadUE(s) == Got(Val(s[..2 * z + 1]) - 1, s[2 * z + 1..])
  {
    hide Val, Pow2, LeadingZeros;
    var m, zeros := s[z + 1..2 * z + 1], s[..z];
    WholeSplits(s, zeros, m, z);
    UeValue(zeros, m, z);
  }

  lemma WholeSplits(s: seq<bool>, zeros: seq<bool>, m: seq<bool>, z: nat)
    requires 2 * z + 1 <= |s| && s[z] && m == s[z + 1..2 * z + 1] && zeros == s[..z]
    ensures s[..2 * z + 1] == zeros + ([true] + m)
  {}

  lemma UeValue(zeros: seq<bool>, m: seq<bool>, z: nat)
    requires AllZero(zeros) && |m| == z
    ensures Val(zeros + ([true] + m)) == Pow2(z) + Val(m)
  {
    hide Val, Pow2;
    ValConcat(zeros, [true] + m);
    ValZeros(zeros);
    ValCons(true, m);
  }
}
