/**
 Coefficient levels: the table-driven decoder against the sequential derivation of section 9.2.2 of
 ITU-T H.264.
 */
module Levels {
  import opened Bits
  import opened Syntax
  import opened CachedReader

  /** The cast to a 16-bit signed integer. */
  function S16(x: int): (r: s16)
    ensures (x - r) % 0x1_0000 == 0
  {
    (x + 0x8000) % 0x1_0000 - 0x8000
  }

  // ----- section 9.2.2 -----

  datatype Coded = Coded(code: nat, rest: seq<bool>) | TooLong | OutOfBits

  /** levelSuffixSize, section 9.2.2.1. */
  function SuffixSize(prefix: nat, sl: nat): (n: nat) {
    if prefix == 14 && sl == 0 then 4 else if prefix >= 15 then prefix - 3 else sl
  }

  /** levelCode before the correction of the first coefficient, from its prefix and suffix. */
  function LevelCode(prefix: nat, sl: nat, suffix: nat): (c: nat) {
    EscapeBase(prefix);
    (if prefix < 15 then prefix else 15) * Pow2(sl) + suffix
    + (if prefix >= 15 && sl == 0 then 15 else 0)
    + (if prefix >= 16 then Pow2(prefix - 3) - 4096 else 0)
  }

  /** level_prefix and level_suffix; a prefix of more than 28 zeros is refused. */
  function ReadLevelCode(sl: nat, s: seq<bool>): (r: Coded) {
    var z := LeadingZeros(s);
    if z > 28 then TooLong
    else if |s| < z + 1 + SuffixSize(z, sl) then OutOfBits
    else
      var n := SuffixSize(z, sl);
      Coded(LevelCode(z, sl, Val(s[z + 1..z + 1 + n])), s[z + 1 + n..])
  }

  lemma EscapeBase(z: nat)
    ensures z >= 16 ==> Pow2(z - 3) >= 4096
  {
    if z >= 16 {
      Pow2Mono(12, z - 3);
      assert Pow2(12) == 4096;
    }
  }

  /** levelVal of a levelCode: even codes are positive, odd ones negative. */
  function LevelVal(code: int): (v: int) {
    if code % 2 == 0 then (code + 2) / 2 else (-code - 1) / 2
  }

  function Abs(v: int): (a: nat) {
    if v < 0 then -v else v
  }

  /** suffixLength after a level. */
  function NextSuffixLength(sl: nat, level: int): (r: nat) {
    var n := if sl == 0 then 1 else sl;
    if Abs(level) > 3 * Pow2(n - 1) && n < 6 then n + 1 else n
  }

  datatype Decoded = Levels(levels: seq<int>, rest: seq<bool>) | Refused | Lacking

  /** The levels after `acc`; `t1` of the `total` are trailing ones. */
  function LevelsFrom(total: nat, t1: nat, acc: seq<int>, sl: nat, s: seq<bool>): (r: Decoded)
    decreases total - |acc|
  {
    if |acc| >= total then Levels(acc, s) else
      match ReadLevelCode(sl, s)
      case TooLong => Refused
      case OutOfBits => Lacking
      case Coded(c, rest) =>
        var level := LevelVal(if |acc| == t1 && t1 < 3 then c + 2 else c);
        LevelsFrom(total, t1, acc + [level], NextSuffixLength(sl, level), rest)
  }

  function Signs(s: seq<bool>): (r: seq<int>)
    ensures |r| == |s|
  {
    seq(|s|, i requires 0 <= i < |s| => if s[i] then -1 else 1)
  }

  function FirstSuffixLength(total: nat, t1: nat): (r: nat) {
    if total > 10 && t1 < 3 then 1 else 0
  }

  function SpecLevels(total: nat, t1: nat, s: seq<bool>): (r: Decoded) {
    if |s| < t1 then Lacking else
      LevelsFrom(total, t1, Signs(s[..t1]), FirstSuffixLength(total, t1), s[t1..])
  }

  /** No coefficient after `acc` has a level_prefix above 15. */
  predicate ShortPrefixes(total: nat, t1: nat, acc: seq<int>, sl: nat, s: seq<bool>)
    decreases total - |acc|
  {
    |acc| >= total
    || (LeadingZeros(s) <= 15
        && (ReadLevelCode(sl, s).Coded? ==>
              var r := ReadLevelCode(sl, s);
              var level := LevelVal(if |acc| == t1 && t1 < 3 then r.code + 2 else r.code);
              ShortPrefixes(total, t1, acc + [level], NextSuffixLength(sl, level), r.rest)))
  }

  predicate Fits(levels: seq<int>) {
    forall k :: 0 <= k < |levels| ==> S16(levels[k]) == levels[k]
  }

  /** With prefixes of at most 15 no level is cut by the 16-bit cast. */
  lemma {:induction false} ShortPrefixesFit(total: nat, t1: nat, acc: seq<int>, sl: nat, s: seq<bool>)
    requires ShortPrefixes(total, t1, acc, sl, s) && Fits(acc) && sl <= 6
    ensures LevelsFrom(total, t1, acc, sl, s).Levels? ==> Fits(LevelsFrom(total, t1, acc, sl, s).levels)
    decreases total - |acc|
  {
    hide ReadLevelCode, LevelVal, NextSuffixLength, LeadingZeros, S16;
    if |acc| < total && ReadLevelCode(sl, s).Coded? {
      var r := ReadLevelCode(sl, s);
      var level := LevelVal(if |acc| == t1 && t1 < 3 then r.code + 2 else r.code);
      ShortCode(sl, s);
      ShortLevel(r.code, sl, level, if |acc| == t1 && t1 < 3 then 2 else 0);
      assert Fits(acc + [level]);
      ShortPrefixesFit(total, t1, acc + [level], NextSuffixLength(sl, level), r.rest);
    }
  }

  lemma ShortLevel(code: nat, sl: nat, level: int, extra: nat)
    requires code <= 15 * 64 + 4096 + 15 && extra <= 2 && level == LevelVal(code + extra) && sl <= 6
    ensures S16(level) == level && NextSuffixLength(sl, level) <= 6
  {}

  lemma CodeBound(sl: nat, s: seq<bool>)
    requires sl <= 6 && ReadLevelCode(sl, s).Coded?
    ensures ReadLevelCode(sl, s).code < 0x800_0000
  {
    hide LeadingZeros, Val, Pow2;
    var z := LeadingZeros(s);
    var n := SuffixSize(z, sl);
    ValBound(s[z + 1..z + 1 + n]);
    Pow2Mono(n, 25);
    Pow2Mono(if z >= 16 then z - 3 else 0, 25);
    Pow2Mono(sl, 6);
    SmallPowers();
    ScaleMono(if z < 15 then z else 15, Pow2(sl));
  }

  lemma ShortCode(sl: nat, s: seq<bool>)
    requires sl <= 6 && LeadingZeros(s) <= 15 && ReadLevelCode(sl, s).Coded?
    ensures ReadLevelCode(sl, s).code <= 15 * 64 + 4096 + 15
  {
    hide LeadingZeros, Val, Pow2;
    var z := LeadingZeros(s);
    var n := SuffixSize(z, sl);
    ValBound(s[z + 1..z + 1 + n]);
    Pow2Mono(n, 12);
    Pow2Mono(sl, 6);
    SmallPowers();
    ScaleMono(if z < 15 then z else 15, Pow2(sl));
  }

  lemma SmallPowers()
    ensures Pow2(0) == 1 && Pow2(1) == 2 && Pow2(2) == 4 && Pow2(4) == 16 && Pow2(6) == 64
    ensures Pow2(8) == 0x100 && Pow2(12) == 4096 && Pow2(16) == 0x1_0000
    ensures Pow2(25) == 0x200_0000
  {
    Pow2Add(8, 8);
    Pow2Add(12, 12);
    Pow2Step(24);
  }

  lemma ScaleMono(m: nat, p: nat)
    requires m <= 15 && p <= 64
    ensures m * p <= 15 * 64
  {
    assert m * p <= 15 * p;
  }

  // ----- the lookup table -----

  /** `av_log2_c`. */
  method AvLog2(v0: nat) returns (n: nat)
    requires v0 < 0x1_0000_0000
    ensures n == Log2(v0)
  {
    hide Log2, Pow2;
    SmallPowers();
    var v := v0;
    n := 0;
    if v / 0x1_0000 != 0 {
      LogShift(v, 16, 0x1_0000);
      v, n := v / 0x1_0000, n + 16;
    }
    HighBits(v, 0x100);
    if v / 0x100 % 0x100 != 0 {
      LogShift(v, 8, 0x100);
      v, n := v / 0x100, n + 8;
    }
    HighBits(v, 0x10);
    if v / 0x10 % 0x10 != 0 {
      LogShift(v, 4, 0x10);
      v, n := v / 0x10, n + 4;
    }
    HighBits(v, 4);
    if v / 4 % 4 != 0 {
      LogShift(v, 2, 4);
      v, n := v / 4, n + 2;
    }
    LogSmall(v);
    if v / 2 % 2 != 0 {
      n := n + 1;
    }
  }

  lemma HighBits(v: nat, p: nat)
    requires 0 < p && v < p * p
    ensures v / p < p && (v / p % p != 0 <==> v >= p)
  {
    DivUnique(v, p, v / p, v % p);
    if v / p >= p {
      MulMono(p, v / p, p);
      assert false;
    }
    DivUnique(v / p, p, 0, v / p);
    if v < p {
      DivUnique(v, p, 0, v);
    }
  }

  lemma MulMono(a: nat, b: nat, c: nat)
    requires a <= b
    ensures a * c <= b * c
  {}

  lemma LogSmall(v: nat)
    requires v < 4
    ensures Log2(v) == if v / 2 % 2 != 0 then 1 else 0
  {}

  lemma {:induction false} LogShift(v: nat, k: nat, p: nat)
    requires p == Pow2(k) && v >= p
    ensures Log2(v) == k + Log2(v / p)
  {
    if k > 0 {
      LogShift(v / 2, k - 1, Pow2(k - 1));
      DivDiv(v, Pow2(k - 1));
    }
  }

  /** What the leading eight bits say about a level: the level itself, or only its prefix. */
  ghost predicate TabEntry(sl: nat, b: seq<bool>, level: int, len: int) {
    var z := LeadingZeros(b);
    if z + 1 + sl <= |b| then
      level == LevelVal(LevelCode(z, sl, Val(b[z + 1..z + 1 + sl]))) && level < 100 && len == z + 1 + sl
    else
      level == 100 + z && len == if z < |b| then z + 1 else z
  }

  /** The table of `cavlc_level_tab`. */
  ghost predicate Tabulates(tab: array3<int>)
    reads tab
  {
    && tab.Length0 == 7 && tab.Length1 == 256 && tab.Length2 == 2
    && forall sl, i :: 0 <= sl < 7 && 0 <= i < 256 ==> TabEntry(sl, ToBits(i, 8), tab[sl, i, 0], tab[sl, i, 1])
  }

  /** `ffmpeg_init_level_tab`. */
  method InitLevelTab(tab: array3<int>)
    requires tab.Length0 == 7 && tab.Length1 == 256 && tab.Length2 == 2
    modifies tab
    ensures Tabulates(tab)
  {
    hide TabEntry, ToBits;
    for sl := 0 to 7
      invariant forall l, i :: 0 <= l < sl && 0 <= i < 256 ==> TabEntry(l, ToBits(i, 8), tab[l, i, 0], tab[l, i, 1])
    {
      for i := 0 to 256
        invariant forall l, j :: 0 <= l < sl && 0 <= j < 256 ==> TabEntry(l, ToBits(j, 8), tab[l, j, 0], tab[l, j, 1])
        invariant forall j :: 0 <= j < i ==> TabEntry(sl, ToBits(j, 8), tab[sl, j, 0], tab[sl, j, 1])
      {
        var level, len := LevelEntry(sl, i);
        tab[sl, i, 0], tab[sl, i, 1] := level, len;
      }
    }
  }

  /** One entry, for the eight bits of `i`. */
  method LevelEntry(sl: nat, i: nat) returns (level: int, len: int)
    requires sl < 7 && i < 256
    ensures TabEntry(sl, ToBits(i, 8), level, len)
    ensures -0x80 <= level < 0x80 && -0x80 <= len < 0x80
  {
    hide Log2, ToBits, LeadingZeros, Pow2, Val, TabEntry, LevelVal;
    var log2 := AvLog2(2 * i);
    var log := AvLog2(i);
    ByteZeros(i, log, log2);
    var prefix := 8 - log2;
    if prefix + 1 + sl <= 8 {
      ByteSuffix(i, sl, prefix);
      var code := prefix * Pow2(sl) + i / Pow2(log - sl) - Pow2(sl);
      level := SignedLevel(code);
      len := prefix + 1 + sl;
      EntryShort(sl, i, prefix, level, code);
    } else if prefix + 1 <= 8 {
      level, len := prefix + 100, prefix + 1;
      EntryPrefix(sl, i, prefix);
    } else {
      level, len := 8 + 100, 8;
      EntryPrefix(sl, i, prefix);
    }
  }

  /** `(((2 + c) >> 1) ^ mask) - mask` with `mask = -(c & 1)`. */
  function SignedLevel(c: int): (v: int)
    ensures c >= 0 ==> v == LevelVal(c)
  {
    if c % 2 == 1 then -((2 + c) / 2) else (2 + c) / 2
  }

  lemma ByteZeros(i: nat, log: nat, log2: nat)
    requires i < 256 && log == Log2(i) && log2 == Log2(2 * i)
    ensures log2 <= 8 && LeadingZeros(ToBits(i, 8)) == 8 - log2 && log2 == if i > 0 then log + 1 else 0
  {
    var b := ToBits(i, 8);
    assert Pow2(8) == 256;
    ValToBits(i, 8);
    if i == 0 {
      ValZeros(b);
      LeadingZerosIs(b, 8);
    } else {
      NumberZeros(i, log);
    }
  }

  lemma NumberZeros(i: nat, log: nat)
    requires 0 < i < 256 && log == Log2(i)
    ensures log < 8 && LeadingZeros(ToBits(i, 8)) == 7 - log
  {
    hide ToBits, LeadingZeros, Val, Pow2, Log2;
    var b := ToBits(i, 8);
    SmallPowers();
    ValToBits(i, 8);
    var z := LeadingZeros(b);
    ValZeros(b);
    LeadingBounds(b, z);
    Log2Unique(i, 7 - z);
  }

  lemma LeadingBounds(b: seq<bool>, z: nat)
    requires !AllZero(b) && z == LeadingZeros(b)
    ensures z < |b| && Pow2(|b| - 1 - z) <= Val(b) < Pow2(|b| - z)
  {
    hide Pow2, Val, LeadingZeros;
    var m := b[z + 1..];
    assert b == b[..z] + ([true] + m);
    UeValue(b[..z], m, |m|);
    ValBound(m);
    Pow2Step(|m|);
  }

  lemma ValPrefix(b: seq<bool>, k: nat)
    requires k <= |b|
    ensures Val(b[..k]) == Val(b) / Pow2(|b| - k)
  {
    hide Pow2, Val;
    assert b == b[..k] + b[k..];
    ValConcat(b[..k], b[k..]);
    ValBound(b[k..]);
    DivUnique(Val(b), Pow2(|b| - k), Val(b[..k]), Val(b[k..]));
  }

  /** `i >> (log2(i) - sl)`: the leading one and the `sl` bits after it. */
  lemma ByteSuffix(i: nat, sl: nat, z: nat)
    requires i < 256 && z == LeadingZeros(ToBits(i, 8)) && z + 1 + sl <= 8
    ensures i / Pow2(7 - z - sl) == Pow2(sl) + Val(ToBits(i, 8)[z + 1..z + 1 + sl])
  {
    hide ToBits, LeadingZeros, Val;
    var b := ToBits(i, 8);
    assert Pow2(8) == 256;
    ValToBits(i, 8);
    ValPrefix(b, z + 1 + sl);
    var m := b[z + 1..z + 1 + sl];
    assert b[..z + 1 + sl] == b[..z] + ([true] + m);
    UeValue(b[..z], m, sl);
  }

  lemma EntryShort(sl: nat, i: nat, z: nat, level: int, code: int)
    requires i < 256 && z == LeadingZeros(ToBits(i, 8)) && z + 1 + sl <= 8
    requires code == z * Pow2(sl) + Val(ToBits(i, 8)[z + 1..z + 1 + sl]) && level == SignedLevel(code)
    ensures TabEntry(sl, ToBits(i, 8), level, z + 1 + sl) && -0x80 <= level < 0x80
  {
    hide ToBits, LeadingZeros, Val, Pow2;
    var m := ToBits(i, 8)[z + 1..z + 1 + sl];
    ValBound(m);
    ShiftBound(z, sl);
  }

  lemma ShiftBound(z: nat, sl: nat)
    requires z + sl <= 7
    ensures z * Pow2(sl) + Pow2(sl) <= 192
  {
    assert Pow2(6) == 64 && Pow2(7) == 128;
    if sl == 0 {
    } else if sl == 1 {
    } else if sl == 2 {
    } else if sl == 3 {
    } else if sl == 4 {
    } else if sl == 5 {
    }
  }

  lemma EntryPrefix(sl: nat, i: nat, z: nat)
    requires i < 256 && z == LeadingZeros(ToBits(i, 8)) && z + 1 + sl > 8
    ensures TabEntry(sl, ToBits(i, 8), 100 + z, if z < 8 then z + 1 else z)
  {}

  // ----- the decoder -----

  /** What a lookup of the next eight bits of `s` leaves: the level, or 100 and its prefix so far. */
  ghost predicate LookedUp(sl: nat, s: seq<bool>, level: int, rest: seq<bool>) {
    var z := LeadingZeros(s);
    if z + 1 + sl <= 8 then
      && z + 1 + sl <= |s| && rest == s[z + 1 + sl..]
      && level == LevelVal(LevelCode(z, sl, Val(s[z + 1..z + 1 + sl]))) && level < 100
    else
      var n := if z < 8 then z + 1 else 8;
      level == 100 + (if z < 8 then z else 8) && n <= |s| && rest == s[n..]
  }

  lemma EightBits(s: seq<bool>, sl: nat, b: seq<bool>, z: nat)
    requires b == Padded(s, 8) && z == LeadingZeros(s) && (z <= 28 ==> |s| >= z + 1 + SuffixSize(z, sl))
    ensures LeadingZeros(b) == (if z < 8 then z else 8)
    ensures (if z < 8 then z + 1 else 8) <= |s|
    ensures z + 1 + sl <= 8 ==> z + 1 + sl <= |s| && b[z + 1..z + 1 + sl] == s[z + 1..z + 1 + sl]
  {
    hide LeadingZeros, Padded;
    PaddedAt(s, 8);
    EightZeros(s, b, z);
    if z + 1 + sl <= 8 {
      SameSlice(s, b, z + 1, z + 1 + sl);
    }
  }

  lemma SameSlice(s: seq<bool>, b: seq<bool>, i: nat, j: nat)
    requires i <= j <= |s| && j <= |b| && forall k :: 0 <= k < j ==> b[k] == s[k]
    ensures b[i..j] == s[i..j]
  {}

  lemma EightZeros(s: seq<bool>, b: seq<bool>, z: nat)
    requires |b| == 8 && z == LeadingZeros(s) && forall i :: 0 <= i < 8 ==> b[i] == (i < |s| && s[i])
    ensures LeadingZeros(b) == (if z < 8 then z else 8) || z == |s|
  {
    hide LeadingZeros;
    if z < 8 && z < |s| {
      LeadingZerosIs(b, z);
    } else if z >= 8 {
      LeadingZerosIs(b, 8);
    }
  }

  lemma PaddedAt(s: seq<bool>, n: nat)
    ensures forall i :: 0 <= i < n ==> Padded(s, n)[i] == (i < |s| && s[i])
  {}

  lemma Known(s: seq<bool>, sl: nat)
    requires !ReadLevelCode(sl, s).OutOfBits?
    ensures var z := LeadingZeros(s); z <= 28 ==> |s| >= z + 1 + SuffixSize(z, sl)
  {
    hide LeadingZeros;
  }

  lemma EntryLooksUp(s: seq<bool>, sl: nat, b: seq<bool>, level: int, len: int)
    requires b == Padded(s, 8) && !ReadLevelCode(sl, s).OutOfBits? && TabEntry(sl, b, level, len)
    ensures 0 <= len <= 8 && len <= |s| && LookedUp(sl, s, level, s[len..])
  {
    hide LeadingZeros, Val, LevelCode, LevelVal, ReadLevelCode, Padded, SuffixSize;
    Known(s, sl);
    EightBits(s, sl, b, LeadingZeros(s));
  }

  /** Eight bits shown, their entry taken, its length skipped. */
  method LookUp(bs: SwBitstream, tab: array3<int>, sl: nat) returns (level: int)
    requires bs.Valid() && Tabulates(tab) && sl < 7 && !ReadLevelCode(sl, bs.stream).OutOfBits?
    modifies bs`bytePos, bs`cache, bs`bitsLeft, bs`stream
    ensures bs.Valid() && LookedUp(sl, old(bs.stream), level, bs.stream)
  {
    hide LeadingZeros, Val, ReadLevelCode, TabEntry, LookedUp, ToBits, Padded, bs.Holds;
    ghost var s := bs.stream;
    ghost var b := Padded(s, 8);
    var i := bs.Show(8);
    ByteValue(b);
    level := tab[sl, i, 0];
    var len := tab[sl, i, 1];
    EntryLooksUp(s, sl, b, level, len);
    bs.Reaches(len);
    bs.SkipFast(len);
  }

  lemma ByteValue(b: seq<bool>)
    requires |b| == 8
    ensures Val(b) < 256 && ToBits(Val(b), 8) == b
  {
    assert Pow2(8) == 256;
    ValBound(b);
    ToBitsVal(b);
  }

  lemma SkippedZeros(s: seq<bool>, n: nat)
    requires n <= LeadingZeros(s)
    ensures LeadingZeros(s[n..]) == LeadingZeros(s) - n
  {
    LeadingZerosIs(s[n..], LeadingZeros(s) - n);
  }

  /** The prefix of a level the table could not resolve. */
  method Prefix(bs: SwBitstream, sl: nat, level: int, ghost s: seq<bool>) returns (p: nat)
    requires bs.Valid() && LookedUp(sl, s, level, bs.stream) && level >= 100 && !ReadLevelCode(sl, s).OutOfBits?
    modifies bs`bytePos, bs`cache, bs`bitsLeft, bs`stream
    ensures var z := LeadingZeros(s);
            && (z <= 28 ==> p == z < |s| && bs.Valid() && bs.stream == s[z + 1..])
            && (z > 28 ==> p > 28)
  {
    hide LeadingZeros, Val, LevelCode, LevelVal, bs.Valid;
    p := level - 100;
    if p == 8 {
      SkippedZeros(s, 8);
      var more := bs.LevelPrefix();
      p := p + more;
    }
  }

  /** The suffix after prefix `z` of `s`. */
  method ReadSuffix(bs: SwBitstream, n: nat, ghost s: seq<bool>, ghost z: nat) returns (v: nat)
    requires bs.Valid() && n <= 31 && z + 1 + n <= |s| && bs.stream == s[z + 1..]
    modifies bs`bytePos, bs`cache, bs`bitsLeft, bs`stream
    ensures bs.Valid() && v == Val(s[z + 1..z + 1 + n]) && bs.stream == s[z + 1 + n..]
  {
    hide Val, bs.Valid;
    v := bs.Read(n);
    assert s[z + 1..][..n] == s[z + 1..z + 1 + n] && s[z + 1..][n..] == s[z + 1 + n..];
  }

  /** The code of prefix 15 and up, its suffix still to come; none above 28. */
  method EscapeCode(sl: nat, prefix: nat) returns (ok: bool, code: nat)
    requires prefix >= 15
    ensures ok <==> prefix <= 28
    ensures code >= 15 && (ok ==> forall v :: LevelCode(prefix, sl, v) == code + v)
  {
    EscapeBase(prefix);
    code := if sl == 0 then 30 else 15 * Pow2(sl);
    if prefix >= 16 {
      if prefix > 28 {
        return false, code;
      }
      code := code + Pow2(prefix - 3) - 4096;
    }
    ok := true;
  }

  /** A level after the first. */
  method DecodeNext(bs: SwBitstream, tab: array3<int>, sl: nat) returns (ok: bool, level: int)
    requires bs.Valid() && Tabulates(tab) && 1 <= sl <= 6 && !ReadLevelCode(sl, bs.stream).OutOfBits?
    modifies bs`bytePos, bs`cache, bs`bitsLeft, bs`stream
    ensures var r := ReadLevelCode(sl, old(bs.stream));
            && (r.Coded? ==> ok && bs.Valid() && level == LevelVal(r.code) && bs.stream == r.rest)
            && (r.TooLong? ==> !ok)
  {
    hide LeadingZeros, Val, LevelVal, LevelCode, Pow2, bs.Valid, Tabulates, SignedLevel;
    ghost var s := bs.stream;
    ghost var z := LeadingZeros(s);
    level := LookUp(bs, tab, sl);
    if level >= 100 {
      var prefix := Prefix(bs, sl, level, s);
      var code := 0;
      if prefix < 15 {
        var suffix := ReadSuffix(bs, sl, s, z);
        code := prefix * Pow2(sl) + suffix;
        PlainCode(prefix, sl, suffix);
      } else {
        ok, code := EscapeCode(sl, prefix);
        if !ok {
          return;
        }
        var suffix := ReadSuffix(bs, prefix - 3, s, z);
        code := code + suffix;
      }
      level := SignedLevel(code);
    }
    ok := true;
  }

  lemma PlainCode(prefix: nat, sl: nat, suffix: nat)
    requires prefix < 15
    ensures LevelCode(prefix, sl, suffix) == prefix * Pow2(sl) + suffix
    ensures sl == 0 ==> LevelCode(prefix, sl, suffix) == prefix + suffix
    ensures sl == 1 ==> LevelCode(prefix, sl, suffix) == 2 * prefix + suffix
  {}

  /** The first level, and the suffixLength after it. */
  method DecodeFirst(bs: SwBitstream, tab: array3<int>, sl: nat, t1: nat) returns (ok: bool, level: int, next: nat)
    requires bs.Valid() && Tabulates(tab) && sl <= 1 && !ReadLevelCode(sl, bs.stream).OutOfBits?
    modifies bs`bytePos, bs`cache, bs`bitsLeft, bs`stream
    ensures var r := ReadLevelCode(sl, old(bs.stream));
            && (r.Coded? ==> ok && bs.Valid() && bs.stream == r.rest && next == NextSuffixLength(sl, level)
                             && level == LevelVal(if t1 < 3 then r.code + 2 else r.code))
            && (r.TooLong? ==> !ok)
  {
    hide LeadingZeros, Val, LevelVal, LevelCode, Pow2, bs.Valid, Tabulates, SignedLevel, NextSuffixLength;
    ghost var s := bs.stream;
    ghost var z := LeadingZeros(s);
    level := LookUp(bs, tab, sl);
    next := 2;
    if level >= 100 {
      var prefix := Prefix(bs, sl, level, s);
      var code := 0;
      if prefix < 14 {
        if sl != 0 {
          var suffix := ReadSuffix(bs, 1, s, z);
          code := 2 * prefix + suffix;
          PlainCode(prefix, sl, suffix);
        } else {
          EmptySuffix(s, z);
          code := prefix;
          PlainCode(prefix, sl, 0);
        }
      } else if prefix == 14 {
        var suffix := ReadSuffix(bs, if sl != 0 then 1 else 4, s, z);
        code := if sl != 0 then 2 * prefix + suffix else prefix + suffix;
        PlainCode(prefix, sl, suffix);
      } else {
        ok, code := EscapeCode(sl, prefix);
        if !ok {
          return;
        }
        var suffix := ReadSuffix(bs, prefix - 3, s, z);
        code := code + suffix;
      }
      assert code >= 7;
      if t1 < 3 {
        code := code + 2;
      }
      level := SignedLevel(code);
      LargeLevel(code, sl, level);
    } else {
      ghost var code := LevelCode(z, sl, Val(s[z + 1..z + 1 + sl]));
      FirstLevel(code, level);
      if t1 < 3 {
        level := level + if level < 0 then -1 else 1;
      }
      next := 1 + if level + 3 < 0 || level + 3 > 6 then 1 else 0;
      FirstNext(sl, level);
    }
    ok := true;
  }

  lemma EmptySuffix(s: seq<bool>, z: nat)
    requires z + 1 <= |s|
    ensures Val(s[z + 1..z + 1]) == 0
  {}

  /** The correction of the first coefficient moves its level away from zero. */
  lemma FirstLevel(code: nat, level: int)
    requires level == LevelVal(code)
    ensures LevelVal(code + 2) == level + if level < 0 then -1 else 1
  {}

  lemma FirstNext(sl: nat, level: int)
    requires sl <= 1
    ensures NextSuffixLength(sl, level) == 1 + if level + 3 < 0 || level + 3 > 6 then 1 else 0
  {}

  lemma LargeLevel(code: nat, sl: nat, level: int)
    requires code >= 7 && sl <= 1 && level == LevelVal(code)
    ensures NextSuffixLength(sl, level) == 2
  {}

  /** The lookup table, built on first use. */
  class LevelDecoder {
    const tab: array3<int>
    var inited: bool

    ghost predicate Valid()
      reads this, tab
    {
      tab.Length0 == 7 && tab.Length1 == 256 && tab.Length2 == 2 && (inited ==> Tabulates(tab))
    }

    constructor ()
      ensures Valid() && !inited && fresh(tab)
    {
      tab, inited := new int[7, 256, 2], false;
    }

    /**
     `cavlc_decode_levels`: wherever the standard finds levels, the same levels as 16-bit numbers and
     the same bits consumed; -1 wherever it finds a prefix of more than 28 zeros.
     */
    method DecodeLevels(bs: SwBitstream, total: nat, t1: nat, levels: array<s16>) returns (r: int)
      requires Valid() && bs.Valid() && t1 <= 3 && t1 <= total <= 16 <= levels.Length
      requires !SpecLevels(total, t1, bs.stream).Lacking?
      modifies this`inited, tab, levels, bs`bytePos, bs`cache, bs`bitsLeft, bs`stream
      ensures Valid()
      ensures var d := SpecLevels(total, t1, old(bs.stream));
              && (d.Levels? ==> r == 0 && bs.Valid() && bs.stream == d.rest && |d.levels| == total
                                && forall k :: 0 <= k < total ==> levels[k] == S16(d.levels[k]))
              && (d.Refused? ==> r == -1)
    {
      hide Tabulates, bs.Valid, LevelsFrom, Signs;
      if !inited {
        InitLevelTab(tab);
        inited := true;
      }
      ghost var s := bs.stream;
      if t1 > 0 {
        ReadSigns(bs, t1, levels);
      }
      r := DecodeCoded(bs, tab, total, t1, levels, Signs(s[..t1]));
    }
  }

  ghost predicate Stored(levels: array<s16>, acc: seq<int>)
    reads levels
  {
    |acc| <= levels.Length && forall k :: 0 <= k < |acc| ==> levels[k] == S16(acc[k])
  }

  /** The levels after the trailing ones `acc`. */
  method DecodeCoded(bs: SwBitstream, tab: array3<int>, total: nat, t1: nat, levels: array<s16>, ghost acc: seq<int>)
    returns (r: int)
    requires bs.Valid() && Tabulates(tab) && t1 <= total <= levels.Length && |acc| == t1 && Stored(levels, acc)
    requires !LevelsFrom(total, t1, acc, FirstSuffixLength(total, t1), bs.stream).Lacking?
    modifies levels, bs`bytePos, bs`cache, bs`bitsLeft, bs`stream
    ensures var d := LevelsFrom(total, t1, acc, FirstSuffixLength(total, t1), old(bs.stream));
            && (d.Levels? ==>
                  r == 0 && bs.Valid() && bs.stream == d.rest && |d.levels| == total && Stored(levels, d.levels))
            && (d.Refused? ==> r == -1)
  {
    hide Tabulates, bs.Valid, LevelsFrom, ReadLevelCode, LevelVal, S16;
    var sl := FirstSuffixLength(total, t1);
    ghost var d := LevelsFrom(total, t1, acc, sl, bs.stream);
    if t1 == total {
      LevelsEnd(total, t1, acc, sl, bs.stream);
      return 0;
    }
    StepRead(total, t1, acc, sl, bs.stream);
    var ok, level, next := DecodeFirst(bs, tab, sl, t1);
    if !ok {
      return -1;
    }
    levels[t1] := S16(level);
    r := DecodeRest(bs, tab, total, t1, next, levels, acc + [level]);
  }

  /** The levels after the first coded one. */
  method DecodeRest(bs: SwBitstream, tab: array3<int>, total: nat, t1: nat, sl0: nat,
                    levels: array<s16>, ghost acc0: seq<int>)
    returns (r: int)
    requires bs.Valid() && Tabulates(tab) && 1 <= sl0 <= 6
    requires t1 < |acc0| <= total <= levels.Length && Stored(levels, acc0)
    requires |acc0| == t1 + 1 && !LevelsFrom(total, t1, acc0, sl0, bs.stream).Lacking?
    modifies levels, bs`bytePos, bs`cache, bs`bitsLeft, bs`stream
    ensures var d := LevelsFrom(total, t1, acc0, sl0, old(bs.stream));
            && (d.Levels? ==>
                  r == 0 && bs.Valid() && bs.stream == d.rest && |d.levels| == total && Stored(levels, d.levels))
            && (d.Refused? ==> r == -1)
  {
    hide Tabulates, bs.Valid, LevelsFrom, ReadLevelCode, LevelVal, S16, NextSuffixLength;
    ghost var d := LevelsFrom(total, t1, acc0, sl0, bs.stream);
    var sl := sl0;
    ghost var acc := acc0;
    for i := t1 + 1 to total
      invariant Tabulates(tab) && bs.Valid() && 1 <= sl <= 6 && |acc| == i && Stored(levels, acc)
      invariant LevelsFrom(total, t1, acc, sl, bs.stream) == d
    {
      StepRead(total, t1, acc, sl, bs.stream);
      var ok, level := DecodeNext(bs, tab, sl);
      if !ok {
        return -1;
      }
      levels[i] := S16(level);
      sl := Update(sl, level);
      acc := acc + [level];
    }
    LevelsEnd(total, t1, acc, sl, bs.stream);
    r := 0;
  }

  /** The sign bits of the trailing ones, three at once. */
  method ReadSigns(bs: SwBitstream, t1: nat, levels: array<s16>)
    requires bs.Valid() && 1 <= t1 <= 3 <= levels.Length && t1 <= |bs.stream|
    modifies levels, bs`bytePos, bs`cache, bs`bitsLeft, bs`stream
    ensures bs.Valid() && bs.stream == old(bs.stream)[t1..]
    ensures forall k :: 0 <= k < t1 ==> levels[k] == Signs(old(bs.stream)[..t1])[k]
  {
    hide bs.Holds, Padded, Val;
    ghost var b := Padded(bs.stream, 3);
    var sign := bs.Show(3);
    PaddedAt(bs.stream, 3);
    ThreeBits(b);
    bs.Reaches(t1);
    bs.SkipFast(t1);
    levels[0] := 1 - (sign as int) / 4 % 2 * 2;
    levels[1] := 1 - (sign as int) / 2 % 2 * 2;
    levels[2] := 1 - (sign as int) % 2 * 2;
  }

  lemma ThreeBits(b: seq<bool>)
    requires |b| == 3
    ensures Val(b) / 4 % 2 == (if b[0] then 1 else 0) && Val(b) / 2 % 2 == (if b[1] then 1 else 0)
    ensures Val(b) % 2 == if b[2] then 1 else 0
  {
    assert b == b[..2] + [b[2]] && b[..2] == b[..1] + [b[1]] && b[..1] == [] + [b[0]];
    assert Val(b[..1]) == 2 * Val([]) + if b[0] then 1 else 0;
    assert Val(b[..2]) == 2 * Val(b[..1]) + if b[1] then 1 else 0;
  }

  /** suffixLength against the limits 3, 6, 12, 24 and 48. */
  method Update(sl: nat, level: int) returns (next: nat)
    requires 1 <= sl <= 6 && Abs(level) < 0x8000_0000
    ensures next == NextSuffixLength(sl, level) && 1 <= next <= 6
  {
    var limit := [0, 3, 6, 12, 24, 48, 0x7FFF_FFFF];
    var abs := Abs(level);
    Limits();
    next := sl + if abs > limit[sl] then 1 else 0;
  }

  lemma Limits()
    ensures 3 * Pow2(0) == 3 && 3 * Pow2(1) == 6 && 3 * Pow2(2) == 12 && 3 * Pow2(3) == 24 && 3 * Pow2(4) == 48
  {}

  lemma StepRead(total: nat, t1: nat, acc: seq<int>, sl: nat, s: seq<bool>)
    requires |acc| < total && sl <= 6
    ensures ReadLevelCode(sl, s).Coded? ==> Abs(LevelVal(ReadLevelCode(sl, s).code)) < 0x8000_0000
    ensures var r, d := ReadLevelCode(sl, s), LevelsFrom(total, t1, acc, sl, s);
            && (r.TooLong? ==> d.Refused?) && (r.OutOfBits? ==> d.Lacking?)
            && (r.Coded? ==>
                  var level := LevelVal(if |acc| == t1 && t1 < 3 then r.code + 2 else r.code);
                  d == LevelsFrom(total, t1, acc + [level], NextSuffixLength(sl, level), r.rest))
  {
    if ReadLevelCode(sl, s).Coded? {
      CodeBound(sl, s);
    }
  }

  lemma LevelsEnd(total: nat, t1: nat, acc: seq<int>, sl: nat, s: seq<bool>)
    requires |acc| == total
    ensures LevelsFrom(total, t1, acc, sl, s) == Levels(acc, s)
  {}

  /** Signs and short prefixes: no level of the whole block is cut. */
  lemma SpecLevelsFit(total: nat, t1: nat, s: seq<bool>)
    requires |s| >= t1 && ShortPrefixes(total, t1, Signs(s[..t1]), FirstSuffixLength(total, t1), s[t1..])
    ensures SpecLevels(total, t1, s).Levels? ==> Fits(SpecLevels(total, t1, s).levels)
  {
    ShortPrefixesFit(total, t1, Signs(s[..t1]), FirstSuffixLength(total, t1), s[t1..]);
  }
}
