/**
 The encoder of coefficient levels, from signs and magnitudes: what section 9.2.2 of ITU-T H.264 reads is
 exactly what it writes.
 */
module LevelCoding {
  import opened Bits
  import opened Syntax
  import opened Levels

  function Magnitude(level: int): (m: nat) {
    if level >= 0 then level else -level
  }

  /** Magnitudes from 1 + `less` up count from zero; each has a positive and then a negative code. */
  function Number(level: int, less: nat): (c: int) {
    2 * (Magnitude(level) - 1 - less) + if level < 0 then 1 else 0
  }

  function Unary(n: nat): (s: seq<bool>) {
    Zeros(n) + [true]
  }

  /** The first code of the escape. */
  function EscapeFrom(sl: nat): (c: nat) {
    if sl == 0 then 30 else 15 * Pow2(sl)
  }

  function CodeParts(sl: nat, c: nat, p: nat): (s: seq<bool>)
    requires p > 0
  {
    Unary(c / p) + ToBits(c % p, sl)
  }

  /** The codeword of code `c`: a prefix and a suffix of `sl` bits, or an escape. */
  function CodeLevel(sl: nat, c: nat): (s: seq<bool>) {
    if c >= EscapeFrom(sl) then Zeros(3) + CodeUE(c - EscapeFrom(sl) + 4095)
    else if sl > 0 then CodeParts(sl, c, Pow2(sl))
    else if c < 14 then Unary(c)
    else Unary(14) + ToBits(c - 14, 4)
  }

  /** Codes whose escape has at most 28 zeros. */
  predicate Codable(sl: nat, c: int) {
    0 <= c < EscapeFrom(sl) + 0x400_0000 - 4096
  }

  /** suffixLength grows behind a level above 3, 6, 12, 24 and 48. */
  function Longer(sl: nat, m: nat): (r: nat) {
    match sl
    case 0 => if m > 3 then 2 else 1
    case 1 => if m > 3 then 2 else 1
    case 2 => if m > 6 then 3 else 2
    case 3 => if m > 12 then 4 else 3
    case 4 => if m > 24 then 5 else 4
    case 5 => if m > 48 then 6 else 5
    case _ => sl
  }

  /** Coded levels; the first is known to exceed `less` in magnitude. */
  function CodeLevels(sl: nat, less: nat, levels: seq<int>): (s: seq<bool>)
    decreases |levels|
  {
    if |levels| == 0 || Number(levels[0], less) < 0 then [] else
      CodeLevel(sl, Number(levels[0], less)) + CodeLevels(Longer(sl, Magnitude(levels[0])), 0, levels[1..])
  }

  predicate CodableLevels(sl: nat, less: nat, levels: seq<int>)
    decreases |levels|
  {
    |levels| == 0
    || (Codable(sl, Number(levels[0], less)) && CodableLevels(Longer(sl, Magnitude(levels[0])), 0, levels[1..]))
  }

  /** The first `t1` levels by their signs, the others by their codes; `total` levels are to come in all. */
  function Encode(total: nat, t1: nat, levels: seq<int>): (s: seq<bool>)
    requires t1 <= |levels|
  {
    seq(t1, i requires 0 <= i < t1 => levels[i] < 0)
    + CodeLevels(if total > 10 && t1 < 3 then 1 else 0, if t1 < 3 then 1 else 0, levels[t1..])
  }

  predicate Encodable(total: nat, t1: nat, levels: seq<int>) {
    && t1 <= |levels| && (forall i :: 0 <= i < t1 ==> levels[i] == 1 || levels[i] == -1)
    && CodableLevels(if total > 10 && t1 < 3 then 1 else 0, if t1 < 3 then 1 else 0, levels[t1..])
  }

  // ----- one level -----

  lemma UnaryZeros(z: nat, t: seq<bool>)
    ensures LeadingZeros(Unary(z) + t) == z && (Unary(z) + t)[z + 1..] == t
  {
    LeadingZerosIs(Unary(z) + t, z);
  }

  /** A prefix of `z` zeros and its suffix read as their code. */
  lemma ReadParts(sl: nat, z: nat, m: seq<bool>, t: seq<bool>)
    requires z <= 28 && |m| == SuffixSize(z, sl)
    ensures ReadLevelCode(sl, Unary(z) + (m + t)) == Coded(LevelCode(z, sl, Val(m)), t)
  {
    hide LeadingZeros, Val, LevelCode, SuffixSize;
    var s := Unary(z) + (m + t);
    UnaryZeros(z, m + t);
    assert s[z + 1..z + 1 + |m|] == m && s[z + 1 + |m|..] == t;
  }

  /** An escape of `z` zeros is three zeros before an Exp-Golomb codeword. */
  lemma EscapeParts(sl: nat, z: nat, m: seq<bool>)
    requires 15 <= z <= 28 && |m| == z - 3
    ensures LevelCode(z, sl, Val(m)) >= EscapeFrom(sl) && Codable(sl, LevelCode(z, sl, Val(m)))
    ensures CodeLevel(sl, LevelCode(z, sl, Val(m))) == Unary(z) + m
  {
    hide Val, CodeUE, Log2, Pow2;
    var c := LevelCode(z, sl, Val(m));
    SmallPowers();
    EscapeBase(z);
    assert Pow2(0) == 1 && Pow2(12) == 4096;
    ValBound(m);
    Pow2Step(25);
    Pow2Step(z - 3);
    Pow2Mono(z - 2, 26);
    CodeUEFrom(z - 3, m, c - EscapeFrom(sl) + 4095);
    assert Zeros(3) + (Zeros(z - 3) + ([true] + m)) == Unary(z) + m;
  }

  /** A code below the escape splits into a prefix and a suffix. */
  lemma PlainParts(sl: nat, z: nat, m: seq<bool>)
    requires z < 15 && |m| == SuffixSize(z, sl)
    ensures var c := LevelCode(z, sl, Val(m)); c < EscapeFrom(sl) && CodeLevel(sl, c) == Unary(z) + m
  {
    hide Val, CodeUE, Log2, Pow2, ToBits;
    SmallPowers();
    ValBound(m);
    ToBitsVal(m);
    PlainCode(z, sl, Val(m));
    if sl > 0 {
      Below(z, Val(m), Pow2(sl));
    } else {
      assert z < 14 ==> m == [] && Unary(z) + m == Unary(z);
    }
  }

  lemma Below(z: nat, v: nat, p: nat)
    requires z < 15 && v < p
    ensures z * p + v < 15 * p && (z * p + v) / p == z && (z * p + v) % p == v
  {
    DivUnique(z * p + v, p, z, v);
    MulMono(z, 14, p);
  }

  /** What is read is the codeword of the code. */
  lemma EncodedRead(sl: nat, s: seq<bool>)
    requires ReadLevelCode(sl, s).Coded?
    ensures var r := ReadLevelCode(sl, s); Codable(sl, r.code) && s == CodeLevel(sl, r.code) + r.rest
  {
    hide LeadingZeros, Val, LevelCode, CodeLevel;
    var z := LeadingZeros(s);
    var n := SuffixSize(z, sl);
    var m := s[z + 1..z + 1 + n];
    assert s == (Unary(z) + m) + s[z + 1 + n..];
    if z < 15 {
      PlainParts(sl, z, m);
    } else {
      EscapeParts(sl, z, m);
    }
  }

  /** Every codeword reads as its code. */
  lemma ReadEncoded(sl: nat, c: nat, t: seq<bool>)
    requires Codable(sl, c)
    ensures ReadLevelCode(sl, CodeLevel(sl, c) + t) == Coded(c, t)
  {
    hide ReadLevelCode, Val, CodeLevel, LevelCode, Pow2;
    var z, m := Parts(sl, c);
    ReadParts(sl, z, m, t);
    assert CodeLevel(sl, c) + t == Unary(z) + (m + t);
  }

  /** The prefix and suffix of a codeword. */
  lemma Parts(sl: nat, c: nat) returns (z: nat, m: seq<bool>)
    requires Codable(sl, c)
    ensures z <= 28 && |m| == SuffixSize(z, sl) && LevelCode(z, sl, Val(m)) == c && CodeLevel(sl, c) == Unary(z) + m
  {
    if c >= EscapeFrom(sl) {
      z, m := EscapeOf(sl, c);
    } else {
      z, m := PlainOf(sl, c);
    }
  }

  lemma EscapeOf(sl: nat, c: nat) returns (z: nat, m: seq<bool>)
    requires Codable(sl, c) && c >= EscapeFrom(sl)
    ensures 15 <= z <= 28 && |m| == SuffixSize(z, sl) && LevelCode(z, sl, Val(m)) == c
    ensures CodeLevel(sl, c) == Unary(z) + m
  {
    hide Val, CodeUE, Log2, Pow2, ToBits;
    var v := c - EscapeFrom(sl) + 4096;
    var q := Log2(v);
    Log2Bounds(v);
    SmallPowers();
    Pow2Step(25);
    Pow2Step(12);
    if q < 12 {
      Pow2Mono(q + 1, 12);
    }
    if q > 25 {
      Pow2Mono(26, q);
    }
    z, m := q + 3, ToBits(v - Pow2(q), q);
    Pow2Step(q);
    ValToBits(v - Pow2(q), q);
    EscapeParts(sl, z, m);
  }

  lemma PlainOf(sl: nat, c: nat) returns (z: nat, m: seq<bool>)
    requires c < EscapeFrom(sl)
    ensures z < 15 && |m| == SuffixSize(z, sl) && LevelCode(z, sl, Val(m)) == c
    ensures CodeLevel(sl, c) == Unary(z) + m
  {
    hide Val, CodeUE, Log2, Pow2, ToBits;
    SmallPowers();
    if sl > 0 {
      z, m := Quotient(sl, c, Pow2(sl));
      PlainCode(z, sl, Val(m));
    } else if c < 14 {
      z, m := c, [];
      ValToBits(0, 0);
      assert ToBits(0, 0) == [];
      PlainCode(z, sl, 0);
      assert Unary(z) + m == Unary(z);
    } else {
      z, m := 14, ToBits(c - 14, 4);
      ValToBits(c - 14, 4);
      PlainCode(z, sl, c - 14);
    }
  }

  lemma Quotient(sl: nat, c: nat, p: nat) returns (z: nat, m: seq<bool>)
    requires p == Pow2(sl) && c < 15 * p
    ensures z < 15 && |m| == sl && z * p + Val(m) == c && CodeParts(sl, c, p) == Unary(z) + m
  {
    hide Val, Pow2, ToBits;
    var v := c % p;
    z, m := c / p, ToBits(v, sl);
    ValToBits(v, sl);
    assert c == z * p + v;
    if z >= 15 {
      MulMono(15, z, p);
      assert false;
    }
  }

  // ----- all levels -----

  /** The level of a code, and the code of a level. */
  lemma NumberVal(level: int, less: nat)
    ensures Number(level, less) >= 0 ==> LevelVal(Number(level, less) + 2 * less) == level
  {}

  lemma ValNumber(c: nat, less: nat)
    ensures Number(LevelVal(c + 2 * less), less) == c
  {}

  lemma LongerIs(sl: nat, level: int)
    requires sl <= 6
    ensures NextSuffixLength(sl, level) == Longer(sl, Magnitude(level)) <= 6
  {
    Limits();
  }

  function Less(t1: nat, n: nat): (r: nat) {
    if n == t1 && t1 < 3 then 1 else 0
  }

  /** Encoded levels are read, and reading goes on behind them. */
  lemma {:induction false} LevelsEncoded(total: nat, t1: nat, acc: seq<int>, sl: nat, levels: seq<int>, t: seq<bool>)
    returns (next: nat)
    requires |acc| >= t1 && |acc| + |levels| <= total && sl <= 6
    requires CodableLevels(sl, Less(t1, |acc|), levels)
    ensures LevelsFrom(total, t1, acc, sl, CodeLevels(sl, Less(t1, |acc|), levels) + t)
         == LevelsFrom(total, t1, acc + levels, next, t)
    decreases |levels|
  {
    hide LevelsFrom, CodeLevel, ReadLevelCode, LevelVal, NextSuffixLength, Longer, Codable, Number;
    if |levels| == 0 {
      assert acc + levels == acc && CodeLevels(sl, Less(t1, |acc|), levels) + t == t;
      next := sl;
    } else {
      var less := Less(t1, |acc|);
      var c := Number(levels[0], less);
      assert c >= 0 by {
        CodableNonnegative(sl, c);
      }
      var more := CodeLevels(Longer(sl, Magnitude(levels[0])), 0, levels[1..]);
      assert CodeLevels(sl, less, levels) + t == CodeLevel(sl, c) + (more + t);
      ReadEncoded(sl, c, more + t);
      StepRead(total, t1, acc, sl, CodeLevel(sl, c) + (more + t));
      NumberVal(levels[0], less);
      LongerIs(sl, levels[0]);
      next := LevelsEncoded(total, t1, acc + [levels[0]], Longer(sl, Magnitude(levels[0])), levels[1..], t);
      assert acc + [levels[0]] + levels[1..] == acc + levels;
    }
  }

  lemma CodableNonnegative(sl: nat, c: int)
    requires Codable(sl, c)
    ensures c >= 0
  {}

  /** Levels that were read are encodable, and what was consumed is their encoding. */
  lemma {:induction false} LevelsRead(total: nat, t1: nat, acc: seq<int>, sl: nat, s: seq<bool>)
    returns (levels: seq<int>, t: seq<bool>)
    requires t1 <= |acc| <= total && sl <= 6
    ensures |acc| + |levels| <= total && CodableLevels(sl, Less(t1, |acc|), levels)
    ensures s == CodeLevels(sl, Less(t1, |acc|), levels) + t
    ensures match LevelsFrom(total, t1, acc, sl, s)
            case Levels(all, rest) => all == acc + levels && rest == t && |all| == total
            case Refused => |acc| + |levels| < total && LeadingZeros(t) > 28
            case Lacking => true
    decreases total - |acc|
  {
    hide LevelsFrom, CodeLevel, LevelVal, NextSuffixLength, Longer, Codable, Number;
    hide ReadLevelCode;
    if |acc| == total {
      LevelsEnd(total, t1, acc, sl, s);
      levels, t := [], s;
      assert acc + levels == acc && CodeLevels(sl, Less(t1, |acc|), levels) + t == t;
    } else {
      StepRead(total, t1, acc, sl, s);
      var r := ReadLevelCode(sl, s);
      if r.Coded? {
        var less := Less(t1, |acc|);
        var level := LevelVal(r.code + 2 * less);
        EncodedRead(sl, s);
        ValNumber(r.code, less);
        LongerIs(sl, level);
        var more;
        more, t := LevelsRead(total, t1, acc + [level], Longer(sl, Magnitude(level)), r.rest);
        levels := [level] + more;
        assert levels[1..] == more && acc + [level] + more == acc + levels;
        var tail := CodeLevels(Longer(sl, Magnitude(level)), 0, more);
        assert CodeLevel(sl, r.code) + (tail + t) == (CodeLevel(sl, r.code) + tail) + t;
      } else {
        levels, t := [], s;
        TooLongIs(sl, s);
        assert CodeLevels(sl, Less(t1, |acc|), levels) + t == t;
      }
    }
  }

  lemma TooLongIs(sl: nat, s: seq<bool>)
    ensures ReadLevelCode(sl, s).TooLong? <==> LeadingZeros(s) > 28
  {}

  // ----- the whole block -----

  lemma SignsOf(t1: nat, levels: seq<int>, t: seq<bool>)
    requires t1 <= |levels| && forall i :: 0 <= i < t1 ==> levels[i] == 1 || levels[i] == -1
    ensures var s := seq(t1, i requires 0 <= i < t1 => levels[i] < 0) + t;
            s[t1..] == t && Signs(s[..t1]) == levels[..t1]
  {}

  /** Encoded levels, followed by anything, are decoded to those levels and the rest. */
  lemma SpecEncoded(t1: nat, levels: seq<int>, t: seq<bool>)
    requires Encodable(|levels|, t1, levels)
    ensures SpecLevels(|levels|, t1, Encode(|levels|, t1, levels) + t) == Levels(levels, t)
  {
    hide LevelsFrom, CodeLevels, CodableLevels;
    var next := SpecContinues(|levels|, t1, levels, t);
    LevelsEnd(|levels|, t1, levels, next, t);
  }

  lemma SpecContinues(total: nat, t1: nat, levels: seq<int>, t: seq<bool>) returns (next: nat)
    requires Encodable(total, t1, levels) && |levels| <= total
    ensures SpecLevels(total, t1, Encode(total, t1, levels) + t) == LevelsFrom(total, t1, levels, next, t)
  {
    hide LevelsFrom, CodeLevels, CodableLevels;
    var sl := if total > 10 && t1 < 3 then 1 else 0;
    var coded := CodeLevels(sl, if t1 < 3 then 1 else 0, levels[t1..]);
    SignsOf(t1, levels, coded + t);
    assert Encode(total, t1, levels) + t == seq(t1, i requires 0 <= i < t1 => levels[i] < 0) + (coded + t);
    next := LevelsEncoded(total, t1, levels[..t1], sl, levels[t1..], t);
    assert levels[..t1] + levels[t1..] == levels;
  }

  /** What the standard reads of a bit string that begins with enough sign bits. */
  lemma SpecRead(total: nat, t1: nat, s: seq<bool>) returns (levels: seq<int>, t: seq<bool>)
    requires t1 <= total && t1 <= |s|
    ensures |levels| <= total && Encodable(total, t1, levels) && s == Encode(total, t1, levels) + t
    ensures match SpecLevels(total, t1, s)
            case Levels(all, rest) => all == levels && rest == t && |all| == total
            case Refused => |levels| < total && LeadingZeros(t) > 28
            case Lacking => true
  {
    hide LevelsFrom, CodeLevels, CodableLevels;
    var sl := if total > 10 && t1 < 3 then 1 else 0;
    var signs := Signs(s[..t1]);
    var coded;
    coded, t := LevelsRead(total, t1, signs, sl, s[t1..]);
    levels := signs + coded;
    assert levels[t1..] == coded;
    assert seq(t1, i requires 0 <= i < t1 => levels[i] < 0) == s[..t1];
    assert s == s[..t1] + s[t1..];
  }

  /** Whatever is decoded was encoded. */
  lemma SpecOnlyEncoded(total: nat, t1: nat, s: seq<bool>, levels: seq<int>, t: seq<bool>)
    requires t1 <= total && SpecLevels(total, t1, s) == Levels(levels, t)
    ensures |levels| == total && Encodable(total, t1, levels) && s == Encode(total, t1, levels) + t
  {
    hide LevelsFrom, CodeLevels, CodableLevels, Encode, Encodable;
    var all, rest := SpecRead(total, t1, s);
  }

  lemma EncodableLong(total: nat, t1: nat, levels: seq<int>)
    requires Encodable(total, t1, levels)
    ensures t1 <= |levels|
  {}

  /** A block is refused exactly when 29 zeros follow encoded levels where another level is due. */
  lemma RefusedExactly(total: nat, t1: nat, s: seq<bool>)
    requires t1 <= total
    ensures SpecLevels(total, t1, s).Refused? <==>
            exists levels, t :: t1 <= |levels| < total && Encodable(total, t1, levels)
                                && s == Encode(total, t1, levels) + t && LeadingZeros(t) > 28
  {
    hide LevelsFrom, CodeLevels, CodableLevels, Encodable, LeadingZeros;
    if SpecLevels(total, t1, s).Refused? {
      var levels, t := SpecRead(total, t1, s);
      assert t1 <= |levels| by {
        EncodableLong(total, t1, levels);
      }
    }
    forall levels, t | t1 <= |levels| < total && Encodable(total, t1, levels)
                       && s == Encode(total, t1, levels) + t && LeadingZeros(t) > 28
      ensures SpecLevels(total, t1, s).Refused?
    {
      var next := SpecContinues(total, t1, levels, t);
      RefusedHere(total, t1, levels, next, t);
    }
  }

  lemma RefusedHere(total: nat, t1: nat, acc: seq<int>, sl: nat, s: seq<bool>)
    requires |acc| < total && LeadingZeros(s) > 28
    ensures LevelsFrom(total, t1, acc, sl, s).Refused?
  {}
}
