/**
 What rewriting a sequence parameter set does to its meaning: one field replaced, or the High
 extension deleted, the trailing bits re-aligned, everything else kept bit for bit.
 */
module Rewrite {
  import opened Bits
  import opened Syntax
  import opened Emulation
  import opened SpsFormat

  /** Index of the last set bit: rbsp_stop_one_bit; 0 if there is none. */
  function Stop(s: seq<bool>): (i: nat)
    ensures i <= |s| && (!AllZero(s) ==> i < |s| && s[i] && AllZero(s[i + 1..]))
  {
    if |s| == 0 then 0 else
      var n := |s| - 1;
      if s[n] then n else
        assert AllZero(s[..n]) ==> AllZero(s);
        var i := Stop(s[..n]);
        assert i < n ==> s[i + 1..] == s[..n][i + 1..] + [s[n]];
        i
  }

  lemma StopIs(s: seq<bool>, i: nat)
    requires i < |s| && s[i] && AllZero(s[i + 1..])
    ensures !AllZero(s) && Stop(s) == i
  {
    var j := Stop(s);
    assert !(j < i) && !(i < j);
  }

  /** Zero bits from `n` to the next whole byte. */
  function PadTo8(n: nat): (p: nat)
    ensures p < 8 && (n + p) % 8 == 0
  {
    (8 - n % 8) % 8
  }

  /** rbsp_trailing_bits (section 7.3.2.11 of H.264). */
  function Trailing(n: nat): (s: seq<bool>) {
    [true] + Zeros(PadTo8(n + 1))
  }

  /** Payload bits closed by trailing bits. */
  function Closed(s: seq<bool>): (r: seq<bool>)
    ensures |r| % 8 == 0 && |r| == |s| + 1 + PadTo8(|s| + 1)
  {
    s + Trailing(|s|)
  }

  lemma ClosedStop(s: seq<bool>)
    ensures !AllZero(Closed(s)) && Stop(Closed(s)) == |s|
  {
    var c := Closed(s);
    assert c[|s| + 1..] == Zeros(PadTo8(|s| + 1));
    StopIs(c, |s|);
  }

  /**
   Cutting `x` after its last set bit and padding with zeros again changes nothing a reader of
   `need` bits can see, unless the padding got too short.
   */
  lemma Repadded(x: seq<bool>, s: nat, p: nat, need: nat)
    requires s < |x| && x[s] && AllZero(x[s + 1..]) && need <= |x|
    ensures var y := x[..s] + ([true] + Zeros(p));
            if need <= |y| then y[..need] == x[..need] else y < x[..need]
  {
    var y := x[..s] + ([true] + Zeros(p));
    forall i | 0 <= i < |x| && i < |y|
      ensures x[i] == y[i]
    {
      if i > s {
        assert x[s + 1..][i - s - 1] == x[i];
      }
    }
  }

  /** Walking re-padded bits: the same values while the padding lasts, starvation otherwise. */
  lemma WalkRepadded(g: Table, a: seq<int>, x: seq<bool>, s: nat, p: nat, v: seq<int>)
    requires Walk(g, a, x).Done? && Walk(g, a, x).vals == v
    requires s < |x| && x[s] && AllZero(x[s + 1..])
    ensures a <= v && Follows(g, v, |a|)
    ensures var y := x[..s] + ([true] + Zeros(p)); var n := |Print(g, v, |a|)|;
            if n <= |y| then Walk(g, a, y) == Done(v, y[n..]) else Walk(g, a, y).Starved?
  {
    PrintWalk(g, a, x);
    var y, c := x[..s] + ([true] + Zeros(p)), Print(g, v, |a|);
    assert v[..|a|] == a;
    assert x[..|c|] == c;
    Repadded(x, s, p, |c|);
    if |c| <= |y| {
      assert y == c + y[|c|..];
      WalkPrint(g, v, |a|, y[|c|..]);
    } else {
      WalkStarved(g, v, |a|, y);
    }
  }

  // ----- one reference frame -----

  /** The table never looks at max_num_ref_frames. */
  lemma RefsUnseen(v: seq<int>, m: nat)
    requires Complete(v) && v[0] != HIGH && RefsAt(v) < m <= |v|
    ensures SpsNext(v[RefsAt(v) := 1][..m]) == SpsNext(v[..m])
  {
    var r := RefsAt(v);
    var a, b := v[..m], v[r := 1][..m];
    NextAt(v);
    NextAt(a);
    NextAt(b);
    assert RefsAt(a) == r == RefsAt(b);
    assert m - r > 6 ==> a[r..][6] == b[r..][6];
  }

  /** Lowering the reference count keeps every other field of the table legal and in place. */
  lemma OneRef(v: seq<int>)
    requires Complete(v) && v[0] != HIGH && Follows(SpsNext, v, 0)
    ensures var r := RefsAt(v); SpsNext(v[..r]) == Some(UE) && SpsNext(v[r := 1]) == SpsNext(v)
    ensures Updated(SpsNext, v, RefsAt(v), 1)
  {
    hide SpsNext, RefsAt, Follows, Print, Code;
    var r := RefsAt(v);
    var u := v[r := 1];
    OneRefTable(v, r, u);
    PrintUpdate(SpsNext, v, r, 1, u);
  }

  lemma OneRefTable(v: seq<int>, r: nat, u: seq<int>)
    requires Complete(v) && v[0] != HIGH && r == RefsAt(v) && u == v[r := 1]
    ensures SpsNext(v[..r]) == Some(UE) && SpsNext(u) == SpsNext(v)
    ensures forall m: nat :: r < m < |v| ==> SameStep(SpsNext, v, u, 0, m)
  {
    NextAt(v);
    NextAt(v[..r]);
    forall m: nat | r < m < |v|
      ensures SameStep(SpsNext, v, u, 0, m)
    {
      RefsUnseen(v, m);
    }
    RefsUnseen(v, |v|);
    assert u[..|v|] == u && v[..|v|] == v;
  }

  lemma RefsAtUnseen(v: seq<int>)
    requires Complete(v) && v[0] != HIGH
    ensures var u := v[RefsAt(v) := 1]; Complete(u) && RefsAt(u) == RefsAt(v) >= 6
    ensures forall k | 0 <= k < 4 :: Crop(v[RefsAt(v) := 1], k) == Crop(v, k)
  {
    NextAt(v);
    NextAt(v[RefsAt(v) := 1]);
  }

  /** Lowering the reference count keeps the values acceptable and the rest of the format. */
  lemma OneRefAccepted(v: seq<int>)
    requires Accepted(v)
    ensures var u := v[RefsAt(v) := 1]; Accepted(u) && FormatOf(u) == FormatOf(v).(refs := 1)
  {
    RefsAtUnseen(v);
    NextAt(v);
    hide Crop, Complete, Base, PocArgs, SpsNext, RefsAt;
  }

  /** Bit positions of the max_num_ref_frames codeword. */
  ghost function RefsStart(v: seq<int>): (i: nat) {
    if RefsAt(v) < |v| then |Print(SpsNext, v[..RefsAt(v)], 0)| else 0
  }

  ghost function RefsEnd(v: seq<int>): (i: nat) {
    RefsStart(v) + if RefsAt(v) < |v| then |Code(UE, v[RefsAt(v)])| else 0
  }

  const ONE_REF: seq<bool> := [false, true, false]

  /** The RBSP with the codeword at `start..end` replaced by that of 1, and re-aligned. */
  ghost function Spliced(bits: seq<bool>, start: nat, end: nat): (r: seq<bool>)
    ensures |r| % 8 == 0
  {
    if start <= end <= Stop(bits) then Closed(bits[..start] + ONE_REF + bits[end..Stop(bits)]) else []
  }

  /** frame_mbs_only_flag is set, so the last set bit lies beyond the reference count. */
  lemma StopPastRefs(v: seq<int>, x: seq<bool>, rest: seq<bool>)
    requires Complete(v) && v[0] != HIGH && Follows(SpsNext, v, 0) && v[RefsAt(v) + 4] != 0
    requires Follows(SpsNext, v, RefsAt(v) + 1) && x == Print(SpsNext, v, RefsAt(v) + 1) + rest
    ensures !AllZero(x)
  {
    var r := RefsAt(v);
    assert SpsNext(v[..r + 4]) == Some(U(1)) by {
      NextAt(v);
      NextAt(v[..r + 4]);
    }
    hide SpsNext, RefsAt, Complete;
    PrintSplit(SpsNext, v, r + 1, r + 4);
    FlagStep(SpsNext, v, r + 4);
    var k := |Print(SpsNext, v[..r + 4], r + 1)|;
    assert x[k];
  }

  lemma FlagStep(g: Table, v: seq<int>, i: nat)
    requires i < |v| && Follows(g, v, i) && g(v[..i]) == Some(U(1)) && v[i] != 0
    ensures |Print(g, v, i)| > 0 && Print(g, v, i)[0]
  {
    assert Pow2(1) == 2;
    assert ToBits(1, 1) == [true];
  }

  lemma OneRefCode()
    ensures CodeUE(1) == ONE_REF
  {
    assert Log2(2) == 1;
    assert ToBits(2, 2) == [true, false] by { assert ToBits(1, 1) == [true]; }
  }

  /** `bits` spell the accepted values `v`, then `rest`. */
  ghost predicate Spells(bits: seq<bool>, v: seq<int>, rest: seq<bool>) {
    Accepted(v) && Follows(SpsNext, v, 0) && SpsNext(v).None? && bits == Print(SpsNext, v, 0) + rest
  }

  lemma AcceptedSpells(bits: seq<bool>, v: seq<int>, rest: seq<bool>)
    requires Walk(SpsNext, [], bits) == Done(v, rest) && Accepted(v)
    ensures Spells(bits, v, rest)
  {
    PrintWalk(SpsNext, [], bits);
  }

  /** Where the codeword of the reference count lies. */
  lemma RefsPlace(bits: seq<bool>, v: seq<int>, rest: seq<bool>)
    requires Spells(bits, v, rest)
    ensures RefsAt(v) < |v|
    ensures !AllZero(bits) && RefsStart(v) <= RefsEnd(v) <= Stop(bits) && Updated(SpsNext, v, RefsAt(v), 1)
    ensures bits[..RefsStart(v)] == Print(SpsNext, v[..RefsAt(v)], 0)
    ensures bits[RefsEnd(v)..] == Print(SpsNext, v, RefsAt(v) + 1) + rest
    ensures RefsEnd(v) + |Print(SpsNext, v, RefsAt(v) + 1)| == |Print(SpsNext, v, 0)|
  {
    hide Print, Follows, SpsNext, RefsAt, CodeUE, HeadOk, CropOk, Stop;
    OneRef(v);
    var r := RefsAt(v);
    var p, c, q := Print(SpsNext, v[..r], 0), CodeUE(v[r]), Print(SpsNext, v, r + 1);
    assert bits == p + (c + q) + rest;
    assert RefsStart(v) == |p| && RefsEnd(v) == |p| + |c|;
    Cut(p, c, q, rest);
    StopPastRefs(v, q + rest, rest);
    StopAfter(bits, |p| + |c|);
  }

  lemma Cut(p: seq<bool>, c: seq<bool>, q: seq<bool>, rest: seq<bool>)
    ensures var s := p + (c + q) + rest; s[..|p|] == p && s[|p| + |c|..] == q + rest
  {}

  lemma StopAfter(s: seq<bool>, k: nat)
    requires k <= |s| && !AllZero(s[k..])
    ensures !AllZero(s) && Stop(s) == k + Stop(s[k..])
  {
    var i := Stop(s[k..]);
    assert s[k..][i + 1..] == s[k + i + 1..];
    StopIs(s, k + i);
  }

  /** The rewritten bits: the fields up to and with the new count, then the old remainder re-padded. */
  lemma SplicedShape(bits: seq<bool>, v: seq<int>, rest: seq<bool>, start: nat, end: nat, stop: nat)
    requires Spells(bits, v, rest) && start == RefsStart(v) && end == RefsEnd(v) && stop == Stop(bits)
    ensures start <= end <= stop
    ensures Spliced(bits, start, end)
         == Print(SpsNext, v[..RefsAt(v)], 0) + ONE_REF
          + (bits[end..][..stop - end] + Trailing(start + 3 + stop - end))
  {
    hide *;
    RefsPlace(bits, v, rest);
    SplicedIs(bits, start, end, stop);
  }

  lemma SplicedIs(bits: seq<bool>, start: nat, end: nat, stop: nat)
    requires !AllZero(bits) && start <= end <= stop == Stop(bits)
    ensures Spliced(bits, start, end)
         == bits[..start] + ONE_REF + (bits[end..][..stop - end] + Trailing(start + 3 + stop - end))
  {
    hide Stop, AllZero, Trailing;
    assert bits[end..][..stop - end] == bits[end..stop];
    assert |bits[..start] + ONE_REF + bits[end..stop]| == start + 3 + stop - end;
  }

  /** The values with one reference: what they print up to the count, and after it. */
  lemma OneRefParts(bits: seq<bool>, v: seq<int>, rest: seq<bool>, r: nat, u: seq<int>)
    requires Spells(bits, v, rest) && r == RefsAt(v) < |v| && u == v[r := 1]
    ensures Follows(SpsNext, u, 0) && Follows(SpsNext, u, r + 1) && SpsNext(u).None?
    ensures Print(SpsNext, u[..r + 1], 0) == Print(SpsNext, v[..r], 0) + ONE_REF
    ensures Print(SpsNext, u, r + 1) == Print(SpsNext, v, r + 1)
  {
    OneRef(v);
    OneRefCode();
    assert Code(UE, 1) == ONE_REF;
    hide Code, FieldOk, SpsNext, RefsAt, Print, Follows, Accepted;
    var t := u[..r + 1];
    assert t[..r] == v[..r];
    PrintSplit(SpsNext, u, 0, r + 1);
    PrintAround(SpsNext, t, r);
    PrintNothing(SpsNext, t);
    assert ONE_REF + [] == ONE_REF;
  }

  lemma PrintNothing(g: Table, v: seq<int>)
    ensures Print(g, v, |v|) == []
  {}

  /** Parsing the rewritten bits: the same values with one reference, as long as the padding suffices. */
  lemma SplicedWalk(bits: seq<bool>, v: seq<int>, rest: seq<bool>)
    requires Spells(bits, v, rest) && RefsAt(v) < |v|
    ensures Reparses(Spliced(bits, RefsStart(v), RefsEnd(v)), v[RefsAt(v) := 1])
  {
    hide Spells, Accepted, RefsAt, RefsStart, RefsEnd, Stop, Print, SpsNext, Walk, Follows, Code, AllZero, PadTo8,
         Spliced, Updated;
    var r, start, end, stop := RefsAt(v), RefsStart(v), RefsEnd(v), Stop(bits);
    RefsPlace(bits, v, rest);
    var u := v[r := 1];
    OneRefParts(bits, v, rest, r, u);
    SplicedShape(bits, v, rest, start, end, stop);
    StopFrom(bits, end);
    WalkSplice(SpsNext, u, r + 1, bits[end..], rest, stop - end, PadTo8(start + 3 + stop - end + 1));
  }

  /** The bits `y` parse to `u` if they are long enough for it and starve otherwise. */
  ghost predicate Reparses(y: seq<bool>, u: seq<int>) {
    var n := |Print(SpsNext, u, 0)|;
    Walk(SpsNext, [], y).Done? == (n <= |y|) && (n <= |y| ==> Walk(SpsNext, [], y) == Done(u, y[n..]))
  }

  lemma StopFrom(s: seq<bool>, k: nat)
    requires k <= Stop(s) && !AllZero(s)
    ensures Stop(s) < |s| && s[k..][Stop(s) - k] && AllZero(s[k..][Stop(s) - k + 1..])
  {
    hide Stop, AllZero;
    assert s[k..][Stop(s) - k + 1..] == s[Stop(s) + 1..];
  }

  /** A printed head followed by a re-padded remainder walks like the original, padding permitting. */
  lemma WalkSplice(g: Table, u: seq<int>, m: nat, x: seq<bool>, rest: seq<bool>, s: nat, p: nat)
    requires m <= |u| && Follows(g, u, 0) && g(u).None? && Follows(g, u, m) && x == Print(g, u, m) + rest
    requires s < |x| && x[s] && AllZero(x[s + 1..])
    ensures var y := Print(g, u[..m], 0) + (x[..s] + ([true] + Zeros(p))); var n := |Print(g, u, 0)|;
      Walk(g, [], y).Done? == (n <= |y|) && (n <= |y| ==> Walk(g, [], y) == Done(u, y[n..]))
  {
    hide Print, Follows, AllZero;
    var h, z, c := Print(g, u[..m], 0), x[..s] + ([true] + Zeros(p)), Print(g, u, m);
    PrintSplit(g, u, 0, m);
    WalkPrint(g, u[..m], 0, z);
    assert u[..m][..0] == [];
    WalkPrint(g, u, m, rest);
    WalkRepadded(g, u[..m], x, s, p, u);
    assert |c| <= |z| ==> (h + z)[|h| + |c|..] == z[|c|..];
  }

  // ----- whole NALs -----

  /** A NAL carrying whole bytes of RBSP. */
  function NalOf(header: byte, bits: seq<bool>): (nal: seq<byte>)
    requires |bits| % 8 == 0
    ensures |nal| >= 1 + |bits| / 8
  {
    [header] + Escape(Pack(bits), 0)
  }

  lemma NalOfReads(header: byte, bits: seq<bool>)
    requires |bits| % 8 == 0
    ensures var n := NalOf(header, bits);
      n[0] == header && Unescape(n[1..], 0).Some? && RbspBits(n) == bits
      && SpsWalk(n) == Walk(SpsNext, [], bits)
  {
    hide Walk, SpsNext, BitsOf, Pack, Escape, Unescape;
    UnescapeEscape(Pack(bits), 0);
    BitsOfPack(bits);
    assert NalOf(header, bits)[1..] == Escape(Pack(bits), 0);
  }

  /** What an accepted NAL spells. */
  lemma FormatSpells(nal: seq<byte>)
    requires FormatCode(nal) == 0
    ensures Spells(RbspBits(nal), SpsWalk(nal).vals, SpsWalk(nal).rest)
  {
    VerdictZero(SpsWalk(nal));
    AcceptedSpells(RbspBits(nal), SpsWalk(nal).vals, SpsWalk(nal).rest);
  }

  /** The rewritten RBSP of an accepted NAL. */
  ghost function LimitedBits(nal: seq<byte>): (y: seq<bool>)
    ensures |y| % 8 == 0
  {
    var v := SpsWalk(nal).vals;
    Spliced(RbspBits(nal), RefsStart(v), RefsEnd(v))
  }

  /** The values of an accepted NAL, one reference frame asked for. */
  ghost function LimitedVals(nal: seq<byte>): (u: seq<int>) {
    var v := SpsWalk(nal).vals;
    if RefsAt(v) < |v| then v[RefsAt(v) := 1] else v
  }

  ghost function Limited(nal: seq<byte>): (y: seq<byte>)
    requires |nal| > 0
  {
    NalOf(nal[0], LimitedBits(nal))
  }

  /**
   The rewritten NAL is accepted exactly if it fits the inspection's size limit and its padding
   covers what the parse consumed; then it is the same format with one reference frame.
   */
  lemma LimitedFormat(nal: seq<byte>)
    requires FormatCode(nal) == 0
    ensures FormatCode(Limited(nal)) == 0 <==>
              |Limited(nal)| <= 1024 && |Print(SpsNext, LimitedVals(nal), 0)| <= |LimitedBits(nal)|
    ensures FormatCode(Limited(nal)) == 0 ==>
              SpsWalk(Limited(nal)).vals == LimitedVals(nal) && Accepted(LimitedVals(nal))
              && FormatOf(LimitedVals(nal)) == FormatOf(SpsWalk(nal).vals).(refs := 1)
  {
    hide Walk, Print, SpsNext, Unescape, Escape, Pack, BitsOf, Spliced, Verdict, Accepted, RefsAt, RefsStart, RefsEnd;
    LimitedReparse(nal);
    LimitedLong(nal);
    NalOfReads(nal[0], LimitedBits(nal));
    VerdictZero(SpsWalk(Limited(nal)));
  }

  lemma LimitedReparse(nal: seq<byte>)
    requires FormatCode(nal) == 0
    ensures Reparses(LimitedBits(nal), LimitedVals(nal)) && Accepted(LimitedVals(nal))
    ensures Accepted(SpsWalk(nal).vals) && FormatOf(LimitedVals(nal)) == FormatOf(SpsWalk(nal).vals).(refs := 1)
  {
    hide Walk, Print, SpsNext, Unescape, BitsOf, Spliced, Verdict, RefsAt, RefsStart, RefsEnd, Reparses;
    var w := SpsWalk(nal);
    VerdictZero(w);
    FormatSpells(nal);
    SplicedWalk(RbspBits(nal), w.vals, w.rest);
    OneRefAccepted(w.vals);
  }

  lemma ThreeFields(v: seq<int>)
    requires |v| >= 3 && Follows(SpsNext, v, 0)
    ensures |Print(SpsNext, v, 0)| >= 24
  {
    NextAt(v[..0]);
    NextAt(v[..1]);
    NextAt(v[..2]);
    hide SpsNext;
    PrintStep(SpsNext, v, 0);
    PrintStep(SpsNext, v, 1);
    PrintStep(SpsNext, v, 2);
  }

  lemma SplicedLong(bits: seq<bool>, v: seq<int>, rest: seq<bool>, start: nat, end: nat, stop: nat, u: seq<int>)
    requires Spells(bits, v, rest) && start == RefsStart(v) && end == RefsEnd(v) && stop == Stop(bits)
    requires RefsAt(v) < |v| && u == v[RefsAt(v) := 1]
    ensures start <= end <= stop && |Spliced(bits, start, end)| >= 32
    ensures end - start >= 3 && stop < |bits| && |bits| % 8 == 0 ==> |Spliced(bits, start, end)| <= |bits|
    ensures |Print(SpsNext, v, 0)| <= stop + 1 ==> |Print(SpsNext, u, 0)| <= |Spliced(bits, start, end)|
  {
    hide Print, SpsNext, Stop, Code, Complete, RefsAt, HeadOk, CropOk, Follows, Trailing, PadTo8, Spliced, AllZero;
    RefsPlace(bits, v, rest);
    SplicedLength(bits, start, end);
    RoundUp(start + 3 + stop - end + 1, |bits|);
    OneRefParts(bits, v, rest, RefsAt(v), u);
    PrintSplit(SpsNext, u, 0, RefsAt(v) + 1);
    RefsLate(v);
    ThreeFields(v[..RefsAt(v)]);
  }

  lemma SplicedLength(bits: seq<bool>, start: nat, end: nat)
    requires start <= end <= Stop(bits)
    ensures var n := start + 3 + Stop(bits) - end + 1; |Spliced(bits, start, end)| == n + PadTo8(n)
  {
    hide Stop, Trailing, PadTo8;
  }

  lemma RoundUp(n: nat, m: nat)
    ensures n <= m && m % 8 == 0 ==> n + PadTo8(n) <= m
    ensures n >= 28 ==> n + PadTo8(n) >= 32
  {}

  lemma RefsLate(v: seq<int>)
    ensures RefsAt(v) >= 6
  {}

  /** The rewrite never grows the RBSP, never shrinks it below the minimum, and keeps its own padding. */
  lemma LimitedLong(nal: seq<byte>)
    requires FormatCode(nal) == 0
    ensures 32 <= |LimitedBits(nal)|
    ensures RefsEnd(SpsWalk(nal).vals) - RefsStart(SpsWalk(nal).vals) >= 3 ==> |LimitedBits(nal)| <= |RbspBits(nal)|
    ensures |Print(SpsNext, SpsWalk(nal).vals, 0)| <= Stop(RbspBits(nal)) + 1 ==>
              |Print(SpsNext, LimitedVals(nal), 0)| <= |LimitedBits(nal)|
  {
    hide Walk, Print, SpsNext, Unescape, BitsOf, Verdict, RefsAt, Stop, Code, Spliced, RefsStart, RefsEnd, Spells,
         Updated, AllZero;
    var w := SpsWalk(nal);
    FormatSpells(nal);
    var v, bits := w.vals, RbspBits(nal);
    RefsPlace(bits, v, w.rest);
    StopFrom(bits, 0);
    SplicedLong(bits, v, w.rest, RefsStart(v), RefsEnd(v), Stop(bits), LimitedVals(nal));
  }
}
