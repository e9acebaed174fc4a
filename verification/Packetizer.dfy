/**
 `avc_packetize`: one Annex-B access unit into length-prefixed slices and parameter sets.
 */
module Packetizer {
  import opened Bits
  import opened Emulation
  import opened AnnexB

  /** The parameter sets and slices of one access unit; absent parts are empty. */
  datatype Au = Au(sps: seq<byte>, pps: seq<byte>, avcc: seq<byte>, idr: bool, predictive: bool)

  const NO_AU: Au := Au([], [], [], false, false)

  function NalType(nal: seq<byte>): (t: int) {
    if |nal| == 0 then 0 else nal[0] % 32
  }

  function Framed(nal: seq<byte>): (s: seq<byte>)
    ensures |s| == 4 + |nal|
  {
    Be32(|nal|) + nal
  }

  predicate IsSlice(nal: seq<byte>) { NalType(nal) in {1, 5} }

  /** A NAL unit the packetizer passes, whatever its use. */
  predicate Known(nal: seq<byte>) {
    |nal| > 0 && nal[0] < 128 && NalType(nal) in {1, 5, 6, 7, 8, 9, 10, 11, 12}
  }

  /** By the parts of the first byte: forbidden bit, reference idc and type. */
  lemma KnownTypes(forbidden: nat, idc: nat, t: nat, rest: seq<byte>)
    requires forbidden <= 1 && idc <= 3 && t <= 31
    ensures var nal := [(128 * forbidden + 32 * idc + t) as byte] + rest;
            && NalType(nal) == t && (IsSlice(nal) <==> t == 1 || t == 5)
            && (Known(nal) <==> forbidden == 0 && (t == 1 || 5 <= t <= 12))
  {}

  predicate Fits(nal: seq<byte>, used: nat, cap: nat) {
    |nal| <= 0xffff_ffff && used + 4 + |nal| <= cap
  }

  /** What one NAL unit does to the result, or the error it stops with. */
  function Code(au: Au, nal: seq<byte>, cap: nat): (code: int) {
    if |nal| == 0 || nal[0] >= 128 then -3
    else if IsSlice(nal) && !Fits(nal, |au.avcc|, cap) then -4
    else if !Known(nal) then -5
    else 0
  }

  function Add(au: Au, nal: seq<byte>): (r: Au) {
    if NalType(nal) == 7 then au.(sps := nal)
    else if NalType(nal) == 8 then au.(pps := nal)
    else if IsSlice(nal) then
      au.(avcc := au.avcc + Framed(nal), idr := au.idr || NalType(nal) == 5,
          predictive := au.predictive || NalType(nal) == 1)
    else au
  }

  /** The error code and result of packetizing NAL units one after another. */
  function Fold(nals: seq<seq<byte>>, cap: nat, au: Au): (r: (int, Au)) {
    if |nals| == 0 then if au.idr && au.predictive then (-6, NO_AU) else (0, au)
    else if Code(au, nals[0], cap) != 0 then (Code(au, nals[0], cap), NO_AU)
    else Fold(nals[1..], cap, Add(au, nals[0]))
  }

  /** Only zero bytes before the first start code. */
  predicate CleanLead(src: seq<byte>) {
    forall i :: 0 <= i < NextStart(src, 0) ==> src[i] == 0
  }

  function Packetized(src: seq<byte>, cap: nat): (r: (int, Au)) {
    if |src| == 0 then (-1, NO_AU)
    else if !CleanLead(src) then (-2, NO_AU)
    else if NextStart(src, 0) == |src| then (-6, NO_AU)
    else Fold(SplitFrom(src, NextStart(src, 0)), cap, NO_AU)
  }

  // ----- the loop -----

  lemma FoldStep(nals: seq<seq<byte>>, nal: seq<byte>, rest: seq<seq<byte>>, cap: nat, au: Au)
    requires nals == [nal] + rest
    ensures Fold(nals, cap, au)
         == if Code(au, nal, cap) != 0 then (Code(au, nal, cap), NO_AU) else Fold(rest, cap, Add(au, nal))
  {
    assert nals[0] == nal && nals[1..] == rest;
  }

  /** Writes a length prefix and the NAL unit at `used`. */
  method Append(dst: array<byte>, used: nat, nal: seq<byte>) returns (next: nat)
    requires used + 4 + |nal| <= dst.Length
    modifies dst
    ensures next == used + 4 + |nal| && dst[..next] == old(dst[..used]) + Framed(nal)
  {
    var n := |nal|;
    dst[used] := n / 0x100_0000 % 256;
    dst[used + 1] := n / 0x1_0000 % 256;
    dst[used + 2] := n / 256 % 256;
    dst[used + 3] := n % 256;
    assert dst[..used + 4] == old(dst[..used]) + Be32(n);
    var i := 0;
    while i < |nal|
      invariant 0 <= i <= |nal| && dst[..used + 4 + i] == old(dst[..used]) + Be32(n) + nal[..i]
    {
      dst[used + 4 + i] := nal[i];
      assert dst[..used + 4 + i + 1] == dst[..used + 4 + i] + [nal[i]] && nal[..i + 1] == nal[..i] + [nal[i]];
      i := i + 1;
    }
    next := used + 4 + |nal|;
    assert nal[..|nal|] == nal && old(dst[..used]) + Be32(n) + nal == old(dst[..used]) + Framed(nal);
  }

  /** The end of the NAL unit that begins at `begin`: the next start code, and the zeros before it. */
  method FindEnd(src: seq<byte>, begin: nat) returns (next: nat, end: nat)
    requires begin <= |src|
    ensures next == NextStart(src, begin) && begin <= end <= next && src[begin..end] == Trim(src[begin..next])
  {
    end := begin;
    while end < |src| && StartCode(src, end) == 0
      invariant begin <= end <= |src| && forall i :: begin <= i < end ==> StartCode(src, i) == 0
    {
      end := end + 1;
    }
    next := end;
    NextStartIs(src, begin, next);
    while end > begin && src[end - 1] == 0
      invariant begin <= end <= next && forall i :: end <= i < next ==> src[i] == 0
    {
      end := end - 1;
    }
    assert src[begin..next] == src[begin..end] + ZeroBytes(next - end);
    TrimIs(src[begin..end], next - end);
  }

  /** `avc_packetize`. */
  method Packetize(src: seq<byte>, dst: array<byte>, cap: nat) returns (code: int, au: Au)
    requires cap <= dst.Length
    modifies dst
    ensures (code, au) == Packetized(src, cap)
    ensures code == 0 ==> |au.avcc| <= cap && dst[..|au.avcc|] == au.avcc
  {
    hide StartCode, Trim, SplitFrom, Fold, Code, Add;
    au := NO_AU;
    if |src| == 0 {
      return -1, NO_AU;
    }
    var p := 0;
    while p < |src| && StartCode(src, p) == 0
      invariant 0 <= p <= |src| && forall i :: 0 <= i < p ==> StartCode(src, i) == 0 && src[i] == 0
    {
      if src[p] != 0 {
        assert p < NextStart(src, 0);
        return -2, NO_AU;
      }
      p := p + 1;
    }
    NextStartIs(src, 0, p);
    if p == |src| {
      return -6, NO_AU;
    }
    code, au := PacketizeUnits(src, p, dst, cap);
  }

  /** The loop over NAL units. */
  method PacketizeUnits(src: seq<byte>, first: nat, dst: array<byte>, cap: nat) returns (code: int, au: Au)
    requires cap <= dst.Length && first <= |src| && (first < |src| ==> StartCode(src, first) > 0)
    modifies dst
    ensures (code, au) == Fold(SplitFrom(src, first), cap, NO_AU)
    ensures code == 0 ==> |au.avcc| <= cap && dst[..|au.avcc|] == au.avcc
  {
    hide StartCode, Trim, SplitFrom, Fold, Framed;
    var p, used := first, 0;
    au := NO_AU;
    while p < |src|
      invariant first <= p <= |src| && (p < |src| ==> StartCode(src, p) > 0)
      invariant used == |au.avcc| <= cap && dst[..used] == au.avcc
      invariant Fold(SplitFrom(src, first), cap, NO_AU) == Fold(SplitFrom(src, p), cap, au)
    {
      var k := StartCode(src, p);
      var begin := p + k;
      var next, end := FindEnd(src, begin);
      var nal := src[begin..end];
      SplitStep(src, p, k, next);
      FoldStep(SplitFrom(src, p), nal, SplitFrom(src, next), cap, au);
      p := next;
      if |nal| == 0 || nal[0] >= 128 {
        return -3, NO_AU;
      }
      var t := nal[0] % 32;
      if t == 7 {
        au := au.(sps := nal);
      } else if t == 8 {
        au := au.(pps := nal);
      } else if t == 1 || t == 5 {
        if |nal| > 0xffff_ffff || cap - used < 4 || |nal| > cap - used - 4 {
          return -4, NO_AU;
        }
        used := Append(dst, used, nal);
        au := au.(avcc := au.avcc + Framed(nal), idr := au.idr || t == 5, predictive := au.predictive || t == 1);
      } else if t != 6 && t != 9 && t != 10 && t != 11 && t != 12 {
        return -5, NO_AU;
      }
    }
    NoStartAtEnd(src);
    SplitEnd(src, |src|);
    FoldEnd(cap, au);
    if au.idr && au.predictive {
      return -6, NO_AU;
    }
    code := 0;
  }

  lemma FoldEnd(cap: nat, au: Au)
    ensures Fold([], cap, au) == if au.idr && au.predictive then (-6, NO_AU) else (0, au)
  {}

  // ----- what the result means -----

  /** The slices among `nals`, in order. */
  function Slices(nals: seq<seq<byte>>): (r: seq<seq<byte>>) {
    if |nals| == 0 then [] else (if IsSlice(nals[0]) then [nals[0]] else []) + Slices(nals[1..])
  }

  function FramedAll(nals: seq<seq<byte>>): (s: seq<byte>) {
    if |nals| == 0 then [] else Framed(nals[0]) + FramedAll(nals[1..])
  }

  /** The last of type `t`, or `d` if there is none. */
  function LastOf(nals: seq<seq<byte>>, t: int, d: seq<byte>): (r: seq<byte>) {
    if |nals| == 0 then d else LastOf(nals[1..], t, if NalType(nals[0]) == t then nals[0] else d)
  }

  predicate Has(nals: seq<seq<byte>>, t: int) {
    exists i :: 0 <= i < |nals| && NalType(nals[i]) == t
  }

  /** Every NAL unit is passed, and the slices fit length fields and capacity. */
  predicate Passable(nals: seq<seq<byte>>, cap: int) {
    && (forall i :: 0 <= i < |nals| ==> Known(nals[i]) && (IsSlice(nals[i]) ==> |nals[i]| <= 0xffff_ffff))
    && |FramedAll(Slices(nals))| <= cap
  }

  lemma PassableCons(nals: seq<seq<byte>>, cap: int)
    requires |nals| > 0
    ensures Passable(nals, cap) <==>
      Known(nals[0]) && (IsSlice(nals[0]) ==> |nals[0]| <= 0xffff_ffff)
      && Passable(nals[1..], cap - if IsSlice(nals[0]) then 4 + |nals[0]| else 0)
    ensures FramedAll(Slices(nals)) == (if IsSlice(nals[0]) then Framed(nals[0]) else []) + FramedAll(Slices(nals[1..]))
  {
    hide Known, FramedAll, Slices;
    FramedCons(nals);
    var rest := nals[1..];
    assert forall i :: 0 <= i < |rest| ==> rest[i] == nals[i + 1];
    assert forall i :: 0 < i < |nals| ==> nals[i] == rest[i - 1];
  }

  lemma FramedCons(nals: seq<seq<byte>>)
    requires |nals| > 0
    ensures FramedAll(Slices(nals)) == (if IsSlice(nals[0]) then Framed(nals[0]) else []) + FramedAll(Slices(nals[1..]))
  {
    hide Framed;
    var rest := nals[1..];
    if IsSlice(nals[0]) {
      assert ([nals[0]] + Slices(rest))[1..] == Slices(rest);
    } else {
      assert [] + Slices(rest) == Slices(rest) && [] + FramedAll(Slices(rest)) == FramedAll(Slices(rest));
    }
  }

  lemma HasCons(nals: seq<seq<byte>>, t: int)
    requires |nals| > 0
    ensures Has(nals, t) <==> NalType(nals[0]) == t || Has(nals[1..], t)
  {
    var rest := nals[1..];
    if Has(rest, t) {
      var i :| 0 <= i < |rest| && NalType(rest[i]) == t;
      assert NalType(nals[i + 1]) == t;
    }
    if Has(nals, t) && NalType(nals[0]) != t {
      var i :| 0 <= i < |nals| && NalType(nals[i]) == t;
      assert NalType(rest[i - 1]) == t;
    }
  }

  /** What packetizing adds to `au` when nothing stops it. */
  function Summary(nals: seq<seq<byte>>, au: Au): (r: Au) {
    Au(LastOf(nals, 7, au.sps), LastOf(nals, 8, au.pps), au.avcc + FramedAll(Slices(nals)),
       au.idr || Has(nals, 5), au.predictive || Has(nals, 1))
  }

  lemma {:induction false} FoldMeans(nals: seq<seq<byte>>, cap: nat, au: Au)
    requires |au.avcc| <= cap
    ensures Fold(nals, cap, au).0 == 0 <==>
      Passable(nals, cap - |au.avcc|) && !(Summary(nals, au).idr && Summary(nals, au).predictive)
    ensures Fold(nals, cap, au).0 == 0 ==> Fold(nals, cap, au).1 == Summary(nals, au)
    decreases |nals|
  {
    if |nals| == 0 {
      assert au.avcc + [] == au.avcc;
    } else {
      FoldMeansStep(nals, cap, au);
      if Code(au, nals[0], cap) == 0 {
        FoldMeans(nals[1..], cap, Add(au, nals[0]));
      }
    }
  }

  lemma FoldMeansStep(nals: seq<seq<byte>>, cap: nat, au: Au)
    requires |au.avcc| <= cap && |nals| > 0
    ensures Code(au, nals[0], cap) != 0 ==> !Passable(nals, cap - |au.avcc|)
    ensures Code(au, nals[0], cap) == 0 ==>
      && |Add(au, nals[0]).avcc| <= cap
      && Summary(nals[1..], Add(au, nals[0])) == Summary(nals, au)
      && (Passable(nals, cap - |au.avcc|) <==> Passable(nals[1..], cap - |Add(au, nals[0]).avcc|))
  {
    hide Has, FramedAll, Slices;
    PassableCons(nals, cap - |au.avcc|);
    HasCons(nals, 5);
    HasCons(nals, 1);
    var a, b, c := au.avcc, Framed(nals[0]), FramedAll(Slices(nals[1..]));
    assert a + b + c == a + (b + c);
    assert [] + c == c;
  }

  /** What stops the packetizer: the first NAL unit that is not passed after those before it. */
  lemma {:induction false} FoldStops(nals: seq<seq<byte>>, cap: nat, au: Au, i: nat)
    requires |au.avcc| <= cap && i < |nals|
    requires Passable(nals[..i], cap - |au.avcc|) && !Passable(nals[..i + 1], cap - |au.avcc|)
    ensures Fold(nals, cap, au).0 == (if |nals[i]| == 0 || nals[i][0] >= 128 then -3
                                      else if IsSlice(nals[i]) then -4 else -5)
    decreases |nals|
  {
    hide Passable, Add, Known;
    if i == 0 {
      assert nals[..1][1..] == [] && nals[..0] == [];
      PassableCons(nals[..1], cap - |au.avcc|);
      PassableNone(cap - |au.avcc| - if IsSlice(nals[0]) then 4 + |nals[0]| else 0);
      StopsHere(au, nals[0], cap);
    } else {
      assert nals[..i][1..] == nals[1..][..i - 1] && nals[..i + 1][1..] == nals[1..][..i];
      FoldMeansStep(nals[..i], cap, au);
      FoldMeansStep(nals[..i + 1], cap, au);
      FoldStops(nals[1..], cap, Add(au, nals[0]), i - 1);
    }
  }

  lemma PassableNone(cap: int)
    ensures Passable([], cap) <==> cap >= 0
  {}

  lemma StopsHere(au: Au, nal: seq<byte>, cap: nat)
    requires |au.avcc| <= cap
    requires !Known(nal) || (IsSlice(nal) && (|nal| > 0xffff_ffff || cap - |au.avcc| - 4 - |nal| < 0))
    ensures Code(au, nal, cap) == if |nal| == 0 || nal[0] >= 128 then -3 else if IsSlice(nal) then -4 else -5
  {}

  /** Splits length-prefixed bytes. */
  function Unframe(s: seq<byte>): (nals: seq<seq<byte>>) {
    if |s| < 4 || |s| < 4 + FromBe32(s) then []
    else [s[4..4 + FromBe32(s)]] + Unframe(s[4 + FromBe32(s)..])
  }

  lemma {:induction false} UnframeFramed(nals: seq<seq<byte>>)
    requires forall i :: 0 <= i < |nals| ==> |nals[i]| <= 0xffff_ffff
    ensures Unframe(FramedAll(nals)) == nals
  {
    if |nals| > 0 {
      var n, rest := |nals[0]|, FramedAll(nals[1..]);
      UnframeFramed(nals[1..]);
      var s := FramedAll(nals);
      assert s == Be32(n) + (nals[0] + rest);
      Be32RoundTrip(n, nals[0] + rest);
      hide Be32, FromBe32, FramedAll;
      assert s[4..4 + n] == nals[0] && s[4 + n..] == rest;
      assert [nals[0]] + nals[1..] == nals;
    }
  }

  lemma {:induction false} SlicesShort(nals: seq<seq<byte>>, cap: int)
    requires Passable(nals, cap)
    ensures forall i :: 0 <= i < |Slices(nals)| ==> |Slices(nals)[i]| <= 0xffff_ffff
    decreases |nals|
  {
    if |nals| > 0 {
      PassableCons(nals, cap);
      SlicesShort(nals[1..], cap - if IsSlice(nals[0]) then 4 + |nals[0]| else 0);
      hide Passable, Known;
      var rest := Slices(nals[1..]);
      if IsSlice(nals[0]) {
        assert Slices(nals) == [nals[0]] + rest;
      } else {
        assert Slices(nals) == rest;
      }
    }
  }

  /**
   A printed access unit is accepted exactly if every NAL unit is of a known type, the slices fit
   and IDR and predictive slices are not mixed; then the output splits into exactly the slices in
   order and the parameter sets are the last ones printed.
   */
  lemma PacketizePrinted(us: seq<Unit>, tail: nat, cap: nat)
    requires |us| > 0 && AllEnclosed(us)
    ensures var r := Packetized(PrintStream(us, tail), cap); var nals := Nals(us);
      && (r.0 == 0 <==> Passable(nals, cap) && !(Has(nals, 5) && Has(nals, 1)))
      && (r.0 == 0 ==>
            && r.1 == Au(LastOf(nals, 7, []), LastOf(nals, 8, []), FramedAll(Slices(nals)),
                         Has(nals, 5), Has(nals, 1))
            && Unframe(r.1.avcc) == Slices(nals))
  {
    hide StartCode, Passable, Has, FramedAll, Slices, LastOf, Unframe, Fold, SplitFrom, Nals;
    var s := PrintStream(us, tail);
    FirstIs(us, tail);
    SplitPrint(us, tail);
    FirstInside(us, tail);
    assert forall i :: 0 <= i < First(us, tail) ==> s[i] == s[..First(us, tail)][i];
    FoldMeans(Nals(us), cap, NO_AU);
    assert [] + FramedAll(Slices(Nals(us))) == FramedAll(Slices(Nals(us)));
    if Passable(Nals(us), cap) {
      SlicesShort(Nals(us), cap);
      UnframeFramed(Slices(Nals(us)));
    }
  }

  lemma FirstInside(us: seq<Unit>, tail: nat)
    requires |us| > 0
    ensures First(us, tail) < |PrintStream(us, tail)|
  {}

  /** And nothing but a printed access unit is accepted. */
  lemma PacketizeOnlyPrinted(src: seq<byte>, cap: nat) returns (us: seq<Unit>, tail: nat)
    requires Packetized(src, cap).0 == 0
    ensures |us| > 0 && AllEnclosed(us) && src == PrintStream(us, tail)
  {
    hide StartCode, Fold, SplitFrom, Nals, Enclosed, PrintStream, Passable;
    var p := NextStart(src, 0);
    us, tail := PrintSplit(src, 0, p);
    assert src[0..] == src;
    FoldMeans(SplitFrom(src, p), cap, NO_AU);
    KnownNonEmpty(us, cap);
    SplitStep(src, p, StartCode(src, p), NextStart(src, p + StartCode(src, p)));
  }

  lemma KnownNonEmpty(us: seq<Unit>, cap: int)
    requires Passable(Nals(us), cap) && EnclosedIfAny(us)
    ensures AllEnclosed(us)
  {
    hide Enclosed;
    forall i | 0 <= i < |us|
      ensures Enclosed(us[i].nal)
    {
      NalsAt(us, i);
      assert Known(Nals(us)[i]);
    }
  }

  lemma {:induction false} NalsAt(us: seq<Unit>, i: nat)
    requires i < |us|
    ensures Nals(us)[i] == us[i].nal
  {
    if i > 0 {
      NalsAt(us[1..], i - 1);
    }
  }
}
