/**
 `avc_sps_normalize_main`: High to Main where no High tool is in use, and the two rewrites chained.
 */
module Normalize {
  import opened Bits
  import opened Syntax
  import opened Emulation
  import opened BitReader
  import opened SpsFormat
  import opened Rewrite
  import opened SpsFixup
  import opened HighMain

  /** What `load_rbsp` and `rbsp_stop_bit` let through. */
  predicate Loads(nal: seq<byte>, t: nat) {
    2 <= |nal| <= 1024 && HasType(nal, t) && Unescape(nal[1..], 0).Some? && !AllZero(RbspBits(nal))
  }

  /** The walk over the payload alone, the stop bit and all after it cut off. */
  function PayloadWalk(nal: seq<byte>): (w: Walked) {
    Walk(SpsNext, [], RbspBits(nal)[..Stop(RbspBits(nal))])
  }

  /** The Main spelling of a plain High NAL. */
  ghost function Mained(nal: seq<byte>): (y: seq<byte>)
    requires |nal| > 0
  {
    var v := PayloadWalk(nal).vals;
    NalOf(nal[0], MainBits(RbspBits(nal), if |v| >= 9 then v[..9] else v))
  }

  /** The payload starts with a plain High head and goes on after it. */
  ghost predicate Convertible(nal: seq<byte>) {
    var v := PayloadWalk(nal).vals;
    PlainHigh(v) && |Print(SpsNext, v[..9], 0)| < Stop(RbspBits(nal))
  }

  /** What a call has done: its code, the NAL written, and whether it reports a conversion. */
  ghost predicate NormalizeOutcome(nal: seq<byte>, cap: nat, code: int, out: seq<byte>, converted: bool) {
    var v := PayloadWalk(nal).vals;
    if cap < 5 || !Loads(nal, 7) || |v| < 4 || v[3] > 31 then code == -1 && out == [] && !converted
    else if v[0] in {66, 77} then
      !converted && if |nal| <= cap then code == 0 && out == nal else code == -1 && out == []
    else if v[0] != HIGH then code == -2 && out == [] && !converted
    else if !Convertible(nal) then code == -3 && out == [] && !converted
    else if |Mained(nal)| <= cap && FormatCode(Mained(nal)) == 0 then code == 0 && out == Mained(nal) && converted
    else code == -1 && out == [] && !converted
  }

  /** profile_idc to seq_parameter_set_id, within the payload. */
  method ReadHead(b: SpsBits, ghost w: Walked)
    returns (profile: nat, constraints: nat, level: nat, spsId: nat, ghost v: seq<int>)
    requires b.Valid() && !b.bad && b.Tracks(SpsNext, [], w)
    modifies b`pos, b`bad
    ensures b.Valid() && b.Tracks(SpsNext, v, w)
    ensures b.bad ==> |w.vals| < 4
    ensures !b.bad ==> v == [profile, constraints, level, spsId] && v <= w.vals
  {
    hide Walk, SpsNext;
    v := [];
    HeadTable(v);
    profile, v := b.U(8, SpsNext, v, w);
    HeadTable(v);
    constraints, v := b.U(8, SpsNext, v, w);
    HeadTable(v);
    level, v := b.U(8, SpsNext, v, w);
    HeadTable(v);
    spsId, v := b.Ue(SpsNext, v, w);
    if !b.bad {
      Judged(w, v, b.Rest());
    }
  }

  /** The High extension: whether it is plain. */
  method ReadExtension(b: SpsBits, ghost v0: seq<int>, ghost w: Walked) returns (plain: bool, ghost v: seq<int>)
    requires b.Valid() && !b.bad && b.Tracks(SpsNext, v0, w) && |v0| == 4 && v0[0] == HIGH && v0 <= w.vals
    modifies b`pos, b`bad
    ensures b.Valid()
    ensures plain <==> PlainExtension(w.vals)
    ensures plain ==> !b.bad && b.Tracks(SpsNext, v, w) && |v| == 9 && v <= w.vals
  {
    hide Walk, SpsNext;
    var chroma, depthLuma, depthChroma, bypass, scaling: nat;
    HeadTable(v0);
    chroma, v := b.Ue(SpsNext, v0, w);
    if !b.bad {
      Judged(w, v, b.Rest());
    }
    if chroma != 1 {
      return false, v;
    }
    HeadTable(v);
    depthLuma, v := b.Ue(SpsNext, v, w);
    HeadTable(v);
    depthChroma, v := b.Ue(SpsNext, v, w);
    HeadTable(v);
    bypass, v := b.U(1, SpsNext, v, w);
    HeadTable(v);
    scaling, v := b.U(1, SpsNext, v, w);
    if !b.bad {
      Judged(w, v, b.Rest());
    }
    plain := !b.bad && depthLuma == 0 && depthChroma == 0 && bypass == 0 && scaling == 0;
  }

  /** The payload walk and the whole RBSP share the head. */
  lemma HeadShared(bits: seq<bool>, stop: nat, v: seq<int>, w: Walked)
    requires stop == Stop(bits) && !AllZero(bits) && w == Walk(SpsNext, [], bits[..stop])
    requires |v| == 9 && v <= w.vals && PlainHigh(v) && v[3] <= 31
    ensures |Print(SpsNext, v, 0)| <= stop && Follows(SpsNext, v, 0)
    ensures |Print(SpsNext, v, 0)| < stop ==> HighSpelled(bits, v)
  {
    hide Walk, SpsNext, Print, Stop, AllZero, Follows;
    PrintWalk(SpsNext, [], bits[..stop]);
    PrintSplit(SpsNext, w.vals, 0, 9);
    assert w.vals[..9] == v;
    assert Print(SpsNext, v, 0) <= bits[..stop] <= bits;
  }

  /** Rewrites the payload held by `b`: Main head, then what follows the extension. */
  method SpellMain(b: SpsBits, level: nat, idEnd: nat, extEnd: nat, stop: nat, ghost bits: seq<bool>, ghost h: seq<int>)
    returns (r: seq<byte>)
    requires b.Valid() && HighSpelled(bits, h) && stop == Stop(bits) && |bits| % 8 == 0 && |bits| <= 8 * CAPACITY
    requires b.content == bits[..stop]
    requires h[2] == level && extEnd == |Print(SpsNext, h, 0)| && idEnd == |Print(SpsNext, h[..4], 0)|
    ensures r == Pack(MainBits(bits, h))
  {
    hide SpsNext, Print, CodeUE, ToBits, Stop, Pack, PadTo8, AllZero, Follows, PlainHigh, Trailing, ByteBit;
    HeadPlace(bits, h);
    StopFrom(bits, extEnd);
    RoundUp(idEnd + stop - extEnd + 1, |bits|);
    var sink := new BitSink();
    var ok := sink.PutBits(77, 8);
    ok := sink.PutBits(0, 8);
    ok := sink.PutBits(level, 8);
    ok := sink.CopyBits(b, 24, idEnd);
    assert b.content[24..idEnd] == bits[24..idEnd];
    assert sink.content == MainHead(h[2], h[3]);
    ok := sink.CopyBits(b, extEnd, stop);
    assert b.content[extEnd..stop] == bits[extEnd..stop];
    ok := sink.Close();
    r := sink.Written();
  }

  /** Writes the Main NAL and checks it by parsing it. */
  method WriteMain(nal: seq<byte>, rbsp: seq<byte>, level: int, spsId: int, dst: array<byte>, cap: nat,
                   ghost h: seq<int>)
    returns (code: int, dstSize: nat)
    requires Loads(nal, 7) && HighSpelled(RbspBits(nal), h) && rbsp == Pack(MainBits(RbspBits(nal), h))
    requires h[2] == level && h[3] == spsId && cap <= dst.Length
    modifies dst
    ensures dstSize <= cap
    ensures var y := NalOf(nal[0], MainBits(RbspBits(nal), h));
      if |y| <= cap && FormatCode(y) == 0 then code == 0 && dst[..dstSize] == y else code == -1 && dstSize == 0
  {
    hide Walk, SpsNext, Print, Unescape, Escape, BitsOf, Pack, Verdict, RefsAt, Stop, FormatOf, HasType, MainBits,
         HighSpelled;
    var ok, size := WriteNal(nal[0], rbsp, dst, cap);
    if !ok {
      return -1, 0;
    }
    var format: Format;
    code, format := StreamFormat(dst[..size]);
    if code != 0 {
      return -1, 0;
    }
    SpelledIdentity(nal, h);
    assert format.profile == 77 && format.spsId == spsId && format.level == level;
    dstSize := size;
  }

  /** An accepted Main spelling has the identity fields it was given. */
  lemma SpelledIdentity(nal: seq<byte>, h: seq<int>)
    requires |nal| > 0 && HighSpelled(RbspBits(nal), h)
    requires FormatCode(NalOf(nal[0], MainBits(RbspBits(nal), h))) == 0
    ensures var f := FormatOf(SpsWalk(NalOf(nal[0], MainBits(RbspBits(nal), h))).vals);
      f.profile == 77 && f.level == h[2] && f.spsId == h[3]
  {
    hide SpsNext, Print, Unescape, Escape, Pack, Stop, Verdict, Walk, PadTo8, AllZero, HasType;
    var bits, y := RbspBits(nal), MainBits(RbspBits(nal), h);
    NalOfReads(nal[0], y);
    VerdictZero(SpsWalk(NalOf(nal[0], y)));
    MainHeadRead(bits, h);
  }

  lemma MainHeadRead(bits: seq<bool>, h: seq<int>)
    requires HighSpelled(bits, h)
    ensures [77, 0, h[2], h[3]] <= Walk(SpsNext, [], MainBits(bits, h)).vals
  {
    hide SpsNext, Print, Stop, Walk, PadTo8, AllZero, CodeUE, ToBits, Follows;
    HeadPlace(bits, h);
    var t := [77, 0, h[2], h[3]];
    MainHeadFollows(h, MainVals(h));
    assert MainVals(h)[..4] == t;
    Print4(t);
    var y := MainBits(bits, h);
    var z := y[|MainHead(h[2], h[3])|..];
    assert y == MainHead(h[2], h[3]) + z;
    PrintedRead(t, z);
  }

  lemma PrintedRead(t: seq<int>, z: seq<bool>)
    requires Follows(SpsNext, t, 0)
    ensures t <= Walk(SpsNext, [], Print(SpsNext, t, 0) + z).vals
  {
    hide SpsNext, Print, Walk, Follows;
    WalkPrint(SpsNext, t, 0, z);
    assert t[..0] == [];
    PrintWalk(SpsNext, t, z);
  }

  /** `avc_sps_normalize_main`; `dst` may be `src`. */
  method NormalizeMain(src: array<byte>, srcSize: nat, dst: array<byte>, cap: nat)
    returns (code: int, dstSize: nat, converted: bool)
    requires srcSize <= src.Length && cap <= dst.Length
    modifies dst
    ensures dstSize <= cap
    ensures NormalizeOutcome(old(src[..srcSize]), cap, code, dst[..dstSize], converted)
  {
    hide Walk, SpsNext, Print, Unescape, Escape, BitsOf, Pack, Verdict, RefsAt, Stop, HasType, MainBits, HighSpelled,
         AllZero, FormatCode;
    dstSize, converted := 0, false;
    var nal := src[..srcSize];
    if cap < 5 || srcSize < 2 || srcSize > 1024 || !HasType(nal, 7) {
      return -1, 0, false;
    }
    var b := new SpsBits();
    var ok := b.Unescaped(nal[1..]);
    if !ok {
      return -1, 0, false;
    }
    assert b.content == RbspBits(nal);
    var stop: nat;
    ok, stop := b.StopBit();
    if !ok {
      return -1, 0, false;
    }
    StopIs(b.content, stop);
    code, dstSize, converted := NormalizeLoaded(nal, b, stop, dst, cap);
  }

  /** The same with the RBSP loaded and its stop bit found. */
  method NormalizeLoaded(nal: seq<byte>, b: SpsBits, stop: nat, dst: array<byte>, cap: nat)
    returns (code: int, dstSize: nat, converted: bool)
    requires Loads(nal, 7) && 5 <= cap <= dst.Length && dst != b.bytes
    requires b.Valid() && b.pos == 0 && !b.bad && b.content == RbspBits(nal)
    requires |b.content| <= 8 * CAPACITY && |b.content| % 8 == 0
    requires stop == Stop(b.content) < |b.content|
    modifies b`pos, b`bad, b`bits, b`content, dst
    ensures dstSize <= cap
    ensures NormalizeOutcome(nal, cap, code, dst[..dstSize], converted)
  {
    hide Walk, SpsNext, Print, RbspBits, Verdict, RefsAt, Stop, HasType, MainBits, HighSpelled, AllZero, FormatCode,
         Loads, Convertible, Mained, b.Spelt;
    dstSize, converted := 0, false;
    ghost var bits := b.content;
    b.SetEnd(stop);
    assert b.Rest() == bits[..stop];
    ghost var w := PayloadWalk(nal);
    var profile, constraints, level, spsId, v := ReadHead(b, w);
    var idEnd := b.pos;
    if b.bad || spsId > 31 {
      return -1, 0, false;
    }
    if profile == 66 || profile == 77 {
      if |nal| > cap {
        return -1, 0, false;
      }
      Copy(nal, dst);
      return 0, |nal|, false;
    }
    if profile != 100 {
      return -2, 0, false;
    }
    code, dstSize, converted := Convert(nal, b, constraints, level, spsId, idEnd, stop, dst, cap, bits, v, w);
  }

  /** The High branch. */
  method Convert(nal: seq<byte>, b: SpsBits, constraints: nat, level: nat, spsId: nat, idEnd: nat, stop: nat,
                 dst: array<byte>, cap: nat, ghost bits: seq<bool>, ghost v0: seq<int>, ghost w: Walked)
    returns (code: int, dstSize: nat, converted: bool)
    requires Loads(nal, 7) && bits == RbspBits(nal) && stop == Stop(bits) && w == PayloadWalk(nal)
    requires b.Valid() && !b.bad && b.content == bits[..stop] && b.Tracks(SpsNext, v0, w) && b.pos == idEnd
    requires v0 == [HIGH, constraints, level, spsId] && v0 <= w.vals && spsId <= 31
    requires cap <= dst.Length && dst != b.bytes && |bits| <= 8 * CAPACITY && |bits| % 8 == 0
    modifies b`pos, b`bad, dst
    ensures dstSize <= cap
    ensures if !Convertible(nal) then code == -3 && dstSize == 0 && !converted
            else if |Mained(nal)| <= cap && FormatCode(Mained(nal)) == 0
            then code == 0 && dst[..dstSize] == Mained(nal) && converted
            else code == -1 && dstSize == 0 && !converted
  {
    hide Walk, SpsNext, Print, Unescape, Escape, BitsOf, Pack, Verdict, RefsAt, Stop, HasType, MainBits, HighSpelled,
         AllZero, FormatCode;
    dstSize, converted := 0, false;
    PositionIs(b.content, b.pos, v0, w);
    var plain, v := ReadExtension(b, v0, w);
    var extEnd := b.pos;
    if !plain || constraints % 4 != 0 {
      return -3, 0, false;
    }
    PositionIs(b.content, b.pos, v, w);
    HeadShared(bits, stop, v, w);
    assert w.vals[..9] == v && v[..4] == v0;
    if extEnd >= stop {
      return -3, 0, false;
    }
    var rbsp := SpellMain(b, level, idEnd, extEnd, stop, bits, v);
    code, dstSize := WriteMain(nal, rbsp, level, spsId, dst, cap, v);
    converted := code == 0;
  }

  // ----- what a conversion means -----

  /** A convertible NAL's head, over its whole RBSP. */
  lemma ConvertibleHead(nal: seq<byte>)
    requires Loads(nal, 7) && Convertible(nal) && PayloadWalk(nal).vals[3] <= 31
    ensures |PayloadWalk(nal).vals| >= 9 && HighSpelled(RbspBits(nal), PayloadWalk(nal).vals[..9])
    ensures Mained(nal) == NalOf(nal[0], MainBits(RbspBits(nal), PayloadWalk(nal).vals[..9]))
  {
    hide Walk, SpsNext, Print, Stop, AllZero, Unescape, HasType, MainBits, HighSpelled;
    HeadShared(RbspBits(nal), Stop(RbspBits(nal)), PayloadWalk(nal).vals[..9], PayloadWalk(nal));
  }

  lemma MainLong(bits: seq<bool>, h: seq<int>)
    requires HighSpelled(bits, h)
    ensures |MainBits(bits, h)| >= 32
  {
    hide SpsNext, Print, Stop, AllZero, PadTo8, CodeUE;
    HeadPlace(bits, h);
    CodeUENonEmpty(h[3]);
    RoundUp(28, 32);
  }

  lemma CodeUENonEmpty(v: nat)
    ensures |CodeUE(v)| >= 1
  {}

  /**
   When the High parse of the input finishes, the result is accepted exactly if it is short enough,
   its values are acceptable as Main and its padding suffices; then the two parses agree value for
   value outside the extension, and the two formats differ in the profile only.
   */
  lemma ConversionAgrees(nal: seq<byte>)
    requires Loads(nal, 7) && Convertible(nal) && PayloadWalk(nal).vals[3] <= 31 && SpsWalk(nal).Done?
    ensures |SpsWalk(nal).vals| >= 9
    ensures var u := MainVals(SpsWalk(nal).vals);
      FormatCode(Mained(nal)) == 0 <==>
        |Mained(nal)| <= 1024 && Accepted(u) && |Print(SpsNext, u, 0)| <= |RbspBits(Mained(nal))|
    ensures FormatCode(Mained(nal)) == 0 ==>
      && SpsWalk(Mained(nal)).vals == MainVals(SpsWalk(nal).vals)
      && FormatOf(SpsWalk(Mained(nal)).vals) == FormatOf(SpsWalk(nal).vals).(profile := 77)
  {
    hide Walk, SpsNext, Print, Stop, AllZero, Unescape, Verdict, MainBits, Convertible, PlainHigh, Mained, NalOf,
         FormatOf;
    ConvertibleHead(nal);
    var bits, h, w := RbspBits(nal), PayloadWalk(nal).vals[..9], SpsWalk(nal);
    MainWalk(bits, h, w.vals, w.rest);
    MainParts(bits, h, w.vals, w.rest, []);
    var y := MainBits(bits, h);
    NalOfReads(nal[0], y);
    MainLong(bits, h);
    VerdictZero(SpsWalk(Mained(nal)));
    HasTypeSame(nal, Mained(nal), 7);
    if Accepted(MainVals(w.vals)) {
      MainComplete(w.vals);
      MainFormat(w.vals);
    }
  }

  lemma HasTypeSame(a: seq<byte>, b: seq<byte>, t: nat)
    requires |a| > 0 && |b| > 0 && a[0] == b[0]
    ensures HasType(a, t) == HasType(b, t)
  {}

  lemma MainComplete(v: seq<int>)
    requires PlainHigh(v) && Complete(MainVals(v))
    ensures Complete(v)
  {
    var u := MainVals(v);
    assert u[4..] == v[9..];
  }

  /** An accepted conversion agrees with the High parse of its input exactly if that parse finishes. */
  lemma AgreesIffFinished(nal: seq<byte>)
    requires Loads(nal, 7) && Convertible(nal) && PayloadWalk(nal).vals[3] <= 31
    requires FormatCode(Mained(nal)) == 0
    ensures |SpsWalk(nal).vals| >= 9 &&
      (SpsWalk(Mained(nal)).vals == MainVals(SpsWalk(nal).vals) <==> SpsWalk(nal).Done?)
  {
    hide Walk, SpsNext, Print, Stop, AllZero, Unescape, Verdict, MainBits, Convertible, PlainHigh, Mained, NalOf,
         Accepted, HasType;
    HighPrefix(nal);
    if SpsWalk(nal).Done? {
      ConversionAgrees(nal);
    } else {
      AcceptedEnds(Mained(nal));
      StarvedGoesOn(nal);
      SameNext(SpsWalk(nal).vals);
    }
  }

  lemma AcceptedEnds(y: seq<byte>)
    requires FormatCode(y) == 0
    ensures SpsNext(SpsWalk(y).vals).None?
  {
    hide Walk, SpsNext, Print, Unescape;
    VerdictZero(SpsWalk(y));
    PrintWalk(SpsNext, [], RbspBits(y));
  }

  lemma StarvedGoesOn(nal: seq<byte>)
    requires SpsWalk(nal).Starved?
    ensures SpsNext(SpsWalk(nal).vals).Some?
  {
    hide Walk, SpsNext, Print, Unescape;
    PrintWalk(SpsNext, [], RbspBits(nal));
  }

  lemma SameNext(v: seq<int>)
    requires PlainHigh(v)
    ensures SpsNext(MainVals(v)) == SpsNext(v)
  {
    SameTable(v, |v|);
    assert MainVals(v)[..|v| - 5] == MainVals(v) && v[..|v|] == v;
  }

  lemma HighPrefix(nal: seq<byte>)
    requires Loads(nal, 7) && Convertible(nal) && PayloadWalk(nal).vals[3] <= 31
    ensures |SpsWalk(nal).vals| >= 9 && PlainHigh(SpsWalk(nal).vals)
  {
    hide Walk, SpsNext, Print, Stop, AllZero, Unescape, MainBits, Mained, NalOf;
    ConvertibleHead(nal);
    var bits, h := RbspBits(nal), PayloadWalk(nal).vals[..9];
    var q := Print(SpsNext, h, 0);
    var x := bits[|q|..];
    assert bits == q + x;
    WalkPrint(SpsNext, h, 0, x);
    assert h[..0] == [];
    PrintWalk(SpsNext, h, x);
  }

  // ----- both rewrites -----

  /** What the inspection accepts, the normalisation passes on unchanged. */
  lemma AcceptedPassesThrough(z: seq<byte>, cap: nat)
    requires FormatCode(z) == 0 && |z| <= cap
    ensures NormalizeOutcome(z, cap, 0, z, false)
  {
    hide Walk, SpsNext, Print, Stop, AllZero, Unescape, Convertible, Mained, RefsAt, RefsStart, RefsEnd, Spells, HeadOk;
    VerdictZero(SpsWalk(z));
    FormatSpells(z);
    var bits, v, rest := RbspBits(z), SpsWalk(z).vals, SpsWalk(z).rest;
    RefsPlace(bits, v, rest);
    IdentityInPayload(bits, v, rest);
    FormatCodeLoads(z);
  }

  lemma FormatCodeLoads(z: seq<byte>)
    requires FormatCode(z) == 0
    ensures 5 <= |z| <= 1024 && HasType(z, 7) && Unescape(z[1..], 0).Some?
    ensures |SpsWalk(z).vals| >= 4 && SpsWalk(z).vals[0] in {66, 77} && SpsWalk(z).vals[3] <= 31
  {}

  lemma IdentityInPayload(bits: seq<bool>, v: seq<int>, rest: seq<bool>)
    requires Spells(bits, v, rest)
    ensures |v| >= 4 && v[..4] <= Walk(SpsNext, [], bits[..Stop(bits)]).vals
  {
    hide Walk, SpsNext, Print, Stop, AllZero, RefsAt, HeadOk, CropOk, Follows;
    RefsPlace(bits, v, rest);
    RefsLate(v);
    var r, t := RefsAt(v), bits[..Stop(bits)];
    OneRef(v);
    PrintSplit(SpsNext, v[..r], 0, 4);
    assert v[..r][..4] == v[..4];
    var p := Print(SpsNext, v[..4], 0);
    assert p <= Print(SpsNext, v[..r], 0) == bits[..RefsStart(v)] <= t;
    assert t == p + t[|p|..];
    WalkPrint(SpsNext, v[..4], 0, t[|p|..]);
    assert v[..4][..0] == [];
    PrintWalk(SpsNext, v[..4], t[|p|..]);
  }

  /** Normalise, then limit: doing it again to a successful result changes nothing. */
  lemma PipelineIdempotent(nal: seq<byte>, cap: nat, y: seq<byte>, converted: bool, z: seq<byte>, refs: int)
    requires NormalizeOutcome(nal, cap, 0, y, converted) && LimitOutcome(y, cap, 0, z, refs)
    ensures NormalizeOutcome(z, cap, 0, z, false)
    ensures RefsOf(z) <= 1 && LimitOutcome(z, cap, 0, z, RefsOf(z))
  {
    hide NormalizeOutcome, Walk, SpsNext, Print, Unescape, Accepted, FormatOf, LimitedBits, Limited;
    if refs > 1 {
      LimitedFormat(y);
      LimitedRefs(y);
    }
    AcceptedPassesThrough(z, cap);
  }

  lemma LimitedRefs(nal: seq<byte>)
    requires FormatCode(nal) == 0 && SpsWalk(Limited(nal)).vals == LimitedVals(nal)
    ensures RefsOf(Limited(nal)) == 1
  {
    hide Walk, SpsNext, Print, Unescape, Limited, Verdict;
    VerdictZero(SpsWalk(nal));
    RefsAtUnseen(SpsWalk(nal).vals);
  }
}
