/**
 The parameter sets the legacy decoder makes up for a configured resolution.
 */
module Synthetic {
  import opened Bits
  import opened Syntax
  import opened Emulation
  import opened BitReader
  import opened SpsFormat
  import SpsRecord
  import opened Rewrite
  import opened Pps
  import opened BitWriter

  /** A resolution whose macroblock grid is the smallest that covers it, within 30x17. */
  predicate Covered(width: int, height: int, mbW: int, mbH: int) {
    1 <= mbW <= 30 && 1 <= mbH <= 17 && 16 * (mbW - 1) < width <= 16 * mbW && 16 * (mbH - 1) < height <= 16 * mbH
  }

  function Level(mbs: int): (level: byte) {
    if mbs <= 99 then 10 else if mbs <= 396 then 20 else if mbs <= 792 then 21 else 30
  }

  /** MaxFS of the four levels, table A-1 of H.264: the macroblocks a frame may have. */
  function MaxFrame(level: int): (mbs: int) {
    match level
    case 10 => 99
    case 20 => 396
    case 21 => 792
    case 30 => 1620
    case _ => 0
  }

  /** The level chosen is the lowest of the four that allows the frame. */
  lemma LevelLowest(mbs: int)
    requires mbs <= 1620
    ensures Level(mbs) as int in {10, 20, 21, 30} && mbs <= MaxFrame(Level(mbs) as int)
    ensures forall l :: l in {10, 20, 21, 30} && mbs <= MaxFrame(l) ==> Level(mbs) as int <= l
  {}

  function CropRight(width: int, mbW: int): (c: int) { (16 * mbW - width) / 2 }

  predicate NeedsCrop(width: int, height: int, mbW: int, mbH: int) {
    CropRight(width, mbW) > 0 || CropRight(height, mbH) > 0
  }

  /** The values of the sequence parameter set. */
  function SpsVals(width: int, height: int, mbW: int, mbH: int): (v: seq<int>) {
    if NeedsCrop(width, height, mbW, mbH)
    then [66, 0xC0, Level(mbW * mbH), 0, 0, 2, 1, 0, mbW - 1, mbH - 1, 1, 0,
          1, 0, CropRight(width, mbW), 0, CropRight(height, mbH), 0]
    else [66, 0xC0, Level(mbW * mbH), 0, 0, 2, 1, 0, mbW - 1, mbH - 1, 1, 0, 0, 0]
  }

  function SpsFields(crop: bool): (fs: seq<Field>) {
    if crop
    then [U(8), U(8), U(8), UE, UE, UE, UE, U(1), UE, UE, U(1), U(1), U(1), UE, UE, UE, UE, U(1)]
    else [U(8), U(8), U(8), UE, UE, UE, UE, U(1), UE, UE, U(1), U(1), U(1), U(1)]
  }

  /** The table along values of this shape, field by field. */
  lemma TableAt(v: seq<int>, crop: bool, i: nat)
    requires |v| == |SpsFields(crop)| && AtRefs(v[..6]) && v[12] == (if crop then 1 else 0) && i < |v|
    ensures SpsNext(v[..i]) == Some(SpsFields(crop)[i])
  {
    hide SpsNext, RefsAt;
    var t := v[..i];
    if i < 6 {
      NextAt(t);
      assert v[..6][0] == v[0];
    } else {
      NextTail(v[..6], t);
    }
  }

  /** Its table is the one above, and its values are all legal. */
  lemma SpsTable(width: int, height: int, mbW: int, mbH: int)
    requires Covered(width, height, mbW, mbH)
    ensures Fields(SpsNext, SpsVals(width, height, mbW, mbH), SpsFields(NeedsCrop(width, height, mbW, mbH)))
    ensures SpsNext(SpsVals(width, height, mbW, mbH)).None?
  {
    hide SpsNext, FieldOk, RefsAt, Level, AtRefs;
    var v, crop := SpsVals(width, height, mbW, mbH), NeedsCrop(width, height, mbW, mbH);
    LegalVals(width, height, mbW, mbH);
    SpsHead(v);
    forall i | 0 <= i < |v|
      ensures SpsNext(v[..i]) == Some(SpsFields(crop)[i]) && FieldOk(SpsFields(crop)[i], v[i])
    {
      TableAt(v, crop, i);
    }
    NextTail(v[..6], v);
  }

  lemma SpsHead(v: seq<int>)
    requires |v| >= 6 && v[0] == 66 && v[1] == 0xC0 && v[3] == 0 && v[4] == 0 && v[5] == 2
    ensures AtRefs(v[..6])
  {
    NextAt(v[..6]);
  }

  lemma LegalVals(width: int, height: int, mbW: int, mbH: int)
    requires Covered(width, height, mbW, mbH)
    ensures ListOk(SpsFields(NeedsCrop(width, height, mbW, mbH)), SpsVals(width, height, mbW, mbH))
  {
    assert Pow2(8) == 256 && Pow2(1) == 2;
  }

  /** The inspection finds the configured size in it, rounded up to even. */
  lemma SpsAccepted(width: int, height: int, mbW: int, mbH: int)
    requires Covered(width, height, mbW, mbH)
    ensures Accepted(SpsVals(width, height, mbW, mbH))
    ensures FormatOf(SpsVals(width, height, mbW, mbH))
         == Format(66, Level(mbW * mbH), 1, 0, 16 * mbW, 16 * mbH, width + width % 2, height + height % 2, 0, 0)
  {
    hide SpsNext, RefsAt, Level;
    var v := SpsVals(width, height, mbW, mbH);
    NextAt(v);
    SpsCrop(width, height, mbW, mbH, v);
  }

  lemma SpsCrop(width: int, height: int, mbW: int, mbH: int, v: seq<int>)
    requires Covered(width, height, mbW, mbH) && v == SpsVals(width, height, mbW, mbH) && RefsAt(v) == 6
    ensures Complete(v) && CropOk(v)
    ensures Crop(v, 0) == 0 && Crop(v, 1) == CropRight(width, mbW)
    ensures Crop(v, 2) == 0 && Crop(v, 3) == CropRight(height, mbH)
  {
    hide RefsAt, Level;
  }

  // ----- zero runs and lengths of short codes -----

  /** Every code is short, and never more than `b` zeros are pending before field `i`. */
  predicate Budget(fs: seq<Field>, v: seq<int>, i: nat, b: nat)
    decreases |fs| - i
  {
    if i >= |fs| || i >= |v| then b <= 6 else
      match fs[i]
      case UE => 0 <= v[i] <= 29 && b <= 6 && Budget(fs, v, i + 1, 4)
      case U(n) => n == 1 && 0 <= v[i] <= 1 && b <= 5 && Budget(fs, v, i + 1, if v[i] == 1 then 0 else b + 1)
      case SE => false
  }

  /** One bit for a flag or a zero, nine for any other code of the budget. */
  function LengthBound(fs: seq<Field>, v: seq<int>, i: nat): (n: nat)
    decreases |fs| - i
  {
    if i >= |fs| || i >= |v| then 0 else
      (if fs[i].UE? && v[i] != 0 then 9 else 1) + LengthBound(fs, v, i + 1)
  }

  lemma FlagCode(x: int)
    requires 0 <= x <= 1
    ensures Code(U(1), x) == [x == 1]
  {
    assert Pow2(1) == 2;
    assert ToBits(x, 0) == [];
  }

  lemma UeLength(x: nat)
    requires x <= 29
    ensures FieldOk(UE, x) && Code(UE, x) == CodeUE(x) && |Code(UE, x)| <= if x == 0 then 1 else 9
  {
    CodeUEShape(x);
    ShortLog(x);
  }

  lemma {:induction false} CodesRun(fs: seq<Field>, v: seq<int>, i: nat, r: nat, b: nat)
    requires r <= b && Budget(fs, v, i, b)
    ensures RunOk(Codes(fs, v, i), r) && RunOut(Codes(fs, v, i), r) <= 6
    ensures |Codes(fs, v, i)| <= LengthBound(fs, v, i)
    decreases |fs| - i
  {
    hide Code, CodeUE;
    if i < |fs| && i < |v| {
      var c := Code(fs[i], v[i]);
      RunJoin(c, Codes(fs, v, i + 1), r);
      if fs[i].UE? {
        UeLength(v[i]);
        RunCode(v[i], r);
        CodesRun(fs, v, i + 1, RunOut(c, r), 4);
      } else {
        FlagCode(v[i]);
        assert RunOut(c, r) == if v[i] == 1 then 0 else r + 1;
        CodesRun(fs, v, i + 1, RunOut(c, r), if v[i] == 1 then 0 else b + 1);
      }
    }
  }

  /** Closing such a payload never puts two zero bytes side by side. */
  lemma ClosedNoPair(s: seq<bool>)
    requires RunOk(s, 0) && RunOut(s, 0) <= 15
    ensures NoZeroPair(Pack(Closed(s)))
  {
    hide RunOk, RunOut, Pack, PadTo8;
    var z := Zeros(PadTo8(|s| + 1));
    RunJoin(s, [true] + z, 0);
    RunJoin([true], z, RunOut(s, 0));
    RunShort(z, 0);
    OneBit(RunOut(s, 0));
    BitsOfPack(Closed(s));
    RunNoPair(Pack(Closed(s)));
  }

  lemma OneBit(r: nat)
    requires r < 16
    ensures RunOk([true], r) && RunOut([true], r) == 0
  {
    assert [true][1..] == [];
  }

  lemma SpsBudget(width: int, height: int, mbW: int, mbH: int)
    requires Covered(width, height, mbW, mbH)
    ensures Budget(SpsFields(NeedsCrop(width, height, mbW, mbH)), SpsVals(width, height, mbW, mbH), 3, 0)
  {
    var v, crop := SpsVals(width, height, mbW, mbH), NeedsCrop(width, height, mbW, mbH);
    var fs := SpsFields(crop);
    if crop {
      assert Budget(fs, v, 18, 5);
      assert Budget(fs, v, 17, 4);
      assert Budget(fs, v, 16, 4) && Budget(fs, v, 15, 4) && Budget(fs, v, 14, 4) && Budget(fs, v, 13, 0);
      assert Budget(fs, v, 12, 1);
    } else {
      assert Budget(fs, v, 14, 3);
      assert Budget(fs, v, 13, 2);
      assert Budget(fs, v, 12, 1);
    }
    assert Budget(fs, v, 11, 0);
    assert Budget(fs, v, 10, 4);
    assert Budget(fs, v, 9, 4);
    assert Budget(fs, v, 8, 5);
    assert Budget(fs, v, 7, 4);
    assert Budget(fs, v, 6, 4) && Budget(fs, v, 5, 4) && Budget(fs, v, 4, 4);
  }

  lemma SpsLength(width: int, height: int, mbW: int, mbH: int)
    ensures LengthBound(SpsFields(NeedsCrop(width, height, mbW, mbH)), SpsVals(width, height, mbW, mbH), 3) <= 63
  {
    var v, crop := SpsVals(width, height, mbW, mbH), NeedsCrop(width, height, mbW, mbH);
    var fs := SpsFields(crop);
    assert LengthBound(fs, v, |fs|) == 0;
    if crop {
      assert LengthBound(fs, v, 16) <= 10;
      assert LengthBound(fs, v, 14) <= 20;
      assert LengthBound(fs, v, 12) <= 22;
    } else {
      assert LengthBound(fs, v, 12) <= 2;
    }
    assert LengthBound(fs, v, 10) <= 24;
    assert LengthBound(fs, v, 8) <= 42;
    assert LengthBound(fs, v, 6) <= 52;
    assert LengthBound(fs, v, 4) <= 62;
  }

  // ----- the two NALs -----

  /** Everything after the level byte. */
  function SpsBody(width: int, height: int, mbW: int, mbH: int): (s: seq<bool>) {
    Codes(SpsFields(NeedsCrop(width, height, mbW, mbH)), SpsVals(width, height, mbW, mbH), 3)
  }

  function SyntheticSps(width: int, height: int, mbW: int, mbH: int): (nal: seq<byte>) {
    [0x67, 66, 0xC0, Level(mbW * mbH)] + Pack(Closed(SpsBody(width, height, mbW, mbH)))
  }

  lemma NoPairAfter(a: byte, r: seq<byte>)
    requires a != 0 && NoZeroPair(r)
    ensures NoZeroPair([a] + r)
  {}

  /** The body needs no emulation prevention, which is just as well: none is written. */
  lemma SpsPlain(width: int, height: int, mbW: int, mbH: int)
    requires Covered(width, height, mbW, mbH)
    ensures NoZeroPair(SyntheticSps(width, height, mbW, mbH)[1..])
    ensures |SpsBody(width, height, mbW, mbH)| <= 63
  {
    hide Budget, RunOk, RunOut, Codes, Pack, NoZeroPair, Closed;
    SpsBudget(width, height, mbW, mbH);
    var v, fs := SpsVals(width, height, mbW, mbH), SpsFields(NeedsCrop(width, height, mbW, mbH));
    CodesRun(fs, v, 3, 0, 0);
    SpsLength(width, height, mbW, mbH);
    var r := Pack(Closed(Codes(fs, v, 3)));
    ClosedNoPair(Codes(fs, v, 3));
    var l := Level(mbW * mbH);
    NoPairAfter(l, r);
    NoPairAfter(0xC0, [l] + r);
    NoPairAfter(66, [0xC0] + ([l] + r));
    assert SyntheticSps(width, height, mbW, mbH)[1..] == [66] + ([0xC0] + ([l] + r));
  }

  lemma SpsSpelt(width: int, height: int, mbW: int, mbH: int)
    requires Covered(width, height, mbW, mbH)
    ensures Follows(SpsNext, SpsVals(width, height, mbW, mbH), 0)
    ensures Print(SpsNext, SpsVals(width, height, mbW, mbH), 0)
         == ToBits(66, 8) + (ToBits(0xC0, 8) + (ToBits(Level(mbW * mbH), 8) + SpsBody(width, height, mbW, mbH)))
  {
    hide Codes, Print, Follows, SpsNext, ToBits, Level;
    var v, fs := SpsVals(width, height, mbW, mbH), SpsFields(NeedsCrop(width, height, mbW, mbH));
    SpsTable(width, height, mbW, mbH);
    PrintFields(SpsNext, v, fs, 0);
    CodesStep(fs, v, 0);
    CodesStep(fs, v, 1);
    CodesStep(fs, v, 2);
    OctetCode(66);
    OctetCode(0xC0);
    OctetCode(Level(mbW * mbH));
  }

  lemma OctetCode(x: int)
    requires 0 <= x < 256
    ensures Code(U(8), x) == ToBits(x, 8)
  {
    assert Pow2(8) == 256;
  }

  /** A payload that needs no escaping is its own RBSP. */
  lemma PlainNal(nal: seq<byte>)
    requires |nal| > 0 && NoZeroPair(nal[1..])
    ensures Unescape(nal[1..], 0).Some? && RbspBits(nal) == BitsOf(nal[1..])
  {
    EscapePlain(nal[1..], 0);
    UnescapeEscape(nal[1..], 0);
  }

  lemma SpsBits(width: int, height: int, mbW: int, mbH: int)
    requires Covered(width, height, mbW, mbH)
    ensures RbspBits(SyntheticSps(width, height, mbW, mbH))
         == Print(SpsNext, SpsVals(width, height, mbW, mbH), 0) + Trailing(|SpsBody(width, height, mbW, mbH)|)
    ensures Unescape(SyntheticSps(width, height, mbW, mbH)[1..], 0).Some?
  {
    hide Codes, Print, SpsNext, ToBits, Level, Pack, Unescape, BitsOf, Trailing, NoZeroPair, SpsVals, RbspBits;
    var nal, body, l := SyntheticSps(width, height, mbW, mbH), SpsBody(width, height, mbW, mbH), Level(mbW * mbH);
    SpsPlain(width, height, mbW, mbH);
    PlainNal(nal);
    SpsSpelt(width, height, mbW, mbH);
    var r := Pack(Closed(body));
    BitsOfPack(Closed(body));
    assert nal[1..] == [66] + ([0xC0] + ([l] + r));
    BitsOfConcat([66], [0xC0] + ([l] + r));
    BitsOfConcat([0xC0], [l] + r);
    BitsOfConcat([l], r);
    ByteBits(66);
    ByteBits(0xC0);
    ByteBits(l);
    Regroup(ToBits(66, 8), ToBits(0xC0, 8), ToBits(l, 8), body, Trailing(|body|));
  }

  lemma Regroup(a: seq<bool>, b: seq<bool>, c: seq<bool>, d: seq<bool>, e: seq<bool>)
    ensures a + (b + (c + (d + e))) == a + (b + (c + d)) + e
  {}

  /** The synthetic sequence parameter set is accepted, with the configured size rounded up to even. */
  lemma SyntheticSpsParses(width: int, height: int, mbW: int, mbH: int)
    requires Covered(width, height, mbW, mbH)
    ensures FormatCode(SyntheticSps(width, height, mbW, mbH)) == 0
    ensures FormatOf(SpsWalk(SyntheticSps(width, height, mbW, mbH)).vals)
         == Format(66, Level(mbW * mbH), 1, 0, 16 * mbW, 16 * mbH, width + width % 2, height + height % 2, 0, 0)
  {
    hide Codes, Print, SpsNext, Level, Pack, Unescape, BitsOf, Trailing, Walk, Verdict, Accepted, RbspBits, FormatOf;
    var nal, v := SyntheticSps(width, height, mbW, mbH), SpsVals(width, height, mbW, mbH);
    SpsPlain(width, height, mbW, mbH);
    SpsBits(width, height, mbW, mbH);
    SpsSpelt(width, height, mbW, mbH);
    SpsTable(width, height, mbW, mbH);
    SpsAccepted(width, height, mbW, mbH);
    var t := Trailing(|SpsBody(width, height, mbW, mbH)|);
    WalkPrint(SpsNext, v, 0, t);
    assert v[..0] == [];
    WalkEnds(SpsNext, v, t);
    VerdictZero(SpsWalk(nal));
  }

  /** Baseline, one reference frame, frames only; the right and bottom edges cut by whole pairs of samples. */
  function RecordFor(width: int, height: int, mbW: int, mbH: int): (r: SpsRecord.Sps)
    requires Covered(width, height, mbW, mbH)
  {
    var right, bottom := (16 * mbW - width) / 2, (16 * mbH - height) / 2;
    SpsRecord.Sps(66, 0xC0, Level(mbW * mbH), 0, 0, SpsRecord.Implied, 1, false, mbW - 1, mbH - 1, true, false,
                  if right >= 1 || bottom >= 1 then Some(SpsRecord.Sides(0, right, 0, bottom)) else None, false)
  }

  /** By fields: what the synthetic sequence parameter set spells, and nothing but a stop bit after it. */
  lemma SyntheticSpells(width: int, height: int, mbW: int, mbH: int) returns (n: nat)
    requires Covered(width, height, mbW, mbH)
    ensures RbspBits(SyntheticSps(width, height, mbW, mbH))
         == SpsRecord.Spell(RecordFor(width, height, mbW, mbH), Trailing(n))
  {
    hide Codes, Print, SpsNext, Level, Pack, Unescape, BitsOf, Trailing, Walk, RbspBits, Follows, SpsRecord.Spell;
    var r, v := RecordFor(width, height, mbW, mbH), SpsVals(width, height, mbW, mbH);
    n := |SpsBody(width, height, mbW, mbH)|;
    SpsBits(width, height, mbW, mbH);
    assert SpsRecord.Values(r) == v;
    SpsRecord.WalkSpelt(r, Trailing(n));
    PrintWalk(SpsNext, [], SpsRecord.Spell(r, Trailing(n)));
  }

  const PPS_VALS: seq<int> := [0, 0, 0, 0, 0, 0, 0, 0, 0, 0, 0, 0, 1, 0, 0]

  function SyntheticPps(): (nal: seq<byte>) {
    [0x68] + Pack(Closed(Codes(PPS_FIELDS, PPS_VALS, 0)))
  }

  lemma PpsLegal()
    ensures ListOk(PPS_FIELDS, PPS_VALS)
  {
    assert Pow2(1) == 2 && Pow2(2) == 4;
  }

  lemma PpsBits()
    ensures var s := Codes(PPS_FIELDS, PPS_VALS, 0); |s| == 16 && s[0]
  {
    hide Codes, Code;
    PpsCodes();
    CodesEnd(PPS_FIELDS, PPS_VALS, 15);
    CodesStep(PPS_FIELDS, PPS_VALS, 14);
    CodesStep(PPS_FIELDS, PPS_VALS, 13);
    CodesStep(PPS_FIELDS, PPS_VALS, 12);
    CodesStep(PPS_FIELDS, PPS_VALS, 11);
    CodesStep(PPS_FIELDS, PPS_VALS, 10);
    CodesStep(PPS_FIELDS, PPS_VALS, 9);
    CodesStep(PPS_FIELDS, PPS_VALS, 8);
    CodesStep(PPS_FIELDS, PPS_VALS, 7);
    CodesStep(PPS_FIELDS, PPS_VALS, 6);
    CodesStep(PPS_FIELDS, PPS_VALS, 5);
    CodesStep(PPS_FIELDS, PPS_VALS, 4);
    CodesStep(PPS_FIELDS, PPS_VALS, 3);
    CodesStep(PPS_FIELDS, PPS_VALS, 2);
    CodesStep(PPS_FIELDS, PPS_VALS, 1);
    CodesStep(PPS_FIELDS, PPS_VALS, 0);
  }

  lemma PpsCodes()
    ensures Code(UE, 0) == [true] && Code(SE, 0) == [true] && |Code(U(1), 0)| == |Code(U(1), 1)| == 1
    ensures |Code(U(2), 0)| == 2
  {
    FlagCode(0);
    FlagCode(1);
    assert Pow2(2) == 4;
    assert Log2(1) == 0 && ToBits(1, 1) == [true] && Zeros(0) == [];
  }

  /** The synthetic picture parameter set is Main for parameter set 0, and CAVLC. */
  lemma SyntheticPpsValid()
    ensures MainPps(SyntheticPps(), 0, PPS_VALS) && PPS_VALS[2] == 0 && |SyntheticPps()| == 4
  {
    hide Codes, Pack, Unescape, BitsOf, Stop, AllZero, NoZeroPair, RunOk, RunOut, ListOk;
    PpsLegal();
    PpsBits();
    var nal, s := SyntheticPps(), Codes(PPS_FIELDS, PPS_VALS, 0);
    assert s == [true] + s[1..];
    RunJoin([true], s[1..], 0);
    OneBit(0);
    RunShort(s[1..], 0);
    ClosedNoPair(s);
    assert nal[1..] == Pack(Closed(s));
    PlainNal(nal);
    BitsOfPack(Closed(s));
    ClosedStop(s);
    assert Closed(s)[..|s|] == s;
  }

  /** By fields: all zero but the deblocking flag. */
  lemma SyntheticPpsSpells()
    ensures Payload(SyntheticPps())
         == Spell(PictureSet(0, 0, false, false, 0, 0, 0, false, 0, 0, 0, 0, true, false, false))
  {
    hide Codes, Spell, MainPps, Payload;
    var r := PictureSet(0, 0, false, false, 0, 0, 0, false, 0, 0, 0, 0, true, false, false);
    SyntheticPpsValid();
    assert Values(r) == PPS_VALS;
    SpeltCodes(r);
    PpsIsSpelt();
  }

  lemma PpsIsSpelt()
    requires MainPps(SyntheticPps(), 0, PPS_VALS)
    ensures Payload(SyntheticPps()) == Codes(PPS_FIELDS, PPS_VALS, 0)
  {}

  // ----- generation -----

  /** The codewords of fields `i` to `j`. */
  function UpTo(fs: seq<Field>, v: seq<int>, i: nat, j: nat): (s: seq<bool>) {
    if j <= i || j > |fs| || j > |v| then [] else UpTo(fs, v, i, j - 1) + Code(fs[j - 1], v[j - 1])
  }

  lemma {:induction false} UpToCodes(fs: seq<Field>, v: seq<int>, i: nat, j: nat)
    requires i <= j <= |fs| == |v|
    ensures UpTo(fs, v, i, j) + Codes(fs, v, j) == Codes(fs, v, i)
    decreases j
  {
    hide Code;
    if i < j {
      UpToCodes(fs, v, i, j - 1);
      assert UpTo(fs, v, i, j - 1) + (Code(fs[j - 1], v[j - 1]) + Codes(fs, v, j))
          == UpTo(fs, v, i, j - 1) + Code(fs[j - 1], v[j - 1]) + Codes(fs, v, j);
    }
  }

  /** The writer holds fields `i` to `j` of a list that fits it whole. */
  ghost predicate Holds(bw: Writer, fs: seq<Field>, v: seq<int>, i: nat, j: nat)
    reads bw, bw.buf
  {
    && bw.Valid() && ListOk(fs, v) && i <= j <= |fs| && bw.content == UpTo(fs, v, i, j)
    && |Codes(fs, v, i)| < 8 * bw.buf.Length
  }

  lemma HoldsNext(fs: seq<Field>, v: seq<int>, i: nat, j: nat, cap: nat)
    requires i <= j < |fs| == |v| && |Codes(fs, v, i)| < 8 * cap
    ensures UpTo(fs, v, i, j + 1) == UpTo(fs, v, i, j) + Code(fs[j], v[j])
    ensures |UpTo(fs, v, i, j + 1)| < 8 * cap
  {
    hide Code, Codes;
    UpToCodes(fs, v, i, j + 1);
  }

  method PutUeField(bw: Writer, x: nat, ghost fs: seq<Field>, ghost v: seq<int>, ghost i: nat, ghost j: nat)
    requires Holds(bw, fs, v, i, j) && j < |fs| && fs[j] == UE && v[j] == x
    modifies bw, bw.buf
    ensures Holds(bw, fs, v, i, j + 1)
  {
    hide Codes, UpTo, CodeUE;
    HoldsNext(fs, v, i, j, bw.buf.Length);
    bw.PutUe(x);
  }

  method PutFlag(bw: Writer, x: bool, ghost fs: seq<Field>, ghost v: seq<int>, ghost i: nat, ghost j: nat)
    requires Holds(bw, fs, v, i, j) && j < |fs| && fs[j] == U(1) && v[j] == (if x then 1 else 0)
    modifies bw, bw.buf
    ensures Holds(bw, fs, v, i, j + 1)
  {
    hide Codes, UpTo;
    HoldsNext(fs, v, i, j, bw.buf.Length);
    FlagCode(v[j]);
    bw.PutBit(x);
  }

  /** The fields and values up to direct_8x8_inference_flag, crop or no crop. */
  predicate CommonShape(fs: seq<Field>, v: seq<int>, mbW: int, mbH: int) {
    && |fs| == |v| >= 14
    && fs[3] == fs[4] == fs[5] == fs[6] == fs[8] == fs[9] == UE && fs[7] == fs[10] == fs[11] == fs[12] == U(1)
    && v[3] == v[4] == v[7] == v[11] == 0 && v[5] == 2 && v[6] == v[10] == 1 && v[8] == mbW - 1 && v[9] == mbH - 1
  }

  predicate CropShape(fs: seq<Field>, v: seq<int>, right: int, bottom: int) {
    && |fs| == |v| == 18 && fs[13] == fs[14] == fs[15] == fs[16] == UE && fs[17] == U(1)
    && v[12] == 1 && v[13] == v[15] == v[17] == 0 && v[14] == right && v[16] == bottom
  }

  predicate PlainShape(fs: seq<Field>, v: seq<int>) {
    |fs| == |v| == 14 && fs[13] == U(1) && v[12] == v[13] == 0
  }

  lemma Shapes(width: int, height: int, mbW: int, mbH: int)
    ensures var fs, v := SpsFields(NeedsCrop(width, height, mbW, mbH)), SpsVals(width, height, mbW, mbH);
      && CommonShape(fs, v, mbW, mbH)
      && (NeedsCrop(width, height, mbW, mbH) ==> CropShape(fs, v, CropRight(width, mbW), CropRight(height, mbH)))
      && (!NeedsCrop(width, height, mbW, mbH) ==> PlainShape(fs, v))
  {}

  method WriteCommon(bw: Writer, mbW: int, mbH: int, ghost fs: seq<Field>, ghost v: seq<int>)
    requires Holds(bw, fs, v, 3, 3) && CommonShape(fs, v, mbW, mbH) && mbW >= 1 && mbH >= 1
    modifies bw, bw.buf
    ensures Holds(bw, fs, v, 3, 12)
  {
    hide Codes, UpTo, ListOk, Holds;
    PutUeField(bw, 0, fs, v, 3, 3);
    PutUeField(bw, 0, fs, v, 3, 4);
    PutUeField(bw, 2, fs, v, 3, 5);
    PutUeField(bw, 1, fs, v, 3, 6);
    PutFlag(bw, false, fs, v, 3, 7);
    PutUeField(bw, mbW - 1, fs, v, 3, 8);
    PutUeField(bw, mbH - 1, fs, v, 3, 9);
    PutFlag(bw, true, fs, v, 3, 10);
    PutFlag(bw, false, fs, v, 3, 11);
  }

  method WriteCrop(bw: Writer, right: int, bottom: int, ghost fs: seq<Field>, ghost v: seq<int>)
    requires Holds(bw, fs, v, 3, 12) && CropShape(fs, v, right, bottom) && fs[12] == U(1) && right >= 0 && bottom >= 0
    modifies bw, bw.buf
    ensures Holds(bw, fs, v, 3, 17)
  {
    hide Codes, UpTo, ListOk, Holds;
    PutFlag(bw, true, fs, v, 3, 12);
    PutUeField(bw, 0, fs, v, 3, 13);
    PutUeField(bw, right, fs, v, 3, 14);
    PutUeField(bw, 0, fs, v, 3, 15);
    PutUeField(bw, bottom, fs, v, 3, 16);
  }

  /** The body of the sequence parameter set. */
  method WriteSpsBody(width: int, height: int, mbW: int, mbH: int) returns (r: seq<byte>)
    requires Covered(width, height, mbW, mbH)
    ensures r == Pack(Closed(SpsBody(width, height, mbW, mbH)))
  {
    hide Codes, UpTo, Pack, ListOk, Holds, SpsVals, SpsFields, Closed, CommonShape;
    ghost var v, fs := SpsVals(width, height, mbW, mbH), SpsFields(NeedsCrop(width, height, mbW, mbH));
    SpsPlain(width, height, mbW, mbH);
    LegalVals(width, height, mbW, mbH);
    Shapes(width, height, mbW, mbH);
    FlagNext(fs, v, mbW, mbH);
    var bw := new Writer(32);
    HoldsNothing(bw, fs, v, 3);
    WriteCommon(bw, mbW, mbH, fs, v);
    if NeedsCrop(width, height, mbW, mbH) {
      WriteCrop(bw, CropRight(width, mbW), CropRight(height, mbH), fs, v);
      PutFlag(bw, false, fs, v, 3, 17);
    } else {
      PutFlag(bw, false, fs, v, 3, 12);
      PutFlag(bw, false, fs, v, 3, 13);
    }
    r := TakeBody(bw, fs, v, 3);
  }

  lemma FlagNext(fs: seq<Field>, v: seq<int>, mbW: int, mbH: int)
    requires CommonShape(fs, v, mbW, mbH)
    ensures |fs| == |v| >= 14 && fs[12] == U(1)
  {}

  /** Closes the writer and takes its bytes. */
  method TakeBody(bw: Writer, ghost fs: seq<Field>, ghost v: seq<int>, ghost i: nat) returns (r: seq<byte>)
    requires Holds(bw, fs, v, i, |fs|)
    modifies bw, bw.buf
    ensures r == Pack(Closed(Codes(fs, v, i)))
  {
    hide Codes, UpTo, Pack, PadTo8;
    UpToCodes(fs, v, i, |fs|);
    CodesEnd(fs, v, |fs|);
    assert bw.content + [] == bw.content;
    RoundUp(|bw.content| + 1, 8 * bw.buf.Length);
    var n := bw.Trail();
    r := bw.buf[..n];
    assert BitsOf(r) == bw.content;
    PackBitsOf(r);
  }

  lemma HoldsNothing(bw: Writer, fs: seq<Field>, v: seq<int>, i: nat)
    requires bw.Valid() && bw.content == [] && ListOk(fs, v) && i <= |fs| && |Codes(fs, v, i)| < 8 * bw.buf.Length
    ensures Holds(bw, fs, v, i, i)
  {}

  method PutSeField(bw: Writer, x: int, ghost fs: seq<Field>, ghost v: seq<int>, ghost i: nat, ghost j: nat)
    requires Holds(bw, fs, v, i, j) && j < |fs| && fs[j] == SE && v[j] == x
    modifies bw, bw.buf
    ensures Holds(bw, fs, v, i, j + 1)
  {
    hide Codes, UpTo, CodeUE;
    HoldsNext(fs, v, i, j, bw.buf.Length);
    bw.PutSe(x);
  }

  method PutBitsField(bw: Writer, x: nat, n: nat, ghost fs: seq<Field>, ghost v: seq<int>, ghost i: nat, ghost j: nat)
    requires Holds(bw, fs, v, i, j) && j < |fs| && fs[j] == U(n) && v[j] == x
    modifies bw, bw.buf
    ensures Holds(bw, fs, v, i, j + 1)
  {
    hide Codes, UpTo, ToBits;
    HoldsNext(fs, v, i, j, bw.buf.Length);
    bw.PutBits(x, n);
  }

  /** The body of the picture parameter set. */
  method WritePpsBody() returns (r: seq<byte>)
    ensures r == Pack(Closed(Codes(PPS_FIELDS, PPS_VALS, 0)))
  {
    hide Codes, UpTo, Pack, ListOk, Holds, Closed;
    ghost var v, fs := PPS_VALS, PPS_FIELDS;
    PpsLegal();
    PpsBits();
    var bw := new Writer(16);
    HoldsNothing(bw, fs, v, 0);
    PutUeField(bw, 0, fs, v, 0, 0);
    PutUeField(bw, 0, fs, v, 0, 1);
    PutFlag(bw, false, fs, v, 0, 2);
    PutFlag(bw, false, fs, v, 0, 3);
    WritePpsMiddle(bw);
    WritePpsEnd(bw);
    r := TakeBody(bw, fs, v, 0);
  }

  /** num_slice_groups_minus1 to weighted_pred_flag. */
  method WritePpsMiddle(bw: Writer)
    requires Holds(bw, PPS_FIELDS, PPS_VALS, 0, 4)
    modifies bw, bw.buf
    ensures Holds(bw, PPS_FIELDS, PPS_VALS, 0, 8)
  {
    hide Codes, UpTo, ListOk, Holds;
    ghost var v, fs := PPS_VALS, PPS_FIELDS;
    PutUeField(bw, 0, fs, v, 0, 4);
    PutUeField(bw, 0, fs, v, 0, 5);
    PutUeField(bw, 0, fs, v, 0, 6);
    PutFlag(bw, false, fs, v, 0, 7);
  }

  /** weighted_bipred_idc on. */
  method WritePpsEnd(bw: Writer)
    requires Holds(bw, PPS_FIELDS, PPS_VALS, 0, 8)
    modifies bw, bw.buf
    ensures Holds(bw, PPS_FIELDS, PPS_VALS, 0, 15)
  {
    hide Codes, UpTo, ListOk, Holds;
    ghost var v, fs := PPS_VALS, PPS_FIELDS;
    PutBitsField(bw, 0, 2, fs, v, 0, 8);
    PutSeField(bw, 0, fs, v, 0, 9);
    PutSeField(bw, 0, fs, v, 0, 10);
    PutSeField(bw, 0, fs, v, 0, 11);
    PutFlag(bw, true, fs, v, 0, 12);
    PutFlag(bw, false, fs, v, 0, 13);
    PutFlag(bw, false, fs, v, 0, 14);
  }

  const START4: seq<byte> := [0, 0, 0, 1]

  /** Appends `s` at `pos`. */
  method Emit(out: array<byte>, pos: nat, s: seq<byte>) returns (next: nat)
    requires pos + |s| <= out.Length
    modifies out
    ensures next == pos + |s| && out[..next] == old(out[..pos]) + s
  {
    var i := 0;
    while i < |s|
      invariant 0 <= i <= |s| && out[..pos + i] == old(out[..pos]) + s[..i]
    {
      out[pos + i] := s[i];
      assert out[..pos + i + 1] == out[..pos + i] + [s[i]] && s[..i + 1] == s[..i] + [s[i]];
      i := i + 1;
    }
    next := pos + |s|;
  }

  /** `generate_synthetic_sps_pps`. */
  method GenerateSynthetic(width: int, height: int, mbW: int, mbH: int, out: array<byte>) returns (pos: nat)
    requires mbW > 0 && mbH > 0 ==> Covered(width, height, mbW, mbH)
    modifies out
    ensures pos <= out.Length
    ensures if mbW <= 0 || mbH <= 0 || out.Length < 32 then pos == 0
            else out[..pos] == START4 + SyntheticSps(width, height, mbW, mbH) + START4 + SyntheticPps()
  {
    hide Codes, Pack, SpsVals, SpsFields, PadTo8, NoZeroPair;
    pos := 0;
    if mbW <= 0 || mbH <= 0 || out.Length < 32 {
      return 0;
    }
    SpsPlain(width, height, mbW, mbH);
    RoundUp(|SpsBody(width, height, mbW, mbH)| + 1, 64);
    PpsBits();
    RoundUp(17, 24);
    var body := WriteSpsBody(width, height, mbW, mbH);
    pos := EmitUnit(out, pos, [0x67, 66, 0xC0, Level(mbW * mbH)], body);
    body := WritePpsBody();
    pos := EmitUnit(out, pos, [0x68], body);
  }

  /** A start code, the first bytes of a NAL unit and the rest of it. */
  method EmitUnit(out: array<byte>, pos: nat, head: seq<byte>, body: seq<byte>) returns (next: nat)
    requires pos + 4 + |head| + |body| <= out.Length
    modifies out
    ensures next == pos + 4 + |head| + |body| && out[..next] == old(out[..pos]) + (START4 + (head + body))
  {
    next := Emit(out, pos, START4);
    next := Emit(out, next, head);
    next := Emit(out, next, body);
  }
}
