/**
 A High parameter set whose conversion is accepted although its own parse runs out of bits: the
 re-aligned copy has padding the original lacks, and its stop bit is read as a flag.
 */
module Divergence {
  import opened Bits
  import opened Syntax
  import opened Emulation
  import opened SpsFormat
  import opened Rewrite
  import opened HighMain
  import opened Normalize

  const CUT_SHORT: seq<byte> := [0x67, 0x64, 0x00, 0x1E, 0xAC, 0xE9, 0x11]
  const HIGH_VALS: seq<int> := [100, 0, 30, 0, 1, 0, 0, 0, 0, 0, 0, 0, 1, 0, 0, 7, 1]
  const MAIN_VALS: seq<int> := [77, 0, 30, 0, 0, 0, 0, 1, 0, 0, 7, 1, 0, 0, 0]

  /** The bits behind the two heads, up to frame_mbs_only_flag. */
  const TAIL: seq<bool> := [true, true, true, false, true, false, false, true,
                            false, false, false, true, false, false, false]

  lemma PlainRbsp()
    ensures RbspBits(CUT_SHORT) == BitsOf(CUT_SHORT[1..]) && Unescape(CUT_SHORT[1..], 0).Some?
  {
    var r := CUT_SHORT[1..];
    assert r == [0x64, 0x00, 0x1E, 0xAC, 0xE9, 0x11];
    EscapePlain(r, 0);
    UnescapeEscape(r, 0);
  }

  lemma SevenCode()
    ensures Code(UE, 7) == [false, false, false, true, false, false, false] && Code(U(1), 1) == [true]
  {
    assert Log2(8) == 3 && Pow2(1) == 2;
    assert ToBits(1, 1) == [true];
    assert ToBits(8, 4) == [true, false, false, false] by {
      assert ToBits(1, 1) == [true];
      assert ToBits(2, 2) == [true, false];
      assert ToBits(4, 3) == [true, false, false];
    }
    assert Zeros(3) == [false, false, false];
  }

  /** log2_max_frame_num_minus4 to frame_mbs_only_flag, as both lists have them. */
  predicate TailAt(fs: seq<Field>, v: seq<int>, i: nat) {
    && |fs| == |v| >= i + 8
    && fs[i] == fs[i + 1] == fs[i + 2] == fs[i + 3] == fs[i + 5] == fs[i + 6] == UE
    && fs[i + 4] == fs[i + 7] == U(1)
    && v[i] == v[i + 1] == v[i + 2] == v[i + 4] == v[i + 5] == 0
    && v[i + 3] == 1 && v[i + 6] == 7 && v[i + 7] == 1
  }

  lemma CodesTail(fs: seq<Field>, v: seq<int>, i: nat, end: seq<bool>)
    requires TailAt(fs, v, i) && Codes(fs, v, i + 8) == end
    ensures Codes(fs, v, i) == TAIL + ([true] + end)
  {
    hide Code, Codes;
    SmallCodes();
    SevenCode();
    CodesStep(fs, v, i + 7);
    CodesStep(fs, v, i + 6);
    CodesStep(fs, v, i + 5);
    CodesStep(fs, v, i + 4);
    CodesStep(fs, v, i + 3);
    CodesStep(fs, v, i + 2);
    CodesStep(fs, v, i + 1);
    CodesStep(fs, v, i);
    var e := [true] + end;
    assert Codes(fs, v, i + 7) == e;
    assert Codes(fs, v, i + 5) == [true] + ([false, false, false, true, false, false, false] + e);
    assert Codes(fs, v, i + 3)
        == [false, true, false] + ([false] + ([true] + ([false, false, false, true, false, false, false] + e)));
  }

  lemma CodesHead(fs: seq<Field>, v: seq<int>, tail: seq<bool>)
    requires |fs| == |v| >= 4 && fs[0] == fs[1] == fs[2] == U(8) && fs[3] == UE && v[3] == 0
    requires 0 <= v[0] < 256 && 0 <= v[1] < 256 && 0 <= v[2] < 256 && Codes(fs, v, 4) == tail
    ensures Codes(fs, v, 0) == ToBits(v[0], 8) + (ToBits(v[1], 8) + (ToBits(v[2], 8) + ([true] + tail)))
  {
    assert Pow2(8) == 256;
    SmallCodes();
    hide Codes;
    CodesStep(fs, v, 3);
    CodesStep(fs, v, 2);
    CodesStep(fs, v, 1);
    CodesStep(fs, v, 0);
  }

  const HIGH_FIELDS: seq<Field> := [U(8), U(8), U(8), UE, UE, UE, UE, U(1), U(1), UE, UE, UE, UE, U(1), UE, UE, U(1)]
  const MAIN_FIELDS: seq<Field> := [U(8), U(8), U(8), UE, UE, UE, UE, UE, U(1), UE, UE, U(1), U(1), U(1), U(1)]

  lemma CodesExtension(tail: seq<bool>)
    requires Codes(HIGH_FIELDS, HIGH_VALS, 9) == tail
    ensures Codes(HIGH_FIELDS, HIGH_VALS, 4) == EXTENSION + tail
  {
    hide Code, Codes;
    SmallCodes();
    CodesStep(HIGH_FIELDS, HIGH_VALS, 8);
    CodesStep(HIGH_FIELDS, HIGH_VALS, 7);
    CodesStep(HIGH_FIELDS, HIGH_VALS, 6);
    CodesStep(HIGH_FIELDS, HIGH_VALS, 5);
    CodesStep(HIGH_FIELDS, HIGH_VALS, 4);
    assert Codes(HIGH_FIELDS, HIGH_VALS, 6) == [true] + ([false] + ([false] + tail));
  }

  lemma HighPrinted()
    ensures Follows(SpsNext, HIGH_VALS, 0)
    ensures Print(SpsNext, HIGH_VALS, 0)
         == ToBits(100, 8) + (ToBits(0, 8) + (ToBits(30, 8) + ([true] + (EXTENSION + (TAIL + [true])))))
  {
    hide Codes, Print, Follows, Code, SpsNext, ToBits;
    HighFields();
    PrintFields(SpsNext, HIGH_VALS, HIGH_FIELDS, 0);
    CodesEnd(HIGH_FIELDS, HIGH_VALS, 17);
    CodesTail(HIGH_FIELDS, HIGH_VALS, 9, []);
    assert [true] + [] == [true];
    CodesExtension(TAIL + [true]);
    CodesHead(HIGH_FIELDS, HIGH_VALS, EXTENSION + (TAIL + [true]));
  }

  lemma HighFields()
    ensures Fields(SpsNext, HIGH_VALS, HIGH_FIELDS) && SpsNext(HIGH_VALS) == Some(U(1))
  {
    hide SpsNext, FieldOk;
    forall i | 0 <= i < |HIGH_VALS|
      ensures SpsNext(HIGH_VALS[..i]) == Some(HIGH_FIELDS[i]) && FieldOk(HIGH_FIELDS[i], HIGH_VALS[i])
    {
      HighFieldAt(i);
      HighLegal(i);
    }
    SameTable(HIGH_VALS, 17);
    MainFieldAt(12);
    assert HIGH_VALS[..17] == HIGH_VALS && MainVals(HIGH_VALS)[..12] == MAIN_VALS[..12];
  }

  lemma HighFieldAt(i: nat)
    requires i < 17
    ensures SpsNext(HIGH_VALS[..i]) == Some(HIGH_FIELDS[i])
  {
    hide SpsNext;
    if i < 9 {
      HeadTable(HIGH_VALS[..i]);
    } else {
      SameTable(HIGH_VALS, i);
      assert MainVals(HIGH_VALS)[..i - 5] == MAIN_VALS[..i - 5];
      MainFieldAt(i - 5);
    }
  }

  lemma HighLegal(i: nat)
    requires i < 17
    ensures FieldOk(HIGH_FIELDS[i], HIGH_VALS[i])
  {
    assert Pow2(8) == 256 && Pow2(1) == 2;
  }

  lemma MainFields()
    ensures Fields(SpsNext, MAIN_VALS, MAIN_FIELDS) && SpsNext(MAIN_VALS).None?
  {
    hide SpsNext, FieldOk, RefsAt;
    forall i | 0 <= i < |MAIN_VALS|
      ensures SpsNext(MAIN_VALS[..i]) == Some(MAIN_FIELDS[i]) && FieldOk(MAIN_FIELDS[i], MAIN_VALS[i])
    {
      MainFieldAt(i);
      MainLegal(i);
    }
    MainRefs();
    NextTail(MAIN_VALS[..7], MAIN_VALS);
  }

  lemma MainRefs()
    ensures AtRefs(MAIN_VALS[..7])
  {
    NextAt(MAIN_VALS[..7]);
  }

  lemma MainFieldAt(i: nat)
    requires i < 15
    ensures SpsNext(MAIN_VALS[..i]) == Some(MAIN_FIELDS[i])
  {
    hide SpsNext, RefsAt;
    var v := MAIN_VALS[..i];
    if i < 7 {
      NextAt(v);
    } else {
      MainRefs();
      NextTail(MAIN_VALS[..7], v);
    }
  }

  lemma MainLegal(i: nat)
    requires i < 15
    ensures FieldOk(MAIN_FIELDS[i], MAIN_VALS[i])
  {
    assert Pow2(8) == 256 && Pow2(1) == 2;
  }

  lemma MainAccepted()
    ensures Accepted(MAIN_VALS)
  {
    NextAt(MAIN_VALS);
    assert RefsAt(MAIN_VALS) == 7;
    hide RefsAt, Base;
    MainCrop(7);
  }

  lemma MainCrop(r: nat)
    requires r == RefsAt(MAIN_VALS) == 7
    ensures Complete(MAIN_VALS) && CropOk(MAIN_VALS)
  {}

  lemma MainPrinted()
    ensures Follows(SpsNext, MAIN_VALS, 0)
    ensures Print(SpsNext, MAIN_VALS, 0)
         == ToBits(77, 8) + (ToBits(0, 8) + (ToBits(30, 8) + ([true] + (TAIL + ([true] + Zeros(3))))))
  {
    hide Codes, Print, Follows, Code, SpsNext, ToBits;
    MainFields();
    SmallCodes();
    PrintFields(SpsNext, MAIN_VALS, MAIN_FIELDS, 0);
    CodesEnd(MAIN_FIELDS, MAIN_VALS, 15);
    CodesStep(MAIN_FIELDS, MAIN_VALS, 14);
    CodesStep(MAIN_FIELDS, MAIN_VALS, 13);
    CodesStep(MAIN_FIELDS, MAIN_VALS, 12);
    assert Codes(MAIN_FIELDS, MAIN_VALS, 12) == Zeros(3);
    CodesTail(MAIN_FIELDS, MAIN_VALS, 4, Zeros(3));
    CodesHead(MAIN_FIELDS, MAIN_VALS, TAIL + ([true] + Zeros(3)));
  }

  /** The input spells the High values and nothing more. */
  lemma InputBits()
    ensures RbspBits(CUT_SHORT) == Print(SpsNext, HIGH_VALS, 0)
  {
    hide Print, SpsNext, Unescape, ByteBit, BitsOf, ToBits;
    PlainRbsp();
    HighPrinted();
    assert CUT_SHORT[1..] == [0x64] + ([0x00] + ([0x1E] + ([0xAC] + ([0xE9] + [0x11]))));
    BitsOfConcat([0x64], [0x00] + ([0x1E] + ([0xAC] + ([0xE9] + [0x11]))));
    BitsOfConcat([0x00], [0x1E] + ([0xAC] + ([0xE9] + [0x11])));
    BitsOfConcat([0x1E], [0xAC] + ([0xE9] + [0x11]));
    BitsOfConcat([0xAC], [0xE9] + [0x11]);
    BitsOfConcat([0xE9], [0x11]);
    ByteBits(0x64);
    ByteBits(0x00);
    ByteBits(0x1E);
    ByteBits(0xAC);
    ByteBits(0xE9);
    ByteBits(0x11);
    LastBytes();
    assert [true] + (EXTENSION + (TAIL + [true])) == ([true] + EXTENSION) + (TAIL + [true]);
  }

  lemma LastBytes()
    ensures ToBits(0xAC, 8) == [true] + EXTENSION && ToBits(0xE9, 8) + ToBits(0x11, 8) == TAIL + [true]
  {
    hide ToBits;
    Octet(0xAC);
    Octet(0xE9);
    Octet(0x11);
  }

  lemma Octet(b: byte)
    ensures ToBits(b, 8) == [b / 128 % 2 == 1, b / 64 % 2 == 1, b / 32 % 2 == 1, b / 16 % 2 == 1,
                             b / 8 % 2 == 1, b / 4 % 2 == 1, b / 2 % 2 == 1, b % 2 == 1]
  {
    assert Pow2(0) == 1 && Pow2(1) == 2 && Pow2(2) == 4 && Pow2(3) == 8;
    assert Pow2(4) == 16 && Pow2(5) == 32 && Pow2(6) == 64 && Pow2(7) == 128;
    ToBitsAt(b, 8, 0);
    ToBitsAt(b, 8, 1);
    ToBitsAt(b, 8, 2);
    ToBitsAt(b, 8, 3);
    ToBitsAt(b, 8, 4);
    ToBitsAt(b, 8, 5);
    ToBitsAt(b, 8, 6);
    ToBitsAt(b, 8, 7);
  }

  /** The High parse runs out before direct_8x8_inference_flag. */
  lemma InputStarves()
    ensures SpsWalk(CUT_SHORT).Starved?
  {
    hide Print, SpsNext, Unescape, BitsOf, Follows;
    InputBits();
    HighPrinted();
    HighFields();
    WalkPrint(SpsNext, HIGH_VALS, 0, []);
    assert HIGH_VALS[..0] == [] && Print(SpsNext, HIGH_VALS, 0) + [] == Print(SpsNext, HIGH_VALS, 0);
  }

  /** Where the pieces of the input lie. */
  lemma InputPieces()
    ensures |RbspBits(CUT_SHORT)| == 48 && !AllZero(RbspBits(CUT_SHORT)) && Stop(RbspBits(CUT_SHORT)) == 47
    ensures Follows(SpsNext, HIGH_VALS[..9], 0) && |Print(SpsNext, HIGH_VALS[..9], 0)| == 32
    ensures RbspBits(CUT_SHORT)[..47] == Print(SpsNext, HIGH_VALS[..9], 0) + TAIL
    ensures RbspBits(CUT_SHORT)[32..47] == TAIL
  {
    hide Print, SpsNext, Unescape, BitsOf, Follows, Stop, AllZero, Codes, Code, ToBits;
    var bits := RbspBits(CUT_SHORT);
    InputBits();
    HighPrinted();
    PrintSplit(SpsNext, HIGH_VALS, 0, 9);
    HighFields();
    PrintFields(SpsNext, HIGH_VALS, HIGH_FIELDS, 9);
    CodesEnd(HIGH_FIELDS, HIGH_VALS, 17);
    CodesTail(HIGH_FIELDS, HIGH_VALS, 9, []);
    var p := Print(SpsNext, HIGH_VALS[..9], 0);
    assert [true] + [] == [true];
    assert bits == p + (TAIL + [true]);
    assert |bits| == 48;
    NothingLeft(bits);
  }

  lemma NothingLeft(bits: seq<bool>)
    requires |bits| == 48 && bits[47]
    ensures !AllZero(bits) && Stop(bits) == 47
  {
    assert AllZero(bits[48..]);
    StopIs(bits, 47);
  }

  lemma InputConvertible()
    ensures Loads(CUT_SHORT, 7) && Convertible(CUT_SHORT)
    ensures var v := PayloadWalk(CUT_SHORT).vals; |v| >= 9 && v[..9] == HIGH_VALS[..9]
  {
    hide Print, SpsNext, Unescape, BitsOf, Follows, Stop, AllZero, Walk;
    PlainRbsp();
    InputPieces();
    var bits, h := RbspBits(CUT_SHORT), HIGH_VALS[..9];
    assert h == [100, 0, 30, 0, 1, 0, 0, 0, 0];
    WalkPrint(SpsNext, h, 0, TAIL);
    assert h[..0] == [];
    PrintWalk(SpsNext, h, TAIL);
    PlainPrefix(PayloadWalk(CUT_SHORT).vals, h);
  }

  lemma PlainPrefix(v: seq<int>, h: seq<int>)
    requires h <= v && h == [100, 0, 30, 0, 1, 0, 0, 0, 0]
    ensures |v| >= 9 && v[..9] == h && PlainHigh(v)
  {
    assert forall k :: 0 <= k < 9 ==> v[k] == h[k];
  }

  lemma OutputBits()
    ensures MainBits(RbspBits(CUT_SHORT), HIGH_VALS[..9]) == Print(SpsNext, MAIN_VALS, 0) + Zeros(4)
  {
    hide Print, SpsNext, Unescape, BitsOf, Follows, Stop, AllZero, ToBits, RbspBits, Code, Closed, MainHead, Trailing,
         PadTo8;
    InputPieces();
    MainPrinted();
    MainHeadIs();
    Regroup(ToBits(77, 8), ToBits(0, 8), ToBits(30, 8));
  }

  lemma MainHeadIs()
    ensures MainHead(30, 0) == ToBits(77, 8) + ToBits(0, 8) + ToBits(30, 8) + [true]
  {
    SmallCodes();
    assert Code(UE, 0) == CodeUE(0);
  }

  lemma Regroup(a: seq<bool>, b: seq<bool>, c: seq<bool>)
    requires |a| == |b| == |c| == 8
    ensures Closed(a + b + c + [true] + TAIL) == a + (b + (c + ([true] + (TAIL + ([true] + Zeros(3)))))) + Zeros(4)
  {
    assert PadTo8(41) == 7;
    assert Trailing(40) == [true] + (Zeros(3) + Zeros(4)) by { assert Zeros(7) == Zeros(3) + Zeros(4); }
    var t := TAIL + ([true] + Zeros(3)) + Zeros(4);
    assert TAIL + Trailing(40) == t;
    assert a + b + c + [true] + TAIL + Trailing(40) == a + b + c + [true] + t;
  }

  /** A conversion the source reports as good, of an input whose own High parse never finishes. */
  lemma AcceptedWithoutAgreement(cap: nat)
    requires cap >= |Mained(CUT_SHORT)|
    ensures Loads(CUT_SHORT, 7) && Convertible(CUT_SHORT) && PayloadWalk(CUT_SHORT).vals[3] <= 31
    ensures NormalizeOutcome(CUT_SHORT, cap, 0, Mained(CUT_SHORT), true)
    ensures SpsWalk(CUT_SHORT).Starved?
  {
    hide Print, SpsNext, Unescape, BitsOf, Follows, Stop, AllZero, Walk, MainBits, FormatCode, Loads;
    InputConvertible();
    InputStarves();
    OutputAccepted();
    FormatCodeLoads(Mained(CUT_SHORT));
  }

  lemma OutputAccepted()
    ensures FormatCode(NalOf(0x67, MainBits(RbspBits(CUT_SHORT), HIGH_VALS[..9]))) == 0
  {
    hide Print, SpsNext, Unescape, BitsOf, Follows, Stop, AllZero, Walk, MainBits, Verdict, Accepted, ToBits;
    OutputBits();
    var y := MainBits(RbspBits(CUT_SHORT), HIGH_VALS[..9]);
    MainPrinted();
    MainFields();
    MainAccepted();
    WalkPrint(SpsNext, MAIN_VALS, 0, Zeros(4));
    assert MAIN_VALS[..0] == [];
    WalkEnds(SpsNext, MAIN_VALS, Zeros(4));
    NalOfReads(0x67, y);
    EscapeGrowth(Pack(y), 0);
    VerdictZero(SpsWalk(NalOf(0x67, y)));
  }
}
