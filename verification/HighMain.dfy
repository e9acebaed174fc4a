/**
 Spelling a High parameter set that uses no High tools as Main: what the deleted extension is, and
 what the Main parse of the result has to do with the High parse of the original.
 */
module HighMain {
  import opened Bits
  import opened Syntax
  import opened SpsFormat
  import opened Rewrite

  /** 4:2:0, 8 bit, no bypass and no scaling lists. */
  predicate PlainExtension(v: seq<int>) {
    |v| >= 9 && v[4] == 1 && v[5] == 0 && v[6] == 0 && v[7] == 0 && v[8] == 0
  }

  /** A High head that uses no High tool. */
  predicate PlainHigh(v: seq<int>) {
    |v| >= 9 && v[0] == HIGH && v[1] % 4 == 0 && PlainExtension(v)
  }

  /** The same parameter set in Main terms. */
  function MainVals(v: seq<int>): (u: seq<int>)
    requires |v| >= 9
  {
    [77, 0, v[2], v[3]] + v[9..]
  }

  /** The High table after its extension is the Main table. */
  lemma SameTable(v: seq<int>, m: nat)
    requires PlainHigh(v) && 9 <= m <= |v|
    ensures SpsNext(MainVals(v)[..m - 5]) == SpsNext(v[..m])
  {
    assert MainVals(v)[..m - 5][4..] == v[..m][9..];
  }

  /** Past the extension both print the same bits. */
  lemma SameTail(v: seq<int>, u: seq<int>)
    requires PlainHigh(v) && u == MainVals(v) && Follows(SpsNext, v, 9)
    ensures Follows(SpsNext, u, 4) && Print(SpsNext, v, 9) == Print(SpsNext, u, 4) && SpsNext(u) == SpsNext(v)
  {
    forall m: nat | 9 <= m < |v|
      ensures SameStep(SpsNext, v, u, -5, m)
    {
      SameTable(v, m);
    }
    SameTable(v, |v|);
    assert u[..|v| - 5] == u && v[..|v|] == v;
    hide SpsNext, PlainHigh, MainVals;
    PrintSame(SpsNext, v, 9, u, -5);
  }

  /** The identity fields of a Main parameter set. */
  function MainHead(level: int, id: int): (s: seq<bool>) {
    if level < 0 || id < 0 then [] else
    ToBits(77, 8) + ToBits(0, 8) + ToBits(level, 8) + CodeUE(id)
  }

  lemma HeadTable(v: seq<int>)
    ensures |v| < 3 ==> SpsNext(v) == Some(U(8))
    ensures |v| == 3 ==> SpsNext(v) == Some(UE)
    ensures 4 <= |v| < 7 && v[0] == HIGH ==> SpsNext(v) == Some(UE)
    ensures 7 <= |v| < 9 && v[0] == HIGH ==> SpsNext(v) == Some(U(1))
  {}

  lemma Print4(v: seq<int>)
    requires |v| == 4 && Follows(SpsNext, v, 0)
    ensures 0 <= v[0] < 256 && 0 <= v[1] < 256 && 0 <= v[2] < 256 && 0 <= v[3] < UE_LIMIT
    ensures Print(SpsNext, v, 0) == ToBits(v[0], 8) + ToBits(v[1], 8) + ToBits(v[2], 8) + CodeUE(v[3])
  {
    assert Pow2(8) == 256;
    HeadTable(v[..0]);
    HeadTable(v[..1]);
    HeadTable(v[..2]);
    HeadTable(v[..3]);
    PrintStep(SpsNext, v, 0);
    PrintStep(SpsNext, v, 1);
    PrintStep(SpsNext, v, 2);
    PrintStep(SpsNext, v, 3);
    PrintNothing(SpsNext, v);
    assert CodeUE(v[3]) + [] == CodeUE(v[3]);
  }

  const EXTENSION: seq<bool> := [false, true, false, true, true, false, false]

  lemma SmallCodes()
    ensures Code(UE, 1) == [false, true, false] && Code(UE, 0) == [true] && Code(U(1), 0) == [false]
  {
    OneRefCode();
    assert ToBits(1, 1) == [true] && ToBits(0, 1) == [false] && Zeros(0) == [];
    assert Log2(1) == 0 && Pow2(1) == 2;
  }

  /** The extension of a plain High head is exactly seven bits, always the same. */
  lemma ExtensionIs(h: seq<int>)
    requires |h| == 9 && PlainHigh(h) && Follows(SpsNext, h, 4)
    ensures Print(SpsNext, h, 4) == EXTENSION
  {
    hide SpsNext, Code, Print, Follows;
    HeadTable(h[..4]);
    HeadTable(h[..5]);
    HeadTable(h[..6]);
    HeadTable(h[..7]);
    HeadTable(h[..8]);
    SmallCodes();
    PrintStep(SpsNext, h, 4);
    PrintStep(SpsNext, h, 5);
    PrintStep(SpsNext, h, 6);
    PrintStep(SpsNext, h, 7);
    PrintStep(SpsNext, h, 8);
    PrintNothing(SpsNext, h);
    assert Print(SpsNext, h, 8) == [false];
    assert Print(SpsNext, h, 7) == [false, false];
    assert Print(SpsNext, h, 6) == [true, false, false];
    assert Print(SpsNext, h, 5) == [true, true, false, false];
  }

  /** `bits` start with the plain High head `h`, and have payload after it. */
  ghost predicate HighSpelled(bits: seq<bool>, h: seq<int>) {
    && |h| == 9 && PlainHigh(h) && h[3] <= 31 && Follows(SpsNext, h, 0) && Print(SpsNext, h, 0) <= bits
    && !AllZero(bits) && |Print(SpsNext, h, 0)| < Stop(bits)
  }

  /** The head without its extension, then everything after it, re-aligned. */
  ghost function MainBits(bits: seq<bool>, h: seq<int>): (y: seq<bool>)
    ensures |y| % 8 == 0
  {
    if |h| != 9 || |Print(SpsNext, h, 0)| > Stop(bits) then [] else
      Closed(MainHead(h[2], h[3]) + bits[|Print(SpsNext, h, 0)|..Stop(bits)])
  }

  /** The head's own bits: identity fields, then the extension. */
  lemma HeadPlace(bits: seq<bool>, h: seq<int>)
    requires HighSpelled(bits, h)
    ensures 0 <= h[2] < 256 && 0 <= h[3]
    ensures Follows(SpsNext, h[..4], 0) && |Print(SpsNext, h[..4], 0)| == 24 + |CodeUE(h[3])|
    ensures |Print(SpsNext, h, 0)| == 24 + |CodeUE(h[3])| + 7 <= |bits|
    ensures bits[24..24 + |CodeUE(h[3])|] == CodeUE(h[3])
    ensures bits[24 + |CodeUE(h[3])|..|Print(SpsNext, h, 0)|] == EXTENSION
  {
    PrintSplit(SpsNext, h, 0, 4);
    Print4(h[..4]);
    ExtensionIs(h);
    hide SpsNext, Print, CodeUE, Stop, ToBits;
    var p, q := Print(SpsNext, h[..4], 0), Print(SpsNext, h, 0);
    assert q == p + EXTENSION;
    assert q[24..24 + |CodeUE(h[3])|] == CodeUE(h[3]);
    assert q[24 + |CodeUE(h[3])|..] == EXTENSION;
    assert bits[..|q|] == q;
  }

  /** The High parse goes through the head; what follows the head is printed the same way in Main. */
  lemma MainParts(bits: seq<bool>, h: seq<int>, v: seq<int>, rest: seq<bool>, u: seq<int>)
    requires HighSpelled(bits, h) && Walk(SpsNext, [], bits) == Done(v, rest)
    ensures h <= v && PlainHigh(v) && Follows(SpsNext, v, 0) && SpsNext(v).None?
    ensures u == MainVals(v) ==> Follows(SpsNext, u, 0) && Follows(SpsNext, u, 4) && SpsNext(u).None?
    ensures u == MainVals(v) ==> Print(SpsNext, u[..4], 0) == MainHead(h[2], h[3])
    ensures u == MainVals(v) ==> bits[|Print(SpsNext, h, 0)|..] == Print(SpsNext, u, 4) + rest
  {
    hide Walk, SpsNext, Print, CodeUE, ToBits, Stop;
    HeadPlace(bits, h);
    var q := Print(SpsNext, h, 0);
    var x := bits[|q|..];
    assert bits == q + x;
    WalkPrint(SpsNext, h, 0, x);
    assert h[..0] == [];
    PrintWalk(SpsNext, h, x);
    assert v[..9] == h;
    FollowsJoin(SpsNext, v, 0, 9);
    if u == MainVals(v) {
      SameTail(v, u);
      MainHeadFollows(v, u);
      FollowsJoin(SpsNext, u, 0, 4);
      Print4(u[..4]);
    }
  }

  lemma MainHeadFollows(v: seq<int>, u: seq<int>)
    requires PlainHigh(v) && u == MainVals(v) && Follows(SpsNext, v, 0)
    ensures Follows(SpsNext, u[..4], 0)
  {
    var t := u[..4];
    assert t == [77, 0, v[2], v[3]];
    FollowsAt(SpsNext, v, 0, 2);
    FollowsAt(SpsNext, v, 0, 3);
    HeadTable(v[..2]);
    HeadTable(v[..3]);
    HeadTable(t[..0]);
    HeadTable(t[..1]);
    HeadTable(t[..2]);
    HeadTable(t[..3]);
    assert Pow2(8) == 256;
    assert StepOk(SpsNext, t, 3) && StepOk(SpsNext, t, 2) && StepOk(SpsNext, t, 1) && StepOk(SpsNext, t, 0);
    assert Follows(SpsNext, t, 4);
    assert Follows(SpsNext, t, 3);
    assert Follows(SpsNext, t, 2);
  }

  /**
   If the High parse of the input finishes, the Main parse of the output is the same parse: every
   value after the extension, and level and id before it, as long as the padding suffices.
   */
  lemma MainWalk(bits: seq<bool>, h: seq<int>, v: seq<int>, rest: seq<bool>)
    requires HighSpelled(bits, h) && Walk(SpsNext, [], bits) == Done(v, rest)
    ensures h <= v && Reparses(MainBits(bits, h), MainVals(v))
  {
    hide Walk, SpsNext, Print, CodeUE, ToBits, Stop, PadTo8, AllZero, Follows, PlainHigh;
    MainParts(bits, h, v, rest, []);
    var u := MainVals(v);
    MainParts(bits, h, v, rest, u);
    HeadPlace(bits, h);
    var e, stop := |Print(SpsNext, h, 0)|, Stop(bits);
    var a := MainHead(h[2], h[3]);
    StopFrom(bits, e);
    assert bits[e..][..stop - e] == bits[e..stop];
    var p := PadTo8(|a| + (stop - e) + 1);
    assert MainBits(bits, h) == a + (bits[e..][..stop - e] + ([true] + Zeros(p)));
    WalkSplice(SpsNext, u, 4, bits[e..], rest, stop - e, p);
  }

  /** Field for field: only the profile differs between the High and the Main format. */
  lemma MainFormat(v: seq<int>)
    requires PlainHigh(v) && Complete(v)
    ensures Complete(MainVals(v)) && FormatOf(MainVals(v)) == FormatOf(v).(profile := 77)
  {
    var u := MainVals(v);
    assert u[4..] == v[9..];
    assert RefsAt(u) == RefsAt(v) - 5;
    assert forall k :: 0 <= k < 4 ==> Crop(u, k) == Crop(v, k);
  }
}
