/**
 Sequence parameter sets by their fields: section 7.3.2.1.1 of ITU-T H.264 written out for the profiles
 without the High extension, and the verdict of the format inspection on each.
 */
module SpsRecord {
  import opened Bits
  import opened Syntax
  import opened Emulation
  import opened SpsFormat

  /** Picture order count types 0, 1 and 2; signed offsets by their code numbers. */
  datatype Poc = Lsb(log2: nat) | Cycle(zero: bool, nonRef: nat, bottom: nat, offsets: seq<nat>) | Implied

  datatype Sides = Sides(left: nat, right: nat, top: nat, bottom: nat)

  datatype Sps = Sps(
    profile: byte, constraints: byte, level: byte, id: nat, frameNum: nat, poc: Poc, refs: nat, gaps: bool,
    widthLess1: nat, heightLess1: nat, frames: bool, direct: bool, crop: Option<Sides>, vui: bool)

  function Bit(b: bool): (v: int) {
    if b then 1 else 0
  }

  // ----- the bits, followed by `t` -----

  function SpellOffsets(offsets: seq<nat>, t: seq<bool>): (s: seq<bool>) {
    if |offsets| == 0 then t else CodeUE(offsets[0]) + SpellOffsets(offsets[1..], t)
  }

  function SpellPoc(p: Poc, t: seq<bool>): (s: seq<bool>) {
    match p
    case Lsb(log2) => CodeUE(0) + (CodeUE(log2) + t)
    case Cycle(zero, nonRef, bottom, offsets) =>
      CodeUE(1) + ([zero] + (CodeUE(nonRef) + (CodeUE(bottom) + (CodeUE(|offsets|) + SpellOffsets(offsets, t)))))
    case Implied => CodeUE(2) + t
  }

  function SpellCrop(crop: Option<Sides>, t: seq<bool>): (s: seq<bool>) {
    match crop
    case None => [false] + t
    case Some(c) => [true] + (CodeUE(c.left) + (CodeUE(c.right) + (CodeUE(c.top) + (CodeUE(c.bottom) + t))))
  }

  function SpellSize(r: Sps, t: seq<bool>): (s: seq<bool>) {
    CodeUE(r.refs) + ([r.gaps] + (CodeUE(r.widthLess1) + (CodeUE(r.heightLess1)
    + ([r.frames] + ([r.direct] + SpellCrop(r.crop, [r.vui] + t))))))
  }

  function Spell(r: Sps, t: seq<bool>): (s: seq<bool>) {
    ToBits(r.profile, 8) + (ToBits(r.constraints, 8) + (ToBits(r.level, 8)
    + (CodeUE(r.id) + (CodeUE(r.frameNum) + SpellPoc(r.poc, SpellSize(r, t))))))
  }

  // ----- legal records -----

  predicate PocOk(p: Poc) {
    match p
    case Lsb(log2) => log2 < UE_LIMIT
    case Cycle(_, nonRef, bottom, offsets) =>
      && nonRef < UE_LIMIT && bottom < UE_LIMIT && |offsets| < UE_LIMIT
      && forall i :: 0 <= i < |offsets| ==> offsets[i] < UE_LIMIT
    case Implied => true
  }

  predicate CropFits(crop: Option<Sides>) {
    crop.Some? ==>
      var c := crop.value; c.left < UE_LIMIT && c.right < UE_LIMIT && c.top < UE_LIMIT && c.bottom < UE_LIMIT
  }

  /** Every number has a codeword, and there is no High extension. */
  predicate Legal(r: Sps) {
    && r.profile != 100 && r.id < UE_LIMIT && r.frameNum < UE_LIMIT && PocOk(r.poc) && r.refs < UE_LIMIT
    && r.widthLess1 < UE_LIMIT && r.heightLess1 < UE_LIMIT && CropFits(r.crop)
  }

  // ----- the verdict -----

  function Side(crop: Option<Sides>, k: nat): (c: nat) {
    match crop
    case None => 0
    case Some(s) => if k == 0 then s.left else if k == 1 then s.right else if k == 2 then s.top else s.bottom
  }

  /** Pictures are at most 480 by 272; 0 accepted, -1 malformed, -2 not supported. */
  function Judge(r: Sps): (code: int) {
    if r.constraints % 4 != 0 then -1
    else if r.profile != 66 && r.profile != 77 then -2
    else if r.id > 31 || r.frameNum > 12 || (r.poc.Lsb? && r.poc.log2 > 12) then -1
    else if r.poc.Cycle? && |r.poc.offsets| > 255 then -1
    else if r.widthLess1 > 29 || r.heightLess1 > 16 || r.refs > 4 || !r.frames then -2
    else if exists k :: 0 <= k < 4 && Side(r.crop, k) > 240 then -1
    else if Side(r.crop, 0) + Side(r.crop, 1) >= 8 * (r.widthLess1 + 1) then -1
    else if Side(r.crop, 2) + Side(r.crop, 3) >= 8 * (r.heightLess1 + 1) then -1
    else 0
  }

  function FormatFor(r: Sps): (f: Format) {
    var w, h := 16 * (r.widthLess1 + 1), 16 * (r.heightLess1 + 1);
    Format(r.profile, r.level, r.refs, r.id, w, h,
           w - 2 * Side(r.crop, 0) - 2 * Side(r.crop, 1), h - 2 * Side(r.crop, 2) - 2 * Side(r.crop, 3),
           2 * Side(r.crop, 0), 2 * Side(r.crop, 2))
  }

  // ----- the values, in the order of the table -----

  function PocValues(p: Poc): (v: seq<int>) {
    match p
    case Lsb(log2) => [0, log2]
    case Cycle(zero, nonRef, bottom, offsets) => [1, Bit(zero), nonRef, bottom, |offsets|] + offsets
    case Implied => [2]
  }

  function CropValues(crop: Option<Sides>): (v: seq<int>) {
    match crop
    case None => [0]
    case Some(c) => [1, c.left, c.right, c.top, c.bottom]
  }

  function SizeValues(r: Sps): (v: seq<int>)
  {
    [r.refs, Bit(r.gaps), r.widthLess1, r.heightLess1, Bit(r.frames), Bit(r.direct)] + CropValues(r.crop) + [Bit(r.vui)]
  }

  function HeadValues(r: Sps): (v: seq<int>) {
    [r.profile as int, r.constraints as int, r.level as int, r.id, r.frameNum] + PocValues(r.poc)
  }

  function Values(r: Sps): (v: seq<int>) {
    HeadValues(r) + SizeValues(r)
  }

  // ----- walking a spelt record -----

  lemma WalkUe(v: seq<int>, x: nat, t: seq<bool>)
    requires SpsNext(v) == Some(UE) && x < UE_LIMIT
    ensures Walk(SpsNext, v, CodeUE(x) + t) == Walk(SpsNext, v + [x], t)
  {
    hide SpsNext;
    ReadCodeUE(x, t);
  }

  lemma WalkBit(v: seq<int>, b: bool, t: seq<bool>)
    requires SpsNext(v) == Some(U(1))
    ensures Walk(SpsNext, v, [b] + t) == Walk(SpsNext, v + [Bit(b)], t)
  {
    hide SpsNext;
    var s := [b] + t;
    assert s[..1] == [b] && s[1..] == t && [b][..0] == [];
    assert Val([b]) == Bit(b);
  }

  lemma WalkByte(v: seq<int>, x: byte, t: seq<bool>)
    requires SpsNext(v) == Some(U(8))
    ensures Walk(SpsNext, v, ToBits(x, 8) + t) == Walk(SpsNext, v + [x as int], t)
  {
    hide SpsNext, ToBits, Val;
    var s := ToBits(x, 8) + t;
    assert s[..8] == ToBits(x, 8) && s[8..] == t;
    assert Pow2(8) == 256;
    ValToBits(x, 8);
  }

  lemma WalkIdentity(r: Sps, t: seq<bool>)
    requires Legal(r)
    ensures Walk(SpsNext, [], ToBits(r.profile, 8) + (ToBits(r.constraints, 8) + (ToBits(r.level, 8)
                                + (CodeUE(r.id) + (CodeUE(r.frameNum) + t)))))
         == Walk(SpsNext, [r.profile as int, r.constraints as int, r.level as int, r.id, r.frameNum], t)
  {
    hide Walk, SpsNext, CodeUE, ToBits;
    var t4 := CodeUE(r.frameNum) + t;
    var t3 := CodeUE(r.id) + t4;
    NextAt([]);
    WalkByte([], r.profile, ToBits(r.constraints, 8) + (ToBits(r.level, 8) + t3));
    NextAt([r.profile as int]);
    WalkByte([r.profile as int], r.constraints, ToBits(r.level, 8) + t3);
    NextAt([r.profile as int, r.constraints as int]);
    WalkByte([r.profile as int, r.constraints as int], r.level, t3);
    var v := [r.profile as int, r.constraints as int, r.level as int];
    NextAt(v);
    WalkUe(v, r.id, t4);
    NextAt(v + [r.id]);
    WalkUe(v + [r.id], r.frameNum, t);
    assert [] + [r.profile as int] == [r.profile as int];
    assert [r.profile as int] + [r.constraints as int] == [r.profile as int, r.constraints as int];
    assert [r.profile as int, r.constraints as int] + [r.level as int] == v;
    assert v + [r.id] + [r.frameNum] == [r.profile as int, r.constraints as int, r.level as int, r.id, r.frameNum];
  }

  /** Picture order count type 1 with the first `k` of its offsets. */
  function CycleValues(v: seq<int>, p: Poc, k: nat): (r: seq<int>)
    requires p.Cycle? && k <= |p.offsets|
  {
    v + ([1, Bit(p.zero), p.nonRef, p.bottom, |p.offsets|] + p.offsets[..k])
  }

  lemma {:induction false} WalkOffsets(v: seq<int>, p: Poc, k: nat, t: seq<bool>)
    requires |v| == 5 && v[0] != HIGH && p.Cycle? && PocOk(p) && k <= |p.offsets|
    ensures Walk(SpsNext, CycleValues(v, p, k), SpellOffsets(p.offsets[k..], t))
         == Walk(SpsNext, CycleValues(v, p, |p.offsets|), t)
    decreases |p.offsets| - k
  {
    hide Walk, SpsNext, CodeUE, RefsAt, TailNext;
    if k < |p.offsets| {
      var u := CycleValues(v, p, k);
      NextAt(u);
      assert p.offsets[k..][1..] == p.offsets[k + 1..];
      WalkUe(u, p.offsets[k], SpellOffsets(p.offsets[k + 1..], t));
      assert u + [p.offsets[k]] == CycleValues(v, p, k + 1);
      WalkOffsets(v, p, k + 1, t);
    }
  }

  lemma WalkPoc(v: seq<int>, p: Poc, t: seq<bool>)
    requires |v| == 5 && v[0] != HIGH && PocOk(p)
    ensures Walk(SpsNext, v, SpellPoc(p, t)) == Walk(SpsNext, v + PocValues(p), t)
  {
    hide Walk, SpsNext, CodeUE, RefsAt, TailNext;
    NextAt(v);
    match p
    case Lsb(log2) =>
      WalkUe(v, 0, CodeUE(log2) + t);
      NextAt(v + [0]);
      WalkUe(v + [0], log2, t);
      assert v + [0] + [log2 as int] == v + PocValues(p);
    case Cycle(zero, nonRef, bottom, offsets) => WalkCycle(v, p, t);
    case Implied => WalkUe(v, 2, t);
  }

  lemma WalkCycle(v: seq<int>, p: Poc, t: seq<bool>)
    requires |v| == 5 && v[0] != HIGH && p.Cycle? && PocOk(p)
    ensures Walk(SpsNext, v, SpellPoc(p, t)) == Walk(SpsNext, v + PocValues(p), t)
  {
    hide Walk, SpsNext, CodeUE, RefsAt, TailNext;
    var t4 := SpellOffsets(p.offsets, t);
    var t3 := CodeUE(|p.offsets|) + t4;
    var t2 := CodeUE(p.bottom) + t3;
    var t1 := CodeUE(p.nonRef) + t2;
    NextAt(v);
    WalkUe(v, 1, [p.zero] + t1);
    NextAt(v + [1]);
    WalkBit(v + [1], p.zero, t1);
    var u := v + [1] + [Bit(p.zero)];
    NextAt(u);
    WalkUe(u, p.nonRef, t2);
    NextAt(u + [p.nonRef]);
    WalkUe(u + [p.nonRef], p.bottom, t3);
    NextAt(u + [p.nonRef] + [p.bottom]);
    WalkUe(u + [p.nonRef] + [p.bottom], |p.offsets|, t4);
    assert u + [p.nonRef] + [p.bottom] + [|p.offsets|] == CycleValues(v, p, 0);
    assert p.offsets[0..] == p.offsets && p.offsets[..|p.offsets|] == p.offsets;
    WalkOffsets(v, p, 0, t);
    assert CycleValues(v, p, |p.offsets|) == v + PocValues(p);
  }

  /** The table behind a head of any length. */
  lemma TailAfter(r: Sps, x: seq<int>)
    requires Legal(r)
    ensures RefsAt(HeadValues(r)) == RefsAt(HeadValues(r) + x) == |HeadValues(r)|
    ensures SpsNext(HeadValues(r) + x) == TailNext(x)
  {
    hide SpsNext, RefsAt, TailNext;
    var v := HeadValues(r) + x;
    NextAt(HeadValues(r));
    NextAt(v);
    assert v[|HeadValues(r)|..] == x;
  }

  lemma WalkSize(r: Sps, t: seq<bool>)
    requires Legal(r)
    ensures Walk(SpsNext, HeadValues(r), SpellSize(r, t)) == Walk(SpsNext, Values(r), t)
  {
    hide Walk, SpsNext, CodeUE, RefsAt, HeadValues, SpellCrop, CropValues;
    var v := HeadValues(r);
    var t5 := SpellCrop(r.crop, [r.vui] + t);
    var y: seq<int> := [r.refs, Bit(r.gaps), r.widthLess1, r.heightLess1];
    WalkNumbers(r, y, [r.frames] + ([r.direct] + t5));
    TailAfter(r, y);
    WalkBit(v + y, r.frames, [r.direct] + t5);
    assert v + y + [Bit(r.frames)] == v + (y + [Bit(r.frames)]);
    TailAfter(r, y + [Bit(r.frames)]);
    WalkBit(v + (y + [Bit(r.frames)]), r.direct, t5);
    var z := y + [Bit(r.frames)] + [Bit(r.direct)];
    assert v + (y + [Bit(r.frames)]) + [Bit(r.direct)] == v + z;
    WalkEnd(r, z, t);
    assert z + CropValues(r.crop) + [Bit(r.vui)] == SizeValues(r);
  }

  lemma WalkNumbers(r: Sps, y: seq<int>, t: seq<bool>)
    requires Legal(r) && y == [r.refs, Bit(r.gaps), r.widthLess1, r.heightLess1]
    ensures Walk(SpsNext, HeadValues(r),
                 CodeUE(r.refs) + ([r.gaps] + (CodeUE(r.widthLess1) + (CodeUE(r.heightLess1) + t))))
         == Walk(SpsNext, HeadValues(r) + y, t)
  {
    hide Walk, SpsNext, CodeUE, RefsAt, HeadValues;
    var v := HeadValues(r);
    var t3 := CodeUE(r.heightLess1) + t;
    var t2 := CodeUE(r.widthLess1) + t3;
    assert v + [] == v;
    TailAfter(r, []);
    WalkUe(v, r.refs, [r.gaps] + t2);
    TailAfter(r, [r.refs]);
    WalkBit(v + [r.refs], r.gaps, t2);
    var x: seq<int> := [r.refs, Bit(r.gaps)];
    assert v + [r.refs] + [Bit(r.gaps)] == v + x;
    TailAfter(r, x);
    WalkUe(v + x, r.widthLess1, t3);
    assert v + x + [r.widthLess1] == v + (x + [r.widthLess1]);
    TailAfter(r, x + [r.widthLess1]);
    WalkUe(v + (x + [r.widthLess1]), r.heightLess1, t);
    assert v + (x + [r.widthLess1]) + [r.heightLess1] == v + y;
  }

  /** The crop sides and the VUI flag. */
  lemma WalkEnd(r: Sps, z: seq<int>, t: seq<bool>)
    requires Legal(r) && |z| == 6
    ensures Walk(SpsNext, HeadValues(r) + z, SpellCrop(r.crop, [r.vui] + t))
         == Walk(SpsNext, HeadValues(r) + (z + CropValues(r.crop) + [Bit(r.vui)]), t)
  {
    hide Walk, SpsNext, CodeUE, RefsAt, HeadValues;
    var v := HeadValues(r);
    TailAfter(r, z);
    var last := [r.vui] + t;
    if r.crop.None? {
      WalkBit(v + z, false, last);
      assert v + z + [Bit(false)] == v + (z + CropValues(r.crop));
    } else {
      WalkSides(r, z, r.crop.value, last);
    }
    TailAfter(r, z + CropValues(r.crop));
    WalkBit(v + (z + CropValues(r.crop)), r.vui, t);
    assert v + (z + CropValues(r.crop)) + [Bit(r.vui)] == v + (z + CropValues(r.crop) + [Bit(r.vui)]);
  }

  lemma WalkSides(r: Sps, z: seq<int>, c: Sides, t: seq<bool>)
    requires Legal(r) && |z| == 6 && r.crop == Some(c)
    ensures Walk(SpsNext, HeadValues(r) + z, SpellCrop(r.crop, t))
         == Walk(SpsNext, HeadValues(r) + (z + CropValues(r.crop)), t)
  {
    hide Walk, SpsNext, CodeUE, RefsAt, HeadValues;
    var v := HeadValues(r);
    var t3 := CodeUE(c.bottom) + t;
    var t2 := CodeUE(c.top) + t3;
    var t1 := CodeUE(c.right) + t2;
    TailAfter(r, z);
    WalkBit(v + z, true, CodeUE(c.left) + t1);
    var y := z + [1];
    assert v + z + [Bit(true)] == v + y;
    TailAfter(r, y);
    WalkUe(v + y, c.left, t1);
    assert v + y + [c.left] == v + (y + [c.left]);
    TailAfter(r, y + [c.left]);
    WalkUe(v + (y + [c.left]), c.right, t2);
    var x := y + [c.left] + [c.right];
    assert v + (y + [c.left]) + [c.right] == v + x;
    TailAfter(r, x);
    WalkUe(v + x, c.top, t3);
    assert v + x + [c.top] == v + (x + [c.top]);
    TailAfter(r, x + [c.top]);
    WalkUe(v + (x + [c.top]), c.bottom, t);
    assert v + (x + [c.top]) + [c.bottom] == v + (z + CropValues(r.crop));
  }

  lemma ValuesDone(r: Sps)
    requires Legal(r)
    ensures SpsNext(Values(r)) == None
  {
    hide SpsNext, RefsAt, HeadValues;
    TailAfter(r, SizeValues(r));
  }

  /** A spelt record is walked to its values. */
  lemma WalkSpelt(r: Sps, t: seq<bool>)
    requires Legal(r)
    ensures Walk(SpsNext, [], Spell(r, t)) == Done(Values(r), t)
  {
    hide SpsNext, CodeUE, ToBits, SpellPoc, SpellSize, PocValues, SizeValues;
    WalkIdentity(r, SpellPoc(r.poc, SpellSize(r, t)));
    WalkPoc([r.profile as int, r.constraints as int, r.level as int, r.id, r.frameNum], r.poc, SpellSize(r, t));
    WalkSize(r, t);
    ValuesDone(r);
  }

  // ----- the verdict on a spelt record -----

  lemma ValuesAt(r: Sps)
    requires Legal(r)
    ensures var v, n := Values(r), |HeadValues(r)|;
            && n >= 6 && RefsAt(v) == n && v[n..] == SizeValues(r) && |v| == n + |SizeValues(r)|
            && v[0] == r.profile && v[1] == r.constraints && v[2] == r.level && v[3] == r.id && v[4] == r.frameNum
            && v[5] == (match r.poc case Lsb(_) => 0 case Cycle(_, _, _, _) => 1 case Implied => 2)
            && (r.poc.Lsb? ==> v[6] == r.poc.log2) && (r.poc.Cycle? ==> n > 9 && v[9] == |r.poc.offsets|)
  {
    hide RefsAt, SpsNext;
    TailAfter(r, SizeValues(r));
  }

  lemma SizeAt(r: Sps)
    requires Legal(r)
    ensures var v, n := Values(r), |HeadValues(r)|;
            && |v| == n + (if r.crop.Some? then 12 else 8) && v[n] == r.refs && v[n + 2] == r.widthLess1
            && v[n + 3] == r.heightLess1 && v[n + 4] == Bit(r.frames) && v[n + 6] == Bit(r.crop.Some?)
            && (r.crop.Some? ==> forall k :: 0 <= k < 4 ==> v[n + 7 + k] == Side(r.crop, k))
  {
    hide RefsAt, HeadValues;
    var v, n, z := Values(r), |HeadValues(r)|, SizeValues(r);
    assert forall i :: 0 <= i < |z| ==> v[n + i] == z[i];
  }

  lemma SpeltComplete(r: Sps)
    requires Legal(r)
    ensures Complete(Values(r)) && forall k :: 0 <= k < 4 ==> Crop(Values(r), k) == Side(r.crop, k)
  {
    hide RefsAt, HeadValues, SizeValues, Values;
    ValuesAt(r);
    SizeAt(r);
  }

  lemma SpeltHead(r: Sps)
    requires Legal(r)
    ensures HeadOk(Values(r)) <==>
      !(r.id > 31 || r.frameNum > 12 || (r.poc.Lsb? && r.poc.log2 > 12) || (r.poc.Cycle? && |r.poc.offsets| > 255))
  {
    hide RefsAt, HeadValues, SizeValues, Values;
    ValuesAt(r);
    SizeAt(r);
  }

  /** The table's verdict and format are those of the fields. */
  lemma VerdictSpelt(r: Sps, t: seq<bool>)
    requires Legal(r)
    ensures Verdict(Done(Values(r), t)) == Judge(r) && FormatOf(Values(r)) == FormatFor(r)
  {
    hide RefsAt, HeadValues, SizeValues, Values, HeadOk, Complete, Crop, Side;
    ValuesAt(r);
    SizeAt(r);
    SpeltComplete(r);
    SpeltHead(r);
    var v := Values(r);
    assert CropOk(v) <==>
           && (forall k :: 0 <= k < 4 ==> Side(r.crop, k) <= 240)
           && Side(r.crop, 0) + Side(r.crop, 1) < 8 * (r.widthLess1 + 1)
           && Side(r.crop, 2) + Side(r.crop, 3) < 8 * (r.heightLess1 + 1);
  }

  /** A NAL unit that spells a record, whatever follows it, gets the record's verdict and format. */
  lemma FormatSpelt(nal: seq<byte>, r: Sps, t: seq<bool>)
    requires Legal(r) && RbspBits(nal) == Spell(r, t) && 5 <= |nal| <= 1024 && HasType(nal, 7)
    ensures FormatCode(nal) == Judge(r) && FormatOf(SpsWalk(nal).vals) == FormatFor(r)
  {
    hide Walk, Judge, FormatOf, FormatFor, Verdict, BitsOf, Legal, Values, Spell;
    WalkSpelt(r, t);
    VerdictSpelt(r, t);
    SpeltSome(r, t);
  }

  lemma SpeltSome(r: Sps, t: seq<bool>)
    ensures Spell(r, t) != []
  {}

  /** A record cut short is not accepted. */
  lemma TruncatedRefused(nal: seq<byte>, r: Sps)
    requires Legal(r) && RbspBits(nal) < Spell(r, [])
    ensures FormatCode(nal) < 0
  {
    hide Walk, SpsNext, Follows, Print, Spell, Legal, Values, BitsOf, HeadOk, CropOk, Accepted;
    WalkSpelt(r, []);
    PrintWalk(SpsNext, [], Spell(r, []));
    assert Print(SpsNext, Values(r), 0) + [] == Print(SpsNext, Values(r), 0);
    WalkStarved(SpsNext, Values(r), 0, RbspBits(nal));
    assert Values(r)[..0] == [];
    VerdictZero(SpsWalk(nal));
  }

  // ----- every accepted set is a record -----

  lemma FieldAt(v: seq<int>, i: nat)
    requires Follows(SpsNext, v, 0) && i < |v|
    ensures SpsNext(v[..i]).Some? && FieldOk(SpsNext(v[..i]).value, v[i])
  {
    hide SpsNext, FieldOk;
    FollowsAt(SpsNext, v, 0, i);
  }

  lemma NumberAt(v: seq<int>, i: nat)
    requires Follows(SpsNext, v, 0) && i < |v| && SpsNext(v[..i]) == Some(UE)
    ensures 0 <= v[i] < UE_LIMIT
  {
    hide SpsNext;
    FieldAt(v, i);
  }

  lemma FlagAt(v: seq<int>, i: nat)
    requires Follows(SpsNext, v, 0) && i < |v| && SpsNext(v[..i]) == Some(U(1))
    ensures v[i] == 0 || v[i] == 1
  {
    hide SpsNext;
    FieldAt(v, i);
    assert Pow2(1) == 2;
  }

  lemma ByteAt(v: seq<int>, i: nat)
    requires Follows(SpsNext, v, 0) && i < |v| && i < 3
    ensures 0 <= v[i] < 256
  {
    hide SpsNext;
    NextAt(v[..i]);
    FieldAt(v, i);
    assert Pow2(8) == 256;
  }

  /** The picture order count fields of accepted values. */
  lemma PocOf(v: seq<int>) returns (p: Poc)
    requires Follows(SpsNext, v, 0) && Accepted(v)
    ensures PocOk(p) && v[5..RefsAt(v)] == PocValues(p)
  {
    hide SpsNext, Follows, TailNext;
    NextAt(v);
    if v[5] == 0 {
      NextAt(v[..6]);
      NumberAt(v, 6);
      p := Lsb(v[6]);
    } else if v[5] == 1 {
      p := CycleOf(v);
    } else {
      p := Implied;
    }
  }

  lemma CycleOf(v: seq<int>) returns (p: Poc)
    requires Follows(SpsNext, v, 0) && Accepted(v) && v[5] == 1
    ensures PocOk(p) && v[5..RefsAt(v)] == PocValues(p)
  {
    hide SpsNext, Follows, TailNext, RefsAt, Complete, CropOk;
    CycleNumbers(v);
    var offsets := seq(v[9], i requires 0 <= i < v[9] => v[10 + i] as nat);
    p := Cycle(v[6] == 1, v[7], v[8], offsets);
    assert v[10..RefsAt(v)] == offsets;
    assert v[5..10] == [1, Bit(p.zero), p.nonRef, p.bottom, |offsets|];
    assert v[5..RefsAt(v)] == v[5..10] + v[10..RefsAt(v)];
  }

  lemma CycleNumbers(v: seq<int>)
    requires Follows(SpsNext, v, 0) && Accepted(v) && v[5] == 1
    ensures |v| > RefsAt(v) == 10 + v[9] >= 10 && (v[6] == 0 || v[6] == 1)
    ensures forall i :: 7 <= i < 10 + v[9] ==> 0 <= v[i] < UE_LIMIT
  {
    hide SpsNext, Follows, TailNext, RefsAt, CropOk;
    NextAt(v);
    NextAt(v[..6]);
    FlagAt(v, 6);
    CycleNumber(v, 9);
    forall i | 7 <= i < 10 + v[9]
      ensures 0 <= v[i] < UE_LIMIT
    {
      CycleNumber(v, i);
    }
  }

  lemma CycleNumber(v: seq<int>, i: nat)
    requires Follows(SpsNext, v, 0) && |v| > 9 && v[0] != HIGH && v[5] == 1
    requires 7 <= i < |v| && (i <= 9 || i < 10 + v[9])
    ensures 0 <= v[i] < UE_LIMIT
  {
    hide SpsNext, Follows, TailNext, RefsAt;
    NextAt(v[..i]);
    NumberAt(v, i);
  }

  lemma TailNumber(v: seq<int>, i: nat)
    requires Follows(SpsNext, v, 0) && Accepted(v) && RefsAt(v) <= i < |v|
    ensures var k := i - RefsAt(v);
            && (k in {0, 2, 3, 7, 8, 9, 10} && (k < 7 || v[RefsAt(v) + 6] == 1) ==> 0 <= v[i] < UE_LIMIT)
            && (k in {1, 4, 5, 6} ==> v[i] == 0 || v[i] == 1)
            && (k == (if v[RefsAt(v) + 6] == 1 then 11 else 7) ==> v[i] == 0 || v[i] == 1)
  {
    hide SpsNext, Follows, RefsAt, CropOk;
    NextAt(v);
    NextAt(v[..i]);
    assert v[..i][RefsAt(v)..] == v[RefsAt(v)..i];
    FieldAt(v, i);
    assert Pow2(1) == 2;
  }

  /** The values from max_num_ref_frames on, as far as `x` can hold them. */
  lemma SizeOf(v: seq<int>, x: Sps) returns (r: Sps)
    requires Follows(SpsNext, v, 0) && Accepted(v)
    ensures r == x.(refs := r.refs, gaps := r.gaps, widthLess1 := r.widthLess1, heightLess1 := r.heightLess1,
                    frames := r.frames, direct := r.direct, crop := r.crop, vui := r.vui)
    ensures r.refs < UE_LIMIT && r.widthLess1 < UE_LIMIT && r.heightLess1 < UE_LIMIT && CropFits(r.crop)
    ensures v[RefsAt(v)..] == SizeValues(r)
  {
    hide Follows, Accepted, SpsNext, RefsAt, CropFits, CropValues, SizeValues;
    var n := RefsAt(v);
    SizeNumbers(v, n);
    var crop := CropOf(v);
    r := x.(refs := v[n], gaps := v[n + 1] == 1, widthLess1 := v[n + 2], heightLess1 := v[n + 3],
            frames := v[n + 4] == 1, direct := v[n + 5] == 1, crop := crop, vui := v[|v| - 1] == 1);
    SizeIs(v, n, r);
  }

  lemma SizeNumbers(v: seq<int>, n: nat)
    requires Follows(SpsNext, v, 0) && Accepted(v) && n == RefsAt(v)
    ensures |v| >= n + 8 && 0 <= v[n] < UE_LIMIT && 0 <= v[n + 2] < UE_LIMIT && 0 <= v[n + 3] < UE_LIMIT
    ensures v[n + 1] in {0, 1} && v[n + 4] in {0, 1} && v[n + 5] in {0, 1} && v[|v| - 1] in {0, 1}
  {
    hide SpsNext, Follows, RefsAt, CropOk, HeadOk;
    TailNumber(v, n);
    TailNumber(v, n + 1);
    TailNumber(v, n + 2);
    TailNumber(v, n + 3);
    TailNumber(v, n + 4);
    TailNumber(v, n + 5);
    TailNumber(v, |v| - 1);
  }

  lemma SizeIs(v: seq<int>, n: nat, r: Sps)
    requires |v| >= n + 8 && v[n + 6..|v| - 1] == CropValues(r.crop) && v[|v| - 1] == Bit(r.vui)
    requires v[n] == r.refs && v[n + 1] == Bit(r.gaps) && v[n + 2] == r.widthLess1 && v[n + 3] == r.heightLess1
    requires v[n + 4] == Bit(r.frames) && v[n + 5] == Bit(r.direct)
    ensures v[n..] == SizeValues(r)
  {
    hide CropValues, Bit;
    assert v[n..] == v[n..n + 6] + v[n + 6..|v| - 1] + v[|v| - 1..];
    assert v[n..n + 6] == [r.refs, Bit(r.gaps), r.widthLess1, r.heightLess1, Bit(r.frames), Bit(r.direct)];
  }

  lemma CropOf(v: seq<int>) returns (crop: Option<Sides>)
    requires Follows(SpsNext, v, 0) && Accepted(v)
    ensures CropFits(crop) && v[RefsAt(v) + 6..|v| - 1] == CropValues(crop)
  {
    hide SpsNext, Follows, RefsAt, CropOk, HeadOk;
    var n := RefsAt(v);
    TailNumber(v, n + 6);
    if v[n + 6] == 1 {
      TailNumber(v, n + 7);
      TailNumber(v, n + 8);
      TailNumber(v, n + 9);
      TailNumber(v, n + 10);
      crop := Some(Sides(v[n + 7], v[n + 8], v[n + 9], v[n + 10]));
    } else {
      crop := None;
    }
  }

  /** Accepted values are those of a legal record. */
  lemma RecordOf(v: seq<int>) returns (r: Sps)
    requires Follows(SpsNext, v, 0) && Accepted(v)
    ensures Legal(r) && Values(r) == v
  {
    hide SpsNext, Follows, RefsAt, CropOk, PocValues, PocOk, SizeValues, CropFits, TailNext;
    NextAt(v);
    ByteAt(v, 0);
    ByteAt(v, 1);
    ByteAt(v, 2);
    NextAt(v[..3]);
    NumberAt(v, 3);
    NextAt(v[..4]);
    NumberAt(v, 4);
    var p := PocOf(v);
    r := SizeOf(v, Sps(v[0], v[1], v[2], v[3], v[4], p, 0, false, 0, 0, false, false, None, false));
    var n := RefsAt(v);
    assert v == v[..5] + v[5..n] + v[n..];
    assert v[..5] == [r.profile as int, r.constraints as int, r.level as int, r.id, r.frameNum];
  }

  /** Every accepted NAL unit spells a record that the fields allow. */
  lemma AcceptedSpelt(nal: seq<byte>) returns (r: Sps, t: seq<bool>)
    requires FormatCode(nal) == 0
    ensures Legal(r) && Judge(r) == 0 && RbspBits(nal) == Spell(r, t) && FormatOf(SpsWalk(nal).vals) == FormatFor(r)
  {
    hide Walk, SpsNext, Follows, Print, Judge, FormatFor, FormatOf, Spell, Legal, Values, BitsOf, Accepted, Verdict;
    var w := SpsWalk(nal);
    VerdictZero(w);
    PrintWalk(SpsNext, [], RbspBits(nal));
    r := RecordOf(w.vals);
    t := w.rest;
    WalkSpelt(r, t);
    PrintWalk(SpsNext, [], Spell(r, t));
    VerdictSpelt(r, t);
  }
}
