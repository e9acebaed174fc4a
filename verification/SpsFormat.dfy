/**
 The sequence parameter set: its syntax table (section 7.3.2.1.1 of ITU-T H.264), what the format
 inspection accepts, and the inspection itself.
 */
module SpsFormat {
  import opened Bits
  import opened Syntax
  import opened Emulation
  import opened BitReader

  // ----- syntax table -----

  const HIGH: int := 100

  /** Values before log2_max_frame_num_minus4: four, or nine with the High extension. */
  function Base(v: seq<int>): (b: nat) {
    if |v| > 0 && v[0] == HIGH then 9 else 4
  }

  /** Fields between pic_order_cnt_type and max_num_ref_frames; `w` starts at log2_max_frame_num. */
  function PocArgs(w: seq<int>): (n: nat) {
    if |w| < 2 then 0
    else if w[1] == 0 then 1
    else if w[1] == 1 then 4 + (if |w| > 5 && w[5] > 0 then w[5] else 0)
    else 0
  }

  /** From max_num_ref_frames to vui_parameters_present_flag. */
  function TailNext(t: seq<int>): (f: Option<Field>) {
    if |t| in {0, 2, 3} then Some(UE)
    else if |t| < 7 then Some(U(1))
    else if t[6] == 1 && |t| < 11 then Some(UE)
    else if |t| == (if t[6] == 1 then 11 else 7) then Some(U(1))
    else None
  }

  /** From log2_max_frame_num_minus4 on. */
  function BodyNext(w: seq<int>): (f: Option<Field>) {
    if |w| < 2 then Some(UE)
    else if w[1] !in {0, 1, 2} then None
    else if |w| - 2 < PocArgs(w) then (if w[1] == 1 && |w| == 2 then Some(U(1)) else Some(UE))
    else TailNext(w[2 + PocArgs(w)..])
  }

  /** The whole table; High streams with 4:4:4 chroma or scaling lists end it early. */
  function SpsNext(v: seq<int>): (f: Option<Field>) {
    if |v| < 3 then Some(U(8))
    else if |v| == 3 then Some(UE)
    else if |v| < Base(v) then (if |v| < 7 then Some(UE) else Some(U(1)))
    else if v[0] == HIGH && (v[4] == 3 || v[8] == 1) then None
    else BodyNext(v[Base(v)..])
  }

  /** Index of max_num_ref_frames. */
  function RefsAt(v: seq<int>): (i: nat) {
    Base(v) + 2 + if |v| >= Base(v) then PocArgs(v[Base(v)..]) else 0
  }

  /** Every field through the VUI flag has been read. */
  predicate Complete(v: seq<int>) {
    |v| >= Base(v) + 2 && v[Base(v) + 1] in {0, 1, 2} &&
    |v| >= RefsAt(v) + 7 && |v| == RefsAt(v) + (if v[RefsAt(v) + 6] == 1 then 12 else 8)
  }

  // ----- what the inspection accepts -----

  datatype Format = Format(profile: int, level: int, refs: int, spsId: int, codedWidth: int, codedHeight: int,
                           width: int, height: int, cropLeft: int, cropTop: int)

  const NO_FORMAT: Format := Format(0, 0, 0, 0, 0, 0, 0, 0, 0, 0)

  /** Frame crop offset `k` (left, right, top, bottom); 0 when cropping is off. */
  function Crop(v: seq<int>, k: nat): (c: int)
    requires Complete(v) && k < 4
  {
    if v[RefsAt(v) + 6] == 1 then v[RefsAt(v) + 7 + k] else 0
  }

  function FormatOf(v: seq<int>): (f: Format) {
    if !Complete(v) then NO_FORMAT else
    var r := RefsAt(v);
    var cw, ch := 16 * (v[r + 2] + 1), 16 * (v[r + 3] + 1);
    Format(v[0], v[2], v[r], v[3], cw, ch,
           cw - 2 * (Crop(v, 0) + Crop(v, 1)), ch - 2 * (Crop(v, 2) + Crop(v, 3)),
           2 * Crop(v, 0), 2 * Crop(v, 2))
  }

  /** The fields before the size were all present and in range. */
  predicate HeadOk(v: seq<int>) {
    && |v| >= 6 && v[3] <= 31 && v[4] <= 12 && v[5] in {0, 1, 2}
    && (v[5] == 0 ==> |v| > 6 && v[6] <= 12)
    && (v[5] == 1 ==> |v| > 9 && v[9] <= 255)
    && v[0] != HIGH && |v| >= RefsAt(v) + 4
  }

  predicate CropOk(v: seq<int>)
    requires Complete(v)
  {
    && (forall k | 0 <= k < 4 :: Crop(v, k) <= 240)
    && 2 * (Crop(v, 0) + Crop(v, 1)) < 16 * (v[RefsAt(v) + 2] + 1)
    && 2 * (Crop(v, 2) + Crop(v, 3)) < 16 * (v[RefsAt(v) + 3] + 1)
  }

  /** -1 malformed, -2 unsupported, 0 accepted: the verdict on a finished or starved walk. */
  function Verdict(w: Walked): (code: int) {
    var v := w.vals;
    if |v| < 3 || v[1] % 4 != 0 then -1
    else if v[0] !in {66, 77} then -2
    else if !HeadOk(v) then -1
    else
      var r := RefsAt(v);
      if v[r + 2] >= 30 || v[r + 3] >= 17 || v[r] > 4 then -2
      else if |v| == r + 4 then -1
      else if v[r + 4] == 0 then -2
      else if w.Starved? || !Complete(v) || !CropOk(v) then -1
      else 0
  }

  /** The values an accepted parameter set may have. */
  predicate Accepted(v: seq<int>) {
    && Complete(v) && v[0] in {66, 77} && v[1] % 4 == 0 && HeadOk(v) && CropOk(v)
    && var r := RefsAt(v); v[r] <= 4 && v[r + 2] < 30 && v[r + 3] < 17 && v[r + 4] != 0
  }

  /** Zero is the verdict on exactly the finished walks with accepted values. */
  lemma VerdictZero(w: Walked)
    ensures Verdict(w) == 0 <==> w.Done? && Accepted(w.vals)
  {}

  /** A NAL of type `t` without forbidden_zero_bit, whatever its nal_ref_idc: `(nal[0]&0x9f)==t`. */
  predicate HasType(nal: seq<byte>, t: nat) {
    |nal| > 0 && nal[0] < 128 && nal[0] % 32 == t
  }

  /** The RBSP bits of a NAL. */
  function RbspBits(nal: seq<byte>): (s: seq<bool>) {
    if |nal| == 0 || Unescape(nal[1..], 0).None? then [] else BitsOf(Unescape(nal[1..], 0).value)
  }

  /** The parse of a sequence parameter set. */
  function SpsWalk(nal: seq<byte>): (w: Walked) {
    Walk(SpsNext, [], RbspBits(nal))
  }

  function FormatCode(nal: seq<byte>): (code: int) {
    if |nal| < 5 || |nal| > 1024 || !HasType(nal, 7) || Unescape(nal[1..], 0).None? then -1
    else Verdict(SpsWalk(nal))
  }

  // ----- the inspection -----

  /** Everything before max_num_ref_frames has been read and is in range. */
  predicate AtRefs(v: seq<int>) {
    && |v| >= 6 && v[0] in {66, 77} && v[1] % 4 == 0 && v[3] <= 31 && v[4] <= 12 && v[5] in {0, 1, 2}
    && |v| == RefsAt(v)
    && (v[5] == 0 ==> v[6] <= 12)
    && (v[5] == 1 ==> v[9] <= 255)
  }

  /** The Baseline/Main table, value count by value count. */
  lemma NextAt(v: seq<int>)
    ensures |v| >= 6 && v[0] != HIGH && v[5] == 0 ==> RefsAt(v) == 7
    ensures |v| >= 6 && v[0] != HIGH && v[5] == 1 ==> RefsAt(v) == 10 + if |v| > 9 && v[9] > 0 then v[9] else 0
    ensures |v| >= 6 && v[0] != HIGH && v[5] != 0 && v[5] != 1 ==> RefsAt(v) == 6
    ensures |v| < 3 ==> SpsNext(v) == Some(U(8))
    ensures |v| == 3 ==> SpsNext(v) == Some(UE)
    ensures 4 <= |v| < 6 && v[0] != HIGH ==> SpsNext(v) == Some(UE)
    ensures |v| >= 6 && v[0] != HIGH && v[5] in {0, 1, 2} && |v| < RefsAt(v) ==>
      SpsNext(v) == if v[5] == 1 && |v| == 6 then Some(U(1)) else Some(UE)
    ensures |v| >= 6 && v[0] != HIGH && v[5] in {0, 1, 2} && |v| >= RefsAt(v) ==>
      SpsNext(v) == TailNext(v[RefsAt(v)..])
  {
    if |v| >= 6 && v[0] != HIGH {
      assert v[4..][1] == v[5];
      if |v| >= RefsAt(v) {
        assert v[4..][2 + PocArgs(v[4..])..] == v[RefsAt(v)..];
      }
    }
  }

  /** A bad read before the frame size has only one verdict left. */
  lemma StarvedHead(w: Walked)
    requires w.Starved? && |w.vals| >= 3 && w.vals[1] % 4 == 0 && w.vals[0] in {66, 77}
    requires |w.vals| >= 6 && w.vals[5] in {0, 1, 2} ==> |w.vals| < RefsAt(w.vals) + 4
    ensures Verdict(w) == -1
  {}

  /** An out-of-range value before the frame size, too. */
  lemma OutOfRange(w: Walked)
    requires |w.vals| >= 3 && w.vals[1] % 4 == 0 && w.vals[0] in {66, 77} && !HeadOk(w.vals)
    ensures Verdict(w) == -1
  {}

  /** A walk only ever adds to the values read so far. */
  lemma Judged(w: Walked, v: seq<int>, s: seq<bool>)
    requires w == Walk(SpsNext, v, s)
    ensures v <= w.vals
  {
    PrintWalk(SpsNext, v, s);
  }

  /** Five bytes of NAL carry at least the profile, constraint and level bytes. */
  lemma ThreeBytes(payload: seq<byte>)
    requires |payload| >= 4 && Unescape(payload, 0).Some?
    ensures |BitsOf(Unescape(payload, 0).value)| >= 24
  {
    EscapeUnescape(payload, 0);
    EscapeGrowth(Unescape(payload, 0).value, 0);
  }

  /** profile_idc to seq_parameter_set_id. */
  method ReadIdentity(b: SpsBits, ghost w: Walked)
    returns (code: int, profile: int, level: int, spsId: int, ghost v: seq<int>)
    requires b.Valid() && !b.bad && |b.Rest()| >= 24 && b.Tracks(SpsNext, [], w)
    modifies b`pos, b`bad
    ensures b.Valid()
    ensures code != 0 ==> code == Verdict(w)
    ensures code == 0 ==> b.Tracks(SpsNext, v, w) && 3 <= |v| <= 4 && v[0] == profile && v[2] == level
    ensures code == 0 ==> profile in {66, 77} && v[1] % 4 == 0
    ensures code == 0 && b.bad ==> Verdict(w) == -1
    ensures code == 0 && !b.bad ==> |v| == 4 && v[3] == spsId
  {
    hide Walk, SpsNext, RefsAt, Base;
    var x: nat;
    v, profile, level, spsId := [], 0, 0, 0;
    NextAt(v);
    x, v := b.U(8, SpsNext, v, w);
    profile := x;
    NextAt(v);
    x, v := b.U(8, SpsNext, v, w);
    Judged(w, v, b.Rest());
    if x % 4 != 0 {
      return -1, 0, 0, 0, v;
    }
    NextAt(v);
    x, v := b.U(8, SpsNext, v, w);
    level := x;
    Judged(w, v, b.Rest());
    NextAt(v);
    x, v := b.Ue(SpsNext, v, w);
    spsId := x;
    if profile != 66 && profile != 77 {
      return -2, 0, 0, 0, v;
    }
    code := 0;
    if b.bad {
      StarvedHead(w);
    }
  }

  /** The head so far is in range, and a bad reader has settled the verdict. */
  ghost predicate OnCourse(b: SpsBits, v: seq<int>, w: Walked)
    reads b, b.bytes
  {
    && b.Valid() && b.Tracks(SpsNext, v, w)
    && |v| >= 3 && v[0] in {66, 77} && v[1] % 4 == 0
    && (b.bad ==> Verdict(w) == -1)
    && (!b.bad ==> |v| >= 4 && v[3] <= 31)
  }

  /** One Exp-Golomb field before the frame size. */
  method HeadUe(b: SpsBits, ghost v: seq<int>, ghost w: Walked) returns (x: nat, ghost next: seq<int>)
    requires OnCourse(b, v, w)
    requires !b.bad ==> SpsNext(v) == Some(UE) && (|v| >= 6 ==> v[5] in {0, 1, 2} && |v| < RefsAt(v) + 4)
    modifies b`pos, b`bad
    ensures OnCourse(b, next, w) && (old(b.bad) ==> b.bad) && next == if b.bad then v else v + [x]
    ensures !b.bad ==> next <= w.vals
  {
    hide Walk, SpsNext, RefsAt, Base, Verdict;
    x, next := b.Ue(SpsNext, v, w);
    if b.bad {
      if !old(b.bad) {
        StarvedHead(w);
      }
    } else {
      Judged(w, next, b.Rest());
    }
  }

  /** One flag before the frame size. */
  method HeadFlag(b: SpsBits, ghost v: seq<int>, ghost w: Walked) returns (x: nat, ghost next: seq<int>)
    requires OnCourse(b, v, w)
    requires !b.bad ==> SpsNext(v) == Some(U(1)) && (|v| >= 6 ==> v[5] in {0, 1, 2} && |v| < RefsAt(v) + 4)
    modifies b`pos, b`bad
    ensures OnCourse(b, next, w) && (old(b.bad) ==> b.bad) && next == if b.bad then v else v + [x]
    ensures !b.bad ==> next <= w.vals
  {
    hide Walk, SpsNext, RefsAt, Base, Verdict;
    x, next := b.U(1, SpsNext, v, w);
    if b.bad {
      if !old(b.bad) {
        StarvedHead(w);
      }
    } else {
      Judged(w, next, b.Rest());
    }
  }

  /** log2_max_frame_num_minus4 and the picture order count fields. */
  method ReadOrder(b: SpsBits, ghost v0: seq<int>, ghost w: Walked) returns (code: int, ghost v: seq<int>)
    requires OnCourse(b, v0, w) && (!b.bad ==> |v0| == 4)
    modifies b`pos, b`bad
    ensures code == 0 || code == -1 == Verdict(w)
    ensures code == 0 ==> OnCourse(b, v, w)
    ensures code == 0 && !b.bad ==> AtRefs(v) && v0 <= v && !old(b.bad)
  {
    hide Walk, SpsNext, RefsAt, Base, PocArgs, Verdict;
    var x: nat;
    NextAt(v0);
    x, v := HeadUe(b, v0, w);
    if x > 12 {
      if !b.bad {
        OutOfRange(w);
      }
      return -1, v;
    }
    NextAt(v);
    x, v := HeadUe(b, v, w);
    NextAt(v);
    if x == 0 {
      x, v := HeadUe(b, v, w);
      if x > 12 {
        if !b.bad {
          OutOfRange(w);
        }
        return -1, v;
      }
    } else if x == 1 {
      code, v := ReadCycle(b, v, w);
      return;
    } else if x != 2 {
      if !b.bad {
        OutOfRange(w);
      }
      return -1, v;
    }
    NextAt(v);
    code := 0;
  }

  /** The fields of pic_order_cnt_type 1. */
  method ReadCycle(b: SpsBits, ghost v0: seq<int>, ghost w: Walked) returns (code: int, ghost v: seq<int>)
    requires OnCourse(b, v0, w) && (!b.bad ==> |v0| == 6 && v0[4] <= 12 && v0[5] == 1)
    modifies b`pos, b`bad
    ensures code == 0 || code == -1 == Verdict(w)
    ensures code == 0 ==> OnCourse(b, v, w)
    ensures code == 0 && !b.bad ==> AtRefs(v) && v0 <= v && !old(b.bad)
  {
    hide Walk, SpsNext, RefsAt, Base, PocArgs, Verdict;
    var x: nat;
    NextAt(v0);
    x, v := HeadFlag(b, v0, w);
    NextAt(v);
    x, v := HeadUe(b, v, w);
    NextAt(v);
    x, v := HeadUe(b, v, w);
    NextAt(v);
    x, v := HeadUe(b, v, w);
    var cycle := x;
    if cycle > 255 {
      if !b.bad {
        OutOfRange(w);
      }
      return -1, v;
    }
    var j := 0;
    while j < cycle
      invariant 0 <= j <= cycle && OnCourse(b, v, w) && (old(b.bad) ==> b.bad)
      invariant !b.bad ==> |v| == 10 + j && v0 <= v && v[4] <= 12 && v[5] == 1 && v[9] == cycle
    {
      NextAt(v);
      x, v := HeadUe(b, v, w);
      j := j + 1;
    }
    NextAt(v);
    code := 0;
  }

  /** Values `v` run past the frame size, everything up to there in range. */
  predicate PastSize(v: seq<int>, r: nat) {
    && |v| >= r + 4 && r >= 6 && HeadOk(v) && RefsAt(v) == r && v[0] in {66, 77} && v[1] % 4 == 0
    && v[r] <= 4 && v[r + 2] < 30 && v[r + 3] < 17
  }

  lemma TailVerdict(w: Walked, r: nat)
    requires PastSize(w.vals, r)
    ensures |w.vals| == r + 4 ==> Verdict(w) == -1
    ensures |w.vals| > r + 4 && w.vals[r + 4] == 0 ==> Verdict(w) == -2
    ensures |w.vals| > r + 4 && w.vals[r + 4] != 0 ==>
      Verdict(w) == if w.Done? && Complete(w.vals) && CropOk(w.vals) then 0 else -1
  {}

  /** What the size check leaves of a head extended by the four fields up to the height. */
  lemma SizeVerdict(w: Walked, v: seq<int>)
    requires |v| >= 4 && AtRefs(v[..|v| - 4]) && v <= w.vals
    ensures var r := |v| - 4; if v[r + 2] >= 30 || v[r + 3] >= 17 || v[r] > 4
            then Verdict(w) == -2 else PastSize(w.vals, r)
  {
    hide Complete, CropOk, SpsNext;
    var h := v[..|v| - 4];
    NextAt(h);
    NextAt(w.vals);
    assert w.vals[..|h|] == h;
  }

  /** From max_num_ref_frames through the size check. */
  method ReadSize(b: SpsBits, ghost v0: seq<int>, ghost w: Walked)
    returns (code: int, refs: int, width: int, height: int, ghost v: seq<int>)
    requires OnCourse(b, v0, w) && (!b.bad ==> AtRefs(v0))
    modifies b`pos, b`bad
    ensures b.Valid() && (code != 0 ==> code == Verdict(w))
    ensures code == 0 ==> |v| >= 10 && AtRefs(v[..|v| - 4]) && v0 <= v && !old(b.bad)
    ensures code == 0 ==> !b.bad && b.Tracks(SpsNext, v, w) && PastSize(w.vals, |v| - 4) && v <= w.vals
    ensures code == 0 ==> v[|v| - 4] == refs && v[|v| - 2] == width && v[|v| - 1] == height
  {
    hide Walk, SpsNext, RefsAt, Base, PocArgs, Verdict, TailNext, AtRefs;
    var x: nat;
    if !b.bad {
      NextTail(v0, v0);
    }
    x, v := HeadUe(b, v0, w);
    refs := x;
    if !b.bad {
      NextTail(v0, v);
    }
    x, v := HeadFlag(b, v, w);
    if !b.bad {
      NextTail(v0, v);
    }
    x, v := HeadUe(b, v, w);
    width := x;
    if !b.bad {
      NextTail(v0, v);
    }
    x, v := HeadUe(b, v, w);
    height := x;
    if b.bad {
      return -1, 0, 0, 0, v;
    }
    assert v[..|v| - 4] == v0;
    SizeVerdict(w, v);
    if width >= 30 || height >= 17 || refs > 4 {
      return -2, 0, 0, 0, v;
    }
    code := 0;
  }

  /** The table from max_num_ref_frames on, after a head that ends there. */
  lemma NextTail(h: seq<int>, v: seq<int>)
    requires AtRefs(h) && h <= v
    ensures |v| >= 6 && v[5] in {0, 1, 2} && RefsAt(v) == |h|
    ensures |v| - |h| in {0, 2, 3} ==> SpsNext(v) == Some(UE)
    ensures |v| - |h| in {1, 4, 5, 6} ==> SpsNext(v) == Some(U(1))
    ensures 7 <= |v| - |h| < 11 && v[|h| + 6] == 1 ==> SpsNext(v) == Some(UE)
    ensures |v| - |h| >= 7 && |v| - |h| == (if v[|h| + 6] == 1 then 11 else 7) ==> SpsNext(v) == Some(U(1))
    ensures |v| - |h| >= 8 && |v| - |h| == (if v[|h| + 6] == 1 then 12 else 8) ==> SpsNext(v) == None && Complete(v)
  {
    NextAt(h);
    NextAt(v);
    assert v[..|h|] == h;
    assert v[5] == h[5] && (|h| > 9 ==> v[9] == h[9]);
    var t := v[|h|..];
    assert |t| > 6 ==> t[6] == v[|h| + 6];
  }

  /** One more field of the tail; losing it settles the verdict. */
  ghost predicate InTail(b: SpsBits, h: seq<int>, v: seq<int>, w: Walked)
    reads b, b.bytes
  {
    && b.Valid() && b.Tracks(SpsNext, v, w) && AtRefs(h) && h <= v && PastSize(w.vals, |h|) && |v| > |h| + 4
    && v[|h| + 4] != 0 && (b.bad ==> Verdict(w) == -1) && v <= w.vals
  }

  method TailFlag(b: SpsBits, ghost h: seq<int>, ghost v: seq<int>, ghost w: Walked)
    returns (x: nat, ghost next: seq<int>)
    requires InTail(b, h, v, w) && (!b.bad ==> SpsNext(v) == Some(U(1)))
    modifies b`pos, b`bad
    ensures InTail(b, h, next, w) && (old(b.bad) ==> b.bad) && next == if b.bad then v else v + [x]
    ensures x <= 1
  {
    hide Walk, SpsNext, RefsAt, Base, PocArgs, Verdict, AtRefs, PastSize;
    x, next := b.U(1, SpsNext, v, w);
    if b.bad {
      TailVerdict(w, |h|);
    } else {
      Judged(w, next, b.Rest());
    }
  }

  method TailUe(b: SpsBits, ghost h: seq<int>, ghost v: seq<int>, ghost w: Walked)
    returns (x: nat, ghost next: seq<int>)
    requires InTail(b, h, v, w) && (!b.bad ==> SpsNext(v) == Some(UE))
    modifies b`pos, b`bad
    ensures InTail(b, h, next, w) && (old(b.bad) ==> b.bad) && next == if b.bad then v else v + [x]
  {
    hide Walk, SpsNext, RefsAt, Base, PocArgs, Verdict, AtRefs, PastSize;
    x, next := b.Ue(SpsNext, v, w);
    if b.bad {
      TailVerdict(w, |h|);
    } else {
      Judged(w, next, b.Rest());
    }
  }

  /** frame_mbs_only_flag to the VUI flag, and the crop offsets between them. */
  method ReadTail(b: SpsBits, ghost h: seq<int>, ghost v0: seq<int>, ghost w: Walked)
    returns (code: int, crop: seq<nat>)
    requires b.Valid() && !b.bad && b.Tracks(SpsNext, v0, w) && AtRefs(h) && h <= v0 <= w.vals && |v0| == |h| + 4
    requires PastSize(w.vals, |h|)
    modifies b`pos, b`bad
    ensures |crop| == 4
    ensures code != 0 ==> code == Verdict(w)
    ensures code == 0 ==> w.Done? && Complete(w.vals) && w.vals[|h| + 4] != 0 && RefsAt(w.vals) == |h|
    ensures code == 0 ==> forall k :: 0 <= k < 4 ==> crop[k] == Crop(w.vals, k)
  {
    hide Walk, SpsNext, RefsAt, Base, PocArgs, Verdict, AtRefs, PastSize, TailNext, Complete, Crop;
    crop := [0, 0, 0, 0];
    var x: nat;
    ghost var v := v0;
    NextTail(h, v);
    TailVerdict(w, |h|);
    x, v := b.U(1, SpsNext, v, w);
    if !b.bad {
      Judged(w, v, b.Rest());
    }
    if x == 0 {
      return if b.bad then -1 else -2, crop;
    }
    if b.bad {
      return -1, crop;
    }
    crop := ReadFlags(b, h, v, w);
    if b.bad {
      return -1, crop;
    }
    code := 0;
  }

  /** direct_8x8_inference_flag to the VUI flag. */
  method ReadFlags(b: SpsBits, ghost h: seq<int>, ghost v0: seq<int>, ghost w: Walked) returns (crop: seq<nat>)
    requires InTail(b, h, v0, w) && !b.bad && |v0| == |h| + 5
    modifies b`pos, b`bad
    ensures |crop| == 4 && (b.bad ==> Verdict(w) == -1)
    ensures !b.bad ==> w.Done? && Complete(w.vals) && w.vals[|h| + 4] != 0 && RefsAt(w.vals) == |h|
    ensures !b.bad ==> forall k :: 0 <= k < 4 ==> crop[k] == Crop(w.vals, k)
  {
    hide Walk, SpsNext, RefsAt, Base, PocArgs, Verdict, AtRefs, PastSize, TailNext, Complete, Crop;
    crop := [0, 0, 0, 0];
    NextTail(h, v0);
    var x: nat;
    ghost var v: seq<int>;
    x, v := TailFlag(b, h, v0, w);
    if !b.bad {
      NextTail(h, v);
    }
    x, v := TailFlag(b, h, v, w);
    if x != 0 {
      crop, v := ReadCrop(b, h, v, w);
    }
    if !b.bad {
      NextTail(h, v);
    }
    x, v := TailFlag(b, h, v, w);
    if !b.bad {
      NextTail(h, v);
      WalkEnds(SpsNext, v, b.Rest());
      CropIs(v, |h|, crop);
    }
  }

  lemma CropIs(v: seq<int>, r: nat, crop: seq<nat>)
    requires Complete(v) && RefsAt(v) == r && |crop| == 4
    requires forall k :: 0 <= k < 4 ==> crop[k] == if v[r + 6] == 1 then v[r + 7 + k] else 0
    ensures forall k :: 0 <= k < 4 ==> crop[k] == Crop(v, k)
  {}

  /** The four crop offsets. */
  method ReadCrop(b: SpsBits, ghost h: seq<int>, ghost v0: seq<int>, ghost w: Walked)
    returns (crop: seq<nat>, ghost v: seq<int>)
    requires InTail(b, h, v0, w) && (!b.bad ==> |v0| == |h| + 7 && v0[|h| + 6] == 1)
    modifies b`pos, b`bad
    ensures |crop| == 4 && InTail(b, h, v, w)
    ensures !b.bad ==> |v| == |h| + 11 && v[|h| + 6] == 1 && forall k :: 0 <= k < 4 ==> crop[k] == v[|h| + 7 + k]
  {
    hide Walk, SpsNext, RefsAt, Base, PocArgs, Verdict, AtRefs, PastSize, TailNext;
    crop, v := [], v0;
    var j, x := 0, 0;
    while j < 4
      invariant 0 <= j <= 4 && |crop| == j && InTail(b, h, v, w)
      invariant !b.bad ==> |v| == |h| + 7 + j && v[|h| + 6] == 1
      invariant !b.bad ==> forall k :: 0 <= k < j ==> crop[k] == v[|h| + 7 + k]
    {
      if !b.bad {
        NextTail(h, v);
      }
      x, v := TailUe(b, h, v, w);
      crop := crop + [x];
      j := j + 1;
    }
  }

  lemma WalkEnds(g: Table, v: seq<int>, s: seq<bool>)
    requires g(v).None?
    ensures Walk(g, v, s) == Done(v, s)
  {}

  /** `avc_stream_format`. */
  method StreamFormat(nal: seq<byte>) returns (code: int, f: Format)
    ensures code == FormatCode(nal)
    ensures f == if code == 0 then FormatOf(SpsWalk(nal).vals) else NO_FORMAT
  {
    f := NO_FORMAT;
    if |nal| < 5 || |nal| > 1024 || !HasType(nal, 7) {
      return -1, f;
    }
    var b := new SpsBits();
    var ok := b.Unescaped(nal[1..]);
    if !ok {
      return -1, f;
    }
    code, f := Inspect(b, SpsWalk(nal), nal);
  }

  /** The field walk of the inspection, over an unescaped NAL. */
  method Inspect(b: SpsBits, ghost w: Walked, ghost nal: seq<byte>) returns (code: int, f: Format)
    requires |nal| >= 5 && Unescape(nal[1..], 0).Some? && w == SpsWalk(nal)
    requires b.Valid() && !b.bad && b.pos == 0 && b.content == BitsOf(Unescape(nal[1..], 0).value)
    modifies b`pos, b`bad
    ensures code == Verdict(w)
    ensures f == if code == 0 then FormatOf(w.vals) else NO_FORMAT
  {
    hide Walk, SpsNext, RefsAt, Base, PocArgs, Verdict, PastSize, TailNext, Unescape, BitsOf, AtRefs, Crop, CropOk,
         FormatOf, CropFits;
    f := NO_FORMAT;
    ThreeBytes(nal[1..]);
    assert b.Rest() == b.content;
    var profile, level, spsId, refs, width, height: int;
    ghost var v: seq<int>;
    code, profile, level, spsId, v := ReadIdentity(b, w);
    if code != 0 {
      return;
    }
    if spsId > 31 {
      if !b.bad {
        Judged(w, v, b.Rest());
        OutOfRange(w);
      }
      return -1, f;
    }
    code, v := ReadOrder(b, v, w);
    if code != 0 {
      return;
    }
    code, refs, width, height, v := ReadSize(b, v, w);
    if code != 0 {
      return;
    }
    code, f := InspectTail(b, v, w, profile, level, spsId, refs, width, height);
  }

  /** The inspection once the frame size is known. */
  method InspectTail(b: SpsBits, ghost v: seq<int>, ghost w: Walked, profile: int, level: int, spsId: int,
                     refs: int, width: int, height: int) returns (code: int, f: Format)
    requires b.Valid() && !b.bad && |v| >= 10 && AtRefs(v[..|v| - 4]) && v <= w.vals
    requires b.Tracks(SpsNext, v, w) && PastSize(w.vals, |v| - 4)
    requires v[0] == profile && v[2] == level && v[3] == spsId
    requires v[|v| - 4] == refs && v[|v| - 2] == width && v[|v| - 1] == height
    modifies b`pos, b`bad
    ensures code == Verdict(w)
    ensures f == if code == 0 then FormatOf(w.vals) else NO_FORMAT
  {
    hide Walk, SpsNext, RefsAt, Base, PocArgs, Verdict, PastSize, TailNext, AtRefs, Crop, CropOk, FormatOf, CropFits;
    f := NO_FORMAT;
    ghost var h := v[..|v| - 4];
    var crop: seq<nat>;
    code, crop := ReadTail(b, h, v, w);
    if code != 0 {
      return;
    }
    TailVerdict(w, |h|);
    CropVerdict(w.vals, |h|, crop);
    var ok := JudgeCrop(crop, 16 * (width + 1), 16 * (height + 1));
    if !ok {
      return -1, f;
    }
    f := Format(profile, level, refs, spsId, 16 * (width + 1), 16 * (height + 1),
                16 * (width + 1) - 2 * (crop[0] + crop[1]), 16 * (height + 1) - 2 * (crop[2] + crop[3]),
                2 * crop[0], 2 * crop[2]);
  }

  predicate CropFits(crop: seq<nat>, codedWidth: int, codedHeight: int) {
    && |crop| == 4 && (forall k :: 0 <= k < 4 ==> crop[k] <= 240)
    && 2 * (crop[0] + crop[1]) < codedWidth && 2 * (crop[2] + crop[3]) < codedHeight
  }

  method JudgeCrop(crop: seq<nat>, codedWidth: int, codedHeight: int) returns (ok: bool)
    requires |crop| == 4
    ensures ok == CropFits(crop, codedWidth, codedHeight)
  {
    var j := 0;
    while j < 4
      invariant 0 <= j <= 4 && forall k :: 0 <= k < j ==> crop[k] <= 240
    {
      if crop[j] > 240 {
        return false;
      }
      j := j + 1;
    }
    ok := 2 * (crop[0] + crop[1]) < codedWidth && 2 * (crop[2] + crop[3]) < codedHeight;
  }

  lemma CropVerdict(v: seq<int>, r: nat, crop: seq<nat>)
    requires Complete(v) && RefsAt(v) == r && |crop| == 4 && forall k :: 0 <= k < 4 ==> crop[k] == Crop(v, k)
    ensures CropOk(v) == CropFits(crop, 16 * (v[r + 2] + 1), 16 * (v[r + 3] + 1))
    ensures FormatOf(v) == var cw, ch := 16 * (v[r + 2] + 1), 16 * (v[r + 3] + 1);
              Format(v[0], v[2], v[r], v[3], cw, ch, cw - 2 * (crop[0] + crop[1]), ch - 2 * (crop[2] + crop[3]),
                     2 * crop[0], 2 * crop[2])
  {
    hide RefsAt;
  }
}
