/**
 Quarter-sample motion compensation: the unchecked fast path for interior blocks, the checked
 per-pixel path and the plain copy, all against section 8.4.2.2.1 of ITU-T H.264.
 */
module Qpel {
  import opened Bits

  /** A reference frame: `h` rows of `w` samples, rows `stride` apart. */
  datatype Frame = Frame(px: seq<byte>, stride: nat, w: nat, h: nat)

  /** Flat index of row `y`, column `x`. */
  function Ix(stride: nat, y: nat, x: nat): (i: nat) {
    y * stride + x
  }

  ghost predicate FrameOk(f: Frame) {
    f.w >= 1 && f.h >= 1 && f.w <= f.stride && Ix(f.stride, f.h - 1, f.w) <= |f.px|
  }

  lemma IxRow(stride: nat, y: nat, x: nat, k: nat)
    ensures Ix(stride, y + k, x) == Ix(stride, y, x) + k * stride
  {
    assert (y + k) * stride == y * stride + k * stride;
  }

  lemma IxIn(stride: nat, y: nat, rows: nat, x: nat, w: nat)
    requires y < rows && x < w
    ensures Ix(stride, y, x) < Ix(stride, rows - 1, w)
  {
    assert y * stride <= (rows - 1) * stride;
  }

  lemma IxUnique(stride: nat, y: nat, x: nat)
    requires x < stride
    ensures Ix(stride, y, x) / stride == y && Ix(stride, y, x) % stride == x
  {
    DivUnique(Ix(stride, y, x), stride, y, x);
  }

  function Limit(v: int, n: nat): (r: nat)
    requires n >= 1
    ensures r < n && (r < v ==> r == n - 1) && (v < r ==> r == 0)
  {
    if v < 0 then 0 else if v >= n then n - 1 else v
  }

  /** `ref_pixel`: coordinates outside the frame are taken to its edge. */
  function RefPixel(f: Frame, x: int, y: int): (v: byte)
    requires FrameOk(f)
  {
    IxIn(f.stride, Limit(y, f.h), f.h, Limit(x, f.w), f.w);
    f.px[Ix(f.stride, Limit(y, f.h), Limit(x, f.w))]
  }

  // ----- section 8.4.2.2.1 -----

  function Tap(a: int, b: int, c: int, d: int, e: int, g: int): (v: int) {
    a - 5 * b + 20 * c + 20 * d - 5 * e + g
  }

  /** Six samples of a cubic, a sample apart, give 32 times its value halfway; the outer taps weigh one. */
  lemma TapInterpolates(a: int, b: int, c: int, d: int)
    ensures Tap(-125 * a + 25 * b - 5 * c + d, -27 * a + 9 * b - 3 * c + d, -a + b - c + d,
                a + b + c + d, 27 * a + 9 * b + 3 * c + d, 125 * a + 25 * b + 5 * c + d) == 32 * d
    ensures Tap(1, 0, 0, 0, 0, 0) == Tap(0, 0, 0, 0, 0, 1) == 1
  {}

  function Clip(v: int): (r: byte)
    ensures (r < v ==> r == 255) && (v < r ==> r == 0)
  {
    if v < 0 then 0 else if v > 255 then 255 else v
  }

  /** `v` is the sample nearest to `raw / d`, the greater one at a tie. */
  ghost predicate Nearest(v: byte, raw: int, d: nat) {
    (v < 255 ==> 2 * raw < 2 * v * d + d) && (v > 0 ==> 2 * v * d - d <= 2 * raw)
  }

  /** Horizontal and vertical filter sums before rounding. */
  function RawH(f: Frame, x: int, y: int): (v: int)
    requires FrameOk(f)
    ensures -2550 <= v <= 10710
  {
    Tap(RefPixel(f, x - 2, y), RefPixel(f, x - 1, y), RefPixel(f, x, y),
        RefPixel(f, x + 1, y), RefPixel(f, x + 2, y), RefPixel(f, x + 3, y))
  }

  function RawV(f: Frame, x: int, y: int): (v: int)
    requires FrameOk(f)
    ensures -2550 <= v <= 10710
  {
    Tap(RefPixel(f, x, y - 2), RefPixel(f, x, y - 1), RefPixel(f, x, y),
        RefPixel(f, x, y + 1), RefPixel(f, x, y + 2), RefPixel(f, x, y + 3))
  }

  /** Half samples: right of, below, and diagonally below-right of (x, y). */
  function HalfH(f: Frame, x: int, y: int): (v: byte)
    requires FrameOk(f)
  {
    Clip((RawH(f, x, y) + 16) / 32)
  }

  function HalfV(f: Frame, x: int, y: int): (v: byte)
    requires FrameOk(f)
  {
    Clip((RawV(f, x, y) + 16) / 32)
  }

  function RawJ(f: Frame, x: int, y: int): (v: int)
    requires FrameOk(f)
  {
    Tap(RawH(f, x, y - 2), RawH(f, x, y - 1), RawH(f, x, y), RawH(f, x, y + 1), RawH(f, x, y + 2), RawH(f, x, y + 3))
  }

  function Centre(f: Frame, x: int, y: int): (v: byte)
    requires FrameOk(f)
  {
    Clip((RawJ(f, x, y) + 512) / 1024)
  }

  lemma Clipped(v: byte, raw: int, d: nat)
    requires d > 0 && v == Clip((raw + d) / (2 * d))
    ensures Nearest(v, raw, 2 * d)
  {
    var q := (raw + d) / (2 * d);
    assert 2 * d * q <= raw + d < 2 * d * q + 2 * d;
    if v < 255 {
      assert 2 * d * q <= 2 * d * v;
    }
    if v > 0 {
      assert 2 * d * v <= 2 * d * q;
    }
  }

  /** Half samples are the filter sums scaled down, to the nearest sample. */
  lemma HalvesNearest(f: Frame, x: int, y: int)
    requires FrameOk(f)
    ensures Nearest(HalfH(f, x, y), RawH(f, x, y), 32) && Nearest(HalfV(f, x, y), RawV(f, x, y), 32)
    ensures Nearest(Centre(f, x, y), RawJ(f, x, y), 1024)
  {
    hide FrameOk, RawH, RawV, RawJ, Clip, Nearest;
    Clipped(HalfH(f, x, y), RawH(f, x, y), 16);
    Clipped(HalfV(f, x, y), RawV(f, x, y), 16);
    Clipped(Centre(f, x, y), RawJ(f, x, y), 512);
  }

  /** Halfway between two samples, rounded up. */
  function Mean(a: byte, b: byte): (v: byte)
    ensures a as int + b <= 2 * (v as int) <= a as int + b + 1
  {
    (a + b + 1) / 2
  }

  /** Table 8-12: the sample at quarter offset (fx, fy) from (x, y), under its letter in figure 8-4. */
  function Sample(f: Frame, fx: nat, fy: nat, x: int, y: int): (v: byte)
    requires FrameOk(f)
  {
    match (fx, fy)
    case (0, 0) => RefPixel(f, x, y)
    case (0, 1) => Mean(RefPixel(f, x, y), HalfV(f, x, y)) // d
    case (0, 2) => HalfV(f, x, y) // h
    case (0, 3) => Mean(RefPixel(f, x, y + 1), HalfV(f, x, y)) // n
    case (1, 0) => Mean(RefPixel(f, x, y), HalfH(f, x, y)) // a
    case (1, 1) => Mean(HalfH(f, x, y), HalfV(f, x, y)) // e
    case (1, 2) => Mean(HalfV(f, x, y), Centre(f, x, y)) // i
    case (1, 3) => Mean(HalfV(f, x, y), HalfH(f, x, y + 1)) // p
    case (2, 0) => HalfH(f, x, y) // b
    case (2, 1) => Mean(HalfH(f, x, y), Centre(f, x, y)) // f
    case (2, 2) => Centre(f, x, y) // j
    case (2, 3) => Mean(Centre(f, x, y), HalfH(f, x, y + 1)) // q
    case (3, 0) => Mean(RefPixel(f, x + 1, y), HalfH(f, x, y)) // c
    case (3, 1) => Mean(HalfH(f, x, y), HalfV(f, x + 1, y)) // g
    case (3, 2) => Mean(Centre(f, x, y), HalfV(f, x + 1, y)) // k
    case _ => Mean(HalfV(f, x + 1, y), HalfH(f, x, y + 1)) // r
  }

  /** The centre half sample may be filtered in either order. */
  lemma CentreEitherWay(f: Frame, x: int, y: int)
    requires FrameOk(f)
    ensures RawJ(f, x, y)
         == Tap(RawV(f, x - 2, y), RawV(f, x - 1, y), RawV(f, x, y),
                RawV(f, x + 1, y), RawV(f, x + 2, y), RawV(f, x + 3, y))
  {
    hide RefPixel;
  }

  // ----- where the sixteen positions lie -----

  /** The sample at (u, v) in half samples: whole, between columns, between rows, or between both. */
  function Grid(f: Frame, u: int, v: int): (s: byte)
    requires FrameOk(f)
  {
    if v % 2 == 0 then (if u % 2 == 0 then RefPixel(f, u / 2, v / 2) else HalfH(f, u / 2, v / 2))
    else (if u % 2 == 0 then HalfV(f, u / 2, v / 2) else Centre(f, u / 2, v / 2))
  }

  /**
   The sample at (p, q) in quarter samples: one of the grid, the mean of its two neighbours there, or of
   the two of its four neighbours that lie between columns only or between rows only.
   */
  function Quarter(f: Frame, p: int, q: int): (s: byte)
    requires FrameOk(f)
  {
    var u, v := p / 2, q / 2;
    if p % 2 == 0 && q % 2 == 0 then Grid(f, u, v)
    else if q % 2 == 0 then Mean(Grid(f, u, v), Grid(f, u + 1, v))
    else if p % 2 == 0 then Mean(Grid(f, u, v), Grid(f, u, v + 1))
    else if (u + v) % 2 == 1 then Mean(Grid(f, u, v), Grid(f, u + 1, v + 1))
    else Mean(Grid(f, u + 1, v), Grid(f, u, v + 1))
  }

  lemma GridAt(f: Frame, x: int, y: int)
    requires FrameOk(f)
    ensures Grid(f, 2 * x, 2 * y) == RefPixel(f, x, y) && Grid(f, 2 * x + 1, 2 * y) == HalfH(f, x, y)
    ensures Grid(f, 2 * x, 2 * y + 1) == HalfV(f, x, y) && Grid(f, 2 * x + 1, 2 * y + 1) == Centre(f, x, y)
  {
    hide FrameOk, RefPixel, HalfH, HalfV, Centre;
  }

  lemma EvenRows(f: Frame, fx: nat, fy: nat, x: int, y: int)
    requires FrameOk(f) && fx <= 3 && (fy == 0 || fy == 2)
    ensures Sample(f, fx, fy, x, y) == Quarter(f, 4 * x + fx, 4 * y + fy)
  {
    hide FrameOk, RefPixel, HalfH, HalfV, Centre, Grid, Mean;
    GridAt(f, x, y);
    GridAt(f, x + 1, y);
    GridAt(f, x, y + 1);
    MeansAgree(f, 2 * x, 2 * y);
    MeansAgree(f, 2 * x + 1, 2 * y);
    MeansAgree(f, 2 * x, 2 * y + 1);
    MeansAgree(f, 2 * x + 1, 2 * y + 1);
    assert (4 * x + fx) / 2 == 2 * x + fx / 2 && (4 * y + fy) / 2 == 2 * y + fy / 2;
  }

  lemma OddRows(f: Frame, fx: nat, fy: nat, x: int, y: int)
    requires FrameOk(f) && fx <= 3 && (fy == 1 || fy == 3)
    ensures Sample(f, fx, fy, x, y) == Quarter(f, 4 * x + fx, 4 * y + fy)
  {
    hide FrameOk, RefPixel, HalfH, HalfV, Centre, Grid, Mean;
    GridAt(f, x, y);
    GridAt(f, x + 1, y);
    GridAt(f, x, y + 1);
    MeansAgree(f, 2 * x, 2 * y);
    MeansAgree(f, 2 * x + 1, 2 * y);
    MeansAgree(f, 2 * x, 2 * y + 1);
    MeansAgree(f, 2 * x + 1, 2 * y + 1);
    assert (4 * x + fx) / 2 == 2 * x + fx / 2 && (4 * y + fy) / 2 == 2 * y + fy / 2;
  }

  /** The table's samples are those at their distance. */
  lemma SampleIsQuarter(f: Frame, fx: nat, fy: nat, x: int, y: int)
    requires FrameOk(f) && fx <= 3 && fy <= 3
    ensures Sample(f, fx, fy, x, y) == Quarter(f, 4 * x + fx, 4 * y + fy)
  {
    hide FrameOk, Sample, Quarter;
    if fy % 2 == 0 {
      EvenRows(f, fx, fy, x, y);
    } else {
      OddRows(f, fx, fy, x, y);
    }
  }

  lemma MeansAgree(f: Frame, u: int, v: int)
    requires FrameOk(f)
    ensures Mean(Grid(f, u, v), Grid(f, u + 1, v)) == Mean(Grid(f, u + 1, v), Grid(f, u, v))
    ensures Mean(Grid(f, u, v), Grid(f, u, v + 1)) == Mean(Grid(f, u, v + 1), Grid(f, u, v))
    ensures Mean(Grid(f, u, v), Grid(f, u + 1, v + 1)) == Mean(Grid(f, u + 1, v + 1), Grid(f, u, v))
    ensures Mean(Grid(f, u + 1, v), Grid(f, u, v + 1)) == Mean(Grid(f, u, v + 1), Grid(f, u + 1, v))
  {
    hide FrameOk, Grid;
  }

  /** Rows and columns exchanged. */
  ghost predicate Transposed(f: Frame, g: Frame) {
    FrameOk(f) && FrameOk(g) && forall x: int, y: int :: RefPixel(g, y, x) == RefPixel(f, x, y)
  }

  lemma TransposedRaw(f: Frame, g: Frame, x: int, y: int)
    requires Transposed(f, g)
    ensures RawV(g, y, x) == RawH(f, x, y) && RawH(g, y, x) == RawV(f, x, y)
  {
    hide FrameOk, RefPixel, Tap;
  }

  lemma TransposedCentre(f: Frame, g: Frame, x: int, y: int)
    requires Transposed(f, g)
    ensures RawJ(g, y, x) == RawJ(f, x, y)
  {
    hide FrameOk, RefPixel, Tap, RawH, RawV;
    CentreEitherWay(g, y, x);
    TransposedRaw(f, g, x, y - 2);
    TransposedRaw(f, g, x, y - 1);
    TransposedRaw(f, g, x, y);
    TransposedRaw(f, g, x, y + 1);
    TransposedRaw(f, g, x, y + 2);
    TransposedRaw(f, g, x, y + 3);
  }

  lemma TransposedGrid(f: Frame, g: Frame, u: int, v: int)
    requires Transposed(f, g)
    ensures Grid(g, v, u) == Grid(f, u, v)
  {
    hide FrameOk, RefPixel, RawH, RawV, RawJ, Clip;
    TransposedRaw(f, g, u / 2, v / 2);
    TransposedCentre(f, g, u / 2, v / 2);
  }

  /** Interpolation treats rows and columns alike. */
  lemma TransposedQuarter(f: Frame, g: Frame, p: int, q: int)
    requires Transposed(f, g)
    ensures Quarter(g, q, p) == Quarter(f, p, q)
  {
    hide Grid, Transposed;
    var u, v := p / 2, q / 2;
    TransposedGrid(f, g, u, v);
    TransposedGrid(f, g, u + 1, v);
    TransposedGrid(f, g, u, v + 1);
    TransposedGrid(f, g, u + 1, v + 1);
  }

  // ----- unchecked reads -----

  lemma Inside(f: Frame, x: nat, y: nat)
    requires FrameOk(f) && x < f.w && y < f.h
    ensures Ix(f.stride, y, x) < |f.px| && f.px[Ix(f.stride, y, x)] == RefPixel(f, x, y)
  {
    IxIn(f.stride, y, f.h, x, f.w);
  }

  lemma InsideRow(f: Frame, x: nat, y: nat)
    requires FrameOk(f) && 2 <= x && x + 3 < f.w && y < f.h
    ensures var row := y * f.stride;
            && row + x + 3 < |f.px|
            && f.px[row + x - 2] == RefPixel(f, x - 2, y) && f.px[row + x - 1] == RefPixel(f, x - 1, y)
            && f.px[row + x] == RefPixel(f, x, y) && f.px[row + x + 1] == RefPixel(f, x + 1, y)
            && f.px[row + x + 2] == RefPixel(f, x + 2, y) && f.px[row + x + 3] == RefPixel(f, x + 3, y)
  {
    hide RefPixel;
    Inside(f, x - 2, y);
    Inside(f, x - 1, y);
    Inside(f, x, y);
    Inside(f, x + 1, y);
    Inside(f, x + 2, y);
    Inside(f, x + 3, y);
  }

  lemma InsideColumn(f: Frame, x: nat, y: nat)
    requires FrameOk(f) && x < f.w && 2 <= y && y + 3 < f.h
    ensures var p, s := y * f.stride + x, f.stride;
            && 0 <= p - 2 * s && p + 3 * s < |f.px|
            && f.px[p - 2 * s] == RefPixel(f, x, y - 2) && f.px[p - s] == RefPixel(f, x, y - 1)
            && f.px[p] == RefPixel(f, x, y) && f.px[p + s] == RefPixel(f, x, y + 1)
            && f.px[p + 2 * s] == RefPixel(f, x, y + 2) && f.px[p + 3 * s] == RefPixel(f, x, y + 3)
  {
    hide RefPixel;
    var p, s := Ix(f.stride, y, x), f.stride;
    Columns(s, y, x);
    hide Ix;
    Inside(f, x, y - 2);
    Inside(f, x, y - 1);
    Inside(f, x, y);
    Inside(f, x, y + 1);
    Inside(f, x, y + 2);
    Inside(f, x, y + 3);
  }

  lemma Columns(s: nat, y: nat, x: nat)
    requires y >= 2
    ensures var p := y * s + x;
            && Ix(s, y - 2, x) == p - 2 * s && Ix(s, y - 1, x) == p - s && Ix(s, y, x) == p
            && Ix(s, y + 1, x) == p + s && Ix(s, y + 2, x) == p + 2 * s && Ix(s, y + 3, x) == p + 3 * s
  {
    IxRow(s, y - 2, x, 1);
    IxRow(s, y - 2, x, 2);
    IxRow(s, y - 2, x, 3);
    IxRow(s, y - 2, x, 4);
    IxRow(s, y - 2, x, 5);
  }

  /** Six taps of a row, no bounds checked. */
  function UncheckedH(f: Frame, x: nat, y: nat): (v: int)
    requires FrameOk(f) && 2 <= x && x + 3 < f.w && y < f.h
    ensures v == RawH(f, x, y)
  {
    InsideRow(f, x, y);
    var row := y * f.stride;
    f.px[row + x - 2] as int - 5 * f.px[row + x - 1] as int + 20 * f.px[row + x] as int
    + 20 * f.px[row + x + 1] as int - 5 * f.px[row + x + 2] as int + f.px[row + x + 3] as int
  }

  /** Six taps of a column, no bounds checked. */
  function UncheckedV(f: Frame, x: nat, y: nat): (v: int)
    requires FrameOk(f) && x < f.w && 2 <= y && y + 3 < f.h
    ensures v == RawV(f, x, y)
  {
    InsideColumn(f, x, y);
    var p, s := y * f.stride + x, f.stride;
    f.px[p - 2 * s] as int - 5 * f.px[p - s] as int + 20 * f.px[p] as int
    + 20 * f.px[p + s] as int - 5 * f.px[p + 2 * s] as int + f.px[p + 3 * s] as int
  }

  // ----- the checked half samples -----

  /** Six clamped taps of a row. */
  function CheckedH(f: Frame, x: int, y: int): (v: int)
    requires FrameOk(f)
    ensures v == RawH(f, x, y)
  {
    RefPixel(f, x - 2, y) as int - 5 * RefPixel(f, x - 1, y) as int + 20 * RefPixel(f, x, y) as int
    + 20 * RefPixel(f, x + 1, y) as int - 5 * RefPixel(f, x + 2, y) as int + RefPixel(f, x + 3, y) as int
  }

  /** `halfpel_h`, `halfpel_v` and `halfpel_2d`: unchecked where every tap is inside. */
  function HalfpelH(f: Frame, x: int, y: int): (v: byte)
    requires FrameOk(f)
    ensures v == HalfH(f, x, y)
  {
    var raw := if x >= 2 && x + 3 < f.w && 0 <= y < f.h then UncheckedH(f, x, y) else CheckedH(f, x, y);
    Clip((raw + 16) / 32)
  }

  function HalfpelV(f: Frame, x: int, y: int): (v: byte)
    requires FrameOk(f)
    ensures v == HalfV(f, x, y)
  {
    var raw := if y >= 2 && y + 3 < f.h && 0 <= x < f.w then UncheckedV(f, x, y) else
      RefPixel(f, x, y - 2) as int - 5 * RefPixel(f, x, y - 1) as int + 20 * RefPixel(f, x, y) as int
      + 20 * RefPixel(f, x, y + 1) as int - 5 * RefPixel(f, x, y + 2) as int + RefPixel(f, x, y + 3) as int;
    Clip((raw + 16) / 32)
  }

  method Halfpel2d(f: Frame, x: int, y: int) returns (v: byte)
    requires FrameOk(f)
    ensures v == Centre(f, x, y)
  {
    hide RawH, RefPixel;
    var hvals := new int[6];
    for k := -2 to 4
      invariant forall i :: 0 <= i < k + 2 ==> hvals[i] == RawH(f, x, y - 2 + i)
    {
      if x >= 2 && x + 3 < f.w && y >= 2 && y + 3 < f.h {
        hvals[k + 2] := UncheckedH(f, x, y + k);
      } else {
        hvals[k + 2] := CheckedH(f, x, y + k);
      }
    }
    var j := hvals[0] - 5 * hvals[1] + 20 * hvals[2] + 20 * hvals[3] - 5 * hvals[4] + hvals[5];
    v := Clip((j + 512) / 1024);
  }

  // ----- the block written -----

  /** `bw` by `bh` samples at offset `at` of the destination, rows `stride` apart. */
  datatype Target = Target(at: nat, stride: nat, bw: nat, bh: nat)

  /** A block of frame `f` displaced to (rx, ry) plus (fx, fy) quarters. */
  datatype Move = Move(f: Frame, rx: int, ry: int, fx: nat, fy: nat)

  ghost predicate MoveOk(m: Move) {
    FrameOk(m.f) && m.fx <= 3 && m.fy <= 3
  }

  ghost predicate TargetOk(t: Target, dst: array<byte>) {
    t.bw <= t.stride && (t.bh > 0 ==> t.at + Ix(t.stride, t.bh - 1, t.bw) <= dst.Length)
  }

  ghost function Want(m: Move, x: int, y: int): (v: byte)
    requires MoveOk(m)
  {
    Sample(m.f, m.fx, m.fy, m.rx + x, m.ry + y)
  }

  ghost function Pixel(dst: array<byte>, t: Target, x: nat, y: nat): (v: int)
    reads dst
  {
    var i := t.at + Ix(t.stride, y, x);
    if i < dst.Length then dst[i] else -1
  }

  /** Destination index `i` belongs to the block. */
  ghost predicate InBlock(t: Target, i: int) {
    t.stride > 0 && i >= t.at && (i - t.at) / t.stride < t.bh && (i - t.at) % t.stride < t.bw
  }

  ghost predicate Before(t: Target, y: nat, x: nat, yy: nat, xx: nat) {
    xx < t.bw && (yy < y || (yy == y && xx < x))
  }

  /** The block is right up to row `y`, column `x`; outside it nothing differs from `was`. */
  ghost predicate Done(dst: array<byte>, t: Target, m: Move, was: seq<byte>, y: nat, x: nat)
    requires MoveOk(m)
    reads dst
  {
    && |was| == dst.Length
    && (forall yy: nat, xx: nat :: Before(t, y, x, yy, xx) ==> Pixel(dst, t, xx, yy) == Want(m, xx, yy))
    && (forall i :: 0 <= i < dst.Length && !InBlock(t, i) ==> dst[i] == was[i])
  }

  lemma DoneStart(dst: array<byte>, t: Target, m: Move)
    requires MoveOk(m)
    ensures Done(dst, t, m, dst[..], 0, 0)
  {}

  lemma DoneRow(dst: array<byte>, t: Target, m: Move, was: seq<byte>, y: nat)
    requires MoveOk(m) && Done(dst, t, m, was, y, t.bw)
    ensures Done(dst, t, m, was, y + 1, 0)
  {
    hide Want, InBlock, Pixel;
    assert forall yy: nat, xx: nat :: Before(t, y + 1, 0, yy, xx) ==> Before(t, y, t.bw, yy, xx);
  }

  /** The next sample of the block. */
  method WriteNext(dst: array<byte>, t: Target, ghost m: Move, ghost was: seq<byte>, y: nat, x: nat, v: byte)
    requires TargetOk(t, dst) && MoveOk(m) && y < t.bh && x < t.bw
    requires Done(dst, t, m, was, y, x) && v == Want(m, x, y)
    modifies dst
    ensures Done(dst, t, m, was, y, x + 1)
  {
    hide Want, Ix;
    IxIn(t.stride, y, t.bh, x, t.bw);
    var i := t.at + Ix(t.stride, y, x);
    IxUnique(t.stride, y, x);
    assert InBlock(t, i);
    dst[i] := v;
    forall yy: nat, xx: nat | Before(t, y, x + 1, yy, xx)
      ensures Pixel(dst, t, xx, yy) == Want(m, xx, yy)
    {
      IxUnique(t.stride, yy, xx);
      assert (yy == y && xx == x) || Before(t, y, x, yy, xx);
    }
  }

  /** `mc_copy_block`: the plain copy, or clamped sample by sample at the edges. */
  method CopyBlock(dst: array<byte>, t: Target, m: Move)
    requires TargetOk(t, dst) && MoveOk(m) && m.fx == 0 && m.fy == 0
    modifies dst
    ensures Done(dst, t, m, old(dst[..]), t.bh, 0)
  {
    hide Done, RefPixel;
    ghost var was := dst[..];
    DoneStart(dst, t, m);
    if m.rx >= 0 && m.ry >= 0 && m.rx + t.bw <= m.f.w && m.ry + t.bh <= m.f.h {
      for y := 0 to t.bh
        invariant Done(dst, t, m, was, y, 0)
      {
        for x := 0 to t.bw
          invariant Done(dst, t, m, was, y, x)
        {
          Inside(m.f, m.rx + x, m.ry + y);
          WriteNext(dst, t, m, was, y, x, m.f.px[(m.ry + y) * m.f.stride + (m.rx + x)]);
        }
        DoneRow(dst, t, m, was, y);
      }
      return;
    }
    for y := 0 to t.bh
      invariant Done(dst, t, m, was, y, 0)
    {
      for x := 0 to t.bw
        invariant Done(dst, t, m, was, y, x)
      {
        WriteNext(dst, t, m, was, y, x, RefPixel(m.f, m.rx + x, m.ry + y));
      }
      DoneRow(dst, t, m, was, y);
    }
  }

  // ----- interior blocks -----

  /** Every tap of the block is inside the frame. */
  predicate Interior(t: Target, m: Move) {
    m.rx >= 3 && m.ry >= 3 && m.rx + t.bw + 3 < m.f.w && m.ry + t.bh + 3 < m.f.h
  }

  ghost predicate InteriorOk(t: Target, m: Move, dst: array<byte>) {
    TargetOk(t, dst) && MoveOk(m) && Interior(t, m) && t.bw <= 16 && t.bh <= 16
  }

  function Round5(raw: int): (v: byte) {
    Clip((raw + 16) / 32)
  }

  ghost predicate Surrounded(m: Move, rx: int, ry: int) {
    MoveOk(m) && 2 <= rx && rx + 4 < m.f.w && 2 <= ry && ry + 4 < m.f.h
  }

  /** The unchecked sample of each kind of position. */
  method ColumnSample(m: Move, rx: int, ry: int) returns (v: byte)
    requires Surrounded(m, rx, ry) && m.fx == 0 && m.fy != 0
    ensures v == Sample(m.f, m.fx, m.fy, rx, ry)
  {
    hide RawV, RefPixel, FrameOk;
    InsideColumn(m.f, rx, ry);
    var p, s := ry * m.f.stride + rx, m.f.stride;
    var h := Round5(UncheckedV(m.f, rx, ry));
    v := if m.fy == 2 then h else if m.fy == 1 then Mean(m.f.px[p], h) else Mean(h, m.f.px[p + s]);
  }

  method RowSample(m: Move, rx: int, ry: int) returns (v: byte)
    requires Surrounded(m, rx, ry) && m.fx != 0 && m.fy == 0
    ensures v == Sample(m.f, m.fx, m.fy, rx, ry)
  {
    hide RawH, RefPixel, FrameOk;
    InsideRow(m.f, rx, ry);
    var row := ry * m.f.stride;
    var b := Round5(UncheckedH(m.f, rx, ry));
    v := if m.fx == 2 then b else if m.fx == 1 then Mean(m.f.px[row + rx], b) else Mean(b, m.f.px[row + rx + 1]);
  }

  method CornerSample(m: Move, rx: int, ry: int) returns (v: byte)
    requires Surrounded(m, rx, ry) && (m.fx == 1 || m.fx == 3) && (m.fy == 1 || m.fy == 3)
    ensures v == Sample(m.f, m.fx, m.fy, rx, ry)
  {
    hide FrameOk, RawH, RawV, RefPixel, UncheckedH, UncheckedV, Round5, HalfH, HalfV, Sample, Mean, Centre;
    var down, right := if m.fy >= 2 then 1 else 0, if m.fx >= 2 then 1 else 0;
    var hh := Round5(UncheckedH(m.f, rx, ry + down));
    var hv := Round5(UncheckedV(m.f, rx + right, ry));
    HalfRound(m.f, rx, ry + down);
    HalfRound(m.f, rx + right, ry);
    CornerIs(m, rx, ry, down, right);
    v := Mean(hh, hv);
  }

  lemma HalfRound(f: Frame, x: int, y: int)
    requires FrameOk(f)
    ensures HalfH(f, x, y) == Round5(RawH(f, x, y)) && HalfV(f, x, y) == Round5(RawV(f, x, y))
  {
    hide FrameOk, RawH, RawV;
  }

  lemma CornerIs(m: Move, rx: int, ry: int, down: int, right: int)
    requires MoveOk(m) && (m.fx == 1 || m.fx == 3) && (m.fy == 1 || m.fy == 3)
    requires down == (if m.fy == 3 then 1 else 0) && right == if m.fx == 3 then 1 else 0
    ensures Sample(m.f, m.fx, m.fy, rx, ry) == Mean(HalfH(m.f, rx, ry + down), HalfV(m.f, rx + right, ry))
  {
    hide FrameOk, HalfH, HalfV, Centre, RefPixel;
  }

  method CentreSample(m: Move, rx: int, ry: int, j: byte) returns (v: byte)
    requires Surrounded(m, rx, ry) && m.fx != 0 && m.fy != 0 && (m.fx == 2 || m.fy == 2) && j == Centre(m.f, rx, ry)
    ensures v == Sample(m.f, m.fx, m.fy, rx, ry)
  {
    hide RawH, RawV, RawJ, Centre, RefPixel, FrameOk, UncheckedH, UncheckedV, Clip;
    v := j;
    if m.fx == 2 && m.fy == 2 {
      return;
    }
    if m.fy == 2 {
      var right := if m.fx == 3 then 1 else 0;
      v := Mean(Round5(UncheckedV(m.f, rx + right, ry)), j);
    } else {
      var down := if m.fy == 3 then 1 else 0;
      v := Mean(Round5(UncheckedH(m.f, rx, ry + down)), j);
    }
  }

  /** Columns only. */
  method InteriorV(dst: array<byte>, t: Target, m: Move)
    requires InteriorOk(t, m, dst) && m.fx == 0 && m.fy != 0
    modifies dst
    ensures Done(dst, t, m, old(dst[..]), t.bh, 0)
  {
    hide Done, Sample, FrameOk;
    ghost var was := dst[..];
    DoneStart(dst, t, m);
    for y := 0 to t.bh
      invariant Done(dst, t, m, was, y, 0)
    {
      for x := 0 to t.bw
        invariant Done(dst, t, m, was, y, x)
      {
        var v := ColumnSample(m, m.rx + x, m.ry + y);
        WriteNext(dst, t, m, was, y, x, v);
      }
      DoneRow(dst, t, m, was, y);
    }
  }

  /** Rows only. */
  method InteriorH(dst: array<byte>, t: Target, m: Move)
    requires InteriorOk(t, m, dst) && m.fx != 0 && m.fy == 0
    modifies dst
    ensures Done(dst, t, m, old(dst[..]), t.bh, 0)
  {
    hide Done, Sample, FrameOk;
    ghost var was := dst[..];
    DoneStart(dst, t, m);
    for y := 0 to t.bh
      invariant Done(dst, t, m, was, y, 0)
    {
      for x := 0 to t.bw
        invariant Done(dst, t, m, was, y, x)
      {
        var v := RowSample(m, m.rx + x, m.ry + y);
        WriteNext(dst, t, m, was, y, x, v);
      }
      DoneRow(dst, t, m, was, y);
    }
  }

  /** Corners: the nearest row and column half samples. */
  method InteriorCorner(dst: array<byte>, t: Target, m: Move)
    requires InteriorOk(t, m, dst) && (m.fx == 1 || m.fx == 3) && (m.fy == 1 || m.fy == 3)
    modifies dst
    ensures Done(dst, t, m, old(dst[..]), t.bh, 0)
  {
    hide Done, Sample, FrameOk;
    ghost var was := dst[..];
    DoneStart(dst, t, m);
    for y := 0 to t.bh
      invariant Done(dst, t, m, was, y, 0)
    {
      for x := 0 to t.bw
        invariant Done(dst, t, m, was, y, x)
      {
        var v := CornerSample(m, m.rx + x, m.ry + y);
        WriteNext(dst, t, m, was, y, x, v);
      }
      DoneRow(dst, t, m, was, y);
    }
  }

  // ----- precomputed row sums -----

  ghost function Sum(buf: array<s16>, bw: nat, r: nat, x: nat): (v: int)
    reads buf
  {
    if Ix(bw, r, x) < buf.Length then buf[Ix(bw, r, x)] else 0
  }

  /** Row sums from two rows above the block, up to row `r`, column `x`. */
  ghost predicate Sums(buf: array<s16>, t: Target, m: Move, r: nat, x: nat)
    requires MoveOk(m)
    reads buf
  {
    && buf.Length == 21 * 16
    && forall rr: nat, xx: nat :: Before(t, r, x, rr, xx) ==>
         Sum(buf, t.bw, rr, xx) == RawH(m.f, m.rx + xx, m.ry - 2 + rr)
  }

  lemma SumsRow(buf: array<s16>, t: Target, m: Move, r: nat)
    requires MoveOk(m) && Sums(buf, t, m, r, t.bw)
    ensures Sums(buf, t, m, r + 1, 0)
  {
    hide RawH, Sum;
    assert forall rr: nat, xx: nat :: Before(t, r + 1, 0, rr, xx) ==> Before(t, r, t.bw, rr, xx);
  }

  lemma SumIn(bw: nat, r: nat, x: nat)
    requires r < 21 && x < bw <= 16
    ensures Ix(bw, r, x) < 21 * 16
  {
    IxIn(bw, r, 21, x, bw);
    assert 20 * bw + bw <= 21 * 16;
  }

  method WriteSum(buf: array<s16>, t: Target, ghost m: Move, r: nat, x: nat, v: s16)
    requires MoveOk(m) && r < 21 && x < t.bw <= 16 && Sums(buf, t, m, r, x) && v == RawH(m.f, m.rx + x, m.ry - 2 + r)
    modifies buf
    ensures Sums(buf, t, m, r, x + 1)
  {
    hide RawH, Ix;
    SumIn(t.bw, r, x);
    IxUnique(t.bw, r, x);
    buf[Ix(t.bw, r, x)] := v;
    forall rr: nat, xx: nat | Before(t, r, x + 1, rr, xx)
      ensures Sum(buf, t.bw, rr, xx) == RawH(m.f, m.rx + xx, m.ry - 2 + rr)
    {
      IxUnique(t.bw, rr, xx);
      assert (rr == r && xx == x) || Before(t, r, x, rr, xx);
    }
  }

  /** The row sums of the block and of the five rows around it, each within 16 bits. */
  method RowSums(t: Target, m: Move) returns (buf: array<s16>)
    requires MoveOk(m) && Interior(t, m) && t.bw <= 16 && t.bh <= 16
    ensures fresh(buf) && Sums(buf, t, m, t.bh + 5, 0)
  {
    hide RawH, FrameOk;
    buf := new s16[21 * 16];
    for r := 0 to t.bh + 5
      invariant Sums(buf, t, m, r, 0)
    {
      for x := 0 to t.bw
        invariant Sums(buf, t, m, r, x)
      {
        WriteSum(buf, t, m, r, x, UncheckedH(m.f, m.rx + x, m.ry - 2 + r));
      }
      SumsRow(buf, t, m, r);
    }
  }

  /** The column filter over row sums. */
  method FilterSums(buf: array<s16>, t: Target, ghost m: Move, y: nat, x: nat) returns (j: byte)
    requires MoveOk(m) && y < t.bh <= 16 && x < t.bw <= 16 && Sums(buf, t, m, t.bh + 5, 0)
    ensures j == Centre(m.f, m.rx + x, m.ry + y)
  {
    hide RawH, Sums, FrameOk, RefPixel, Ix, RawJ, Tap, Clip;
    var bw := t.bw;
    var i0 := Ix(bw, y, x);
    SumRows(buf, t, m, y, x);
    var raw := Tap(buf[i0], buf[i0 + bw], buf[i0 + 2 * bw], buf[i0 + 3 * bw], buf[i0 + 4 * bw], buf[i0 + 5 * bw]);
    CentreIs(m.f, m.rx + x, m.ry + y);
    j := Clip((raw + 512) / 1024);
  }

  lemma CentreIs(f: Frame, x: int, y: int)
    requires FrameOk(f)
    ensures Centre(f, x, y)
         == Clip((Tap(RawH(f, x, y - 2), RawH(f, x, y - 1), RawH(f, x, y),
                      RawH(f, x, y + 1), RawH(f, x, y + 2), RawH(f, x, y + 3)) + 512) / 1024)
  {
    hide RawH, FrameOk;
  }

  lemma SumRows(buf: array<s16>, t: Target, m: Move, y: nat, x: nat)
    requires MoveOk(m) && y < t.bh <= 16 && x < t.bw <= 16 && Sums(buf, t, m, t.bh + 5, 0)
    ensures var i0, bw, rx, ry := Ix(t.bw, y, x), t.bw, m.rx + x, m.ry + y;
            && i0 + 5 * bw < buf.Length
            && buf[i0] == RawH(m.f, rx, ry - 2) && buf[i0 + bw] == RawH(m.f, rx, ry - 1)
            && buf[i0 + 2 * bw] == RawH(m.f, rx, ry) && buf[i0 + 3 * bw] == RawH(m.f, rx, ry + 1)
            && buf[i0 + 4 * bw] == RawH(m.f, rx, ry + 2) && buf[i0 + 5 * bw] == RawH(m.f, rx, ry + 3)
  {
    hide RawH;
    Columns(t.bw, y + 2, x);
    IxRow(t.bw, y, x, 2);
    SumAt(buf, t, m, y, x);
    SumAt(buf, t, m, y + 1, x);
    SumAt(buf, t, m, y + 2, x);
    SumAt(buf, t, m, y + 3, x);
    SumAt(buf, t, m, y + 4, x);
    SumAt(buf, t, m, y + 5, x);
  }

  lemma SumAt(buf: array<s16>, t: Target, m: Move, r: nat, x: nat)
    requires MoveOk(m) && r < t.bh + 5 <= 21 && x < t.bw <= 16 && Sums(buf, t, m, t.bh + 5, 0)
    ensures Ix(t.bw, r, x) < buf.Length && buf[Ix(t.bw, r, x)] == RawH(m.f, m.rx + x, m.ry - 2 + r)
  {
    SumIn(t.bw, r, x);
    assert Before(t, t.bh + 5, 0, r, x);
  }

  /** The positions that need the centre half sample. */
  method InteriorCentre(dst: array<byte>, t: Target, m: Move)
    requires InteriorOk(t, m, dst) && m.fx != 0 && m.fy != 0 && (m.fx == 2 || m.fy == 2)
    modifies dst
    ensures Done(dst, t, m, old(dst[..]), t.bh, 0)
  {
    hide Done, Sums, Sample, Centre, FrameOk;
    ghost var was := dst[..];
    var buf := RowSums(t, m);
    DoneStart(dst, t, m);
    for y := 0 to t.bh
      invariant Done(dst, t, m, was, y, 0) && Sums(buf, t, m, t.bh + 5, 0)
    {
      for x := 0 to t.bw
        invariant Done(dst, t, m, was, y, x) && Sums(buf, t, m, t.bh + 5, 0)
      {
        var j := FilterSums(buf, t, m, y, x);
        var v := CentreSample(m, m.rx + x, m.ry + y, j);
        WriteNext(dst, t, m, was, y, x, v);
      }
      DoneRow(dst, t, m, was, y);
    }
  }

  /** `mc_qpel_interior`. */
  method QpelInterior(dst: array<byte>, t: Target, m: Move)
    requires InteriorOk(t, m, dst) && (m.fx != 0 || m.fy != 0)
    modifies dst
    ensures Done(dst, t, m, old(dst[..]), t.bh, 0)
  {
    hide Done;
    if m.fx == 0 {
      InteriorV(dst, t, m);
    } else if m.fy == 0 {
      InteriorH(dst, t, m);
    } else if m.fx == 2 || m.fy == 2 {
      InteriorCentre(dst, t, m);
    } else {
      InteriorCorner(dst, t, m);
    }
  }

  // ----- any block -----

  /** One sample of the clamped path. */
  method ClampedSample(m: Move, rx: int, ry: int) returns (v: byte)
    requires MoveOk(m) && (m.fx != 0 || m.fy != 0)
    ensures v == Sample(m.f, m.fx, m.fy, rx, ry)
  {
    hide RefPixel, HalfH, HalfV, Centre, FrameOk;
    if m.fx == 0 {
      var h := HalfpelV(m.f, rx, ry);
      v := if m.fy == 2 then h else if m.fy == 1 then Mean(RefPixel(m.f, rx, ry), h)
           else Mean(h, RefPixel(m.f, rx, ry + 1));
    } else if m.fy == 0 {
      var b := HalfpelH(m.f, rx, ry);
      v := if m.fx == 2 then b else if m.fx == 1 then Mean(RefPixel(m.f, rx, ry), b)
           else Mean(b, RefPixel(m.f, rx + 1, ry));
    } else if m.fy == 2 {
      v := Halfpel2d(m.f, rx, ry);
      if m.fx != 2 {
        v := Mean(v, HalfpelV(m.f, if m.fx == 1 then rx else rx + 1, ry));
      }
    } else if m.fx == 2 {
      var j := Halfpel2d(m.f, rx, ry);
      v := Mean(j, HalfpelH(m.f, rx, if m.fy == 1 then ry else ry + 1));
    } else {
      v := Mean(HalfpelH(m.f, rx, ry + if m.fy >= 2 then 1 else 0), HalfpelV(m.f, rx + if m.fx >= 2 then 1 else 0, ry));
    }
  }

  /** The clamped path, which is right for any block. */
  method QpelClamped(dst: array<byte>, t: Target, m: Move)
    requires TargetOk(t, dst) && MoveOk(m) && (m.fx != 0 || m.fy != 0)
    modifies dst
    ensures Done(dst, t, m, old(dst[..]), t.bh, 0)
  {
    hide Done, Sample, FrameOk;
    ghost var was := dst[..];
    DoneStart(dst, t, m);
    for y := 0 to t.bh
      invariant Done(dst, t, m, was, y, 0)
    {
      for x := 0 to t.bw
        invariant Done(dst, t, m, was, y, x)
      {
        var v := ClampedSample(m, m.rx + x, m.ry + y);
        WriteNext(dst, t, m, was, y, x, v);
      }
      DoneRow(dst, t, m, was, y);
    }
  }

  /** `mc_qpel_block`: whichever path is taken, the block is the one the standard prescribes. */
  method QpelBlock(dst: array<byte>, t: Target, m: Move)
    requires TargetOk(t, dst) && MoveOk(m) && t.bw <= 16 && t.bh <= 16
    modifies dst
    ensures forall x: nat, y: nat :: x < t.bw && y < t.bh ==> Pixel(dst, t, x, y) == Want(m, x, y)
    ensures forall i :: 0 <= i < dst.Length && !InBlock(t, i) ==> dst[i] == old(dst[i])
  {
    hide Want, Pixel, InBlock;
    if m.fx == 0 && m.fy == 0 {
      CopyBlock(dst, t, m);
    } else if Interior(t, m) {
      QpelInterior(dst, t, m);
    } else {
      QpelClamped(dst, t, m);
    }
    assert forall x: nat, y: nat :: x < t.bw && y < t.bh ==> Before(t, t.bh, 0, y, x);
  }
}
