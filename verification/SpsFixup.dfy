/**
 Lowering max_num_ref_frames to one: the scratch buffer and the NAL writer that both parameter-set
 rewrites use, and the rewrite itself.
 */
module SpsFixup {
  import opened Bits
  import opened Syntax
  import opened Emulation
  import opened BitReader
  import opened SpsFormat
  import opened Rewrite

  /** The zeroed scratch buffer the rewritten RBSP is put into, bit by bit. */
  class BitSink {
    const bytes: array<byte>
    var pos: nat
    ghost var content: seq<bool>

    ghost predicate Valid()
      reads this, bytes
    {
      bytes.Length == CAPACITY && pos == |content| <= 8 * CAPACITY && Spelt()
    }

    /** The buffer spells `content` and is zero beyond it. */
    ghost predicate Spelt()
      requires bytes.Length == CAPACITY
      reads this`content, bytes
    {
      forall i :: 0 <= i < 8 * CAPACITY ==> ByteBit(bytes[i / 8], i % 8) == (i < |content| && content[i])
    }

    constructor ()
      ensures Valid() && fresh(bytes) && content == []
    {
      bytes := new byte[CAPACITY](_ => 0);
      pos, content := 0, [];
      new;
      ZeroBits();
    }

    /** `put_bit`. */
    method PutBit(bit: bool) returns (ok: bool)
      requires Valid()
      modifies this, bytes
      ensures Valid() && ok == (|old(content)| < 8 * CAPACITY)
      ensures content == old(content) + if ok then [bit] else []
    {
      if pos >= 8 * CAPACITY {
        return false;
      }
      ghost var before := bytes[..];
      if bit {
        bytes[pos / 8] := SetBit(bytes[pos / 8], pos % 8);
      }
      content := content + [bit];
      SpeltNext(before, bytes[..], pos, bit);
      pos := pos + 1;
      ok := true;
    }

    /** `put_bits`. */
    method PutBits(value: nat, count: nat) returns (ok: bool)
      requires Valid() && count <= 32 && |content| + count <= 8 * CAPACITY
      modifies this, bytes
      ensures Valid() && ok && content == old(content) + ToBits(value, count)
    {
      hide Spelt, ByteBit;
      ghost var s := ToBits(value, count);
      var bit := count;
      ok := true;
      while bit > 0
        invariant 0 <= bit <= count && Valid() && ok
        invariant content == old(content) + s[..count - bit]
      {
        ToBitsAt(value, count, count - bit);
        assert s[..count - bit + 1] == s[..count - bit] + [s[count - bit]];
        ok := PutBit(value / Pow2(bit - 1) % 2 == 1);
        bit := bit - 1;
      }
      assert s[..count] == s;
    }

    /** `copy_bits`. */
    method CopyBits(src: SpsBits, first: nat, end: nat) returns (ok: bool)
      requires Valid() && src.Valid() && src.bytes != bytes
      requires first <= end <= |src.content| && |content| + (end - first) <= 8 * CAPACITY
      modifies this, bytes
      ensures Valid() && ok && content == old(content) + src.content[first..end]
    {
      hide ByteBit, BitSink.Spelt;
      var i := first;
      ok := true;
      while i < end
        invariant first <= i <= end && Valid() && ok && src.Valid() && src.content == old(src.content)
        invariant content == old(content) + src.content[first..i]
      {
        assert src.content[first..i + 1] == src.content[first..i] + [src.content[i]];
        ok := PutBit(ByteBit(src.bytes[i / 8], i % 8));
        i := i + 1;
      }
    }

    /** The stop bit and the zero bits that complete the last byte. */
    method Close() returns (ok: bool)
      requires Valid() && |Closed(content)| <= 8 * CAPACITY
      modifies this, bytes
      ensures Valid() && ok && content == Closed(old(content))
    {
      hide Spelt;
      ok := PutBit(true);
      ghost var c, n := content, |content|;
      ghost var p := PadTo8(n);
      assert c + Zeros(0) == c;
      while pos % 8 != 0
        invariant Valid() && ok && n <= pos <= n + p
        invariant content == c + Zeros(pos - n)
        decreases n + p - pos
      {
        ZerosSnoc(c, pos - n);
        ok := PutBit(false);
      }
      assert pos == n + p;
      assert content == old(content) + ([true] + Zeros(p));
    }

    /** The whole bytes written. */
    method Written() returns (r: seq<byte>)
      requires Valid() && |content| % 8 == 0
      ensures r == Pack(content)
    {
      r := bytes[..pos / 8];
      assert BitsOf(r) == content;
      PackBitsOf(r);
    }
  }

  /** What escaping one byte adds to the output. */
  function EscapeOne(byte: byte, zeros: nat): (s: seq<byte>) {
    if zeros == 2 && byte <= 3 then [3, byte] else [byte]
  }

  function ZerosAfter(byte: byte, zeros: nat): (z: nat) {
    if byte != 0 then 0 else if zeros == 2 then 1 else zeros + 1
  }

  lemma EscapeStep(done: seq<byte>, left: seq<byte>, zeros: nat)
    requires |left| > 0 && zeros <= 2
    ensures done + Escape(left, zeros)
         == (done + EscapeOne(left[0], zeros)) + Escape(left[1..], ZerosAfter(left[0], zeros))
  {}

  lemma EscapeEnd(done: seq<byte>, left: seq<byte>, zeros: nat)
    requires |left| == 0
    ensures done + Escape(left, zeros) == done
  {}

  /** `write_nal`: header, then the escaped RBSP, if it fits. */
  method WriteNal(header: byte, rbsp: seq<byte>, dst: array<byte>, cap: nat) returns (ok: bool, size: nat)
    requires cap <= dst.Length
    modifies dst
    ensures ok <==> 1 + |Escape(rbsp, 0)| <= cap
    ensures ok ==> size <= cap && dst[..size] == [header] + Escape(rbsp, 0)
    ensures forall i :: cap <= i < dst.Length ==> dst[i] == old(dst[i])
  {
    hide Escape;
    size := 0;
    if cap == 0 {
      return false, 0;
    }
    dst[0] := header;
    var i, at, zeros := 0, 1, 0;
    assert rbsp[0..] == rbsp && dst[..1] == [header];
    while i < |rbsp|
      invariant 0 <= i <= |rbsp| && 1 <= at <= cap && zeros <= 2
      invariant [header] + Escape(rbsp, 0) == dst[..at] + Escape(rbsp[i..], zeros)
      invariant forall k :: cap <= k < dst.Length ==> dst[k] == old(dst[k])
    {
      var byte := rbsp[i];
      ghost var done := dst[..at];
      EscapeStep(done, rbsp[i..], zeros);
      assert rbsp[i..][1..] == rbsp[i + 1..];
      ghost var one := EscapeOne(byte, zeros);
      if zeros == 2 && byte <= 3 {
        if at >= cap {
          return false, 0;
        }
        dst[at] := 3;
        at, zeros := at + 1, 0;
      }
      if at >= cap {
        return false, 0;
      }
      dst[at] := byte;
      at := at + 1;
      zeros := if byte == 0 then zeros + 1 else 0;
      i := i + 1;
      assert dst[..at] == done + one;
    }
    EscapeEnd(dst[..at], rbsp[i..], zeros);
    ok, size := true, at;
  }

  // ----- avc_sps_limit_refs -----

  /** The rewritten NAL fits both limits, and its padding covers what the parse consumed. */
  ghost predicate LimitFits(nal: seq<byte>, cap: nat)
    requires |nal| > 0
  {
    |Limited(nal)| <= cap && |Limited(nal)| <= 1024 &&
    |Print(SpsNext, LimitedVals(nal), 0)| <= |LimitedBits(nal)|
  }

  function RefsOf(nal: seq<byte>): (refs: int) {
    var v := SpsWalk(nal).vals;
    if RefsAt(v) < |v| then v[RefsAt(v)] else 0
  }

  /** What a call has done: its code, the NAL written, and the count reported. */
  ghost predicate LimitOutcome(nal: seq<byte>, cap: nat, code: int, out: seq<byte>, refs: int) {
    if cap < 5 || FormatCode(nal) != 0 then code == -1 && out == [] && refs == 0
    else
      && refs == RefsOf(nal)
      && if refs <= 1 && |nal| <= cap then code == 0 && out == nal
         else if refs > 1 && LimitFits(nal, cap) then code == 0 && out == Limited(nal)
         else code == -1 && out == []
  }

  /**
   The second field walk, up to max_num_ref_frames. The inspection has passed, so no read fails and
   the profile, order-type and cycle checks of the source cannot fire.
   */
  method SkipToRefs(b: SpsBits, ghost w: Walked) returns (ghost v: seq<int>)
    requires b.Valid() && !b.bad && b.Tracks(SpsNext, [], w) && w.Done? && Accepted(w.vals)
    modifies b`pos, b`bad
    ensures |v| == RefsAt(w.vals) < |w.vals| && v == w.vals[..|v|]
    ensures b.Valid() && !b.bad && b.Tracks(SpsNext, v, w)
  {
    hide Walk, SpsNext, RefsAt, Base, PocArgs, TailNext, CropOk;
    NextAt(w.vals);
    var x: nat;
    v := [];
    NextAt(v);
    x, v := SkipU(b, 8, v, w);
    NextAt(v);
    x, v := SkipU(b, 8, v, w);
    NextAt(v);
    x, v := SkipU(b, 8, v, w);
    NextAt(v);
    x, v := SkipUe(b, v, w);
    NextAt(v);
    x, v := SkipUe(b, v, w);
    NextAt(v);
    x, v := SkipUe(b, v, w);
    NextAt(v);
    if x == 0 {
      x, v := SkipUe(b, v, w);
    } else if x == 1 {
      v := SkipCycle(b, v, w);
    }
  }

  method SkipCycle(b: SpsBits, ghost v0: seq<int>, ghost w: Walked) returns (ghost v: seq<int>)
    requires b.Valid() && !b.bad && b.Tracks(SpsNext, v0, w) && w.Done? && Accepted(w.vals)
    requires |v0| == 6 <= |w.vals| && v0 == w.vals[..6] && v0[5] == 1
    modifies b`pos, b`bad
    ensures |v| == RefsAt(w.vals) < |w.vals| && v == w.vals[..|v|]
    ensures b.Valid() && !b.bad && b.Tracks(SpsNext, v, w)
  {
    hide Walk, SpsNext, RefsAt, Base, PocArgs, TailNext, CropOk;
    NextAt(w.vals);
    var x: nat;
    NextAt(v0);
    x, v := SkipU(b, 1, v0, w);
    NextAt(v);
    x, v := SkipUe(b, v, w);
    NextAt(v);
    x, v := SkipUe(b, v, w);
    NextAt(v);
    x, v := SkipUe(b, v, w);
    var cycle := x;
    var j := 0;
    while j < cycle
      invariant 0 <= j <= cycle && b.Valid() && !b.bad && b.Tracks(SpsNext, v, w)
      invariant |v| == 10 + j <= |w.vals| && v == w.vals[..|v|] && cycle == w.vals[9]
    {
      NextAt(v);
      x, v := SkipUe(b, v, w);
      j := j + 1;
    }
  }

  /** A field the finished walk is known to hold. */
  method SkipUe(b: SpsBits, ghost v: seq<int>, ghost w: Walked) returns (x: nat, ghost next: seq<int>)
    requires b.Valid() && !b.bad && b.Tracks(SpsNext, v, w) && w.Done? && SpsNext(v) == Some(UE)
    modifies b`pos, b`bad
    ensures b.Valid() && !b.bad && b.Tracks(SpsNext, next, w) && |v| < |w.vals|
    ensures next == v + [x] && next == w.vals[..|v| + 1] && x == w.vals[|v|]
  {
    hide Walk, SpsNext;
    x, next := b.Ue(SpsNext, v, w);
    Judged(w, next, b.Rest());
  }

  method SkipU(b: SpsBits, n: nat, ghost v: seq<int>, ghost w: Walked) returns (x: nat, ghost next: seq<int>)
    requires 1 <= n <= 32
    requires b.Valid() && !b.bad && b.Tracks(SpsNext, v, w) && w.Done? && SpsNext(v) == Some(U(n))
    modifies b`pos, b`bad
    ensures b.Valid() && !b.bad && b.Tracks(SpsNext, next, w) && |v| < |w.vals|
    ensures next == v + [x] && next == w.vals[..|v| + 1] && x == w.vals[|v|]
  {
    hide Walk, SpsNext;
    x, next := b.U(n, SpsNext, v, w);
    Judged(w, next, b.Rest());
  }

  /** The reader's position is the length of what it has read. */
  lemma PositionIs(content: seq<bool>, pos: nat, v: seq<int>, w: Walked)
    requires pos <= |content| && w == Walk(SpsNext, [], content) == Walk(SpsNext, v, content[pos..])
    requires |v| <= |w.vals| && v == w.vals[..|v|]
    ensures pos == |Print(SpsNext, v, 0)|
  {
    hide Walk, SpsNext, Print;
    PrintWalk(SpsNext, [], content);
    PrintWalk(SpsNext, v, content[pos..]);
    PrintSplit(SpsNext, w.vals, 0, |v|);
  }

  /** Rewrites the RBSP held by `b` with the count at `start..end` replaced. */
  method SpliceRefs(b: SpsBits, start: nat, end: nat, stop: nat) returns (r: seq<byte>)
    requires b.Valid() && start <= end <= stop == Stop(b.content) < |b.content|
    requires end - start >= 3 && |b.content| % 8 == 0
    ensures r == Pack(Spliced(b.content, start, end))
  {
    hide Stop, Pack, ByteBit, Trailing;
    RoundUp(start + 3 + stop - end + 1, |b.content|);
    var sink := new BitSink();
    ghost var bits := b.content;
    var ok := sink.CopyBits(b, 0, start);
    ok := sink.PutBit(false);
    ok := sink.PutBit(true);
    ok := sink.PutBit(false);
    ok := sink.CopyBits(b, end, stop);
    assert sink.content == bits[..start] + ONE_REF + bits[end..stop];
    ok := sink.Close();
    r := sink.Written();
  }

  /** `memcpy(dst, nal, size)`. */
  method Copy(nal: seq<byte>, dst: array<byte>)
    requires |nal| <= dst.Length
    modifies dst
    ensures dst[..|nal|] == nal
  {
    var i := 0;
    while i < |nal|
      invariant 0 <= i <= |nal| && dst[..i] == nal[..i]
    {
      dst[i] := nal[i];
      assert dst[..i + 1] == dst[..i] + [nal[i]] && nal[..i + 1] == nal[..i] + [nal[i]];
      i := i + 1;
    }
  }

  lemma RefsNext(v: seq<int>, u: seq<int>)
    requires Accepted(u) && |v| == RefsAt(u) < |u| && v == u[..|v|]
    ensures SpsNext(v) == Some(UE)
  {
    NextAt(u);
    NextAt(v);
  }

  /** Where the count starts and ends, and what it is. */
  method FindRefs(b: SpsBits, ghost w: Walked) returns (start: nat, end: nat, refs: nat)
    requires b.Valid() && b.pos == 0 && !b.bad && w == Walk(SpsNext, [], b.content) && w.Done? && Accepted(w.vals)
    modifies b`pos, b`bad
    ensures b.Valid() && start == RefsStart(w.vals) && end == RefsEnd(w.vals)
    ensures RefsAt(w.vals) < |w.vals| && refs == w.vals[RefsAt(w.vals)]
  {
    hide Walk, SpsNext, Print, RefsAt, Code, Accepted, Follows;
    assert b.Rest() == b.content;
    ghost var v := SkipToRefs(b, w);
    PositionIs(b.content, b.pos, v, w);
    start := b.pos;
    RefsNext(v, w.vals);
    refs, v := SkipUe(b, v, w);
    PositionIs(b.content, b.pos, v, w);
    end := b.pos;
    AcceptedSpells(b.content, w.vals, w.rest);
    CodeLength(b.content, w.vals, w.rest);
  }

  lemma CodeLength(bits: seq<bool>, v: seq<int>, rest: seq<bool>)
    requires Spells(bits, v, rest)
    ensures RefsAt(v) < |v| && |Print(SpsNext, v[..RefsAt(v) + 1], 0)| == RefsEnd(v)
    ensures v[RefsAt(v)] > 1 ==> RefsEnd(v) - RefsStart(v) >= 3
  {
    var r := RefsAt(v);
    OneRef(v);
    var t := v[..r + 1];
    assert t[..r] == v[..r];
    PrintSplit(SpsNext, v, 0, r + 1);
    PrintAround(SpsNext, t, r);
    PrintNothing(SpsNext, t);
    if v[r] > 1 {
      CodeUEShape(v[r]);
      assert Log2(v[r] + 1) >= 1;
    }
  }

  /** Two format records agree on everything but the reference count, and that is now one. */
  predicate OnlyRefsLowered(before: Format, after: Format) {
    after.refs == 1 && before.profile == after.profile && before.level == after.level &&
    before.spsId == after.spsId && before.width == after.width && before.height == after.height &&
    before.codedWidth == after.codedWidth && before.codedHeight == after.codedHeight &&
    before.cropLeft == after.cropLeft && before.cropTop == after.cropTop
  }

  lemma RbspWhole(nal: seq<byte>)
    ensures |RbspBits(nal)| % 8 == 0
  {}

  /** Writes the rewritten NAL and checks it by parsing it again. */
  method WriteLimited(nal: seq<byte>, b: SpsBits, start: nat, end: nat, dst: array<byte>, cap: nat, before: Format)
    returns (code: int, dstSize: nat)
    requires FormatCode(nal) == 0 && b.Valid() && b.content == RbspBits(nal) && b.bytes != dst
    requires start == RefsStart(SpsWalk(nal).vals) && end == RefsEnd(SpsWalk(nal).vals) && RefsOf(nal) > 1
    requires before == FormatOf(SpsWalk(nal).vals) && cap <= dst.Length
    modifies dst
    ensures dstSize <= cap
    ensures if LimitFits(nal, cap) then code == 0 && dst[..dstSize] == Limited(nal) else code == -1 && dstSize == 0
  {
    hide Walk, SpsNext, Print, Unescape, Escape, BitsOf, Pack, Verdict, RefsAt, Stop, Spliced, RefsStart, RefsEnd,
         Accepted, FormatOf, Spells, HasType, RbspBits, AllZero, Updated;
    FormatSpells(nal);
    RbspWhole(nal);
    ghost var w := SpsWalk(nal);
    RefsPlace(b.content, w.vals, w.rest);
    CodeLength(b.content, w.vals, w.rest);
    var ok, stop := b.StopBit();
    StopIs(b.content, stop);
    var rbsp := SpliceRefs(b, start, end, stop);
    var size: nat;
    ok, size := WriteNal(nal[0], rbsp, dst, cap);
    if !ok {
      return -1, 0;
    }
    LimitedFormat(nal);
    var after: Format;
    code, after := StreamFormat(dst[..size]);
    if code != 0 || !OnlyRefsLowered(before, after) {
      return -1, 0;
    }
    dstSize := size;
  }

  /** `avc_sps_limit_refs`; `dst` may be `src`. */
  method LimitRefs(src: array<byte>, srcSize: nat, dst: array<byte>, cap: nat)
    returns (code: int, dstSize: nat, originalRefs: int)
    requires srcSize <= src.Length && cap <= dst.Length
    modifies dst
    ensures dstSize <= cap
    ensures LimitOutcome(old(src[..srcSize]), cap, code, dst[..dstSize], originalRefs)
  {
    hide Walk, SpsNext, Print, Unescape, Escape, BitsOf, Pack, Verdict, RefsAt, Stop, Spliced, RefsStart, RefsEnd,
         Accepted, FormatOf, Spells, HasType, LimitFits, Limited;
    dstSize, originalRefs := 0, 0;
    var nal := src[..srcSize];
    if cap < 5 {
      return -1, 0, 0;
    }
    var before: Format;
    code, before := StreamFormat(nal);
    if code != 0 {
      return -1, 0, 0;
    }
    var b := new SpsBits();
    var ok := b.Unescaped(nal[1..]);
    VerdictZero(SpsWalk(nal));
    var start, end, refs := FindRefs(b, SpsWalk(nal));
    originalRefs := refs;
    if refs <= 1 {
      if srcSize > cap {
        return -1, 0, refs;
      }
      Copy(nal, dst);
      return 0, srcSize, refs;
    }
    code, dstSize := WriteLimited(nal, b, start, end, dst, cap, before);
  }

  /** Where the rewrite keeps the input's bits: before the refs field, and after it up to the stop bit. */
  ghost predicate KeepsOtherBits(x: seq<bool>, y: seq<bool>, start: nat, end: nat) {
    var stop := Stop(x);
    && start <= end <= stop < |x| && Stop(y) == start + 3 + stop - end < |y|
    && y[..start] == x[..start] && y[start + 3..Stop(y)] == x[end..stop]
  }

  lemma SplicedKeeps(x: seq<bool>, start: nat, end: nat)
    requires !AllZero(x) && start <= end <= Stop(x)
    ensures KeepsOtherBits(x, Spliced(x, start, end), start, end)
  {
    hide Stop, AllZero;
    var stop := Stop(x);
    StopFrom(x, 0);
    var body := x[..start] + ONE_REF + x[end..stop];
    ClosedStop(body);
  }

  /**
   Every SPS whose syntax ends by its stop bit, and whose rewrite fits, is rewritten: the same format
   with one reference frame, every other bit kept.
   */
  lemma LimitSucceeds(nal: seq<byte>, cap: nat)
    requires FormatCode(nal) == 0 && RefsOf(nal) > 1 && 5 <= cap && |Limited(nal)| <= cap && |Limited(nal)| <= 1024
    requires |Print(SpsNext, SpsWalk(nal).vals, 0)| <= Stop(RbspBits(nal)) + 1
    ensures LimitOutcome(nal, cap, 0, Limited(nal), RefsOf(nal))
    ensures FormatCode(Limited(nal)) == 0
    ensures FormatOf(SpsWalk(Limited(nal)).vals) == FormatOf(SpsWalk(nal).vals).(refs := 1)
    ensures KeepsOtherBits(RbspBits(nal), RbspBits(Limited(nal)),
                           RefsStart(SpsWalk(nal).vals), RefsEnd(SpsWalk(nal).vals))
  {
    hide Walk, SpsNext, Print, Unescape, Escape, BitsOf, Pack, Verdict, RefsAt, Stop, Spliced, RefsStart, RefsEnd,
         Accepted, FormatOf, Spells, HasType, RbspBits, AllZero, Updated, KeepsOtherBits, NalOf, RefsOf;
    var w := SpsWalk(nal);
    FormatSpells(nal);
    RefsPlace(RbspBits(nal), w.vals, w.rest);
    LimitedLong(nal);
    LimitedFormat(nal);
    SplicedKeeps(RbspBits(nal), RefsStart(w.vals), RefsEnd(w.vals));
    NalOfReads(nal[0], LimitedBits(nal));
  }
}
