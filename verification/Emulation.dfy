/**
 Emulation prevention (sections 7.3.1 and 7.4.1 of ITU-T H.264): the escaped NAL payload and the
 raw byte sequence payload (RBSP) it carries.
 */
module Emulation {
  import opened Bits
  import opened Syntax

  /** The RBSP of escaped bytes `s`, after `zeros` zero bytes; None where the strict loops refuse. */
  function Unescape(s: seq<byte>, zeros: nat): (r: Option<seq<byte>>)
    ensures r.Some? ==> |r.value| <= |s|
  {
    if |s| == 0 then Some([])
    else if zeros == 2 && s[0] == 3 then
      if |s| < 2 || s[1] > 3 then None else Unescape(s[1..], 0)
    else if zeros == 2 && s[0] < 3 then None
    else Prepend([s[0]], Unescape(s[1..], if s[0] == 0 then zeros + 1 else 0))
  }

  function Prepend(p: seq<byte>, r: Option<seq<byte>>): Option<seq<byte>> {
    if r.None? then None else Some(p + r.value)
  }

  /** The escaped form of RBSP bytes `r`, after `zeros` zero bytes. */
  function Escape(r: seq<byte>, zeros: nat): (s: seq<byte>)
    ensures |s| >= |r|
  {
    if |r| == 0 then []
    else if zeros == 2 && r[0] <= 3 then [3, r[0]] + Escape(r[1..], if r[0] == 0 then 1 else 0)
    else [r[0]] + Escape(r[1..], if r[0] == 0 then zeros + 1 else 0)
  }

  lemma {:induction false} UnescapeEscape(r: seq<byte>, zeros: nat)
    requires zeros <= 2
    ensures Unescape(Escape(r, zeros), zeros) == Some(r)
  {
    if |r| > 0 {
      var e := Escape(r, zeros);
      if zeros == 2 && r[0] <= 3 {
        UnescapeEscape(r[1..], if r[0] == 0 then 1 else 0);
        assert e[1..] == [r[0]] + Escape(r[1..], if r[0] == 0 then 1 else 0);
        assert e[1..][1..] == Escape(r[1..], if r[0] == 0 then 1 else 0);
      } else {
        UnescapeEscape(r[1..], if r[0] == 0 then zeros + 1 else 0);
        assert e[1..] == Escape(r[1..], if r[0] == 0 then zeros + 1 else 0);
      }
      assert [r[0]] + r[1..] == r;
    }
  }

  lemma {:induction false} EscapeUnescape(s: seq<byte>, zeros: nat)
    requires zeros <= 2 && Unescape(s, zeros).Some?
    ensures Escape(Unescape(s, zeros).value, zeros) == s
    decreases |s|
  {
    if |s| > 0 {
      var r := Unescape(s, zeros).value;
      if zeros == 2 && s[0] == 3 {
        // the escaped byte is read with the zero count reset
        var t := s[1..];
        assert t[0] <= 3;
        var z := if t[0] == 0 then 1 else 0;
        EscapeUnescape(t[1..], z);
        assert r[1..] == Unescape(t[1..], z).value;
        assert s == [3, t[0]] + t[1..];
      } else {
        var z := if s[0] == 0 then zeros + 1 else 0;
        EscapeUnescape(s[1..], z);
        assert r[1..] == Unescape(s[1..], z).value;
        assert s == [s[0]] + s[1..];
      }
    }
  }

  /** No start code is emulated at `i`: 00 00 is not followed by a byte below 3. */
  predicate SafeAt(s: seq<byte>, i: nat) {
    i + 2 < |s| && s[i] == 0 && s[i + 1] == 0 ==> s[i + 2] >= 3
  }

  /** What section 7.4.1 asks at `i`: an 03 that ends 00 00 03 must itself guard a byte below 4. */
  predicate EscapedAt(s: seq<byte>, i: nat) {
    i + 2 < |s| && s[i] == 0 && s[i + 1] == 0 ==>
      s[i + 2] >= 3 && (s[i + 2] == 3 ==> i + 3 < |s| && s[i + 3] <= 3)
  }

  predicate NoEmulation(s: seq<byte>) {
    forall i: nat :: i < |s| ==> SafeAt(s, i)
  }

  predicate WellEscaped(s: seq<byte>) {
    forall i: nat :: i < |s| ==> EscapedAt(s, i)
  }

  function ZeroBytes(n: nat): (s: seq<byte>)
    ensures |s| == n && forall i :: 0 <= i < n ==> s[i] == 0
  {
    seq(n, _ => 0)
  }

  /** The strict unescape accepts exactly the well-escaped payloads. */
  lemma {:induction false} AcceptsWellEscaped(s: seq<byte>, zeros: nat)
    requires zeros <= 2
    ensures Unescape(s, zeros).Some? <==> WellEscaped(ZeroBytes(zeros) + s)
    decreases |s|
  {
    var p := ZeroBytes(zeros) + s;
    if |s| == 0 {
    } else if zeros == 2 && s[0] <= 3 {
      if s[0] == 3 && |s| > 1 && s[1] <= 3 {
        AcceptsWellEscaped(s[1..], 0);
        WellEscapedAfter(p, 2);
        assert p[3..] == ZeroBytes(0) + s[1..];
      } else {
        assert !EscapedAt(p, 0);
      }
    } else {
      var z := if s[0] == 0 then zeros + 1 else 0;
      AcceptsWellEscaped(s[1..], z);
      if s[0] == 0 {
        assert ZeroBytes(z) + s[1..] == p;
      } else {
        WellEscapedAfter(p, zeros);
        assert p[zeros + 1..] == ZeroBytes(0) + s[1..];
      }
    }
  }

  /** The first nonzero byte of a payload cuts off a part that is judged on its own. */
  lemma WellEscapedAfter(p: seq<byte>, k: nat)
    requires k < |p| && k <= 2 && p[k] != 0
    requires k == 2 ==> EscapedAt(p, 0)
    ensures WellEscaped(p) <==> WellEscaped(p[k + 1..])
  {
    var q := p[k + 1..];
    assert forall i: nat :: i < |q| ==> (EscapedAt(q, i) <==> EscapedAt(p, i + (k + 1)));
    assert forall i: nat :: i <= k ==> EscapedAt(p, i);
    if WellEscaped(q) {
      forall i: nat | i < |p|
        ensures EscapedAt(p, i)
      {
        if i > k {
          assert EscapedAt(q, i - (k + 1));
        }
      }
    }
  }

  /** Escaped output never emulates a start code, and grows by at most half its length. */
  lemma EscapeSafe(r: seq<byte>)
    ensures NoEmulation(Escape(r, 0)) && |Escape(r, 0)| <= |r| + |r| / 2
  {
    var e := Escape(r, 0);
    UnescapeEscape(r, 0);
    EscapeGrowth(r, 0);
    AcceptsWellEscaped(e, 0);
    assert ZeroBytes(0) + e == e;
    assert forall i: nat :: EscapedAt(e, i) ==> SafeAt(e, i);
  }

  lemma {:induction false} EscapeGrowth(r: seq<byte>, zeros: nat)
    requires zeros <= 2
    ensures |r| > 0 ==> |Escape(r, zeros)| <= |r| + (|r| + zeros - 1) / 2
  {
    if |r| > 0 {
      EscapeGrowth(r[1..], if r[0] != 0 then 0 else if zeros == 2 then 1 else zeros + 1);
    }
  }

  /** No two zero bytes meet. */
  predicate NoZeroPair(r: seq<byte>) {
    forall i :: 0 <= i < |r| - 1 && r[i] == 0 ==> r[i + 1] != 0
  }

  /** Bytes without a zero pair need no escaping. */
  lemma {:induction false} EscapePlain(r: seq<byte>, zeros: nat)
    requires NoZeroPair(r) && zeros <= 1 && (zeros == 1 && |r| > 0 ==> r[0] != 0)
    ensures Escape(r, zeros) == r
  {
    if |r| > 0 {
      EscapePlain(r[1..], if r[0] == 0 then 1 else 0);
      assert [r[0]] + r[1..] == r;
    }
  }

  /** The lenient removal of the software decoder: every 00 00 03 becomes 00 00. */
  function RemoveEpb(s: seq<byte>): (r: seq<byte>)
    ensures |r| <= |s|
  {
    if |s| == 0 then []
    else if |s| >= 3 && s[0] == 0 && s[1] == 0 && s[2] == 3 then [0, 0] + RemoveEpb(s[3..])
    else [s[0]] + RemoveEpb(s[1..])
  }

  lemma EpbPair(p: seq<byte>, t: seq<byte>)
    requires p == ZeroBytes(2) + ([3] + t)
    ensures RemoveEpb(p) == ZeroBytes(2) + RemoveEpb(t)
  {
    assert p[3..] == t && [0, 0] == ZeroBytes(2);
  }

  /** On every payload the strict loops accept, the lenient loop computes the same RBSP. */
  lemma {:induction false} RemoveEpbAgrees(s: seq<byte>, zeros: nat)
    requires zeros <= 2 && Unescape(s, zeros).Some?
    ensures RemoveEpb(ZeroBytes(zeros) + s) == ZeroBytes(zeros) + Unescape(s, zeros).value
    decreases |s|
  {
    hide RemoveEpb;
    var p := ZeroBytes(zeros) + s;
    if |s| == 0 {
      RemoveEpbZeros(zeros);
      assert p == ZeroBytes(zeros);
    } else if zeros == 2 && s[0] == 3 {
      RemoveEpbAgrees(s[1..], 0);
      NoZeros(s[1..]);
      NoZeros(Unescape(s[1..], 0).value);
      EpbPair(p, s[1..]);
    } else if s[0] == 0 {
      RemoveEpbAgrees(s[1..], zeros + 1);
      OneMoreZero(zeros, s[1..]);
      OneMoreZero(zeros, Unescape(s[1..], zeros + 1).value);
      assert s == [0] + s[1..];
    } else {
      RemoveEpbAgrees(s[1..], 0);
      NoZeros(s[1..]);
      NoZeros(Unescape(s[1..], 0).value);
      RemoveEpbSkip(zeros, s);
    }
  }

  lemma NoZeros(t: seq<byte>)
    ensures ZeroBytes(0) + t == t
  {}

  lemma OneMoreZero(n: nat, t: seq<byte>)
    ensures ZeroBytes(n) + ([0] + t) == ZeroBytes(n + 1) + t
  {}

  lemma RemoveEpbZeros(n: nat)
    requires n <= 2
    ensures RemoveEpb(ZeroBytes(n)) == ZeroBytes(n)
  {
    if n == 2 {
      assert ZeroBytes(2)[1..] == [0];
      assert RemoveEpb([0]) == [0] + RemoveEpb([]);
      assert ZeroBytes(2) == [0, 0];
    } else if n == 1 {
      assert ZeroBytes(1) == [0];
    }
  }

  lemma RemoveEpbSkip(zeros: nat, s: seq<byte>)
    requires zeros <= 2 && |s| > 0 && s[0] != 0 && !(zeros == 2 && s[0] == 3)
    ensures RemoveEpb(ZeroBytes(zeros) + s) == ZeroBytes(zeros) + ([s[0]] + RemoveEpb(s[1..]))
    decreases zeros
  {
    if zeros > 0 {
      var p := ZeroBytes(zeros) + s;
      assert p[1..] == ZeroBytes(zeros - 1) + s;
      RemoveEpbSkip(zeros - 1, s);
      assert ZeroBytes(zeros) == [0] + ZeroBytes(zeros - 1);
    } else {
      assert ZeroBytes(0) + s == s;
    }
  }

  predicate TripleAt(s: seq<byte>, i: nat) {
    i + 2 < |s| && s[i] == 0 && s[i + 1] == 0 && s[i + 2] == 3
  }

  /** On any bytes: up to the first 00 00 03 nothing changes, and of that the 03 goes. */
  lemma {:induction false} RemovesFirst(s: seq<byte>, i: nat)
    requires i <= |s| && (i < |s| ==> TripleAt(s, i)) && forall j: nat :: j < i ==> !TripleAt(s, j)
    ensures RemoveEpb(s) == if i == |s| then s else s[..i] + [0, 0] + RemoveEpb(s[i + 3..])
    decreases |s|
  {
    hide RemoveEpb;
    RemoveEpbStep(s);
    if i > 0 {
      var t := s[1..];
      assert !TripleAt(s, 0);
      forall j: nat | j < i - 1
        ensures !TripleAt(t, j)
      {
        assert !TripleAt(s, j + 1);
      }
      RemovesFirst(t, i - 1);
      Rejoined(s, i);
    } else if |s| > 0 {
      assert s[..0] + [0, 0] == [0, 0];
    }
  }

  lemma Rejoined(s: seq<byte>, i: nat)
    requires 0 < i <= |s|
    ensures [s[0]] + s[1..] == s && [s[0]] + s[1..][..i - 1] == s[..i]
    ensures i + 3 <= |s| ==> s[1..][i - 1 + 3..] == s[i + 3..]
    ensures forall t: seq<byte> :: [s[0]] + (s[1..][..i - 1] + [0, 0] + t) == s[..i] + [0, 0] + t
  {}

  lemma RemoveEpbStep(s: seq<byte>)
    ensures |s| == 0 ==> RemoveEpb(s) == s
    ensures |s| > 0 ==>
      RemoveEpb(s) == if TripleAt(s, 0) then [0, 0] + RemoveEpb(s[3..]) else [s[0]] + RemoveEpb(s[1..])
  {}

  /** The lenient loop with room for `room` bytes: a pair that does not fit is dropped whole. */
  function RemoveInto(s: seq<byte>, room: nat): (r: seq<byte>)
    ensures |r| <= room
  {
    if |s| == 0 || room == 0 then []
    else if |s| >= 3 && s[0] == 0 && s[1] == 0 && s[2] == 3 then
      if room >= 2 then [0, 0] + RemoveInto(s[3..], room - 2) else RemoveInto(s[3..], room)
    else [s[0]] + RemoveInto(s[1..], room - 1)
  }

  /** It gives the whole RBSP exactly when that has room. */
  lemma {:induction false} RemoveIntoWhole(s: seq<byte>, room: nat)
    ensures RemoveInto(s, room) == RemoveEpb(s) <==> |RemoveEpb(s)| <= room
    decreases |s|
  {
    if |s| > 0 && room > 0 {
      if |s| >= 3 && s[0] == 0 && s[1] == 0 && s[2] == 3 {
        if room >= 2 {
          RemoveIntoWhole(s[3..], room - 2);
          SamePrefix([0, 0], RemoveInto(s[3..], room - 2), RemoveEpb(s[3..]));
        }
      } else {
        RemoveIntoWhole(s[1..], room - 1);
        SamePrefix([s[0]], RemoveInto(s[1..], room - 1), RemoveEpb(s[1..]));
      }
    }
  }

  lemma SamePrefix(p: seq<byte>, a: seq<byte>, b: seq<byte>)
    ensures p + a == p + b <==> a == b
  {
    assert (p + a)[|p|..] == a && (p + b)[|p|..] == b;
  }

  /** The lenient loop of the software decoder. */
  method NalRemoveEpb(src: seq<byte>, dst: array<byte>) returns (di: nat)
    modifies dst
    ensures di <= dst.Length && dst[..di] == RemoveInto(src, dst.Length)
  {
    hide RemoveInto;
    var si := 0;
    di := 0;
    assert src[0..] == src && dst[..0] + RemoveInto(src, dst.Length) == RemoveInto(src, dst.Length);
    while si < |src| && di < dst.Length
      invariant 0 <= si <= |src| && di <= dst.Length
      invariant dst[..di] + RemoveInto(src[si..], dst.Length - di) == RemoveInto(src, dst.Length)
      decreases |src| - si
    {
      ghost var done, left := dst[..di], src[si..];
      IntoStep(done, left, dst.Length - di);
      if si + 2 < |src| && src[si] == 0 && src[si + 1] == 0 && src[si + 2] == 3 {
        if di + 1 < dst.Length {
          dst[di] := 0;
          dst[di + 1] := 0;
          di := di + 2;
          assert dst[..di] == done + [0, 0];
        }
        si := si + 3;
        assert left[3..] == src[si..];
      } else {
        dst[di] := src[si];
        di := di + 1;
        si := si + 1;
        assert dst[..di] == done + [left[0]] && left[1..] == src[si..];
      }
    }
    IntoEnd(src[si..], dst.Length - di);
  }

  lemma IntoStep(done: seq<byte>, left: seq<byte>, room: nat)
    requires |left| > 0 && room > 0
    ensures var pair := |left| >= 3 && left[0] == 0 && left[1] == 0 && left[2] == 3;
            && (pair && room >= 2 ==>
                  done + RemoveInto(left, room) == (done + [0, 0]) + RemoveInto(left[3..], room - 2))
            && (pair && room < 2 ==> RemoveInto(left, room) == RemoveInto(left[3..], room))
            && (!pair ==> done + RemoveInto(left, room) == (done + [left[0]]) + RemoveInto(left[1..], room - 1))
  {}

  lemma IntoEnd(s: seq<byte>, room: nat)
    ensures |s| == 0 || room == 0 ==> RemoveInto(s, room) == []
  {}
}
