/**
 The byte stream format of Annex B of ITU-T H.264: start codes, the NAL units between them, and
 the zero bytes around them.
 */
module AnnexB {
  import opened Bits
  import opened Emulation

  /** `start_code`: its length at `at`, or 0. */
  function StartCode(s: seq<byte>, at: nat): (k: nat)
    ensures k in {0, 3, 4} && (k > 0 ==> at + k <= |s|)
  {
    if at + 3 > |s| || s[at] != 0 || s[at + 1] != 0 then 0
    else if s[at + 2] == 1 then 3
    else if at + 4 <= |s| && s[at + 2] == 0 && s[at + 3] == 1 then 4
    else 0
  }

  /** The first start code at or after `at`, or the end. */
  function NextStart(s: seq<byte>, at: nat): (e: nat)
    requires at <= |s|
    ensures at <= e <= |s| && (e < |s| ==> StartCode(s, e) > 0)
    ensures forall i :: at <= i < e ==> StartCode(s, i) == 0
    decreases |s| - at
  {
    if at == |s| || StartCode(s, at) > 0 then at else NextStart(s, at + 1)
  }

  /** Without trailing zero bytes. */
  function Trim(s: seq<byte>): (r: seq<byte>)
    ensures r <= s && (|r| > 0 ==> r[|r| - 1] != 0)
    ensures forall i :: |r| <= i < |s| ==> s[i] == 0
  {
    if |s| > 0 && s[|s| - 1] == 0 then Trim(s[..|s| - 1]) else s
  }

  /** The NAL units of a stream from a start code, or the end, on. */
  function SplitFrom(s: seq<byte>, p: nat): (nals: seq<seq<byte>>)
    requires p <= |s|
    decreases |s| - p
  {
    var k := StartCode(s, p);
    if k == 0 then [] else
      var e := NextStart(s, p + k);
      [Trim(s[p + k..e])] + SplitFrom(s, e)
  }

  // ----- printing -----

  /** A NAL unit with the zero bytes and the start code before it. */
  datatype Unit = Unit(lead: nat, long: bool, nal: seq<byte>)

  function ZeroCount(u: Unit): (z: nat)
    ensures z >= 2
  {
    u.lead + if u.long then 3 else 2
  }

  /** Zero bytes, start code, NAL unit. */
  function PrintUnit(u: Unit): (s: seq<byte>) {
    ZeroBytes(u.lead) + (if u.long then [0, 0, 0, 1] else [0, 0, 1]) + u.nal
  }

  /** A whole stream, ending in `tail` zero bytes. */
  function PrintStream(us: seq<Unit>, tail: nat): (s: seq<byte>) {
    if |us| == 0 then ZeroBytes(tail) else PrintUnit(us[0]) + PrintStream(us[1..], tail)
  }

  function Nals(us: seq<Unit>): (nals: seq<seq<byte>>)
    ensures |nals| == |us|
  {
    if |us| == 0 then [] else [us[0].nal] + Nals(us[1..])
  }

  /** No start code inside, and no zero byte at the end. */
  predicate Enclosed(nal: seq<byte>) {
    |nal| > 0 && nal[|nal| - 1] != 0 && forall i :: 0 <= i < |nal| ==> StartCode(nal, i) == 0
  }

  predicate AllEnclosed(us: seq<Unit>) {
    forall i :: 0 <= i < |us| ==> Enclosed(us[i].nal)
  }

  lemma PrintUnitIs(u: Unit)
    ensures PrintUnit(u) == ZeroBytes(ZeroCount(u)) + ([1] + u.nal)
  {}

  /** Where zero bytes meet a 1, that is the only start code. */
  lemma RunStart(z: nat, t: seq<byte>, i: nat)
    requires z >= 2 && i <= z
    ensures i < z ==> StartCode(ZeroBytes(z) + ([1] + t), i) == if i == z - 2 then 3 else if i == z - 3 then 4 else 0
  {
    var s := ZeroBytes(z) + ([1] + t);
    assert s[z] == 1;
  }

  /** Zero bytes alone hold no start code. */
  lemma ZeroStart(n: nat, i: nat)
    ensures StartCode(ZeroBytes(n), i) == 0
  {}

  /** Inside an enclosed NAL nothing that follows it can make a start code. */
  lemma EnclosedStart(nal: seq<byte>, t: seq<byte>, i: nat)
    requires Enclosed(nal) && i < |nal|
    ensures StartCode(nal + t, i) == 0
  {
    assert StartCode(nal, i) == 0;
    assert (nal + t)[|nal| - 1] != 0;
  }

  lemma StartShift(a: seq<byte>, b: seq<byte>, i: nat)
    ensures StartCode(a + b, |a| + i) == StartCode(b, i)
  {
    if i + 3 <= |b| {
      assert (a + b)[|a| + i] == b[i] && (a + b)[|a| + i + 1] == b[i + 1] && (a + b)[|a| + i + 2] == b[i + 2];
      assert i + 4 <= |b| ==> (a + b)[|a| + i + 3] == b[i + 3];
    }
  }

  lemma NextStartIs(s: seq<byte>, at: nat, e: nat)
    requires at <= e <= |s| && (e < |s| ==> StartCode(s, e) > 0)
    requires forall i :: at <= i < e ==> StartCode(s, i) == 0
    ensures NextStart(s, at) == e
  {
    var x := NextStart(s, at);
    assert !(x < e) && !(e < x);
  }

  lemma {:induction false} TrimIs(a: seq<byte>, n: nat)
    requires |a| > 0 ==> a[|a| - 1] != 0
    ensures Trim(a + ZeroBytes(n)) == a
    decreases n
  {
    if n == 0 {
      assert a + ZeroBytes(0) == a;
    } else {
      assert (a + ZeroBytes(n))[..|a| + n - 1] == a + ZeroBytes(n - 1);
      TrimIs(a, n - 1);
    }
  }

  lemma SplitStep(s: seq<byte>, p: nat, k: nat, e: nat)
    requires p <= |s| && k == StartCode(s, p) > 0 && e == NextStart(s, p + k)
    ensures SplitFrom(s, p) == [Trim(s[p + k..e])] + SplitFrom(s, e)
  {}

  lemma SplitEnd(s: seq<byte>, p: nat)
    requires p <= |s| && StartCode(s, p) == 0
    ensures SplitFrom(s, p) == []
  {}

  lemma {:induction false} SplitShift(a: seq<byte>, b: seq<byte>, p: nat)
    requires p <= |b|
    ensures SplitFrom(a + b, |a| + p) == SplitFrom(b, p)
    decreases |b| - p
  {
    hide StartCode, Trim, NextStart, SplitFrom;
    StartShift(a, b, p);
    var k := StartCode(b, p);
    if k == 0 {
      SplitEnd(b, p);
      SplitEnd(a + b, |a| + p);
    } else {
      var e := NextStart(b, p + k);
      NextStartShift(a, b, p + k, e);
      assert (a + b)[|a| + p + k..|a| + e] == b[p + k..e];
      SplitShift(a, b, e);
      SplitStep(b, p, k, e);
      SplitStep(a + b, |a| + p, k, |a| + e);
    }
  }

  lemma NextStartShift(a: seq<byte>, b: seq<byte>, at: nat, e: nat)
    requires at <= |b| && e == NextStart(b, at)
    ensures NextStart(a + b, |a| + at) == |a| + e
  {
    hide StartCode;
    forall i | |a| + at <= i < |a| + e
      ensures StartCode(a + b, i) == 0
    {
      StartShift(a, b, i - |a|);
    }
    StartShift(a, b, e);
    NextStartIs(a + b, |a| + at, |a| + e);
  }

  /** Position of the first start code of a printed stream. */
  function First(us: seq<Unit>, tail: nat): (p: nat) {
    if |us| == 0 then tail else if ZeroCount(us[0]) == 2 then 0 else ZeroCount(us[0]) - 3
  }

  lemma FirstIs(us: seq<Unit>, tail: nat)
    ensures var s := PrintStream(us, tail); First(us, tail) <= |s| && NextStart(s, 0) == First(us, tail)
    ensures var s := PrintStream(us, tail); s[..First(us, tail)] == ZeroBytes(First(us, tail))
    ensures |us| > 0 ==> First(us, tail) + StartCode(PrintStream(us, tail), First(us, tail)) == ZeroCount(us[0]) + 1
  {
    var s, p := PrintStream(us, tail), First(us, tail);
    if |us| == 0 {
      forall i | 0 <= i < tail
        ensures StartCode(s, i) == 0
      {
        ZeroStart(tail, i);
      }
      NextStartIs(s, 0, p);
    } else {
      var z := ZeroCount(us[0]);
      var t := us[0].nal + PrintStream(us[1..], tail);
      PrintUnitIs(us[0]);
      assert s == ZeroBytes(z) + ([1] + t);
      forall i | 0 <= i <= p
        ensures StartCode(s, i) == if i < p then 0 else if z == 2 then 3 else 4
      {
        RunStart(z, t, i);
      }
      NextStartIs(s, 0, p);
    }
  }

  /** Splitting a printed stream gives its NAL units back, whatever zeros stood between them. */
  lemma {:induction false} SplitPrint(us: seq<Unit>, tail: nat)
    requires AllEnclosed(us)
    ensures First(us, tail) <= |PrintStream(us, tail)|
    ensures SplitFrom(PrintStream(us, tail), First(us, tail)) == Nals(us)
    decreases |us|
  {
    hide StartCode, Trim, Enclosed;
    FirstIs(us, tail);
    if |us| == 0 {
      ZeroStart(tail, tail);
    } else {
      var nal, rest := us[0].nal, PrintStream(us[1..], tail);
      FirstIs(us[1..], tail);
      SplitPrint(us[1..], tail);
      SplitHead(us[0], rest, First(us[1..], tail), PrintStream(us, tail), First(us, tail));
    }
  }

  /** The first unit of a stream that goes on with `q` zero bytes and then a start code, or ends. */
  lemma SplitHead(u: Unit, rest: seq<byte>, q: nat, s: seq<byte>, p: nat)
    requires Enclosed(u.nal) && q <= |rest| && q == NextStart(rest, 0) && rest[..q] == ZeroBytes(q)
    requires s == PrintUnit(u) + rest && p == if ZeroCount(u) == 2 then 0 else ZeroCount(u) - 3
    ensures p <= |s| && SplitFrom(s, p) == [u.nal] + SplitFrom(rest, q)
  {
    hide StartCode, Trim, NextStart, SplitFrom, PrintUnit, ZeroCount;
    var z := ZeroCount(u);
    PrintUnitIs(u);
    SplitShift(PrintUnit(u), rest, q);
    assert s == ZeroBytes(z) + ([1] + (u.nal + rest));
    RunStart(z, u.nal + rest, p);
    UnitAt(ZeroBytes(z) + [1], u.nal, rest, q, s, p);
  }

  lemma UnitAt(head: seq<byte>, nal: seq<byte>, rest: seq<byte>, q: nat, s: seq<byte>, p: nat)
    requires Enclosed(nal) && q <= |rest| && q == NextStart(rest, 0) && rest[..q] == ZeroBytes(q)
    requires s == head + (nal + rest) && p + StartCode(s, p) == |head| && StartCode(s, p) > 0
    ensures SplitFrom(s, p) == [nal] + SplitFrom(s, |head| + |nal| + q)
  {
    hide StartCode, Trim, NextStart, SplitFrom;
    UnitEnd(head, nal, rest, q);
    SplitStep(s, p, |head| - p, |head| + |nal| + q);
    Middle(head, nal, rest, q);
    LastNonzero(nal);
    TrimIs(nal, q);
  }

  lemma Middle(head: seq<byte>, nal: seq<byte>, rest: seq<byte>, q: nat)
    requires q <= |rest|
    ensures (head + (nal + rest))[|head|..|head| + |nal| + q] == nal + rest[..q]
  {}

  lemma LastNonzero(nal: seq<byte>)
    requires Enclosed(nal)
    ensures |nal| > 0 && nal[|nal| - 1] != 0
  {}

  lemma UnitEnd(head: seq<byte>, nal: seq<byte>, rest: seq<byte>, q: nat)
    requires Enclosed(nal) && q == NextStart(rest, 0)
    ensures NextStart(head + (nal + rest), |head|) == |head| + |nal| + q
  {
    hide StartCode;
    forall i | 0 <= i < |nal| + q
      ensures StartCode(nal + rest, i) == 0
    {
      if i < |nal| {
        EnclosedStart(nal, rest, i);
      } else {
        StartShift(nal, rest, i - |nal|);
      }
    }
    StartShift(nal, rest, q);
    NextStartIs(nal + rest, 0, |nal| + q);
    NextStartShift(head, nal + rest, 0, |nal| + q);
  }

  /** A start code in a part is a start code in the whole. */
  lemma StartInside(a: seq<byte>, b: seq<byte>, c: seq<byte>, i: nat)
    requires StartCode(b, i) > 0
    ensures StartCode(a + b + c, |a| + i) == StartCode(b, i)
  {
    assert a + b + c == a + (b + c);
    StartShift(a, b + c, i);
    var k := StartCode(b, i);
    assert forall j :: i <= j < i + k ==> (b + c)[j] == b[j];
  }

  predicate EnclosedIfAny(us: seq<Unit>) {
    forall i :: 0 <= i < |us| && |us[i].nal| > 0 ==> Enclosed(us[i].nal)
  }

  lemma ConsUnit(u: Unit, rest: seq<Unit>, tail: nat)
    ensures PrintStream([u] + rest, tail) == PrintUnit(u) + PrintStream(rest, tail)
    ensures Nals([u] + rest) == [u.nal] + Nals(rest)
    ensures EnclosedIfAny(rest) && (|u.nal| > 0 ==> Enclosed(u.nal)) ==> EnclosedIfAny([u] + rest)
  {
    hide Enclosed;
    assert ([u] + rest)[0] == u && ([u] + rest)[1..] == rest;
  }

  /** Every stream is the print of what it splits into. */
  lemma {:induction false} PrintSplit(s: seq<byte>, from: nat, p: nat) returns (us: seq<Unit>, tail: nat)
    requires from <= p <= |s| && (p < |s| ==> StartCode(s, p) > 0)
    requires forall i :: from <= i < p ==> s[i] == 0
    ensures s[from..] == PrintStream(us, tail) && Nals(us) == SplitFrom(s, p) && EnclosedIfAny(us)
    decreases |s| - p
  {
    hide NextStart, Trim, SplitFrom, Enclosed, StartCode, PrintUnit;
    if p == |s| {
      NoStartAtEnd(s);
      SplitEnd(s, p);
      us, tail := [], p - from;
      assert s[from..] == ZeroBytes(tail);
    } else {
      hide PrintStream, Nals, EnclosedIfAny;
      var k := StartCode(s, p);
      var e := NextStart(s, p + k);
      SplitStep(s, p, k, e);
      var nal := Trim(s[p + k..e]);
      TrimmedEnclosed(s, p + k, e, nal);
      UnitSpelt(s, from, p, k, nal);
      var rest;
      rest, tail := PrintSplit(s, p + k + |nal|, e);
      var u := Unit(p - from, k == 4, nal);
      us := [u] + rest;
      ConsUnit(u, rest, tail);
    }
  }

  lemma NoStartAtEnd(s: seq<byte>)
    ensures StartCode(s, |s|) == 0
  {}

  lemma UnitSpelt(s: seq<byte>, from: nat, p: nat, k: nat, nal: seq<byte>)
    requires from <= p && k == StartCode(s, p) > 0 && p + k + |nal| <= |s| && s[p + k..p + k + |nal|] == nal
    requires forall i :: from <= i < p ==> s[i] == 0
    ensures s[from..] == PrintUnit(Unit(p - from, k == 4, nal)) + s[p + k + |nal|..]
  {
    assert s[from..p] == ZeroBytes(p - from);
    assert s[p..p + k] == if k == 4 then [0, 0, 0, 1] else [0, 0, 1];
    assert s[from..] == s[from..p] + s[p..p + k] + s[p + k..p + k + |nal|] + s[p + k + |nal|..];
  }

  lemma TrimmedEnclosed(s: seq<byte>, begin: nat, e: nat, nal: seq<byte>)
    requires begin <= |s| && e == NextStart(s, begin) && nal == Trim(s[begin..e])
    ensures begin + |nal| <= e && s[begin..begin + |nal|] == nal
    ensures forall i :: begin + |nal| <= i < e ==> s[i] == 0
    ensures |nal| > 0 ==> Enclosed(nal)
  {
    var body := s[begin..e];
    assert nal == body[..|nal|];
    forall i | begin + |nal| <= i < e
      ensures s[i] == 0
    {
      assert body[i - begin] == s[i];
    }
    forall i | 0 <= i < |nal|
      ensures StartCode(nal, i) == 0
    {
      if StartCode(nal, i) > 0 {
        assert s == s[..begin] + nal + s[begin + |nal|..];
        StartInside(s[..begin], nal, s[begin + |nal|..], i);
      }
    }
  }
}
