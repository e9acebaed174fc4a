/**
 The two rewrites by fields: lowering the reference count changes that field and no other, and a plain
 High parameter set becomes the Main one with the same fields.
 */
module FixupRecord {
  import opened Bits
  import opened Syntax
  import opened Emulation
  import opened SpsFormat
  import opened SpsRecord
  import opened Rewrite
  import opened SpsFixup
  import opened HighMain
  import opened Normalize

  /** What follows the fields agrees up to the stop bit. */
  ghost predicate SameRest(t: seq<bool>, u: seq<bool>) {
    !AllZero(t) && !AllZero(u) && u[..Stop(u)] == t[..Stop(t)]
  }

  lemma SpellPrint(r: Sps, t: seq<bool>)
    requires Legal(r)
    ensures Walk(SpsNext, [], Spell(r, t)) == Done(Values(r), t)
    ensures Spell(r, t) == Print(SpsNext, Values(r), 0) + t && Follows(SpsNext, Values(r), 0)
  {
    hide Walk, SpsNext, Follows, Print, Spell, Legal, Values;
    WalkSpelt(r, t);
    PrintWalk(SpsNext, [], Spell(r, t));
  }

  lemma RefsValue(r: Sps)
    requires Legal(r)
    ensures var v, n := Values(r), RefsAt(Values(r));
            n < |v| && v[n] == r.refs && Values(r.(refs := 1)) == v[n := 1]
  {
    hide RefsAt, HeadValues, SizeValues, Legal;
    ValuesAt(r);
    SizeAt(r);
    OtherRefs(r);
  }

  lemma OtherRefs(r: Sps)
    ensures |SizeValues(r)| > 0
    ensures HeadValues(r.(refs := 1)) == HeadValues(r) && SizeValues(r.(refs := 1)) == SizeValues(r)[0 := 1]
  {
    hide PocValues, CropValues;
  }

  lemma RefsField(r: Sps)
    requires Legal(r)
    ensures RefsAt(Values(r)) < |Values(r)| && SpsNext(Values(r)[..RefsAt(Values(r))]) == Some(UE)
  {
    hide RefsAt, SpsNext;
    ValuesAt(r);
    TailAfter(r, []);
    assert HeadValues(r) + [] == HeadValues(r) == Values(r)[..RefsAt(Values(r))];
  }

  lemma LegalOne(r: Sps)
    requires Legal(r)
    ensures Legal(r.(refs := 1))
  {}

  /** The bits after the fields, in the original `x` and in the rewrite `y`. */
  lemma RestKept(x: seq<bool>, y: seq<bool>, start: nat, end: nat, b: nat, t: seq<bool>, u: seq<bool>)
    requires KeepsOtherBits(x, y, start, end) && !AllZero(x) && !AllZero(y) && !AllZero(t)
    requires end + b <= |x| && x[end + b..] == t && start + 3 + b <= |y| && y[start + 3 + b..] == u
    ensures SameRest(t, u)
  {
    hide Stop, AllZero;
    StopAfter(x, end + b);
    var k := Stop(t);
    assert Stop(y) == start + 3 + b + k;
    assert u[k + 1..] == y[Stop(y) + 1..];
    StopIs(u, k);
    assert u[..k] == y[start + 3..Stop(y)][b..];
    assert t[..k] == x[end..Stop(x)][b..];
  }

  /** Where the rest begins, before and after the count is lowered. */
  lemma RestPlaces(nal: seq<byte>, r: Sps, t: seq<bool>) returns (b: nat)
    requires FormatCode(nal) == 0 && Legal(r) && RbspBits(nal) == Spell(r, t)
    ensures RefsEnd(Values(r)) + b == |Print(SpsNext, Values(r), 0)|
    ensures RefsStart(Values(r)) + 3 + b == |Print(SpsNext, Values(r.(refs := 1)), 0)|
  {
    hide Walk, SpsNext, Print, Follows, Verdict, RefsAt, Spell, Legal, Values, Stop, AllZero, Accepted, BitsOf;
    SpellPrint(r, t);
    FormatSpells(nal);
    RefsPlace(RbspBits(nal), Values(r), t);
    RefsValue(r);
    RefsField(r);
    OneRefCode();
    b := |Print(SpsNext, Values(r), RefsAt(Values(r)) + 1)|;
  }

  /** Where the rewrite fits, it spells the same fields with one reference frame. */
  lemma LimitSpelt(nal: seq<byte>, r: Sps, t: seq<bool>, cap: nat) returns (u: seq<bool>)
    requires FormatCode(nal) == 0 && Legal(r) && RbspBits(nal) == Spell(r, t) && !AllZero(t) && r.refs > 1
    requires 5 <= cap && |Limited(nal)| <= cap && |Limited(nal)| <= 1024
    ensures LimitOutcome(nal, cap, 0, Limited(nal), r.refs)
    ensures RbspBits(Limited(nal)) == Spell(r.(refs := 1), u) && SameRest(t, u)
  {
    hide Walk, SpsNext, Print, Follows, Verdict, RefsAt, RefsStart, RefsEnd, Spell, Legal, Values, Stop, AllZero,
         KeepsOtherBits, FormatOf, Accepted, Unescape, Escape, BitsOf, Pack, LimitOutcome, Limited, SameRest, HasType;
    var v, x := Values(r), RbspBits(nal);
    SpellPrint(r, t);
    assert x[|Print(SpsNext, v, 0)|..] == t;
    StopAfter(x, |Print(SpsNext, v, 0)|);
    RefsValue(r);
    LimitSucceeds(nal, cap);
    LimitedFormat(nal);
    LegalOne(r);
    var y := RbspBits(Limited(nal));
    PrintWalk(SpsNext, [], y);
    u := SpsWalk(Limited(nal)).rest;
    SpellPrint(r.(refs := 1), u);
    var b := RestPlaces(nal, r, t);
    WrittenStop(nal, y);
    RestKept(x, y, RefsStart(v), RefsEnd(v), b, t, u);
  }

  /** The rewrite has a stop bit of its own. */
  lemma WrittenStop(nal: seq<byte>, y: seq<bool>)
    requires FormatCode(nal) == 0 && y == RbspBits(Limited(nal))
    ensures !AllZero(y)
  {
    hide Walk, SpsNext, Print, Follows, Verdict, RefsAt, RefsStart, RefsEnd, Stop, AllZero, Updated,
         Accepted, Unescape, Escape, BitsOf, Pack, HasType, NalOf, RbspBits;
    var w := SpsWalk(nal);
    FormatSpells(nal);
    RefsPlace(RbspBits(nal), w.vals, w.rest);
    NalOfReads(nal[0], LimitedBits(nal));
    ClosedStop(RbspBits(nal)[..RefsStart(w.vals)] + ONE_REF + RbspBits(nal)[RefsEnd(w.vals)..Stop(RbspBits(nal))]);
  }

  // ----- High to Main -----

  /** The fields of `r` under the High profile, no High tool used: chroma 4:2:0, 8 bits, no lists. */
  function SpellHigh(r: Sps, constraints: byte, t: seq<bool>): (s: seq<bool>) {
    ToBits(100, 8) + (ToBits(constraints, 8) + (ToBits(r.level, 8) + (CodeUE(r.id)
    + (CodeUE(1) + (CodeUE(0) + (CodeUE(0) + ([false] + ([false] + SpellAfter(r, t)))))))))
  }

  /** From log2_max_frame_num_minus4 on. */
  function SpellAfter(r: Sps, t: seq<bool>): (s: seq<bool>) {
    CodeUE(r.frameNum) + SpellPoc(r.poc, SpellSize(r, t))
  }

  function HighHead(r: Sps, constraints: byte): (h: seq<int>) {
    [100, constraints as int, r.level as int, r.id, 1, 0, 0, 0, 0]
  }

  lemma HighIdentity(r: Sps, constraints: byte, t: seq<bool>)
    requires Legal(r)
    ensures Walk(SpsNext, [], ToBits(100, 8) + (ToBits(constraints, 8) + (ToBits(r.level, 8) + (CodeUE(r.id) + t))))
         == Walk(SpsNext, [100, constraints as int, r.level as int, r.id], t)
  {
    hide Walk, SpsNext, CodeUE, ToBits;
    var t3 := CodeUE(r.id) + t;
    HeadTable([]);
    WalkByte([], 100, ToBits(constraints, 8) + (ToBits(r.level, 8) + t3));
    assert [] + [100] == [100];
    HeadTable([100]);
    WalkByte([100], constraints, ToBits(r.level, 8) + t3);
    assert [100] + [constraints as int] == [100, constraints as int];
    HeadTable([100, constraints as int]);
    WalkByte([100, constraints as int], r.level, t3);
    var v := [100, constraints as int, r.level as int];
    assert [100, constraints as int] + [r.level as int] == v;
    HeadTable(v);
    WalkUe(v, r.id, t);
    assert v + [r.id] == [100, constraints as int, r.level as int, r.id];
  }

  lemma HighExtension(v: seq<int>, t: seq<bool>)
    requires |v| == 4 && v[0] == 100
    ensures Walk(SpsNext, v, CodeUE(1) + (CodeUE(0) + (CodeUE(0) + ([false] + ([false] + t)))))
         == Walk(SpsNext, v + [1, 0, 0, 0, 0], t)
  {
    hide Walk, SpsNext, CodeUE;
    var t4 := [false] + t;
    var t3 := [false] + t4;
    HeadTable(v);
    WalkUe(v, 1, CodeUE(0) + (CodeUE(0) + t3));
    HeadTable(v + [1]);
    WalkUe(v + [1], 0, CodeUE(0) + t3);
    assert v + [1] + [0] == v + [1, 0];
    HeadTable(v + [1, 0]);
    WalkUe(v + [1, 0], 0, t3);
    assert v + [1, 0] + [0] == v + [1, 0, 0];
    HeadTable(v + [1, 0, 0]);
    WalkBit(v + [1, 0, 0], false, t4);
    assert v + [1, 0, 0] + [0] == v + [1, 0, 0, 0];
    HeadTable(v + [1, 0, 0, 0]);
    WalkBit(v + [1, 0, 0, 0], false, t);
    assert v + [1, 0, 0, 0] + [0] == v + [1, 0, 0, 0, 0];
  }

  /** A High payload is read as its head, whatever follows. */
  lemma HighRead(r: Sps, constraints: byte, t: seq<bool>)
    requires Legal(r)
    ensures var h := HighHead(r, constraints);
            && h <= Walk(SpsNext, [], SpellHigh(r, constraints, t)).vals && Follows(SpsNext, h, 0)
            && SpellHigh(r, constraints, t) == Print(SpsNext, h, 0) + SpellAfter(r, t)
  {
    hide Walk, SpsNext, CodeUE, ToBits, Follows, Print, SpellAfter, Legal;
    var h, after := HighHead(r, constraints), SpellAfter(r, t);
    HighIdentity(r, constraints, CodeUE(1) + (CodeUE(0) + (CodeUE(0) + ([false] + ([false] + after)))));
    var v := [100, constraints as int, r.level as int, r.id];
    HighExtension(v, after);
    assert v + [1, 0, 0, 0, 0] == h;
    PrintWalk(SpsNext, [], SpellHigh(r, constraints, t));
    PrintWalk(SpsNext, h, after);
    var w := Walk(SpsNext, h, after);
    PrintSplit(SpsNext, w.vals, 0, 9);
    assert w.vals[..9] == h;
    Joined(Print(SpsNext, h, 0), Print(SpsNext, w.vals, 9), w.rest);
  }

  /** What follows the fields does not change them. */
  lemma AfterAppend(r: Sps, t: seq<bool>)
    requires Legal(r)
    ensures SpellAfter(r, t) == SpellAfter(r, []) + t && |SpellAfter(r, [])| > 0
  {
    hide Walk, SpsNext, CodeUE, ToBits, Follows, Print, SpellAfter, Legal, Values;
    var p := ToBits(r.profile, 8) + (ToBits(r.constraints, 8) + (ToBits(r.level, 8) + CodeUE(r.id)));
    SpellPrint(r, t);
    SpellPrint(r, []);
    SpellParts(r, t, p);
    SpellParts(r, [], p);
    AfterSome(r, []);
    assert Spell(r, t) == (p + SpellAfter(r, [])) + t == p + (SpellAfter(r, []) + t);
    assert Spell(r, t)[|p|..] == SpellAfter(r, t);
  }

  lemma SpellParts(r: Sps, t: seq<bool>, p: seq<bool>)
    requires p == ToBits(r.profile, 8) + (ToBits(r.constraints, 8) + (ToBits(r.level, 8) + CodeUE(r.id)))
    ensures Spell(r, t) == p + SpellAfter(r, t)
  {
    hide CodeUE, ToBits, SpellPoc, SpellSize;
  }

  lemma AfterSome(r: Sps, t: seq<bool>)
    ensures |SpellAfter(r, t)| > 0
  {}

  /** The payload of a High set that spells `r`: its head, and the bits behind it up to the stop bit. */
  lemma HighPayload(bits: seq<bool>, r: Sps, constraints: byte, t: seq<bool>)
    requires Legal(r) && bits == SpellHigh(r, constraints, t) && !AllZero(t)
    ensures var n := |Print(SpsNext, HighHead(r, constraints), 0)|;
            && !AllZero(bits) && n < Stop(bits) <= |bits| && bits[n..Stop(bits)] == SpellAfter(r, t[..Stop(t)])
            && bits[..Stop(bits)] == SpellHigh(r, constraints, t[..Stop(t)])
  {
    hide SpsNext, Print, Stop, AllZero, SpellHigh, SpellAfter, HighHead, Legal, Walk, Follows;
    var k, p := Stop(t), Print(SpsNext, HighHead(r, constraints), 0);
    HighRead(r, constraints, t);
    HighRead(r, constraints, t[..k]);
    AfterAppend(r, t);
    AfterAppend(r, t[..k]);
    var m := |p| + |SpellAfter(r, [])|;
    assert bits[m..] == t;
    StopAfter(bits, m);
  }

  /** The Main spelling: the same fields, closed behind what followed them. */
  lemma MainSpelling(bits: seq<bool>, r: Sps, constraints: byte, t: seq<bool>) returns (u: seq<bool>)
    requires Legal(r) && bits == SpellHigh(r, constraints, t) && !AllZero(t) && r.profile == 77 && r.constraints == 0
    ensures MainBits(bits, HighHead(r, constraints)) == Spell(r, u) && SameRest(t, u)
  {
    hide SpsNext, Print, Stop, AllZero, SpellHigh, SpellAfter, Legal, CodeUE, ToBits, Trailing;
    var k := Stop(t);
    HighPayload(bits, r, constraints, t);
    var body := Spell(r, t[..k]);
    var p := ToBits(77, 8) + (ToBits(0, 8) + (ToBits(r.level, 8) + CodeUE(r.id)));
    SpellParts(r, t[..k], p);
    assert MainHead(r.level as int, r.id) == p;
    u := t[..k] + Trailing(|body|);
    SpellParts(r, u, p);
    AfterAppend(r, t[..k]);
    AfterAppend(r, u);
    assert Closed(body) == p + (SpellAfter(r, []) + u);
    Restop(t, k, |body|);
  }

  lemma Restop(t: seq<bool>, k: nat, n: nat)
    requires !AllZero(t) && k == Stop(t)
    ensures SameRest(t, t[..k] + Trailing(n))
  {
    hide Stop;
    var u := t[..k] + Trailing(n);
    assert u[k + 1..] == Zeros(PadTo8(n + 1));
    StopIs(u, k);
  }

  /**
   A High set that spells `r` without using a High tool is converted exactly if the Main set of the same
   fields is accepted; the result spells those fields, and the same bits after them.
   */
  lemma NormalizeSpelt(nal: seq<byte>, r: Sps, constraints: byte, t: seq<bool>, cap: nat) returns (u: seq<bool>)
    requires 2 <= |nal| <= 1024 && HasType(nal, 7) && RbspBits(nal) == SpellHigh(r, constraints, t)
    requires Legal(r) && r.profile == 77 && r.constraints == 0 && constraints % 4 == 0 && r.id <= 31 && !AllZero(t)
    requires 5 <= cap && |Mained(nal)| <= cap && |Mained(nal)| <= 1024
    ensures var ok := Judge(r) == 0;
            NormalizeOutcome(nal, cap, if ok then 0 else -1, if ok then Mained(nal) else [], ok)
    ensures RbspBits(Mained(nal)) == Spell(r, u) && SameRest(t, u)
  {
    hide Walk, SpsNext, Print, Follows, Stop, AllZero, Spell, SpellHigh, SpellAfter, Legal, Judge, SameRest, BitsOf,
         Pack, Escape, FormatCode, MainBits, FormatOf, FormatFor, Unescape;
    var bits, h := RbspBits(nal), HighHead(r, constraints);
    HighSome(r, constraints, t);
    HighPayload(bits, r, constraints, t);
    HighRead(r, constraints, t[..Stop(t)]);
    var v := PayloadWalk(nal).vals;
    assert v[..9] == h;
    assert forall i :: 0 <= i < 9 ==> v[i] == h[i];
    u := MainSpelling(bits, r, constraints, t);
    var y := MainBits(bits, h);
    NalOfReads(nal[0], y);
    SpellLong(r, u);
    FormatSpelt(Mained(nal), r, u);
  }

  lemma HighSome(r: Sps, constraints: byte, t: seq<bool>)
    ensures SpellHigh(r, constraints, t) != []
  {}

  lemma SpellLong(r: Sps, u: seq<bool>)
    ensures |Spell(r, u)| > 24
  {
    hide SpellPoc, SpellSize, ToBits;
    CodeSome(r.id);
  }

  lemma CodeSome(x: nat)
    ensures |CodeUE(x)| > 0
  {}
}
