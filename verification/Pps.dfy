/**
 Validation of a picture parameter set as Main: `avc_pps_validate_main_ex`.
 */
module Pps {
  import opened Bits
  import opened Syntax
  import opened Emulation
  import opened BitReader
  import opened SpsFormat
  import opened Rewrite
  import opened Normalize

  /** The fields of section 7.3.2.2 of H.264 for one slice group and no extension. */
  const PPS_FIELDS: seq<Field> := [UE, UE, U(1), U(1), UE, UE, UE, U(1), U(2), SE, SE, SE, U(1), U(1), U(1)]

  function Payload(nal: seq<byte>): (s: seq<bool>) {
    RbspBits(nal)[..Stop(RbspBits(nal))]
  }

  /** The payload is nothing but the fields of `v`, and `v` is Main for sequence parameter set `id`. */
  ghost predicate MainPps(nal: seq<byte>, id: nat, v: seq<int>) {
    Loads(nal, 8) && PpsSpelt(Payload(nal), id, v)
  }

  ghost predicate PpsSpelt(s: seq<bool>, id: nat, v: seq<int>) {
    ListOk(PPS_FIELDS, v) && s == Codes(PPS_FIELDS, v, 0) && v[0] <= 255 && v[1] == id && v[4] == 0
  }

  method ValidatePps(nal: seq<byte>, expectedSpsId: nat) returns (code: int, entropy: nat, ppsId: nat)
    ensures code == -1 <==> !Loads(nal, 8)
    ensures code == 0 ==> exists v :: MainPps(nal, expectedSpsId, v) && v[2] == entropy && v[0] == ppsId
    ensures code != 0 ==> (forall v :: !MainPps(nal, expectedSpsId, v)) && entropy == 0 && ppsId == 0
    ensures code in {0, -1, -2}
  {
    hide Walk, Unescape, BitsOf, Stop, AllZero, HasType, Codes, ListOk;
    entropy, ppsId := 0, 0;
    if |nal| < 2 || |nal| > 1024 || !HasType(nal, 8) {
      return -1, 0, 0;
    }
    var b := new SpsBits();
    var ok := b.Unescaped(nal[1..]);
    if !ok {
      return -1, 0, 0;
    }
    ghost var bits := b.content;
    var stop: nat;
    ok, stop := b.StopBit();
    if !ok {
      return -1, 0, 0;
    }
    StopIs(bits, stop);
    b.SetEnd(stop);
    assert b.Rest() == Payload(nal);
    var good, e, p := ReadPps(b, expectedSpsId, Payload(nal), Walk(ListTable(PPS_FIELDS), [], Payload(nal)));
    if !good {
      forall v
        ensures !MainPps(nal, expectedSpsId, v)
      {}
      return -2, 0, 0;
    }
    code, entropy, ppsId := 0, e, p;
  }

  /** `k` fields have been read on the way to `w`, unless the bits ran out. */
  ghost predicate At(b: SpsBits, k: nat, v: seq<int>, w: Walked)
    reads b, b.bytes
  {
    b.Valid() && b.Tracks(ListTable(PPS_FIELDS), v, w) && (!b.bad ==> |v| == k)
  }

  method NextUe(b: SpsBits, k: nat, ghost v: seq<int>, ghost w: Walked) returns (x: nat, ghost next: seq<int>)
    requires At(b, k, v, w) && k < 15 && PPS_FIELDS[k] == UE
    modifies b`pos, b`bad
    ensures At(b, k + 1, next, w) && next == (if b.bad then v else v + [x]) && (old(b.bad) ==> b.bad)
  {
    hide Walk;
    x, next := b.Ue(ListTable(PPS_FIELDS), v, w);
  }

  method NextU(b: SpsBits, n: nat, k: nat, ghost v: seq<int>, ghost w: Walked) returns (x: nat, ghost next: seq<int>)
    requires At(b, k, v, w) && k < 15 && 1 <= n <= 32 && PPS_FIELDS[k] == U(n)
    modifies b`pos, b`bad
    ensures At(b, k + 1, next, w) && next == (if b.bad then v else v + [x]) && (old(b.bad) ==> b.bad)
  {
    hide Walk;
    x, next := b.U(n, ListTable(PPS_FIELDS), v, w);
  }

  method NextSe(b: SpsBits, k: nat, ghost v: seq<int>, ghost w: Walked) returns (x: int, ghost next: seq<int>)
    requires At(b, k, v, w) && k < 15 && PPS_FIELDS[k] == SE
    modifies b`pos, b`bad
    ensures At(b, k + 1, next, w) && next == (if b.bad then v else v + [x]) && (old(b.bad) ==> b.bad)
  {
    hide Walk;
    x, next := b.Se(ListTable(PPS_FIELDS), v, w);
  }

  /** num_ref_idx_l0_default_active_minus1 on: read and ignored. */
  method SkipRest(b: SpsBits, ghost v0: seq<int>, ghost w: Walked) returns (ghost v: seq<int>)
    requires At(b, 5, v0, w)
    modifies b`pos, b`bad
    ensures At(b, 15, v, w) && (!b.bad ==> v0 <= v && !old(b.bad))
  {
    hide Walk, At;
    var x: nat;
    var y: int;
    x, v := NextUe(b, 5, v0, w);
    x, v := NextUe(b, 6, v, w);
    x, v := NextU(b, 1, 7, v, w);
    x, v := NextU(b, 2, 8, v, w);
    y, v := NextSe(b, 9, v, w);
    y, v := NextSe(b, 10, v, w);
    y, v := NextSe(b, 11, v, w);
    x, v := NextU(b, 1, 12, v, w);
    x, v := NextU(b, 1, 13, v, w);
    x, v := NextU(b, 1, 14, v, w);
  }

  /** pic_parameter_set_id to num_slice_groups_minus1. */
  method ReadGroups(b: SpsBits, ghost w: Walked)
    returns (ppsId: nat, spsId: nat, entropy: nat, sliceGroups: nat, ghost v: seq<int>)
    requires At(b, 0, [], w)
    modifies b`pos, b`bad
    ensures At(b, 5, v, w)
    ensures !b.bad ==> |v| == 5 && v[0] == ppsId && v[1] == spsId && v[2] == entropy && v[4] == sliceGroups
  {
    hide Walk, At;
    var x: nat;
    ppsId, v := NextUe(b, 0, [], w);
    spsId, v := NextUe(b, 1, v, w);
    entropy, v := NextU(b, 1, 2, v, w);
    x, v := NextU(b, 1, 3, v, w);
    sliceGroups, v := NextUe(b, 4, v, w);
  }

  /** The fifteen fields, and whether they are all there is. */
  method ReadPps(b: SpsBits, expectedSpsId: nat, ghost s: seq<bool>, ghost w: Walked)
    returns (good: bool, entropy: nat, ppsId: nat)
    requires b.Valid() && !b.bad && b.Rest() == s && w == Walk(ListTable(PPS_FIELDS), [], s)
    modifies b`pos, b`bad
    ensures good ==> exists v :: PpsSpelt(s, expectedSpsId, v) && v[2] == entropy && v[0] == ppsId
    ensures !good ==> forall v :: !PpsSpelt(s, expectedSpsId, v)
  {
    hide Walk, Codes, ListOk, PpsSpelt;
    var spsId, sliceGroups: nat;
    ghost var v: seq<int>;
    ppsId, spsId, entropy, sliceGroups, v := ReadGroups(b, w);
    v := SkipRest(b, v, w);
    good := !b.bad && ppsId <= 255 && spsId == expectedSpsId && sliceGroups == 0 && b.pos == b.bits;
    Judged(b, expectedSpsId, s, v, w);
  }

  /** What the fields read, or their lack, say of the payload. */
  lemma Judged(b: SpsBits, id: nat, s: seq<bool>, v: seq<int>, w: Walked)
    requires At(b, 15, v, w) && w == Walk(ListTable(PPS_FIELDS), [], s)
    ensures b.bad ==> forall u :: !PpsSpelt(s, id, u)
    ensures !b.bad && b.pos == b.bits && v[0] <= 255 && v[1] == id && v[4] == 0 ==> PpsSpelt(s, id, v)
    ensures !b.bad && !(b.pos == b.bits && v[0] <= 255 && v[1] == id && v[4] == 0) ==> forall u :: !PpsSpelt(s, id, u)
  {
    hide Walk, Codes, ListOk;
    PpsVerdict(s, id, w);
    if !b.bad {
      WalkEnds(ListTable(PPS_FIELDS), v, b.Rest());
      assert Codes(PPS_FIELDS, v, 0) + [] == Codes(PPS_FIELDS, v, 0);
    }
  }

  /** A payload is the codewords of some values exactly if the walk ends on its last bit. */
  lemma PpsVerdict(s: seq<bool>, id: nat, w: Walked)
    requires w == Walk(ListTable(PPS_FIELDS), [], s)
    ensures w.Done? ==> |w.vals| == 15 && s == Codes(PPS_FIELDS, w.vals, 0) + w.rest && ListOk(PPS_FIELDS, w.vals)
    ensures forall v :: PpsSpelt(s, id, v) ==> w == Done(v, [])
  {
    if w.Done? {
      ListWalked(PPS_FIELDS, s);
    }
    forall v | PpsSpelt(s, id, v)
      ensures w == Done(v, [])
    {
      ListRoundTrip(PPS_FIELDS, v, []);
      assert Codes(PPS_FIELDS, v, 0) + [] == s;
    }
  }

  // ----- picture parameter sets by their fields -----

  datatype PictureSet = PictureSet(
    id: nat, spsId: nat, entropy: bool, bottom: bool, groupsLess1: nat, refs0: nat, refs1: nat, weighted: bool,
    bipred: nat, qp: int, qs: int, chroma: int, deblocking: bool, intra: bool, redundant: bool)

  function Se(v: int): (s: seq<bool>) {
    CodeUE(if v > 0 then 2 * v - 1 else -2 * v)
  }

  /** Section 7.3.2.2 of H.264, written out. */
  function Spell(r: PictureSet): (s: seq<bool>) {
    CodeUE(r.id) + (CodeUE(r.spsId) + ([r.entropy] + ([r.bottom] + (CodeUE(r.groupsLess1) + SpellRest(r)))))
  }

  function SpellRest(r: PictureSet): (s: seq<bool>) {
    CodeUE(r.refs0) + (CodeUE(r.refs1) + ([r.weighted] + ([r.bipred / 2 == 1, r.bipred % 2 == 1] + (Se(r.qp)
    + (Se(r.qs) + (Se(r.chroma) + [r.deblocking, r.intra, r.redundant]))))))
  }

  predicate Legal(r: PictureSet) {
    && r.id < UE_LIMIT && r.spsId < UE_LIMIT && r.groupsLess1 < UE_LIMIT && r.refs0 < UE_LIMIT && r.refs1 < UE_LIMIT
    && r.bipred < 4 && SeFits(r.qp) && SeFits(r.qs) && SeFits(r.chroma)
  }

  predicate SeFits(v: int) {
    -0x3FFF_FFFF <= v <= 0x3FFF_FFFF
  }

  function Flag(b: bool): (v: int) {
    if b then 1 else 0
  }

  function Values(r: PictureSet): (v: seq<int>) {
    [r.id, r.spsId, Flag(r.entropy), Flag(r.bottom), r.groupsLess1, r.refs0, r.refs1, Flag(r.weighted), r.bipred,
     r.qp, r.qs, r.chroma, Flag(r.deblocking), Flag(r.intra), Flag(r.redundant)]
  }

  lemma FlagBits(b: bool)
    ensures FieldOk(U(1), Flag(b)) && Code(U(1), Flag(b)) == [b]
  {
    assert Pow2(1) == 2 && ToBits(0, 0) == [];
    assert ToBits(Flag(b), 1) == ToBits(Flag(b) / 2, 0) + [b];
  }

  lemma TwoBits(n: nat)
    requires n < 4
    ensures FieldOk(U(2), n) && Code(U(2), n) == [n / 2 == 1, n % 2 == 1]
  {
    assert Pow2(2) == 4 && ToBits(n / 4, 0) == [];
    assert ToBits(n, 2) == ToBits(n / 2, 1) + [n % 2 == 1] && ToBits(n / 2, 1) == [] + [n / 2 % 2 == 1];
  }

  lemma SeCode(v: int)
    requires SeFits(v)
    ensures FieldOk(SE, v) && Code(SE, v) == Se(v)
  {}

  lemma UeCode(v: nat)
    requires v < UE_LIMIT
    ensures FieldOk(UE, v) && Code(UE, v) == CodeUE(v)
  {}

  lemma SpeltRest(r: PictureSet)
    requires Legal(r)
    ensures Codes(PPS_FIELDS, Values(r), 5) == SpellRest(r)
    ensures forall i :: 5 <= i < 15 ==> FieldOk(PPS_FIELDS[i], Values(r)[i])
  {
    hide Code, CodeUE, Se, FieldOk, Codes, SeFits;
    var v := Values(r);
    SpeltFlags(r);
    UeCode(r.refs0);
    UeCode(r.refs1);
    FlagBits(r.weighted);
    TwoBits(r.bipred);
    SeCode(r.qp);
    SeCode(r.qs);
    SeCode(r.chroma);
    CodesStep(PPS_FIELDS, v, 5);
    CodesStep(PPS_FIELDS, v, 6);
    CodesStep(PPS_FIELDS, v, 7);
    CodesStep(PPS_FIELDS, v, 8);
    CodesStep(PPS_FIELDS, v, 9);
    CodesStep(PPS_FIELDS, v, 10);
    CodesStep(PPS_FIELDS, v, 11);
  }

  lemma SpeltFlags(r: PictureSet)
    ensures Codes(PPS_FIELDS, Values(r), 12) == [r.deblocking, r.intra, r.redundant]
    ensures forall i :: 12 <= i < 15 ==> FieldOk(PPS_FIELDS[i], Values(r)[i])
  {
    hide Code, FieldOk, Codes;
    var v := Values(r);
    FlagBits(r.deblocking);
    FlagBits(r.intra);
    FlagBits(r.redundant);
    CodesStep(PPS_FIELDS, v, 12);
    CodesStep(PPS_FIELDS, v, 13);
    CodesStep(PPS_FIELDS, v, 14);
    CodesEnd(PPS_FIELDS, v, 15);
    assert [r.deblocking] + ([r.intra] + ([r.redundant] + [])) == [r.deblocking, r.intra, r.redundant];
  }

  lemma SpeltCodes(r: PictureSet)
    requires Legal(r)
    ensures ListOk(PPS_FIELDS, Values(r)) && Codes(PPS_FIELDS, Values(r), 0) == Spell(r)
  {
    hide Code, CodeUE, FieldOk, Codes, SpellRest, SeFits;
    var v := Values(r);
    SpeltRest(r);
    UeCode(r.id);
    UeCode(r.spsId);
    FlagBits(r.entropy);
    FlagBits(r.bottom);
    UeCode(r.groupsLess1);
    CodesStep(PPS_FIELDS, v, 0);
    CodesStep(PPS_FIELDS, v, 1);
    CodesStep(PPS_FIELDS, v, 2);
    CodesStep(PPS_FIELDS, v, 3);
    CodesStep(PPS_FIELDS, v, 4);
  }

  /** A payload that spells a record is Main for `id` exactly if the record is, and is that record only. */
  lemma MainSpelt(nal: seq<byte>, id: nat, r: PictureSet, v: seq<int>)
    requires Legal(r) && Loads(nal, 8) && Payload(nal) == Spell(r)
    ensures MainPps(nal, id, v) <==> v == Values(r) && r.id <= 255 && r.spsId == id && r.groupsLess1 == 0
  {
    hide Walk, Spell, Legal, Codes, ListOk, Loads, Payload;
    SpeltCodes(r);
    ListRoundTrip(PPS_FIELDS, Values(r), []);
    assert Spell(r) + [] == Spell(r);
    PpsVerdict(Payload(nal), id, Walk(ListTable(PPS_FIELDS), [], Payload(nal)));
  }

  lemma Ranges(v: seq<int>)
    requires ListOk(PPS_FIELDS, v)
    ensures |v| == 15 && forall i | 0 <= i < 15 ::
      match PPS_FIELDS[i]
      case U(n) => 0 <= v[i] < (if n == 1 then 2 else 4)
      case UE => 0 <= v[i] < UE_LIMIT
      case SE => SeFits(v[i])
  {
    assert Pow2(1) == 2 && Pow2(2) == 4;
  }

  /** Every Main payload spells a record. */
  lemma SpeltMain(nal: seq<byte>, id: nat, v: seq<int>) returns (r: PictureSet)
    requires MainPps(nal, id, v)
    ensures Legal(r) && v == Values(r) && Payload(nal) == Spell(r)
  {
    hide Spell, Payload, Codes, Loads;
    Ranges(v);
    r := PictureSet(v[0], v[1], v[2] == 1, v[3] == 1, v[4], v[5], v[6], v[7] == 1, v[8], v[9], v[10], v[11],
                    v[12] == 1, v[13] == 1, v[14] == 1);
    assert v == Values(r);
    SpeltCodes(r);
  }
}
