/**
 The parity cache after a long silence. When between 2^31 and 2^32 microseconds pass without a packet,
 the comparison of times calls the newest block the oldest one.
 */
module FecSilence {
  import opened AudioUnits
  import opened Syntax
  import opened ReedSolomon
  import opened Fec
  import opened FecRecovery
  import opened FecWindow

  /** Among blocks in use, the one whose last use compares as earlier than every other's is taken. */
  lemma {:induction false} VictimIs(bs: seq<Block>, i: nat, pick: int, k: nat)
    requires i <= |bs| && -1 <= pick < i && k < |bs| && (i <= k || pick == k)
    requires forall j :: 0 <= j < |bs| ==> bs[j].valid
    requires forall j :: 0 <= j < |bs| && j != k ==> Earlier(bs[k].used, bs[j].used)
    ensures Victim(bs, i, pick) == k
    decreases |bs| - i
  {
    hide Earlier;
    if i < |bs| {
      if pick == k {
        NotBoth(bs[k].used, bs[i].used);
        VictimIs(bs, i + 1, k, k);
      } else if i == k {
        VictimIs(bs, i + 1, k, k);
      } else {
        VictimIs(bs, i + 1, if pick < 0 || Earlier(bs[i].used, bs[pick].used) then i else pick, k);
      }
    }
  }

  lemma NotBoth(a: nat, b: nat)
    ensures !(Earlier(a, b) && Earlier(b, a))
  {
    hide Earlier;
    EarlierExact(a, b);
    EarlierExact(b, a);
    Negated(b - a);
  }

  lemma Negated(d: int)
    ensures (-d) % WRAP == if d % WRAP == 0 then 0 else WRAP - d % WRAP
  {
    var r := d % WRAP;
    assert -d == -r + WRAP * -(d / WRAP);
    ModShift(-r, -(d / WRAP));
  }

  /** Time `t` is 2^31 to 2^32 microseconds after `u`, modulo 2^32. */
  ghost predicate LongAfter(t: nat, u: nat) {
    (t - u) % WRAP > 0x8000_0000
  }

  /** If every other block was last used that long before the newest, the newest is taken. */
  lemma NewestIsVictim(bs: seq<Block>, k: nat)
    requires k < |bs| && forall j :: 0 <= j < |bs| ==> bs[j].valid
    requires forall j :: 0 <= j < |bs| && j != k ==> LongAfter(bs[k].used, bs[j].used)
    ensures Victim(bs, 0, -1) == k
  {
    hide Earlier;
    forall j | 0 <= j < |bs| && j != k
      ensures Earlier(bs[k].used, bs[j].used)
    {
      EarlierExact(bs[k].used, bs[j].used);
      Negated(bs[k].used - bs[j].used);
    }
    VictimIs(bs, 0, -1, k);
  }

  /** Seven blocks from before a silence, and one, at `k`, from after it. */
  ghost predicate Stuck(bs: seq<Block>, k: nat) {
    && |bs| == BLOCKS && Sound(bs) && k < BLOCKS
    && (forall j :: 0 <= j < BLOCKS ==> bs[j].valid)
    && forall j :: 0 <= j < BLOCKS && j != k ==> LongAfter(bs[k].used, bs[j].used)
  }

  /** The operation brings a packet that the cache takes in. */
  ghost predicate Stores(op: Op) {
    ArrivalOf(op).Some? && SizeOk(ArrivalOf(op).value.key)
  }

  /** The time is long after every block but `k`, and none of those is of the group. */
  ghost predicate Apart(a: Arrival, bs: seq<Block>, k: nat) {
    forall j :: 0 <= j < |bs| && j != k ==> LongAfter(a.now, bs[j].used) && !Holds(bs[j], a.key.base)
  }

  /** A packet, if any, comes after the silence and is of a group that has no block from before it. */
  ghost predicate Past(op: Op, bs: seq<Block>, k: nat) {
    Stores(op) ==> Apart(ArrivalOf(op).value, bs, k)
  }

  /** Such a packet takes the one block there is after the silence, whoever has it. */
  lemma TakesTheOne(bs: seq<Block>, k: nat, a: Arrival)
    requires Stuck(bs, k) && SizeOk(a.key) && Apart(a, bs, k) && a.key.base % DATA == 0
    ensures var q := Acquire(bs, a.key, a.ts, a.now);
            && q.at == k && Stuck(q.blocks, k) && Holds(q.blocks[k], a.key.base)
            && forall j :: 0 <= j < |bs| && j != k ==> q.blocks[j] == bs[j]
  {
    hide LongAfter;
    AcquireSound(bs, a.key, a.ts, a.now);
    var j := Lookup(bs, a.key.base, 0);
    if j == |bs| {
      NewestIsVictim(bs, k);
    } else {
      assert j == k;
      VictimFree(Cleared(bs, a.key), 0, -1, k);
    }
  }

  lemma ArrivedStuck(bs: seq<Block>, k: nat, op: Op)
    requires Stuck(bs, k) && Past(op, bs, k) && Stores(op)
    ensures var cs := Arrived(bs, ArrivalOf(op).value);
            && Stuck(cs, k) && Holds(cs[k], ArrivalOf(op).value.key.base)
            && forall j :: 0 <= j < |bs| && j != k ==> cs[j] == bs[j]
  {
    hide ArrivalOf, Acquire, Unique, LongAfter;
    ArrivalBase(op);
    var a := ArrivalOf(op).value;
    TakesTheOne(bs, k, a);
    ArrivedSound(bs, a);
  }

  /** One step after the silence: the old blocks stay, and the one new block is the last arrival's. */
  ghost predicate Kept(bs: seq<Block>, cs: seq<Block>, k: nat) {
    |bs| == |cs| && forall j :: 0 <= j < |bs| && j != k ==> SameUse(bs[j], cs[j])
  }

  lemma ApplyStuck(code: Code, bs: seq<Block>, k: nat, op: Op)
    requires Stuck(bs, k) && Past(op, bs, k)
    ensures Stuck(Apply(code, bs, op), k) && Kept(bs, Apply(code, bs, op), k)
    ensures Stores(op) ==> Holds(Apply(code, bs, op)[k], ArrivalOf(op).value.key.base)
    ensures !Stores(op) ==> SameUse(bs[k], Apply(code, bs, op)[k])
  {
    hide ArrivalOf, Arrived, Recover, Unique, LongAfter, Past, SizeOk;
    ApplySound(code, bs, op);
    match ArrivalOf(op)
    case Some(a) =>
      if SizeOk(a.key) {
        ArrivedStuck(bs, k, op);
      } else {
        RefusedSize(bs, a);
      }
    case None =>
      if op.Lost? {
        RecoverAging(code, bs, op.n);
      }
  }

  ghost predicate AllPast(ops: seq<Op>, bs: seq<Block>, k: nat) {
    forall i :: 0 <= i < |ops| ==> Past(ops[i], bs, k)
  }

  lemma KeptPast(ops: seq<Op>, bs: seq<Block>, cs: seq<Block>, k: nat)
    requires AllPast(ops, bs, k) && Kept(bs, cs, k)
    ensures AllPast(ops, cs, k)
  {
    hide ArrivalOf, LongAfter, SizeOk;
    forall i | 0 <= i < |ops|
      ensures Past(ops[i], cs, k)
    {
      assert Past(ops[i], bs, k);
    }
  }

  /**
   However many groups send after the silence, the seven blocks from before it are never given up: they
   outlive eight and more other groups.
   */
  lemma {:induction false} OldOutliveAll(code: Code, bs: seq<Block>, k: nat, ops: seq<Op>)
    requires Stuck(bs, k) && AllPast(ops, bs, k)
    ensures Stuck(Run(code, bs, ops), k) && Kept(bs, Run(code, bs, ops), k)
    decreases |ops|
  {
    hide Apply, Stuck, Past;
    if |ops| > 0 {
      var cs := Apply(code, bs, ops[0]);
      ApplyStuck(code, bs, k, ops[0]);
      KeptPast(ops[1..], bs, cs, k);
      OldOutliveAll(code, cs, k, ops[1..]);
    }
  }

  /**
   A group of which any packets have arrived after the silence is lost as soon as a packet of another
   group arrives.
   */
  lemma LostToTheNext(code: Code, bs: seq<Block>, k: nat, ops: seq<Op>, last: Op, n: nat)
    requires Stuck(bs, k) && AllPast(ops, bs, k) && Past(last, bs, k)
    requires Stores(last) && ArrivalOf(last).value.key.base != WireBase(n / DATA)
    requires forall j :: 0 <= j < |bs| && j != k ==> !Holds(bs[j], WireBase(n / DATA))
    ensures Recover(code, Run(code, bs, ops + [last]), n).payload == None
  {
    hide Apply, Run, ArrivalOf, Completed, Unique, LongAfter, SizeOk;
    WireIs(n);
    OldOutliveAll(code, bs, k, ops);
    var cs := Run(code, bs, ops);
    RunConcat(code, bs, ops, [last]);
    RunStep(code, cs, [last]);
    KeptPast([last], bs, cs, k) by {
      assert AllPast([last], bs, k);
    }
    assert Past([last][0], cs, k);
    ApplyStuck(code, cs, k, last);
    var ds := Apply(code, cs, last);
    forall j | 0 <= j < |ds|
      ensures !Holds(ds[j], WireBase(n / DATA))
    {
      if j != k {
        assert SameUse(bs[j], cs[j]) && SameUse(cs[j], ds[j]);
      }
    }
  }

  // ----- a run that gets there -----

  /** One-byte packets, the first of each of `n` groups, at times 1 to `n`. */
  function Early(x: Octet, n: nat): (ops: seq<Op>)
    ensures |ops| == n
  {
    seq(n, i requires 0 <= i < n => Small(DATA * i, x, i + 1))
  }

  ghost predicate EarlyBlock(b: Block, i: nat) {
    b.valid && b.key == Key(DATA * i, 1, PT_OPUS, 1) && b.used == i + 1
  }

  ghost predicate EarlyBlocks(bs: seq<Block>, n: nat) {
    && |bs| == BLOCKS && Sound(bs)
    && forall i :: 0 <= i < BLOCKS ==> if i < n then EarlyBlock(bs[i], i) else !bs[i].valid
  }

  lemma SmallArrival(n: nat, x: Octet, now: nat)
    requires n < CYCLE
    ensures ArrivalOf(Small(n, x, now)).Some?
    ensures var a := ArrivalOf(Small(n, x, now)).value;
            a.key == Key(n - n % DATA, 1, PT_OPUS, 1) && a.now == now && a.i == n % DATA && SizeOk(a.key)
  {}

  /** A packet of a new group, while blocks are free or times are close, takes the block it should. */
  lemma EarlyStep(code: Code, bs: seq<Block>, n: nat, x: Octet)
    requires n < BLOCKS && EarlyBlocks(bs, n)
    ensures EarlyBlocks(Apply(code, bs, Small(DATA * n, x, n + 1)), n + 1)
  {
    hide ArrivalOf, Acquire, Unique;
    var op := Small(DATA * n, x, n + 1);
    SmallArrival(DATA * n, x, n + 1);
    ApplySound(code, bs, op);
    var a := ArrivalOf(op).value;
    LeastRecentlyUsed(bs, a.key, a.ts, a.now, 1);
    var k := Acquire(bs, a.key, a.ts, a.now).at;
    assert !bs[BLOCKS - 1].valid && !bs[n].valid;
    assert k == n;
  }

  lemma {:induction false} EarlyRun(code: Code, x: Octet, n: nat)
    requires n <= BLOCKS
    ensures EarlyBlocks(Run(code, Empty(), Early(x, n)), n)
  {
    hide Apply, Sound;
    if n == 0 {
      EmptySound();
      assert Early(x, 0) == [];
    } else {
      EarlyRun(code, x, n - 1);
      var last := Small(DATA * (n - 1), x, n);
      assert Early(x, n) == Early(x, n - 1) + [last];
      RunConcat(code, Empty(), Early(x, n - 1), [last]);
      RunStep(code, Run(code, Empty(), Early(x, n - 1)), [last]);
      EarlyStep(code, Run(code, Empty(), Early(x, n - 1)), n - 1, x);
    }
  }

  const LATE: nat := 0x9000_0000

  /** The first packet after the silence rightly takes the oldest block, and becomes the newest. */
  lemma FirstLate(code: Code, bs: seq<Block>, x: Octet)
    requires EarlyBlocks(bs, BLOCKS)
    ensures var cs := Apply(code, bs, Small(DATA * BLOCKS, x, LATE));
            Stuck(cs, 0) && forall j :: 0 < j < BLOCKS ==> cs[j] == bs[j]
  {
    hide ArrivalOf, Acquire, Unique;
    var op := Small(DATA * BLOCKS, x, LATE);
    SmallArrival(DATA * BLOCKS, x, LATE);
    ApplySound(code, bs, op);
    var a := ArrivalOf(op).value;
    assert forall k :: 0 <= k < BLOCKS ==> EarlyBlock(bs[k], k);
    LeastRecentlyUsed(bs, a.key, a.ts, a.now, 1);
    var k := Acquire(bs, a.key, a.ts, a.now).at;
    assert EarlyBlock(bs[0], 0) && EarlyBlock(bs[k], k);
  }

  /** Eight groups, a silence of about 40 minutes, and a ninth. */
  function Silenced(x: Octet): (ops: seq<Op>) {
    Early(x, BLOCKS) + [Small(DATA * BLOCKS, x, LATE)]
  }

  lemma SilencedRun(code: Code, x: Octet)
    ensures var bs := Run(code, Empty(), Silenced(x));
            Stuck(bs, 0) && forall j :: 0 < j < BLOCKS ==> EarlyBlock(bs[j], j)
  {
    hide Apply, Stuck, Sound;
    EarlyRun(code, x, BLOCKS);
    var bs := Run(code, Empty(), Early(x, BLOCKS));
    var op := Small(DATA * BLOCKS, x, LATE);
    RunConcat(code, Empty(), Early(x, BLOCKS), [op]);
    RunStep(code, bs, [op]);
    FirstLate(code, bs, x);
  }

  /** All four data packets of group 9, alternating with those of group 10. */
  function Alternating(x: Octet): (ops: seq<Op>) {
    [Small(36, x, LATE + 1), Small(40, x, LATE + 2), Small(37, x, LATE + 3), Small(41, x, LATE + 4),
     Small(38, x, LATE + 5), Small(42, x, LATE + 6), Small(39, x, LATE + 7)]
  }

  /**
   From an empty cache: after the silence every data packet of group 9 arrives, one other group is in use,
   and none of its payloads can be had, while seven groups from before the silence keep their blocks.
   */
  lemma FourLost(code: Code, x: Octet, n: nat)
    requires 36 <= n < 40
    ensures var bs := Run(code, Empty(), Silenced(x) + (Alternating(x) + [Small(43, x, LATE + 8)]));
            && Recover(code, bs, n).payload == None && |bs| == BLOCKS
            && forall j :: 0 < j < BLOCKS ==> Holds(bs[j], DATA * j)
  {
    hide Run, Apply, Recover, Sound;
    var bs := Run(code, Empty(), Silenced(x));
    SilencedRun(code, x);
    var ops, last := Alternating(x), Small(43, x, LATE + 8);
    AlternatingPast(bs, x);
    SmallArrival(43, x, LATE + 8);
    LostToTheNext(code, bs, 0, ops, last, n);
    RunConcat(code, Empty(), Silenced(x), ops + [last]);
    AllPastAppend(ops, last, bs);
    OldOutliveAll(code, bs, 0, ops + [last]);
    forall j | 0 < j < BLOCKS
      ensures Holds(Run(code, bs, ops + [last])[j], DATA * j)
    {
      assert EarlyBlock(bs[j], j) && SameUse(bs[j], Run(code, bs, ops + [last])[j]);
    }
  }

  lemma AllPastAppend(ops: seq<Op>, last: Op, bs: seq<Block>)
    requires AllPast(ops, bs, 0) && Past(last, bs, 0)
    ensures AllPast(ops + [last], bs, 0)
  {
    hide ArrivalOf;
  }

  lemma SmallPast(bs: seq<Block>, n: nat, x: Octet, now: nat)
    requires |bs| == BLOCKS && (forall j :: 0 < j < BLOCKS ==> EarlyBlock(bs[j], j)) && 32 <= n < CYCLE
    requires LATE <= now < WRAP
    ensures Past(Small(n, x, now), bs, 0)
  {
    hide ArrivalOf;
    SmallArrival(n, x, now);
  }

  lemma AlternatingPast(bs: seq<Block>, x: Octet)
    requires |bs| == BLOCKS && forall j :: 0 < j < BLOCKS ==> EarlyBlock(bs[j], j)
    ensures AllPast(Alternating(x), bs, 0) && Past(Small(43, x, LATE + 8), bs, 0)
  {
    hide ArrivalOf, Past;
    SmallPast(bs, 36, x, LATE + 1);
    SmallPast(bs, 40, x, LATE + 2);
    SmallPast(bs, 37, x, LATE + 3);
    SmallPast(bs, 41, x, LATE + 4);
    SmallPast(bs, 38, x, LATE + 5);
    SmallPast(bs, 42, x, LATE + 6);
    SmallPast(bs, 39, x, LATE + 7);
    SmallPast(bs, 43, x, LATE + 8);
  }
}
