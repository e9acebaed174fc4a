/**
 The audio parity cache: eight blocks of four data and two parity shards, found by the 16-bit sequence
 number of their first packet, filled as packets arrive, and completed by Reed-Solomon when a packet
 is lost.
 */
module Fec {
  import opened AudioUnits
  import opened Bits
  import opened Syntax
  import opened ReedSolomon

  const BLOCKS: nat := 8
  const PAYLOAD_MAX: nat := 1400
  const HEADER: nat := 12
  const PT_OPUS: nat := 97
  /** Sequence numbers are 16 bits wide. */
  const CYCLE: nat := 0x1_0000

  /** What must agree for a packet to join a block. */
  datatype Key = Key(base: nat, ssrc: nat, kind: nat, size: nat)

  /**
   Where a shard came from, by full group number: a packet of the group, or the elimination over shards
   of the groups given.
   */
  datatype Origin = Packet(group: nat) | Solved(groups: seq<nat>, from: seq<bool>)

  /**
   `used` is the time of last use, of which the source keeps the low 32 bits. `origin` only records.
   */
  datatype Block = Block(
    valid: bool, key: Key, ts: nat, used: nat,
    present: seq<bool>, shards: seq<Shard>, origin: seq<Origin>)

  /** `seq & ~3`. */
  function BaseOf(wire: nat): (b: nat) {
    wire - wire % DATA
  }

  /** Packet `n` since the stream began belongs to group `n / 4`; both wrap on the wire. */
  function WireBase(group: nat): (b: nat) {
    DATA * group % CYCLE
  }

  lemma WireIs(n: nat)
    ensures BaseOf(n % CYCLE) == WireBase(n / DATA) && n % CYCLE % DATA == n % DATA && WireBase(n / DATA) % DATA == 0
  {
    var q, r := n / CYCLE, n % CYCLE;
    assert n == CYCLE * q + r && CYCLE * q == DATA * (0x4000 * q);
    assert n / DATA == 0x4000 * q + r / DATA;
    assert DATA * (n / DATA) == CYCLE * q + DATA * (r / DATA);
    assert DATA * (r / DATA) == r - r % DATA;
  }

  predicate Holds(b: Block, base: nat) {
    b.valid && b.key.base == base
  }

  /** The first block of `base` from `i` on. */
  function Lookup(bs: seq<Block>, base: nat, i: nat): (k: nat)
    requires i <= |bs|
    ensures i <= k <= |bs| && (k < |bs| ==> Holds(bs[k], base))
    ensures forall j :: i <= j < k ==> !Holds(bs[j], base)
    decreases |bs| - i
  {
    if i == |bs| || Holds(bs[i], base) then i else Lookup(bs, base, i + 1)
  }

  /** Used before `oldest`, as 32-bit times compare. */
  predicate Earlier(used: nat, oldest: nat) {
    (used % WRAP - oldest % WRAP) % WRAP > 0x8000_0000
  }

  /** The block to reuse, `pick` (if any) being the best of those before `i`. */
  function Victim(bs: seq<Block>, i: nat, pick: int): (k: int)
    requires i <= |bs| && -1 <= pick < i
    ensures -1 <= k < |bs| && (|bs| > 0 ==> i < |bs| || pick >= 0 ==> k >= 0)
    decreases |bs| - i
  {
    if i == |bs| then pick
    else if !bs[i].valid then i
    else if pick < 0 || Earlier(bs[i].used, bs[pick].used) then Victim(bs, i + 1, i)
    else Victim(bs, i + 1, pick)
  }

  function Absent(): (p: seq<bool>)
    ensures |p| == SHARDS && forall i :: 0 <= i < SHARDS ==> !p[i]
  {
    Zeros(SHARDS)
  }

  /** A packet as the cache takes it: its block's key and time stamp, and the shard it brings. */
  datatype Arrival = Arrival(key: Key, ts: nat, now: nat, i: nat, payload: Shard, group: nat)

  datatype Acquired = Acquired(at: int, blocks: seq<Block>)

  /** A block of the same base that the packet does not fit is dropped. */
  function Cleared(bs: seq<Block>, key: Key): (r: seq<Block>)
    ensures |r| == |bs|
  {
    var j := Lookup(bs, key.base, 0);
    if j < |bs| then bs[j := bs[j].(valid := false)] else bs
  }

  predicate SizeOk(key: Key) {
    0 < key.size <= PAYLOAD_MAX
  }

  function NewBlock(old_: Block, key: Key, ts: nat, now: nat): (b: Block) {
    Block(true, key, ts, now, Absent(), old_.shards, old_.origin)
  }

  /** The block of `key`, found or made; index -1 when the size is out of range. */
  function Acquire(bs: seq<Block>, key: Key, ts: nat, now: nat): (r: Acquired)
    ensures |r.blocks| == |bs| && -1 <= r.at < |bs|
  {
    if !SizeOk(key) then Acquired(-1, bs) else
      var j := Lookup(bs, key.base, 0);
      if j < |bs| && bs[j].key == key then Acquired(j, bs[j := bs[j].(used := now)]) else
        var cleared := Cleared(bs, key);
        var k := Victim(cleared, 0, -1);
        if k < 0 then Acquired(-1, cleared)
        else Acquired(k, cleared[k := NewBlock(cleared[k], key, ts, now)])
  }

  function WithShard(b: Block, i: nat, payload: Shard, group: nat): (r: Block)
    requires i < |b.present| && i < |b.shards| && i < |b.origin|
  {
    b.(present := b.present[i := true], shards := b.shards[i := payload], origin := b.origin[i := Packet(group)])
  }

  /** Shard `i` of block `k` is written unless it is there already. */
  function Stored(bs: seq<Block>, k: int, i: nat, payload: Shard, group: nat): (r: seq<Block>)
    ensures |r| == |bs|
  {
    if 0 <= k < |bs| && i < |bs[k].present| && i < |bs[k].shards| && i < |bs[k].origin| && !bs[k].present[i] then
      bs[k := WithShard(bs[k], i, payload, group)]
    else bs
  }

  function Arrived(bs: seq<Block>, a: Arrival): (r: seq<Block>)
    ensures |r| == |bs|
  {
    var q := Acquire(bs, a.key, a.ts, a.now);
    Stored(q.blocks, q.at, a.i, a.payload, a.group)
  }

  function Count(p: seq<bool>): (n: nat)
    ensures n <= |p|
  {
    if |p| == 0 then 0 else Count(p[..|p| - 1]) + if p[|p| - 1] then 1 else 0
  }

  predicate DataWhole(p: seq<bool>) {
    forall i :: 0 <= i < DATA && i < |p| ==> p[i]
  }

  /** Bytes, marks and records have six places. */
  predicate Sized(b: Block) {
    |b.present| == SHARDS && |b.shards| == SHARDS && |b.origin| == SHARDS
  }

  function GroupOf(o: Origin): (g: nat) {
    if o.Packet? then o.group else 0
  }

  function Groups(b: Block): (gs: seq<nat>)
    ensures |gs| == |b.origin|
  {
    seq(|b.origin|, i requires 0 <= i < |b.origin| => GroupOf(b.origin[i]))
  }

  /** The first `n` data shards are there, the missing ones reconstructed. */
  function Filled(code: Code, b: Block, n: nat): (r: Block)
    requires Sized(b) && n <= DATA
    ensures Sized(r)
  {
    b.(present := seq(SHARDS, i requires 0 <= i < SHARDS => i < n || b.present[i]),
       shards := seq(SHARDS, i requires 0 <= i < SHARDS =>
         if i < n then Reconstruct(code, b.shards, b.present, b.key.size, i) else b.shards[i]),
       origin := seq(SHARDS, i requires 0 <= i < SHARDS =>
         if i < n && !b.present[i] then Solved(Groups(b), b.present) else b.origin[i]))
  }

  /** A block with every data shard in place. */
  function Completed(code: Code, b: Block): (r: Option<Block>) {
    if !Sized(b) || DataWhole(b.present) then Some(b)
    else if Count(b.present) < DATA then None
    else Some(Filled(code, b, DATA))
  }

  /** The first `size` bytes of a shard. */
  function Take(s: Shard, size: nat): (r: Shard) {
    if size <= |s| then s[..size] else s
  }

  datatype Recovered = Recovered(payload: Option<Shard>, blocks: seq<Block>)

  /** Recovery of packet `n`, of which the source sees the low 16 bits. */
  function Recover(code: Code, bs: seq<Block>, n: nat): (r: Recovered)
    ensures |r.blocks| == |bs|
  {
    var wire := n % CYCLE;
    var k := Lookup(bs, BaseOf(wire), 0);
    if k == |bs| then Recovered(None, bs) else
      match Completed(code, bs[k])
      case None => Recovered(None, bs)
      case Some(b) =>
        var pos := wire % DATA;
        if pos < |b.shards| then Recovered(Some(Take(b.shards[pos], b.key.size)), bs[k := b])
        else Recovered(None, bs[k := b])
  }

  /** A parity packet's header: twelve bytes, numbers big-endian. */
  function ParityBase(head: seq<byte>): (b: nat)
    requires |head| >= HEADER
  {
    head[2] as int * 256 + head[3]
  }

  function Word32(head: seq<byte>, i: nat): (v: nat)
    requires i + 4 <= |head|
  {
    FromBe32(head[i..i + 4])
  }

  predicate ParityOk(head: seq<byte>) {
    |head| >= HEADER && head[0] < PARITY && head[1] == PT_OPUS && ParityBase(head) % DATA == 0
  }

  /** Samples per packet; a duration outside 5..60 ms counts as 10. */
  function StepSamples(ms: int): (n: nat) {
    48 * (if ms < 5 || ms > 60 then 10 else ms)
  }

  /**
   Data packet `n` since the stream began; a parity packet, header and body, sent for `group`; a
   recovery of packet `n`.
   */
  datatype Op =
    | Data(n: nat, ts: nat, ssrc: nat, payload: Shard, ms: int, now: nat)
    | Parity(head: seq<byte>, body: Shard, group: nat, now: nat)
    | Lost(n: nat)

  /** What a packet brings to the cache, if anything. */
  function ArrivalOf(op: Op): (a: Option<Arrival>) {
    match op
    case Data(n, ts, ssrc, payload, ms, now) =>
      var wire := n % CYCLE;
      Some(Arrival(Key(BaseOf(wire), ssrc, PT_OPUS, |payload|), (ts - wire % DATA * StepSamples(ms)) % WRAP, now,
                   wire % DATA, payload, n / DATA))
    case Parity(head, body, group, now) =>
      if !ParityOk(head) then None else
        Some(Arrival(Key(ParityBase(head), Word32(head, 8), PT_OPUS, |body|), Word32(head, 4), now,
                     DATA + head[0], body, group))
    case Lost(_) => None
  }

  function Apply(code: Code, bs: seq<Block>, op: Op): (r: seq<Block>)
    ensures |r| == |bs|
  {
    match ArrivalOf(op)
    case Some(a) => Arrived(bs, a)
    case None => if op.Lost? then Recover(code, bs, op.n).blocks else bs
  }

  function Run(code: Code, bs: seq<Block>, ops: seq<Op>): (r: seq<Block>)
    decreases |ops|
  {
    if |ops| == 0 then bs else Run(code, Apply(code, bs, ops[0]), ops[1..])
  }

  function Empty(): (bs: seq<Block>)
    ensures |bs| == BLOCKS
  {
    seq(BLOCKS, _ => Block(false, Key(0, 0, 0, 0), 0, 0, Absent(), seq(SHARDS, _ => []), seq(SHARDS, _ => Packet(0))))
  }

  lemma {:induction false} RunConcat(code: Code, bs: seq<Block>, a: seq<Op>, b: seq<Op>)
    ensures Run(code, bs, a + b) == Run(code, Run(code, bs, a), b)
    decreases |a|
  {
    hide Apply;
    if |a| == 0 {
      assert a + b == b;
    } else {
      assert (a + b)[1..] == a[1..] + b;
      RunConcat(code, Apply(code, bs, a[0]), a[1..], b);
    }
  }

  // ----- packets as they are sent -----

  /** The header of parity packet `i` of the group whose first packet has number `base`. */
  function PrintHead(i: byte, base: nat, ts: nat, ssrc: nat): (head: seq<byte>)
    requires base < CYCLE && ts < WRAP && ssrc < WRAP
    ensures |head| == HEADER
  {
    [i, 97, base / 0x100, base % 0x100] + Be32(ts) + Be32(ssrc)
  }

  /** Too short, no such parity shard, another payload type, or not the start of a group. */
  predicate Malformed(head: seq<byte>) {
    |head| < 12 || head[0] >= 2 || head[1] != 97 || head[3] % 4 != 0
  }

  lemma MalformedExactly(head: seq<byte>)
    ensures ParityOk(head) <==> !Malformed(head)
  {
    if |head| >= 12 {
      assert ParityBase(head) == DATA * (64 * (head[2] as int)) + head[3];
    }
  }

  lemma WordBytes(v: nat, a: seq<byte>, b: seq<byte>)
    requires v < WRAP
    ensures Word32(a + Be32(v) + b, |a|) == v
  {
    hide Be32, FromBe32;
    assert (a + Be32(v) + b)[|a|..|a| + 4] == Be32(v) + [];
    Be32RoundTrip(v, []);
  }

  /** A printed header is taken in with the numbers it was printed from. */
  lemma PrintedArrival(i: byte, base: nat, ts: nat, ssrc: nat, body: Shard, group: nat, now: nat)
    requires i < PARITY && base < CYCLE && base % DATA == 0 && ts < WRAP && ssrc < WRAP
    ensures ArrivalOf(Parity(PrintHead(i, base, ts, ssrc), body, group, now))
         == Some(Arrival(Key(base, ssrc, 97, |body|), ts, now, DATA + i, body, group))
  {
    hide Word32;
    var front: seq<byte> := [i, 97, base / 0x100, base % 0x100];
    var head := PrintHead(i, base, ts, ssrc);
    assert head == front + Be32(ts) + Be32(ssrc);
    WordBytes(ts, front, Be32(ssrc));
    WordBytes(ssrc, front + Be32(ts), []);
    assert front + Be32(ts) + Be32(ssrc) + [] == head;
  }

  /** Whatever header is taken in was printed from the numbers taken. */
  lemma ArrivalPrinted(head: seq<byte>, body: Shard, group: nat, now: nat)
    requires |head| == HEADER && ArrivalOf(Parity(head, body, group, now)).Some?
    ensures var a := ArrivalOf(Parity(head, body, group, now)).value;
            && a.key.base < CYCLE && a.ts < WRAP && a.key.ssrc < WRAP && DATA <= a.i < SHARDS
            && head == PrintHead(a.i - DATA, a.key.base, a.ts, a.key.ssrc)
  {
    hide Be32, FromBe32;
    FromBe32RoundTrip(head[4..8]);
    FromBe32RoundTrip(head[8..12]);
    assert head == head[..4] + head[4..8] + head[8..12];
  }

  /** A data packet is taken in under its group's first number, with that packet's time stamp. */
  lemma DataArrival(n: nat, ts: nat, ssrc: nat, payload: Shard, ms: int, now: nat)
    ensures ArrivalOf(Data(n, ts, ssrc, payload, ms, now)).Some?
    ensures var a := ArrivalOf(Data(n, ts, ssrc, payload, ms, now)).value;
            && a == Arrival(Key(4 * (n / 4) % 0x1_0000, ssrc, 97, |payload|), a.ts, now, n % 4, payload, n / 4)
            && a.ts < WRAP && (a.ts + n % 4 * (if 5 <= ms <= 60 then 48 * ms else 480)) % WRAP == ts % WRAP
  {
    WireIs(n);
    var step := n % 4 * (if 5 <= ms <= 60 then 48 * ms else 480);
    ModShift(ts, -((ts - step) / WRAP));
  }

  // ----- invariants -----

  ghost predicate Shaped(b: Block) {
    Sized(b) && b.key.base % DATA == 0
  }

  ghost predicate AllShaped(bs: seq<Block>) {
    forall k :: 0 <= k < |bs| ==> Shaped(bs[k])
  }

  /** At most one valid block per base. */
  ghost predicate Unique(bs: seq<Block>) {
    forall j, k :: 0 <= j < k < |bs| && bs[j].valid && bs[k].valid ==> bs[j].key.base != bs[k].key.base
  }

  ghost predicate Sound(bs: seq<Block>) {
    AllShaped(bs) && Unique(bs)
  }

  lemma ArrivalBase(op: Op)
    ensures ArrivalOf(op).Some? ==> ArrivalOf(op).value.key.base % DATA == 0 && ArrivalOf(op).value.i < SHARDS
  {
    if op.Data? {
      WireIs(op.n);
    }
  }

  lemma ClearedSound(bs: seq<Block>, key: Key)
    requires Sound(bs)
    ensures Sound(Cleared(bs, key))
    ensures forall k :: 0 <= k < |bs| ==> !Holds(Cleared(bs, key)[k], key.base)
  {}

  lemma AcquireSound(bs: seq<Block>, key: Key, ts: nat, now: nat)
    requires Sound(bs) && key.base % DATA == 0
    ensures Sound(Acquire(bs, key, ts, now).blocks)
  {
    ClearedSound(bs, key);
  }

  lemma ArrivedSound(bs: seq<Block>, a: Arrival)
    requires Sound(bs) && a.key.base % DATA == 0
    ensures Sound(Arrived(bs, a))
  {
    hide Acquire;
    AcquireSound(bs, a.key, a.ts, a.now);
  }

  lemma RecoverSound(code: Code, bs: seq<Block>, n: nat)
    requires Sound(bs)
    ensures Sound(Recover(code, bs, n).blocks)
  {}

  lemma ApplySound(code: Code, bs: seq<Block>, op: Op)
    requires Sound(bs)
    ensures Sound(Apply(code, bs, op))
  {
    hide Arrived, Sound, Recover, ArrivalOf;
    ArrivalBase(op);
    match ArrivalOf(op)
    case Some(a) => ArrivedSound(bs, a);
    case None =>
      if op.Lost? {
        RecoverSound(code, bs, op.n);
      }
  }

  lemma {:induction false} RunSound(code: Code, bs: seq<Block>, ops: seq<Op>)
    requires Sound(bs)
    ensures Sound(Run(code, bs, ops)) && |Run(code, bs, ops)| == |bs|
    decreases |ops|
  {
    hide Apply, Sound;
    if |ops| > 0 {
      ApplySound(code, bs, ops[0]);
      RunSound(code, Apply(code, bs, ops[0]), ops[1..]);
    }
  }

  lemma EmptySound()
    ensures Sound(Empty())
  {}

  // ----- eviction -----

  /** Exactly when the 32-bit comparison calls a time earlier. */
  lemma EarlierExact(a: nat, b: nat)
    ensures Earlier(a, b) <==> 0 < (b - a) % WRAP < 0x8000_0000
  {
    var x, y := a % WRAP, b % WRAP;
    ModShift(y - x, b / WRAP - a / WRAP);
    assert b - a == y - x + WRAP * (b / WRAP - a / WRAP);
  }

  /** Last uses of blocks in use lie in the 2^31 microseconds from `t0` on. */
  ghost predicate InSpan(t0: nat, t: nat) {
    t0 <= t < t0 + 0x8000_0000
  }

  ghost predicate Recent(bs: seq<Block>, t0: nat) {
    forall k :: 0 <= k < |bs| && bs[k].valid ==> InSpan(t0, bs[k].used)
  }

  lemma EarlierIs(a: nat, b: nat)
    requires a < b + 0x8000_0000 && b < a + 0x8000_0000
    ensures Earlier(a, b) <==> a < b
  {
    EarlierExact(a, b);
  }

  /** A free block first; among blocks in use, the least recently used one. */
  ghost predicate RightVictim(bs: seq<Block>, k: int) {
    && 0 <= k < |bs|
    && (!bs[k].valid ==> forall j :: 0 <= j < k ==> bs[j].valid)
    && (bs[k].valid ==> forall j :: 0 <= j < |bs| ==> bs[j].valid && bs[k].used <= bs[j].used)
  }

  lemma {:induction false} VictimFrom(bs: seq<Block>, i: nat, pick: int, t0: nat)
    requires i <= |bs| && |bs| > 0 && -1 <= pick < i && Recent(bs, t0) && (i > 0 ==> pick >= 0)
    requires forall j :: 0 <= j < i ==> bs[j].valid && bs[pick].used <= bs[j].used
    ensures RightVictim(bs, Victim(bs, i, pick))
    decreases |bs| - i
  {
    hide Earlier;
    if i < |bs| && bs[i].valid {
      if pick >= 0 {
        EarlierIs(bs[i].used, bs[pick].used);
      }
      VictimFrom(bs, i + 1, if pick < 0 || Earlier(bs[i].used, bs[pick].used) then i else pick, t0);
    }
  }

  /** What a new block displaces: a free one, else the least recently used; no other block changes. */
  lemma LeastRecentlyUsed(bs: seq<Block>, key: Key, ts: nat, now: nat, t0: nat)
    requires |bs| > 0 && SizeOk(key) && Recent(bs, t0)
    requires forall k :: 0 <= k < |bs| ==> !Holds(bs[k], key.base)
    ensures var a := Acquire(bs, key, ts, now);
            && RightVictim(bs, a.at) && a.blocks[a.at].valid && a.blocks[a.at].key == key && a.blocks[a.at].used == now
            && a.blocks[a.at].present == Absent() && a.blocks[a.at].ts == ts
            && forall j :: 0 <= j < |bs| && j != a.at ==> a.blocks[j] == bs[j]
  {
    VictimFrom(bs, 0, -1, t0);
  }

  /** A block is had for payloads of 1 to 1400 bytes, and no others. */
  lemma AcquiredExactly(bs: seq<Block>, key: Key, ts: nat, now: nat)
    requires |bs| > 0
    ensures Acquire(bs, key, ts, now).at >= 0 <==> 1 <= key.size <= 1400
    ensures !(1 <= key.size <= 1400) ==> Acquire(bs, key, ts, now).blocks == bs
  {}

  // ----- write once -----

  /** Shard `i` of `b` is still there, byte for byte. */
  ghost predicate KeepsShard(b: Block, c: Block, i: nat) {
    Shaped(b) && Shaped(c) && i < SHARDS && (b.present[i] ==> c.present[i] && c.shards[i] == b.shards[i])
  }

  lemma AcquireKeeps(bs: seq<Block>, key: Key, ts: nat, now: nat, k: nat, m: nat)
    requires Sound(bs) && key.base % DATA == 0 && k < |bs| && m < SHARDS && bs[k].valid
    ensures var c := Acquire(bs, key, ts, now).blocks[k];
            c.valid && c.key == bs[k].key ==> KeepsShard(bs[k], c, m)
  {
    AcquireSound(bs, key, ts, now);
    var c := Acquire(bs, key, ts, now).blocks[k];
    if c.valid && c.key == bs[k].key && bs[k].key.base == key.base {
      var j := Lookup(bs, key.base, 0);
      assert j == k;
    }
  }

  lemma ArrivedKeeps(bs: seq<Block>, a: Arrival, k: nat, m: nat)
    requires Sound(bs) && a.key.base % DATA == 0 && k < |bs| && m < SHARDS && bs[k].valid
    ensures var c := Arrived(bs, a)[k]; c.valid && c.key == bs[k].key ==> KeepsShard(bs[k], c, m)
  {
    hide Acquire;
    AcquireSound(bs, a.key, a.ts, a.now);
    ArrivedSound(bs, a);
    AcquireKeeps(bs, a.key, a.ts, a.now, k, m);
  }

  lemma RecoverKeeps(code: Code, bs: seq<Block>, n: nat, k: nat, m: nat)
    requires Sound(bs) && k < |bs| && m < SHARDS
    ensures KeepsShard(bs[k], Recover(code, bs, n).blocks[k], m)
  {}

  /** A block that still stands for the same packets keeps every shard it had. */
  lemma WriteOnce(code: Code, bs: seq<Block>, op: Op, k: nat, m: nat)
    requires Sound(bs) && k < |bs| && m < SHARDS && bs[k].valid
    ensures var c := Apply(code, bs, op)[k]; c.valid && c.key == bs[k].key ==> KeepsShard(bs[k], c, m)
  {
    hide Arrived, Recover, ArrivalOf;
    ArrivalBase(op);
    match ArrivalOf(op)
    case Some(a) => ArrivedKeeps(bs, a, k, m);
    case None =>
      if op.Lost? {
        RecoverKeeps(code, bs, op.n, k, m);
      }
  }

  // ----- counting shards -----

  lemma {:induction false} CountNone(p: seq<bool>)
    requires forall i :: 0 <= i < |p| ==> !p[i]
    ensures Count(p) == 0
  {
    if |p| > 0 {
      CountNone(p[..|p| - 1]);
    }
  }

  /** Four of six shards, one of the data missing: as many parity shards as gaps. */
  lemma CountSolvable(p: seq<bool>)
    requires |p| == SHARDS
    ensures DataWhole(p) ==> Count(p) >= DATA
    ensures !DataWhole(p) ==> (Count(p) >= DATA <==> Solvable(p))
  {
    hide Count, Gaps;
    assert p[..6] == p;
    CountTo(p, 0);
    CountTo(p, 1);
    CountTo(p, 2);
    CountTo(p, 3);
    CountTo(p, 4);
    CountTo(p, 5);
    GapCount(p);
  }

  lemma CountTo(p: seq<bool>, n: nat)
    requires n < |p|
    ensures Count(p[..n + 1]) == Count(p[..n]) + (if p[n] then 1 else 0) && Count(p[..0]) == 0
  {
    assert p[..n + 1][..n] == p[..n];
  }

  lemma GapCount(p: seq<bool>)
    requires |p| == SHARDS
    ensures |Gaps(p, 0)| == DATA - (if p[0] then 1 else 0) - (if p[1] then 1 else 0) - (if p[2] then 1 else 0)
                                 - (if p[3] then 1 else 0)
  {
    assert |Gaps(p, 4)| == 0;
    assert |Gaps(p, 3)| == if p[3] then 0 else 1;
    assert |Gaps(p, 2)| == |Gaps(p, 3)| + if p[2] then 0 else 1;
    assert |Gaps(p, 1)| == |Gaps(p, 2)| + if p[1] then 0 else 1;
    assert |Gaps(p, 0)| == |Gaps(p, 1)| + if p[0] then 0 else 1;
  }

  lemma {:induction false} CountSet(p: seq<bool>, s: set<nat>)
    requires forall i :: i in s ==> i < |p| && p[i]
    ensures |s| <= Count(p)
  {
    if |p| == 0 {
      assert s == {};
    } else {
      var n := |p| - 1;
      CountSet(p[..n], s - {n});
      if n !in s {
        assert s - {n} == s;
      }
    }
  }

  // ----- the cache -----

  class FecCache {
    const code: Code
    var blocks: seq<Block>

    ghost predicate Valid()
      reads this
    {
      |blocks| == BLOCKS && Sound(blocks)
    }

    /** `audio_rtp_fec_reset`. */
    constructor (audio: Code)
      ensures Valid() && blocks == Empty() && code == audio
    {
      code, blocks := audio, Empty();
    }

    /** `audio_rtp_fec_get_block`, with the time passed in; -1 for no block. */
    method GetBlock(key: Key, ts: nat, now: nat) returns (k: int)
      requires Valid() && key.base % DATA == 0
      modifies this
      ensures Valid() && k == Acquire(old(blocks), key, ts, now).at
      ensures blocks == Acquire(old(blocks), key, ts, now).blocks
    {
      hide Sound, Lookup, Victim;
      if key.size == 0 || key.size > PAYLOAD_MAX {
        return -1;
      }
      AcquireSound(blocks, key, ts, now);
      var i := FindBase(key.base);
      if i < BLOCKS {
        if blocks[i].key != key {
          blocks := blocks[i := blocks[i].(valid := false)];
        } else {
          blocks := blocks[i := blocks[i].(used := now)];
          return i;
        }
      }
      k := FindVictim();
      if k < 0 {
        return;
      }
      blocks := blocks[k := NewBlock(blocks[k], key, ts, now)];
    }

    method FindBase(base: nat) returns (i: nat)
      requires |blocks| == BLOCKS
      ensures i == Lookup(blocks, base, 0)
    {
      i := 0;
      while i < BLOCKS && !Holds(blocks[i], base)
        invariant i <= BLOCKS && Lookup(blocks, base, 0) == Lookup(blocks, base, i)
      {
        i := i + 1;
      }
    }

    method FindVictim() returns (pick: int)
      requires |blocks| == BLOCKS
      ensures pick == Victim(blocks, 0, -1)
    {
      pick := -1;
      var oldest := 0;
      for i := 0 to BLOCKS
        invariant -1 <= pick < i && (pick >= 0 ==> oldest == blocks[pick].used % WRAP)
        invariant Victim(blocks, 0, -1) == Victim(blocks, i, pick)
      {
        if !blocks[i].valid {
          return i;
        }
        if pick < 0 || (blocks[i].used % WRAP - oldest) % WRAP > 0x8000_0000 {
          pick, oldest := i, blocks[i].used % WRAP;
        }
      }
    }

    /** `audio_rtp_fec_cache_data`, for packet `n` since the stream began. */
    method CacheData(n: nat, ts: nat, ssrc: nat, payload: Shard, ms: int, now: nat)
      requires Valid()
      modifies this
      ensures Valid() && blocks == Apply(code, old(blocks), Data(n, ts, ssrc, payload, ms, now))
    {
      hide Sound, Acquire;
      var wire := n % CYCLE;
      var base := BaseOf(wire);
      var pos := wire - base;
      var step := if ms < 5 || ms > 60 then 10 else ms;
      WireIs(n);
      ApplySound(code, blocks, Data(n, ts, ssrc, payload, ms, now));
      var k := GetBlock(Key(base, ssrc, PT_OPUS, |payload|), (ts - pos * (48000 * step / 1000)) % WRAP, now);
      Put(k, pos, payload, n / DATA);
    }

    /** `audio_rtp_fec_cache_parity`. */
    method CacheParity(head: seq<byte>, body: Shard, group: nat, now: nat)
      requires Valid()
      modifies this
      ensures Valid() && blocks == Apply(code, old(blocks), Parity(head, body, group, now))
    {
      hide Sound, Acquire;
      if |head| < HEADER {
        return;
      }
      var shard := head[0];
      if shard >= PARITY || head[1] != PT_OPUS {
        return;
      }
      var base := ParityBase(head);
      if base % DATA != 0 {
        return;
      }
      ApplySound(code, blocks, Parity(head, body, group, now));
      var k := GetBlock(Key(base, Word32(head, 8), head[1], |body|), Word32(head, 4), now);
      Put(k, DATA + shard, body, group);
    }

    /** The copy into a shard that is still missing. */
    method Put(k: int, i: nat, payload: Shard, group: nat)
      requires Valid() && -1 <= k < BLOCKS && i < SHARDS
      modifies this
      ensures blocks == Stored(old(blocks), k, i, payload, group)
    {
      if k < 0 || blocks[k].present[i] {
        return;
      }
      blocks := blocks[k := WithShard(blocks[k], i, payload, group)];
    }

    /** `audio_rtp_fec_complete`: counts what is there, then reconstructs. */
    method Complete(k: nat) returns (ok: bool)
      requires Valid() && k < BLOCKS && blocks[k].valid
      modifies this
      ensures ok <==> Completed(code, old(blocks)[k]).Some?
      ensures blocks == if ok then old(blocks)[k := Completed(code, old(blocks)[k]).value] else old(blocks)
    {
      var b := blocks[k];
      var available, missing := 0, 0;
      for i := 0 to SHARDS
        invariant available == Count(b.present[..i])
        invariant missing > 0 <==> exists j :: 0 <= j < i && j < DATA && !b.present[j]
      {
        assert b.present[..i + 1][..i] == b.present[..i];
        if b.present[i] {
          available := available + 1;
        } else if i < DATA {
          missing := missing + 1;
        }
      }
      assert b.present[..SHARDS] == b.present;
      if missing == 0 {
        assert blocks[k := b] == blocks;
        return true;
      }
      if available < DATA {
        return false;
      }
      FillGaps(k);
      ok := true;
    }

    /** Every missing data shard reconstructed and marked, one by one. */
    method FillGaps(k: nat)
      requires Valid() && k < BLOCKS
      modifies this
      ensures blocks == old(blocks)[k := Filled(code, old(blocks)[k], DATA)]
    {
      hide Unique, Reconstruct;
      ghost var b := blocks[k];
      var shards, present, size := blocks[k].shards, blocks[k].present, blocks[k].key.size;
      var made := Solved(Groups(blocks[k]), present);
      FilledNone(code, b);
      assert blocks[k := b] == blocks;
      for i := 0 to DATA
        invariant |blocks| == BLOCKS && blocks == old(blocks)[k := Filled(code, b, i)]
      {
        if !present[i] {
          var c := blocks[k];
          blocks := blocks[k := c.(present := c.present[i := true],
                                   shards := c.shards[i := Reconstruct(code, shards, present, size, i)],
                                   origin := c.origin[i := made])];
        }
        FilledStep(code, b, i);
      }
    }

    /** `audio_rtp_fec_recover_payload`, for packet `n` since the stream began. */
    method RecoverPayload(n: nat) returns (payload: Option<Shard>)
      requires Valid()
      modifies this
      ensures Valid() && payload == Recover(code, old(blocks), n).payload
      ensures blocks == Apply(code, old(blocks), Lost(n))
    {
      hide Completed, Unique;
      var wire := n % CYCLE;
      var base := BaseOf(wire);
      var pos := wire - base;
      RecoverSound(code, blocks, n);
      var i := FindBase(base);
      if i == BLOCKS {
        return None;
      }
      var ok := Complete(i);
      if !ok {
        return None;
      }
      CompletedPresent(code, old(blocks)[i], pos);
      if !blocks[i].present[pos] {
        return None;
      }
      payload := Some(Take(blocks[i].shards[pos], blocks[i].key.size));
    }
  }

  lemma CompletedPresent(code: Code, b: Block, pos: nat)
    requires Shaped(b) && Completed(code, b).Some? && pos < DATA
    ensures Shaped(Completed(code, b).value) && Completed(code, b).value.present[pos]
  {}

  lemma FilledNone(code: Code, b: Block)
    requires Sized(b)
    ensures Filled(code, b, 0) == b
  {
    var c := Filled(code, b, 0);
    assert c.present == b.present && c.shards == b.shards && c.origin == b.origin;
  }

  lemma FilledStep(code: Code, b: Block, n: nat)
    requires Sized(b) && n < DATA
    ensures var c := Filled(code, b, n);
            && (b.present[n] ==> Filled(code, b, n + 1) == c)
            && (!b.present[n] ==>
                  Filled(code, b, n + 1) == c.(present := c.present[n := true],
                                         shards := c.shards[n := Reconstruct(code, b.shards, b.present, b.key.size, n)],
                                         origin := c.origin[n := Solved(Groups(b), b.present)]))
  {
    hide Solve, Column, Groups;
  }
}
