/**
 What the parity cache hands out, over streams of any length: which packets a recovered payload is made
 of, and exactly when it is the payload that was lost.
 */
module FecRecovery {
  import opened AudioUnits
  import opened Bits
  import opened Syntax
  import opened ReedSolomon
  import opened Fec

  /** The four payloads of each group, by full group number. */
  type Contents = nat -> seq<Shard>

  type Sizes = nat -> nat

  ghost predicate Fits(g: Contents, sz: Sizes) {
    forall h: nat :: Even(g(h), sz(h))
  }

  /** Shard `i` of group `h`. */
  ghost function Sent(code: Code, g: Contents, h: nat, i: nat): (s: Shard) {
    if |g(h)| == DATA then Coded(code, g(h), |g(h)[0]|, i) else []
  }

  /** The shard that an origin stands for. */
  ghost function Value(code: Code, g: Contents, size: nat, o: Origin, i: nat): (s: Shard) {
    match o
    case Packet(h) => Sent(code, g, h, i)
    case Solved(gs, from) =>
      if |gs| == |from| == SHARDS && i < DATA then Reconstruct(code, Sources(code, g, gs), from, size, i) else []
  }

  ghost function Sources(code: Code, g: Contents, gs: seq<nat>): (r: seq<Shard>)
    ensures |r| == |gs|
  {
    seq(|gs|, j requires 0 <= j < |gs| => Sent(code, g, gs[j], j))
  }

  // ----- every shard is what its origin says -----

  ghost predicate OriginOk(code: Code, g: Contents, b: Block, i: nat)
    requires Sized(b) && i < SHARDS
  {
    && b.shards[i] == Value(code, g, b.key.size, b.origin[i], i) && |b.shards[i]| == b.key.size
    && match b.origin[i] {
         case Packet(_) => true
         case Solved(gs, from) =>
           && |gs| == |from| == SHARDS && i < DATA && !from[i] && Solvable(from)
           && forall j :: 0 <= j < SHARDS && Used(from, j) ==> |Sent(code, g, gs[j], j)| == b.key.size
       }
  }

  ghost predicate BlockGenuine(code: Code, g: Contents, b: Block) {
    b.valid ==>
      && Sized(b) && SizeOk(b.key)
      && (forall i :: 0 <= i < SHARDS && b.present[i] ==> OriginOk(code, g, b, i))
      && (!DataWhole(b.present) ==> forall i :: 0 <= i < SHARDS && b.present[i] ==> b.origin[i].Packet?)
  }

  ghost predicate Genuine(code: Code, g: Contents, bs: seq<Block>) {
    forall k :: 0 <= k < |bs| ==> BlockGenuine(code, g, bs[k])
  }

  /** The header of a parity packet of group `h`. */
  ghost predicate Headed(head: seq<byte>, h: nat) {
    exists i, ts, ssrc ::
      && 0 <= i < PARITY && 0 <= ts < WRAP && 0 <= ssrc < WRAP
      && head == PrintHead(i, WireBase(h), ts, ssrc)
  }

  lemma HeadedBase(head: seq<byte>, h: nat)
    requires Headed(head, h)
    ensures ParityOk(head) && ParityBase(head) == WireBase(h)
  {
    hide PrintHead;
    var i, ts, ssrc :| 0 <= i < PARITY && 0 <= ts < WRAP && 0 <= ssrc < WRAP
                       && head == PrintHead(i, WireBase(h), ts, ssrc);
    WireIs(DATA * h);
    PrintedArrival(i, WireBase(h), ts, ssrc, [], h, 0);
  }

  /** A packet carries the shard its numbers name. */
  ghost predicate Honest(code: Code, g: Contents, op: Op) {
    match op
    case Data(n, _, _, payload, _, _) => payload == Sent(code, g, n / DATA, n % DATA)
    case Parity(head, body, h, _) =>
      !Malformed(head) ==> Headed(head, h) && body == Sent(code, g, h, DATA + head[0])
    case Lost(_) => true
  }

  ghost predicate AllHonest(code: Code, g: Contents, ops: seq<Op>) {
    forall i :: 0 <= i < |ops| ==> Honest(code, g, ops[i])
  }

  lemma HonestArrival(code: Code, g: Contents, op: Op)
    requires Honest(code, g, op) && ArrivalOf(op).Some?
    ensures var a := ArrivalOf(op).value;
            && a.payload == Sent(code, g, a.group, a.i) && a.key.base == WireBase(a.group)
            && a.key.size == |a.payload| && a.i < SHARDS
  {
    hide Sent, Headed;
    if op.Data? {
      WireIs(op.n);
    } else {
      MalformedExactly(op.head);
      HeadedBase(op.head, op.group);
    }
  }

  lemma AcquireGenuine(code: Code, g: Contents, bs: seq<Block>, key: Key, ts: nat, now: nat)
    requires Sound(bs) && Genuine(code, g, bs)
    ensures var a := Acquire(bs, key, ts, now);
            Genuine(code, g, a.blocks)
                && (a.at >= 0 ==> a.blocks[a.at].valid && a.blocks[a.at].key == key && SizeOk(key))
  {
    hide Value, Used, Solvable;
    var a := Acquire(bs, key, ts, now);
    forall k | 0 <= k < |bs|
      ensures BlockGenuine(code, g, a.blocks[k])
    {
      assert BlockGenuine(code, g, bs[k]);
      SameGenuine(code, g, bs[k], a.blocks[k]);
    }
  }

  /** Neither the time of use nor an empty start tells shards apart. */
  lemma SameGenuine(code: Code, g: Contents, b: Block, c: Block)
    requires BlockGenuine(code, g, b) && Sized(b)
    ensures c == b.(used := c.used) ==> BlockGenuine(code, g, c)
    ensures !c.valid || (Sized(c) && SizeOk(c.key) && c.present == Absent()) ==> BlockGenuine(code, g, c)
  {
    hide Value, Used, Solvable;
    if c == b.(used := c.used) && b.valid {
      forall i | 0 <= i < SHARDS && c.present[i]
        ensures OriginOk(code, g, c, i)
      {
        assert OriginOk(code, g, b, i);
      }
    }
  }

  lemma WithShardGenuine(code: Code, g: Contents, b: Block, i: nat, payload: Shard, h: nat)
    requires BlockGenuine(code, g, b) && b.valid && i < SHARDS && !b.present[i]
    requires payload == Sent(code, g, h, i) && |payload| == b.key.size
    ensures BlockGenuine(code, g, WithShard(b, i, payload, h))
  {
    hide Sent, Used, Solvable, Reconstruct;
    var c := WithShard(b, i, payload, h);
    forall j | 0 <= j < SHARDS && c.present[j]
      ensures OriginOk(code, g, c, j)
    {
      if j != i {
        assert OriginOk(code, g, b, j);
      }
    }
  }

  lemma ArrivedGenuine(code: Code, g: Contents, bs: seq<Block>, a: Arrival)
    requires Sound(bs) && Genuine(code, g, bs) && a.key.base % DATA == 0 && a.key.size == |a.payload| && a.i < SHARDS
    requires a.payload == Sent(code, g, a.group, a.i)
    ensures Genuine(code, g, Arrived(bs, a))
  {
    hide Sent, Acquire, BlockGenuine;
    var q := Acquire(bs, a.key, a.ts, a.now);
    AcquireSound(bs, a.key, a.ts, a.now);
    AcquireGenuine(code, g, bs, a.key, a.ts, a.now);
    if q.at >= 0 && !q.blocks[q.at].present[a.i] {
      WithShardGenuine(code, g, q.blocks[q.at], a.i, a.payload, a.group);
    }
  }

  /** Reconstruction from packets gives what their groups' shards give. */
  lemma FilledGenuine(code: Code, g: Contents, b: Block)
    requires b.valid && BlockGenuine(code, g, b) && !DataWhole(b.present) && Count(b.present) >= DATA
    ensures BlockGenuine(code, g, Filled(code, b, DATA))
  {
    hide Sent, Solve, Gaps;
    CountSolvable(b.present);
    var c := Filled(code, b, DATA);
    forall i | 0 <= i < SHARDS && c.present[i]
      ensures OriginOk(code, g, c, i)
    {
      if b.present[i] {
        assert OriginOk(code, g, b, i);
      } else {
        SameSources(code, g, b, i);
        forall j | 0 <= j < SHARDS && Used(b.present, j)
          ensures |Sent(code, g, Groups(b)[j], j)| == b.key.size
        {
          assert OriginOk(code, g, b, j);
        }
      }
    }
  }

  lemma SameSources(code: Code, g: Contents, b: Block, i: nat)
    requires b.valid && BlockGenuine(code, g, b) && !DataWhole(b.present) && Solvable(b.present) && i < DATA
        && !b.present[i]
    ensures Reconstruct(code, b.shards, b.present, b.key.size, i)
         == Reconstruct(code, Sources(code, g, Groups(b)), b.present, b.key.size, i)
  {
    hide Sent, Gaps;
    var s, t := b.shards, Sources(code, g, Groups(b));
    forall k | 0 <= k < b.key.size
      ensures Solve(code, i, Column(code, s, k), b.present) == Solve(code, i, Column(code, t, k), b.present)
    {
      forall j | 0 <= j < SHARDS && Used(b.present, j)
        ensures Column(code, s, k)[j] == Column(code, t, k)[j]
      {
        assert OriginOk(code, g, b, j);
      }
      SolveReads(code, i, Column(code, s, k), Column(code, t, k), b.present);
    }
  }

  /** The elimination reads no other shards. */
  lemma SolveReads(code: Code, i: nat, s: seq<Octet>, t: seq<Octet>, present: seq<bool>)
    requires |s| == |t| == |present| == SHARDS && Solvable(present)
    requires forall j :: 0 <= j < SHARDS && Used(present, j) ==> s[j] == t[j]
    ensures Solve(code, i, s, present) == Solve(code, i, t, present)
  {
    hide Gaps, Solve2, Known;
    assert present[DATA] && Used(present, DATA) ==> s[DATA] == t[DATA];
    assert present[DATA + 1] && Used(present, DATA + 1) ==> s[DATA + 1] == t[DATA + 1];
    forall j | 0 <= j < DATA && present[j]
      ensures s[j] == t[j]
    {
      assert Used(present, j);
    }
    if |Gaps(present, 0)| == 1 {
      KnownReads(code, FirstParity(present), s, t, present);
    } else {
      KnownReads(code, 0, s, t, present);
      KnownReads(code, 1, s, t, present);
    }
  }

  lemma KnownReads(code: Code, q: nat, s: seq<Octet>, t: seq<Octet>, present: seq<bool>)
    requires |s| == |t| == |present| == SHARDS && q < PARITY && s[DATA + q] == t[DATA + q]
    requires forall j :: 0 <= j < DATA && present[j] ==> s[j] == t[j]
    ensures Known(code, q, s, present) == Known(code, q, t, present)
  {
  }

  lemma RecoverGenuine(code: Code, g: Contents, bs: seq<Block>, n: nat)
    requires Sound(bs) && Genuine(code, g, bs)
    ensures Genuine(code, g, Recover(code, bs, n).blocks)
  {
    hide BlockGenuine, Filled, Count;
    var k := Lookup(bs, BaseOf(n % CYCLE), 0);
    if k < |bs| && !DataWhole(bs[k].present) && Count(bs[k].present) >= DATA {
      assert BlockGenuine(code, g, bs[k]);
      FilledGenuine(code, g, bs[k]);
    }
  }

  lemma ApplyGenuine(code: Code, g: Contents, bs: seq<Block>, op: Op)
    requires Sound(bs) && Genuine(code, g, bs) && Honest(code, g, op)
    ensures Genuine(code, g, Apply(code, bs, op))
  {
    hide Arrived, Sound, Recover, Genuine, ArrivalOf, Sent;
    ArrivalBase(op);
    match ArrivalOf(op)
    case Some(a) =>
      HonestArrival(code, g, op);
      ArrivedGenuine(code, g, bs, a);
    case None =>
      if op.Lost? {
        RecoverGenuine(code, g, bs, op.n);
      }
  }

  /** In every run of honest packets each shard present is what its origin says. */
  lemma {:induction false} RunGenuine(code: Code, g: Contents, bs: seq<Block>, ops: seq<Op>)
    requires Sound(bs) && Genuine(code, g, bs) && AllHonest(code, g, ops)
    ensures Sound(Run(code, bs, ops)) && Genuine(code, g, Run(code, bs, ops))
    decreases |ops|
  {
    hide Apply, Sound, Genuine, Honest;
    if |ops| > 0 {
      ApplySound(code, bs, ops[0]);
      ApplyGenuine(code, g, bs, ops[0]);
      RunGenuine(code, g, Apply(code, bs, ops[0]), ops[1..]);
    }
  }

  lemma EmptyGenuine(code: Code, g: Contents)
    ensures Genuine(code, g, Empty())
  {}

  // ----- what is handed out -----

  /** A block of this packet's base holds four shards or more. */
  predicate Obtainable(bs: seq<Block>, n: nat) {
    var k := Lookup(bs, BaseOf(n % CYCLE), 0);
    k < |bs| && Count(bs[k].present) >= DATA
  }

  /** What the payload handed out for packet `n` is made of. */
  function MadeOf(bs: seq<Block>, n: nat): (o: Origin) {
    var k := Lookup(bs, BaseOf(n % CYCLE), 0);
    if k == |bs| || !Sized(bs[k]) then Packet(0)
    else if bs[k].present[n % DATA] then bs[k].origin[n % DATA]
    else Solved(Groups(bs[k]), bs[k].present)
  }

  function SizeAt(bs: seq<Block>, n: nat): (size: nat) {
    var k := Lookup(bs, BaseOf(n % CYCLE), 0);
    if k < |bs| then bs[k].key.size else 0
  }

  /** Four shards cached, and the bytes are what the origin says; fewer, and there are none. */
  lemma RecoverIs(code: Code, g: Contents, bs: seq<Block>, n: nat)
    requires Sound(bs) && Genuine(code, g, bs)
    ensures Recover(code, bs, n).payload
         == if Obtainable(bs, n) then Some(Value(code, g, SizeAt(bs, n), MadeOf(bs, n), n % DATA)) else None
    ensures Obtainable(bs, n) ==> |Value(code, g, SizeAt(bs, n), MadeOf(bs, n), n % DATA)| == SizeAt(bs, n) > 0
  {
    hide Count, Value, Filled, Used, Solvable;
    WireIs(n);
    var k, pos := Lookup(bs, BaseOf(n % CYCLE), 0), n % DATA;
    if k < |bs| {
      var b := bs[k];
      assert BlockGenuine(code, g, b);
      CountSolvable(b.present);
      if DataWhole(b.present) {
        assert OriginOk(code, g, b, pos);
        TakeAll(b.shards[pos]);
      } else if Count(b.present) >= DATA {
        FilledGenuine(code, g, b);
        var c := Filled(code, b, DATA);
        FilledAt(code, b, pos);
        assert OriginOk(code, g, c, pos);
        TakeAll(c.shards[pos]);
      }
    }
  }

  lemma TakeAll(s: Shard)
    ensures Take(s, |s|) == s
  {}

  lemma FilledAt(code: Code, b: Block, pos: nat)
    requires Sized(b) && pos < DATA
    ensures var c := Filled(code, b, DATA);
            && c.key == b.key && c.valid == b.valid && c.present[pos] && !b.valid == !c.valid
            && c.origin[pos] == if b.present[pos] then b.origin[pos] else Solved(Groups(b), b.present)
  {
    hide Reconstruct;
  }

  /** Every packet that an origin reads belongs to group `h`. */
  ghost predicate Pure(o: Origin, h: nat) {
    match o
    case Packet(k) => k == h
    case Solved(gs, from) =>
      |gs| == |from| == SHARDS && forall j :: 0 <= j < SHARDS && Used(from, j) ==> gs[j] == h
  }

  /** Made of the lost packet's own group, the payload is the lost one. */
  lemma PureIsRight(code: Code, g: Contents, sz: Sizes, bs: seq<Block>, n: nat)
    requires Lawful(code)
    requires Sound(bs) && Genuine(code, g, bs) && Fits(g, sz)
    requires Obtainable(bs, n) && Pure(MadeOf(bs, n), n / DATA)
    ensures Recover(code, bs, n).payload == Some(g(n / DATA)[n % DATA])
  {
    hide Count, Reconstruct, Solve, Gaps;
    RecoverIs(code, g, bs, n);
    var h, pos, size := n / DATA, n % DATA, SizeAt(bs, n);
    var o := MadeOf(bs, n);
    if o.Solved? {
      SolvedOk(code, g, bs, n);
      var d := g(h);
      var j := FirstUsed(o.from);
      assert |Sent(code, g, h, j)| == sz(h);
      forall i | 0 <= i < SHARDS && Used(o.from, i)
        ensures Sources(code, g, o.groups)[i] == Coded(code, d, size, i)
      {
      }
      ReconstructIs(code, d, size, Sources(code, g, o.groups), o.from, pos);
    }
  }

  /** A reconstruction reads four shards of the block's size, and not the one it makes. */
  lemma SolvedOk(code: Code, g: Contents, bs: seq<Block>, n: nat)
    requires Sound(bs) && Genuine(code, g, bs) && Obtainable(bs, n) && MadeOf(bs, n).Solved?
    ensures var o := MadeOf(bs, n);
            && |o.groups| == |o.from| == SHARDS && !o.from[n % DATA] && Solvable(o.from)
            && forall j :: 0 <= j < SHARDS && Used(o.from, j) ==> |Sent(code, g, o.groups[j], j)| == SizeAt(bs, n)
  {
    hide Count, Sent, Gaps, Reconstruct;
    var b := bs[Lookup(bs, BaseOf(n % CYCLE), 0)];
    assert BlockGenuine(code, g, b);
    if b.present[n % DATA] {
      assert OriginOk(code, g, b, n % DATA);
    } else {
      CountSolvable(b.present);
      forall j | 0 <= j < SHARDS && Used(b.present, j)
        ensures |Sent(code, g, Groups(b)[j], j)| == b.key.size
      {
        assert OriginOk(code, g, b, j);
      }
    }
  }

  lemma FirstUsed(present: seq<bool>) returns (j: nat)
    requires |present| == SHARDS && Solvable(present)
    ensures j < SHARDS && Used(present, j)
  {
    hide Gaps;
    j := DATA + FirstParity(present);
  }

  // ----- the same packets with other contents -----

  /** The packets of `ops` with contents `g`. */
  ghost function Filling(code: Code, g: Contents, op: Op): (r: Op) {
    match op
    case Data(n, _, _, _, _, _) => op.(payload := Sent(code, g, n / DATA, n % DATA))
    case Parity(head, _, h, _) => if !Malformed(head) then op.(body := Sent(code, g, h, DATA + head[0])) else op
    case Lost(_) => op
  }

  ghost function Fillings(code: Code, g: Contents, ops: seq<Op>): (r: seq<Op>)
    ensures |r| == |ops|
  {
    seq(|ops|, i requires 0 <= i < |ops| => Filling(code, g, ops[i]))
  }

  /** Parity headers name the group their packet was sent for. */
  ghost predicate Numbered(ops: seq<Op>) {
    forall i :: 0 <= i < |ops| && ops[i].Parity? && !Malformed(ops[i].head) ==> Headed(ops[i].head, ops[i].group)
  }

  lemma FillingsHonest(code: Code, g: Contents, ops: seq<Op>)
    requires Numbered(ops)
    ensures AllHonest(code, g, Fillings(code, g, ops))
  {
    hide Sent, Headed, Malformed;
  }

  /** All of a block but its bytes. */
  function Bare(b: Block): (r: Block) {
    b.(shards := [])
  }

  ghost predicate Alike(bs: seq<Block>, cs: seq<Block>) {
    |bs| == |cs| && forall k :: 0 <= k < |bs| ==> Bare(bs[k]) == Bare(cs[k])
  }

  lemma {:induction false} LookupAlike(bs: seq<Block>, cs: seq<Block>, base: nat, i: nat)
    requires Alike(bs, cs) && i <= |bs|
    ensures Lookup(bs, base, i) == Lookup(cs, base, i)
    decreases |bs| - i
  {
    if i < |bs| {
      assert Bare(bs[i]) == Bare(cs[i]);
      if !Holds(bs[i], base) {
        LookupAlike(bs, cs, base, i + 1);
      }
    }
  }

  lemma {:induction false} VictimAlike(bs: seq<Block>, cs: seq<Block>, i: nat, pick: int)
    requires Alike(bs, cs) && i <= |bs| && -1 <= pick < i
    ensures Victim(bs, i, pick) == Victim(cs, i, pick)
    decreases |bs| - i
  {
    hide Earlier;
    if i < |bs| {
      assert Bare(bs[i]) == Bare(cs[i]);
      if pick >= 0 {
        assert Bare(bs[pick]) == Bare(cs[pick]);
      }
      VictimAlike(bs, cs, i + 1, if pick < 0 || Earlier(bs[i].used, bs[pick].used) then i else pick);
    }
  }

  lemma AcquireAlike(bs: seq<Block>, cs: seq<Block>, key: Key, ts: nat, now: nat)
    requires Alike(bs, cs)
    ensures var p, q := Acquire(bs, key, ts, now), Acquire(cs, key, ts, now); p.at == q.at && Alike(p.blocks, q.blocks)
  {
    hide Victim, Lookup;
    LookupAlike(bs, cs, key.base, 0);
    var j := Lookup(bs, key.base, 0);
    assert j < |bs| ==> Bare(bs[j]) == Bare(cs[j]);
    assert Alike(Cleared(bs, key), Cleared(cs, key));
    VictimAlike(Cleared(bs, key), Cleared(cs, key), 0, -1);
    var k := Victim(Cleared(bs, key), 0, -1);
    assert k >= 0 ==> Bare(Cleared(bs, key)[k]) == Bare(Cleared(cs, key)[k]);
  }

  lemma ArrivedAlike(bs: seq<Block>, cs: seq<Block>, a: Arrival, b: Arrival)
    requires Sound(bs) && Sound(cs) && Alike(bs, cs) && a == b.(payload := a.payload) && a.key.base % DATA == 0
    ensures Alike(Arrived(bs, a), Arrived(cs, b))
  {
    hide Acquire, Unique;
    AcquireAlike(bs, cs, a.key, a.ts, a.now);
    AcquireSound(bs, a.key, a.ts, a.now);
    AcquireSound(cs, a.key, a.ts, a.now);
    var p, q := Acquire(bs, a.key, a.ts, a.now), Acquire(cs, a.key, a.ts, a.now);
    if p.at >= 0 {
      assert Bare(p.blocks[p.at]) == Bare(q.blocks[p.at]);
    }
  }

  lemma CompletedAlike(code: Code, b: Block, c: Block)
    requires Bare(b) == Bare(c) && Sized(b) && Sized(c)
    ensures Completed(code, b).Some? == Completed(code, c).Some?
    ensures Completed(code, b).Some? ==> Bare(Completed(code, b).value) == Bare(Completed(code, c).value)
  {
    hide Count, Reconstruct;
  }

  lemma RecoverAlike(code: Code, bs: seq<Block>, cs: seq<Block>, n: nat)
    requires Sound(bs) && Sound(cs) && Alike(bs, cs)
    ensures Alike(Recover(code, bs, n).blocks, Recover(code, cs, n).blocks)
  {
    hide Completed, Lookup, Unique;
    LookupAlike(bs, cs, BaseOf(n % CYCLE), 0);
    var k := Lookup(bs, BaseOf(n % CYCLE), 0);
    if k < |bs| {
      CompletedAlike(code, bs[k], cs[k]);
      CompletedShape(code, bs[k]);
      CompletedShape(code, cs[k]);
    }
  }

  lemma CompletedShape(code: Code, b: Block)
    requires Sized(b)
    ensures Completed(code, b).Some? ==> Sized(Completed(code, b).value)
  {}

  lemma FillingAlike(code: Code, g: Contents, f: Contents, sz: Sizes, op: Op)
    requires Fits(g, sz) && Fits(f, sz)
    ensures var p, q := ArrivalOf(Filling(code, g, op)), ArrivalOf(Filling(code, f, op));
            p.Some? == q.Some? && (p.Some? ==> p.value == q.value.(payload := p.value.payload))
  {
    hide Row;
    if op.Data? {
      SentSize(code, g, sz, op.n / DATA, op.n % DATA);
      SentSize(code, f, sz, op.n / DATA, op.n % DATA);
    } else if op.Parity? && ParityOk(op.head) {
      MalformedExactly(op.head);
      SentSize(code, g, sz, op.group, DATA + op.head[0]);
      SentSize(code, f, sz, op.group, DATA + op.head[0]);
    }
  }

  lemma SentSize(code: Code, g: Contents, sz: Sizes, h: nat, i: nat)
    requires Fits(g, sz)
    ensures |Sent(code, g, h, i)| == sz(h)
  {
    hide Row;
    assert Even(g(h), sz(h));
  }

  lemma ApplyAlike(code: Code, g: Contents, f: Contents, sz: Sizes, bs: seq<Block>, cs: seq<Block>, op: Op)
    requires Sound(bs) && Sound(cs) && Alike(bs, cs) && Fits(g, sz) && Fits(f, sz)
    ensures Alike(Apply(code, bs, Filling(code, g, op)), Apply(code, cs, Filling(code, f, op)))
  {
    hide Arrived, Recover, Sound, Alike, ArrivalOf, Fits, Sent;
    FillingAlike(code, g, f, sz, op);
    ArrivalBase(Filling(code, g, op));
    match ArrivalOf(Filling(code, g, op))
    case Some(a) => ArrivedAlike(bs, cs, a, ArrivalOf(Filling(code, f, op)).value);
    case None =>
      if op.Lost? {
        RecoverAlike(code, bs, cs, op.n);
      }
  }

  /** What a run does, but for the bytes, does not depend on them. */
  lemma {:induction false} RunAlike(code: Code, g: Contents, f: Contents, sz: Sizes, bs: seq<Block>, cs: seq<Block>,
      ops: seq<Op>)
    requires Sound(bs) && Sound(cs) && Alike(bs, cs) && Fits(g, sz) && Fits(f, sz)
    ensures Alike(Run(code, bs, Fillings(code, g, ops)), Run(code, cs, Fillings(code, f, ops)))
    decreases |ops|
  {
    hide Apply, Sound, Alike, Fits, Filling;
    if |ops| > 0 {
      var p, q := Fillings(code, g, ops), Fillings(code, f, ops);
      assert p[1..] == Fillings(code, g, ops[1..]) && q[1..] == Fillings(code, f, ops[1..]);
      ApplyAlike(code, g, f, sz, bs, cs, ops[0]);
      ApplySound(code, bs, p[0]);
      ApplySound(code, cs, q[0]);
      RunAlike(code, g, f, sz, Apply(code, bs, p[0]), Apply(code, cs, q[0]), ops[1..]);
    }
  }

  lemma MadeAlike(bs: seq<Block>, cs: seq<Block>, n: nat)
    requires Sound(bs) && Sound(cs) && Alike(bs, cs)
    ensures Obtainable(bs, n) == Obtainable(cs, n) && MadeOf(bs, n) == MadeOf(cs, n) && SizeAt(bs, n) == SizeAt(cs, n)
  {
    hide Count, Lookup, Unique;
    LookupAlike(bs, cs, BaseOf(n % CYCLE), 0);
    var k := Lookup(bs, BaseOf(n % CYCLE), 0);
    if k < |bs| {
      assert Bare(bs[k]) == Bare(cs[k]);
    }
  }

  // ----- exactly when the payload is the lost one -----

  /** The cache after `ops`, the packets filled with `g`. */
  ghost function After(code: Code, g: Contents, ops: seq<Op>): (bs: seq<Block>) {
    Run(code, Empty(), Fillings(code, g, ops))
  }

  lemma AfterGenuine(code: Code, g: Contents, ops: seq<Op>)
    requires Numbered(ops)
    ensures Sound(After(code, g, ops)) && Genuine(code, g, After(code, g, ops))
  {
    hide Run, AllHonest, Numbered, Sound, Genuine;
    FillingsHonest(code, g, ops);
    EmptySound();
    EmptyGenuine(code, g);
    RunGenuine(code, g, Empty(), Fillings(code, g, ops));
  }

  lemma AfterAlike(code: Code, g: Contents, f: Contents, sz: Sizes, ops: seq<Op>)
    requires Fits(g, sz) && Fits(f, sz)
    ensures Alike(After(code, g, ops), After(code, f, ops))
  {
    hide Run, Fits;
    EmptySound();
    RunAlike(code, g, f, sz, Empty(), Empty(), ops);
  }

  function Constant(x: Octet, n: nat): (s: Shard)
    ensures |s| == n
  {
    seq(n, _ => x)
  }

  /** Four shards with column `d` throughout. */
  function Stripe(d: seq<Octet>, n: nat): (r: seq<Shard>)
    requires |d| == DATA
    ensures Even(r, n)
  {
    seq(DATA, i requires 0 <= i < DATA => Constant(d[i], n))
  }

  function Zero(code: Code): (d: seq<Octet>)
    ensures |d| == DATA
  {
    seq(DATA, _ => code.zero)
  }

  /** Every group but `h` has the column `d` throughout; `h` is all zeros. */
  ghost function Striped(code: Code, sz: Sizes, h: nat, d: seq<Octet>): (g: Contents)
    requires |d| == DATA
  {
    (k: nat) => Stripe(if k == h then Zero(code) else d, sz(k))
  }

  lemma StripedFits(code: Code, sz: Sizes, h: nat, d: seq<Octet>)
    requires |d| == DATA
    ensures Fits(Striped(code, sz, h, d), sz)
  {}

  /** The shards of a striped group are striped. */
  lemma StripedSent(code: Code, sz: Sizes, h: nat, d: seq<Octet>, k: nat, i: nat)
    requires Lawful(code)
    requires |d| == DATA && i < SHARDS
    ensures Sent(code, Striped(code, sz, h, d), k, i) == Constant(if k == h then code.zero else Word(code, d, i), sz(k))
  {
    hide Row, Coded, Stripe;
    var c := if k == h then Zero(code) else d;
    CodedStripes(code, c, sz(k), i);
    if i >= DATA {
      ZeroRow(code, i - DATA);
    }
    assert Striped(code, sz, h, d)(k) == Stripe(c, sz(k));
  }

  lemma ZeroRow(code: Code, q: nat)
    requires Lawful(code)
    ensures Row(code, q, Zero(code)) == code.zero
  {
    MulZero(code, code.entry(q, 0));
    MulZero(code, code.entry(q, 1));
    MulZero(code, code.entry(q, 2));
    MulZero(code, code.entry(q, 3));
    AddZero(code, code.zero, code.zero);
  }

  /** A payload read from another group's packet: some contents tell the two groups apart. */
  lemma MisledByPacket(code: Code, ops: seq<Op>, n: nat, sz: Sizes, g0: Contents) returns (g: Contents)
    requires Lawful(code)
    requires Numbered(ops) && Fits(g0, sz) && Obtainable(After(code, g0, ops), n)
    requires MadeOf(After(code, g0, ops), n).Packet? && MadeOf(After(code, g0, ops), n).group != n / DATA
    ensures Fits(g, sz) && !RightFor(code, g, ops, n)
  {
    hide After, Numbered, Fits, Obtainable, MadeOf, SizeAt, Sound, Genuine, Recover, Row, Alike;
    var h, pos := n / DATA, n % DATA;
    var d := Unit(code, pos, code.one);
    g := Striped(code, sz, h, d);
    StripedFits(code, sz, h, d);
    AfterGenuine(code, g, ops);
    AfterGenuine(code, g0, ops);
    AfterAlike(code, g, g0, sz, ops);
    MadeAlike(After(code, g, ops), After(code, g0, ops), n);
    RecoverIs(code, g, After(code, g, ops), n);
    StripedSent(code, sz, h, d, MadeOf(After(code, g0, ops), n).group, pos);
    Telling(code, code.one, SizeAt(After(code, g, ops), n), sz(h));
  }

  lemma Telling(code: Code, x: Octet, n: nat, m: nat)
    requires x != code.zero && n > 0
    ensures Constant(x, n) != Constant(code.zero, m)
  {
    if m == n {
      assert Constant(x, n)[0] != Constant(code.zero, m)[0];
    }
  }

  /** A payload reconstructed from packets not all of the lost one's group: likewise. */
  lemma MisledBySolving(code: Code, ops: seq<Op>, n: nat, sz: Sizes, g0: Contents) returns (g: Contents)
    requires Lawful(code)
    requires Numbered(ops) && Fits(g0, sz) && Obtainable(After(code, g0, ops), n)
    requires MadeOf(After(code, g0, ops), n).Solved? && !Pure(MadeOf(After(code, g0, ops), n), n / DATA)
    ensures Fits(g, sz) && !RightFor(code, g, ops, n)
  {
    hide After, Numbered, Fits, Obtainable, MadeOf, SizeAt, Sound, Genuine, Recover, Row, Alike, Gaps, Word;
    var h, pos, o := n / DATA, n % DATA, MadeOf(After(code, g0, ops), n);
    AfterGenuine(code, g0, ops);
    SolvedOk(code, g0, After(code, g0, ops), n);
    var mine := seq(SHARDS, j requires 0 <= j < SHARDS => o.groups[j] == h);
    var d := Unnoticed(code, o.from, pos, mine);
    g := Striped(code, sz, h, d);
    StripedFits(code, sz, h, d);
    AfterGenuine(code, g, ops);
    AfterAlike(code, g, g0, sz, ops);
    MadeAlike(After(code, g, ops), After(code, g0, ops), n);
    RecoverIs(code, g, After(code, g, ops), n);
    SolvedOk(code, g, After(code, g, ops), n);
    var size := SizeAt(After(code, g, ops), n);
    SolvesStripes(code, sz, h, d, o, size, pos);
    Telling(code, d[pos], size, sz(h));
    StripedSent(code, sz, h, d, h, pos);
  }

  /** The shards read spell the stripes of the other groups, zero where the lost packet's group is read. */
  lemma SolvesStripes(code: Code, sz: Sizes, h: nat, d: seq<Octet>, o: Origin, size: nat, pos: nat)
    requires Lawful(code)
    requires |d| == DATA && pos < DATA && o.Solved? && |o.groups| == |o.from| == SHARDS
    requires Solvable(o.from) && !o.from[pos]
    requires forall j :: 0 <= j < SHARDS && Used(o.from, j) ==>
      |Sent(code, Striped(code, sz, h, d), o.groups[j], j)| == size
    requires forall j :: 0 <= j < SHARDS && Used(o.from, j) && o.groups[j] == h ==> Word(code, d, j) == code.zero
    ensures Value(code, Striped(code, sz, h, d), size, o, pos) == Constant(d[pos], size)
  {
    hide Row, Gaps, Sent, Reconstruct, Striped, Word, Coded;
    var g := Striped(code, sz, h, d);
    var e := Stripe(d, size);
    forall j | 0 <= j < SHARDS && Used(o.from, j)
      ensures Sources(code, g, o.groups)[j] == Coded(code, e, size, j)
    {
      StripedSent(code, sz, h, d, o.groups[j], j);
      CodedStripes(code, d, size, j);
    }
    ReconstructIs(code, e, size, Sources(code, g, o.groups), o.from, pos);
  }

  lemma CodedStripes(code: Code, d: seq<Octet>, size: nat, j: nat)
    requires |d| == DATA && j < SHARDS
    ensures Coded(code, Stripe(d, size), size, j) == Constant(Word(code, d, j), size)
  {
    hide Row;
    forall k | 0 <= k < size
      ensures Column(code, Stripe(d, size), k) == d
    {
    }
  }

  /** Whatever the packets carried, the payload handed out for packet `n` after `ops` is the lost one. */
  ghost predicate AlwaysRight(code: Code, ops: seq<Op>, n: nat, sz: Sizes) {
    forall g: Contents :: Fits(g, sz) ==> RightFor(code, g, ops, n)
  }

  ghost predicate RightFor(code: Code, g: Contents, ops: seq<Op>, n: nat) {
    |g(n / DATA)| == DATA && Recover(code, After(code, g, ops), n).payload == Some(g(n / DATA)[n % DATA])
  }

  lemma PureRight(code: Code, ops: seq<Op>, n: nat, sz: Sizes, g0: Contents, g: Contents)
    requires Lawful(code)
    requires Numbered(ops) && Fits(g0, sz) && Fits(g, sz)
    requires Obtainable(After(code, g0, ops), n) && Pure(MadeOf(After(code, g0, ops), n), n / DATA)
    ensures RightFor(code, g, ops, n)
  {
    hide After, Numbered, Obtainable, MadeOf, Sound, Genuine, Recover, Alike, SizeAt;
    assert Even(g(n / DATA), sz(n / DATA));
    AfterGenuine(code, g, ops);
    AfterGenuine(code, g0, ops);
    AfterAlike(code, g, g0, sz, ops);
    MadeAlike(After(code, g, ops), After(code, g0, ops), n);
    PureIsRight(code, g, sz, After(code, g, ops), n);
  }

  /**
   Over streams of any length: recovery gives the lost payload, whatever the packets carried, if and only
   if a block of its 16-bit base holds four shards and every packet that the payload is read from belongs
   to its own group, not to one a whole number of cycles away.
   */
  lemma RecoveryExact(code: Code, ops: seq<Op>, n: nat, sz: Sizes, g0: Contents)
    requires Lawful(code)
    requires Numbered(ops) && Fits(g0, sz)
    ensures AlwaysRight(code, ops, n, sz)
       <==> Obtainable(After(code, g0, ops), n) && Pure(MadeOf(After(code, g0, ops), n), n / DATA)
  {
    hide After, Numbered, Obtainable, MadeOf, Sound, Genuine, Recover, Alike, SizeAt;
    var bs := After(code, g0, ops);
    if Obtainable(bs, n) && Pure(MadeOf(bs, n), n / DATA) {
      forall g: Contents | Fits(g, sz)
        ensures RightFor(code, g, ops, n)
      {
        PureRight(code, ops, n, sz, g0, g);
      }
    } else if !Obtainable(bs, n) {
      AfterGenuine(code, g0, ops);
      RecoverIs(code, g0, bs, n);
    } else if MadeOf(bs, n).Packet? {
      var g := MisledByPacket(code, ops, n, sz, g0);
    } else {
      var g := MisledBySolving(code, ops, n, sz, g0);
    }
  }

  // ----- two runs -----

  /** One-byte packet `n` of source 1. */
  function Small(n: nat, x: Octet, now: nat): (op: Op) {
    Data(n, 0, 1, [x], 20, now)
  }

  const SMALL_KEY := Key(0, 1, PT_OPUS, 1)

  /** A packet whose block is the first one goes there. */
  lemma JoinsFirst(code: Code, bs: seq<Block>, op: Op)
    requires |bs| == BLOCKS && Sized(bs[0]) && bs[0].valid && bs[0].key == SMALL_KEY
    requires ArrivalOf(op).Some? && ArrivalOf(op).value.key == SMALL_KEY && ArrivalOf(op).value.i < SHARDS
    ensures var a, b := ArrivalOf(op).value, bs[0].(used := ArrivalOf(op).value.now);
            Apply(code, bs, op)[0] == if b.present[a.i] then b else WithShard(b, a.i, a.payload, a.group)
  {
    hide ArrivalOf;
  }

  lemma StartsFirst(code: Code, x: Octet)
    ensures var b := Apply(code, Empty(), Small(0, x, 1))[0];
            && Sized(b) && b.valid && b.key == SMALL_KEY && b.shards[0] == [x]
            && forall i :: 0 <= i < SHARDS ==> b.present[i] == (i == 0)
  {}

  /** The payload is in the cache, and still it is not handed out: one shard of six is not four. */
  lemma CachedButWithheld(code: Code, x: Octet)
    ensures var bs := Run(code, Empty(), [Small(0, x, 1)]);
            && |bs| == BLOCKS && Sized(bs[0]) && Holds(bs[0], BaseOf(0)) && bs[0].present[0] && bs[0].shards[0] == [x]
            && Recover(code, bs, 0).payload == None
  {
    hide Apply;
    StartsFirst(code, x);
    var bs := Apply(code, Empty(), Small(0, x, 1));
    RunStep(code, Empty(), [Small(0, x, 1)]);
    CountOne(bs[0].present);
    assert Lookup(bs, 0, 0) == 0 && !bs[0].present[1];
  }

  lemma CountOne(p: seq<bool>)
    requires |p| == SHARDS && forall i :: 0 <= i < SHARDS ==> p[i] == (i == 0)
    ensures Count(p) == 1
  {
    CountNone(p[1..]);
    assert p[..6] == p && p[..6][..5] == p[..5] && p[..5][..4] == p[..4] && p[..4][..3] == p[..3];
    assert p[..3][..2] == p[..2] && p[..2][..1] == p[..1] && p[..1][..0] == p[..0];
    assert Count(p[..1]) == 1 && Count(p[..2]) == 1 && Count(p[..3]) == 1 && Count(p[..4]) == 1 && Count(p[..5]) == 1;
  }

  /** Four packets carrying `x`, and after a whole cycle of 65536 the second one's number again, with `y`. */
  function Stale(x: Octet, y: Octet): (ops: seq<Op>) {
    [Small(0, x, 1), Small(1, x, 2), Small(2, x, 3), Small(3, x, 4), Small(CYCLE + 1, y, 5)]
  }

  /** The new packet is dropped, and its recovery hands out the old payload. */
  lemma StalePayload(code: Code, x: Octet, y: Octet)
    ensures Recover(code, Run(code, Empty(), Stale(x, y)), CYCLE + 1).payload == Some([x])
  {
    hide Apply, Count;
    var ops := Stale(x, y);
    StartsFirst(code, x);
    var b1 := Apply(code, Empty(), ops[0]);
    var b2 := Apply(code, b1, ops[1]);
    JoinsFirst(code, b1, ops[1]);
    var b3 := Apply(code, b2, ops[2]);
    JoinsFirst(code, b2, ops[2]);
    var b4 := Apply(code, b3, ops[3]);
    JoinsFirst(code, b3, ops[3]);
    var b5 := Apply(code, b4, ops[4]);
    JoinsFirst(code, b4, ops[4]);
    RunFive(code, ops);
    assert b5[0].shards[1] == [x] && DataWhole(b5[0].present);
    assert Lookup(b5, 0, 0) == 0;
    TakeAll([x]);
  }

  lemma RunFive(code: Code, ops: seq<Op>)
    requires |ops| == 5
    ensures Run(code, Empty(), ops)
        == Apply(code, Apply(code, Apply(code, Apply(code, Apply(code, Empty(), ops[0]), ops[1]), ops[2]), ops[3]),
            ops[4])
  {
    hide Apply;
    var b1 := Apply(code, Empty(), ops[0]);
    var b2 := Apply(code, b1, ops[1]);
    var b3 := Apply(code, b2, ops[2]);
    var b4 := Apply(code, b3, ops[3]);
    RunStep(code, Empty(), ops);
    RunStep(code, b1, ops[1..]);
    assert ops[1..][1..] == ops[2..];
    RunStep(code, b2, ops[2..]);
    assert ops[2..][1..] == ops[3..];
    RunStep(code, b3, ops[3..]);
    assert ops[3..][1..] == ops[4..];
    RunStep(code, b4, ops[4..]);
  }

  lemma RunStep(code: Code, bs: seq<Block>, ops: seq<Op>)
    requires |ops| > 0
    ensures Run(code, bs, ops) == Run(code, Apply(code, bs, ops[0]), ops[1..])
    ensures |ops| == 1 ==> Run(code, bs, ops) == Apply(code, bs, ops[0])
  {
    hide Apply;
  }
}
