/**
 How long the parity cache remembers: a group's block survives while at most seven other groups are in
 use after it, and is forgotten once eight others have been used. Both over streams of any length.
 */
module FecWindow {
  import opened Syntax
  import opened ReedSolomon
  import opened Fec
  import opened FecRecovery

  // ----- how many bases eight blocks hold -----

  ghost function Bases(bs: seq<Block>, n: nat): (r: set<nat>)
    requires n <= |bs|
  {
    if n == 0 then {} else Bases(bs, n - 1) + {bs[n - 1].key.base}
  }

  lemma {:induction false} BasesAt(bs: seq<Block>, n: nat, x: nat) returns (k: nat)
    requires n <= |bs| && x in Bases(bs, n)
    ensures k < n && bs[k].key.base == x
  {
    k := n - 1;
    if bs[n - 1].key.base != x {
      k := BasesAt(bs, n - 1, x);
    }
  }

  lemma {:induction false} BasesHold(bs: seq<Block>, n: nat, k: nat)
    requires k < n <= |bs|
    ensures bs[k].key.base in Bases(bs, n)
  {
    if k < n - 1 {
      BasesHold(bs, n - 1, k);
    }
  }

  lemma {:induction false} BasesSize(bs: seq<Block>, n: nat)
    requires n <= |bs|
    ensures |Bases(bs, n)| <= n
    ensures Unique(bs) && (forall k :: 0 <= k < |bs| ==> bs[k].valid) ==> |Bases(bs, n)| == n
  {
    if n > 0 {
      BasesSize(bs, n - 1);
      if Unique(bs) && (forall k :: 0 <= k < |bs| ==> bs[k].valid) && bs[n - 1].key.base in Bases(bs, n - 1) {
        var k := BasesAt(bs, n - 1, bs[n - 1].key.base);
        assert false;
      }
    }
  }

  lemma {:induction false} SubsetSize(a: set<nat>, b: set<nat>)
    requires a <= b
    ensures |a| <= |b|
  {
    if a != {} {
      var x :| x in a;
      SubsetSize(a - {x}, b - {x});
    }
  }

  lemma {:induction false} VictimFree(bs: seq<Block>, i: nat, pick: int, j: nat)
    requires i <= j < |bs| && -1 <= pick < i && !bs[j].valid
    ensures Victim(bs, i, pick) >= 0 && !bs[Victim(bs, i, pick)].valid
    decreases |bs| - i
  {
    if bs[i].valid {
      VictimFree(bs, i + 1, if pick < 0 || Earlier(bs[i].used, bs[pick].used) then i else pick, j);
    }
  }

  /** The block of `key` that was there, or a new one in a free, dropped or least recently used place. */
  ghost predicate Reused(bs: seq<Block>, key: Key, now: nat, q: Acquired)
    requires |q.blocks| == |bs| && 0 <= q.at < |bs|
  {
    bs[q.at].valid && bs[q.at].key == key && q.blocks[q.at] == bs[q.at].(used := now)
  }

  ghost predicate Renewed(bs: seq<Block>, key: Key, q: Acquired)
    requires |q.blocks| == |bs| && 0 <= q.at < |bs|
  {
    && q.blocks[q.at].present == Absent()
    && (forall k :: 0 <= k < |bs| ==> !(bs[k].valid && bs[k].key == key))
    && (bs[q.at].valid && bs[q.at].key.base != key.base ==>
          RightVictim(bs, q.at) && forall k :: 0 <= k < |bs| ==> !Holds(bs[k], key.base))
  }

  /** What taking a block for `key` does. */
  ghost predicate Taken(bs: seq<Block>, key: Key, now: nat, q: Acquired) {
    && |q.blocks| == |bs| && 0 <= q.at < |bs|
    && q.blocks[q.at].valid && q.blocks[q.at].key == key && q.blocks[q.at].used == now
    && (Reused(bs, key, now, q) || Renewed(bs, key, q))
    && forall k :: 0 <= k < |bs| && k != q.at ==>
         q.blocks[k] == bs[k] || (bs[k].key.base == key.base && !q.blocks[k].valid)
  }

  lemma TakenIs(bs: seq<Block>, key: Key, ts: nat, now: nat, t0: nat)
    requires |bs| > 0 && Sound(bs) && Recent(bs, t0) && SizeOk(key)
    ensures Taken(bs, key, now, Acquire(bs, key, ts, now))
  {
    hide AllShaped;
    var j := Lookup(bs, key.base, 0);
    if j == |bs| {
      VictimFrom(bs, 0, -1, t0);
    } else if bs[j].key != key {
      VictimFree(Cleared(bs, key), 0, -1, j);
    }
  }

  // ----- surviving -----

  /** A block all of whose shards are of group `h`. */
  ghost predicate Own(b: Block, h: nat) {
    && Sized(b) && (forall i :: 0 <= i < SHARDS && b.present[i] ==> Pure(b.origin[i], h))
    && (!DataWhole(b.present) ==> forall i :: 0 <= i < SHARDS && b.present[i] ==> b.origin[i].Packet?)
  }

  /** The group looked after, its key, the other groups used since time `u`, and the span of times. */
  datatype Watch = Watch(h: nat, key: Key, others: set<nat>, u: nat, t0: nat)

  ghost predicate WatchOk(w: Watch) {
    w.key.base == WireBase(w.h) && SizeOk(w.key) && |w.others| <= 7 && w.key.base !in w.others
  }

  ghost predicate Watched(bs: seq<Block>, w: Watch) {
    && |bs| == BLOCKS && Sound(bs) && Recent(bs, w.t0)
    && forall k :: 0 <= k < |bs| && bs[k].valid ==> WatchedAt(bs[k], w)
  }

  ghost predicate WatchedAt(b: Block, w: Watch) {
    if b.key.base == w.key.base then b.key == w.key && b.used >= w.u && Own(b, w.h)
    else b.used >= w.u ==> b.key.base in w.others
  }

  /** A packet in the window: the watched group's, or one of the others'. */
  ghost predicate Within(op: Op, w: Watch) {
    ArrivalOf(op).Some? ==>
      var a := ArrivalOf(op).value;
      && a.now >= w.u && InSpan(w.t0, a.now)
      && if a.key.base == w.key.base then a.key == w.key && a.group == w.h else a.key.base in w.others
  }

  ghost predicate HasAt(b: Block, base: nat, i: nat) {
    Holds(b, base) && i < |b.present| && b.present[i]
  }

  ghost predicate Has(bs: seq<Block>, base: nat, i: nat) {
    exists k :: 0 <= k < |bs| && HasAt(bs[k], base, i)
  }

  /** The least recently used of eight blocks cannot be the watched one: eight others are used after it. */
  lemma NotOldest(bs: seq<Block>, w: Watch, k: nat, x: nat)
    requires WatchOk(w) && Watched(bs, w) && k < |bs| && Holds(bs[k], w.key.base)
    requires x in w.others && forall j :: 0 <= j < |bs| ==> !Holds(bs[j], x)
    ensures !RightVictim(bs, k)
  {
    hide Own;
    if RightVictim(bs, k) {
      var b := Bases(bs, BLOCKS);
      BasesSize(bs, BLOCKS);
      BasesHold(bs, BLOCKS, k);
      forall y | y in b - {w.key.base} + {x}
        ensures y in w.others
      {
        if y != x {
          var j := BasesAt(bs, BLOCKS, y);
          assert WatchedAt(bs[j], w) && WatchedAt(bs[k], w);
        }
      }
      if x in b {
        var j := BasesAt(bs, BLOCKS, x);
      }
      assert |b - {w.key.base} + {x}| == BLOCKS;
      SubsetSize(b - {w.key.base} + {x}, w.others);
    }
  }

  /** The watched block is not the one given up. */
  lemma OwnStays(bs: seq<Block>, w: Watch, a: Arrival, q: Acquired, k: nat)
    requires WatchOk(w) && Watched(bs, w) && Taken(bs, a.key, a.now, q) && k < |bs| && Holds(bs[k], w.key.base)
    requires if a.key.base == w.key.base then a.key == w.key else a.key.base in w.others
    ensures q.blocks[k].valid && q.blocks[k].key == bs[k].key && q.blocks[k].present == bs[k].present
  {
    hide Own, RightVictim;
    assert WatchedAt(bs[k], w);
    if a.key.base == w.key.base {
      assert !Renewed(bs, a.key, q);
      assert k == q.at;
    } else if k == q.at && (forall j :: 0 <= j < |bs| ==> !Holds(bs[j], a.key.base)) {
      NotOldest(bs, w, k, a.key.base);
    }
  }

  lemma TakenWatched(bs: seq<Block>, w: Watch, a: Arrival, q: Acquired)
    requires WatchOk(w) && Watched(bs, w) && Taken(bs, a.key, a.now, q) && Sound(q.blocks)
    requires a.now >= w.u && InSpan(w.t0, a.now)
    requires if a.key.base == w.key.base then a.key == w.key else a.key.base in w.others
    ensures Watched(q.blocks, w)
    ensures forall i: nat :: Has(bs, w.key.base, i) ==> Has(q.blocks, w.key.base, i)
  {
    hide Sound, Pure;
    forall k | 0 <= k < |bs| && q.blocks[k].valid
      ensures InSpan(w.t0, q.blocks[k].used) && WatchedAt(q.blocks[k], w)
    {
      if bs[k].valid {
        assert WatchedAt(bs[k], w);
      }
      if k == q.at {
        TakenOwn(bs, w, a, q);
      }
    }
    forall i: nat | Has(bs, w.key.base, i)
      ensures Has(q.blocks, w.key.base, i)
    {
      var k :| 0 <= k < |bs| && HasAt(bs[k], w.key.base, i);
      OwnStays(bs, w, a, q, k);
      assert HasAt(q.blocks[k], w.key.base, i);
    }
  }

  lemma TakenOwn(bs: seq<Block>, w: Watch, a: Arrival, q: Acquired)
    requires a.key.base == w.key.base ==> a.key == w.key
    requires Watched(bs, w) && Taken(bs, a.key, a.now, q) && Sound(q.blocks)
    ensures a.key.base == w.key.base ==> Own(q.blocks[q.at], w.h)
  {
    hide Pure;
    if bs[q.at].valid {
      assert WatchedAt(bs[q.at], w);
    }
  }

  lemma StoredWatched(bs: seq<Block>, w: Watch, k: nat, a: Arrival)
    requires Watched(bs, w) && k < |bs| && bs[k].valid && a.i < SHARDS
    requires bs[k].key.base == w.key.base ==> a.group == w.h
    ensures Watched(Stored(bs, k, a.i, a.payload, a.group), w)
    ensures Has(Stored(bs, k, a.i, a.payload, a.group), bs[k].key.base, a.i)
    ensures forall i: nat :: Has(bs, w.key.base, i) ==> Has(Stored(bs, k, a.i, a.payload, a.group), w.key.base, i)
  {
    var cs := Stored(bs, k, a.i, a.payload, a.group);
    assert WatchedAt(bs[k], w);
    forall j | 0 <= j < |cs| && cs[j].valid
      ensures WatchedAt(cs[j], w)
    {
      assert WatchedAt(bs[j], w);
    }
    assert HasAt(cs[k], bs[k].key.base, a.i);
    forall i: nat | Has(bs, w.key.base, i)
      ensures Has(cs, w.key.base, i)
    {
      var j :| 0 <= j < |bs| && HasAt(bs[j], w.key.base, i);
      assert HasAt(cs[j], w.key.base, i);
    }
  }

  lemma ArrivedWatched(bs: seq<Block>, w: Watch, op: Op)
    requires WatchOk(w) && Watched(bs, w) && ArrivalOf(op).Some? && Within(op, w)
    ensures var a, cs := ArrivalOf(op).value, Arrived(bs, ArrivalOf(op).value);
            && Watched(cs, w) && (forall i: nat :: Has(bs, w.key.base, i) ==> Has(cs, w.key.base, i))
            && (a.key.base == w.key.base ==> Has(cs, w.key.base, a.i))
  {
    hide ArrivalOf, Acquire, Sound, Recent, Has, WatchedAt, Stored;
    ArrivalBase(op);
    var a := ArrivalOf(op).value;
    if SizeOk(a.key) {
      var q := Acquire(bs, a.key, a.ts, a.now);
      TakenIs(bs, a.key, a.ts, a.now, w.t0);
      AcquireSound(bs, a.key, a.ts, a.now);
      TakenWatched(bs, w, a, q);
      StoredWatched(q.blocks, w, q.at, a);
    } else {
      RefusedSize(bs, a);
    }
  }

  lemma RefusedSize(bs: seq<Block>, a: Arrival)
    requires !SizeOk(a.key)
    ensures Arrived(bs, a) == bs
  {}

  lemma FilledOwn(code: Code, b: Block, h: nat)
    requires Own(b, h) && !DataWhole(b.present)
    ensures Own(Filled(code, b, DATA), h)
  {
    hide Reconstruct, Gaps;
    var c := Filled(code, b, DATA);
    forall i | 0 <= i < SHARDS && c.present[i]
      ensures Pure(c.origin[i], h)
    {
      if !b.present[i] {
        forall j | 0 <= j < SHARDS && Used(b.present, j)
          ensures Groups(b)[j] == h
        {
          assert Pure(b.origin[j], h);
        }
      }
    }
  }

  lemma CompletedWatched(code: Code, b: Block, w: Watch)
    requires WatchedAt(b, w) && Sized(b) && Completed(code, b).Some?
    ensures var c := Completed(code, b).value;
            && WatchedAt(c, w) && c.used == b.used && c.key == b.key && c.valid == b.valid
            && forall i: nat :: HasAt(b, w.key.base, i) ==> HasAt(c, w.key.base, i)
  {
    hide Pure, Reconstruct, Count;
    if b.key.base == w.key.base && !DataWhole(b.present) {
      FilledOwn(code, b, w.h);
    }
  }

  lemma RecoverWatched(code: Code, bs: seq<Block>, w: Watch, n: nat)
    requires Watched(bs, w)
    ensures var cs := Recover(code, bs, n).blocks;
            Watched(cs, w) && forall i: nat :: Has(bs, w.key.base, i) ==> Has(cs, w.key.base, i)
  {
    hide Completed, WatchedAt, Unique;
    RecoverSound(code, bs, n);
    var cs := Recover(code, bs, n).blocks;
    var k := Lookup(bs, BaseOf(n % CYCLE), 0);
    if k < |bs| && Completed(code, bs[k]).Some? {
      CompletedWatched(code, bs[k], w);
    }
    forall i: nat | Has(bs, w.key.base, i)
      ensures Has(cs, w.key.base, i)
    {
      var j :| 0 <= j < |bs| && HasAt(bs[j], w.key.base, i);
      assert HasAt(cs[j], w.key.base, i);
    }
  }

  /** Packet `i` of group `h`: its data packets, then its parity packets. */
  ghost predicate Brings(op: Op, h: nat, i: nat) {
    match op
    case Data(n, _, _, _, _, _) => i < DATA && n == DATA * h + i
    case Parity(head, _, group, _) => DATA <= i < SHARDS && group == h && Headed(head, h) && head[0] == i - DATA
    case Lost(_) => false
  }

  lemma BringsArrival(op: Op, h: nat, i: nat)
    requires Brings(op, h, i)
    ensures ArrivalOf(op).Some? && ArrivalOf(op).value.key.base == WireBase(h) && ArrivalOf(op).value.i == i
  {
    hide Headed;
    if op.Data? {
      WireIs(op.n);
    } else {
      HeadedBase(op.head, h);
    }
  }

  lemma ApplyWatched(code: Code, bs: seq<Block>, w: Watch, op: Op)
    requires WatchOk(w) && Watched(bs, w) && Within(op, w)
    ensures Watched(Apply(code, bs, op), w)
    ensures forall i: nat :: Has(bs, w.key.base, i) || Brings(op, w.h, i) ==> Has(Apply(code, bs, op), w.key.base, i)
  {
    hide ArrivalOf, Arrived, Recover, Watched, Has, Within, Brings;
    forall i: nat | Brings(op, w.h, i)
      ensures ArrivalOf(op).Some? && ArrivalOf(op).value.key.base == w.key.base && ArrivalOf(op).value.i == i
    {
      BringsArrival(op, w.h, i);
    }
    match ArrivalOf(op)
    case Some(a) => ArrivedWatched(bs, w, op);
    case None =>
      if op.Lost? {
        RecoverWatched(code, bs, w, op.n);
      }
  }

  ghost predicate AllWithin(ops: seq<Op>, w: Watch) {
    forall j :: 0 <= j < |ops| ==> Within(ops[j], w)
  }

  ghost predicate Brought(ops: seq<Op>, h: nat, i: nat) {
    exists j :: 0 <= j < |ops| && Brings(ops[j], h, i)
  }

  /**
   While at most seven other groups are used, every shard of the watched group that arrived is still
   there, and no shard of any other group has joined it.
   */
  lemma {:induction false} Retained(code: Code, bs: seq<Block>, w: Watch, ops: seq<Op>, i: nat)
    requires WatchOk(w) && Watched(bs, w) && AllWithin(ops, w)
    ensures Watched(Run(code, bs, ops), w)
    ensures Has(bs, w.key.base, i) || Brought(ops, w.h, i) ==> Has(Run(code, bs, ops), w.key.base, i)
    decreases |ops|
  {
    hide Apply, Watched, Within, Has, Brings;
    if |ops| > 0 {
      var cs := Apply(code, bs, ops[0]);
      ApplyWatched(code, bs, w, ops[0]);
      if Brought(ops, w.h, i) {
        var j :| 0 <= j < |ops| && Brings(ops[j], w.h, i);
        if j > 0 {
          assert Brings(ops[1..][j - 1], w.h, i);
        }
      }
      Retained(code, cs, w, ops[1..], i);
    }
  }

  /** Four shards of the watched group: its packets can be had, and are made of its own packets. */
  lemma HasFour(bs: seq<Block>, w: Watch, n: nat, s: set<nat>)
    requires Watched(bs, w) && w.key.base == WireBase(w.h) && n / DATA == w.h
    requires |s| >= DATA && forall i :: i in s ==> Has(bs, w.key.base, i)
    ensures Obtainable(bs, n) && Pure(MadeOf(bs, n), w.h)
  {
    hide Count, Gaps;
    WireIs(n);
    var base := w.key.base;
    var i :| i in s;
    var k :| 0 <= k < |bs| && HasAt(bs[k], base, i);
    forall m | m in s
      ensures m < |bs[k].present| && bs[k].present[m]
    {
      var j :| 0 <= j < |bs| && HasAt(bs[j], base, m);
      assert j == k;
    }
    CountSet(bs[k].present, s);
    assert Lookup(bs, base, 0) == k;
    var b := bs[k];
    assert WatchedAt(b, w);
    if !b.present[n % DATA] {
      forall j | 0 <= j < SHARDS && Used(b.present, j)
        ensures Groups(b)[j] == w.h
      {
        assert Pure(b.origin[j], w.h);
      }
    }
  }

  /**
   At any time in a stream of any length: four of a group's six packets, in any order and with any
   recoveries between, while at most seven other groups are used and no older block stands under the
   group's number, give back each of its payloads, byte for byte.
   */
  lemma FourSuffice(code: Code, g: Contents, sz: Sizes, before: seq<Op>, window: seq<Op>, w: Watch, n: nat, s: set<nat>)
    requires Lawful(code)
    requires Fits(g, sz) && AllHonest(code, g, before) && AllHonest(code, g, window)
    requires WatchOk(w) && w.h == n / DATA && Watched(Run(code, Empty(), before), w) && AllWithin(window, w)
    requires |s| >= DATA && forall i :: i in s ==> Brought(window, w.h, i)
    ensures Recover(code, Run(code, Empty(), before + window), n).payload == Some(g(n / DATA)[n % DATA])
  {
    hide Run, Fits, AllHonest, AllWithin, Recover, Brought, Has, Sound, Genuine, Watched, Obtainable, MadeOf;
    EmptySound();
    EmptyGenuine(code, g);
    RunGenuine(code, g, Empty(), before);
    var bs := Run(code, Empty(), before);
    RunGenuine(code, g, bs, window);
    RunConcat(code, Empty(), before, window);
    Retained(code, bs, w, window, 0);
    forall i | i in s
      ensures Has(Run(code, bs, window), w.key.base, i)
    {
      Retained(code, bs, w, window, i);
    }
    HasFour(Run(code, bs, window), w, n, s);
    PureIsRight(code, g, sz, Run(code, bs, window), n);
  }

  // ----- forgetting -----

  ghost predicate NewerAt(b: Block, x: nat, u: nat) {
    Holds(b, x) && b.used > u
  }

  ghost predicate Newer(bs: seq<Block>, x: nat, u: nat) {
    exists k :: 0 <= k < |bs| && NewerAt(bs[k], x, u)
  }

  /** A block of `base`, not used since `u`, is there only with blocks of all of `seen`, used since. */
  ghost predicate Aging(bs: seq<Block>, base: nat, u: nat, seen: set<nat>, t0: nat) {
    && |bs| == BLOCKS && Sound(bs) && Recent(bs, t0)
    && forall k :: 0 <= k < |bs| && Holds(bs[k], base) ==> bs[k].used <= u && forall x :: x in seen ==> Newer(bs, x, u)
  }

  /** A packet of another group, after `u`. */
  ghost predicate Elsewhere(op: Op, base: nat, u: nat, t0: nat) {
    ArrivalOf(op).Some? ==>
      var a := ArrivalOf(op).value; a.key.base != base && SizeOk(a.key) && a.now > u && InSpan(t0, a.now)
  }

  ghost function UsedBy(op: Op): (s: set<nat>) {
    if ArrivalOf(op).Some? then {ArrivalOf(op).value.key.base} else {}
  }

  ghost function UsedIn(ops: seq<Op>): (s: set<nat>) {
    if |ops| == 0 then {} else UsedBy(ops[0]) + UsedIn(ops[1..])
  }

  lemma TakenAging(bs: seq<Block>, base: nat, u: nat, seen: set<nat>, t0: nat, a: Arrival, q: Acquired)
    requires Aging(bs, base, u, seen, t0) && Taken(bs, a.key, a.now, q) && Sound(q.blocks)
    requires a.key.base != base && a.now > u && InSpan(t0, a.now)
    ensures Aging(q.blocks, base, u, seen + {a.key.base}, t0)
  {
    hide Sound;
    forall k, x | 0 <= k < |bs| && Holds(q.blocks[k], base) && x in seen + {a.key.base}
      ensures q.blocks[k].used <= u && Newer(q.blocks, x, u)
    {
      assert q.blocks[k] == bs[k] && Holds(bs[k], base);
      if x == a.key.base {
        assert NewerAt(q.blocks[q.at], x, u);
      } else {
        assert Newer(bs, x, u);
        var j :| 0 <= j < |bs| && NewerAt(bs[j], x, u);
        assert NewerAt(q.blocks[j], x, u);
      }
    }
  }

  lemma StoredAging(bs: seq<Block>, base: nat, u: nat, seen: set<nat>, t0: nat, k: nat, a: Arrival)
    requires Aging(bs, base, u, seen, t0) && k < |bs|
    ensures Aging(Stored(bs, k, a.i, a.payload, a.group), base, u, seen, t0)
  {
    var cs := Stored(bs, k, a.i, a.payload, a.group);
    SameAging(bs, cs, base, u, seen, t0);
  }

  ghost predicate SameUse(b: Block, c: Block) {
    c.valid == b.valid && c.key == b.key && c.used == b.used
  }

  lemma SameAging(bs: seq<Block>, cs: seq<Block>, base: nat, u: nat, seen: set<nat>, t0: nat)
    requires Aging(bs, base, u, seen, t0) && |cs| == |bs| && Sound(cs)
    requires forall k :: 0 <= k < |bs| ==> SameUse(bs[k], cs[k])
    ensures Aging(cs, base, u, seen, t0)
  {
    hide Sound;
    forall k, x | 0 <= k < |cs| && Holds(cs[k], base) && x in seen
      ensures cs[k].used <= u && Newer(cs, x, u)
    {
      assert Holds(bs[k], base);
      assert Newer(bs, x, u);
      var j :| 0 <= j < |bs| && NewerAt(bs[j], x, u);
      assert NewerAt(cs[j], x, u);
    }
  }

  lemma ApplyAging(code: Code, bs: seq<Block>, base: nat, u: nat, seen: set<nat>, t0: nat, op: Op)
    requires Aging(bs, base, u, seen, t0) && Elsewhere(op, base, u, t0)
    ensures Aging(Apply(code, bs, op), base, u, seen + UsedBy(op), t0)
  {
    hide ArrivalOf, Acquire, Sound, Recent, Stored, Taken, Recover, Newer;
    ArrivalBase(op);
    ApplySound(code, bs, op);
    match ArrivalOf(op)
    case Some(a) =>
      var q := Acquire(bs, a.key, a.ts, a.now);
      TakenIs(bs, a.key, a.ts, a.now, t0);
      AcquireSound(bs, a.key, a.ts, a.now);
      TakenAging(bs, base, u, seen, t0, a, q);
      TakenAt(bs, a, q);
      StoredAging(q.blocks, base, u, seen + {a.key.base}, t0, q.at, a);
    case None =>
      assert seen + UsedBy(op) == seen;
      if op.Lost? {
        RecoverAging(code, bs, op.n);
        SameAging(bs, Apply(code, bs, op), base, u, seen, t0);
      }
  }

  lemma TakenAt(bs: seq<Block>, a: Arrival, q: Acquired)
    requires Taken(bs, a.key, a.now, q)
    ensures 0 <= q.at < |q.blocks|
  {}

  lemma RecoverAging(code: Code, bs: seq<Block>, n: nat)
    ensures var cs := Recover(code, bs, n).blocks;
            forall k :: 0 <= k < |bs| ==> SameUse(bs[k], cs[k])
  {
    hide Reconstruct, Count;
  }

  lemma {:induction false} RunAging(code: Code, bs: seq<Block>, base: nat, u: nat, seen: set<nat>, t0: nat,
      ops: seq<Op>)
    requires Aging(bs, base, u, seen, t0) && forall j :: 0 <= j < |ops| ==> Elsewhere(ops[j], base, u, t0)
    ensures Aging(Run(code, bs, ops), base, u, seen + UsedIn(ops), t0)
    decreases |ops|
  {
    hide Apply, Aging, Elsewhere, UsedBy;
    if |ops| == 0 {
      assert seen + UsedIn(ops) == seen;
    } else {
      ApplyAging(code, bs, base, u, seen, t0, ops[0]);
      RunAging(code, Apply(code, bs, ops[0]), base, u, seen + UsedBy(ops[0]), t0, ops[1..]);
      assert seen + UsedBy(ops[0]) + UsedIn(ops[1..]) == seen + UsedIn(ops);
    }
  }

  /** Eight other groups used since its last use: the block is gone, and its number is free again. */
  lemma Forgotten(code: Code, bs: seq<Block>, base: nat, u: nat, t0: nat, ops: seq<Op>)
    requires |bs| == BLOCKS && Sound(bs) && Recent(bs, t0)
    requires forall k :: 0 <= k < |bs| && Holds(bs[k], base) ==> bs[k].used <= u
    requires forall j :: 0 <= j < |ops| ==> Elsewhere(ops[j], base, u, t0)
    requires |UsedIn(ops)| >= 8
    ensures forall k :: 0 <= k < |Run(code, bs, ops)| ==> !Holds(Run(code, bs, ops)[k], base)
  {
    hide Run, AllShaped, Recent, Elsewhere, UsedIn;
    RunAging(code, bs, base, u, {}, t0, ops);
    var cs, seen := Run(code, bs, ops), {} + UsedIn(ops);
    assert seen == UsedIn(ops);
    forall k | 0 <= k < |cs|
      ensures !Holds(cs[k], base)
    {
      if Holds(cs[k], base) {
        TooMany(cs, base, u, seen, k);
      }
    }
  }

  lemma TooMany(bs: seq<Block>, base: nat, u: nat, seen: set<nat>, k: nat)
    requires |bs| == BLOCKS && Unique(bs) && k < |bs| && Holds(bs[k], base) && bs[k].used <= u
    requires forall x :: x in seen ==> Newer(bs, x, u)
    ensures |seen| < BLOCKS
  {
    forall x | x in seen + {base}
      ensures x in Bases(bs, BLOCKS)
    {
      if x in seen {
        var j :| 0 <= j < |bs| && NewerAt(bs[j], x, u);
        BasesHold(bs, BLOCKS, j);
      } else {
        BasesHold(bs, BLOCKS, k);
      }
    }
    assert !Newer(bs, base, u);
    BasesSize(bs, BLOCKS);
    SubsetSize(seen + {base}, Bases(bs, BLOCKS));
  }
}
