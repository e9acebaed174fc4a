/**
 The staging buffer in front of the PCM ring: decoded samples are staged, cut into chunks and pushed
 while the play thread pops at moments of its own choosing.
 */
module Staging {
  import opened AudioUnits
  import opened Ring
  import opened Waiting

  /** The samples of a list of chunks. */
  ghost function Flat(q: seq<Chunk>): (s: seq<int>) {
    if |q| == 0 then [] else q[0] + Flat(q[1..])
  }

  lemma {:induction false} FlatSnoc(q: seq<Chunk>, c: Chunk)
    ensures Flat(q + [c]) == Flat(q) + c
  {
    if |q| == 0 {
      assert q + [c] == [c] && [c][1..] == [];
    } else {
      assert (q + [c])[1..] == q[1..] + [c];
      FlatSnoc(q[1..], c);
    }
  }

  lemma FlatLast(q: seq<Chunk>, c: Chunk)
    requires q != [] && q[|q| - 1] == c
    ensures Flat(q) == Flat(q[..|q| - 1]) + c
  {
    FlatSnoc(q[..|q| - 1], c);
    assert q == q[..|q| - 1] + [c];
  }

  ghost predicate RowIs(pcm: array2<int>, slot: int, c: Chunk)
    reads pcm
  {
    && 0 <= slot < pcm.Length0 && pcm.Length1 == CHUNK == |c|
    && forall j :: 0 <= j < CHUNK ==> pcm[slot, j] == c[j]
  }

  lemma Bumped(n: nat)
    ensures (n % WRAP + 1) % WRAP == (n + 1) % WRAP
  {}

  class AudioRing {
    const pcm: array2<int>
    const depth: nat
    var head: nat
    var tail: nat
    ghost var pushes: nat
    ghost var queue: seq<Chunk>

    ghost predicate Valid()
      reads this, pcm
    {
      && pcm.Length0 == SLOTS && pcm.Length1 == CHUNK && depth <= SLOTS
      && |queue| <= depth && |queue| <= pushes
      && head == pushes % WRAP && tail == (pushes - |queue|) % WRAP
      && Rows()
    }

    ghost predicate Rows()
      reads this, pcm
    {
      |queue| <= pushes && forall k :: 0 <= k < |queue| ==> RowIs(pcm, SlotOf(pushes - |queue| + k), queue[k])
    }

    constructor (ringDepth: nat)
      requires ringDepth <= SLOTS
      ensures Valid() && depth == ringDepth && queue == [] && pushes == 0 && fresh(pcm)
    {
      pcm := new int[SLOTS, CHUNK];
      depth, head, tail, pushes, queue := ringDepth, 0, 0, 0, [];
    }

    /** In 32 bits, `head - tail` is the number of chunks queued. */
    lemma Difference()
      requires Valid()
      ensures (head - tail) % WRAP == |queue| && (head == tail <==> queue == [])
    {
      hide Rows;
      var q := pushes - |queue|;
      if pushes / WRAP == q / WRAP {
        assert head - tail == |queue|;
      } else {
        assert pushes / WRAP == q / WRAP + 1;
        assert head - tail + WRAP == |queue|;
      }
    }

    /** `ring_push_pcm`: queues the first 512 samples of `src`, unless the ring is full. */
    method Push(src: array<int>) returns (r: int)
      requires Valid() && src.Length >= CHUNK && Clear(depth, pushes)
      modifies this`head, this`pushes, this`queue, pcm
      ensures Valid() && (r == 0 <==> |old(queue)| < depth) && (r != 0 ==> r == -1)
      ensures if r == 0 then queue == old(queue) + [src[..CHUNK]] && pushes == old(pushes) + 1
              else queue == old(queue) && pushes == old(pushes)
    {
      hide RowIs;
      Difference();
      if (head - tail) % WRAP >= depth {
        return -1;
      }
      FillSlot(src);
      Bumped(pushes);
      PushRows(src[..CHUNK]);
      head, pushes, queue := (head + 1) % WRAP, pushes + 1, queue + [src[..CHUNK]];
      r := 0;
    }

    /** The copy into the slot at the head: no queued chunk is touched. */
    method FillSlot(src: array<int>)
      requires Valid() && src.Length >= CHUNK && Clear(depth, pushes) && |queue| < depth
      modifies pcm
      ensures Valid() && RowIs(pcm, SlotOf(pushes), src[..CHUNK])
    {
      var slot := head % SLOTS;
      for j := 0 to CHUNK
        invariant forall i :: 0 <= i < j ==> pcm[slot, i] == src[i]
        invariant Rows()
      {
        pcm[slot, j] := src[j];
        forall k | 0 <= k < |queue|
          ensures RowIs(pcm, SlotOf(pushes - |queue| + k), queue[k])
        {
          SlotsDiffer(pushes - |queue| + k, pushes, depth);
        }
      }
    }

    /** `ring_pop_pcm`: hands out the oldest queued chunk. */
    method Pop(dst: array<int>) returns (r: int)
      requires Valid() && dst.Length >= CHUNK
      modifies this`tail, this`queue, dst
      ensures Valid() && (r == 0 <==> old(queue) != []) && (r != 0 ==> r == -1)
      ensures if r == 0 then queue == old(queue)[1..] && dst[..CHUNK] == old(queue)[0] else queue == old(queue)
    {
      hide RowIs;
      Difference();
      if head == tail {
        return -1;
      }
      DrainSlot(dst);
      PopRows();
      Bumped(pushes - |queue|);
      tail, queue := (tail + 1) % WRAP, queue[1..];
      r := 0;
    }

    /** The copy out of the slot at the tail. */
    method DrainSlot(dst: array<int>)
      requires Valid() && dst.Length >= CHUNK && queue != []
      modifies dst
      ensures Valid() && dst[..CHUNK] == queue[0]
    {
      var slot := tail % SLOTS;
      ghost var c := queue[0];
      assert RowIs(pcm, SlotOf(pushes - |queue| + 0), c);
      for j := 0 to CHUNK
        invariant Valid() && RowIs(pcm, slot, c)
        invariant forall i :: 0 <= i < j ==> dst[i] == c[i]
      {
        dst[j] := pcm[slot, j];
      }
    }

    lemma PushRows(c: Chunk)
      requires Rows() && RowIs(pcm, SlotOf(pushes), c)
      ensures forall k :: 0 <= k < |queue| + 1 ==> RowIs(pcm, SlotOf(pushes - |queue| + k), (queue + [c])[k])
    {
      hide RowIs;
    }

    lemma PopRows()
      requires Rows() && |queue| > 0
      ensures forall k :: 0 <= k < |queue| - 1 ==> RowIs(pcm, SlotOf(pushes - (|queue| - 1) + k), queue[1..][k])
    {
      forall k | 0 <= k < |queue| - 1
        ensures RowIs(pcm, SlotOf(pushes - (|queue| - 1) + k), queue[1..][k])
      {
        assert RowIs(pcm, SlotOf(pushes - |queue| + (k + 1)), queue[k + 1]);
      }
    }
  }

  /**
   The stage, its ring, and what has been accepted and played so far. The play thread runs at moments of
   its own choosing: a schedule says how much it pops at each.
   */
  class AudioStage {
    const pops: Schedule
    const ring: AudioRing
    const stage: array<int>
    const playBuf: array<int>
    var count: nat
    var tick: nat
    ghost var played: seq<int>
    ghost var accepted: seq<int>

    ghost predicate Apart() {
      stage.Length == CAPACITY && playBuf.Length == CHUNK && stage != playBuf
    }

    /** Nothing accepted is lost, repeated or reordered. */
    ghost predicate Valid()
      reads this, ring, ring.pcm, stage
    {
      Apart() && ring.Valid() && count <= CAPACITY && Conserved()
    }

    ghost predicate Conserved()
      reads this`count, this`played, this`accepted, ring, stage
    {
      && count <= stage.Length
      && played + Flat(ring.queue) + stage[..count] == accepted
      && ring.pushes * CHUNK + count == |accepted|
    }

    /** How full stage and ring are. */
    ghost function Now(): (l: Level)
      reads this, ring
    {
      Level(tick, |ring.queue|, count)
    }

    /** `n` more samples keep the ring's counters from wrapping, unless its depth makes that harmless. */
    ghost predicate Budget(n: int)
      reads this
    {
      ring.depth <= 64 || |accepted| + n <= WRAP * CHUNK
    }

    constructor (depth: nat, schedule: Schedule)
      requires depth <= SLOTS
      ensures Valid() && played == [] && accepted == [] && ring.depth == depth && pops == schedule
      ensures Now() == Level(0, 0, 0)
      ensures fresh(ring) && fresh(ring.pcm) && fresh(stage) && fresh(playBuf)
    {
      ring := new AudioRing(depth);
      pops, tick := schedule, 0;
      stage, playBuf := new int[CAPACITY], new int[CHUNK];
      count, played, accepted := 0, [], [];
    }

    /** The play thread pops one chunk, or finds none. */
    method Play() returns (r: int)
      requires Valid()
      modifies this`played, ring`tail, ring`queue, playBuf
      ensures Valid() && (r == 0 <==> old(ring.queue) != [])
      ensures if r == 0 then ring.queue == old(ring.queue)[1..] && played == old(played) + old(ring.queue)[0]
              else ring.queue == old(ring.queue) && played == old(played)
    {
      hide ring.Valid;
      ghost var q := ring.queue;
      r := ring.Pop(playBuf);
      if r == 0 {
        played := played + q[0];
        assert Flat(q) == q[0] + Flat(q[1..]);
        assert old(played) + Flat(q) + stage[..count] == played + Flat(q[1..]) + stage[..count];
      }
    }

    /** The play thread runs once. */
    method Elapse()
      requires Valid()
      modifies this`played, this`tick, ring`tail, ring`queue, playBuf
      ensures Valid() && old(played) <= played && Now() == Elapsed(pops, old(Now()))
    {
      hide ring.Valid, Conserved;
      for i := 0 to pops(tick)
        invariant Valid() && old(played) <= played && tick == old(tick)
        invariant |ring.queue| == if i < |old(ring.queue)| then |old(ring.queue)| - i else 0
      {
        var r := Play();
      }
      tick := tick + 1;
    }

    /**
     `audio_flush_stage_to_ring`: 0 when less than a chunk is left; -1 with a full ring and a chunk or
     more still staged.
     */
    method Flush() returns (r: int)
      requires Valid() && Budget(0)
      modifies this`count, this`played, this`tick, stage, playBuf
      modifies ring`head, ring`tail, ring`pushes, ring`queue, ring.pcm
      ensures Valid() && old(played) <= played
      ensures r == 0 || r == -1
      ensures Flushing(r == 0, Now()) == Flushed(pops, ring.depth, old(Now()))
    {
      hide Conserved;
      ghost var end := Flushed(pops, ring.depth, Now());
      while count >= CHUNK
        invariant Valid() && old(played) <= played
        invariant Flushed(pops, ring.depth, Now()) == end
        decreases count
      {
        var full := FlushOne();
        if full {
          return -1;
        }
      }
      r := 0;
    }

    /** One chunk, after the play thread has run; or nothing, before a full ring. */
    method FlushOne() returns (full: bool)
      requires Valid() && Budget(0) && count >= CHUNK
      modifies this`count, this`played, this`tick, stage, playBuf
      modifies ring`head, ring`tail, ring`pushes, ring`queue, ring.pcm
      ensures Valid() && old(played) <= played
      ensures var e := Elapsed(pops, old(Now()));
              && (full <==> e.queued >= ring.depth)
              && Now() == if full then e else e.(queued := e.queued + 1, count := e.count - CHUNK)
    {
      Elapse();
      ghost var q := ring.queue;
      var pushed := ring.Push(stage);
      full := pushed < 0;
      if !full {
        assert ring.queue[..|q|] == q;
        Shift();
      }
    }

    /** The chunk just pushed leaves the stage: the rest moves down. */
    method Shift()
      requires Apart() && ring.Valid() && CHUNK <= count <= CAPACITY && ring.queue != []
      requires ring.queue[|ring.queue| - 1] == stage[..CHUNK]
      requires played + Flat(ring.queue[..|ring.queue| - 1]) + stage[..count] == accepted
      requires (ring.pushes - 1) * CHUNK + count == |accepted|
      modifies this`count, stage
      ensures Valid() && count == old(count) - CHUNK
    {
      hide ring.Valid;
      ghost var all := stage[..count];
      var remaining := count - CHUNK;
      MoveDown(remaining);
      count := remaining;
      FlatLast(ring.queue, all[..CHUNK]);
      assert all == all[..CHUNK] + all[CHUNK..] && stage[..count] == all[CHUNK..];
    }

    /** The overlapping move of `remaining` samples to the front. */
    method MoveDown(remaining: nat)
      requires stage.Length >= CHUNK + remaining
      modifies stage
      ensures stage[..remaining] == old(stage[CHUNK..CHUNK + remaining])
    {
      for j := 0 to remaining
        invariant forall i :: 0 <= i < j ==> stage[i] == old(stage[i + CHUNK])
        invariant forall i :: j <= i < stage.Length ==> stage[i] == old(stage[i])
      {
        stage[j] := stage[j + CHUNK];
      }
    }

    /** The copy of `n` samples behind the staged ones. */
    method Stage(src: array<int>, n: nat)
      requires Valid() && count + n <= CAPACITY && n <= src.Length && src != stage
      modifies this`count, this`accepted, stage
      ensures Valid() && accepted == old(accepted) + src[..n] && count == old(count) + n
    {
      hide ring.Valid;
      ghost var was := stage[..count];
      CopyIn(src, n, count);
      assert stage[..count + n] == was + src[..n];
      assert played + Flat(ring.queue) + (was + src[..n]) == played + Flat(ring.queue) + was + src[..n];
      count, accepted := count + n, accepted + src[..n];
    }

    method CopyIn(src: array<int>, n: nat, at: nat)
      requires at + n <= stage.Length && n <= src.Length && src != stage
      modifies stage
      ensures stage[..at] == old(stage[..at]) && stage[at..at + n] == src[..n]
    {
      for j := 0 to n
        invariant forall i :: 0 <= i < at ==> stage[i] == old(stage[i])
        invariant forall i :: 0 <= i < j ==> stage[at + i] == src[i]
      {
        stage[at + j] := src[j];
      }
    }

    /**
     `audio_stage_append_and_flush`: -1 for an impossible length and -2 when waiting did not help, both
     adding nothing; otherwise every sample is accepted, and 1 only says that a chunk or more is still
     staged before a full ring.
     */
    method AppendAndFlush(src: array<int>, n: int) returns (r: int)
      requires Valid() && n <= src.Length && src != stage && src != playBuf && Budget(if n < 0 then 0 else n)
      modifies this`count, this`played, this`tick, this`accepted, stage, playBuf
      modifies ring`head, ring`tail, ring`pushes, ring`queue, ring.pcm
      ensures Valid() && old(played) <= played
      ensures Appending(r, Now()) == Append(pops, ring.depth, n, old(Now()))
      ensures r == -1 <==> n <= 0 || n > CAPACITY
      ensures accepted == if r >= 0 then old(accepted) + old(src[..n]) else old(accepted)
      ensures r == 0 ==> count < CHUNK
      ensures r == 1 ==> count >= CHUNK && |ring.queue| == ring.depth
    {
      hide Conserved, Flushed, Elapsed;
      if n <= 0 || n > CAPACITY {
        return -1;
      }
      var room := WaitForRoom(n);
      if !room {
        return -2;
      }
      Stage(src, n);
      var flushed := Flush();
      r := if flushed == 0 then 0 else 1;
    }

    /** The wait loop: flush, and give the play thread time, at most 24 times. */
    method WaitForRoom(n: nat) returns (room: bool)
      requires Valid() && Budget(0)
      modifies this`count, this`played, this`tick, stage, playBuf
      modifies ring`head, ring`tail, ring`pushes, ring`queue, ring.pcm
      ensures Valid() && old(played) <= played
      ensures Waited(room, Now()) == WaitFor(pops, ring.depth, n, 0, old(Now()))
    {
      hide ring.Valid, Conserved, Flushed, Elapsed;
      ghost var end := WaitFor(pops, ring.depth, n, 0, Now());
      var waits := 0;
      while count + n > CAPACITY
        invariant Valid() && old(played) <= played && waits <= WAITS
        invariant WaitFor(pops, ring.depth, n, waits, Now()) == end
        decreases WAITS - waits
      {
        var flushed := Flush();
        if flushed == 0 && count + n <= CAPACITY {
          return true;
        }
        waits := waits + 1;
        if waits > WAITS {
          return false;
        }
        Elapse();
      }
      room := true;
    }
  }
}
