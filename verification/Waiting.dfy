/**
 How full the stage and the ring are while samples are appended: the flush and the wait loop on counts
 alone, under any schedule of the play thread.
 */
module Waiting {
  import opened AudioUnits
  import opened Ring

  /** AUDIO_STAGE_CAPACITY: four frames of 2880 samples. */
  const CAPACITY: nat := 11520
  const WAITS: nat := 24

  /** The most chunks the play thread pops at each moment it runs. */
  type Schedule = nat -> nat

  /** The moments passed, the chunks in the ring and the samples staged. */
  datatype Level = Level(tick: nat, queued: nat, count: nat)

  /** The play thread runs once. */
  function Elapsed(pops: Schedule, l: Level): (m: Level) {
    l.(tick := l.tick + 1, queued := if pops(l.tick) < l.queued then l.queued - pops(l.tick) else 0)
  }

  datatype Flushing = Flushing(done: bool, level: Level)

  /** Chunks move to the ring until less than a chunk is staged, or the ring is found full. */
  function Flushed(pops: Schedule, depth: nat, l: Level): (f: Flushing)
    ensures f.level.count <= l.count && (f.done <==> f.level.count < CHUNK)
    ensures !f.done ==> f.level.queued >= depth
    decreases l.count
  {
    if l.count < CHUNK then Flushing(true, l) else
      var e := Elapsed(pops, l);
      if e.queued >= depth then Flushing(false, e)
      else Flushed(pops, depth, e.(queued := e.queued + 1, count := e.count - CHUNK))
  }

  predicate Room(l: Level, n: nat) {
    l.count + n <= CAPACITY
  }

  datatype Waited = Waited(room: bool, level: Level)

  /** The wait loop, `waits` waits done. */
  function WaitFor(pops: Schedule, depth: nat, n: nat, waits: nat, l: Level): (w: Waited)
    ensures w.room ==> Room(w.level, n)
    decreases WAITS - waits
  {
    if Room(l, n) then Waited(true, l) else
      var f := Flushed(pops, depth, l);
      if f.done && Room(f.level, n) then Waited(true, f.level)
      else if waits >= WAITS then Waited(false, f.level)
      else WaitFor(pops, depth, n, waits + 1, Elapsed(pops, f.level))
  }

  datatype Appending = Appending(code: int, level: Level)

  function Append(pops: Schedule, depth: nat, n: int, l: Level): (a: Appending) {
    if n <= 0 || n > CAPACITY then Appending(-1, l) else
      var w := WaitFor(pops, depth, n, 0, l);
      if !w.room then Appending(-2, w.level) else
        var f := Flushed(pops, depth, w.level.(count := w.level.count + n));
        Appending(if f.done then 0 else 1, f.level)
  }

  // ----- exactly when -2 is returned -----

  /** The level before flush `k` of the wait loop (from 0), if it comes to that. */
  function Before(pops: Schedule, depth: nat, l: Level, k: nat): (m: Level) {
    if k == 0 then l else Elapsed(pops, Flushed(pops, depth, Before(pops, depth, l, k - 1)).level)
  }

  function FlushAt(pops: Schedule, depth: nat, l: Level, k: nat): (f: Flushing) {
    Flushed(pops, depth, Before(pops, depth, l, k))
  }

  /** None of the flushes `k` to 23 makes room. */
  ghost predicate NoRoomFrom(pops: Schedule, depth: nat, n: nat, l: Level, k: nat) {
    forall i :: k <= i < WAITS ==> !Room(FlushAt(pops, depth, l, i).level, n)
  }

  lemma {:induction false} WaitIs(pops: Schedule, depth: nat, n: nat, l: Level, k: nat)
    requires k <= WAITS && !Room(Before(pops, depth, l, k), n)
    ensures var w, last := WaitFor(pops, depth, n, k, Before(pops, depth, l, k)), FlushAt(pops, depth, l, WAITS);
            && (!w.room <==> NoRoomFrom(pops, depth, n, l, k) && !(last.done && Room(last.level, n)))
            && (!w.room ==> w.level == last.level)
    decreases WAITS - k
  {
    hide Flushed, Elapsed;
    var f := FlushAt(pops, depth, l, k);
    if k < WAITS {
      var next := Before(pops, depth, l, k + 1);
      ElapsedCount(pops, f.level);
      assert Room(next, n) <==> Room(f.level, n);
      if !Room(next, n) {
        WaitIs(pops, depth, n, l, k + 1);
        assert NoRoomFrom(pops, depth, n, l, k) <==> NoRoomFrom(pops, depth, n, l, k + 1);
      }
    }
  }

  lemma ElapsedCount(pops: Schedule, l: Level)
    ensures Elapsed(pops, l).count == l.count
  {}

  /**
   An append of a possible length is refused exactly when it does not fit as it stands, none of the first
   24 flushes makes room, and the 25th either makes none or ends on a full ring.
   */
  lemma RefusedExactly(pops: Schedule, depth: nat, n: int, l: Level)
    requires 0 < n <= CAPACITY
    ensures var last := FlushAt(pops, depth, l, WAITS);
            Append(pops, depth, n, l).code == -2 <==>
              !Room(l, n) && NoRoomFrom(pops, depth, n, l, 0) && !(last.done && Room(last.level, n))
  {
    hide Flushed, WaitFor;
    if Room(l, n) {
      RoomAtOnce(pops, depth, n, l);
    } else {
      WaitIs(pops, depth, n, l, 0);
    }
  }

  lemma RoomAtOnce(pops: Schedule, depth: nat, n: nat, l: Level)
    requires Room(l, n)
    ensures WaitFor(pops, depth, n, 0, l) == Waited(true, l)
  {}

  /**
   It is refused although there is room, in the end, exactly when the 25th flush is the first to make room
   and it ends on a full ring.
   */
  lemma RefusedWithRoom(pops: Schedule, depth: nat, n: int, l: Level)
    requires 0 < n <= CAPACITY
    ensures var a, last := Append(pops, depth, n, l), FlushAt(pops, depth, l, WAITS);
            a.code == -2 && Room(a.level, n) <==>
              !Room(l, n) && NoRoomFrom(pops, depth, n, l, 0) && Room(last.level, n) && !last.done
  {
    hide Flushed, WaitFor;
    if Room(l, n) {
      RoomAtOnce(pops, depth, n, l);
    } else {
      WaitIs(pops, depth, n, l, 0);
    }
  }

  /** The codes of an append: refused for its length or for want of room, flushed, or a chunk or more left. */
  lemma AppendCodes(pops: Schedule, depth: nat, n: int, l: Level)
    ensures var a := Append(pops, depth, n, l);
            && a.code in {-2, -1, 0, 1} && (a.code == -1 <==> n <= 0 || n > 11520) && (a.code == -1 ==> a.level == l)
            && (a.code == 0 ==> a.level.count < 512)
            && (a.code == 1 ==> a.level.count >= 512 && a.level.queued >= depth)
  {}

  // ----- a run in which it happens -----

  /** With a play thread that does not run for a while, a flush moves what fits. */
  lemma {:induction false} QuietFlush(pops: Schedule, depth: nat, l: Level, m: nat)
    requires l.queued + m <= depth && CHUNK * m <= l.count && (l.queued + m == depth || l.count - CHUNK * m < CHUNK)
    requires forall t :: l.tick <= t <= l.tick + m ==> pops(t) == 0
    ensures var rest := l.count - CHUNK * m;
            Flushed(pops, depth, l)
            == Flushing(rest < CHUNK, Level(l.tick + m + (if rest < CHUNK then 0 else 1), l.queued + m, rest))
    decreases m
  {
    if m > 0 {
      assert pops(l.tick) == 0;
      var e := Elapsed(pops, l);
      QuietFlush(pops, depth, e.(queued := e.queued + 1, count := e.count - CHUNK), m - 1);
    } else if l.count >= CHUNK {
      assert pops(l.tick) == 0;
    }
  }

  function Appends(pops: Schedule, depth: nat, l: Level, ns: seq<int>): (r: (seq<int>, Level))
    decreases |ns|
  {
    if |ns| == 0 then ([], l) else
      var a := Append(pops, depth, ns[0], l);
      var r := Appends(pops, depth, a.level, ns[1..]);
      ([a.code] + r.0, r.1)
  }

  /** One chunk is played, at moment 146. */
  const LATE: Schedule := t => if t == 146 then 1 else 0

  const FULL: Level := Level(98, SLOTS, 22 * CHUNK)

  lemma QuietAppend(n: int, l: Level, m: nat)
    requires 0 < n && Room(l, n) && l.queued + m <= SLOTS && l.tick + m < 146
    requires var c := l.count + n; CHUNK * m <= c && (l.queued + m == SLOTS || c - CHUNK * m < CHUNK)
    ensures var rest := l.count + n - CHUNK * m;
            Append(LATE, SLOTS, n, l)
            == Appending(if rest < CHUNK then 0 else 1,
                         Level(l.tick + m + (if rest < CHUNK then 0 else 1), l.queued + m, rest))
  {
    hide Flushed, WaitFor;
    RoomAtOnce(LATE, SLOTS, n, l);
    QuietFlush(LATE, SLOTS, l.(count := l.count + n), m);
  }

  /** Before each of the first 25 flushes nothing has moved. */
  lemma {:induction false} StuckAt(k: nat)
    requires k <= WAITS
    ensures Before(LATE, SLOTS, FULL, k) == FULL.(tick := 98 + 2 * k)
    ensures k < WAITS ==> FlushAt(LATE, SLOTS, FULL, k) == Flushing(false, FULL.(tick := 98 + 2 * k + 1))
  {
    if k > 0 {
      StuckAt(k - 1);
    }
    if k < WAITS {
      QuietFlush(LATE, SLOTS, FULL.(tick := 98 + 2 * k), 0);
    }
  }

  /** The 25th flush moves one chunk, for which there was just room, and finds the ring full again. */
  lemma LastFlush()
    ensures FlushAt(LATE, SLOTS, FULL, WAITS) == Flushing(false, Level(148, SLOTS, 21 * CHUNK))
  {
    StuckAt(WAITS);
    var l := FULL.(tick := 146);
    var e := Elapsed(LATE, l);
    assert e == Level(147, SLOTS - 1, 22 * CHUNK);
    QuietFlush(LATE, SLOTS, Level(147, SLOTS, 21 * CHUNK), 0);
  }

  /**
   From an empty stage: four appends go through, two leave chunks staged before a full ring, and the last
   is refused although, when it is, there is room for it.
   */
  lemma RefusedThoughItFits()
    ensures Appends(LATE, SLOTS, Level(0, 0, 0), [11264, 11264, 11264, 11264, 11264, 4096, 512])
         == ([0, 0, 0, 0, 1, 1, -2], Level(148, SLOTS, 21 * CHUNK))
    ensures Room(Level(148, SLOTS, 21 * CHUNK), 512)
  {
    hide Append;
    QuietAppend(11264, Level(0, 0, 0), 22);
    QuietAppend(11264, Level(22, 22, 0), 22);
    QuietAppend(11264, Level(44, 44, 0), 22);
    QuietAppend(11264, Level(66, 66, 0), 22);
    QuietAppend(11264, Level(88, 88, 0), 8);
    QuietAppend(4096, Level(97, 96, 7168), 0);
    LastRefused();
    var end := Level(148, SLOTS, 21 * CHUNK);
    AppendsStep(FULL, 512, -2, end, [], [], end);
    AppendsStep(Level(97, 96, 7168), 4096, 1, FULL, [512], [-2], end);
    AppendsStep(Level(88, 88, 0), 11264, 1, Level(97, 96, 7168), [4096, 512], [1, -2], end);
    AppendsStep(Level(66, 66, 0), 11264, 0, Level(88, 88, 0), [11264, 4096, 512], [1, 1, -2], end);
    AppendsStep(Level(44, 44, 0), 11264, 0, Level(66, 66, 0), [11264, 11264, 4096, 512], [0, 1, 1, -2], end);
    AppendsStep(Level(22, 22, 0), 11264, 0, Level(44, 44, 0), [11264, 11264, 11264, 4096, 512], [0, 0, 1, 1, -2], end);
    AppendsStep(Level(0, 0, 0), 11264, 0, Level(22, 22, 0),
                [11264, 11264, 11264, 11264, 4096, 512], [0, 0, 0, 1, 1, -2], end);
    assert [11264] + [11264, 11264, 11264, 11264, 4096, 512] == [11264, 11264, 11264, 11264, 11264, 4096, 512];
    assert [0] + [0, 0, 0, 1, 1, -2] == [0, 0, 0, 0, 1, 1, -2];
    assert [11264] + [11264, 11264, 11264, 4096, 512] == [11264, 11264, 11264, 11264, 4096, 512];
    assert [0] + [0, 0, 1, 1, -2] == [0, 0, 0, 1, 1, -2];
    assert [11264] + [11264, 11264, 4096, 512] == [11264, 11264, 11264, 4096, 512];
    assert [0] + [0, 1, 1, -2] == [0, 0, 1, 1, -2];
    assert [11264] + [11264, 4096, 512] == [11264, 11264, 4096, 512] && [0] + [1, 1, -2] == [0, 1, 1, -2];
    assert [11264] + [4096, 512] == [11264, 4096, 512] && [1] + [1, -2] == [1, 1, -2];
    assert [4096] + [512] == [4096, 512] && [1] + [-2] == [1, -2] && [512] + [] == [512];
  }

  lemma AppendsStep(l: Level, n: int, code: int, m: Level, ns: seq<int>, codes: seq<int>, end: Level)
    requires Append(LATE, SLOTS, n, l) == Appending(code, m)
    ensures Appends(LATE, SLOTS, m, ns) == (codes, end) ==> Appends(LATE, SLOTS, l, [n] + ns) == ([code] + codes, end)
    ensures ns == [] ==> Appends(LATE, SLOTS, l, [n] + ns) == ([code], m)
  {
    hide Append;
    assert ([n] + ns)[1..] == ns;
    assert Appends(LATE, SLOTS, m, []) == ([], m) && [code] + [] == [code];
  }

  lemma LastRefused()
    ensures Append(LATE, SLOTS, 512, FULL) == Appending(-2, Level(148, SLOTS, 21 * CHUNK))
  {
    hide Flushed, WaitFor, FlushAt;
    forall i | 0 <= i < WAITS
      ensures !Room(FlushAt(LATE, SLOTS, FULL, i).level, 512)
    {
      StuckAt(i);
    }
    LastFlush();
    WaitIs(LATE, SLOTS, 512, FULL, 0);
  }
}
