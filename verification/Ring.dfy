/**
 The lock-free single-producer/single-consumer PCM ring as a machine of interleaved steps. A push and
 a pop are each cut at the read of the other side's index, at every sample copied and at the bump of
 the own index; the two sides' steps interleave in any order.
 */
module Ring {
  import opened AudioUnits

  const SLOTS: nat := 96

  type Chunk = seq<int>

  /** The pushing thread: between calls, or with `n` samples of `src` in the slot. */
  datatype Pusher = Resting | Filling(src: Chunk, n: nat)

  /** The popping thread: between calls, or with the samples `got` taken from the slot. */
  datatype Popper = Waiting | Draining(got: Chunk)

  /** The ring, the two threads, and the chunks pushed and popped so far. */
  datatype State = State(
    slots: seq<Chunk>, head: nat, tail: nat,
    pusher: Pusher, popper: Popper,
    pushed: seq<Chunk>, popped: seq<Chunk>)

  datatype Step = PushBegin(src: Chunk) | PushCopy | PushBump | PopBegin | PopCopy | PopBump

  function Silence(): (c: Chunk)
    ensures |c| == CHUNK
  {
    seq(CHUNK, _ => 0)
  }

  function Init(): (s: State) {
    State(seq(SLOTS, _ => Silence()), 0, 0, Resting, Waiting, [], [])
  }

  /** `head - tail` in 32 bits. */
  function Queued(s: State): (n: int) {
    (s.head - s.tail) % WRAP
  }

  /** One step of either thread; a step its thread is not ready for changes nothing. */
  function Next(depth: nat, s: State, step: Step): (t: State) {
    match step
    case PushBegin(src) =>
      if s.pusher.Resting? && |src| == CHUNK && Queued(s) < depth then s.(pusher := Filling(src, 0)) else s
    case PushCopy =>
      var slot := s.head % SLOTS;
      if s.pusher.Filling? && s.pusher.n < |s.pusher.src| && slot < |s.slots| && s.pusher.n < |s.slots[slot]| then
        s.(slots := s.slots[slot := s.slots[slot][s.pusher.n := s.pusher.src[s.pusher.n]]],
           pusher := s.pusher.(n := s.pusher.n + 1))
      else s
    case PushBump =>
      if s.pusher.Filling? && s.pusher.n == |s.pusher.src| then
        s.(head := (s.head + 1) % WRAP, pusher := Resting, pushed := s.pushed + [s.pusher.src])
      else s
    case PopBegin =>
      if s.popper.Waiting? && s.head != s.tail then s.(popper := Draining([])) else s
    case PopCopy =>
      var slot := s.tail % SLOTS;
      if s.popper.Draining? && slot < |s.slots| && |s.popper.got| < |s.slots[slot]| then
        s.(popper := Draining(s.popper.got + [s.slots[slot][|s.popper.got|]]))
      else s
    case PopBump =>
      if s.popper.Draining? && |s.popper.got| == CHUNK then
        s.(tail := (s.tail + 1) % WRAP, popper := Waiting, popped := s.popped + [s.popper.got])
      else s
  }

  function Run(depth: nat, s: State, steps: seq<Step>): (t: State)
    decreases |steps|
  {
    if |steps| == 0 then s else Run(depth, Next(depth, s, steps[0]), steps[1..])
  }

  /** Popped chunks are the pushed ones, in order. */
  ghost predicate Fifo(s: State) {
    s.popped <= s.pushed
  }

  /** The two threads never copy in one slot. */
  ghost predicate Apart(s: State) {
    s.pusher.Filling? && s.popper.Draining? ==> s.head % SLOTS != s.tail % SLOTS
  }

  // ----- the invariant -----

  /** The slot of the `k`-th chunk pushed. */
  function SlotOf(k: nat): (i: nat)
    ensures i < SLOTS
  {
    k % WRAP % SLOTS
  }

  /** Depths that keep chunk `k` clear of the chunks still queued: 2^32 leaves 64 when cut in 96s. */
  predicate Clear(depth: nat, k: nat) {
    depth <= 64 || (depth <= SLOTS && k < WRAP)
  }

  lemma SlotsDiffer(j: nat, k: nat, depth: nat)
    requires j < k < j + depth && Clear(depth, k)
    ensures SlotOf(j) != SlotOf(k)
  {
    var a, b := j % WRAP, k % WRAP;
    if j / WRAP == k / WRAP {
      assert b - a == k - j;
    } else {
      assert k / WRAP == j / WRAP + 1;
      assert b + (WRAP - a) == k - j;
      assert a % SLOTS == 64 - (WRAP - a);
    }
  }

  ghost predicate Shaped(s: State) {
    |s.slots| == SLOTS && forall i :: 0 <= i < SLOTS ==> |s.slots[i]| == CHUNK
  }

  /** Queued chunks sit whole in their slots. */
  ghost predicate Stored(s: State) {
    |s.slots| == SLOTS && forall k :: |s.popped| <= k < |s.pushed| ==> s.slots[SlotOf(k)] == s.pushed[k]
  }

  ghost predicate Counted(depth: nat, s: State) {
    && s.head == |s.pushed| % WRAP && s.tail == |s.popped| % WRAP
    && |s.popped| <= |s.pushed| <= |s.popped| + depth
  }

  ghost predicate PusherOk(depth: nat, s: State) {
    s.pusher.Filling? ==>
      && |s.pusher.src| == CHUNK && s.pusher.n <= CHUNK && |s.pushed| < |s.popped| + depth
      && |s.slots| == SLOTS && |s.slots[SlotOf(|s.pushed|)]| == CHUNK
      && s.slots[SlotOf(|s.pushed|)][..s.pusher.n] == s.pusher.src[..s.pusher.n]
  }

  ghost predicate PopperOk(s: State) {
    s.popper.Draining? ==> |s.popped| < |s.pushed| && s.popper.got <= s.pushed[|s.popped|]
  }

  ghost predicate Sized(s: State) {
    forall k :: 0 <= k < |s.pushed| ==> |s.pushed[k]| == CHUNK
  }

  ghost predicate Inv(depth: nat, s: State) {
    Fifo(s) && Shaped(s) && Stored(s) && Counted(depth, s) && PusherOk(depth, s) && PopperOk(s) && Sized(s)
  }

  lemma InitInv(depth: nat)
    ensures Inv(depth, Init())
  {}

  /** While the counters are in step, 32-bit subtraction and comparison are exact. */
  lemma QueuedIs(depth: nat, s: State)
    requires Counted(depth, s) && depth <= SLOTS
    ensures Queued(s) == |s.pushed| - |s.popped|
    ensures s.head == s.tail <==> |s.pushed| == |s.popped|
  {
    var p, q := |s.pushed|, |s.popped|;
    if p / WRAP == q / WRAP {
      assert s.head - s.tail == p - q;
    } else {
      assert p / WRAP == q / WRAP + 1;
      assert s.head - s.tail + WRAP == p - q;
    }
  }

  /** Neither side touches the slot the other is copying. */
  lemma InvApart(depth: nat, s: State)
    requires Inv(depth, s) && Clear(depth, |s.pushed|)
    ensures Apart(s)
  {
    if s.pusher.Filling? && s.popper.Draining? {
      SlotsDiffer(|s.popped|, |s.pushed|, depth);
    }
  }

  lemma PushBeginInv(depth: nat, s: State, src: Chunk)
    requires Inv(depth, s) && depth <= SLOTS
    ensures Inv(depth, Next(depth, s, PushBegin(src)))
  {
    QueuedIs(depth, s);
  }

  lemma PushCopyInv(depth: nat, s: State)
    requires Inv(depth, s) && Clear(depth, |s.pushed|)
    ensures Inv(depth, Next(depth, s, PushCopy))
  {
    var t := Next(depth, s, PushCopy);
    if s.pusher.Filling? && s.pusher.n < CHUNK {
      var slot, n := SlotOf(|s.pushed|), s.pusher.n;
      forall k | |s.popped| <= k < |s.pushed|
        ensures t.slots[SlotOf(k)] == t.pushed[k]
      {
        SlotsDiffer(k, |s.pushed|, depth);
      }
      assert t.slots[slot][..n + 1] == s.slots[slot][..n] + [s.pusher.src[n]];
      assert s.pusher.src[..n + 1] == s.pusher.src[..n] + [s.pusher.src[n]];
    }
  }

  lemma PushBumpInv(depth: nat, s: State)
    requires Inv(depth, s)
    ensures Inv(depth, Next(depth, s, PushBump))
  {
    hide Silence, Queued, Apart;
    if s.pusher.Filling? && s.pusher.n == CHUNK {
      var slot := s.slots[SlotOf(|s.pushed|)];
      assert slot[..CHUNK] == slot && s.pusher.src[..CHUNK] == s.pusher.src;
      var t := Next(depth, s, PushBump);
      assert Counted(depth, t);
      assert Stored(t);
    }
  }

  lemma PopBeginInv(depth: nat, s: State)
    requires Inv(depth, s) && depth <= SLOTS
    ensures Inv(depth, Next(depth, s, PopBegin))
  {
    QueuedIs(depth, s);
  }

  lemma PopCopyInv(depth: nat, s: State)
    requires Inv(depth, s)
    ensures Inv(depth, Next(depth, s, PopCopy))
  {}

  lemma PopBumpInv(depth: nat, s: State)
    requires Inv(depth, s)
    ensures Inv(depth, Next(depth, s, PopBump))
  {
    hide Silence, Queued, Apart;
    if s.popper.Draining? && |s.popper.got| == CHUNK {
      var q := |s.popped|;
      var t := Next(depth, s, PopBump);
      assert s.popper.got == s.pushed[q];
      assert Counted(depth, t);
      assert Fifo(t);
    }
  }

  lemma NextInv(depth: nat, s: State, step: Step)
    requires Inv(depth, s) && Clear(depth, |s.pushed|)
    ensures Inv(depth, Next(depth, s, step))
  {
    hide Inv, Next;
    match step
    case PushBegin(src) => PushBeginInv(depth, s, src);
    case PushCopy => PushCopyInv(depth, s);
    case PushBump => PushBumpInv(depth, s);
    case PopBegin => PopBeginInv(depth, s);
    case PopCopy => PopCopyInv(depth, s);
    case PopBump => PopBumpInv(depth, s);
  }

  lemma {:induction false} PushesGrow(depth: nat, s: State, steps: seq<Step>)
    ensures s.pushed <= Run(depth, s, steps).pushed
    decreases |steps|
  {
    if |steps| > 0 {
      PushesGrow(depth, Next(depth, s, steps[0]), steps[1..]);
    }
  }

  lemma {:induction false} RunInv(depth: nat, s: State, steps: seq<Step>)
    requires Inv(depth, s) && Clear(depth, |Run(depth, s, steps).pushed|)
    ensures Inv(depth, Run(depth, s, steps))
    decreases |steps|
  {
    hide Inv, Next;
    if |steps| > 0 {
      PushesGrow(depth, s, steps);
      NextInv(depth, s, steps[0]);
      RunInv(depth, Next(depth, s, steps[0]), steps[1..]);
    }
  }

  /** The ring is right over every interleaving of fewer than 2^32 pushes, at any depth up to 96. */
  lemma RingSafe(depth: nat, steps: seq<Step>)
    requires depth <= SLOTS && |Run(depth, Init(), steps).pushed| < WRAP
    ensures var s := Run(depth, Init(), steps); Fifo(s) && Apart(s)
  {
    InitInv(depth);
    RunInv(depth, Init(), steps);
    InvApart(depth, Run(depth, Init(), steps));
  }

  // ----- past the wrap -----

  /** Whole, uninterrupted calls. */
  function WholePush(src: Chunk): (steps: seq<Step>) {
    [PushBegin(src)] + (seq(CHUNK, _ => PushCopy) + [PushBump])
  }

  function WholePop(): (steps: seq<Step>) {
    [PopBegin] + (seq(CHUNK, _ => PopCopy) + [PopBump])
  }

  function AfterPush(s: State, src: Chunk): (t: State)
    requires |s.slots| == SLOTS
  {
    s.(slots := s.slots[s.head % SLOTS := src], head := (s.head + 1) % WRAP, pushed := s.pushed + [src])
  }

  function AfterPop(s: State): (t: State)
    requires |s.slots| == SLOTS
  {
    s.(tail := (s.tail + 1) % WRAP, popped := s.popped + [s.slots[s.tail % SLOTS]])
  }

  ghost predicate Quiet(s: State) {
    s.pusher.Resting? && s.popper.Waiting? && Shaped(s)
  }

  lemma {:induction false} RunConcat(depth: nat, s: State, a: seq<Step>, b: seq<Step>)
    ensures Run(depth, s, a + b) == Run(depth, Run(depth, s, a), b)
    decreases |a|
  {
    hide Next;
    if |a| == 0 {
      assert a + b == b;
    } else {
      assert (a + b)[1..] == a[1..] + b;
      RunConcat(depth, Next(depth, s, a[0]), a[1..], b);
    }
  }

  lemma CallRun(depth: nat, s: State, first: Step, copies: seq<Step>, last: Step)
    ensures Run(depth, s, [first] + (copies + [last]))
         == Next(depth, Run(depth, Next(depth, s, first), copies), last)
  {
    hide Next;
    var t := Next(depth, s, first);
    var u := Run(depth, t, copies);
    assert ([first] + (copies + [last]))[1..] == copies + [last];
    RunConcat(depth, t, copies, [last]);
    assert Run(depth, u, [last]) == Run(depth, Next(depth, u, last), [last][1..]);
  }

  lemma {:induction false} FillRun(depth: nat, s: State, src: Chunk, n: nat, slot: Chunk)
    requires Shaped(s) && |src| == CHUNK && n <= CHUNK && s.pusher == Filling(src, n)
    requires slot == s.slots[s.head % SLOTS] && slot[..n] == src[..n]
    ensures Run(depth, s, seq(CHUNK - n, _ => PushCopy))
         == s.(slots := s.slots[s.head % SLOTS := src], pusher := Filling(src, CHUNK))
    decreases CHUNK - n
  {
    var steps := seq(CHUNK - n, _ => PushCopy);
    if n == CHUNK {
      assert slot[..n] == slot && src[..n] == src;
      assert s.slots[s.head % SLOTS := src] == s.slots;
    } else {
      var t := Next(depth, s, PushCopy);
      var more := slot[n := src[n]];
      assert more[..n + 1] == slot[..n] + [src[n]] && src[..n + 1] == src[..n] + [src[n]];
      assert steps[1..] == seq(CHUNK - (n + 1), _ => PushCopy);
      FillRun(depth, t, src, n + 1, more);
      assert t.slots[s.head % SLOTS := src] == s.slots[s.head % SLOTS := src];
    }
  }

  lemma WholePushRun(depth: nat, s: State, src: Chunk)
    requires Quiet(s) && |src| == CHUNK && Queued(s) < depth
    ensures Run(depth, s, WholePush(src)) == AfterPush(s, src)
  {
    hide Run;
    var copies := seq(CHUNK, _ => PushCopy);
    CallRun(depth, s, PushBegin(src), copies, PushBump);
    var t := Next(depth, s, PushBegin(src));
    FillRun(depth, t, src, 0, t.slots[t.head % SLOTS]);
    assert copies == seq(CHUNK - 0, _ => PushCopy);
  }

  lemma {:induction false} DrainRun(depth: nat, s: State, n: nat)
    requires Shaped(s) && n <= CHUNK && s.popper == Draining(s.slots[s.tail % SLOTS][..n])
    ensures Run(depth, s, seq(CHUNK - n, _ => PopCopy)) == s.(popper := Draining(s.slots[s.tail % SLOTS]))
    decreases CHUNK - n
  {
    var slot := s.slots[s.tail % SLOTS];
    var steps := seq(CHUNK - n, _ => PopCopy);
    if n == CHUNK {
      assert slot[..n] == slot;
    } else {
      assert slot[..n + 1] == slot[..n] + [slot[n]];
      assert steps[1..] == seq(CHUNK - (n + 1), _ => PopCopy);
      DrainRun(depth, Next(depth, s, PopCopy), n + 1);
    }
  }

  lemma WholePopRun(depth: nat, s: State)
    requires Quiet(s) && s.head != s.tail
    ensures Run(depth, s, WholePop()) == AfterPop(s)
  {
    hide Run;
    var copies := seq(CHUNK, _ => PopCopy);
    CallRun(depth, s, PopBegin, copies, PopBump);
    DrainRun(depth, Next(depth, s, PopBegin), 0);
    assert copies == seq(CHUNK - 0, _ => PopCopy);
  }

  ghost predicate Reachable(depth: nat, s: State) {
    exists steps :: Run(depth, Init(), steps) == s
  }

  lemma ReachPush(depth: nat, s: State, src: Chunk)
    requires Reachable(depth, s) && Quiet(s) && |src| == CHUNK && Queued(s) < depth
    ensures Reachable(depth, AfterPush(s, src)) && Quiet(AfterPush(s, src))
  {
    hide Run, Next;
    var steps :| Run(depth, Init(), steps) == s;
    RunConcat(depth, Init(), steps, WholePush(src));
    WholePushRun(depth, s, src);
  }

  lemma ReachPop(depth: nat, s: State)
    requires Reachable(depth, s) && Quiet(s) && s.head != s.tail
    ensures Reachable(depth, AfterPop(s)) && Quiet(AfterPop(s))
  {
    hide Run, Next;
    var steps :| Run(depth, Init(), steps) == s;
    RunConcat(depth, Init(), steps, WholePop());
    WholePopRun(depth, s);
  }

  /** `n` chunks pushed and popped one by one. */
  lemma {:induction false} Cycled(depth: nat, n: nat) returns (s: State)
    requires depth > 0
    ensures Reachable(depth, s) && Quiet(s) && s.head == s.tail == n % WRAP && |s.pushed| == |s.popped| == n
  {
    hide Run, Next, Reachable;
    if n == 0 {
      s := Init();
      InitReachable(depth);
    } else {
      s := Cycled(depth, n - 1);
      ReachPush(depth, s, Silence());
      s := AfterPush(s, Silence());
      ReachPop(depth, s);
      s := AfterPop(s);
    }
  }

  lemma InitReachable(depth: nat)
    ensures Reachable(depth, Init()) && Quiet(Init())
  {
    assert Run(depth, Init(), []) == Init();
  }

  /** `m` silent chunks pushed on top of `s`. */
  lemma {:induction false} Stacked(depth: nat, s: State, m: nat) returns (t: State)
    requires Reachable(depth, s) && Quiet(s) && s.head == s.tail < WRAP && m <= depth && m < WRAP
    ensures Reachable(depth, t) && Quiet(t) && t.tail == s.tail && t.popped == s.popped
    ensures t.head == (s.head + m) % WRAP && |t.pushed| == |s.pushed| + m
    ensures m > 0 ==> t.pushed[|s.pushed|] == Silence()
  {
    hide Run, Next, Reachable;
    if m == 0 {
      t := s;
    } else {
      t := Stacked(depth, s, m - 1);
      QueuedStack(t, s.head, m - 1);
      ReachPush(depth, t, Silence());
      t := AfterPush(t, Silence());
    }
  }

  lemma QueuedStack(t: State, h: nat, m: nat)
    requires t.tail == h < WRAP && t.head == (h + m) % WRAP && m < WRAP
    ensures Queued(t) == m
  {}

  /** Deeper than 64, a run across the counter's wrap pops a chunk that was pushed 64 chunks later. */
  lemma WrapBreaks(depth: nat) returns (s: State)
    requires depth > 64
    ensures Reachable(depth, s) && !Fifo(s)
    ensures var n := WRAP - 64;
            |s.popped| == n + 1 && |s.pushed| == n + 65 && s.popped[n] == s.pushed[n + 64] != s.pushed[n]
  {
    hide Run, Next, Reachable, Silence;
    var n := WRAP - 64;
    var loud := seq(CHUNK, _ => 1);
    var base := Cycled(depth, n);
    var t := Stacked(depth, base, 64);
    QueuedStack(t, base.head, 64);
    ReachPush(depth, t, loud);
    var u := AfterPush(t, loud);
    ReachPop(depth, u);
    s := AfterPop(u);
    SilenceIs(loud);
    assert s.popped[n] == loud && s.pushed[n] == Silence();
  }

  lemma SilenceIs(c: Chunk)
    requires |c| == CHUNK && c[0] == 1
    ensures c != Silence()
  {
    assert Silence()[0] == 0;
  }

  /** The ring is right over every run, of any length. */
  ghost predicate ForeverSafe(depth: nat) {
    forall s :: Reachable(depth, s) ==> Fifo(s) && Apart(s)
  }

  /** A depth is safe for any number of pushes exactly when it is at most 64; the ring's own is 96. */
  lemma SafeDepths(depth: nat)
    ensures ForeverSafe(depth) <==> depth <= 64
  {
    hide Run, Next, Inv, Fifo, Apart;
    if depth <= 64 {
      forall s | Reachable(depth, s)
        ensures Fifo(s) && Apart(s)
      {
        var steps :| Run(depth, Init(), steps) == s;
        InitInv(depth);
        RunInv(depth, Init(), steps);
        InvApart(depth, s);
        InvFifo(depth, s);
      }
    } else {
      var s := WrapBreaks(depth);
    }
  }

  lemma InvFifo(depth: nat, s: State)
    requires Inv(depth, s)
    ensures Fifo(s)
  {}
}
