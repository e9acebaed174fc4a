/**
 The consumed-sample clock of the play thread against the RTP clock of the receive thread. The play
 loop is cut at every pop, every clock update and every snapshot; packets and pushed chunks may fall
 between any two of its steps. The lock around the clock is taken to succeed.
 */
module Clock {
  import opened AudioUnits

  const TARGET: nat := 6 * CHUNK
  const CORRECTION_PERIOD: nat := 128
  const TRIM_PERIOD: nat := 256
  const TRIM_ABOVE: nat := 7
  const THRESHOLD: nat := 5 * CHUNK
  const LOW_WATER: nat := 3
  const HOLD_MAX: nat := 12

  /** What the play thread did, in order. */
  datatype Event = Played | Trimmed | Drained | Replayed | Faded | Silent

  /** Where the play thread stands; `idle` is its view of the source in this round. */
  datatype Pc =
    | Top | DrainPopped | Sync(idle: bool) | Correct(idle: bool, error: int)
    | Trim(idle: bool) | TrimPopped(idle: bool) | Hold
    | Pop(idle: bool) | PopAgain(idle: bool) | Output | Advance | NoChunk(idle: bool)

  datatype State = State(
    pc: Pc, queued: nat, timeline: nat, driftTick: nat, haveLast: bool, emptyHolds: nat,
    anchored: bool, anchorTs: nat, offset: nat, elapsed: nat, scale: nat,
    popped: nat, events: seq<Event>, base: nat, lastTs: nat)

  /** `popped`, `events`, `base` (the clock at the last anchor) and `lastTs` only record. */
  function Init(): (s: State) {
    State(Top, 0, 0, 0, false, 0, false, 0, 0, 0, 0, 0, [], 0, 0)
  }

  datatype Step =
    /** The play thread's next step; the flags are read at the top of a round. */
    | Play(dialog: bool, idle: bool)
    /** The receive thread takes in an audio packet. */
    | Packet(ts: nat, resumed: bool, tsStep: nat, ms: nat)
    /** The receive thread pushes a decoded chunk; it has taken in a packet before. */
    | Push

  /** A 32-bit number read as signed. */
  function Signed32(x: int): (v: int) {
    (x + 0x8000_0000) % WRAP - 0x8000_0000
  }

  /** RTP samples less consumed samples less the target, in 32 bits. */
  function DriftError(s: State): (e: int) {
    Signed32(s.elapsed - s.timeline - TARGET)
  }

  function Advanced(s: State): (t: State) {
    s.(timeline := (s.timeline + CHUNK) % WRAP)
  }

  function Popped(s: State, pc: Pc): (t: State)
    requires s.queued > 0
  {
    s.(queued := s.queued - 1, popped := s.popped + 1, pc := pc)
  }

  function Did(s: State, e: Event, pc: Pc): (t: State) {
    s.(events := s.events + [e], pc := pc)
  }

  /** The snapshot under the lock, and whether a correction is due. */
  function AfterSync(s: State, idle: bool): (t: State) {
    if !(s.anchored && s.scale != 0) || idle then s.(pc := Pop(idle)) else
      var u := s.(driftTick := (s.driftTick + 1) % WRAP);
      u.(pc := if u.driftTick % CORRECTION_PERIOD == 0 then Correct(idle, DriftError(s)) else Pop(idle))
  }

  /** The correction, by the error of the snapshot and the chunks queued now. */
  function AfterCorrect(s: State, idle: bool, error: int): (t: State) {
    if s.queued > TRIM_ABOVE && s.driftTick % TRIM_PERIOD == 0 then s.(pc := Trim(idle))
    else if error + THRESHOLD < 0 && s.haveLast && s.queued <= LOW_WATER then s.(pc := Hold)
    else s.(pc := Pop(idle))
  }

  function PlayStep(s: State, dialog: bool, idle: bool): (t: State) {
    match s.pc
    case Top =>
      if !dialog then s.(pc := Sync(idle))
      else if s.queued > 0 then Popped(s, DrainPopped)
      else Did(s, Silent, Top)
    case DrainPopped => Did(Advanced(Did(s, Drained, Top)), Silent, Top)
    case Sync(i) => AfterSync(s, i)
    case Correct(i, error) => AfterCorrect(s, i, error)
    case Trim(i) => if s.queued > 0 then Popped(s, TrimPopped(i)) else s.(pc := Pop(i))
    case TrimPopped(i) => Advanced(Did(s, Trimmed, Pop(i)))
    case Hold => Did(s, Replayed, Top)
    case Pop(i) =>
      if s.queued > 0 then Popped(s, Output)
      else if !i && s.haveLast then s.(pc := PopAgain(i))
      else s.(pc := NoChunk(i))
    case PopAgain(i) => if s.queued > 0 then Popped(s, Output) else s.(pc := NoChunk(i))
    case Output => Did(s, Played, Advance)
    case Advance => Advanced(s).(haveLast := true, emptyHolds := 0, pc := Top)
    case NoChunk(i) =>
      if !i && s.haveLast && s.emptyHolds < HOLD_MAX then Did(s, Faded, Top).(emptyHolds := s.emptyHolds + 1)
      else if i then Did(s, Silent, Top).(emptyHolds := 0)
      else Did(s, Silent, Top).(emptyHolds := s.emptyHolds + 1)
  }

  /** Samples per timestamp tick, from the first step between packets that fits either clock. */
  function Detected(scale: nat, tsStep: nat, ms: nat): (r: nat) {
    if scale != 0 || tsStep == 0 then scale
    else if 5 <= ms <= 60 && ms / 2 <= tsStep <= ms * 4 then 48
    else if 48 * ms >= 120 && 48 * ms / 2 <= tsStep <= 48 * ms * 4 then 1
    else 0
  }

  predicate Reanchors(s: State, resumed: bool) {
    s.anchored && resumed && s.scale != 0
  }

  function PacketStep(s: State, ts: nat, resumed: bool, tsStep: nat, ms: nat): (t: State) {
    if !s.anchored then
      s.(anchorTs := ts % WRAP, offset := TARGET, elapsed := TARGET, timeline := 0, anchored := true,
         base := 0, lastTs := ts % WRAP)
    else if Reanchors(s, resumed) then
      var offset := (s.timeline + TARGET) % WRAP;
      s.(anchorTs := ts % WRAP, offset := offset, elapsed := offset, base := s.timeline, lastTs := ts % WRAP)
    else
      var scale := Detected(s.scale, tsStep, ms);
      if scale == 0 then s else
        s.(scale := scale, elapsed := (s.offset + (ts - s.anchorTs) % WRAP * scale) % WRAP, lastTs := ts % WRAP)
  }

  function Next(s: State, step: Step): (t: State) {
    match step
    case Play(dialog, idle) => PlayStep(s, dialog, idle)
    case Packet(ts, resumed, tsStep, ms) => PacketStep(s, ts, resumed, tsStep, ms)
    case Push => if s.anchored then s.(queued := s.queued + 1) else s
  }

  function Run(s: State, steps: seq<Step>): (t: State)
    decreases |steps|
  {
    if |steps| == 0 then s else Run(Next(s, steps[0]), steps[1..])
  }

  // ----- what the clock counts -----

  /** Chunks taken off the ring for good: played, trimmed or drained, never replayed or silent ones. */
  function Consumed(events: seq<Event>): (n: nat) {
    if |events| == 0 then 0 else
      var e := events[|events| - 1];
      Consumed(events[..|events| - 1]) + if e.Played? || e.Trimmed? || e.Drained? then 1 else 0
  }

  lemma ConsumedMore(events: seq<Event>, e: Event)
    ensures Consumed(events + [e]) == Consumed(events) + if e.Played? || e.Trimmed? || e.Drained? then 1 else 0
  {
    assert (events + [e])[..|events|] == events;
  }

  /** A chunk is popped and the clock has not heard of it. */
  function Pending(pc: Pc): (n: nat) {
    if pc.DrainPopped? || pc.TrimPopped? || pc.Output? || pc.Advance? then 1 else 0
  }

  /** A chunk is popped and its event is still to come. */
  function Unsaid(pc: Pc): (n: nat) {
    if pc.DrainPopped? || pc.TrimPopped? || pc.Output? then 1 else 0
  }

  /** `pending` pops the clock has not heard of, `unsaid` of them without their event. */
  ghost predicate ClockAt(s: State, pending: nat, unsaid: nat) {
    && pending <= s.popped && s.timeline == CHUNK * (s.popped - pending) % WRAP
    && s.popped == Consumed(s.events) + unsaid
    && (!s.anchored ==> s.popped == 0 && s.queued == 0)
  }

  ghost predicate ClockInv(s: State) {
    ClockAt(s, Pending(s.pc), Unsaid(s.pc))
  }

  lemma PoppedClock(s: State, pc: Pc)
    requires ClockAt(s, 0, 0) && s.queued > 0
    ensures ClockAt(Popped(s, pc), 1, 1)
  {}

  lemma DidClock(s: State, e: Event, pc: Pc, pending: nat, unsaid: nat)
    requires ClockAt(s, pending, if e.Played? || e.Trimmed? || e.Drained? then unsaid + 1 else unsaid)
    ensures ClockAt(Did(s, e, pc), pending, unsaid)
  {
    ConsumedMore(s.events, e);
  }

  lemma AdvancedClock(s: State, unsaid: nat)
    requires ClockAt(s, 1, unsaid)
    ensures ClockAt(Advanced(s), 0, unsaid)
  {
    var n := s.popped - 1;
    assert CHUNK * (n + 1) == CHUNK * n + CHUNK;
  }

  lemma SameClock(s: State, t: State, pending: nat, unsaid: nat)
    requires ClockAt(s, pending, unsaid) && t.popped == s.popped && t.timeline == s.timeline
    requires t.events == s.events && t.anchored == s.anchored && t.queued == s.queued
    ensures ClockAt(t, pending, unsaid)
  {}

  lemma SyncClock(s: State, idle: bool)
    requires ClockAt(s, 0, 0)
    ensures ClockInv(AfterSync(s, idle))
  {
    hide ClockAt, DriftError;
    SameClock(s, AfterSync(s, idle), 0, 0);
  }

  lemma PlayClock(s: State, dialog: bool, idle: bool)
    requires ClockInv(s)
    ensures ClockInv(PlayStep(s, dialog, idle))
  {
    hide ClockAt, AfterSync, Advanced, Popped, Did;
    match s.pc
    case Top => TopClock(s, dialog, idle);
    case DrainPopped =>
      DidClock(s, Drained, Top, 1, 0);
      var t := Did(s, Drained, Top);
      AdvancedClock(t, 0);
      DidClock(Advanced(t), Silent, Top, 0, 0);
      DidPc(Advanced(t), Silent, Top);
    case Sync(i) => SyncClock(s, i);
    case Correct(i, error) => SameClock(s, AfterCorrect(s, i, error), 0, 0);
    case Trim(i) => TakeClock(s, TrimPopped(i), Pop(i));
    case TrimPopped(i) =>
      DidClock(s, Trimmed, Pop(i), 1, 0);
      DidPc(s, Trimmed, Pop(i));
      AdvancedClock(Did(s, Trimmed, Pop(i)), 0);
      AdvancedPc(Did(s, Trimmed, Pop(i)));
    case Hold =>
      DidClock(s, Replayed, Top, 0, 0);
      DidPc(s, Replayed, Top);
    case Pop(i) => TakeClock(s, Output, if !i && s.haveLast then PopAgain(i) else NoChunk(i));
    case PopAgain(i) => TakeClock(s, Output, NoChunk(i));
    case Output =>
      DidClock(s, Played, Advance, 1, 0);
      DidPc(s, Played, Advance);
    case Advance =>
      AdvancedClock(s, 0);
      SameClock(Advanced(s), PlayStep(s, dialog, idle), 0, 0);
    case NoChunk(i) =>
      var e := if !i && s.haveLast && s.emptyHolds < HOLD_MAX then Faded else Silent;
      DidClock(s, e, Top, 0, 0);
      DidPc(s, e, Top);
      SameClock(Did(s, e, Top), PlayStep(s, dialog, idle), 0, 0);
  }

  lemma DidPc(s: State, e: Event, pc: Pc)
    ensures Did(s, e, pc).pc == pc
  {}

  lemma AdvancedPc(s: State)
    ensures Advanced(s).pc == s.pc
  {}

  lemma TopClock(s: State, dialog: bool, idle: bool)
    requires ClockInv(s) && s.pc.Top?
    ensures ClockInv(PlayStep(s, dialog, idle))
  {
    hide ClockAt;
    if !dialog {
      SameClock(s, s.(pc := Sync(idle)), 0, 0);
    } else if s.queued > 0 {
      PoppedClock(s, DrainPopped);
    } else {
      DidClock(s, Silent, Top, 0, 0);
    }
  }

  /** A pop if there is a chunk, else on to `other`. */
  lemma TakeClock(s: State, taken: Pc, other: Pc)
    requires ClockAt(s, 0, 0) && Pending(taken) == Unsaid(taken) == 1 && Pending(other) == Unsaid(other) == 0
    ensures s.queued > 0 ==> ClockInv(Popped(s, taken))
    ensures ClockInv(s.(pc := other))
  {
    hide ClockAt;
    if s.queued > 0 {
      PoppedClock(s, taken);
    }
    SameClock(s, s.(pc := other), 0, 0);
  }

  lemma PacketClock(s: State, ts: nat, resumed: bool, tsStep: nat, ms: nat)
    requires ClockInv(s)
    ensures ClockInv(PacketStep(s, ts, resumed, tsStep, ms))
  {
    if s.anchored {
      hide ClockAt;
      SameClock(s, PacketStep(s, ts, resumed, tsStep, ms), Pending(s.pc), Unsaid(s.pc));
    }
  }

  lemma {:induction false} RunClock(s: State, steps: seq<Step>)
    requires ClockInv(s)
    ensures ClockInv(Run(s, steps))
    decreases |steps|
  {
    hide ClockInv, PlayStep, PacketStep;
    if |steps| > 0 {
      match steps[0] {
        case Play(dialog, idle) => PlayClock(s, dialog, idle);
        case Packet(ts, resumed, tsStep, ms) => PacketClock(s, ts, resumed, tsStep, ms);
        case Push => PushClock(s);
      }
      RunClock(Next(s, steps[0]), steps[1..]);
    }
  }

  lemma PushClock(s: State)
    requires ClockInv(s)
    ensures ClockInv(Next(s, Push))
  {}

  /**
   At every top of the play loop, whatever the two threads did and in whatever order, the clock is 512
   for each chunk popped, and those are the chunks played, trimmed and drained.
   */
  lemma ClockAtTop(steps: seq<Step>)
    requires Run(Init(), steps).pc.Top?
    ensures var s := Run(Init(), steps);
            s.popped == Consumed(s.events) && s.timeline == CHUNK * Consumed(s.events) % WRAP
  {
    hide *;
    InitClock();
    RunClock(Init(), steps);
    TopClockIs(Run(Init(), steps), Consumed(Run(Init(), steps).events));
  }

  lemma TopClockIs(s: State, n: nat)
    requires ClockInv(s) && s.pc.Top? && n == Consumed(s.events)
    ensures s.popped == n && s.timeline == CHUNK * n % WRAP
  {
    hide Consumed;
  }

  lemma InitClock()
    ensures ClockInv(Init())
  {}

  // ----- what the drift error measures -----

  /** Samples of RTP time since the last anchor. */
  function Received(s: State): (n: nat) {
    (s.lastTs - s.anchorTs) % WRAP * s.scale
  }

  ghost predicate DriftInv(s: State) {
    s.anchored ==>
      && s.offset == (s.base + TARGET) % WRAP
      && s.elapsed == (s.offset + Received(s)) % WRAP
      && s.anchorTs < WRAP && s.lastTs < WRAP && (s.scale == 0 ==> s.lastTs == s.anchorTs)
  }

  lemma {:induction false} RunDrift(s: State, steps: seq<Step>)
    requires DriftInv(s)
    ensures DriftInv(Run(s, steps))
    decreases |steps|
  {
    hide DriftInv, PlayStep, PacketStep;
    if |steps| > 0 {
      match steps[0] {
        case Play(dialog, idle) => PlayDrift(s, dialog, idle);
        case Packet(ts, resumed, tsStep, ms) => PacketDrift(s, ts, resumed, tsStep, ms);
        case Push => PushDrift(s);
      }
      RunDrift(Next(s, steps[0]), steps[1..]);
    }
  }

  lemma PlayDrift(s: State, dialog: bool, idle: bool)
    requires DriftInv(s)
    ensures DriftInv(PlayStep(s, dialog, idle))
  {}

  lemma PushDrift(s: State)
    requires DriftInv(s)
    ensures DriftInv(Next(s, Push))
  {}

  lemma PacketDrift(s: State, ts: nat, resumed: bool, tsStep: nat, ms: nat)
    requires DriftInv(s)
    ensures DriftInv(PacketStep(s, ts, resumed, tsStep, ms))
  {
    hide Detected;
    var t := PacketStep(s, ts, resumed, tsStep, ms);
    if !s.anchored || Reanchors(s, resumed) {
      NothingReceived(t);
    } else if Detected(s.scale, tsStep, ms) != 0 {
      ModShift(ts - s.anchorTs, -(ts / WRAP));
      assert ts % WRAP - s.anchorTs == ts - s.anchorTs - WRAP * (ts / WRAP);
      assert Received(t) == (ts - s.anchorTs) % WRAP * t.scale;
    }
  }

  lemma NothingReceived(s: State)
    ensures s.lastTs == s.anchorTs ==> Received(s) == 0
  {}

  /** The drift error is the RTP time since the last anchor less the samples consumed since it. */
  lemma DriftMeaning(steps: seq<Step>)
    requires Run(Init(), steps).anchored
    ensures var s := Run(Init(), steps); DriftError(s) == Signed32(Received(s) - (s.timeline - s.base))
  {
    hide Run, Received;
    RunDrift(Init(), steps);
    var s := Run(Init(), steps);
    DriftSum(s.base, s.timeline, Received(s), s.offset, s.elapsed);
  }

  lemma DriftSum(base: nat, timeline: nat, received: nat, offset: nat, elapsed: nat)
    requires offset == (base + TARGET) % WRAP && elapsed == (offset + received) % WRAP
    ensures Signed32(elapsed - timeline - TARGET) == Signed32(received - (timeline - base))
  {
    var k := (base + TARGET) / WRAP + (offset + received) / WRAP;
    assert elapsed - timeline - TARGET == received - (timeline - base) - WRAP * k;
    ModShift(received - (timeline - base) + 0x8000_0000, -k);
  }

  /**
   The first packet, and one after an idle source once the clock is known, start anew with no drift at all
   and leave the clock where it is, or at zero; no other packet moves the anchor.
   */
  lemma AnchorExactly(s: State, ts: nat, resumed: bool, tsStep: nat, ms: nat)
    ensures var t, anew := PacketStep(s, ts, resumed, tsStep, ms), !s.anchored || (resumed && s.scale > 0);
            && t.anchored && t.pc == s.pc && t.queued == s.queued && t.events == s.events && t.popped == s.popped
            && (anew ==> t.anchorTs == t.lastTs == ts % WRAP && t.base == t.timeline && DriftError(t) == 0)
            && (anew ==> t.offset == t.elapsed == (t.timeline + 3072) % WRAP)
            && (!anew ==> t.anchorTs == s.anchorTs && t.base == s.base && t.offset == s.offset)
            && (!anew && t.scale > 0 ==> t.lastTs == ts % WRAP)
            && t.timeline == (if s.anchored then s.timeline else 0)
            && t.scale == if anew then s.scale else Detected(s.scale, tsStep, ms)
  {
    if s.anchored && Reanchors(s, resumed) {
      var k := (s.timeline + TARGET) / WRAP;
      assert (s.timeline + TARGET) % WRAP == s.timeline + TARGET - WRAP * k;
      ModShift(0x8000_0000, -k);
    }
  }

  // ----- trims are safe -----

  /** A trim is always followed by a chunk: it never empties the ring. */
  ghost predicate TrimInv(s: State) {
    && (s.pc.Trim? ==> s.queued > TRIM_ABOVE)
    && (s.pc.TrimPopped? ==> s.queued >= TRIM_ABOVE)
    && (|s.events| > 0 && s.events[|s.events| - 1].Trimmed? ==>
          (s.pc.Pop? && s.queued >= TRIM_ABOVE) || s.pc.Output?)
    && forall i :: 0 <= i < |s.events| - 1 && s.events[i].Trimmed? ==> s.events[i + 1].Played?
  }

  lemma DidTrim(s: State, t: State, e: Event)
    requires TrimInv(s) && t.events == s.events + [e] && t.queued == s.queued && !t.pc.Trim? && !t.pc.TrimPopped?
    requires s.pc.Output? ==> e.Played?
    requires !s.pc.Pop? && (e.Trimmed? ==> t.pc.Pop? && t.queued >= TRIM_ABOVE)
    ensures TrimInv(t)
  {
    forall i | 0 <= i < |t.events| - 1 && t.events[i].Trimmed?
      ensures t.events[i + 1].Played?
    {
      if i < |s.events| - 1 {
        assert t.events[i] == s.events[i] && t.events[i + 1] == s.events[i + 1];
      }
    }
  }

  lemma SilentTrim(s: State, t: State)
    requires TrimInv(s) && t.events == s.events && !s.pc.Output?
    requires t.pc.Trim? ==> t.queued > TRIM_ABOVE
    requires t.pc.TrimPopped? ==> t.queued >= TRIM_ABOVE
    requires s.pc.Pop? && s.queued >= TRIM_ABOVE ==> t.pc.Output? || (t.pc.Pop? && t.queued >= TRIM_ABOVE)
    ensures TrimInv(t)
  {}

  lemma PlayTrim(s: State, dialog: bool, idle: bool)
    requires TrimInv(s)
    ensures TrimInv(PlayStep(s, dialog, idle))
  {
    hide TrimInv, DriftError;
    TrimQueued(s);
    var t := PlayStep(s, dialog, idle);
    match s.pc
    case Top => TopTrim(s, dialog, idle);
    case DrainPopped =>
      var u := Did(s, Drained, Top);
      DidTrim(s, u, Drained);
      DidTrim(Advanced(u), t, Silent);
    case Sync(i) => SilentTrim(s, t);
    case Correct(i, error) => SilentTrim(s, t);
    case Trim(i) => SilentTrim(s, t);
    case TrimPopped(i) => DidTrim(s, t, Trimmed);
    case Hold => DidTrim(s, t, Replayed);
    case Pop(i) => SilentTrim(s, t);
    case PopAgain(i) => SilentTrim(s, t);
    case Output => DidTrim(s, t, Played);
    case Advance => SilentTrim(s, t);
    case NoChunk(i) => DidTrim(s, t, if !i && s.haveLast && s.emptyHolds < HOLD_MAX then Faded else Silent);
  }

  lemma TrimQueued(s: State)
    requires TrimInv(s)
    ensures s.pc.Trim? ==> s.queued > TRIM_ABOVE
    ensures s.pc.TrimPopped? ==> s.queued >= TRIM_ABOVE
    ensures TrimInv(Advanced(s))
  {}

  lemma TopTrim(s: State, dialog: bool, idle: bool)
    requires TrimInv(s) && s.pc.Top?
    ensures TrimInv(PlayStep(s, dialog, idle))
  {
    hide TrimInv;
    var t := PlayStep(s, dialog, idle);
    if dialog && s.queued == 0 {
      DidTrim(s, t, Silent);
    } else {
      SilentTrim(s, t);
    }
  }

  lemma ReceiveTrim(s: State, t: State)
    requires TrimInv(s) && t.events == s.events && t.pc == s.pc && t.queued >= s.queued
    ensures TrimInv(t)
  {}

  lemma NextTrim(s: State, step: Step)
    requires TrimInv(s)
    ensures TrimInv(Next(s, step))
  {
    hide TrimInv, PlayStep;
    match step
    case Play(dialog, idle) => PlayTrim(s, dialog, idle);
    case Packet(ts, resumed, tsStep, ms) => ReceiveTrim(s, PacketStep(s, ts, resumed, tsStep, ms));
    case Push => ReceiveTrim(s, Next(s, Push));
  }

  lemma {:induction false} RunTrim(s: State, steps: seq<Step>)
    requires TrimInv(s)
    ensures TrimInv(Run(s, steps))
    decreases |steps|
  {
    hide TrimInv, Next;
    if |steps| > 0 {
      NextTrim(s, steps[0]);
      RunTrim(Next(s, steps[0]), steps[1..]);
    }
  }

  /** In every run the event after a trim is a played chunk. */
  lemma TrimsThenPlays(steps: seq<Step>, i: nat)
    requires i + 1 < |Run(Init(), steps).events| && Run(Init(), steps).events[i].Trimmed?
    ensures Run(Init(), steps).events[i + 1].Played?
  {
    hide Run;
    RunTrim(Init(), steps);
  }

  // ----- which clock, and what a correction does -----

  /** Time stamps of 1 kHz and of 48 kHz are told apart, and either way a packet counts its 48 samples a ms. */
  lemma ClockDetected(ms: nat)
    requires 5 <= ms <= 60
    ensures Detected(0, ms, ms) == 48 && Detected(0, 48 * ms, ms) == 1
    ensures Detected(0, ms, ms) * ms == Detected(0, 48 * ms, ms) * (48 * ms) == 48 * ms
  {}

  /** A step is taken for milliseconds from half to four packets, else for samples, else for neither. */
  lemma DetectedExactly(tsStep: nat, ms: nat)
    ensures Detected(0, tsStep, ms) == 48 <==>
      5 <= ms <= 60 && tsStep > 0 && ms <= 2 * tsStep + 1 && tsStep <= 4 * ms
    ensures Detected(0, tsStep, ms) == 1 <==>
      ms >= 3 && 24 * ms <= tsStep <= 192 * ms && !(5 <= ms <= 60 && tsStep <= 4 * ms)
    ensures Detected(0, tsStep, ms) in {0, 1, 48}
  {}

  /** A clock once detected stays, in every run. */
  lemma {:induction false} ScaleForever(s: State, steps: seq<Step>)
    requires s.scale != 0
    ensures Run(s, steps).scale == s.scale
    decreases |steps|
  {
    hide AfterSync, AfterCorrect;
    if |steps| > 0 {
      SameScale(s, steps[0]);
      ScaleForever(Next(s, steps[0]), steps[1..]);
    }
  }

  lemma SameScale(s: State, step: Step)
    requires s.scale != 0
    ensures Next(s, step).scale == s.scale
  {}

  /** A round looks at the drift when the clock is known and the source is not idle, every 128th time. */
  lemma SyncExactly(s: State, idle: bool)
    ensures var t, due := AfterSync(s, idle), s.anchored && s.scale != 0 && !idle;
            && t == s.(pc := t.pc, driftTick := if due then (s.driftTick + 1) % WRAP else s.driftTick)
            && t.pc == if due && t.driftTick % 128 == 0 then Correct(idle, DriftError(s)) else Pop(idle)
  {}

  /**
   Of eight chunks or more one is trimmed every 256th time; with three or fewer, a source that is more
   than 2560 samples behind is awaited.
   */
  lemma CorrectExactly(s: State, idle: bool, error: int)
    ensures var t := AfterCorrect(s, idle, error);
            && t == s.(pc := t.pc) && (t.pc.Trim? || t.pc.Hold? || t.pc == Pop(idle))
            && (t.pc == Trim(idle) <==> s.queued >= 8 && s.driftTick % 256 == 0)
            && (t.pc == Hold <==> error < -2560 && s.haveLast && s.queued <= 3)
            && (t.pc.Trim? ==> t.pc.idle == idle)
  {}

  // ----- fading -----

  /** Faded chunks at the end. */
  function Fades(events: seq<Event>): (n: nat) {
    if |events| == 0 || !events[|events| - 1].Faded? then 0 else 1 + Fades(events[..|events| - 1])
  }

  lemma FadesMore(events: seq<Event>, e: Event)
    ensures Fades(events + [e]) == if e.Faded? then 1 + Fades(events) else 0
  {
    assert (events + [e])[..|events|] == events;
  }

  ghost predicate FadeInv(s: State) {
    Fades(s.events) <= s.emptyHolds && Fades(s.events) <= 12
    && (s.pc == Advance ==> Fades(s.events) == 0)
  }

  lemma NextFade(s: State, step: Step)
    requires FadeInv(s)
    ensures FadeInv(Next(s, step))
  {
    hide AfterSync, AfterCorrect, Fades;
    FadesMore(s.events, Silent);
    FadesMore(s.events, Faded);
    FadesMore(s.events, Played);
    FadesMore(s.events, Trimmed);
    FadesMore(s.events, Replayed);
    FadesMore(s.events, Drained);
    FadesMore(s.events + [Drained], Silent);
    SyncEvents(s, step);
  }

  lemma SyncEvents(s: State, step: Step)
    ensures var t := Next(s, step);
            s.pc.Sync? || s.pc.Correct? ==> t.events == s.events && t.emptyHolds == s.emptyHolds && t.pc != Advance
  {}

  lemma {:induction false} FadesBounded(s: State, steps: seq<Step>)
    requires FadeInv(s)
    ensures FadeInv(Run(s, steps)) && Fades(Run(s, steps).events) <= 12
    decreases |steps|
  {
    hide FadeInv, Next;
    if |steps| > 0 {
      NextFade(s, steps[0]);
      FadesBounded(Next(s, steps[0]), steps[1..]);
    } else {
      FadeTwelve(s);
    }
  }

  /** In every run at most twelve faded repeats follow one another. */
  lemma FadesAtMostTwelve(steps: seq<Step>)
    ensures Fades(Run(Init(), steps).events) <= 12
  {
    hide Run;
    FadesBounded(Init(), steps);
  }

  lemma FadeTwelve(s: State)
    requires FadeInv(s)
    ensures Fades(s.events) <= 12
  {}

  // ----- the queue -----

  /** Chunks pushed in a run from `s`; a source that has not sent a packet pushes none. */
  function Pushed(s: State, steps: seq<Step>): (n: nat)
    decreases |steps|
  {
    if |steps| == 0 then 0 else
      (if steps[0].Push? && s.anchored then 1 else 0) + Pushed(Next(s, steps[0]), steps[1..])
  }

  lemma NextQueue(s: State, step: Step)
    ensures var t := Next(s, step);
            t.popped + t.queued == s.popped + s.queued + if step.Push? && s.anchored then 1 else 0
  {
    hide AfterSync, AfterCorrect, PacketStep, Did, Advanced;
    match step
    case Play(dialog, idle) =>
      SyncQueue(s, idle, 0);
      match s.pc {
        case Sync(i) => SyncQueue(s, i, 0);
        case Correct(i, error) => SyncQueue(s, i, error);
        case DrainPopped =>
          DidQueue(s, Drained, Top);
          DidQueue(Advanced(Did(s, Drained, Top)), Silent, Top);
        case TrimPopped(i) => DidQueue(s, Trimmed, Pop(i));
        case Hold => DidQueue(s, Replayed, Top);
        case Output => DidQueue(s, Played, Advance);
        case NoChunk(_) =>
          DidQueue(s, Faded, Top);
          DidQueue(s, Silent, Top);
        case _ => DidQueue(s, Silent, Top);
      }
    case Packet(ts, resumed, tsStep, ms) => AnchorExactly(s, ts, resumed, tsStep, ms);
    case Push =>
  }

  lemma SyncQueue(s: State, idle: bool, error: int)
    ensures AfterSync(s, idle).popped == AfterCorrect(s, idle, error).popped == s.popped
    ensures AfterSync(s, idle).queued == AfterCorrect(s, idle, error).queued == s.queued
  {}

  lemma DidQueue(s: State, e: Event, pc: Pc)
    ensures Did(s, e, pc).popped == Advanced(s).popped == Advanced(Did(s, e, pc)).popped == s.popped
    ensures Did(s, e, pc).queued == Advanced(s).queued == Advanced(Did(s, e, pc)).queued == s.queued
  {}

  /** In every run each chunk pushed is still queued or was popped once. */
  lemma {:induction false} QueueConserved(s: State, steps: seq<Step>)
    ensures var t := Run(s, steps); t.popped + t.queued == s.popped + s.queued + Pushed(s, steps)
    decreases |steps|
  {
    hide Next;
    if |steps| > 0 {
      NextQueue(s, steps[0]);
      QueueConserved(Next(s, steps[0]), steps[1..]);
    }
  }

  /** With no chunk to play: a faded repeat, at most twelve, while the source sends; else silence. */
  lemma EmptyExactly(s: State, dialog: bool, idle: bool)
    requires s.pc.NoChunk?
    ensures var t, i := PlayStep(s, dialog, idle), s.pc.idle;
            && t == s.(pc := Top, events := t.events, emptyHolds := if t.events == s.events + [Silent] && i then 0
                                                                    else s.emptyHolds + 1)
            && t.events == s.events + [if !i && s.haveLast && s.emptyHolds <= 11 then Faded else Silent]
  {
    assert s.events + [Silent] != s.events + [Faded] by {
      assert (s.events + [Silent])[|s.events|] != (s.events + [Faded])[|s.events|];
    }
  }

  /** A round looks for a chunk, a second time if there is something to repeat and the source sends. */
  lemma PopExactly(s: State, dialog: bool, idle: bool)
    requires s.pc.Pop? || s.pc.PopAgain?
    ensures PlayStep(s, dialog, idle).pc == if s.queued >= 1 then Output
                                            else if s.pc.Pop? && s.haveLast && !s.pc.idle then PopAgain(s.pc.idle)
                                            else NoChunk(s.pc.idle)
  {}

  /** A chunk popped is played, the clock moves on by it, and the count of repeats starts anew. */
  lemma OutputExactly(s: State, dialog: bool, idle: bool)
    requires s.pc.Output?
    ensures var t := PlayStep(s, dialog, idle);
            && t == s.(pc := Advance, events := s.events + [Played])
            && PlayStep(t, dialog, idle)
            == t.(pc := Top, timeline := (s.timeline + 512) % WRAP, haveLast := true, emptyHolds := 0)
  {}

  /** A source that is awaited has the last chunk repeated, and the clock stands still. */
  lemma HoldExactly(s: State, dialog: bool, idle: bool)
    requires s.pc.Hold?
    ensures PlayStep(s, dialog, idle) == s.(pc := Top, events := s.events + [Replayed])
  {}

  /** While the dialog is open chunks are drained and silence is played. */
  lemma DialogExactly(s: State, dialog: bool, idle: bool)
    requires s.pc.Top?
    ensures var t := PlayStep(s, dialog, idle);
            && (!dialog ==> t == s.(pc := Sync(idle)))
            && (dialog && s.queued == 0 ==> t == s.(events := s.events + [Silent]))
            && (dialog && s.queued > 0 ==>
                  var u := PlayStep(t, dialog, idle);
                  u == s.(queued := s.queued - 1, popped := s.popped + 1, timeline := (s.timeline + 512) % WRAP,
                          events := s.events + [Drained, Silent]))
  {
    assert s.events + [Drained] + [Silent] == s.events + [Drained, Silent];
  }
}
