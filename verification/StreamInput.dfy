/**
 The parameter-set cache and IDR gate in front of the hardware decoder, and what it guarantees over
 every run.
 */
module StreamInput {
  import opened Bits
  import opened Packetizer

  const READY: int := 0
  const PARAMETERS: int := 1
  const NEED_IDR: int := 2
  const INVALID: int := -1
  const PARAMETER_CHANGE: int := -2

  const LIMIT: nat := 1024

  datatype Input = Input(sps: seq<byte>, pps: seq<byte>, needIdr: bool, immediate: bool)

  function Fresh(immediate: bool): (s: Input) { Input([], [], true, immediate) }

  /** `changed`: both known, and different. */
  predicate Changed(cached: seq<byte>, next: seq<byte>) {
    |cached| > 0 && |next| > 0 && cached != next
  }

  function Cached(old_: seq<byte>, next: seq<byte>): (r: seq<byte>) {
    if |next| > 0 then next else old_
  }

  datatype Outcome = Outcome(state: Input, code: int, au: Au)

  /** One call of `avc_stream_input_prepare`. */
  function Prepared(s: Input, src: seq<byte>, cap: nat): (o: Outcome) {
    var (code, au) := Packetized(src, cap);
    if code != 0 || |au.sps| > LIMIT || |au.pps| > LIMIT then Outcome(s.(needIdr := true), INVALID, NO_AU)
    else if Changed(s.sps, au.sps) || Changed(s.pps, au.pps) then Outcome(s.(needIdr := true), PARAMETER_CHANGE, NO_AU)
    else
      var t := s.(sps := Cached(s.sps, au.sps), pps := Cached(s.pps, au.pps));
      if |au.avcc| == 0 then Outcome(t, PARAMETERS, NO_AU)
      else if |t.sps| == 0 || |t.pps| == 0 || ((t.needIdr || t.immediate) && !au.idr) then
        Outcome(t.(needIdr := true), NEED_IDR, NO_AU)
      else Outcome(t.(needIdr := false), READY, au.(sps := t.sps, pps := t.pps))
  }

  class AvcStreamInput {
    const sps: array<byte>
    const pps: array<byte>
    var spsSize: nat
    var ppsSize: nat
    var needIdr: bool
    var immediate: bool

    ghost predicate Valid()
      reads this
    {
      sps.Length == pps.Length == LIMIT && sps != pps && spsSize <= LIMIT && ppsSize <= LIMIT
    }

    ghost function State(): (s: Input)
      requires Valid()
      reads this, sps, pps
    {
      Input(sps[..spsSize], pps[..ppsSize], needIdr, immediate)
    }

    /** `avc_stream_input_init`. */
    constructor (immediateOnly: bool)
      ensures Valid() && fresh(sps) && fresh(pps) && State() == Fresh(immediateOnly)
    {
      sps := new byte[LIMIT](_ => 0);
      pps := new byte[LIMIT](_ => 0);
      spsSize, ppsSize, needIdr, immediate := 0, 0, true, immediateOnly;
    }

    /** `avc_stream_input_invalidate`. */
    method Invalidate()
      requires Valid()
      modifies this`needIdr
      ensures Valid() && State() == old(State()).(needIdr := true)
    {
      needIdr := true;
    }

    /** `avc_stream_input_prepare`. */
    method Prepare(src: seq<byte>, dst: array<byte>, cap: nat) returns (code: int, au: Au)
      requires Valid() && cap <= dst.Length && dst != sps && dst != pps
      modifies this, sps, pps, dst
      ensures Valid() && Outcome(State(), code, au) == Prepared(old(State()), src, cap)
      ensures code == READY ==> |au.avcc| <= cap && dst[..|au.avcc|] == au.avcc
    {
      hide Packetized;
      ghost var before := State();
      var status, parsed := Packetize(src, dst, cap);
      if status != 0 || |parsed.sps| > LIMIT || |parsed.pps| > LIMIT {
        needIdr := true;
        return INVALID, NO_AU;
      }
      if Changed(sps[..spsSize], parsed.sps) || Changed(pps[..ppsSize], parsed.pps) {
        needIdr := true;
        return PARAMETER_CHANGE, NO_AU;
      }
      if |parsed.sps| > 0 {
        Store(sps, parsed.sps);
        spsSize := |parsed.sps|;
      }
      if |parsed.pps| > 0 {
        Store(pps, parsed.pps);
        ppsSize := |parsed.pps|;
      }
      assert State() == before.(sps := Cached(before.sps, parsed.sps), pps := Cached(before.pps, parsed.pps));
      if |parsed.avcc| == 0 {
        return PARAMETERS, NO_AU;
      }
      if spsSize == 0 || ppsSize == 0 || ((needIdr || immediate) && !parsed.idr) {
        needIdr := true;
        return NEED_IDR, NO_AU;
      }
      needIdr := false;
      return READY, parsed.(sps := sps[..spsSize], pps := pps[..ppsSize]);
    }
  }

  /** `memcpy` into a parameter-set buffer. */
  method Store(buf: array<byte>, s: seq<byte>)
    requires |s| <= buf.Length
    modifies buf
    ensures buf[..|s|] == s
  {
    var i := 0;
    while i < |s|
      invariant 0 <= i <= |s| && buf[..i] == s[..i]
    {
      buf[i] := s[i];
      assert buf[..i + 1] == buf[..i] + [s[i]] && s[..i + 1] == s[..i] + [s[i]];
      i := i + 1;
    }
  }

  // ----- one call -----

  /** Both known, and of different lengths or with a byte that differs. */
  predicate Differs(a: seq<byte>, b: seq<byte>) {
    |a| > 0 && |b| > 0 && (|a| != |b| || exists i :: 0 <= i < |a| && a[i] != b[i])
  }

  /** The code that a unit `au`, packetized with `status`, gets in state `s`. */
  lemma PrepareExactly(s: Input, src: seq<byte>, cap: nat)
    ensures var (status, au), o := Packetized(src, cap), Prepared(s, src, cap);
            var invalid := status != 0 || |au.sps| > 1024 || |au.pps| > 1024;
            var changed := Differs(s.sps, au.sps) || Differs(s.pps, au.pps);
            var known := |s.sps| + |au.sps| > 0 && |s.pps| + |au.pps| > 0;
            && (o.code == -1 <==> invalid)
            && (o.code == -2 <==> !invalid && changed)
            && (o.code == 1 <==> !invalid && !changed && au.avcc == [])
            && (o.code == 0 <==> !invalid && !changed && au.avcc != [] && known
                                 && (au.idr || !(s.needIdr || s.immediate)))
            && o.code in {-2, -1, 0, 1, 2}
  {
    hide Packetized;
    var au := Packetized(src, cap).1;
    DiffersIs(s.sps, au.sps);
    DiffersIs(s.pps, au.pps);
  }

  lemma DiffersIs(a: seq<byte>, b: seq<byte>)
    ensures Differs(a, b) <==> Changed(a, b)
  {
    if |a| == |b| && (forall i :: 0 <= i < |a| ==> a[i] == b[i]) {
      assert a == b;
    }
  }

  /** What a call leaves behind and hands out. */
  lemma PrepareLeaves(s: Input, src: seq<byte>, cap: nat)
    ensures var (_, au), o := Packetized(src, cap), Prepared(s, src, cap);
            && o.state.immediate == s.immediate && (o.state.needIdr <==> if o.code == 1 then s.needIdr else o.code != 0)
            && (o.code < 0 ==> o.state.sps == s.sps && o.state.pps == s.pps)
            && (o.code >= 0 ==> o.state.sps == (if au.sps != [] then au.sps else s.sps))
            && (o.code >= 0 ==> o.state.pps == (if au.pps != [] then au.pps else s.pps))
            && o.au == if o.code == 0 then au.(sps := o.state.sps, pps := o.state.pps) else NO_AU
  {
    hide Packetized;
  }

  // ----- runs -----

  datatype Event = Access(src: seq<byte>, cap: nat) | Loss

  /** What one event does; a loss has no result. */
  function Step(s: Input, e: Event): (o: Outcome) {
    match e
    case Loss => Outcome(s.(needIdr := true), NEED_IDR, NO_AU)
    case Access(src, cap) => Prepared(s, src, cap)
  }

  /** The state after the first `n` events. */
  function StateAt(immediate: bool, run: seq<Event>, n: nat): (s: Input)
    requires n <= |run|
  {
    if n == 0 then Fresh(immediate) else Step(StateAt(immediate, run, n - 1), run[n - 1]).state
  }

  function ResultAt(immediate: bool, run: seq<Event>, n: nat): (o: Outcome)
    requires n < |run|
  {
    Step(StateAt(immediate, run, n), run[n])
  }

  predicate ReadyAt(immediate: bool, run: seq<Event>, n: nat)
    requires n < |run|
  {
    run[n].Access? && ResultAt(immediate, run, n).code == READY
  }

  /** Event `n` kept the reference chain: a unit was delivered or only parameters came. */
  predicate KeepsAt(immediate: bool, run: seq<Event>, n: nat)
    requires n < |run|
  {
    run[n].Access? && ResultAt(immediate, run, n).code in {READY, PARAMETERS}
  }

  /** Event `j` delivered an IDR unit and nothing since, before `n`, broke the chain. */
  ghost predicate ChainFrom(immediate: bool, run: seq<Event>, j: nat, n: nat)
    requires n <= |run|
  {
    && j < n && ReadyAt(immediate, run, j) && ResultAt(immediate, run, j).au.idr
    && forall k :: j < k < n ==> KeepsAt(immediate, run, k)
  }

  /** A delivered unit has slices of one kind only. */
  lemma OneKind(src: seq<byte>, cap: nat)
    requires Packetized(src, cap).0 == 0 && |Packetized(src, cap).1.avcc| > 0
    ensures Packetized(src, cap).1.idr != Packetized(src, cap).1.predictive
  {
    var nals := AnnexB.SplitFrom(src, AnnexB.NextStart(src, 0));
    FoldMeans(nals, cap, NO_AU);
    SliceKinds(nals);
  }

  lemma {:induction false} SliceKinds(nals: seq<seq<byte>>)
    requires |FramedAll(Slices(nals))| > 0
    ensures Has(nals, 5) || Has(nals, 1)
  {
    if |nals| > 0 {
      PassableCons(nals, 0);
      if !IsSlice(nals[0]) {
        SliceKinds(nals[1..]);
      }
    }
  }

  /** Every delivered unit is IDR or predictive, never both; with immediate IDR only, it is IDR. */
  lemma ReadyKind(immediate: bool, run: seq<Event>, n: nat)
    requires n < |run| && ReadyAt(immediate, run, n)
    ensures var au := ResultAt(immediate, run, n).au; au.idr != au.predictive && |au.avcc| > 0
    ensures StateAt(immediate, run, n).immediate ==> ResultAt(immediate, run, n).au.idr
    ensures StateAt(immediate, run, n).needIdr ==> ResultAt(immediate, run, n).au.idr
  {
    hide Packetized;
    OneKind(run[n].src, run[n].cap);
  }

  /** While no IDR is wanted there is an unbroken chain back to one. */
  lemma {:induction false} Chained(immediate: bool, run: seq<Event>, n: nat) returns (j: nat)
    requires n <= |run| && !StateAt(immediate, run, n).needIdr
    ensures ChainFrom(immediate, run, j, n)
  {
    hide Packetized;
    var s := StateAt(immediate, run, n - 1);
    if s.needIdr {
      j := n - 1;
      ReadyKind(immediate, run, j);
    } else {
      j := Chained(immediate, run, n - 1);
    }
  }

  /** Every predictive unit delivered follows a delivered IDR, only deliveries and parameters between. */
  lemma PredictiveFollowsIdr(immediate: bool, run: seq<Event>, n: nat) returns (j: nat)
    requires n < |run| && ReadyAt(immediate, run, n) && ResultAt(immediate, run, n).au.predictive
    ensures ChainFrom(immediate, run, j, n)
  {
    hide Packetized;
    ReadyKind(immediate, run, n);
    j := Chained(immediate, run, n);
  }

  /** Cached parameter sets never change, whatever happens afterwards. */
  lemma {:induction false} CacheForever(immediate: bool, run: seq<Event>, m: nat, n: nat)
    requires m <= n <= |run|
    ensures var a, b := StateAt(immediate, run, m), StateAt(immediate, run, n);
      (|a.sps| > 0 ==> b.sps == a.sps) && (|a.pps| > 0 ==> b.pps == a.pps) && b.immediate == immediate
    decreases n
  {
    hide Step;
    if m < n {
      CacheForever(immediate, run, m, n - 1);
      StepKeeps(StateAt(immediate, run, n - 1), run[n - 1]);
    } else if n > 0 {
      CacheForever(immediate, run, n - 1, n - 1);
      StepKeeps(StateAt(immediate, run, n - 1), run[n - 1]);
    }
  }

  lemma StepKeeps(s: Input, e: Event)
    ensures var t := Step(s, e).state;
            (|s.sps| > 0 ==> t.sps == s.sps) && (|s.pps| > 0 ==> t.pps == s.pps) && t.immediate == s.immediate
  {
    hide Packetized;
  }

  /** A rejected access unit caches neither parameter set and asks for an IDR unit. */
  lemma RejectedCachesNothing(immediate: bool, run: seq<Event>, n: nat)
    requires n < |run| && run[n].Access? && ResultAt(immediate, run, n).code < 0
    ensures StateAt(immediate, run, n + 1) == StateAt(immediate, run, n).(needIdr := true)
    ensures ResultAt(immediate, run, n).au == NO_AU
  {
    hide Packetized;
    assert StateAt(immediate, run, n + 1) == ResultAt(immediate, run, n).state;
  }

  /** A unit that was delivered is delivered again when it is sent again. */
  lemma RepeatedIsReady(immediate: bool, run: seq<Event>, n: nat)
    requires n + 1 < |run| && ReadyAt(immediate, run, n) && run[n + 1] == run[n]
    ensures ReadyAt(immediate, run, n + 1) && ResultAt(immediate, run, n + 1).au == ResultAt(immediate, run, n).au
  {
    hide Packetized;
    assert StateAt(immediate, run, n + 1) == ResultAt(immediate, run, n).state;
  }

  /** A delivered unit carries exactly the cached parameter sets, both of them present. */
  lemma ReadyParameters(immediate: bool, run: seq<Event>, n: nat)
    requires n < |run| && ReadyAt(immediate, run, n)
    ensures var o, t := ResultAt(immediate, run, n), StateAt(immediate, run, n + 1);
      o.au.sps == t.sps && o.au.pps == t.pps && |t.sps| > 0 && |t.pps| > 0 && !t.needIdr
  {
    hide Packetized;
    assert StateAt(immediate, run, n + 1) == ResultAt(immediate, run, n).state;
  }
}
