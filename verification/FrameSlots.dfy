/**
 The six-slot frame ownership machine: decode outputs, one queued frame, presenter-held frames.
 */
module FrameSlots {
  datatype Owner = Free | Writing | Queued | Held

  const SLOTS: nat := 6

  datatype Slots = Slots(owner: seq<Owner>, id: seq<nat>, at: seq<nat>, queued: int)

  const NO_SLOTS: Slots :=
    Slots([Free, Free, Free, Free, Free, Free], [0, 0, 0, 0, 0, 0], [0, 0, 0, 0, 0, 0], -1)

  /** At most one slot is queued, and it is the one recorded. */
  predicate Sound(s: Slots) {
    && |s.owner| == |s.id| == |s.at| == SLOTS && -1 <= s.queued < SLOTS
    && forall i :: 0 <= i < SLOTS ==> (s.owner[i] == Queued <==> i == s.queued)
  }

  /** The first `n` free slots at or after `i`. */
  function FreeFrom(owner: seq<Owner>, i: nat, n: nat): (r: seq<nat>)
    ensures |r| <= n
    ensures forall k :: 0 <= k < |r| ==> i <= r[k] < |owner| && owner[r[k]] == Free
    ensures forall j, k :: 0 <= j < k < |r| ==> r[j] < r[k]
    decreases |owner| - i
  {
    if n == 0 || i >= |owner| then []
    else if owner[i] == Free then [i] + FreeFrom(owner, i + 1, n - 1)
    else FreeFrom(owner, i + 1, n)
  }

  datatype Call =
    | Reserve
    | Publish(slots: seq<int>, count: int, ids: seq<nat>, times: seq<nat>)
    | Take
    | Release(slot: int)

  /** State after a call, whether it succeeded, and what it handed out: slots, or slot, id and time. */
  datatype Answer = Answer(state: Slots, ok: bool, out: seq<nat>)

  predicate Publishable(s: Slots, c: Call)
    requires c.Publish?
  {
    && |c.slots| == 3 && 0 <= c.count <= 3 && |c.ids| >= c.count && |c.times| >= c.count
    && (forall k :: 0 <= k < 3 ==> 0 <= c.slots[k] < |s.owner| && s.owner[c.slots[k]] == Writing)
    && c.slots[0] != c.slots[1] && c.slots[0] != c.slots[2] && c.slots[1] != c.slots[2]
  }

  function Apply(s: Slots, c: Call): (a: Answer)
    requires Sound(s)
  {
    match c
    case Reserve =>
      var f := FreeFrom(s.owner, 0, 3);
      if |f| != 3 then Answer(s, false, [])
      else Answer(s.(owner := s.owner[f[0] := Writing][f[1] := Writing][f[2] := Writing]), true, f)
    case Publish(slots, count, ids, times) =>
      if !Publishable(s, c) then Answer(s, false, [])
      else
        var o := s.owner[slots[0] := Free][slots[1] := Free][slots[2] := Free];
        if count == 0 then Answer(s.(owner := o), true, [])
        else
          var q := slots[count - 1];
          var o' := if s.queued >= 0 then o[s.queued := Free] else o;
          Answer(Slots(o'[q := Queued], s.id[q := ids[count - 1]], s.at[q := times[count - 1]], q), true, [])
    case Take =>
      if s.queued < 0 then Answer(s, false, [])
      else Answer(s.(owner := s.owner[s.queued := Held], queued := -1), true,
                  [s.queued, s.id[s.queued], s.at[s.queued]])
    case Release(slot) =>
      if !(0 <= slot < SLOTS) || s.owner[slot] != Held then Answer(s, false, [])
      else Answer(s.(owner := s.owner[slot := Free]), true, [])
  }

  lemma FreeStep(o: seq<Owner>, i: nat, n: nat, found: seq<nat>)
    requires i < |o| && n > 0
    ensures found + FreeFrom(o, i, n)
         == if o[i] == Free then found + [i] + FreeFrom(o, i + 1, n - 1) else found + FreeFrom(o, i + 1, n)
  {
    if o[i] == Free {
      assert found + ([i] + FreeFrom(o, i + 1, n - 1)) == found + [i] + FreeFrom(o, i + 1, n - 1);
    }
  }

  lemma FreeEnd(o: seq<Owner>, i: nat, n: nat)
    ensures i >= |o| || n == 0 ==> FreeFrom(o, i, n) == []
  {}

  class AvcFrameSlots {
    const owner: array<Owner>
    const id: array<nat>
    const at: array<nat>
    var queued: int

    ghost predicate Valid()
      reads this, owner, id, at
    {
      owner.Length == id.Length == at.Length == SLOTS && id != at && Sound(State())
    }

    ghost function State(): (s: Slots)
      reads this, owner, id, at
    {
      Slots(owner[..], id[..], at[..], queued)
    }

    /** `avc_frame_slots_init`. */
    constructor ()
      ensures Valid() && fresh(owner) && fresh(id) && fresh(at) && State() == NO_SLOTS
    {
      owner := new Owner[SLOTS](_ => Free);
      id := new nat[SLOTS](_ => 0);
      at := new nat[SLOTS](_ => 0);
      queued := -1;
    }

    /** `avc_frame_slots_reserve`. */
    method Reserve() returns (ok: bool, slots: seq<nat>)
      requires Valid()
      modifies owner
      ensures Valid() && Answer(State(), ok, slots) == Apply(old(State()), Call.Reserve)
    {
      var found := FindFree();
      if |found| != 3 {
        return false, [];
      }
      owner[found[0]] := Writing;
      owner[found[1]] := Writing;
      owner[found[2]] := Writing;
      return true, found;
    }

    /** The search of `avc_frame_slots_reserve`: up to three free slots. */
    method FindFree() returns (found: seq<nat>)
      requires Valid()
      ensures found == FreeFrom(owner[..], 0, 3)
    {
      hide Sound, FreeFrom;
      ghost var o := owner[..];
      found := [];
      var i := 0;
      while i < SLOTS && |found| < 3
        invariant 0 <= i <= SLOTS && |found| <= 3
        invariant FreeFrom(o, 0, 3) == found + FreeFrom(o, i, 3 - |found|)
      {
        FreeStep(o, i, 3 - |found|, found);
        if owner[i] == Free {
          found := found + [i];
        }
        i := i + 1;
      }
      FreeEnd(o, i, 3 - |found|);
    }

    /** `avc_frame_slots_publish`. */
    method Publish(slots: seq<int>, count: int, ids: seq<nat>, times: seq<nat>) returns (ok: bool)
      requires Valid() && |slots| == 3 && (0 < count <= 3 ==> |ids| >= count && |times| >= count)
      modifies this, owner, id, at
      ensures Valid() && Answer(State(), ok, []) == Apply(old(State()), Call.Publish(slots, count, ids, times))
    {
      hide Sound;
      ApplySound(State(), Call.Publish(slots, count, ids, times));
      SoundShape(State());
      if count < 0 || count > 3 {
        return false;
      }
      ok := Returnable(slots);
      if !ok {
        return;
      }
      owner[slots[0]] := Free;
      owner[slots[1]] := Free;
      owner[slots[2]] := Free;
      if count > 0 {
        if queued >= 0 {
          owner[queued] := Free;
        }
        queued := slots[count - 1];
        owner[queued] := Queued;
        id[queued] := ids[count - 1];
        at[queued] := times[count - 1];
      }
    }

    /** The checks of `avc_frame_slots_publish`: three different slots, all being written. */
    method Returnable(slots: seq<int>) returns (ok: bool)
      requires Valid() && |slots| == 3
      ensures ok <==> && (forall k :: 0 <= k < 3 ==> 0 <= slots[k] < SLOTS && owner[slots[k]] == Writing)
                      && slots[0] != slots[1] && slots[0] != slots[2] && slots[1] != slots[2]
    {
      var i := 0;
      while i < 3
        invariant 0 <= i <= 3
        invariant forall k :: 0 <= k < i ==> 0 <= slots[k] < SLOTS && owner[slots[k]] == Writing
        invariant forall j, k :: 0 <= j < k < i ==> slots[j] != slots[k]
      {
        if slots[i] < 0 || slots[i] >= SLOTS || owner[slots[i]] != Writing {
          return false;
        }
        var j := 0;
        while j < i
          invariant 0 <= j <= i && forall k :: 0 <= k < j ==> slots[k] != slots[i]
        {
          if slots[i] == slots[j] {
            return false;
          }
          j := j + 1;
        }
        i := i + 1;
      }
      ok := true;
    }

    /** `avc_frame_slots_take`. */
    method Take() returns (ok: bool, slot: nat, frameId: nat, time: nat)
      requires Valid()
      modifies this, owner
      ensures Valid()
      ensures Answer(State(), ok, if ok then [slot, frameId, time] else []) == Apply(old(State()), Call.Take)
    {
      if queued < 0 {
        return false, 0, 0, 0;
      }
      slot := queued;
      queued := -1;
      owner[slot] := Held;
      return true, slot, id[slot], at[slot];
    }

    /** `avc_frame_slots_release`. */
    method Release(slot: int) returns (ok: bool)
      requires Valid()
      modifies owner
      ensures Valid() && Answer(State(), ok, []) == Apply(old(State()), Call.Release(slot))
    {
      if slot < 0 || slot >= SLOTS || owner[slot] != Held {
        return false;
      }
      owner[slot] := Free;
      ok := true;
    }
  }

  // ----- runs -----

  /** Every call keeps the machine sound, and a refused call changes nothing. */
  lemma ApplySound(s: Slots, c: Call)
    requires Sound(s)
    ensures Sound(Apply(s, c).state) && (!Apply(s, c).ok ==> Apply(s, c).state == s)
  {}

  // What each call does to each slot.

  lemma {:induction false} FreeLowest(owner: seq<Owner>, i: nat, n: nat, j: nat)
    requires i <= j < |owner| && owner[j] == Free && j !in FreeFrom(owner, i, n)
    ensures |FreeFrom(owner, i, n)| == n && forall k :: 0 <= k < n ==> FreeFrom(owner, i, n)[k] < j
    decreases |owner| - i
  {
    if n > 0 {
      var m := if owner[i] == Free then n - 1 else n;
      assert owner[i] == Free ==> FreeFrom(owner, i, n) == [i] + FreeFrom(owner, i + 1, m);
      FreeLowest(owner, i + 1, m, j);
    }
  }

  /** A reservation takes the three lowest free slots. */
  lemma ReserveDoes(s: Slots, i: nat)
    requires Sound(s) && Apply(s, Reserve).ok && i < SLOTS
    ensures var a := Apply(s, Reserve);
            && |a.out| == 3 && a.out[0] < a.out[1] < a.out[2] && |a.state.owner| == SLOTS
            && a.state.owner[i] == (if i in a.out then Writing else s.owner[i])
            && (i in a.out ==> s.owner[i] == Free) && (s.owner[i] == Free && i !in a.out ==> a.out[2] < i)
            && a.state == s.(owner := a.state.owner)
  {
    if s.owner[i] == Free && i !in Apply(s, Reserve).out {
      FreeLowest(s.owner, 0, 3, i);
    }
  }

  /** Three different slots being written, and at most three pictures for them. */
  predicate Returns(s: Slots, slots: seq<int>, count: int) {
    && |slots| == 3 && 0 <= count <= 3 && |s.owner| == 6
    && (forall j, k :: 0 <= j < k < 3 ==> slots[j] != slots[k])
    && forall i :: i in slots ==> 0 <= i < 6 && s.owner[i] == Writing
  }

  /** A publication queues its newest picture; its other slots and the one queued before are free. */
  lemma PublishDoes(s: Slots, slots: seq<int>, count: int, ids: seq<nat>, times: seq<nat>, i: nat)
    requires Sound(s) && i < SLOTS && |slots| == 3 && (0 < count <= 3 ==> |ids| >= count && |times| >= count)
    ensures var a := Apply(s, Publish(slots, count, ids, times));
            && (a.ok <==> Returns(s, slots, count)) && |a.state.owner| == |a.state.id| == |a.state.at| == SLOTS
            && (a.ok && count == 0 ==>
                  && a.state == s.(owner := a.state.owner)
                  && a.state.owner[i] == if i in slots then Free else s.owner[i])
            && (a.ok && count > 0 ==>
                  && a.state.queued == slots[count - 1]
                  && a.state.owner[i] == (if i == slots[count - 1] then Queued
                                          else if i in slots || i == s.queued then Free else s.owner[i])
                  && a.state.id[i] == (if i == slots[count - 1] then ids[count - 1] else s.id[i])
                  && a.state.at[i] == if i == slots[count - 1] then times[count - 1] else s.at[i])
  {}

  /** Taking holds the queued slot, if there is one. */
  lemma TakeDoes(s: Slots, i: nat)
    requires Sound(s) && i < SLOTS
    ensures var a := Apply(s, Take);
            && (a.ok <==> exists q :: 0 <= q < |s.owner| && s.owner[q] == Queued) && |a.state.owner| == SLOTS
            && (a.ok ==> s.queued >= 0 && a.out == [s.queued, s.id[s.queued], s.at[s.queued]])
            && (a.ok ==> a.state == s.(owner := a.state.owner, queued := -1))
            && a.state.owner[i] == if s.owner[i] == Queued then Held else s.owner[i]
  {
    if s.queued >= 0 {
      assert s.owner[s.queued] == Queued;
    }
  }

  /** Releasing frees a held slot, and no other. */
  lemma ReleaseDoes(s: Slots, slot: int, i: nat)
    requires Sound(s) && i < SLOTS
    ensures var a := Apply(s, Release(slot));
            && (a.ok <==> 0 <= slot < 6 && s.owner[slot] == Held) && |a.state.owner| == SLOTS
            && a.state == s.(owner := a.state.owner)
            && a.state.owner[i] == if i == slot && s.owner[i] == Held then Free else s.owner[i]
  {}

  function At(run: seq<Call>, n: nat): (s: Slots)
    requires n <= |run|
    ensures Sound(s)
  {
    if n == 0 then NO_SLOTS else
      ApplySound(At(run, n - 1), run[n - 1]);
      Apply(At(run, n - 1), run[n - 1]).state
  }

  function AnswerAt(run: seq<Call>, n: nat): (a: Answer)
    requires n < |run|
  {
    Apply(At(run, n), run[n])
  }

  function Count(owner: seq<Owner>, o: Owner): (n: nat) {
    if |owner| == 0 then 0 else (if owner[0] == o then 1 else 0) + Count(owner[1..], o)
  }

  /** Slots handed out for writing were free: nobody's, and distinct. */
  lemma ReserveHandsOutFree(run: seq<Call>, n: nat)
    requires n < |run| && run[n].Reserve? && AnswerAt(run, n).ok
    ensures var r := AnswerAt(run, n).out;
      && |r| == 3 && r[0] < r[1] < r[2] < SLOTS
      && forall k :: 0 <= k < 3 ==> At(run, n).owner[r[k]] == Free && At(run, n + 1).owner[r[k]] == Writing
  {}

  lemma {:induction false} FreeCount(owner: seq<Owner>, i: nat, n: nat)
    requires i <= |owner|
    ensures |FreeFrom(owner, i, n)| == n <==> Count(owner[i..], Free) >= n
    decreases |owner| - i
  {
    if n > 0 && i < |owner| {
      assert owner[i..][1..] == owner[i + 1..];
      FreeCount(owner, i + 1, if owner[i] == Free then n - 1 else n);
    }
  }

  lemma {:induction false} CountAll(owner: seq<Owner>)
    ensures Count(owner, Free) + Count(owner, Writing) + Count(owner, Queued) + Count(owner, Held) == |owner|
  {
    if |owner| > 0 {
      CountAll(owner[1..]);
    }
  }

  lemma {:induction false} CountQueued(owner: seq<Owner>, q: int)
    requires forall i :: 0 <= i < |owner| ==> (owner[i] == Queued <==> i == q)
    ensures Count(owner, Queued) <= 1 && (q < 0 ==> Count(owner, Queued) == 0)
  {
    if |owner| > 0 {
      var t := owner[1..];
      assert forall i :: 0 <= i < |t| ==> t[i] == owner[i + 1];
      CountQueued(t, if q > 0 then q - 1 else -1);
    }
  }

  /** A reservation succeeds exactly if three slots are free: always, with none written and at most two held. */
  lemma ReserveSucceeds(run: seq<Call>, n: nat)
    requires n < |run| && run[n].Reserve?
    ensures AnswerAt(run, n).ok <==> Count(At(run, n).owner, Free) >= 3
    ensures Count(At(run, n).owner, Writing) == 0 && Count(At(run, n).owner, Held) <= 2 ==> AnswerAt(run, n).ok
  {
    var s := At(run, n);
    FreeCount(s.owner, 0, 3);
    assert s.owner[0..] == s.owner;
    CountAll(s.owner);
    CountQueued(s.owner, s.queued);
  }

  /** A held slot stays held, and is handed to nobody, until its owner releases it. */
  lemma {:induction false} HeldUntilReleased(run: seq<Call>, m: nat, n: nat, slot: nat)
    requires m <= n <= |run| && slot < SLOTS && At(run, m).owner[slot] == Held
    requires forall k :: m <= k < n ==> run[k] != Release(slot)
    ensures At(run, n).owner[slot] == Held
    ensures n < |run| && run[n].Reserve? ==> slot !in AnswerAt(run, n).out
    decreases n
  {
    hide Apply, Sound;
    if m < n {
      HeldUntilReleased(run, m, n - 1, slot);
      SoundShape(At(run, n - 1));
      HeldStep(At(run, n - 1), run[n - 1], slot);
    }
    NotHandedOut(At(run, n), slot);
  }

  lemma SoundShape(s: Slots)
    requires Sound(s)
    ensures |s.owner| == SLOTS && -1 <= s.queued < SLOTS
  {}

  lemma NotHandedOut(s: Slots, slot: nat)
    requires Sound(s)
    ensures slot < SLOTS && s.owner[slot] != Free ==> slot !in Apply(s, Reserve).out
  {}

  lemma HeldStep(s: Slots, c: Call, slot: nat)
    requires Sound(s) && slot < SLOTS && s.owner[slot] == Held && c != Release(slot)
    ensures Apply(s, c).state.owner[slot] == Held
  {}

  /** A slot being written stays so, and is handed to nobody, until a publication returns it. */
  lemma {:induction false} WritingUntilPublished(run: seq<Call>, m: nat, n: nat, slot: nat)
    requires m <= n <= |run| && slot < SLOTS && At(run, m).owner[slot] == Writing
    requires forall k :: m <= k < n && run[k].Publish? ==> slot !in run[k].slots
    ensures At(run, n).owner[slot] == Writing
    ensures n < |run| && run[n].Reserve? ==> slot !in AnswerAt(run, n).out
    decreases n
  {
    hide Apply, Sound;
    if m < n {
      WritingUntilPublished(run, m, n - 1, slot);
      SoundShape(At(run, n - 1));
      WritingStep(At(run, n - 1), run[n - 1], slot);
    }
    NotHandedOut(At(run, n), slot);
  }

  lemma WritingStep(s: Slots, c: Call, slot: nat)
    requires Sound(s) && slot < SLOTS && s.owner[slot] == Writing && (c.Publish? ==> slot !in c.slots)
    ensures Apply(s, c).state.owner[slot] == Writing
  {}

  /** Call `n` put a frame into the queue. */
  predicate PublishesAt(run: seq<Call>, n: nat)
    requires n < |run|
  {
    run[n].Publish? && run[n].count > 0 && AnswerAt(run, n).ok
  }

  predicate TakesAt(run: seq<Call>, n: nat)
    requires n < |run|
  {
    run[n].Take? && AnswerAt(run, n).ok
  }

  /** The id of the newest picture of a publication. */
  function PublishedId(c: Call): (id: nat) {
    if c.Publish? && 0 < c.count <= |c.ids| then c.ids[c.count - 1] else 0
  }

  function PublishedTime(c: Call): (time: nat) {
    if c.Publish? && 0 < c.count <= |c.times| then c.times[c.count - 1] else 0
  }

  function PublishedSlot(c: Call): (slot: int) {
    if c.Publish? && 0 < c.count <= |c.slots| then c.slots[c.count - 1] else -1
  }

  /** Call `j` is the newest publication before `n`, and nothing has taken it yet. */
  ghost predicate NewestAt(run: seq<Call>, j: nat, n: nat)
    requires n <= |run|
  {
    j < n && PublishesAt(run, j) && forall k :: j < k < n ==> !PublishesAt(run, k) && !TakesAt(run, k)
  }

  /** What is queued is the newest publication. */
  lemma {:induction false} QueuedIsNewest(run: seq<Call>, n: nat) returns (j: nat)
    requires n <= |run| && At(run, n).queued >= 0
    ensures NewestAt(run, j, n) && At(run, n).id[At(run, n).queued] == PublishedId(run[j])
    ensures At(run, n).at[At(run, n).queued] == PublishedTime(run[j])
    ensures At(run, n).queued == PublishedSlot(run[j])
    decreases n
  {
    hide Sound, Publishable;
    if PublishesAt(run, n - 1) {
      j := n - 1;
      PublishStep(At(run, n - 1), run[n - 1]);
    } else {
      OtherStep(At(run, n - 1), run[n - 1]);
      j := QueuedIsNewest(run, n - 1);
    }
  }

  lemma PublishStep(s: Slots, c: Call)
    requires Sound(s) && c.Publish? && c.count > 0 && Apply(s, c).ok
    ensures var t := Apply(s, c).state;
            && 0 <= t.queued < |t.id| && t.id[t.queued] == PublishedId(c)
            && t.queued < |t.at| && t.at[t.queued] == PublishedTime(c) && t.queued == PublishedSlot(c)
  {}

  lemma PublishShape(s: Slots, c: Call)
    requires Sound(s) && c.Publish? && c.count > 0 && Apply(s, c).ok
    ensures |c.slots| == 3 && c.count <= 3 && |c.ids| >= c.count && |c.times| >= c.count
  {}

  lemma OtherStep(s: Slots, c: Call)
    requires Sound(s) && Apply(s, c).state.queued >= 0 && !(c.Publish? && c.count > 0 && Apply(s, c).ok)
    ensures var t := Apply(s, c).state;
            t.queued == s.queued && t.id == s.id && t.at == s.at && !(c.Take? && Apply(s, c).ok)
  {}

  /** Every frame taken is the newest one published. */
  lemma TakeIsNewest(run: seq<Call>, n: nat) returns (j: nat)
    requires n < |run| && TakesAt(run, n)
    ensures NewestAt(run, j, n) && |AnswerAt(run, n).out| == 3
    ensures run[j].Publish? && 0 < run[j].count <= |run[j].slots| == 3
    ensures var out, newest := AnswerAt(run, n).out, run[j].count - 1;
            && |run[j].ids| > newest && |run[j].times| > newest
            && out == [run[j].slots[newest], run[j].ids[newest], run[j].times[newest]]
  {
    hide Publishable;
    j := QueuedIsNewest(run, n);
    PublishShape(At(run, j), run[j]);
  }

  /** If published ids increase, so do the ids taken. */
  lemma TakenIdsIncrease(run: seq<Call>, m: nat, n: nat)
    requires m < n < |run| && TakesAt(run, m) && TakesAt(run, n)
    requires forall i, j :: 0 <= i < j < |run| && PublishesAt(run, i) && PublishesAt(run, j) ==>
      PublishedId(run[i]) < PublishedId(run[j])
    ensures |AnswerAt(run, m).out| == |AnswerAt(run, n).out| == 3
    ensures AnswerAt(run, m).out[1] < AnswerAt(run, n).out[1]
  {
    hide Apply, Sound;
    var i := TakeIsNewest(run, m);
    var j := TakeIsNewest(run, n);
    assert j >= m;
  }
}
