/**
 * The frame store of CWindowCapture (SpyX/Capture/WindowCapture.cpp) as values:
 * the single ref-counted "latest frame" slot, the monotonic frame counter, and the
 * reference counts of the GPU textures that pass through it. The class in
 * window_capture.dfy is specified by the functions here; the lemmas state the
 * freshness protocol and the reference-count balance.
 */
module FrameStore {
  import opened WinTypes

  /** A GPU texture, identified by its COM object. */
  type TexId = nat

  /** Reference counts of textures, as AddRef and Release keep them. */
  type RefCounts = map<TexId, nat>

  function Count(refs: RefCounts, t: TexId): nat {
    if t in refs then refs[t] else 0
  }

  /** t->AddRef(). */
  function AddRef(refs: RefCounts, t: TexId): (r: RefCounts)
    ensures Count(r, t) == Count(refs, t) + 1
    ensures forall u: TexId :: u != t ==> Count(r, u) == Count(refs, u)
  {
    refs[t := Count(refs, t) + 1]
  }

  /** t->Release(), by a holder of a reference. */
  function Release(refs: RefCounts, t: TexId): (r: RefCounts)
    requires Count(refs, t) >= 1
    ensures Count(r, t) == Count(refs, t) - 1
    ensures forall u: TexId :: u != t ==> Count(r, u) == Count(refs, u)
  {
    refs[t := refs[t] - 1]
  }

  lemma {:induction false} ReleaseUndoesAddRef(refs: RefCounts, t: TexId)
    requires t in refs
    ensures Release(AddRef(refs, t), t) == refs
  {
    assert Release(AddRef(refs, t), t) == refs[t := refs[t]];
  }

  /** MLatestFrame, MFrameCount and the texture reference counts. */
  datatype Store = Store(latest: Option<TexId>, frameCount: nat, refs: RefCounts)

  /** The references the store itself holds on t: one, on its latest frame. */
  function Own(s: Store, t: TexId): nat {
    if s.latest == Some(t) then 1 else 0
  }

  /** The references on t held by anybody but the store. */
  function Foreign(s: Store, t: TexId): int {
    Count(s.refs, t) - Own(s, t)
  }

  /** The store's invariant: its reference keeps its latest frame alive. */
  predicate Holding(s: Store) {
    s.latest.Some? ==> Count(s.refs, s.latest.value) >= 1
  }

  /** OnFrameReceived, under the lock: release the previous frame, retain the new one,
      count it. The caller passes a texture it holds a reference on. */
  function Publish(s: Store, t: TexId): (r: Store)
    requires Holding(s)
    requires Foreign(s, t) >= 1
    ensures Holding(r) && r.latest == Some(t)
    ensures r.frameCount == s.frameCount + 1
    ensures forall u: TexId :: Foreign(r, u) == Foreign(s, u)
  {
    var refs := if s.latest.Some? then Release(s.refs, s.latest.value) else s.refs;
    Store(Some(t), s.frameCount + 1, AddRef(refs, t))
  }

  /** The result of AcquireLatestFrame: its HRESULT, *OutTexture, and the new store. */
  datatype Acquired = Acquired(hr: HResult, texture: Option<TexId>, store: Store)

  /** AcquireLatestFrame(OutTexture); outProvided says whether OutTexture is non-null. */
  function Acquire(s: Store, outProvided: bool): (a: Acquired)
    requires Holding(s)
    ensures Holding(a.store)
    ensures !outProvided ==> a == Acquired(E_INVALIDARG, None, s)
    ensures outProvided ==> a.texture == s.latest
    ensures outProvided ==> a.hr == if s.latest.Some? then S_OK else S_FALSE
    ensures a.store.latest == s.latest && a.store.frameCount == s.frameCount
    ensures forall u: TexId :: Foreign(a.store, u) == Foreign(s, u) + (if outProvided && s.latest == Some(u) then 1 else 0)
  {
    if !outProvided then Acquired(E_INVALIDARG, None, s)
    else if s.latest.Some? then
      Acquired(S_OK, s.latest, s.(refs := AddRef(s.refs, s.latest.value)))
    else
      Acquired(S_FALSE, None, s)
  }

  /** The frame-store part of StopCapture: release the held frame and clear the slot. */
  function Drop(s: Store): (r: Store)
    requires Holding(s)
    ensures Holding(r) && r.latest == None
    ensures r.frameCount == s.frameCount
    ensures forall u: TexId :: Foreign(r, u) == Foreign(s, u)
  {
    if s.latest.Some? then Store(None, s.frameCount, Release(s.refs, s.latest.value)) else s
  }

  /** SImplementation::OnFrameArrived once it has a texture: GetInterface adds a
      reference, OnFrameReceived publishes, and the local reference is released. */
  function Arrive(s: Store, t: TexId): (r: Store)
    requires Holding(s)
    ensures Holding(r) && r.latest == Some(t)
    ensures r.frameCount == s.frameCount + 1
    ensures forall u: TexId :: Foreign(r, u) == Foreign(s, u)
  {
    var s1 := s.(refs := AddRef(s.refs, t));
    assert Foreign(s1, t) >= 1;
    var s2 := Publish(s1, t);
    s2.(refs := Release(s2.refs, t))
  }

  /** Dropping twice is dropping once: StopCapture is idempotent on the store. */
  lemma DropIdempotent(s: Store)
    requires Holding(s)
    ensures Drop(Drop(s)) == Drop(s)
  {
  }

  /** What happens to the store over its lifetime. */
  datatype Event = Arrival(tex: TexId) | Acquisition | Stop

  /** The store after a sequence of events, applied in order. */
  function Replay(s: Store, events: seq<Event>): (r: Store)
    requires Holding(s)
    ensures Holding(r)
    decreases |events|
  {
    if events == [] then s
    else
      var before := Replay(s, events[..|events| - 1]);
      match events[|events| - 1]
      case Arrival(t) => Arrive(before, t)
      case Acquisition => Acquire(before, true).store
      case Stop => Drop(before)
  }

  /** The number of frames published by a sequence of events. */
  function Arrivals(events: seq<Event>): nat {
    if events == [] then 0
    else Arrivals(events[..|events| - 1]) + (if events[|events| - 1].Arrival? then 1 else 0)
  }

  /** MFrameCount counts arrivals exactly: acquisitions and stops never reset it. */
  lemma {:induction false} ReplayCountsArrivals(s: Store, events: seq<Event>)
    requires Holding(s)
    ensures Replay(s, events).frameCount == s.frameCount + Arrivals(events)
    decreases |events|
  {
    if events != [] {
      ReplayCountsArrivals(s, events[..|events| - 1]);
    }
  }

  /** The counter never decreases: every prefix of a run ends with a counter no
      larger than the whole run's. */
  lemma {:induction false} ReplayCounterMonotone(s: Store, events: seq<Event>, k: nat)
    requires Holding(s) && k <= |events|
    ensures Replay(s, events[..k]).frameCount <= Replay(s, events).frameCount
    decreases |events| - k
  {
    if k < |events| {
      var e := events[..k + 1];
      assert e[..|e| - 1] == events[..k];
      assert Replay(s, events[..k]).frameCount <= Replay(s, e).frameCount;
      ReplayCounterMonotone(s, events, k + 1);
    } else {
      assert events[..k] == events;
    }
  }

  /** Each publication strictly increases the counter. */
  lemma {:induction false} PublicationIncreasesCounter(s: Store, events: seq<Event>, t: TexId)
    requires Holding(s)
    ensures Replay(s, events + [Arrival(t)]).frameCount == Replay(s, events).frameCount + 1
  {
    var e := events + [Arrival(t)];
    assert e[..|e| - 1] == events;
  }

  /** Before any frame has arrived the slot is empty, so AcquireLatestFrame reports
      S_FALSE and a null texture rather than a stale pointer. */
  lemma {:induction false} NoArrivalNoFrame(s: Store, events: seq<Event>)
    requires Holding(s) && s.latest == None
    requires forall i :: 0 <= i < |events| ==> !events[i].Arrival?
    ensures Replay(s, events).latest == None
    ensures Acquire(Replay(s, events), true) == Acquired(S_FALSE, None, Replay(s, events))
    decreases |events|
  {
    if events != [] {
      NoArrivalNoFrame(s, events[..|events| - 1]);
    }
  }

  /** The references the store's clients hold are changed only by their acquisitions. */
  lemma {:induction false} ReplayKeepsForeignWithoutAcquisitions(s: Store, events: seq<Event>, u: TexId)
    requires Holding(s)
    requires forall i :: 0 <= i < |events| ==> !events[i].Acquisition?
    ensures Foreign(Replay(s, events), u) == Foreign(s, u)
    decreases |events|
  {
    if events != [] {
      ReplayKeepsForeignWithoutAcquisitions(s, events[..|events| - 1], u);
    }
  }

  /** One observation made by WaitForNewFrame's polling loop: the milliseconds since
      the wait began (steady_clock) and the value read from MFrameCount. */
  datatype Poll = Poll(elapsed: int, counter: nat)

  /** The loop leaves at a poll that sees the counter advanced or the deadline passed. */
  predicate Ends(p: Poll, start: nat, timeoutMs: int) {
    p.counter > start || p.elapsed >= timeoutMs
  }

  /** The clock eventually passes the deadline: the last observation is at or after it. */
  predicate ReachesDeadline(polls: seq<Poll>, timeoutMs: int) {
    |polls| > 0 && polls[|polls| - 1].elapsed >= timeoutMs
  }

  /** The poll at which the wait ends: the first one that ends it. */
  function EndIndex(polls: seq<Poll>, start: nat, timeoutMs: int): (k: nat)
    requires ReachesDeadline(polls, timeoutMs)
    ensures k < |polls| && Ends(polls[k], start, timeoutMs)
    ensures forall j :: 0 <= j < k ==> !Ends(polls[j], start, timeoutMs)
    decreases |polls|
  {
    if Ends(polls[0], start, timeoutMs) then 0
    else 1 + EndIndex(polls[1..], start, timeoutMs)
  }

  /** Promptness: once the counter is seen to advance the wait ends, without waiting
      for the timeout. */
  lemma PromptOnAdvance(polls: seq<Poll>, start: nat, timeoutMs: int, j: nat)
    requires ReachesDeadline(polls, timeoutMs)
    requires j < |polls| && polls[j].counter > start
    ensures EndIndex(polls, start, timeoutMs) <= j
  {
  }

  /** Boundedness: the wait never outlasts the first observation at or past the deadline. */
  lemma BoundedByDeadline(polls: seq<Poll>, start: nat, timeoutMs: int, j: nat)
    requires ReachesDeadline(polls, timeoutMs)
    requires j < |polls| && polls[j].elapsed >= timeoutMs
    ensures EndIndex(polls, start, timeoutMs) <= j
  {
  }

  /** Without an arrival during the wait, which is always so when FrameArrived is
      delivered on the very thread that waits, the wait lasts the whole timeout. */
  lemma WaitsOutTimeoutWithoutArrival(polls: seq<Poll>, start: nat, timeoutMs: int)
    requires ReachesDeadline(polls, timeoutMs)
    requires forall j :: 0 <= j < |polls| ==> polls[j].counter == start
    ensures polls[EndIndex(polls, start, timeoutMs)].elapsed >= timeoutMs
  {
  }
}
