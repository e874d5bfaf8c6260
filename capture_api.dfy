/**
 * The capture DLL (SpyX/Capture/WindowCaptureAPI.cpp): the file-scope state of the
 * capture thread, the handler of each request kind, the thread's message and request
 * loop, and the exported WC_* functions. A request is handed to the capture thread
 * and answered synchronously, so each WC_* function runs the SendRequest guard and
 * then the handler; the thread's own loop is Run. Platform answers arrive as oracle
 * parameters; the readback and the cache are specified by module Readback.
 */
module CaptureApi {
  import opened WinTypes
  import opened FrameStore
  import opened ApiErrors
  import opened Readback
  import Capture

  /** A heap block handed to the DLL's caller (HeapAlloc); never 0, which is null. */
  type BufId = nat

  /** CaptureResponse. frameData None is nullptr; error NoError is the empty string. */
  datatype Response = Response(success: bool, frameData: Option<BufId>, width: int, height: int, stride: int, error: ApiError)

  /** A failed response that set nothing but its error. */
  function Refusal(e: ApiError): (r: Response)
    ensures !r.success && r.frameData.None? && r.error == e
  {
    Response(false, None, 0, 0, 0, e)
  }

  const Success := Response(true, None, 0, 0, 0, NoError)

  /** The timeout ProcessCaptureFrame gives WaitForNewFrame, in milliseconds. */
  const WaitTimeoutMs: int := 50

  /** The size of g_LastErrorBuffer, terminator included. */
  const ErrorBufferSize: nat := 1024

  /** The platform's answers to one frame capture: the wait's observations, the
      readback, and the outcomes of CacheFrame's and GetCachedFrame's HeapAlloc. */
  datatype FrameOracle = FrameOracle(polls: seq<Poll>, readout: Readout, cacheAllocOk: bool, copyOk: bool)

  predicate FrameOracleOk(o: FrameOracle) {
    Sound(o.readout) && ReachesDeadline(o.polls, WaitTimeoutMs)
  }

  /** CaptureRequest, with the platform's answers to the work it causes. */
  datatype Request =
    | InitializeRequest(deviceOk: bool)
    | StartCaptureRequest(hwnd: Hwnd, window: Capture.WindowFacts, start: Capture.StartOracle)
    | StopCaptureRequest
    | CaptureFrameRequest(oracle: FrameOracle)
    | CleanupRequest
    | ShutdownRequest

  predicate RequestOk(r: Request) {
    match r
    case StartCaptureRequest(h, w, _) => Capture.Consistent(h, w)
    case CaptureFrameRequest(o) => FrameOracleOk(o)
    case _ => true
  }

  /** A message the capture thread's PeekMessage loop removes: a FrameArrived event
      of the frame pool (dispatched on this thread), WM_QUIT, or anything else. */
  datatype ThreadMessage = FrameArrivedMessage(arrival: Capture.Arrival) | QuitMessage | OtherMessage

  /** One pass of the capture thread's loop: the queued messages, then at most one request. */
  datatype Tick = Tick(messages: seq<ThreadMessage>, request: Option<Request>)

  /** A pass after which the loop ends. */
  predicate Stops(t: Tick) {
    QuitMessage in t.messages || t.request == Some(ShutdownRequest)
  }

  /** What the capture thread's handling of a request depends on and changes:
      g_Initialized, g_IsCapturing, the cache, whether the window capture is capturing
      and holds a frame, and where the next heap block goes. */
  datatype Snapshot = Snapshot(initialized: bool, isCapturing: bool, cache: FrameCache,
                               capturing: bool, holds: bool, nextBuf: BufId)

  /** The response that carries a readback reply; a served frame is in the block at next. */
  function ResponseOf(reply: Reply, next: BufId): (r: Response)
    ensures r.success <==> reply.Served?
    ensures r.success ==> r.frameData == Some(next) && r.error == NoError
    ensures !r.success ==> r.frameData.None? && r.error == reply.error
  {
    match reply
    case Served(f) => Response(true, Some(next), f.width, f.height, f.stride, NoError)
    case Refused(e, w, h, st) => Response(false, None, w, h, st, e)
  }

  /** The response the capture thread sends for req in state s; None when handling req
      raises an exception on the thread, which ends the process instead. */
  function Answer(req: Request, s: Snapshot): (r: Option<Response>)
    requires RequestOk(req) && CacheValid(s.cache)
    ensures r.None? <==> req.StartCaptureRequest? && s.initialized && req.window.isWindow
                         && Capture.StartResult(req.hwnd, req.window, req.start).Escaped?
    ensures r.Some? && !req.CaptureFrameRequest? ==> r.value.frameData.None?
    ensures r.Some? && r.value.success && req.StartCaptureRequest? ==>
              s.initialized && Capture.StartResult(req.hwnd, req.window, req.start) == Capture.Returned(S_OK)
  {
    match req
    case InitializeRequest(deviceOk) =>
      Some(if s.initialized || deviceOk then Success else Refusal(DeviceInitFailed))
    case StartCaptureRequest(h, w, o) =>
      if !s.initialized then Some(Refusal(NotInitialized))
      else if !w.isWindow then Some(Refusal(InvalidWindowHandle))
      else (match Capture.StartResult(h, w, o)
            case Escaped => None
            case Returned(hr) => Some(if hr == S_OK then Success else Refusal(StartFailed(hr))))
    case CaptureFrameRequest(o) =>
      Some(ResponseOf(Process(s.cache, s.capturing, s.holds, o.readout, o.cacheAllocOk, o.copyOk).0, s.nextBuf))
    case _ => Some(Success)
  }

  /** The state the capture thread is left in after handling req in state s. */
  function Next(req: Request, s: Snapshot): (t: Snapshot)
    requires RequestOk(req) && CacheValid(s.cache)
    ensures CacheValid(t.cache)
    ensures !req.CaptureFrameRequest? ==> t.nextBuf == s.nextBuf
    ensures req.StopCaptureRequest? || req.CleanupRequest? || req.ShutdownRequest? ==> !t.isCapturing && !t.capturing
  {
    match req
    case InitializeRequest(deviceOk) =>
      if s.initialized || !deviceOk then s
      else s.(initialized := true, capturing := false, holds := false)
    case StartCaptureRequest(h, w, o) =>
      if !s.initialized || !w.isWindow then s
      else
        var started := Capture.StartResult(h, w, o) == Capture.Returned(S_OK);
        s.(isCapturing := s.isCapturing || started, capturing := started, holds := false)
    case StopCaptureRequest =>
      s.(isCapturing := false, cache := if s.cache.data.Some? then EmptyCache else s.cache,
         capturing := false, holds := false)
    case CaptureFrameRequest(o) =>
      var p := Process(s.cache, s.capturing, s.holds, o.readout, o.cacheAllocOk, o.copyOk);
      s.(cache := p.1, nextBuf := if p.0.Served? then s.nextBuf + 1 else s.nextBuf)
    case CleanupRequest =>
      Snapshot(false, false, if s.cache.data.Some? then EmptyCache else s.cache, false, false, s.nextBuf)
    case ShutdownRequest =>
      s.(initialized := false, isCapturing := false, capturing := false, holds := false)
  }

  /** What each request kind does, read off Answer and Next: Initialize is idempotent;
      a start sets g_IsCapturing only on success, keeps it on failure, and never touches
      the cache; stop, cleanup and shutdown always succeed and end capturing, the first
      two freeing the cache block and the last keeping the cache; a frame request
      changes neither flag and leaves the cache as ProcessCaptureFrame does. */
  lemma RequestEffects(req: Request, s: Snapshot)
    requires RequestOk(req) && CacheValid(s.cache)
    ensures req.InitializeRequest? ==>
              && Answer(req, s) == Some(if s.initialized || req.deviceOk then Success else Refusal(DeviceInitFailed))
              && Next(req, s).initialized == (s.initialized || req.deviceOk)
              && Next(req, s).isCapturing == s.isCapturing && Next(req, s).cache == s.cache
    ensures req.StartCaptureRequest? ==>
              && Next(req, s).cache == s.cache && Next(req, s).initialized == s.initialized
              && (Answer(req, s).Some? && Answer(req, s).value.success ==> Next(req, s).isCapturing)
              && (Answer(req, s).Some? && !Answer(req, s).value.success ==> Next(req, s).isCapturing == s.isCapturing)
    ensures req.StopCaptureRequest? ==>
              Answer(req, s) == Some(Success) && !Next(req, s).isCapturing && Next(req, s).cache.data.None?
              && Next(req, s).initialized == s.initialized
    ensures req.CleanupRequest? ==>
              Answer(req, s) == Some(Success) && !Next(req, s).initialized && Next(req, s).cache.data.None?
    ensures req.ShutdownRequest? ==>
              Answer(req, s) == Some(Success) && !Next(req, s).initialized && Next(req, s).cache == s.cache
    ensures req.CaptureFrameRequest? ==>
              var p := Process(s.cache, s.capturing, s.holds, req.oracle.readout, req.oracle.cacheAllocOk, req.oracle.copyOk);
              && Answer(req, s) == Some(ResponseOf(p.0, s.nextBuf)) && Next(req, s).cache == p.1
              && Next(req, s).initialized == s.initialized && Next(req, s).isCapturing == s.isCapturing
  {
  }

  /** A snapshot without the one fact the messages of a pass can change: whether a frame
      has arrived. */
  function Settle(s: Snapshot): (t: Snapshot)
    ensures !t.holds && t.(holds := s.holds) == s
  {
    s.(holds := false)
  }

  /** Pass k of the loop answered its request, if any, as Answer says for the state s
      the request found. */
  ghost predicate Answered(t: Tick, s: Snapshot, a: Option<Response>) {
    && CacheValid(s.cache)
    && (t.request.None? ==> a.None?)
    && (t.request.Some? ==> RequestOk(t.request.value) && a == Answer(t.request.value, s))
  }

  /** The state s2 found by the next pass's request follows from s, the state found by
      this pass's, up to frames arriving in between. */
  ghost predicate Follows(t: Tick, s: Snapshot, s2: Snapshot) {
    && CacheValid(s.cache)
    && (t.request.None? ==> Settle(s2) == Settle(s))
    && (t.request.Some? ==> RequestOk(t.request.value) && Settle(s2) == Settle(Next(t.request.value, s)))
  }

  /** Pass k of the record: it answered as Answer says for the state seen[k] it found,
      and that state was start for the first pass and, up to frames arriving, what
      the pass before it left for every later one. */
  ghost predicate Step(ticks: seq<Tick>, seen: seq<Snapshot>, answers: seq<Option<Response>>, start: Snapshot, k: nat)
    requires k < |seen| == |answers| <= |ticks|
  {
    && Answered(ticks[k], seen[k], answers[k])
    && (k == 0 ==> Settle(seen[0]) == Settle(start))
    && (k > 0 ==> Follows(ticks[k - 1], seen[k - 1], seen[k]))
  }

  /** The record of the loop's first passes, pass by pass. */
  ghost predicate Trace(ticks: seq<Tick>, seen: seq<Snapshot>, answers: seq<Option<Response>>, start: Snapshot) {
    && |seen| == |answers| <= |ticks|
    && (forall k: nat :: k < |seen| ==> Step(ticks, seen, answers, start, k))
  }

  /** One more pass, answered in the state the last one left, extends the record. */
  lemma TraceExtends(ticks: seq<Tick>, seen: seq<Snapshot>, answers: seq<Option<Response>>, start: Snapshot,
                     found: Snapshot, a: Option<Response>)
    requires Trace(ticks, seen, answers, start) && |seen| < |ticks|
    requires Answered(ticks[|seen|], found, a)
    requires |seen| == 0 ==> Settle(found) == Settle(start)
    requires |seen| > 0 ==> Follows(ticks[|seen| - 1], seen[|seen| - 1], found)
    ensures Trace(ticks, seen + [found], answers + [a], start)
  {
    var n := |seen|;
    var seen', answers' := seen + [found], answers + [a];
    forall k: nat | k < n + 1
      ensures Step(ticks, seen', answers', start, k)
    {
      if k < n {
        assert Step(ticks, seen, answers, start, k);
        assert seen'[k] == seen[k] && answers'[k] == answers[k];
        if k > 0 {
          assert seen'[k - 1] == seen[k - 1];
        }
      }
    }
  }

  /** An int out-parameter (int*). */
  class IntCell {
    var value: int
    constructor (v: int)
      ensures value == v
    {
      value := v;
    }
  }

  /** WC_FrameInfo. */
  class FrameInfo {
    var width: int
    var height: int
    var stride: int
    var data: Option<BufId>
    constructor ()
      ensures width == 0 && height == 0 && stride == 0 && data == None
    {
      width, height, stride, data := 0, 0, 0, None;
    }
  }

  /** The first ErrorBufferSize - 1 characters: strncpy_s with _TRUNCATE. */
  function Truncate(s: string): (r: string)
    ensures |r| < ErrorBufferSize && r <= s
    ensures |s| < ErrorBufferSize ==> r == s
    ensures |s| >= ErrorBufferSize ==> |r| == ErrorBufferSize - 1
  {
    if |s| < ErrorBufferSize then s else s[..ErrorBufferSize - 1]
  }

  /** Every error text the DLL records fits its buffer, so WC_GetLastError returns it whole. */
  lemma MessagesFitErrorBuffer(e: ApiError)
    ensures Truncate(Message(e)) == Message(e)
  {
    if e.StartFailed? {
      StartFailureNamesHResult(e.hr);
    }
  }

  /** What WC_CaptureFrameToBuffer settles with its caller: the return value, the
      out-parameters, the error it records, whether a frame was requested, and the
      bytes it copies into the caller's buffer. */
  datatype Negotiated = Negotiated(result: int, width: int, height: int, stride: int,
                                   error: Option<ApiError>, requested: bool, copied: seq<Byte>)

  /** The negotiation once the parameters are valid: a refused capture returns 0; a
      buffer smaller than the frame returns minus the frame's size; otherwise the
      frame is copied and its size returned. */
  function Negotiation(running: bool, reply: Reply, bufferSize: int): (out: Negotiated)
    requires reply.Served? ==> WellFormed(reply.frame)
    ensures out.result > 0 <==> out.error.None?
    ensures |out.copied| == if out.result > 0 then out.result else 0
    ensures out.result > 0 ==> reply.Served? && out.result == |reply.frame.pixels| <= bufferSize
    ensures out.result < 0 ==> reply.Served? && out.result == -|reply.frame.pixels| && bufferSize < |reply.frame.pixels|
    ensures out.result <= 0 ==> out.width == 0 && out.height == 0 && out.stride == 0 && out.copied == []
    ensures out.requested == running
  {
    if !running then Negotiated(0, 0, 0, 0, Some(ThreadNotRunning), false, [])
    else match reply
      case Refused(e, _, _, _) => Negotiated(0, 0, 0, 0, Some(e), true, [])
      case Served(f) =>
        WellFormedSizeFitsInt32(f);
        if bufferSize < |f.pixels| then Negotiated(-|f.pixels|, 0, 0, 0, Some(BufferTooSmall), true, [])
        else Negotiated(|f.pixels|, f.width, f.height, f.stride, None, true, f.pixels)
  }

  /** The caller's buffer after the copy: the copied bytes, then what was there. */
  function Overlay(out: Negotiated, before: seq<Byte>): (after: seq<Byte>)
    requires |out.copied| <= |before|
    ensures |after| == |before| && after[..|out.copied|] == out.copied
    ensures after[|out.copied|..] == before[|out.copied|..]
  {
    out.copied + before[|out.copied|..]
  }

  /** A negotiation that copies nothing leaves the caller's buffer as it was. */
  lemma OverlayNothing(out: Negotiated, before: seq<Byte>)
    requires out.copied == []
    ensures Overlay(out, before) == before
  {
    assert before[0..] == before;
  }

  class CaptureSystem {
    var threadRunning: bool                  // g_ThreadRunning
    var threadJoinable: bool                 // g_CaptureThread.joinable()
    var terminated: bool                     // std::terminate has ended the process
    var initialized: bool                    // g_Initialized
    var isCapturing: bool                    // g_IsCapturing
    var capture: Capture.WindowCapture?      // g_WindowCapture; g_D3DContext lives and dies with it
    var cache: FrameCache                    // g_LastFrameData, ...Width, ...Height, ...Stride, ...Size
    var cachedBufferSize: int                // g_CachedBufferSize
    var lastError: string                    // g_LastError
    var heap: map<BufId, seq<Byte>>          // blocks handed out and not yet freed
    var nextBuf: BufId                       // where the next HeapAlloc puts its block

    ghost predicate Valid()
      reads this, capture
    {
      && (threadRunning ==> threadJoinable)
      && (initialized <==> capture != null)
      && (capture != null ==> capture.Valid() && capture.contextReady)
      && CacheValid(cache)
      && nextBuf >= 1 && (forall b :: b in heap ==> 1 <= b < nextBuf)
    }

    /** The DLL as loaded: no thread, nothing initialized, an empty cache. */
    constructor ()
      ensures Valid()
      ensures !threadRunning && !threadJoinable && !terminated
      ensures !initialized && !isCapturing && capture == null
      ensures cache == EmptyCache && cachedBufferSize == 0 && lastError == "" && heap == map[]
    {
      threadRunning, threadJoinable, terminated := false, false, false;
      initialized, isCapturing := false, false;
      capture := null;
      cache := EmptyCache;
      cachedBufferSize := 0;
      lastError := "";
      heap, nextBuf := map[], 1;
    }

    /** WindowCapture->IsCapturing() behind the initialization checks of
        ProcessCaptureFrame: a capture that runs has its frame pool and session. */
    function Capturing(): (c: bool)
      reads this, capture
      requires capture != null ==> capture.Valid()
      ensures c ==> capture != null && capture.item && capture.pool && capture.session
    {
      initialized && capture != null && capture.isCapturing
    }

    /** A capture is running and its store holds a frame (m_LatestFrame is set), so
        WaitForNewFrame hands a texture out. */
    function Holds(): (h: bool)
      reads this, capture
      requires capture != null ==> capture.Valid()
      ensures h ==> Capturing()
    {
      Capturing() && capture.latest.Some?
    }

    /** The state the capture thread's next request finds. */
    function Snap(): (s: Snapshot)
      reads this, capture
      requires capture != null ==> capture.Valid()
      ensures s.holds ==> s.capturing && s.initialized
    {
      Snapshot(initialized, isCapturing, cache, Capturing(), Holds(), nextBuf)
    }

    /** What ProcessCaptureFrame will answer, and the cache it will leave. */
    ghost function Prospect(o: FrameOracle): (Reply, FrameCache)
      reads this, capture
      requires CacheValid(cache) && (capture != null ==> capture.Valid()) && Sound(o.readout)
    {
      Process(cache, Capturing(), Holds(), o.readout, o.cacheAllocOk, o.copyOk)
    }

    /** WC_IsCapturing(): the three flags, and nothing else. It does not consult the
        window capture, so it can report a session that the last failed start request
        has already stopped (see StartCapture). */
    function IsCapturing(): (r: bool)
      reads this, capture
      requires Valid()
      ensures r ==> threadJoinable && capture != null && capture.contextReady
    {
      threadRunning && initialized && isCapturing
    }

    /** WC_GetLastError(): the recorded error, cut to the static buffer. */
    function GetLastError(): (r: string)
      reads this
      ensures r <= lastError && |r| < ErrorBufferSize
      ensures |lastError| < ErrorBufferSize ==> r == lastError
    {
      Truncate(lastError)
    }

    /** SetError(error): nullptr records "Unknown error". */
    method SetError(error: Option<string>)
      modifies this`lastError
      ensures lastError == if error.Some? then error.value else Message(UnknownError)
    {
      lastError := if error.Some? then error.value else Message(UnknownError);
    }

    /** GetCachedFrame(): served from the cache into a new block, or an empty failure. */
    method GetCachedFrame(copyOk: bool) returns (r: Response)
      requires Valid()
      modifies this`heap, this`nextBuf
      ensures Valid()
      ensures var l := Lookup(cache, copyOk);
              && (l.Some? ==>
                    && r == Response(true, Some(old(nextBuf)), l.value.width, l.value.height, l.value.stride, NoError)
                    && heap == old(heap)[old(nextBuf) := l.value.pixels] && nextBuf == old(nextBuf) + 1)
              && (l.None? ==> r == Response(false, None, 0, 0, 0, NoError) && heap == old(heap) && nextBuf == old(nextBuf))
    {
      if cache.data.Some? && cache.width > 0 && cache.height > 0 {
        var n := cache.stride * cache.height;
        if copyOk {
          var b := nextBuf;
          heap := heap[b := cache.data.value[..n]];
          nextBuf := nextBuf + 1;
          return Response(true, Some(b), cache.width, cache.height, cache.stride, NoError);
        }
      }
      return Response(false, None, 0, 0, 0, NoError);
    }

    /** The "try to return cached frame" tail of every falling-back failure. */
    method FallBack(e: ApiError, width: int, height: int, stride: int, copyOk: bool) returns (r: Response)
      requires Valid()
      modifies this`heap, this`nextBuf
      ensures Valid()
      ensures Answers(r, Respond(cache, Miss(e, width, height, stride, true), false, copyOk).0, old(heap), old(nextBuf))
    {
      var cached := GetCachedFrame(copyOk);
      if cached.success {
        return cached;
      }
      r := Response(false, None, width, height, stride, e);
    }

    /** The response and the heap are those of the reply: a served frame is a new block
        at the next address holding its bytes. */
    ghost predicate Answers(r: Response, reply: Reply, heap0: map<BufId, seq<Byte>>, next0: BufId)
      reads this
    {
      match reply
      case Served(f) =>
        && r == Response(true, Some(next0), f.width, f.height, f.stride, NoError)
        && heap == heap0[next0 := f.pixels] && nextBuf == next0 + 1
      case Refused(e, w, h, s) =>
        && r == Response(false, None, w, h, s, e)
        && heap == heap0 && nextBuf == next0
    }

    /** CacheFrame(data, width, height, stride). */
    method CacheFrame(pixels: seq<Byte>, width: int, height: int, stride: int, allocOk: bool)
      requires CacheValid(cache) && WellFormed(Frame(pixels, width, height, stride))
      modifies this`cache
      ensures cache == StoreFrame(old(cache), Frame(pixels, width, height, stride), allocOk)
    {
      var n := stride * height;
      if cache.data.None? || cache.size < n {
        // HeapFree of the old block, then HeapAlloc of n bytes and the memcpy into it
        if allocOk {
          cache := FrameCache(Some(pixels), width, height, stride, n);
        } else {
          cache := cache.(data := None, size := n);
        }
      } else {
        // the memcpy over the start of the block already there
        cache := FrameCache(Some(pixels + cache.data.value[n..]), width, height, stride, cache.size);
      }
    }

    /** ProcessCaptureFrame(). The texture WaitForNewFrame hands over is released on
        every path, so the CWindowCapture is left exactly as it was. */
    method ProcessCaptureFrame(o: FrameOracle) returns (r: Response)
      requires Valid() && FrameOracleOk(o)
      modifies this`heap, this`nextBuf, this`cache, capture
      ensures Valid()
      ensures var p := old(Prospect(o));
              cache == p.1 && Answers(r, p.0, old(heap), old(nextBuf))
      ensures capture != null ==> unchanged(capture)
    {
      if !initialized || capture == null || !capture.IsCapturing() {
        r := FallBack(NotCapturing, 0, 0, 0, o.copyOk);
        return;
      }
      var held := WaitAndRelease(o.polls);
      var rb := o.readout;
      if !held {
        r := FallBack(NoFrameAvailable, 0, 0, 0, o.copyOk);
      } else if !ValidDimensions(rb.texWidth, rb.texHeight) {
        r := FallBack(InvalidTextureDimensions, 0, 0, 0, o.copyOk);
      } else {
        r := ReadStaged(o);
      }
    }

    /** The CaptureFrame request: ProcessCaptureFrame, seen from the capture thread. */
    method HandleCaptureFrame(o: FrameOracle) returns (r: Response)
      requires Valid() && FrameOracleOk(o)
      modifies this`heap, this`nextBuf, this`cache, capture
      ensures Valid()
      ensures Some(r) == Answer(CaptureFrameRequest(o), old(Snap())) && Snap() == Next(CaptureFrameRequest(o), old(Snap()))
      ensures Answers(r, old(Prospect(o)).0, old(heap), old(nextBuf))
    {
      r := ProcessCaptureFrame(o);
    }

    /** The window-capture side of ProcessCaptureFrame: WaitForNewFrame with the 50 ms
        timeout, then texture->Release() on the texture it returned, if any (after the
        dimension check, or after the staging texture is made or fails). */
    method WaitAndRelease(polls: seq<Poll>) returns (held: bool)
      requires capture != null && capture.Valid() && capture.isCapturing
      requires ReachesDeadline(polls, WaitTimeoutMs)
      modifies capture
      ensures unchanged(capture)
      ensures held == old(capture.latest).Some?
    {
      ghost var refs0 := capture.refs;
      ghost var endedAt;
      var hr, texture;
      hr, texture, endedAt := capture.WaitForNewFrame(true, polls, WaitTimeoutMs);
      if Failed(hr) || texture.None? {
        return false;
      }
      ReleaseUndoesAddRef(refs0, texture.value);
      capture.ReleaseTexture(texture.value);
      held := true;
    }

    /** The part of ProcessCaptureFrame after a texture of accepted size is held and
        released: the staging texture, the Map call, the response block and the cache. */
    method ReadStaged(o: FrameOracle) returns (r: Response)
      requires Valid() && Sound(o.readout) && ValidDimensions(o.readout.texWidth, o.readout.texHeight)
      modifies this`heap, this`nextBuf, this`cache
      ensures Valid()
      ensures var p := Respond(old(cache), Fetch(true, true, o.readout), o.cacheAllocOk, o.copyOk);
              cache == p.1 && Answers(r, p.0, old(heap), old(nextBuf))
    {
      var rb := o.readout;
      if !rb.stagingOk {
        return Response(false, None, rb.texWidth, rb.texHeight, 0, StagingFailed);
      }
      if !rb.mapOk {
        r := FallBack(MapFailed, rb.texWidth, rb.texHeight, 0, o.copyOk);
        return;
      }
      var n := rb.rowPitch * rb.texHeight;
      if !rb.bufferOk {
        r := FallBack(AllocFailed, rb.texWidth, rb.texHeight, rb.rowPitch, o.copyOk);
        return;
      }
      var b := nextBuf;
      heap := heap[b := rb.mapped[..n]];
      nextBuf := nextBuf + 1;
      CacheFrame(heap[b], rb.texWidth, rb.texHeight, rb.rowPitch, o.cacheAllocOk);
      r := Response(true, Some(b), rb.texWidth, rb.texHeight, rb.rowPitch, NoError);
    }

    /** The Initialize request: idempotent once initialized; otherwise a CWindowCapture
        is created over the new D3D11 context exactly when the device comes up. */
    method HandleInitialize(deviceOk: bool) returns (r: Response)
      requires Valid()
      modifies this`capture, this`initialized
      ensures Valid()
      ensures Some(r) == Answer(InitializeRequest(deviceOk), old(Snap())) && Snap() == Next(InitializeRequest(deviceOk), old(Snap()))
      ensures old(initialized) ==> r == Success && capture == old(capture) && initialized
      ensures !old(initialized) && !deviceOk ==> r == Refusal(DeviceInitFailed) && !initialized && capture == null
      ensures !old(initialized) && deviceOk ==>
                && r == Success && initialized && fresh(capture)
                && capture.View() == Store(None, 0, map[]) && !capture.isCapturing && !capture.callback.IsBound()
      ensures threadRunning == old(threadRunning) && isCapturing == old(isCapturing) && cache == old(cache)
      ensures cachedBufferSize == old(cachedBufferSize) && lastError == old(lastError)
      ensures heap == old(heap) && nextBuf == old(nextBuf)
    {
      if initialized {
        return Success;
      }
      if !deviceOk {
        return Refusal(DeviceInitFailed);
      }
      var c := new Capture.WindowCapture();
      c.Initialize(true);
      capture := c;
      initialized := true;
      r := Success;
    }

    /** The StartCapture request: "Not initialized", then "Invalid window handle", then
        the HRESULT of CWindowCapture::StartCapture. g_IsCapturing is set on success and
        left as it was on every failure; the cache is never touched. An exception that
        leaves CWindowCapture::StartCapture leaves the thread function too, and
        std::terminate ends the process: there is no response (None). */
    method HandleStartCapture(hwnd: Hwnd, w: Capture.WindowFacts, o: Capture.StartOracle) returns (r: Option<Response>)
      requires Valid() && Capture.Consistent(hwnd, w)
      modifies this`isCapturing, this`terminated, capture
      ensures Valid()
      ensures r == Answer(StartCaptureRequest(hwnd, w, o), old(Snap())) && Snap() == Next(StartCaptureRequest(hwnd, w, o), old(Snap()))
      ensures capture == old(capture) && initialized == old(initialized)
      ensures terminated == (old(terminated) || r.None?)
      ensures !old(initialized) ==> r == Some(Refusal(NotInitialized)) && isCapturing == old(isCapturing)
      ensures old(initialized) && !w.isWindow ==>
                r == Some(Refusal(InvalidWindowHandle)) && isCapturing == old(isCapturing) && unchanged(capture)
      ensures old(initialized) && w.isWindow ==>
                var out := Capture.StartResult(hwnd, w, o);
                && (out == Capture.Returned(S_OK) ==> r == Some(Success) && isCapturing)
                && (out.Returned? && out.hr != S_OK ==> r == Some(Refusal(StartFailed(out.hr))) && isCapturing == old(isCapturing))
                && (out.Escaped? ==> r == None && isCapturing == old(isCapturing))
                && capture.isCapturing == (out == Capture.Returned(S_OK))
                && capture.View() == Drop(old(capture.View()))
      ensures threadRunning == old(threadRunning) && cache == old(cache)
      ensures cachedBufferSize == old(cachedBufferSize) && lastError == old(lastError)
      ensures heap == old(heap) && nextBuf == old(nextBuf)
    {
      if !initialized || capture == null {
        return Some(Refusal(NotInitialized));
      }
      if !w.isWindow {
        return Some(Refusal(InvalidWindowHandle));
      }
      var out := capture.StartCapture(hwnd, w, o);
      if out.Escaped? {
        terminated := true;
        return None;
      }
      if Failed(out.hr) {
        return Some(Refusal(StartFailed(out.hr)));
      }
      isCapturing := true;
      r := Some(Success);
    }

    /** The StopCapture request: always succeeds; stops the capture and frees the cache. */
    method HandleStopCapture() returns (r: Response)
      requires Valid()
      modifies this`isCapturing, this`cache, capture
      ensures Valid() && r == Success
      ensures Some(r) == Answer(StopCaptureRequest, old(Snap())) && Snap() == Next(StopCaptureRequest, old(Snap()))
      ensures !isCapturing && cache.data.None?
      ensures cache == if old(cache.data).Some? then EmptyCache else old(cache)
      ensures capture == old(capture) && initialized == old(initialized)
      ensures capture != null ==> !capture.isCapturing && capture.View() == Drop(old(capture.View()))
      ensures threadRunning == old(threadRunning) && cachedBufferSize == old(cachedBufferSize)
      ensures lastError == old(lastError) && heap == old(heap) && nextBuf == old(nextBuf)
    {
      isCapturing := false;
      if capture != null {
        capture.StopCapture();
      }
      if cache.data.Some? {
        cache := EmptyCache;
      }
      r := Success;
    }

    /** The Cleanup request: frees the cache, stops and deletes the capture (its
        destructor stops it once more) and the context, and clears g_Initialized. */
    method HandleCleanup() returns (r: Response)
      requires Valid()
      modifies this`isCapturing, this`cache, this`capture, this`initialized, capture
      ensures Valid() && r == Success
      ensures Some(r) == Answer(CleanupRequest, old(Snap())) && Snap() == Next(CleanupRequest, old(Snap()))
      ensures !isCapturing && !initialized && capture == null && cache.data.None?
      ensures cache == if old(cache.data).Some? then EmptyCache else old(cache)
      ensures old(capture) != null ==> old(capture).View() == Drop(old(capture.View())) && !old(capture).isCapturing
      ensures threadRunning == old(threadRunning) && cachedBufferSize == old(cachedBufferSize)
      ensures lastError == old(lastError) && heap == old(heap) && nextBuf == old(nextBuf)
    {
      isCapturing := false;
      if cache.data.Some? {
        cache := EmptyCache;
      }
      if capture != null {
        capture.StopCapture();
        capture.StopCapture();
        DropIdempotent(old(capture.View()));
        capture := null;
      }
      initialized := false;
      r := Success;
    }

    /** The Shutdown request: like Cleanup, but the cache is kept, and the thread's
        loop ends. */
    method HandleShutdown() returns (r: Response)
      requires Valid()
      modifies this`isCapturing, this`capture, this`initialized, this`threadRunning, capture
      ensures Valid() && r == Success
      ensures Some(r) == Answer(ShutdownRequest, old(Snap())) && Snap() == Next(ShutdownRequest, old(Snap()))
      ensures !isCapturing && !initialized && capture == null && !threadRunning
      ensures cache == old(cache)
      ensures old(capture) != null ==> old(capture).View() == Drop(old(capture.View())) && !old(capture).isCapturing
      ensures cachedBufferSize == old(cachedBufferSize)
      ensures lastError == old(lastError) && heap == old(heap) && nextBuf == old(nextBuf)
    {
      isCapturing := false;
      if capture != null {
        capture.StopCapture();
        capture.StopCapture();
        DropIdempotent(old(capture.View()));
        capture := null;
      }
      initialized := false;
      threadRunning := false;
      r := Success;
    }

    /** The switch of CaptureThreadMain: the response Answer gives for the state the
        request finds, and the state Next gives; the heap gains the served frame's block. */
    method Dispatch(req: Request) returns (r: Option<Response>)
      requires Valid() && RequestOk(req)
      modifies this, capture
      ensures Valid()
      ensures capture == null || capture == old(capture) || fresh(capture)
      ensures r == Answer(req, old(Snap()))
      ensures Snap() == Next(req, old(Snap()))
      ensures req.CaptureFrameRequest? ==> Answers(r.value, old(Prospect(req.oracle)).0, old(heap), old(nextBuf))
      ensures !req.CaptureFrameRequest? ==> heap == old(heap)
      ensures threadRunning == (old(threadRunning) && !req.ShutdownRequest?)
      ensures terminated == (old(terminated) || r.None?)
      ensures threadJoinable == old(threadJoinable) && lastError == old(lastError)
      ensures cachedBufferSize == old(cachedBufferSize)
    {
      if req.StartCaptureRequest? {
        r := HandleStartCapture(req.hwnd, req.window, req.start);
      } else if req.CaptureFrameRequest? {
        r := DispatchFrame(req);
      } else {
        r := DispatchOther(req);
      }
    }

    /** The CaptureFrame case of the switch, which always answers. */
    method DispatchFrame(req: Request) returns (r: Option<Response>)
      requires Valid() && RequestOk(req) && req.CaptureFrameRequest?
      modifies this, capture
      ensures Valid()
      ensures capture == old(capture)
      ensures r == Answer(req, old(Snap()))
      ensures Snap() == Next(req, old(Snap()))
      ensures r.Some? && Answers(r.value, old(Prospect(req.oracle)).0, old(heap), old(nextBuf))
      ensures threadRunning == old(threadRunning)
      ensures terminated == old(terminated) && threadJoinable == old(threadJoinable) && lastError == old(lastError)
      ensures cachedBufferSize == old(cachedBufferSize)
    {
      var x := HandleCaptureFrame(req.oracle);
      r := Some(x);
    }

    /** The cases of the switch that need no frame and cannot end the process:
        Initialize, StopCapture, Cleanup and Shutdown. */
    method DispatchOther(req: Request) returns (r: Option<Response>)
      requires Valid() && RequestOk(req) && !req.StartCaptureRequest? && !req.CaptureFrameRequest?
      modifies this, capture
      ensures Valid()
      ensures capture == null || capture == old(capture) || fresh(capture)
      ensures r == Answer(req, old(Snap()))
      ensures Snap() == Next(req, old(Snap()))
      ensures heap == old(heap)
      ensures threadRunning == (old(threadRunning) && !req.ShutdownRequest?)
      ensures terminated == old(terminated) && threadJoinable == old(threadJoinable) && lastError == old(lastError)
      ensures cachedBufferSize == old(cachedBufferSize)
      ensures r.Some?
    {
      match req
      case InitializeRequest(deviceOk) =>
        var x := HandleInitialize(deviceOk);
        r := Some(x);
      case StopCaptureRequest =>
        var x := HandleStopCapture();
        r := Some(x);
      case CleanupRequest =>
        var x := HandleCleanup();
        r := Some(x);
      case ShutdownRequest =>
        var x := HandleShutdown();
        r := Some(x);
    }

    /** The PeekMessage loop: frame-arrived events reach a capture that is capturing,
        WM_QUIT clears g_ThreadRunning and leaves the loop. The window capture's frame
        counter never goes down, and nothing a request depends on changes but whether
        a frame is held. */
    method PumpMessages(messages: seq<ThreadMessage>)
      requires Valid()
      modifies this`threadRunning, capture
      ensures Valid()
      ensures threadRunning == (old(threadRunning) && QuitMessage !in messages)
      ensures capture == old(capture)
      ensures capture != null ==> capture.frameCount >= old(capture.frameCount)
      ensures capture != null ==> capture.isCapturing == old(capture.isCapturing)
      ensures Settle(Snap()) == Settle(old(Snap()))
      ensures initialized == old(initialized) && isCapturing == old(isCapturing) && cache == old(cache)
      ensures cachedBufferSize == old(cachedBufferSize) && lastError == old(lastError)
      ensures heap == old(heap) && nextBuf == old(nextBuf)
    {
      var i := 0;
      while i < |messages|
        invariant 0 <= i <= |messages| && Valid()
        invariant QuitMessage !in messages[..i]
        invariant threadRunning == old(threadRunning) && capture == old(capture)
        invariant capture != null ==> capture.frameCount >= old(capture.frameCount)
        invariant capture != null ==> capture.isCapturing == old(capture.isCapturing)
      {
        match messages[i] {
          case QuitMessage =>
            threadRunning := false;
            return;
          case FrameArrivedMessage(a) =>
            if capture != null && capture.isCapturing {
              capture.OnFrameArrived(a);
            }
          case OtherMessage =>
        }
        assert messages[..i + 1] == messages[..i] + [messages[i]];
        i := i + 1;
      }
    }

    /** CaptureThreadMain's loop after COM is up: while g_ThreadRunning, pump the
        messages, then answer the pending request, if any. Pass k answers its request
        as Answer says for the state seen[k] it finds, and each pass finds the state
        the previous one left, up to frames arriving. A pass that sees WM_QUIT still
        answers its request. The loop stops exactly after the first pass that quits,
        shuts down, or ends the process. */
    method Run(ticks: seq<Tick>) returns (answers: seq<Option<Response>>, passes: nat, ghost seen: seq<Snapshot>)
      requires Valid()
      requires forall k :: 0 <= k < |ticks| && ticks[k].request.Some? ==> RequestOk(ticks[k].request.value)
      modifies this, capture
      ensures Valid()
      ensures passes <= |ticks| && |answers| == passes && |seen| == passes
      ensures Trace(ticks, seen, answers, old(Snap()))
      ensures !old(threadRunning) || old(terminated) ==> passes == 0
      ensures passes < |ticks| ==> !threadRunning || terminated
      ensures forall k :: 0 <= k < passes - 1 ==> !Stops(ticks[k]) && (ticks[k].request.Some? ==> answers[k].Some?)
      ensures passes > 0 ==> (terminated <==> ticks[passes - 1].request.Some? && answers[passes - 1].None?)
      ensures passes > 0 && !terminated ==> (Stops(ticks[passes - 1]) <==> !threadRunning)
    {
      answers, passes, seen := [], 0, [];
      ghost var start := Snap();
      while passes < |ticks| && threadRunning && !terminated
        invariant Valid() && passes <= |ticks|
        invariant capture == null || capture == old(capture) || fresh(capture)
        invariant |answers| == passes && |seen| == passes
        invariant Trace(ticks, seen, answers, start)
        invariant passes == 0 ==> Snap() == start
        invariant passes > 0 ==> Follows(ticks[passes - 1], seen[passes - 1], Snap())
        invariant !old(threadRunning) || old(terminated) ==> passes == 0
        invariant forall k :: 0 <= k < passes - 1 ==> !Stops(ticks[k]) && (ticks[k].request.Some? ==> answers[k].Some?)
        invariant passes > 0 ==> (terminated <==> ticks[passes - 1].request.Some? && answers[passes - 1].None?)
        invariant passes > 0 && !terminated ==> (Stops(ticks[passes - 1]) <==> !threadRunning)
        invariant passes == 0 ==> threadRunning == old(threadRunning) && terminated == old(terminated)
      {
        var a, found := Pass(ticks[passes]);
        TraceExtends(ticks, seen, answers, start, found, a);
        answers, seen := answers + [a], seen + [found];
        passes := passes + 1;
      }
    }

    /** One pass of CaptureThreadMain's loop: the messages, then the request, if any,
        answered in the state the messages leave. */
    method Pass(t: Tick) returns (a: Option<Response>, ghost found: Snapshot)
      requires Valid() && (t.request.Some? ==> RequestOk(t.request.value))
      modifies this, capture
      ensures Valid()
      ensures capture == null || capture == old(capture) || fresh(capture)
      ensures Answered(t, found, a)
      ensures Settle(found) == Settle(old(Snap()))
      ensures Follows(t, found, Snap())
      ensures threadRunning == (old(threadRunning) && !Stops(t))
      ensures terminated == (old(terminated) || (t.request.Some? && a.None?))
    {
      PumpMessages(t.messages);
      found := Snap();
      a := None;
      if t.request.Some? {
        a := Dispatch(t.request.value);
      }
    }

    /** WC_Initialize(): start the thread if needed (comOk answers its CoInitializeEx),
        then the Initialize request. Starting assigns a new std::thread to
        g_CaptureThread; when the previous thread ended on its own (COM failure or
        WM_QUIT) and was never joined, the old object is still joinable and the
        assignment calls std::terminate. */
    method Initialize(comOk: bool, deviceOk: bool) returns (ok: bool)
      requires Valid()
      modifies this
      ensures Valid()
      ensures terminated == (old(terminated) || (!old(threadRunning) && old(threadJoinable)))
      ensures threadJoinable == (old(threadJoinable) || !old(threadRunning))
      ensures !old(threadRunning) && old(threadJoinable) ==>
                !ok && threadRunning && initialized == old(initialized) && lastError == old(lastError)
      ensures old(threadRunning) || !old(threadJoinable) ==>
                && threadRunning == (old(threadRunning) || comOk)
                && (!threadRunning ==> !ok && lastError == Message(ThreadStartFailed) && initialized == old(initialized))
                && (threadRunning ==> (ok <==> old(initialized) || deviceOk) && initialized == ok)
                && (threadRunning && !ok ==> lastError == Message(DeviceInitFailed))
                && (threadRunning && ok ==> lastError == old(lastError))
      ensures isCapturing == old(isCapturing) && cache == old(cache) && heap == old(heap)
    {
      if !threadRunning {
        if threadJoinable {
          threadRunning := true;
          terminated := true;
          return false;
        }
        threadRunning, threadJoinable := true, true;
        if !comOk {
          SetError(Some(Message(ComInitFailed)));
          threadRunning := false;
        }
      }
      if !threadRunning {
        SetError(Some(Message(ThreadStartFailed)));
        return false;
      }
      var r := HandleInitialize(deviceOk);
      if !r.success {
        SetError(Some(Message(r.error)));
      }
      ok := r.success;
    }

    /** WC_Cleanup(). */
    method Cleanup()
      requires Valid()
      modifies this, capture
      ensures Valid()
      ensures !old(threadRunning) ==> initialized == old(initialized) && cache == old(cache) && capture == old(capture)
      ensures old(threadRunning) ==> !initialized && !isCapturing && capture == null && cache.data.None?
      ensures threadRunning == old(threadRunning) && lastError == old(lastError) && heap == old(heap)
    {
      if !threadRunning {
        return;
      }
      var _ := HandleCleanup();
    }

    /** WC_StartCapture(hwnd). A failed start of a capturing DLL has stopped the
        window capture, yet WC_IsCapturing still reports a session. */
    method StartCapture(hwnd: Hwnd, w: Capture.WindowFacts, o: Capture.StartOracle) returns (ok: bool)
      requires Valid() && Capture.Consistent(hwnd, w)
      modifies this, capture
      ensures Valid()
      ensures terminated == (old(terminated) || (old(threadRunning) && old(initialized) && w.isWindow
                                                 && Capture.StartResult(hwnd, w, o).Escaped?))
      ensures !old(threadRunning) ==> !ok && lastError == Message(ThreadNotRunning) && isCapturing == old(isCapturing)
      ensures old(threadRunning) && !old(initialized) ==> !ok && lastError == Message(NotInitialized)
      ensures old(threadRunning) && old(initialized) && !w.isWindow ==> !ok && lastError == Message(InvalidWindowHandle)
      ensures old(threadRunning) && old(initialized) && w.isWindow ==>
                var out := Capture.StartResult(hwnd, w, o);
                && (ok <==> out == Capture.Returned(S_OK))
                && (out.Returned? && !ok ==> lastError == Message(StartFailed(out.hr)))
                && (out.Escaped? ==> lastError == old(lastError))
      ensures ok ==> isCapturing && IsCapturing()
      ensures !ok ==> isCapturing == old(isCapturing)
      ensures old(IsCapturing()) && w.isWindow && !ok ==> IsCapturing() && !capture.isCapturing
      ensures threadRunning == old(threadRunning) && threadJoinable == old(threadJoinable)
      ensures cache == old(cache) && heap == old(heap)
    {
      if !threadRunning {
        SetError(Some(Message(ThreadNotRunning)));
        return false;
      }
      var r := HandleStartCapture(hwnd, w, o);
      if r.None? {
        return false;
      }
      if !r.value.success {
        SetError(Some(Message(r.value.error)));
      }
      ok := r.value.success;
    }

    /** WC_StopCapture(). */
    method StopCapture()
      requires Valid()
      modifies this, capture
      ensures Valid()
      ensures old(threadRunning) ==> !isCapturing && cache.data.None? && (capture != null ==> !capture.isCapturing)
      ensures !old(threadRunning) ==> isCapturing == old(isCapturing) && cache == old(cache)
      ensures threadRunning == old(threadRunning) && lastError == old(lastError) && heap == old(heap)
    {
      if !threadRunning {
        return;
      }
      var _ := HandleStopCapture();
    }

    /** WC_CaptureFrame(outWidth, outHeight, outStride): the new block, its dimensions
        through the out-parameters, or null with the error recorded. */
    method CaptureFrame(outWidth: IntCell?, outHeight: IntCell?, outStride: IntCell?, o: FrameOracle)
        returns (data: Option<BufId>)
      requires Valid() && FrameOracleOk(o)
      requires outWidth != null && outHeight != null && outStride != null ==>
                 outWidth != outHeight && outWidth != outStride && outHeight != outStride
      modifies this`heap, this`nextBuf, this`cache, this`lastError, capture, outWidth, outHeight, outStride
      ensures Valid()
      ensures outWidth == null || outHeight == null || outStride == null ==>
                && data == None && lastError == Message(InvalidParameters)
                && cache == old(cache) && heap == old(heap)
      ensures outWidth != null && outHeight != null && outStride != null && !old(threadRunning) ==>
                && data == None && lastError == Message(ThreadNotRunning)
                && cache == old(cache) && heap == old(heap)
                && outWidth.value == old(outWidth.value) && outHeight.value == old(outHeight.value)
                && outStride.value == old(outStride.value)
      ensures outWidth != null && outHeight != null && outStride != null && old(threadRunning) ==>
                var p := old(Prospect(o));
                && cache == p.1
                && (p.0.Served? ==>
                      && data == Some(old(nextBuf)) && heap == old(heap)[old(nextBuf) := p.0.frame.pixels]
                      && outWidth.value == p.0.frame.width && outHeight.value == p.0.frame.height
                      && outStride.value == p.0.frame.stride && lastError == old(lastError))
                && (p.0.Refused? ==>
                      && data == None && heap == old(heap) && lastError == Message(p.0.error)
                      && outWidth.value == old(outWidth.value) && outHeight.value == old(outHeight.value)
                      && outStride.value == old(outStride.value))
      ensures capture != null ==> unchanged(capture)
    {
      if outWidth == null || outHeight == null || outStride == null {
        SetError(Some(Message(InvalidParameters)));
        return None;
      }
      if !threadRunning {
        SetError(Some(Message(ThreadNotRunning)));
        return None;
      }
      var r := ProcessCaptureFrame(o);
      if !r.success {
        SetError(Some(Message(r.error)));
        return None;
      }
      // The checks for a null block and for non-positive dimensions never fire.
      assert r.frameData.Some? && r.width > 0 && r.height > 0 && r.stride > 0;
      outWidth.value := r.width;
      outHeight.value := r.height;
      outStride.value := r.stride;
      data := r.frameData;
    }

    /** WC_CaptureFrameInfo(outInfo): the struct is zeroed first, then filled on success. */
    method CaptureFrameInfo(info: FrameInfo?, o: FrameOracle) returns (ok: bool)
      requires Valid() && FrameOracleOk(o)
      modifies this`heap, this`nextBuf, this`cache, this`lastError, capture, info
      ensures Valid()
      ensures info == null ==> !ok && lastError == Message(NullFrameInfo) && cache == old(cache) && heap == old(heap)
      ensures info != null && !old(threadRunning) ==>
                && !ok && lastError == Message(ThreadNotRunning) && cache == old(cache) && heap == old(heap)
                && info.width == 0 && info.height == 0 && info.stride == 0 && info.data == None
      ensures info != null && old(threadRunning) ==>
                var p := old(Prospect(o));
                && cache == p.1
                && (ok <==> p.0.Served?)
                && (p.0.Served? ==>
                      && info.data == Some(old(nextBuf)) && heap == old(heap)[old(nextBuf) := p.0.frame.pixels]
                      && info.width == p.0.frame.width && info.height == p.0.frame.height
                      && info.stride == p.0.frame.stride && lastError == old(lastError))
                && (p.0.Refused? ==>
                      && heap == old(heap) && lastError == Message(p.0.error)
                      && info.width == 0 && info.height == 0 && info.stride == 0 && info.data == None)
      ensures capture != null ==> unchanged(capture)
    {
      if info == null {
        SetError(Some(Message(NullFrameInfo)));
        return false;
      }
      info.width, info.height, info.stride, info.data := 0, 0, 0, None;
      if !threadRunning {
        SetError(Some(Message(ThreadNotRunning)));
        return false;
      }
      ok := FillFrameInfo(info, o);
    }

    /** CaptureFrameInfo once the FrameInfo is cleared and the thread is running: the
        exchange with the capture thread, then the fields filled from its answer. */
    method FillFrameInfo(info: FrameInfo, o: FrameOracle) returns (ok: bool)
      requires Valid() && FrameOracleOk(o) && threadRunning
      requires info.width == 0 && info.height == 0 && info.stride == 0 && info.data == None
      modifies this`heap, this`nextBuf, this`cache, this`lastError, capture, info
      ensures Valid()
      ensures var p := old(Prospect(o));
                && cache == p.1
                && (ok <==> p.0.Served?)
                && (p.0.Served? ==>
                      && info.data == Some(old(nextBuf)) && heap == old(heap)[old(nextBuf) := p.0.frame.pixels]
                      && info.width == p.0.frame.width && info.height == p.0.frame.height
                      && info.stride == p.0.frame.stride && lastError == old(lastError))
                && (p.0.Refused? ==>
                      && heap == old(heap) && lastError == Message(p.0.error)
                      && info.width == 0 && info.height == 0 && info.stride == 0 && info.data == None)
      ensures capture != null ==> unchanged(capture)
    {
      var r := ProcessCaptureFrame(o);
      if !r.success {
        SetError(Some(Message(r.error)));
        return false;
      }
      // The checks for a null block and for non-positive dimensions never fire.
      assert r.frameData.Some? && r.width > 0 && r.height > 0 && r.stride > 0;
      info.width, info.height, info.stride, info.data := r.width, r.height, r.stride, r.frameData;
      ok := true;
    }

    /** HeapFree of a block this DLL handed out. */
    method FreeBlock(b: BufId)
      requires Valid() && b in heap
      modifies this`heap
      ensures Valid() && heap == old(heap) - {b}
    {
      heap := heap - {b};
    }

    /** WC_FreeFrame(frameData): null is ignored. */
    method FreeFrame(frameData: Option<BufId>)
      requires Valid() && (frameData.Some? ==> frameData.value in heap)
      modifies this`heap
      ensures Valid()
      ensures heap == if frameData.Some? then old(heap) - {frameData.value} else old(heap)
    {
      if frameData.Some? {
        FreeBlock(frameData.value);
      }
    }

    /** WC_GetFrameBufferSize(): 0 unless the thread runs and g_IsCapturing is set; the
        remembered size if positive; otherwise the byte count of a frame captured and
        freed at once. The size fits an int. */
    method GetFrameBufferSize(o: FrameOracle) returns (size: int)
      requires Valid() && FrameOracleOk(o)
      modifies this`heap, this`nextBuf, this`cache, this`cachedBufferSize, capture
      ensures Valid()
      ensures 0 <= size < 0x8000_0000 || size == old(cachedBufferSize)
      ensures !old(threadRunning) || !old(isCapturing) ==>
                size == 0 && cache == old(cache) && cachedBufferSize == old(cachedBufferSize)
      ensures old(threadRunning) && old(isCapturing) && old(cachedBufferSize) > 0 ==>
                size == old(cachedBufferSize) && cache == old(cache) && cachedBufferSize == old(cachedBufferSize)
      ensures old(threadRunning) && old(isCapturing) && old(cachedBufferSize) <= 0 ==>
                var p := old(Prospect(o));
                && cache == p.1
                && (p.0.Served? ==> size == |p.0.frame.pixels| && cachedBufferSize == size && size > 0)
                && (p.0.Refused? ==> size == 0 && cachedBufferSize == old(cachedBufferSize))
      ensures heap == old(heap) && (capture != null ==> unchanged(capture))
    {
      if !threadRunning || !isCapturing {
        return 0;
      }
      if cachedBufferSize > 0 {
        return cachedBufferSize;
      }
      ghost var heap0 := heap;
      ghost var p := Prospect(o);
      var r := ProcessCaptureFrame(o);
      if !r.success || r.frameData.None? {
        return 0;
      }
      WellFormedSizeFitsInt32(p.0.frame);
      size := r.stride * r.height;
      cachedBufferSize := size;
      FreeBlock(r.frameData.value);
      assert heap == heap0;
    }

    /** WC_CaptureFrameToBuffer(buffer, bufferSize, outWidth, outHeight, outStride):
        invalid parameters return 0 and touch nothing; otherwise the out-parameters are
        zeroed, and the result, the out-parameters, the error and the bytes written are
        those of the negotiation. The DLL's block is freed on every path. */
    method CaptureFrameToBuffer(buffer: array?<Byte>, bufferSize: int, outWidth: IntCell?, outHeight: IntCell?,
                                outStride: IntCell?, o: FrameOracle) returns (n: int)
      requires Valid() && FrameOracleOk(o)
      requires buffer != null && bufferSize > 0 ==> bufferSize <= buffer.Length
      requires outWidth != null && outHeight != null && outStride != null ==>
                 outWidth != outHeight && outWidth != outStride && outHeight != outStride
      modifies this`heap, this`nextBuf, this`cache, this`cachedBufferSize, this`lastError, capture, buffer,
               outWidth, outHeight, outStride
      ensures Valid()
      ensures buffer == null || bufferSize <= 0 || outWidth == null || outHeight == null || outStride == null ==>
                && n == 0 && lastError == Message(InvalidParameters) && cache == old(cache)
                && cachedBufferSize == old(cachedBufferSize)
                && (buffer != null ==> buffer[..] == old(buffer[..]))
                && (outWidth != null ==> outWidth.value == old(outWidth.value))
                && (outHeight != null ==> outHeight.value == old(outHeight.value))
                && (outStride != null ==> outStride.value == old(outStride.value))
      ensures buffer != null && bufferSize > 0 && outWidth != null && outHeight != null && outStride != null ==>
                var out := Negotiation(old(threadRunning), old(Prospect(o)).0, bufferSize);
                && n == out.result
                && outWidth.value == out.width && outHeight.value == out.height && outStride.value == out.stride
                && NegotiationEffects(out, old(Prospect(o)), old(cache), old(cachedBufferSize), old(lastError))
                && buffer[..] == Overlay(out, old(buffer[..]))
      ensures heap == old(heap) && (capture != null ==> unchanged(capture))
    {
      if buffer == null || bufferSize <= 0 || outWidth == null || outHeight == null || outStride == null {
        SetError(Some(Message(InvalidParameters)));
        return 0;
      }
      outWidth.value, outHeight.value, outStride.value := 0, 0, 0;
      var w, h, s;
      n, w, h, s := Negotiate(buffer, bufferSize, o);
      outWidth.value, outHeight.value, outStride.value := w, h, s;
    }

    /** The cache, the remembered size and the error a negotiation leaves. */
    ghost predicate NegotiationEffects(out: Negotiated, p: (Reply, FrameCache), cache0: FrameCache,
                                       size0: int, error0: string)
      reads this
    {
      && cache == (if out.requested then p.1 else cache0)
      && cachedBufferSize == (if out.result > 0 then out.result else size0)
      && lastError == (if out.error.Some? then Message(out.error.value) else error0)
    }

    /** The body of WC_CaptureFrameToBuffer after its parameters are checked. */
    method Negotiate(buffer: array<Byte>, bufferSize: int, o: FrameOracle) returns (n: int, w: int, h: int, s: int)
      requires Valid() && FrameOracleOk(o) && 0 < bufferSize <= buffer.Length
      modifies this`heap, this`nextBuf, this`cache, this`cachedBufferSize, this`lastError, capture, buffer
      ensures Valid()
      ensures var out := Negotiation(old(threadRunning), old(Prospect(o)).0, bufferSize);
              && n == out.result && w == out.width && h == out.height && s == out.stride
              && NegotiationEffects(out, old(Prospect(o)), old(cache), old(cachedBufferSize), old(lastError))
              && buffer[..] == Overlay(out, old(buffer[..]))
      ensures heap == old(heap) && (capture != null ==> unchanged(capture))
    {
      if !threadRunning {
        n, w, h, s := 0, 0, 0, 0;
        SetError(Some(Message(ThreadNotRunning)));
        OverlayNothing(Negotiation(false, old(Prospect(o)).0, bufferSize), buffer[..]);
        return;
      }
      n, w, h, s := Exchange(buffer, bufferSize, o);
    }

    /** The negotiation while the capture thread runs: ProcessCaptureFrame, then the
        error of a refusal or the copy of the frame served. */
    method Exchange(buffer: array<Byte>, bufferSize: int, o: FrameOracle) returns (n: int, w: int, h: int, s: int)
      requires Valid() && FrameOracleOk(o) && 0 < bufferSize <= buffer.Length
      modifies this`heap, this`nextBuf, this`cache, this`cachedBufferSize, this`lastError, capture, buffer
      ensures Valid()
      ensures var out := Negotiation(true, old(Prospect(o)).0, bufferSize);
              && n == out.result && w == out.width && h == out.height && s == out.stride
              && NegotiationEffects(out, old(Prospect(o)), old(cache), old(cachedBufferSize), old(lastError))
              && buffer[..] == Overlay(out, old(buffer[..]))
      ensures heap == old(heap) && (capture != null ==> unchanged(capture))
    {
      ghost var heap0, next0 := heap, nextBuf;
      ghost var p := Prospect(o);
      var r := ProcessCaptureFrame(o);
      if !r.success {
        n, w, h, s := 0, 0, 0, 0;
        SetError(Some(Message(r.error)));
        OverlayNothing(Negotiation(true, p.0, bufferSize), buffer[..]);
        return;
      }
      // The check for a null block never fires.
      assert r.frameData.Some? && p.0.Served?;
      assert next0 !in heap0;
      n, w, h, s := CopyOut(buffer, bufferSize, r, p.0.frame);
      assert heap == heap0;
    }

    /** The end of WC_CaptureFrameToBuffer once frame f is served in a new block:
        "Buffer too small" and minus the frame's size, or the copy into the caller's
        buffer and the size remembered. The block is freed either way. */
    method CopyOut(buffer: array<Byte>, bufferSize: int, r: Response, ghost f: Frame) returns (n: int, w: int, h: int, s: int)
      requires Valid() && WellFormed(f) && 0 < bufferSize <= buffer.Length
      requires r.success && r.frameData.Some? && r.frameData.value in heap && heap[r.frameData.value] == f.pixels
      requires r.width == f.width && r.height == f.height && r.stride == f.stride
      modifies this`heap, this`cachedBufferSize, this`lastError, buffer
      ensures Valid()
      ensures var out := Negotiation(true, Served(f), bufferSize);
              && n == out.result && w == out.width && h == out.height && s == out.stride
              && cachedBufferSize == (if out.result > 0 then out.result else old(cachedBufferSize))
              && lastError == (if out.error.Some? then Message(out.error.value) else old(lastError))
              && buffer[..] == Overlay(out, old(buffer[..]))
      ensures heap == old(heap) - {r.frameData.value}
    {
      var b := r.frameData.value;
      WellFormedSizeFitsInt32(f);
      var required := r.stride * r.height;
      n, w, h, s := 0, 0, 0, 0;
      if bufferSize < required {
        SetError(Some(Message(BufferTooSmall)));
        FreeBlock(b);
        n := -required;
        return;
      }
      var block := heap[b];
      forall i | 0 <= i < required {
        buffer[i] := block[i];
      }
      FreeBlock(b);
      cachedBufferSize := required;
      n, w, h, s := required, r.width, r.height, r.stride;
    }

    /** WC_Shutdown(): without the thread, nothing (a thread that ended on its own is
        not joined); otherwise the Shutdown request, which keeps the cache, and the join. */
    method Shutdown()
      requires Valid()
      modifies this, capture
      ensures Valid()
      ensures !threadRunning && cache == old(cache) && heap == old(heap) && lastError == old(lastError)
      ensures old(threadRunning) ==> !initialized && !isCapturing && capture == null && !threadJoinable
      ensures !old(threadRunning) ==> initialized == old(initialized) && capture == old(capture)
                                      && threadJoinable == old(threadJoinable)
      ensures terminated == old(terminated)
    {
      if !threadRunning {
        return;
      }
      var _ := HandleShutdown();
      // g_CaptureThread.join()
      threadJoinable := false;
    }
  }
}
