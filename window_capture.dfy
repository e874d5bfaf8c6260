/**
 * CWindowCapture (SpyX/Capture/WindowCapture.cpp): one live Windows.Graphics.Capture
 * session on one window. It owns the capture item, the frame pool and the session,
 * publishes arriving frames into its frame store, and hands them out. WinRT and
 * Direct3D calls are answered by oracle parameters; the frame store's state is
 * specified by the functions of module FrameStore.
 */
module Capture {
  import opened WinTypes
  import opened FrameStore
  import Delegates

  /** SizeInt32. */
  datatype Size = Size(width: int, height: int)

  /** The window as the platform reports it when a capture item is created for it. */
  datatype WindowFacts = WindowFacts(
    isWindow: bool,     // IsWindow(h)
    iconic: bool,       // IsIconic(h): minimized
    cloaked: bool,      // DwmGetWindowAttribute(DWMWA_CLOAKED)
    visible: bool,      // IsWindowVisible(h)
    hasInterop: bool,   // the activation factory implements IGraphicsCaptureItemInterop
    createHr: HResult,  // IGraphicsCaptureItemInterop::CreateForWindow
    itemSize: Size)     // GraphicsCaptureItem::Size()

  /** IsWindow(nullptr) is false. */
  predicate Consistent(hwnd: Hwnd, w: WindowFacts) {
    hwnd == NullHwnd ==> !w.isWindow
  }

  /** Where, if anywhere, the WinRT setup inside StartCapture's try block throws. */
  datatype SetupThrow = NoThrow | PoolCreateThrows | SessionCreateThrows | SessionStartThrows

  /** The platform's answers during StartCapture after the capture item exists. */
  datatype StartOracle = StartOracle(deviceHr: HResult, setup: SetupThrow)

  /** The debug output CreateCaptureItem writes about a window (OutputDebugStringA). */
  datatype Diagnostic = InvalidHandle | Minimized | Cloaked | NotVisible | CreateForWindowFailed(hr: HResult)

  const MinimizedError: HResult := MakeItfError(0x0011)
  const DeviceError: HResult := MakeItfError(0x0002)

  /** The number of buffers every frame pool is created and recreated with. */
  const PoolDepth: nat := 2

  /** What TryGetNextFrame delivers to OnFrameArrived. surface is None when the
      surface yields no ID3D11Texture2D (no DXGI access, or GetInterface failed). */
  datatype Arrival = NoFrame | Frame(contentSize: Size, surface: Option<TexId>)

  /** How a call ends: it returns an HRESULT, or a C++ exception escapes it. */
  datatype Outcome = Returned(hr: HResult) | Escaped

  /** How SImplementation::CreateCaptureItem ends. The interop query is winrt's as<>(),
      which throws hresult_no_interface instead of yielding null, so the E_NOINTERFACE
      return after it is never reached: without the interface the exception escapes. */
  function ItemResult(hwnd: Hwnd, w: WindowFacts): (r: Outcome)
    ensures hwnd == NullHwnd || !w.isWindow ==> r == Returned(E_HANDLE)
    ensures hwnd != NullHwnd && w.isWindow && w.iconic ==> r == Returned(MinimizedError)
    ensures hwnd != NullHwnd && w.isWindow && !w.iconic ==>
              r == if w.hasInterop then Returned(w.createHr) else Escaped
    ensures r != Returned(E_NOINTERFACE) || w.createHr == E_NOINTERFACE
  {
    if hwnd == NullHwnd || !w.isWindow then Returned(E_HANDLE)
    else if w.iconic then Returned(MinimizedError)
    else if !w.hasInterop then Escaped
    else Returned(w.createHr)
  }

  /** CreateCaptureItem returned a success code: the capture item exists. */
  predicate ItemCreated(hwnd: Hwnd, w: WindowFacts) {
    ItemResult(hwnd, w).Returned? && !Failed(ItemResult(hwnd, w).hr)
  }

  /** The debug lines CreateCaptureItem writes. */
  function ItemDiagnostics(hwnd: Hwnd, w: WindowFacts): seq<Diagnostic> {
    if hwnd == NullHwnd || !w.isWindow then [InvalidHandle]
    else if w.iconic then [Minimized]
    else
      (if w.cloaked then [Cloaked] else []) + (if !w.visible then [NotVisible] else [])
      + (if w.hasInterop && Failed(w.createHr) then [CreateForWindowFailed(w.createHr)] else [])
  }

  /** A cloaked or invisible window is only reported, never refused: the result of
      creating a capture item does not depend on either fact. */
  lemma CloakingAndVisibilityOnlyLog(hwnd: Hwnd, w: WindowFacts, cloaked: bool, visible: bool)
    ensures ItemResult(hwnd, w.(cloaked := cloaked, visible := visible)) == ItemResult(hwnd, w)
  {
  }

  /** How CWindowCapture::StartCapture ends once the context check has passed. The
      exception of a missing interop interface is raised before the try block, so it
      leaves StartCapture too; the setup inside the try block fails with E_FAIL. */
  function StartResult(hwnd: Hwnd, w: WindowFacts, o: StartOracle): (r: Outcome)
    ensures r.Escaped? <==> ItemResult(hwnd, w).Escaped?
    ensures r == Returned(S_OK) <==> ItemCreated(hwnd, w) && !Failed(o.deviceHr) && o.setup == NoThrow
    ensures r.Returned? && r.hr != S_OK ==> Failed(r.hr)
    ensures ItemResult(hwnd, w).Returned? && Failed(ItemResult(hwnd, w).hr) ==> r == ItemResult(hwnd, w)
    ensures ItemCreated(hwnd, w) && Failed(o.deviceHr) ==> r == Returned(DeviceError)
    ensures ItemCreated(hwnd, w) && !Failed(o.deviceHr) && o.setup != NoThrow ==> r == Returned(E_FAIL)
  {
    match ItemResult(hwnd, w)
    case Escaped => Escaped
    case Returned(item) =>
      if Failed(item) then Returned(item)
      else if Failed(o.deviceHr) then Returned(DeviceError)
      else if o.setup != NoThrow then Returned(E_FAIL)
      else Returned(S_OK)
  }

  /** A minimized window is a hard failure with the custom code 0x0011. */
  lemma MinimizedWindowFails(hwnd: Hwnd, w: WindowFacts, o: StartOracle)
    requires hwnd != NullHwnd && w.isWindow && w.iconic
    ensures StartResult(hwnd, w, o) == Returned(MinimizedError) && MinimizedError % 0x1_0000 == 0x0011
  {
  }

  /** A window that can be captured, on a system whose activation factory lacks the
      interop interface, makes StartCapture throw whatever the rest of the platform does. */
  lemma MissingInteropEscapes(hwnd: Hwnd, w: WindowFacts, o: StartOracle)
    requires hwnd != NullHwnd && w.isWindow && !w.iconic && !w.hasInterop
    ensures StartResult(hwnd, w, o) == Escaped
  {
  }

  class WindowCapture {
    // The frame store, guarded by MMutex in the source.
    var latest: Option<TexId>     // MLatestFrame
    var frameCount: nat           // MFrameCount
    var refs: RefCounts           // reference counts of the textures seen
    // The session.
    var isCapturing: bool         // MIsCapturing
    var contextReady: bool        // MContext is set and has a device
    var item: bool                // MItem is non-null
    var device: bool              // MDevice is non-null
    var pool: bool                // MFramePool is non-null
    var session: bool             // MSession is non-null
    var lastSize: Size            // MLastSize
    var poolDepth: nat            // buffer count of the last pool Create or Recreate
    var poolSize: Size            // size of the last pool Create or Recreate
    const callback: Delegates.Delegate   // MFrameCallback
    var callbackLog: seq<(Delegates.Call, TexId)>   // MFrameCallback.Execute(Texture) calls
    var diagnostics: seq<Diagnostic>

    /** The frame store as a value. */
    function View(): Store
      reads this
    {
      Store(latest, frameCount, refs)
    }

    ghost predicate Valid()
      reads this
    {
      && Holding(View())
      && (session ==> pool) && (pool ==> device)
      && (isCapturing ==> item && session)
    }

    /** The constructor; the apartment and dispatcher queue it sets up are not modelled. */
    constructor ()
      ensures Valid() && fresh(callback)
      ensures View() == Store(None, 0, map[])
      ensures !isCapturing && !contextReady && !item && !device && !pool && !session
      ensures lastSize == Size(0, 0)
      ensures !callback.IsBound() && callbackLog == [] && diagnostics == []
    {
      latest, frameCount, refs := None, 0, map[];
      isCapturing, contextReady := false, false;
      item, device, pool, session := false, false, false, false;
      lastSize, poolDepth, poolSize := Size(0, 0), 0, Size(0, 0);
      callback := new Delegates.Delegate();
      callbackLog, diagnostics := [], [];
    }

    /** Initialize(Context): ready says the context is non-null and has a device. */
    method Initialize(ready: bool)
      requires Valid()
      modifies this`contextReady
      ensures Valid() && contextReady == ready
    {
      contextReady := ready;
    }

    /** SetCallback(Callback): the delegate is copied. */
    method SetCallback(cb: Delegates.Delegate)
      requires cb.Valid()
      modifies callback
      ensures callback.IsBound() == old(cb.IsBound())
      ensures callback.IsBound() ==> callback.Execute() == old(cb.Execute())
    {
      callback.CopyFrom(cb);
    }

    /** IsCapturing(): a session that is capturing has its item, device, pool and session. */
    function IsCapturing(): (r: bool)
      reads this
      requires Valid()
      ensures r ==> item && device && pool && session
    {
      isCapturing
    }

    /** A holder gives up a reference it owns (texture->Release()). */
    method ReleaseTexture(t: TexId)
      requires Valid() && Foreign(View(), t) >= 1
      modifies this`refs
      ensures Valid() && refs == Release(old(refs), t)
    {
      refs := Release(refs, t);
    }

    /** AcquireLatestFrame(OutTexture): the held frame with one more reference, or S_FALSE. */
    method AcquireLatestFrame(outProvided: bool) returns (hr: HResult, texture: Option<TexId>)
      requires Valid()
      modifies this`refs
      ensures Valid()
      ensures var a := Acquire(old(View()), outProvided);
              hr == a.hr && texture == a.texture && View() == a.store
    {
      if !outProvided {
        return E_INVALIDARG, None;
      }
      texture := None;
      if latest.Some? {
        refs := AddRef(refs, latest.value);
        texture := latest;
        return S_OK, texture;
      }
      return S_FALSE, texture;
    }

    /** OnFrameReceived(Texture): publish under the lock, then run the callback if bound. */
    method OnFrameReceived(t: TexId)
      requires Valid() && Foreign(View(), t) >= 1
      modifies this`latest, this`frameCount, this`refs, this`callbackLog
      ensures Valid()
      ensures View() == Publish(old(View()), t)
      ensures callbackLog == old(callbackLog) + if callback.IsBound() then [(callback.Execute(), t)] else []
    {
      if latest.Some? {
        refs := Release(refs, latest.value);
      }
      latest := Some(t);
      refs := AddRef(refs, t);
      frameCount := frameCount + 1;
      if callback.IsBound() {
        callbackLog := callbackLog + [(callback.Execute(), t)];
      }
    }

    /** WaitForNewFrame(OutTexture, timeoutMs): poll until the counter advances or the
        timeout passes, then return AcquireLatestFrame in either case. polls are the
        loop's successive observations of the clock and of MFrameCount; endedAt is the
        poll at which the loop stopped. */
    method WaitForNewFrame(outProvided: bool, polls: seq<Poll>, timeoutMs: int)
        returns (hr: HResult, texture: Option<TexId>, ghost endedAt: int)
      requires Valid() && ReachesDeadline(polls, timeoutMs)
      modifies this`refs
      ensures Valid()
      ensures !outProvided ==> hr == E_INVALIDARG && texture == None && View() == old(View())
      ensures outProvided && !isCapturing ==> hr == E_FAIL && texture == None && View() == old(View())
      ensures outProvided && isCapturing ==>
                var a := Acquire(old(View()), true);
                && hr == a.hr && texture == a.texture && View() == a.store
                && endedAt == EndIndex(polls, old(frameCount), timeoutMs)
    {
      endedAt := -1;
      if !outProvided {
        return E_INVALIDARG, None, endedAt;
      }
      if !isCapturing {
        return E_FAIL, None, endedAt;
      }
      var start := frameCount;
      var i := 0;
      while !Ends(polls[i], start, timeoutMs)
        invariant 0 <= i < |polls|
        invariant forall j :: 0 <= j < i ==> !Ends(polls[j], start, timeoutMs)
        decreases |polls| - i
      {
        i := i + 1;
      }
      endedAt := i;
      hr, texture := AcquireLatestFrame(true);
    }

    /** StopCapture(): close session and pool, drop item and device, release the held frame. */
    method StopCapture()
      requires Valid()
      modifies this`isCapturing, this`session, this`pool, this`item, this`device, this`latest, this`refs
      ensures Valid()
      ensures View() == Drop(old(View()))
      ensures !isCapturing && !session && !pool && !item && !device
    {
      isCapturing := false;
      session := false;
      pool := false;
      item := false;
      device := false;
      if latest.Some? {
        refs := Release(refs, latest.value);
        latest := None;
      }
    }

    /** SImplementation::CreateCaptureItem(HWnd). */
    method CreateCaptureItem(hwnd: Hwnd, w: WindowFacts) returns (r: Outcome)
      requires Valid() && !item && Consistent(hwnd, w)
      modifies this`item, this`diagnostics
      ensures Valid()
      ensures r == ItemResult(hwnd, w)
      ensures item == ItemCreated(hwnd, w)
      ensures diagnostics == old(diagnostics) + ItemDiagnostics(hwnd, w)
    {
      if hwnd == NullHwnd || !w.isWindow {
        diagnostics := diagnostics + [InvalidHandle];
        return Returned(E_HANDLE);
      }
      if w.iconic {
        diagnostics := diagnostics + [Minimized];
        return Returned(MinimizedError);
      }
      if w.cloaked {
        diagnostics := diagnostics + [Cloaked];
      }
      if !w.visible {
        diagnostics := diagnostics + [NotVisible];
      }
      if !w.hasInterop {
        return Escaped;
      }
      r := Returned(w.createHr);
      if Failed(w.createHr) {
        diagnostics := diagnostics + [CreateForWindowFailed(w.createHr)];
      } else {
        item := true;
      }
    }

    /** StartCapture(WindowHandle). Without a context nothing happens; otherwise the
        previous session is always stopped first, so every later failure leaves the
        capture stopped, and capturing starts only when the whole setup succeeds. */
    method StartCapture(hwnd: Hwnd, w: WindowFacts, o: StartOracle) returns (r: Outcome)
      requires Valid() && Consistent(hwnd, w)
      modifies this`isCapturing, this`session, this`pool, this`item, this`device, this`latest, this`refs
      modifies this`lastSize, this`poolDepth, this`poolSize, this`diagnostics
      ensures Valid()
      ensures !old(contextReady) ==> r == Returned(E_UNEXPECTED) && unchanged(this)
      ensures old(contextReady) ==>
                && r == StartResult(hwnd, w, o)
                && View() == Drop(old(View()))
                && isCapturing == (r == Returned(S_OK))
                && diagnostics == old(diagnostics) + ItemDiagnostics(hwnd, w)
      ensures r == Returned(S_OK) ==> pool && poolDepth == PoolDepth && poolSize == w.itemSize && lastSize == w.itemSize
    {
      if !contextReady {
        return Returned(E_UNEXPECTED);
      }
      StopCapture();
      r := CreateCaptureItem(hwnd, w);
      if r.Escaped? || Failed(r.hr) {
        return;
      }
      var hr := OpenSession(w.itemSize, o);
      r := Returned(hr);
    }

    /** The part of StartCapture after the capture item exists: the Direct3D device, then
        the frame pool of depth 2 at the item's size, the session, and its start, any of
        which may fail. MIsCapturing is set only at the very end. */
    method OpenSession(itemSize: Size, o: StartOracle) returns (hr: HResult)
      requires Valid() && item && !isCapturing && !session && !pool && !device
      modifies this`device, this`lastSize, this`pool, this`poolDepth, this`poolSize, this`session, this`isCapturing
      ensures Valid()
      ensures hr == if Failed(o.deviceHr) then DeviceError else if o.setup != NoThrow then E_FAIL else S_OK
      ensures isCapturing == (hr == S_OK)
      ensures hr == S_OK ==> pool && poolDepth == PoolDepth && poolSize == itemSize && lastSize == itemSize
    {
      if Failed(o.deviceHr) {
        return DeviceError;
      }
      device := true;
      lastSize := itemSize;
      if o.setup == PoolCreateThrows {
        return E_FAIL;
      }
      pool := true;
      poolDepth, poolSize := PoolDepth, lastSize;
      if o.setup == SessionCreateThrows {
        return E_FAIL;
      }
      session := true;
      if o.setup == SessionStartThrows {
        return E_FAIL;
      }
      isCapturing := true;
      hr := S_OK;
    }

    /** SImplementation::OnFrameArrived, run by the frame pool's FrameArrived event. A
        changed content size recreates the pool at the new size before the frame is
        published; the texture gets one reference for the store and no other. */
    method OnFrameArrived(a: Arrival)
      requires Valid() && pool
      modifies this`lastSize, this`poolDepth, this`poolSize, this`latest, this`frameCount, this`refs, this`callbackLog
      ensures Valid()
      ensures a.NoFrame? ==> View() == old(View()) && lastSize == old(lastSize) && callbackLog == old(callbackLog)
      ensures a.Frame? && a.contentSize != old(lastSize) ==>
                lastSize == a.contentSize && poolDepth == PoolDepth && poolSize == a.contentSize
      ensures !(a.Frame? && a.contentSize != old(lastSize)) ==>
                lastSize == old(lastSize) && poolDepth == old(poolDepth) && poolSize == old(poolSize)
      ensures a.Frame? && a.surface.Some? ==>
                && View() == Arrive(old(View()), a.surface.value)
                && callbackLog == old(callbackLog) + if callback.IsBound() then [(callback.Execute(), a.surface.value)] else []
      ensures a.Frame? && a.surface.None? ==> View() == old(View()) && callbackLog == old(callbackLog)
    {
      if a.NoFrame? {
        return;
      }
      if a.contentSize != lastSize {
        lastSize := a.contentSize;
        poolDepth, poolSize := PoolDepth, lastSize;
      }
      if a.surface.None? {
        return;
      }
      var t := a.surface.value;
      refs := AddRef(refs, t);
      OnFrameReceived(t);
      refs := Release(refs, t);
    }
  }
}
