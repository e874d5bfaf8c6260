# SpyX capture and overlay core, modelled in Dafny

SpyX is a Windows library with two halves.

- **Capture DLL.** It captures one window through Windows.Graphics.Capture and hands the frames to a caller as CPU byte buffers. A caller is typically a Java program.
- **Overlay.** A topmost layered window follows a target window and draws over it with Direct3D.

This project models the sequential logic under the Win32, WinRT and Direct3D plumbing, and proves what that logic promises.

- **Frame store** (`frame_store.dfy`, `window_capture.dfy`). `CWindowCapture` keeps one ref-counted "latest frame" slot and a monotonic frame counter. `OnFrameReceived` publishes into the slot, and `AcquireLatestFrame` and `WaitForNewFrame` hand frames out. `StartCapture` and `StopCapture` manage the session, and `CreateCaptureItem` validates the window.
  - The store is specified by value-level functions (`Publish`, `Acquire`, `Drop`, `Arrive`). The class's methods are proved to follow them.
  - Lemmas over event sequences state three facts: the reference-count balance, that the counter counts exactly the arrivals, and that the counter never goes down.
  - The polling loop of `WaitForNewFrame` runs over a sequence of (elapsed, counter) observations.
- **Readback and cache** (`readback.dfy`). This covers three pieces of `ProcessCaptureFrame`:
  - its ladder of failure points, with the cache fallback taken at all of them except a staging-texture failure;
  - the copy-in cache `CacheFrame`, whose block only grows;
  - the copy-out `GetCachedFrame`.
- **Capture DLL state and API** (`capture_api.dfy`, `api_errors.dfy`). The file-scope globals of `WindowCaptureAPI.cpp` become the fields of `CaptureSystem`.
  - There is one method per request kind of the capture thread's `switch`, plus the thread's message pump and request loop.
  - There is one method per exported `WC_*` function, each running the "thread not running" guard and then the request synchronously.
  - `WC_CaptureFrameToBuffer` and `WC_GetFrameBufferSize` carry the size negotiation, with its negative "required size" result.
  - The error strings are modelled exactly, including the `0x%08X` rendering of a start-failure HRESULT.
- **Delegate** (`delegate.dfy`). `TDelegate`'s three pointer fields, and its bind, unbind and query operations. Its equality compares only the method pointer. The exact signature is not modelled.
- **Overlay** (`overlay_geometry.dfy`, `window_overlay.dfy`). `CWindowOverlay` covers `BindToWindow`, `UpdatePosition`, `SetOverlayVisibility` and the guards of `Render`.
  - Rectangle change detection, the clamp of sizes to at least one pixel, and the resize decision against `MLastRect` are modelled.
  - Every window and swap-chain call goes into an effect log.

Platform answers are parameters of the operations that consume them ("oracles"). These include `IsWindow`, `GetWindowRect` and `IsIconic`, the HRESULTs of item, device and swap-chain creation, and where WinRT setup throws. They also include the texture description, `RowPitch`, the mapped bytes, the success of `Map` and of each `HeapAlloc`, and the frames delivered by the frame pool.

Cross-thread requests are modelled as synchronous calls. Heap blocks handed to the caller are entries of a `heap` map keyed by address.

## Behaviour as written

The model follows the code in each of these points.

- **Stop and cleanup.** The `StopCapture` and `Cleanup` requests reset the cache's dimensions and size only when a cache block is present. A failed `CacheFrame` allocation leaves the block null, the new size recorded and the previous dimensions in place, and a later stop or cleanup leaves those as they are.
- **Capture after stop.** After `WC_StopCapture`, `ProcessCaptureFrame` fails with "Not capturing" because `IsCapturing()` is false, not with "No frame available".
- **Failed start.** A failed start request leaves `g_IsCapturing` as it was, even though `CWindowCapture::StartCapture` has already stopped the previous session.
- **Remembered buffer size.** `g_CachedBufferSize` is never reset. After it is first set, `WC_GetFrameBufferSize` returns it without capturing, for as long as the thread runs and `g_IsCapturing` is set.
- **Return of `WaitForNewFrame`.** The comment at SpyX/Capture/WindowCapture.h:27 says `WaitForNewFrame` returns a frame count or 0 on timeout. The code returns the HRESULT of `AcquireLatestFrame` in both cases, which may be a stale frame.
- **Dead checks.** The checks in `WC_CaptureFrame`, `WC_CaptureFrameInfo` and `WC_CaptureFrameToBuffer` for "Frame data is null despite success" and "Invalid frame dimensions in response" can never fire. The model states this as an assertion at each of those points.
- **Second bind.** `Render` checks only `MRenderTargetView` before presenting. If a second `BindToWindow` fails at swap-chain creation, the render target view of the first bind is left in place while `MSwapChain` is null, so the next `Render` calls `Present` through a null pointer. The model records this as its own effect, `PresentOnNullSwapChain`.
- **Missing interop factory.** `as<IGraphicsCaptureItemInterop>()` at SpyX/Capture/WindowCapture.cpp:239 throws when the interface is missing, so the `E_NOINTERFACE` return at line 240 never runs. The exception leaves `StartCapture` outside its `try`, and nothing in the capture thread catches it, so `std::terminate` ends the process. The model marks the process as ended and the request as unanswered.
- **Restart after the thread ended.** When the capture thread ends on its own (COM failure or `WM_QUIT`), `g_CaptureThread` is never joined. The next `WC_Initialize` assigns a new `std::thread` over the joinable one at SpyX/Capture/WindowCaptureAPI.cpp:417, which calls `std::terminate`.
- **Stale `WC_IsCapturing`.** After a failed restart `WC_IsCapturing` still returns true, while the window capture has already stopped its session.
- **Frames during a wait.** Frame events are delivered on the capture thread, which is busy in `WaitForNewFrame` during a frame request. The counter cannot advance there, so a frame request always waits the full 50 ms.
- **Initial visibility.** The overlay window is created with `WS_VISIBLE`, whatever `MOverlayVisibility` says. A bind that completes applies the setting with `UpdateVisibility`; a bind that fails after creating the window leaves it shown.

## Model

| member | source | states |
|---|---|---|
| WinTypes.MakeItfError | SpyX/Capture/WindowCapture.cpp:221 | a custom interface HRESULT is a failure whose low 16 bits are the code, and is neither S_OK nor S_FALSE |
| Delegates.Delegate.constructor | SpyX/Core/Delegate.h:16-22 | a default delegate has all three fields null and is unbound |
| Delegates.Delegate.Execute | SpyX/Core/Delegate.h:63-67 | requires IsBound(); calls the free function for a static binding, otherwise the bound member on the bound object, const or not as bound |
| Delegates.Delegate.BindStatic | SpyX/Core/Delegate.h:28-33 | overwrites all three fields whatever was bound; the method pointer becomes null and Execute calls the function |
| Delegates.Delegate.BindRaw | SpyX/Core/Delegate.h:35-41 | overwrites all three fields; Execute calls the non-const member on the object |
| Delegates.Delegate.BindRawConst | SpyX/Core/Delegate.h:43-49 | overwrites all three fields; Execute calls the const member on the object |
| Delegates.Delegate.Unbind | SpyX/Core/Delegate.h:51-56 | all three fields null and unbound again |
| Delegates.Delegate.CopyFrom | SpyX/Core/Delegate.h:16-19 | a copied delegate is bound exactly when the original is, and calls what it calls |
| Delegates.Delegate.IsBound | SpyX/Core/Delegate.h:58-61 | an unbound valid delegate has a null object and a null method pointer |
| Delegates.Delegate.Equals | SpyX/Core/Delegate.h:24-26 | a delegate equals itself, and any two valid delegates that are unbound or bound statically compare equal |
| Delegates.StaticOrUnboundCompareEqual | SpyX/Core/Delegate.h:24-26 | any two delegates that are unbound or bound statically compare equal |
| Delegates.StaticBindingsCompareEqual | SpyX/Core/Delegate.h:24-33 | two static bindings to different functions compare equal although they call different functions |
| FrameStore.AddRef | SpyX/Capture/WindowCapture.cpp:80 | exactly one more reference on that texture, no change on any other |
| FrameStore.Release | SpyX/Capture/WindowCapture.cpp:91 | exactly one reference fewer on that texture, no change on any other |
| FrameStore.ReleaseUndoesAddRef | SpyX/Capture/WindowCapture.cpp:278-281 | a reference taken and then released leaves the counts as they were |
| FrameStore.Publish | SpyX/Capture/WindowCapture.cpp:87-95 | the new texture becomes the latest frame, the counter goes up by exactly one, and nobody else's references change |
| FrameStore.Acquire | SpyX/Capture/WindowCapture.cpp:71-85 | E_INVALIDARG for a null out-pointer; S_FALSE and null without a frame; S_OK with the held frame and exactly one more reference for the caller |
| FrameStore.Drop | SpyX/Capture/WindowCapture.cpp:188-189 | the slot is emptied, its reference released, and the counter kept |
| FrameStore.Arrive | SpyX/Capture/WindowCapture.cpp:277-282 | a delivered texture becomes the latest frame and the counter goes up by one; its net reference change is the store's own one |
| FrameStore.DropIdempotent | SpyX/Capture/WindowCapture.cpp:176-190 | stopping twice is stopping once |
| FrameStore.Replay | SpyX/Capture/WindowCapture.cpp:87-95 | every sequence of arrivals, acquisitions and stops keeps the latest frame alive |
| FrameStore.ReplayCountsArrivals | SpyX/Capture/WindowCapture.cpp:94 | the frame counter grows by exactly the number of arrivals; acquisitions and stops never reset it |
| FrameStore.ReplayCounterMonotone | SpyX/Capture/WindowCapture.cpp:94 | the frame counter never decreases over a run |
| FrameStore.PublicationIncreasesCounter | SpyX/Capture/WindowCapture.cpp:94 | each publication raises the counter by exactly one |
| FrameStore.NoArrivalNoFrame | SpyX/Capture/WindowCapture.cpp:78-84 | before any frame arrives, acquiring gives S_FALSE and a null texture |
| FrameStore.ReplayKeepsForeignWithoutAcquisitions | SpyX/Capture/WindowCapture.cpp:87-95 | without acquisitions, the references held outside the store never change |
| FrameStore.EndIndex | SpyX/Capture/WindowCapture.cpp:113-129 | the wait ends at the first observation that shows the counter advanced or the timeout passed |
| FrameStore.PromptOnAdvance | SpyX/Capture/WindowCapture.cpp:115-117 | the wait ends no later than the first observation of an advanced counter |
| FrameStore.BoundedByDeadline | SpyX/Capture/WindowCapture.cpp:120-125 | the wait ends no later than the first observation at or past the timeout |
| FrameStore.WaitsOutTimeoutWithoutArrival | SpyX/Capture/WindowCapture.cpp:113-129 | if no observation shows the counter advanced, the wait ends only at an observation at or past the timeout |
| Capture.ItemResult | SpyX/Capture/WindowCapture.cpp:193-254 | E_HANDLE for a null or non-window handle, then the minimized code 0x0011, then, for a system without the interop factory, an exception out of as<>() (Escaped), else CreateForWindow's HRESULT; E_NOINTERFACE comes only from CreateForWindow itself |
| Capture.MissingInteropEscapes | SpyX/Capture/WindowCapture.cpp:238-240 | a capturable window on a system without the interop interface makes the start throw, never return |
| Capture.CloakingAndVisibilityOnlyLog | SpyX/Capture/WindowCapture.cpp:224-236 | cloaking and invisibility never change the result of creating a capture item |
| Capture.StartResult | SpyX/Capture/WindowCapture.cpp:136-173 | throws exactly when creating the item throws; S_OK iff the item is created, the device succeeds and the WinRT setup does not throw; a returned non-S_OK code is a failure: the item's HRESULT, the device code 0x0002, or E_FAIL for a caught throw |
| Capture.MinimizedWindowFails | SpyX/Capture/WindowCapture.cpp:218-222 | starting on a minimized window returns the custom code whose low 16 bits are 0x0011 |
| Capture.WindowCapture.constructor | SpyX/Capture/WindowCapture.cpp:48-54 | no frame, counter 0, nothing created, not capturing, callback unbound |
| Capture.WindowCapture.Initialize | SpyX/Capture/WindowCapture.cpp:63 | records whether a context with a device is present |
| Capture.WindowCapture.SetCallback | SpyX/Capture/WindowCapture.cpp:64 | the frame callback is a copy of the given delegate |
| Capture.WindowCapture.IsCapturing | SpyX/Capture/WindowCapture.cpp:66-69 | a capture that reports capturing holds its item, device, frame pool and session |
| Capture.WindowCapture.ReleaseTexture | SpyX/Capture/WindowCaptureAPI.cpp:179 | a holder's release gives up exactly one of its references |
| Capture.WindowCapture.AcquireLatestFrame | SpyX/Capture/WindowCapture.cpp:71-85 | result, texture and new store are those of Acquire |
| Capture.WindowCapture.OnFrameReceived | SpyX/Capture/WindowCapture.cpp:87-101 | the store is published with the texture; the callback is called with it exactly when bound |
| Capture.WindowCapture.WaitForNewFrame | SpyX/Capture/WindowCapture.cpp:103-130 | E_INVALIDARG for a null out-pointer, E_FAIL when not capturing, else AcquireLatestFrame (fresh, stale or none) at the poll EndIndex names |
| Capture.WindowCapture.StopCapture | SpyX/Capture/WindowCapture.cpp:176-190 | not capturing; session, pool, item and device null; the held frame released once and the slot cleared; the counter kept |
| Capture.WindowCapture.CreateCaptureItem | SpyX/Capture/WindowCapture.cpp:193-254 | returns ItemResult, throwing without the interop factory; holds an item exactly when creation returned success; logs the cloaked and invisible cases without failing |
| Capture.WindowCapture.StartCapture | SpyX/Capture/WindowCapture.cpp:132-174 | E_UNEXPECTED without a context and nothing changes; otherwise the prior session is stopped first, the outcome is StartResult (a throw included), and capturing holds exactly on S_OK with a pool of depth 2 at the item's size |
| Capture.WindowCapture.OpenSession | SpyX/Capture/WindowCapture.cpp:141-173 | the device code 0x0002 when the device fails, E_FAIL when the WinRT setup throws, else S_OK; capturing exactly on S_OK, with a pool of depth 2 at the item's size and MLastSize set to it |
| Capture.WindowCapture.OnFrameArrived | SpyX/Capture/WindowCapture.cpp:256-283 | nothing without a frame; a changed content size updates MLastSize and recreates the pool at depth 2; a texture is published as Arrive says and the callback runs if bound |
| ApiErrors.Hex | SpyX/Capture/WindowCaptureAPI.cpp:293 | exactly the requested number of upper-case hexadecimal digits |
| ApiErrors.HexRoundTrip | SpyX/Capture/WindowCaptureAPI.cpp:293 | the digits "%08X" writes read back as the number |
| ApiErrors.StartFailureNamesHResult | SpyX/Capture/WindowCaptureAPI.cpp:292-294 | the start-failure text is the fixed prefix, eight hex digits that read back as the HRESULT, and ")" |
| Readback.WellFormedSizeFitsInt32 | SpyX/Capture/WindowCaptureAPI.cpp:642 | stride times height of a frame read back is positive and fits an int |
| Readback.StoreFrame | SpyX/Capture/WindowCaptureAPI.cpp:75-93 | reallocates only if the block is missing or too small; a present block then starts with exactly the frame's bytes and dimensions; its capacity never shrinks |
| Readback.Lookup | SpyX/Capture/WindowCaptureAPI.cpp:96-112 | a copy is produced iff there is a block, width and height are positive and the allocation succeeds; it is exactly the cached frame |
| Readback.StoreThenLookup | SpyX/Capture/WindowCaptureAPI.cpp:75-112 | after CacheFrame, GetCachedFrame returns exactly the frame stored |
| Readback.StoreReusesLargerBlock | SpyX/Capture/WindowCaptureAPI.cpp:79-85 | a frame that fits is stored without allocating, and the capacity stays |
| Readback.Fetch | SpyX/Capture/WindowCaptureAPI.cpp:115-225 | a fresh frame iff capturing, a texture is held, its dimensions are valid, and staging, map and allocation succeed; only the staging failure skips the fallback |
| Readback.Respond | SpyX/Capture/WindowCaptureAPI.cpp:115-225 | served frames are well formed, and a miss leaves the cache unchanged |
| Readback.Process | SpyX/Capture/WindowCaptureAPI.cpp:115-225 | ProcessCaptureFrame keeps the cache valid and serves only well-formed frames |
| Readback.StagingFailureDoesNotFallBack | SpyX/Capture/WindowCaptureAPI.cpp:170-175 | a staging failure is refused, with the texture's width and height, even when a cached frame exists |
| Readback.OtherFailuresFallBack | SpyX/Capture/WindowCaptureAPI.cpp:118-212 | every other failure serves the cached frame exactly when one is available, and otherwise reports its own error |
| Readback.LadderOrder | SpyX/Capture/WindowCaptureAPI.cpp:118-212 | the error is the first failing rung: not capturing, no frame, bad dimensions, map, allocation |
| Readback.FreshFrameRefreshesCache | SpyX/Capture/WindowCaptureAPI.cpp:195-223 | a fresh frame has the texture's size, stride RowPitch and RowPitch*Height mapped bytes, and the cache then returns exactly it |
| CaptureApi.Truncate | SpyX/Capture/WindowCaptureAPI.cpp:675 | at most 1023 characters, a prefix of the input, and the input itself if it fits |
| CaptureApi.MessagesFitErrorBuffer | SpyX/Capture/WindowCaptureAPI.cpp:673-677 | every error text the DLL records is returned whole |
| CaptureApi.Negotiation | SpyX/Capture/WindowCaptureAPI.cpp:623-665 | positive result iff no error, equal to the frame size and copying it; a small buffer returns minus the size; out-params zero unless copied |
| CaptureApi.Overlay | SpyX/Capture/WindowCaptureAPI.cpp:652 | the buffer starts with the copied bytes and keeps the rest |
| CaptureApi.ResponseOf | SpyX/Capture/WindowCaptureAPI.cpp:321-324 | a response succeeds exactly for a served frame, which it places in the next block with no error; a refusal carries no block and the reply's error |
| CaptureApi.Answer | SpyX/Capture/WindowCaptureAPI.cpp:261-369 | the thread answers every request except a start on an initialized DLL and a real window whose item creation throws; only frame requests carry a block; a successful start means initialized and StartResult S_OK |
| CaptureApi.Next | SpyX/Capture/WindowCaptureAPI.cpp:261-369 | the state after a request keeps the cache valid; only a frame request allocates; stop, cleanup and shutdown end capturing |
| CaptureApi.RequestEffects | SpyX/Capture/WindowCaptureAPI.cpp:261-369 | per kind: Initialize is idempotent and initializes on a device; a start keeps the cache and sets g_IsCapturing only on success, keeping it on failure; stop, cleanup and shutdown succeed, the first two leaving no cache block and shutdown keeping the cache; a frame request answers and caches as Process says and changes neither flag |
| CaptureApi.Settle | SpyX/Capture/WindowCaptureAPI.cpp:243-250 | forgets only whether a frame is held, the one thing a frame arrival changes |
| CaptureApi.TraceExtends | SpyX/Capture/WindowCaptureAPI.cpp:241-377 | a pass answered as Answer says, in the state the previous pass left, extends the record of the loop |
| CaptureApi.CaptureSystem.constructor | SpyX/Capture/WindowCaptureAPI.cpp:40-66 | no thread, not initialized, not capturing, empty cache, no error |
| CaptureApi.CaptureSystem.Capturing | SpyX/Capture/WindowCaptureAPI.cpp:118-119 | a capture that is running holds its item, frame pool and session |
| CaptureApi.CaptureSystem.Holds | SpyX/Capture/WindowCaptureAPI.cpp:130-135 | a held frame implies a running capture |
| CaptureApi.CaptureSystem.Snap | SpyX/Capture/WindowCaptureAPI.cpp:40-66 | a snapshot that holds a frame is initialized and capturing |
| CaptureApi.CaptureSystem.IsCapturing | SpyX/Capture/WindowCaptureAPI.cpp:488-491 | reporting a session implies the thread was started and a window capture with a context exists; it does not imply a running session (see StartCapture) |
| CaptureApi.CaptureSystem.GetLastError | SpyX/Capture/WindowCaptureAPI.cpp:673-677 | a prefix of the last error shorter than the buffer, and all of it if it fits |
| CaptureApi.CaptureSystem.SetError | SpyX/Capture/WindowCaptureAPI.cpp:69-72 | records the text, or "Unknown error" for a null one |
| CaptureApi.CaptureSystem.GetCachedFrame | SpyX/Capture/WindowCaptureAPI.cpp:96-112 | serves Lookup's frame in a new block at the next address, or an empty failure that allocates nothing |
| CaptureApi.CaptureSystem.FallBack | SpyX/Capture/WindowCaptureAPI.cpp:120-125 | serves the cached frame if GetCachedFrame does, else the failure with its error |
| CaptureApi.CaptureSystem.CacheFrame | SpyX/Capture/WindowCaptureAPI.cpp:75-93 | the new cache is StoreFrame of the old |
| CaptureApi.CaptureSystem.ProcessCaptureFrame | SpyX/Capture/WindowCaptureAPI.cpp:115-225 | the response, the new block and the cache are those of Process; the window capture and the DLL flags are unchanged |
| CaptureApi.CaptureSystem.HandleCaptureFrame | SpyX/Capture/WindowCaptureAPI.cpp:321-324 | the frame request answers as Answer says and leaves the state Next says, with the served frame in a new block |
| CaptureApi.CaptureSystem.WaitAndRelease | SpyX/Capture/WindowCaptureAPI.cpp:130-179 | a texture is obtained iff the capture holds a frame, and releasing it leaves the capture as it was |
| CaptureApi.CaptureSystem.ReadStaged | SpyX/Capture/WindowCaptureAPI.cpp:162-224 | the staging, map and allocation rungs answer and cache as Respond says |
| CaptureApi.CaptureSystem.HandleInitialize | SpyX/Capture/WindowCaptureAPI.cpp:262-282 | the response and new state are Answer and Next; succeeds with no change if initialized; a device failure leaves the DLL uninitialized; otherwise a fresh, empty, idle capture |
| CaptureApi.CaptureSystem.HandleStartCapture | SpyX/Capture/WindowCaptureAPI.cpp:284-301 | the response and new state are Answer and Next: "Not initialized", then "Invalid window handle", then the HRESULT; g_IsCapturing set only on success; a throw out of CWindowCapture::StartCapture ends the process with no response; the cache is never touched |
| CaptureApi.CaptureSystem.HandleStopCapture | SpyX/Capture/WindowCaptureAPI.cpp:303-319 | succeeds, g_IsCapturing false, the capture stopped, the block freed with its dimensions zeroed when present; response and state are Answer and Next |
| CaptureApi.CaptureSystem.HandleCleanup | SpyX/Capture/WindowCaptureAPI.cpp:326-350 | as stop, and the capture deleted and the DLL uninitialized; response and state are Answer and Next |
| CaptureApi.CaptureSystem.HandleShutdown | SpyX/Capture/WindowCaptureAPI.cpp:352-368 | uninitialized and the thread stopped, with the cache left as it was; response and state are Answer and Next |
| CaptureApi.CaptureSystem.Dispatch | SpyX/Capture/WindowCaptureAPI.cpp:261-369 | the response is Answer for the state the request finds and the new state is Next (see RequestEffects); a served frame is a new block at the next address; only Shutdown stops the thread, only a throwing start ends the process, and no request changes the last error |
| CaptureApi.CaptureSystem.DispatchFrame | SpyX/Capture/WindowCaptureAPI.cpp:321-324 | as Dispatch for a frame request: always answered, the served frame placed in a new block at the next address, the thread flags and the last error kept |
| CaptureApi.CaptureSystem.DispatchOther | SpyX/Capture/WindowCaptureAPI.cpp:262-368 | as Dispatch for Initialize, StopCapture, Cleanup and Shutdown: always answered, no block allocated, only Shutdown stopping the thread |
| CaptureApi.CaptureSystem.PumpMessages | SpyX/Capture/WindowCaptureAPI.cpp:243-250 | WM_QUIT stops the thread; frames reach only a capture that is capturing, never lower its frame counter and change no request-relevant state but whether a frame is held |
| CaptureApi.CaptureSystem.Run | SpyX/Capture/WindowCaptureAPI.cpp:241-377 | pass k answers its request as Answer says for the state it finds, which is the state the previous pass left up to frame arrivals; the loop ends exactly after the first pass that quits, shuts down or ends the process, and a process end is a request left unanswered |
| CaptureApi.CaptureSystem.Pass | SpyX/Capture/WindowCaptureAPI.cpp:243-259 | one pass: the messages, then the request answered in the state they leave; the thread stops iff it quit or shut down |
| CaptureApi.CaptureSystem.Initialize | SpyX/Capture/WindowCaptureAPI.cpp:411-461 | restarting a thread that ended without a join ends the process (std::terminate); otherwise a failed thread start fails with "Failed to start capture thread", and the result is initialization, with "Failed to initialize D3D11" on device failure |
| CaptureApi.CaptureSystem.Cleanup | SpyX/Capture/WindowCaptureAPI.cpp:463-467 | with the thread, the DLL is uninitialized, not capturing and the cache empty; without it nothing changes |
| CaptureApi.CaptureSystem.StartCapture | SpyX/Capture/WindowCaptureAPI.cpp:469-480 | the error order of the start request recorded as the last error, a throw ending the process; WC_IsCapturing true after success; after a failed restart WC_IsCapturing still reports a session that is stopped |
| CaptureApi.CaptureSystem.StopCapture | SpyX/Capture/WindowCaptureAPI.cpp:482-486 | with the thread, capture stopped and no cache block; without it nothing changes |
| CaptureApi.CaptureSystem.CaptureFrame | SpyX/Capture/WindowCaptureAPI.cpp:493-532 | "Invalid parameters", then "Capture thread not running", then Prospect's answer: the new block and dimensions, or null and the error |
| CaptureApi.CaptureSystem.CaptureFrameInfo | SpyX/Capture/WindowCaptureAPI.cpp:534-579 | the struct is zeroed before anything can fail and filled only with a served frame |
| CaptureApi.CaptureSystem.FillFrameInfo | SpyX/Capture/WindowCaptureAPI.cpp:549-578 | with the thread running, the struct is filled from Prospect's served frame, or left zero with its error |
| CaptureApi.CaptureSystem.FreeBlock | SpyX/Capture/WindowCaptureAPI.cpp:655 | the block is gone and nothing else is freed |
| CaptureApi.CaptureSystem.FreeFrame | SpyX/Capture/WindowCaptureAPI.cpp:667-671 | frees the given block; null is ignored |
| CaptureApi.CaptureSystem.GetFrameBufferSize | SpyX/Capture/WindowCaptureAPI.cpp:584-611 | 0 unless running and capturing; the remembered size if positive; else the served frame's size, remembered, or 0; the probe's block is freed |
| CaptureApi.CaptureSystem.CaptureFrameToBuffer | SpyX/Capture/WindowCaptureAPI.cpp:613-665 | invalid parameters return 0 and touch nothing; otherwise result, out-params, error, remembered size and buffer bytes follow Negotiation; the DLL's block is freed |
| CaptureApi.OverlayNothing | SpyX/Capture/WindowCaptureAPI.cpp:623-648 | a negotiation that copies nothing leaves the caller's buffer as it was |
| CaptureApi.CaptureSystem.Negotiate | SpyX/Capture/WindowCaptureAPI.cpp:623-665 | "Capture thread not running" returns 0 and copies nothing; otherwise the result, out-params, error, remembered size and buffer bytes follow Negotiation of Prospect's answer; no block is left behind |
| CaptureApi.CaptureSystem.Exchange | SpyX/Capture/WindowCaptureAPI.cpp:628-665 | with the thread running, a refusal records its error and returns 0; a served frame is copied or reported too small as Negotiation says; no block is left behind |
| CaptureApi.CaptureSystem.CopyOut | SpyX/Capture/WindowCaptureAPI.cpp:642-664 | a buffer smaller than stride times height gets "Buffer too small" and minus that size; otherwise exactly the frame's bytes are copied to its start and the size is remembered; the block is freed on both paths |
| CaptureApi.CaptureSystem.Shutdown | SpyX/Capture/WindowCaptureAPI.cpp:426-438 | WC_Shutdown, which is StopCaptureThread: the thread is stopped; if it ran, the DLL is uninitialized with the cache kept and the thread joined; a thread that ended on its own stays unjoined |
| OverlayGeometry.AtLeastOne | SpyX/Overlay/WindowOverlay.cpp:57-58 | at least 1, and the size itself when that is already at least 1 |
| OverlayGeometry.PositionEffects | SpyX/Overlay/WindowOverlay.cpp:239-277 | an unchanged rectangle only re-asserts topmost; a changed one is placed first at its clamped size; ResizeBuffers happens iff it moved, the clamped size differs from MLastRect's unclamped size, and a swap chain exists; every size is at least 1 |
| OverlayGeometry.NextLastRect | SpyX/Overlay/WindowOverlay.cpp:271 | after an update, MLastRect is the rectangle just read |
| OverlayGeometry.SecondUpdateOnlyKeepsTopmost | SpyX/Overlay/WindowOverlay.cpp:244-276 | a second update at the same rectangle neither moves nor resizes |
| OverlayGeometry.SameSizeResizesOnlyDegenerateTargets | SpyX/Overlay/WindowOverlay.cpp:257-260 | with the size unchanged, a move resizes exactly when the target is narrower or shorter than one pixel |
| Overlay.AttachEffects | SpyX/Overlay/WindowOverlay.cpp:68-125 | no call when the overlay window or the DXGI device is missing |
| Overlay.AttachEffectsShape | SpyX/Overlay/WindowOverlay.cpp:68-125 | on success the swap chain and the viewport at the clamped size, the visibility, then UpdatePosition against the rectangle read at the start; on failure at most the swap-chain call and no ShowWindow; never a Present; every size at least one pixel |
| Overlay.BindEffects | SpyX/Overlay/WindowOverlay.cpp:37-128 | no call exactly when IsWindow fails |
| Overlay.BindEffectsShape | SpyX/Overlay/WindowOverlay.cpp:37-128 | the overlay window first at the clamped size; on success the swap chain and viewport at that size, the visibility, then UpdatePosition; on failure at most two calls and no ShowWindow; never a Present; every size at least one pixel |
| Overlay.VisibilityEffects | SpyX/Overlay/WindowOverlay.cpp:140-147 | no call iff the visibility is unchanged, else one ShowWindow with the new value |
| Overlay.FrameEffects | SpyX/Overlay/WindowOverlay.cpp:166-177 | clear, bind, then the render callback exactly when bound, then Present, or a call through the null swap chain when none exists |
| Overlay.WindowOverlay.constructor | SpyX/Overlay/WindowOverlay.h:50-63 | nothing created, visibility true, MLastRect zero, callback unbound |
| Overlay.WindowOverlay.Initialize | SpyX/Overlay/WindowOverlay.cpp:20-35 | keeps the context and reports the blend state's creation |
| Overlay.WindowOverlay.UpdateVisibility | SpyX/Overlay/WindowOverlay.cpp:227-237 | one ShowWindow with the current visibility |
| Overlay.WindowOverlay.SetOverlayVisibility | SpyX/Overlay/WindowOverlay.cpp:140-147 | the visibility becomes the value, with a ShowWindow only when it changed |
| Overlay.WindowOverlay.OverlayVisibility | SpyX/Overlay/WindowOverlay.cpp:149-152 | the visibility last asked for |
| Overlay.WindowOverlay.SetRenderCallback | SpyX/Overlay/WindowOverlay.cpp:130-133 | the render callback is a copy of the given delegate |
| Overlay.WindowOverlay.CreateSizeDependentResources | SpyX/Overlay/WindowOverlay.cpp:279-292 | a render target view exists exactly when a back buffer did; the viewport is set |
| Overlay.WindowOverlay.UpdatePosition | SpyX/Overlay/WindowOverlay.cpp:239-277 | the calls are PositionEffects, MLastRect becomes the rectangle, and the render target is recreated only on a resize |
| Overlay.WindowOverlay.Update | SpyX/Overlay/WindowOverlay.cpp:154-157 | as UpdatePosition |
| Overlay.WindowOverlay.BindToWindow | SpyX/Overlay/WindowOverlay.cpp:37-128 | the target is recorded even when IsWindow fails; true iff every creation step succeeds; the calls are BindEffects; MLastRect changes only on success |
| Overlay.WindowOverlay.AttachSwapChain | SpyX/Overlay/WindowOverlay.cpp:68-127 | false when the window was not created, the DXGI device is missing or the swap chain fails; the swap chain is recorded only once it was attempted; the calls are AttachEffects |
| Overlay.WindowOverlay.CompleteBind | SpyX/Overlay/WindowOverlay.cpp:120-125 | the viewport, the visibility and the first UpdatePosition against the rectangle read at the start; MLastRect becomes the rectangle read in that update |
| Overlay.WindowOverlay.Render | SpyX/Overlay/WindowOverlay.cpp:159-178 | nothing without a render target view or while not shown; otherwise FrameEffects with the callback if bound, ending in Present, or in a null dereference without a swap chain |
| Overlay.RenderAfterFailedRebind | SpyX/Overlay/WindowOverlay.cpp:101-177 | a rebind that fails at swap-chain creation keeps the old render target, and the next Render calls Present through the null swap chain |
| Overlay.BindThenFollowStill | SpyX/Overlay/WindowOverlay.cpp:120-125 | a successful bind to a still window, followed by an update, ends by only re-asserting topmost |

## Left out

- Threading. The condition-variable handoff of `SendRequest`, its timeouts and the "Request timed out" error are not modelled, and neither is the 100 ms wait and race in `StartCaptureThread`. Each request runs synchronously after the "Capture thread not running" guard. Whether `g_CaptureThread` is joinable is a flag, and `std::terminate` is a `terminated` flag. The API methods do not refuse to run once it is set, and what they compute afterwards describes nothing real.
- COM initialization of the capture thread. It is one oracle answer in `CaptureSystem.Initialize`, and `RPC_E_CHANGED_MODE` counts as success there.
- Foreign calls. WinRT, COM, DXGI and Direct3D object creation is reduced to success flags and HRESULTs. So are `CopyResource`, `Unmap` and the releases of Direct3D objects other than the captured texture. `D3D11Context` is not part of this model.
- Frame pool. `Close()` throwing inside `StopCapture` is not modelled: its `catch` discards the exception and the code after it runs regardless. The `IsBorderRequired` call is not modelled either.
- Window diagnostics. The style and rectangle logging of `CreateCaptureItem` is not modelled. The other diagnostics are an abstract log.
- Wall-clock time. `Sleep(1)` is replaced by a sequence of clock and counter observations that ends past the deadline.
- Capture.WindowCapture.WaitForNewFrame: requires that the observations eventually reach the timeout, because the clock always advances.
- `GetFrameCount` and the destructors. They add no logic beyond `StopCapture`.
- Readback.Sound: assumes, as a platform fact, that a mapped row pitch covers 4 bytes per pixel, is at most 0x10000, and that RowPitch*Height bytes are readable. This keeps `stride * height` within an int. The 32-bit wrap-around of those products is therefore not modelled.
- Contents of fresh heap blocks. The bytes after the frame in a freshly allocated cache block are indeterminate. The model lets the block be exactly the frame.
- The `free()` of a `HeapAlloc` block on the dead "Invalid frame dimensions in response" path is modelled only as the block being released.
- CaptureApi.CaptureSystem.CaptureFrame: requires the three out-pointers to be distinct. Aliased out-parameters are not modelled.
- CaptureApi.CaptureSystem.CaptureFrameToBuffer: requires the three out-pointers to be distinct and the buffer to hold bufferSize bytes. What the caller promises is not checked by the DLL.
- Overlay window procedure. `WindowProcedure`, `SetWindowProcedureCallback`, `SetContentProtection`, `IsValid`, `GetHandle` and `GetTargetWindow` are not modelled: they are message plumbing and trivial queries.
- Overlay draw parameters. The blend state, clear colour and float viewport are not modelled, nor are the layered-window, DWM-frame and swap-chain descriptions. The `MessageBox` on a swap-chain failure is not modelled.
- OverlayGeometry.Width: the width and height of a rectangle are unbounded integers. The 32-bit overflow of `right - left` for rectangles spanning more than 2^31 pixels is not modelled.
- `GetWindowRect` failing and leaving `Rect` uninitialized is not modelled. The rectangle is always an oracle answer.
- Context files. The bridge to the UI library (SpyX/Bridge), the D3D11 context and the two viewer programs are not part of this model.
