/**
 * The integer geometry of CWindowOverlay (SpyX/Overlay/WindowOverlay.cpp): window
 * rectangles, the clamp of a size to at least one pixel, the change test against
 * the last rectangle seen, and the window and swap-chain calls UpdatePosition makes,
 * as a sequence of effects. The class in window_overlay.dfy logs these effects.
 */
module OverlayGeometry {
  import Delegates

  /** RECT, in screen coordinates. */
  datatype Rect = Rect(left: int, top: int, right: int, bottom: int)

  /** MLastRect's initial value, RECT { 0 }. */
  const ZeroRect := Rect(0, 0, 0, 0)

  function Width(r: Rect): int {
    r.right - r.left
  }

  function Height(r: Rect): int {
    r.bottom - r.top
  }

  /** "if (Width < 1) Width = 1": the least size a window or a swap chain is given. */
  function AtLeastOne(x: int): (r: int)
    ensures r >= 1 && r >= x
    ensures r == x || r == 1
  {
    if x < 1 then 1 else x
  }

  /** PositionChanged: some edge differs from the last rectangle. */
  predicate Moved(r: Rect, last: Rect) {
    r.left != last.left || r.top != last.top || r.right != last.right || r.bottom != last.bottom
  }

  /** The resize test: the clamped new size against the unclamped size of the last
      rectangle. */
  predicate NeedsResize(r: Rect, last: Rect) {
    AtLeastOne(Width(r)) != Width(last) || AtLeastOne(Height(r)) != Height(last)
  }

  /** A window or Direct3D call the overlay makes, in the order it makes them. */
  datatype Effect =
    | CreateOverlayWindow(x: int, y: int, width: int, height: int)   // CreateWindowEx, topmost popup
    | CreateSwapChain(width: int, height: int)                       // CreateSwapChainForHwnd
    | ShowOverlay(shown: bool)                                       // ShowWindow(SW_SHOWNA or SW_HIDE)
    | Place(x: int, y: int, width: int, height: int)                 // SetWindowPos, HWND_TOPMOST, moved and sized
    | KeepTopmost                                                    // SetWindowPos, HWND_TOPMOST, SWP_NOMOVE | SWP_NOSIZE
    | UnbindTargets                                                  // OMSetRenderTargets(0, 0, 0)
    | ResizeBuffers(width: int, height: int)                         // IDXGISwapChain::ResizeBuffers
    | SetViewport(width: int, height: int)                           // RSSetViewports in CreateSizeDependentResources
    | ClearTarget                                                    // ClearRenderTargetView
    | BindPipeline                                                   // OMSetBlendState and OMSetRenderTargets
    | RenderCallback(call: Delegates.Call)                           // MRenderCallback.Execute
    | Present                                                        // IDXGISwapChain::Present
    | PresentOnNullSwapChain                                         // MSwapChain->Present with MSwapChain null: an access violation

  /** Every size the effect carries is at least one pixel. */
  predicate PositiveSize(e: Effect) {
    match e
    case CreateOverlayWindow(_, _, w, h) => w >= 1 && h >= 1
    case CreateSwapChain(w, h) => w >= 1 && h >= 1
    case Place(_, _, w, h) => w >= 1 && h >= 1
    case ResizeBuffers(w, h) => w >= 1 && h >= 1
    case SetViewport(w, h) => w >= 1 && h >= 1
    case _ => true
  }

  /** Every size in the effects is at least one pixel. */
  predicate AllPositive(es: seq<Effect>) {
    forall i :: 0 <= i < |es| ==> PositiveSize(es[i])
  }

  /** What UpdatePosition does for a target at r when MLastRect is last and the swap
      chain exists or not. */
  function PositionEffects(r: Rect, last: Rect, hasSwapChain: bool): (es: seq<Effect>)
    ensures AllPositive(es)
    ensures !Moved(r, last) <==> es == [KeepTopmost]
    ensures |es| >= 1
    ensures Moved(r, last) ==> es[0] == Place(r.left, r.top, AtLeastOne(Width(r)), AtLeastOne(Height(r)))
    ensures ResizeBuffers(AtLeastOne(Width(r)), AtLeastOne(Height(r))) in es <==> Moved(r, last) && NeedsResize(r, last) && hasSwapChain
    ensures KeepTopmost in es ==> !Moved(r, last)
    ensures Present !in es
  {
    if !Moved(r, last) then [KeepTopmost]
    else
      var w, h := AtLeastOne(Width(r)), AtLeastOne(Height(r));
      var es := [Place(r.left, r.top, w, h)]
        + (if NeedsResize(r, last) && hasSwapChain then [UnbindTargets, ResizeBuffers(w, h), SetViewport(w, h)] else []);
      assert es[0] != KeepTopmost;
      es
  }

  /** The rectangle UpdatePosition leaves in MLastRect. */
  function NextLastRect(r: Rect, last: Rect): (next: Rect)
    ensures next == r
  {
    if Moved(r, last) then r else last
  }

  /** A second update at the same rectangle only re-asserts topmost: no move, no resize. */
  lemma {:induction false} SecondUpdateOnlyKeepsTopmost(r: Rect, last: Rect, hasSwapChain: bool)
    ensures PositionEffects(r, NextLastRect(r, last), hasSwapChain) == [KeepTopmost]
  {
    assert !Moved(r, NextLastRect(r, last));
  }

  /** A move that keeps a size of at least one pixel resizes nothing; a target whose
      width or height is below one pixel is resized on every move, even when its size
      stays the same, because the clamped size is compared with the unclamped one. */
  lemma SameSizeResizesOnlyDegenerateTargets(r: Rect, last: Rect)
    requires Width(r) == Width(last) && Height(r) == Height(last)
    ensures NeedsResize(r, last) <==> Width(r) < 1 || Height(r) < 1
  {
  }
}
