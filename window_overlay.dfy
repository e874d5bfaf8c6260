/**
 * CWindowOverlay (SpyX/Overlay/WindowOverlay.h, WindowOverlay.cpp): a topmost layered
 * popup window that follows a target window and presents a swap chain drawn by a
 * render callback. The window system and Direct3D are not modelled; their answers
 * (IsWindow, GetWindowRect, whether a creation call succeeded) come in as parameters,
 * and every call the overlay makes is appended to an effect log.
 */
module Overlay {
  import opened WinTypes
  import opened OverlayGeometry
  import Delegates

  /** The platform's answers during one BindToWindow. */
  datatype BindOracle = BindOracle(
    isWindow: bool,         // IsWindow(TargetWindow)
    rect: Rect,             // GetWindowRect(TargetWindow) at the start
    window: Hwnd,           // CreateWindowEx's result, NullHwnd on failure
    dxgiOk: bool,           // QueryInterface(IDXGIDevice) succeeded
    swapOk: bool,           // CreateSwapChainForHwnd succeeded
    backBufferOk: bool,     // GetBuffer gave a back buffer and a render target view was made
    rectAtUpdate: Rect,     // GetWindowRect in the closing UpdatePosition
    resizeBackBufferOk: bool) // the same, should that UpdatePosition resize the swap chain

  /** BindToWindow returns true exactly when every creation step succeeded. */
  predicate BindSucceeds(o: BindOracle) {
    o.isWindow && o.window != NullHwnd && o.dxgiOk && o.swapOk
  }

  /** The calls BindToWindow makes once the overlay window exists: the swap chain and
      its resources at the clamped size of the target, the visibility, and the
      closing UpdatePosition. AttachEffectsShape states what they are. */
  function AttachEffects(o: BindOracle, visible: bool): (es: seq<Effect>)
    ensures es == [] <==> o.window == NullHwnd || !o.dxgiOk
  {
    if o.window == NullHwnd || !o.dxgiOk then []
    else
      [CreateSwapChain(AtLeastOne(Width(o.rect)), AtLeastOne(Height(o.rect)))]
        + if !o.swapOk then [] else CompletionEffects(o, visible)
  }

  /** The calls after the swap chain was created: the viewport at the clamped size of
      the target, the visibility, and the closing UpdatePosition. */
  function CompletionEffects(o: BindOracle, visible: bool): seq<Effect> {
    [SetViewport(AtLeastOne(Width(o.rect)), AtLeastOne(Height(o.rect))), ShowOverlay(visible)]
      + PositionEffects(o.rectAtUpdate, o.rect, true)
  }

  lemma AttachEffectsShape(o: BindOracle, visible: bool)
    requires o.isWindow
    ensures AllPositive(AttachEffects(o, visible))
    ensures BindSucceeds(o) ==>
              var es := AttachEffects(o, visible);
              && |es| > 3
              && es[0] == CreateSwapChain(AtLeastOne(Width(o.rect)), AtLeastOne(Height(o.rect)))
              && es[1] == SetViewport(AtLeastOne(Width(o.rect)), AtLeastOne(Height(o.rect)))
              && es[2] == ShowOverlay(visible)
              && es[3..] == PositionEffects(o.rectAtUpdate, o.rect, true)
    ensures !BindSucceeds(o) ==> |AttachEffects(o, visible)| <= 1 && ShowOverlay(visible) !in AttachEffects(o, visible)
    ensures Present !in AttachEffects(o, visible)
  {
    var es := AttachEffects(o, visible);
    if BindSucceeds(o) {
      var c := CompletionEffects(o, visible);
      assert c[2..] == PositionEffects(o.rectAtUpdate, o.rect, true);
      assert es[1..] == c;
      assert es[3..] == c[2..];
    }
  }

  /** The calls BindToWindow makes, given the platform's answers and MOverlayVisibility:
      nothing without a window, else the overlay window and then AttachEffects.
      BindEffectsShape states what they are. */
  function BindEffects(o: BindOracle, visible: bool): (es: seq<Effect>)
    ensures es == [] <==> !o.isWindow
  {
    if !o.isWindow then []
    else [CreateOverlayWindow(o.rect.left, o.rect.top, AtLeastOne(Width(o.rect)), AtLeastOne(Height(o.rect)))] + AttachEffects(o, visible)
  }

  lemma BindEffectsShape(o: BindOracle, visible: bool)
    ensures AllPositive(BindEffects(o, visible))
    ensures o.isWindow ==> BindEffects(o, visible)[0] == CreateOverlayWindow(o.rect.left, o.rect.top, AtLeastOne(Width(o.rect)), AtLeastOne(Height(o.rect)))
    ensures BindSucceeds(o) ==>
              var es := BindEffects(o, visible);
              && |es| > 4
              && es[1] == CreateSwapChain(AtLeastOne(Width(o.rect)), AtLeastOne(Height(o.rect)))
              && es[2] == SetViewport(AtLeastOne(Width(o.rect)), AtLeastOne(Height(o.rect)))
              && es[3] == ShowOverlay(visible)
              && es[4..] == PositionEffects(o.rectAtUpdate, o.rect, true)
    ensures !BindSucceeds(o) ==> |BindEffects(o, visible)| <= 2 && ShowOverlay(visible) !in BindEffects(o, visible)
    ensures Present !in BindEffects(o, visible)
  {
    if o.isWindow {
      AttachEffectsShape(o, visible);
      var es, rest := BindEffects(o, visible), AttachEffects(o, visible);
      assert es[1..] == rest;
      if BindSucceeds(o) {
        assert es[4..] == rest[3..];
      }
    }
  }

  /** The calls SetOverlayVisibility makes: none when the value is unchanged. */
  function VisibilityEffects(requested: bool, current: bool): (es: seq<Effect>)
    ensures es == [] <==> requested == current
    ensures es != [] ==> es == [ShowOverlay(requested)]
  {
    if requested == current then [] else [ShowOverlay(requested)]
  }

  /** The calls of one drawn frame; callback is what the render delegate calls, if bound.
      The frame ends by presenting through MSwapChain, which dereferences a null pointer
      when there is no swap chain. */
  function FrameEffects(callback: Option<Delegates.Call>, hasSwapChain: bool): (es: seq<Effect>)
    ensures |es| >= 3 && es[0] == ClearTarget && es[1] == BindPipeline
    ensures es[|es| - 1] == if hasSwapChain then Present else PresentOnNullSwapChain
    ensures (exists c :: RenderCallback(c) in es) <==> callback.Some?
    ensures callback.Some? ==> es[2] == RenderCallback(callback.value)
  {
    var last := if hasSwapChain then Present else PresentOnNullSwapChain;
    match callback
    case None => [ClearTarget, BindPipeline, last]
    case Some(c) => [ClearTarget, BindPipeline, RenderCallback(c), last]
  }

  /** Appending two logs one after the other appends their concatenation. */
  lemma AppendTwice(log: seq<Effect>, first: seq<Effect>, second: seq<Effect>)
    ensures log + first + second == log + (first + second)
  {
  }

  class WindowOverlay {
    var contextSet: bool           // MContext != nullptr
    var overlayWindow: Hwnd        // MOverlayWindow
    var target: Hwnd               // MTargetWindow
    var hasSwapChain: bool         // MSwapChain != nullptr
    var hasRenderTarget: bool      // MRenderTargetView != nullptr
    var hasBlendState: bool        // MBlendState != nullptr
    var visible: bool              // MOverlayVisibility
    const renderCallback: Delegates.Delegate   // MRenderCallback
    var lastRect: Rect             // MLastRect
    var effects: seq<Effect>       // the window and Direct3D calls made so far

    ghost predicate Valid()
      reads this, renderCallback
    {
      renderCallback.Valid()
    }

    /** The default member initialisers: nothing created, visibility on, MLastRect zero. */
    constructor ()
      ensures Valid() && fresh(renderCallback) && !renderCallback.IsBound()
      ensures !contextSet && overlayWindow == NullHwnd && target == NullHwnd
      ensures !hasSwapChain && !hasRenderTarget && !hasBlendState
      ensures visible && lastRect == ZeroRect && effects == []
    {
      contextSet, overlayWindow, target := false, NullHwnd, NullHwnd;
      hasSwapChain, hasRenderTarget, hasBlendState := false, false, false;
      visible, lastRect, effects := true, ZeroRect, [];
      renderCallback := new Delegates.Delegate();
    }

    /** Initialize(Context): keeps the context and reports whether the blend state was made. */
    method Initialize(blendOk: bool) returns (ok: bool)
      modifies this`contextSet, this`hasBlendState
      ensures contextSet && hasBlendState == blendOk && ok == blendOk
    {
      contextSet := true;
      hasBlendState := blendOk;
      ok := blendOk;
    }

    /** GetOverlayVisibility: the visibility last asked for, which is not necessarily
        what the overlay window shows (a bind creates the window visible). */
    function OverlayVisibility(): (v: bool)
      reads this
      ensures v == visible
    {
      visible
    }

    /** UpdateVisiblity: shows the overlay without activating it, or hides it. */
    method UpdateVisibility()
      modifies this`effects
      ensures effects == old(effects) + [ShowOverlay(visible)]
    {
      effects := effects + [ShowOverlay(visible)];
    }

    /** SetOverlayVisibility: an early return when the value is unchanged. */
    method SetOverlayVisibility(requested: bool)
      modifies this`visible, this`effects
      ensures OverlayVisibility() == requested
      ensures effects == old(effects) + VisibilityEffects(requested, old(visible))
    {
      if requested == visible {
        return;
      }
      visible := requested;
      UpdateVisibility();
    }

    /** SetRenderCallback: the delegate is copied in by value. */
    method SetRenderCallback(callback: Delegates.Delegate)
      requires Valid() && callback.Valid()
      modifies renderCallback
      ensures Valid()
      ensures renderCallback.IsBound() == old(callback.IsBound())
      ensures renderCallback.IsBound() ==> renderCallback.Execute() == old(callback.Execute())
    {
      renderCallback.CopyFrom(callback);
    }

    /** CreateSizeDependentResources: drops the render target view, makes a new one when a
        back buffer is available, and sets the viewport. */
    method CreateSizeDependentResources(width: int, height: int, backBufferOk: bool)
      requires hasSwapChain
      modifies this`hasRenderTarget, this`effects
      ensures hasRenderTarget == backBufferOk
      ensures effects == old(effects) + [SetViewport(width, height)]
    {
      hasRenderTarget := false;
      if backBufferOk {
        hasRenderTarget := true;
      }
      effects := effects + [SetViewport(width, height)];
    }

    /** UpdatePosition, with GetWindowRect(MTargetWindow) giving r. */
    method UpdatePosition(r: Rect, backBufferOk: bool)
      modifies this`lastRect, this`hasRenderTarget, this`effects
      ensures effects == old(effects) + PositionEffects(r, old(lastRect), hasSwapChain)
      ensures lastRect == NextLastRect(r, old(lastRect))
      ensures hasRenderTarget == if Moved(r, old(lastRect)) && NeedsResize(r, old(lastRect)) && hasSwapChain
                                 then backBufferOk else old(hasRenderTarget)
    {
      if Moved(r, lastRect) {
        var w, h := AtLeastOne(Width(r)), AtLeastOne(Height(r));
        effects := effects + [Place(r.left, r.top, w, h)];
        var oldWidth, oldHeight := Width(lastRect), Height(lastRect);
        if w != oldWidth || h != oldHeight {
          if hasSwapChain {
            effects := effects + [UnbindTargets];
            hasRenderTarget := false;
            effects := effects + [ResizeBuffers(w, h)];
            CreateSizeDependentResources(w, h, backBufferOk);
          }
        }
        lastRect := r;
      } else {
        effects := effects + [KeepTopmost];
      }
    }

    /** Update: follows the target window. */
    method Update(r: Rect, backBufferOk: bool)
      modifies this`lastRect, this`hasRenderTarget, this`effects
      ensures effects == old(effects) + PositionEffects(r, old(lastRect), hasSwapChain)
      ensures lastRect == r
      ensures hasRenderTarget == if Moved(r, old(lastRect)) && NeedsResize(r, old(lastRect)) && hasSwapChain
                                 then backBufferOk else old(hasRenderTarget)
    {
      UpdatePosition(r, backBufferOk);
    }

    /** BindToWindow: records the target first, then creates the overlay window and its
        swap chain, giving up at the first step that fails. */
    method BindToWindow(targetWindow: Hwnd, o: BindOracle) returns (ok: bool)
      requires targetWindow == NullHwnd ==> !o.isWindow
      modifies this`target, this`overlayWindow, this`hasSwapChain, this`hasRenderTarget, this`lastRect, this`effects
      ensures target == targetWindow
      ensures ok == BindSucceeds(o)
      ensures effects == old(effects) + BindEffects(o, visible)
      ensures overlayWindow == if o.isWindow then o.window else old(overlayWindow)
      ensures hasSwapChain == if o.isWindow && o.window != NullHwnd && o.dxgiOk then o.swapOk else old(hasSwapChain)
      ensures ok ==> lastRect == o.rectAtUpdate
      ensures !ok ==> lastRect == old(lastRect) && hasRenderTarget == old(hasRenderTarget)
      ensures ok ==> hasRenderTarget == if Moved(o.rectAtUpdate, o.rect) && NeedsResize(o.rectAtUpdate, o.rect)
                                        then o.resizeBackBufferOk else o.backBufferOk
    {
      target := targetWindow;
      if !o.isWindow {
        return false;
      }
      var window := CreateOverlayWindow(o.rect.left, o.rect.top, AtLeastOne(Width(o.rect)), AtLeastOne(Height(o.rect)));
      overlayWindow := o.window;
      effects := effects + [window];
      ok := AttachSwapChain(o);
      AppendTwice(old(effects), [window], AttachEffects(o, visible));
    }

    /** The part of BindToWindow after CreateWindowEx: gives up when the window was not
        created, when the DXGI device is unavailable, or when the swap chain fails. */
    method AttachSwapChain(o: BindOracle) returns (ok: bool)
      requires o.isWindow && overlayWindow == o.window
      modifies this`hasSwapChain, this`hasRenderTarget, this`lastRect, this`effects
      ensures ok == BindSucceeds(o)
      ensures effects == old(effects) + AttachEffects(o, visible)
      ensures hasSwapChain == if o.window != NullHwnd && o.dxgiOk then o.swapOk else old(hasSwapChain)
      ensures ok ==> lastRect == o.rectAtUpdate
      ensures !ok ==> lastRect == old(lastRect) && hasRenderTarget == old(hasRenderTarget)
      ensures ok ==> hasRenderTarget == if Moved(o.rectAtUpdate, o.rect) && NeedsResize(o.rectAtUpdate, o.rect)
                                        then o.resizeBackBufferOk else o.backBufferOk
    {
      if overlayWindow == NullHwnd || !o.dxgiOk {
        return false;
      }
      var created := CreateSwapChain(AtLeastOne(Width(o.rect)), AtLeastOne(Height(o.rect)));
      effects := effects + [created];
      hasSwapChain := o.swapOk;
      if !o.swapOk {
        return false;
      }
      CompleteBind(o);
      AppendTwice(old(effects), [created], CompletionEffects(o, visible));
      ok := true;
    }

    /** The end of a BindToWindow whose swap chain exists: the size-dependent resources,
        MLastRect, the visibility, and a first UpdatePosition. */
    method CompleteBind(o: BindOracle)
      requires hasSwapChain
      modifies this`hasRenderTarget, this`lastRect, this`effects
      ensures effects == old(effects) + CompletionEffects(o, visible)
      ensures lastRect == o.rectAtUpdate
      ensures hasRenderTarget == if Moved(o.rectAtUpdate, o.rect) && NeedsResize(o.rectAtUpdate, o.rect)
                                 then o.resizeBackBufferOk else o.backBufferOk
    {
      CreateSizeDependentResources(AtLeastOne(Width(o.rect)), AtLeastOne(Height(o.rect)), o.backBufferOk);
      lastRect := o.rect;
      UpdateVisibility();
      UpdatePosition(o.rectAtUpdate, o.resizeBackBufferOk);
    }

    /** Render, with IsWindowVisible(MOverlayWindow) giving shownOnScreen: nothing without
        a render target view or while the overlay is not shown; otherwise clear, bind,
        call the render delegate if it is bound, and present, through a null swap chain
        when a later bind failed to create one. */
    method Render(shownOnScreen: bool)
      requires Valid()
      modifies this`effects
      ensures effects == old(effects) + if hasRenderTarget && shownOnScreen
                                        then FrameEffects(if renderCallback.IsBound() then Some(renderCallback.Execute()) else None,
                                                          hasSwapChain)
                                        else []
    {
      if !hasRenderTarget {
        return;
      }
      if !shownOnScreen {
        return;
      }
      effects := effects + [ClearTarget, BindPipeline];
      if renderCallback.IsBound() {
        effects := effects + [RenderCallback(renderCallback.Execute())];
      }
      if hasSwapChain {
        effects := effects + [Present];
      } else {
        effects := effects + [PresentOnNullSwapChain];
      }
    }
  }

  /** A fresh overlay bound to a window whose rectangle did not change during the bind
      ends the bind by re-asserting topmost only, and a later update at the same
      rectangle again only re-asserts topmost. */
  method BindThenFollowStill(targetWindow: Hwnd, o: BindOracle) returns (overlay: WindowOverlay, ok: bool)
    requires targetWindow == NullHwnd ==> !o.isWindow
    requires o.rectAtUpdate == o.rect
    ensures ok == BindSucceeds(o)
    ensures ok ==> |overlay.effects| > 0 && overlay.effects[|overlay.effects| - 1] == KeepTopmost
    ensures ok ==> overlay.lastRect == o.rect
  {
    overlay := new WindowOverlay();
    ok := overlay.BindToWindow(targetWindow, o);
    if ok {
      BindEffectsShape(o, true);
      overlay.Update(o.rect, false);
      SecondUpdateOnlyKeepsTopmost(o.rect, o.rect, true);
    }
  }

  /** A second bind whose swap chain cannot be created leaves the render target view of
      the first in place, so the next frame shown on screen presents through a null
      swap chain. */
  method RenderAfterFailedRebind(overlay: WindowOverlay, targetWindow: Hwnd, o: BindOracle)
    requires overlay.Valid() && overlay.hasRenderTarget
    requires targetWindow != NullHwnd && o.isWindow && o.window != NullHwnd && o.dxgiOk && !o.swapOk
    modifies overlay`target, overlay`overlayWindow, overlay`hasSwapChain, overlay`hasRenderTarget
    modifies overlay`lastRect, overlay`effects
    ensures !overlay.hasSwapChain && overlay.hasRenderTarget
    ensures |overlay.effects| > 0 && overlay.effects[|overlay.effects| - 1] == PresentOnNullSwapChain
  {
    var ok := overlay.BindToWindow(targetWindow, o);
    overlay.Render(true);
  }
}
