/**
 * The CPU readback of a captured frame and the last-frame cache of the capture DLL
 * (SpyX/Capture/WindowCaptureAPI.cpp), as values: the decision ladder of
 * ProcessCaptureFrame, the copy-in of CacheFrame and the copy-out of GetCachedFrame.
 * The request handler of module CaptureApi is specified by these functions.
 */
module Readback {
  import opened WinTypes
  import opened ApiErrors

  /** The largest texture width or height ProcessCaptureFrame accepts. */
  const MaxTextureDimension: int := 8192

  /** The largest row pitch the platform reports for a mapped B8G8R8A8 staging
      texture of at most MaxTextureDimension pixels per row. */
  const MaxRowPitch: int := 0x1_0000

  predicate ValidDimensions(width: int, height: int) {
    0 < width <= MaxTextureDimension && 0 < height <= MaxTextureDimension
  }

  /** Rows of BGRA pixels, stride bytes apart. */
  datatype Frame = Frame(pixels: seq<Byte>, width: int, height: int, stride: int)

  /** A frame as a successful readback produces it: accepted dimensions, a row pitch
      that holds a row of 4-byte pixels, and exactly stride * height bytes. */
  predicate WellFormed(f: Frame) {
    && ValidDimensions(f.width, f.height)
    && 4 * f.width <= f.stride <= MaxRowPitch
    && |f.pixels| == f.stride * f.height
  }

  /** The byte count of a well-formed frame fits a 32-bit int, so the int products
      stride * height in WC_GetFrameBufferSize and WC_CaptureFrameToBuffer do not wrap. */
  lemma WellFormedSizeFitsInt32(f: Frame)
    requires WellFormed(f)
    ensures 0 < f.stride * f.height <= 0x2000_0000 < 0x8000_0000
  {
    assert f.stride * f.height <= MaxRowPitch * f.height by {
      MultiplyMonotone(f.stride, MaxRowPitch, f.height);
    }
    assert MaxRowPitch * f.height <= MaxRowPitch * MaxTextureDimension by {
      MultiplyMonotone(f.height, MaxTextureDimension, MaxRowPitch);
    }
    assert f.stride * f.height > 0 by {
      MultiplyMonotone(1, f.stride, f.height);
    }
  }

  lemma MultiplyMonotone(a: int, b: int, c: int)
    requires a <= b && 0 <= c
    ensures a * c <= b * c && c * a <= c * b
  {
  }

  /** g_LastFrameData, g_LastFrameWidth, g_LastFrameHeight, g_LastFrameStride and
      g_LastFrameSize. data is None when g_LastFrameData is null; otherwise it is the
      whole heap block, of size bytes. */
  datatype FrameCache = FrameCache(data: Option<seq<Byte>>, width: int, height: int, stride: int, size: nat)

  const EmptyCache := FrameCache(None, 0, 0, 0, 0)

  /** The frame the cache holds: the first stride * height bytes of the block. */
  function Cached(c: FrameCache): (f: Frame)
    requires CacheValid(c) && c.data.Some?
    ensures WellFormed(f)
  {
    Frame(c.data.value[..c.stride * c.height], c.width, c.height, c.stride)
  }

  /** What every cache operation keeps: a present block is exactly size bytes and
      starts with a well-formed frame of the recorded dimensions. */
  ghost predicate CacheValid(c: FrameCache) {
    c.data.Some? ==>
      && |c.data.value| == c.size
      && 0 <= c.stride * c.height <= c.size
      && WellFormed(Frame(c.data.value[..c.stride * c.height], c.width, c.height, c.stride))
  }

  /** CacheFrame(data, width, height, stride): the block is reallocated only when it is
      missing or smaller than the frame, then the frame's bytes are copied to its
      start. allocOk is the platform's answer to that HeapAlloc; a failed allocation
      leaves the block null, the size recorded and the old dimensions in place. */
  function StoreFrame(c: FrameCache, f: Frame, allocOk: bool): (r: FrameCache)
    requires CacheValid(c) && WellFormed(f)
    ensures CacheValid(r)
    ensures r.data.Some? ==> Cached(r) == f
    ensures r.data.Some? <==> (c.data.Some? && |f.pixels| <= c.size) || allocOk
    ensures c.data.Some? ==> r.size >= c.size
    ensures r.size >= |f.pixels|
  {
    var n := |f.pixels|;
    if c.data.None? || c.size < n then
      if allocOk then FrameCache(Some(f.pixels), f.width, f.height, f.stride, n)
      else c.(data := None, size := n)
    else
      assert (f.pixels + c.data.value[n..])[..n] == f.pixels;
      FrameCache(Some(f.pixels + c.data.value[n..]), f.width, f.height, f.stride, c.size)
  }

  /** GetCachedFrame(): a copy of the cached frame into a new block, when there is a
      block, both dimensions are positive and that HeapAlloc (copyOk) succeeds. */
  function Lookup(c: FrameCache, copyOk: bool): (r: Option<Frame>)
    requires CacheValid(c)
    ensures r.Some? <==> c.data.Some? && c.width > 0 && c.height > 0 && copyOk
    ensures r.Some? ==> r.value == Cached(c) && WellFormed(r.value)
  {
    if c.data.Some? && c.width > 0 && c.height > 0 && copyOk then Some(Cached(c)) else None
  }

  /** Copy-in, copy-out: whenever CacheFrame leaves a block, GetCachedFrame hands back
      exactly the frame stored, bytes and dimensions. */
  lemma StoreThenLookup(c: FrameCache, f: Frame, allocOk: bool)
    requires CacheValid(c) && WellFormed(f)
    requires StoreFrame(c, f, allocOk).data.Some?
    ensures Lookup(StoreFrame(c, f, allocOk), true) == Some(f)
  {
  }

  /** A block large enough is reused: storing a frame that fits allocates nothing and
      keeps the capacity. */
  lemma StoreReusesLargerBlock(c: FrameCache, f: Frame, allocOk: bool)
    requires CacheValid(c) && WellFormed(f)
    requires c.data.Some? && |f.pixels| <= c.size
    ensures StoreFrame(c, f, allocOk) == StoreFrame(c, f, !allocOk)
    ensures StoreFrame(c, f, allocOk).size == c.size
  {
  }

  /** The platform's answers during one ProcessCaptureFrame after a texture is held:
      its description, the staging texture, the Map call, the mapped rows and the
      HeapAlloc of the response block. */
  datatype Readout = Readout(
    texWidth: int, texHeight: int,
    stagingOk: bool,
    mapOk: bool, rowPitch: int, mapped: seq<Byte>,
    bufferOk: bool)

  /** What the platform guarantees of a mapped texture of accepted size: a row pitch
      that covers a row of pixels and no more than MaxRowPitch, and RowPitch * Height
      readable bytes. */
  predicate Sound(rb: Readout) {
    ValidDimensions(rb.texWidth, rb.texHeight) ==>
      && 4 * rb.texWidth <= rb.rowPitch <= MaxRowPitch
      && rb.rowPitch * rb.texHeight <= |rb.mapped|
  }

  /** Where the ladder of ProcessCaptureFrame ends: a fresh frame, or a miss with the
      error and the response fields set so far, and whether that miss tries the cache. */
  datatype Fetched =
    | Got(frame: Frame)
    | Miss(error: ApiError, width: int, height: int, stride: int, fallback: bool)

  /** The ladder. capturing: initialized, a CWindowCapture exists and it reports
      capturing; held: WaitForNewFrame succeeded with a texture. */
  function Fetch(capturing: bool, held: bool, rb: Readout): (r: Fetched)
    requires Sound(rb)
    ensures r.Got? ==> WellFormed(r.frame)
    ensures r.Got? <==> capturing && held && ValidDimensions(rb.texWidth, rb.texHeight)
                        && rb.stagingOk && rb.mapOk && rb.bufferOk
    ensures r.Miss? ==> (r.fallback <==> r.error != StagingFailed)
  {
    if !capturing then Miss(NotCapturing, 0, 0, 0, true)
    else if !held then Miss(NoFrameAvailable, 0, 0, 0, true)
    else if !ValidDimensions(rb.texWidth, rb.texHeight) then Miss(InvalidTextureDimensions, 0, 0, 0, true)
    else if !rb.stagingOk then Miss(StagingFailed, rb.texWidth, rb.texHeight, 0, false)
    else if !rb.mapOk then Miss(MapFailed, rb.texWidth, rb.texHeight, 0, true)
    else if !rb.bufferOk then Miss(AllocFailed, rb.texWidth, rb.texHeight, rb.rowPitch, true)
    else Got(Frame(rb.mapped[..rb.rowPitch * rb.texHeight], rb.texWidth, rb.texHeight, rb.rowPitch))
  }

  /** What ProcessCaptureFrame answers. */
  datatype Reply =
    | Served(frame: Frame)
    | Refused(error: ApiError, width: int, height: int, stride: int)

  /** The answer and the new cache: a fresh frame is served and cached (cacheAllocOk
      answers CacheFrame's HeapAlloc); a miss that falls back serves the cache when
      GetCachedFrame succeeds (copyOk answers its HeapAlloc); anything else is refused. */
  function Respond(c: FrameCache, f: Fetched, cacheAllocOk: bool, copyOk: bool): (r: (Reply, FrameCache))
    requires CacheValid(c)
    requires f.Got? ==> WellFormed(f.frame)
    ensures CacheValid(r.1)
    ensures r.0.Served? ==> WellFormed(r.0.frame)
    ensures f.Miss? ==> r.1 == c
  {
    match f
    case Got(frame) => (Served(frame), StoreFrame(c, frame, cacheAllocOk))
    case Miss(e, w, h, s, fallback) =>
      var cached := Lookup(c, copyOk);
      if fallback && cached.Some? then (Served(cached.value), c) else (Refused(e, w, h, s), c)
  }

  /** The whole of ProcessCaptureFrame on values. */
  function Process(c: FrameCache, capturing: bool, held: bool, rb: Readout, cacheAllocOk: bool, copyOk: bool): (r: (Reply, FrameCache))
    requires CacheValid(c) && Sound(rb)
    ensures CacheValid(r.1)
    ensures r.0.Served? ==> WellFormed(r.0.frame)
  {
    Respond(c, Fetch(capturing, held, rb), cacheAllocOk, copyOk)
  }

  /** A staging-texture failure is refused even when a cached frame could be served,
      and it reports the texture's width and height. */
  lemma StagingFailureDoesNotFallBack(c: FrameCache, rb: Readout, cacheAllocOk: bool, copyOk: bool)
    requires CacheValid(c) && Sound(rb)
    requires ValidDimensions(rb.texWidth, rb.texHeight) && !rb.stagingOk
    ensures Process(c, true, true, rb, cacheAllocOk, copyOk)
            == (Refused(StagingFailed, rb.texWidth, rb.texHeight, 0), c)
  {
  }

  /** Every other failure serves the cached frame exactly when GetCachedFrame would
      produce one, and otherwise reports its own error; the cache is unchanged. */
  lemma OtherFailuresFallBack(c: FrameCache, capturing: bool, held: bool, rb: Readout, cacheAllocOk: bool, copyOk: bool)
    requires CacheValid(c) && Sound(rb)
    requires var f := Fetch(capturing, held, rb); f.Miss? && f.error != StagingFailed
    ensures var r := Process(c, capturing, held, rb, cacheAllocOk, copyOk);
            && r.1 == c
            && (r.0.Served? <==> Lookup(c, copyOk).Some?)
            && (r.0.Served? ==> r.0.frame == Cached(c))
            && (r.0.Refused? ==> r.0.error == Fetch(capturing, held, rb).error)
  {
  }

  /** The failure each rung of the ladder reports, in order. */
  lemma LadderOrder(capturing: bool, held: bool, rb: Readout)
    requires Sound(rb)
    ensures !capturing ==> Fetch(capturing, held, rb).error == NotCapturing
    ensures capturing && !held ==> Fetch(capturing, held, rb).error == NoFrameAvailable
    ensures capturing && held && !ValidDimensions(rb.texWidth, rb.texHeight) ==>
              Fetch(capturing, held, rb).error == InvalidTextureDimensions
    ensures capturing && held && ValidDimensions(rb.texWidth, rb.texHeight) && rb.stagingOk && !rb.mapOk ==>
              Fetch(capturing, held, rb).error == MapFailed
    ensures capturing && held && ValidDimensions(rb.texWidth, rb.texHeight) && rb.stagingOk && rb.mapOk && !rb.bufferOk ==>
              Fetch(capturing, held, rb).error == AllocFailed
  {
  }

  /** A fresh frame has the texture's dimensions, the row pitch as stride and
      RowPitch * Height bytes read from the mapping; it refreshes the cache so that
      the next GetCachedFrame returns it, unless CacheFrame's allocation fails. */
  lemma FreshFrameRefreshesCache(c: FrameCache, rb: Readout, cacheAllocOk: bool, copyOk: bool)
    requires CacheValid(c) && Sound(rb)
    requires ValidDimensions(rb.texWidth, rb.texHeight) && rb.stagingOk && rb.mapOk && rb.bufferOk
    ensures var r := Process(c, true, true, rb, cacheAllocOk, copyOk);
            && r.0.Served?
            && r.0.frame.width == rb.texWidth && r.0.frame.height == rb.texHeight
            && r.0.frame.stride == rb.rowPitch
            && r.0.frame.pixels == rb.mapped[..rb.rowPitch * rb.texHeight]
            && (r.1.data.Some? ==> Lookup(r.1, true) == Some(r.0.frame))
            && (cacheAllocOk ==> r.1.data.Some?)
  {
  }
}
