/** The scroll-driven frame player: the state the player's effect keeps in
    closure variables, and the handlers that browser events run on it. Each
    browser event is a method call; the events may come in any order. */
module ScrollSequence {
  import opened ScrollMath
  import opened FrameAddress
  import opened FrameStore
  import opened CoverFit
  import opened Smoothing

  /** What `resize` reads from the window: `innerWidth`, `innerHeight`,
      `visualViewport?.height` and `devicePixelRatio`. */
  datatype Viewport = Viewport(innerWidth: real, innerHeight: real, visualHeight: Option<real>, devicePixelRatio: Option<real>)

  predicate ViewportOk(v: Viewport)
  {
    && v.innerWidth >= 0.0
    && v.innerHeight >= 0.0
    && (v.visualHeight.Some? ==> v.visualHeight.value >= 0.0)
    && (v.devicePixelRatio.Some? ==> v.devicePixelRatio.value > 0.0)
  }

  /** `visualViewport?.height ?? innerHeight`: the visual viewport wins when
      there is one. */
  function CssHeight(v: Viewport): (h: real)
    requires ViewportOk(v)
    ensures h >= 0.0
    ensures v.visualHeight.Some? ==> h == v.visualHeight.value
    ensures v.visualHeight.None? ==> h == v.innerHeight
  {
    if v.visualHeight.Some? then v.visualHeight.value else v.innerHeight
  }

  /** What the canvas shows. `Black` is the black fill alone, which is what
      remains when the image's placement is not finite (a loaded frame whose
      `naturalHeight` is 0: `drawImage` ignores non-finite arguments).
      `Painted` is a black fill with the frame drawn over it at `rect`. */
  datatype Picture = Blank | Black | Painted(frame: nat, rect: Rect)

  /** The picture one drawable frame produces on a cw x ch canvas. */
  function Show(f: Frame, j: nat, cw: nat, ch: nat): (r: Picture)
    requires Drawable(f)
    ensures r != Blank
    ensures r.Black? <==> f.state.naturalHeight == 0
    ensures r.Painted? ==> r.frame == j && r.rect.width >= cw as real && r.rect.height >= ch as real
  {
    if f.state.naturalHeight == 0 then Black
    else Painted(j, Cover(cw, ch, f.state.naturalWidth, f.state.naturalHeight))
  }

  /** What the canvas shows after `draw(idx)` on a canvas that showed `prev`. */
  function Paint(frames: seq<Frame>, cw: nat, ch: nat, idx: nat, prev: Picture): (r: Picture)
    requires idx < |frames|
    ensures NearestDrawable(frames, idx).None? ==> r == prev
    ensures NearestDrawable(frames, idx).Some? ==> r != Blank
    ensures r.Painted? && r != prev ==> r.frame <= idx && Drawable(frames[r.frame])
  {
    match NearestDrawable(frames, idx)
    case None => prev
    case Some(j) => Show(frames[j], j, cw, ch)
  }

  /** `j` is the frame the backward search settles on for `idx`. */
  predicate IsNearest(frames: seq<Frame>, idx: nat, j: nat)
    requires idx < |frames|
  {
    j <= idx && Drawable(frames[j]) && forall k :: j < k <= idx ==> !Drawable(frames[k])
  }

  /** Painting leaves the canvas alone when no frame at or below idx is
      drawable; otherwise it shows the nearest drawable frame at or below
      idx, never one ahead of it, cover-fitted; a drawable idx is shown
      itself. */
  lemma PaintShowsNearest(frames: seq<Frame>, cw: nat, ch: nat, idx: nat, prev: Picture)
    requires idx < |frames|
    ensures (forall k :: 0 <= k <= idx ==> !Drawable(frames[k])) ==> Paint(frames, cw, ch, idx, prev) == prev
    ensures (exists k :: 0 <= k <= idx && Drawable(frames[k])) ==>
      exists j: nat :: IsNearest(frames, idx, j) && Paint(frames, cw, ch, idx, prev) == Show(frames[j], j, cw, ch)
    ensures Drawable(frames[idx]) ==> Paint(frames, cw, ch, idx, prev) == Show(frames[idx], idx, cw, ch)
  {
    NearestDrawableIsGreatest(frames, idx);
    match NearestDrawable(frames, idx)
    case None =>
    case Some(j) => assert IsNearest(frames, idx, j);
  }

  class Player {
    /** `images`: one entry per frame, created Pending with its address. */
    const images: array<Frame>
    var loadedCount: nat
    /** Whether the page has been told it may show itself. */
    var eagerDone: bool
    /** How many times `setLoaded(true)` / `onLoaded()` have run. */
    var readyCalls: nat
    /** The `loadPct` state shown by the loading indicator. */
    var loadPct: int
    var currentFrame: real
    var targetFrame: real
    var rafRunning: bool
    /** Animation-frame callbacks requested and not yet delivered or cancelled. */
    var pendingTicks: nat
    var alive: bool
    /** The canvas's backing store and its CSS size. */
    var canvasWidth: nat
    var canvasHeight: nat
    var cssWidth: real
    var cssHeight: real
    var picture: Picture
    /** The progress bar's `scaleX`. */
    var progressBar: real

    /** Load accounting: the counter is the number of resolved frames, the
        ready signal has fired once exactly when the counter has reached the
        eager threshold, and the percentage follows the counter. */
    ghost predicate Loading()
      reads this`loadedCount, this`eagerDone, this`readyCalls, this`loadPct, images
    {
      && images.Length == TotalFrames
      && loadedCount == ResolvedCount(images[..])
      && eagerDone == (loadedCount >= EagerFrames)
      && readyCalls == (if eagerDone then 1 else 0)
      && loadPct == LoadPercent(loadedCount)
    }

    /** Playback: both frame positions stay within the sequence, the progress
        bar within [0,1], the canvas only ever shows a drawable frame, and at
        most one animation frame is pending, and only while alive. */
    ghost predicate Playback()
      reads this`currentFrame, this`targetFrame, this`progressBar, this`picture, this`pendingTicks, this`alive, images
    {
      && images.Length == TotalFrames
      && 0.0 <= currentFrame <= LastFrame
      && 0.0 <= targetFrame <= LastFrame
      && 0.0 <= progressBar <= 1.0
      && (picture.Painted? ==> picture.frame < images.Length && Drawable(images[picture.frame]))
      && pendingTicks <= 1
      && (pendingTicks == 1 ==> alive)
    }

    /** Between events `rafRunning` says exactly whether a tick is pending. */
    ghost predicate Valid()
      reads this`loadedCount, this`eagerDone, this`readyCalls, this`loadPct
      reads this`currentFrame, this`targetFrame, this`progressBar, this`picture, this`pendingTicks, this`alive
      reads this`rafRunning, images
    {
      Loading() && Playback() && (alive ==> rafRunning == (pendingTicks == 1))
    }

    /** Bootstrap: create every frame Pending with its address (the preload
        loop), then `resize()` and `wakeRaf()`. */
    constructor (vp: Viewport)
      requires ViewportOk(vp)
      ensures Valid() && fresh(images)
      ensures forall i {:trigger FrameSrc(i)} :: 0 <= i < TotalFrames ==> images[i] == Frame(FrameSrc(i), Pending)
      ensures loadedCount == 0 && !eagerDone && readyCalls == 0 && loadPct == 0
      ensures currentFrame == 0.0 && targetFrame == 0.0
      ensures alive && rafRunning && pendingTicks == 1
      ensures canvasWidth == BackingSize(vp.innerWidth, vp.devicePixelRatio)
      ensures canvasHeight == BackingSize(CssHeight(vp), vp.devicePixelRatio)
      ensures cssWidth == vp.innerWidth && cssHeight == CssHeight(vp)
      ensures picture == Blank && progressBar == 0.0
    {
      var frames := Preload();
      images := frames;
      loadedCount, eagerDone, readyCalls, loadPct := 0, false, 0, 0;
      currentFrame, targetFrame := 0.0, 0.0;
      rafRunning, pendingTicks, alive := false, 0, true;
      // A canvas element starts at 300 x 150.
      canvasWidth, canvasHeight, cssWidth, cssHeight := 300, 150, 300.0, 150.0;
      picture, progressBar := Blank, 0.0;
      new;
      NothingResolved(images[..]);
      assert Loading();
      assert Round(currentFrame) == 0 && images[..][0].state == Pending;
      Resize(vp);
      WakeRaf();
    }

    /** The preload loop: one Pending image per frame, addressed by
        `frameSrc`. */
    static method Preload() returns (frames: array<Frame>)
      ensures fresh(frames) && frames.Length == TotalFrames
      ensures forall i {:trigger FrameSrc(i)} :: 0 <= i < TotalFrames ==> frames[i] == Frame(FrameSrc(i), Pending)
      ensures forall i :: 0 <= i < TotalFrames ==> !Resolved(frames[i])
    {
      frames := new Frame[TotalFrames];
      for i := 0 to TotalFrames
        invariant forall k {:trigger FrameSrc(k)} :: 0 <= k < i ==> frames[k] == Frame(FrameSrc(k), Pending)
        invariant forall k :: 0 <= k < i ==> !Resolved(frames[k])
      {
        frames[i] := Frame(FrameSrc(i), Pending);
      }
    }

    /** The backward search in `draw`. */
    method Resolve(idx: nat) returns (r: Option<nat>)
      requires idx < images.Length
      ensures r == NearestDrawable(images[..], idx)
    {
      if Drawable(images[idx]) {
        return Some(idx);
      }
      var j: int := idx - 1;
      while j >= 0
        invariant -1 <= j < idx
        invariant NearestDrawable(images[..], idx) == NearestDrawable(images[..], j)
      {
        if Drawable(images[j]) {
          return Some(j);
        }
        j := j - 1;
      }
      return None;
    }

    /** `draw(idx)`: nothing once torn down; otherwise paint the nearest
        drawable frame at or below idx, or leave the canvas alone. */
    method Draw(idx: nat)
      requires Playback() && idx < TotalFrames
      modifies this`picture
      ensures Playback()
      ensures picture == if old(alive) then Paint(images[..], canvasWidth, canvasHeight, idx, old(picture)) else old(picture)
    {
      if !alive {
        return;
      }
      var found := Resolve(idx);
      match found {
        case None =>
        case Some(j) =>
          picture := Show(images[j], j, canvasWidth, canvasHeight);
      }
    }

    /** `updateProgress(p)`: the bar shows p clamped to [0,1]. */
    method UpdateProgress(p: real)
      modifies this`progressBar
      ensures progressBar == Clamp01(p)
    {
      progressBar := Clamp01(p);
    }

    /** `resize()`: nothing once torn down; otherwise size the backing store
        to the viewport times the capped pixel ratio, keep the CSS size at the
        viewport, and repaint the current frame (setting a canvas's size
        clears its bitmap). The frame positions are left alone. */
    method Resize(vp: Viewport)
      requires Playback() && ViewportOk(vp)
      modifies this`canvasWidth, this`canvasHeight, this`cssWidth, this`cssHeight, this`picture
      ensures Playback()
      ensures !old(alive) ==> unchanged(this)
      ensures old(alive) ==>
        && canvasWidth == BackingSize(vp.innerWidth, vp.devicePixelRatio)
        && canvasHeight == BackingSize(CssHeight(vp), vp.devicePixelRatio)
        && cssWidth == vp.innerWidth && cssHeight == CssHeight(vp)
        && picture == Paint(images[..], canvasWidth, canvasHeight, Round(currentFrame), Blank)
      ensures currentFrame == old(currentFrame) && targetFrame == old(targetFrame)
    {
      if !alive {
        return;
      }
      var h := CssHeight(vp);
      canvasWidth := BackingSize(vp.innerWidth, vp.devicePixelRatio);
      canvasHeight := BackingSize(h, vp.devicePixelRatio);
      picture := Blank;
      cssWidth, cssHeight := vp.innerWidth, h;
      Draw(Round(currentFrame));
    }

    /** `wakeRaf()`: request a tick only when none is running and the player
        is alive, so waking a running loop adds no second tick. */
    method WakeRaf()
      requires Valid()
      modifies this`rafRunning, this`pendingTicks
      ensures Valid()
      ensures old(alive) ==> rafRunning && pendingTicks == 1
      ensures old(alive) && old(rafRunning) ==> pendingTicks == old(pendingTicks)
      ensures !old(alive) ==> unchanged(this)
    {
      if !rafRunning && alive {
        rafRunning := true;
        pendingTicks := pendingTicks + 1;
      }
    }

    /** The end of every tick: draw the clamped, rounded current frame and
        publish the progress it stands for. */
    method Present()
      requires Playback() && alive
      modifies this`picture, this`progressBar
      ensures Playback()
      ensures picture == Paint(images[..], canvasWidth, canvasHeight, FrameIndex(currentFrame), old(picture))
      ensures progressBar == Clamp01(currentFrame / LastFrame)
    {
      Draw(FrameIndex(currentFrame));
      UpdateProgress(currentFrame / LastFrame);
    }

    /** `tick()`, run by the browser once the pending request is delivered.
        Settled: snap to the target, paint, publish, and stop (no new
        request). Otherwise: move LerpFactor of the way to the target, paint
        the nearest whole frame, publish, and request the next tick. */
    method Tick()
      requires Playback()
      requires pendingTicks == 0 && (alive ==> rafRunning)
      modifies this`currentFrame, this`picture, this`progressBar, this`rafRunning, this`pendingTicks
      ensures Playback() && (alive ==> rafRunning == (pendingTicks == 1))
      ensures !old(alive) ==> unchanged(this)
      ensures old(alive) && Settled(old(currentFrame), targetFrame) ==>
        currentFrame == targetFrame && !rafRunning && pendingTicks == 0
      ensures old(alive) && !Settled(old(currentFrame), targetFrame) ==>
        currentFrame == Lerp(old(currentFrame), targetFrame) && rafRunning && pendingTicks == 1
      ensures old(alive) ==>
        && picture == Paint(images[..], canvasWidth, canvasHeight, FrameIndex(currentFrame), old(picture))
        && progressBar == Clamp01(currentFrame / LastFrame)
      ensures targetFrame == old(targetFrame) && alive == old(alive)
    {
      if !alive {
        return;
      }
      var diff := targetFrame - currentFrame;
      if Abs(diff) < LerpEpsilon {
        currentFrame := targetFrame;
        Present();
        rafRunning := false;
        return;
      }
      currentFrame := currentFrame + diff * LerpFactor;
      Present();
      pendingTicks := pendingTicks + 1;
    }

    /** The browser delivers the pending animation frame, if there is one. */
    method AnimationFrame()
      requires Valid()
      modifies this`currentFrame, this`picture, this`progressBar, this`rafRunning, this`pendingTicks
      ensures Valid()
      ensures old(pendingTicks) == 0 ==> unchanged(this)
      ensures old(pendingTicks) == 1 && Settled(old(currentFrame), old(targetFrame)) ==>
        currentFrame == targetFrame && !rafRunning && pendingTicks == 0
      ensures old(pendingTicks) == 1 && !Settled(old(currentFrame), old(targetFrame)) ==>
        currentFrame == Lerp(old(currentFrame), targetFrame) && rafRunning && pendingTicks == 1
      ensures old(pendingTicks) == 1 ==>
        && picture == Paint(images[..], canvasWidth, canvasHeight, FrameIndex(currentFrame), old(picture))
        && progressBar == Clamp01(currentFrame / LastFrame)
      ensures targetFrame == old(targetFrame) && alive == old(alive)
    {
      if pendingTicks > 0 {
        pendingTicks := pendingTicks - 1;
        Tick();
      }
    }

    /** `onScroll()`: nothing on a page that cannot scroll; otherwise the
        target becomes the scroll progress times the last frame index, and
        the loop is woken. */
    method OnScroll(scrollY: real, scrollHeight: real, innerHeight: real)
      requires Valid()
      modifies this`targetFrame, this`rafRunning, this`pendingTicks
      ensures Valid()
      ensures ScrollTarget(scrollY, scrollHeight, innerHeight).None? ==> unchanged(this)
      ensures ScrollTarget(scrollY, scrollHeight, innerHeight).Some? ==>
        && targetFrame == ScrollTarget(scrollY, scrollHeight, innerHeight).value
        && (old(alive) ==> rafRunning && pendingTicks == 1)
        && (!old(alive) ==> rafRunning == old(rafRunning) && pendingTicks == old(pendingTicks))
      ensures currentFrame == old(currentFrame)
    {
      var range := scrollHeight - innerHeight;
      if range <= 0.0 {
        return;
      }
      var p := Clamp01(scrollY / range);
      targetFrame := TargetFrame(p);
      WakeRaf();
    }

    /** The window (or visual viewport) resize listener: `resize()` then
        `wakeRaf()`. */
    method OnResize(vp: Viewport)
      requires Valid() && ViewportOk(vp)
      modifies this`canvasWidth, this`canvasHeight, this`cssWidth, this`cssHeight, this`picture
      modifies this`rafRunning, this`pendingTicks
      ensures Valid()
      ensures !old(alive) ==> unchanged(this)
      ensures old(alive) ==>
        && canvasWidth == BackingSize(vp.innerWidth, vp.devicePixelRatio)
        && canvasHeight == BackingSize(CssHeight(vp), vp.devicePixelRatio)
        && cssWidth == vp.innerWidth && cssHeight == CssHeight(vp)
        && picture == Paint(images[..], canvasWidth, canvasHeight, Round(currentFrame), Blank)
        && rafRunning && pendingTicks == 1
      ensures currentFrame == old(currentFrame) && targetFrame == old(targetFrame)
    {
      Resize(vp);
      WakeRaf();
    }

    /** Fires the ready signal the first time the counter reaches the eager
        threshold. */
    method SignalReadyIfDue()
      requires Playback() && images.Length == TotalFrames
      requires loadedCount == ResolvedCount(images[..]) && loadPct == LoadPercent(loadedCount)
      requires loadedCount >= 1 && eagerDone == (loadedCount - 1 >= EagerFrames)
      requires readyCalls == (if eagerDone then 1 else 0)
      modifies this`eagerDone, this`readyCalls
      ensures Loading() && Playback()
      ensures readyCalls == old(readyCalls) + (if loadedCount == EagerFrames then 1 else 0)
    {
      if !eagerDone && loadedCount >= EagerFrames {
        eagerDone := true;
        readyCalls := readyCalls + 1;
      }
    }

    /** What both load handlers do first: the frame resolves, keeping its
        address, the counter goes up by one and the percentage follows it. */
    method CountResolution(i: nat, f: Frame)
      requires Valid() && i < images.Length && images[i].state.Pending?
      requires Resolved(f) && f.src == images[i].src
      modifies this`loadedCount, this`loadPct, images
      ensures images[..] == old(images[..])[i := f]
      ensures loadedCount == old(loadedCount) + 1 && loadedCount == ResolvedCount(images[..])
      ensures loadPct == LoadPercent(loadedCount) && old(loadPct) <= loadPct
      ensures Playback()
    {
      ResolveOneFrame(images[..], i, f);
      images[i] := f;
      loadedCount := loadedCount + 1;
      LoadPercentMonotone(loadedCount - 1, loadedCount);
      loadPct := LoadPercent(loadedCount);
    }

    /** `img.onload` for frame i: the frame becomes Loaded, the counter and
        the percentage go up, frame 0 triggers `resize()` and `draw(0)`, and
        the ready signal fires if this load is the one that reaches the
        threshold. It runs even after teardown (loads are not cancelled). */
    method OnLoad(i: nat, width: nat, height: nat, vp: Viewport)
      requires Valid() && i < images.Length && images[i].state.Pending? && ViewportOk(vp)
      modifies this`loadedCount, this`loadPct, this`eagerDone, this`readyCalls, images
      modifies this`canvasWidth, this`canvasHeight, this`cssWidth, this`cssHeight, this`picture
      ensures Valid()
      ensures images[..] == old(images[..])[i := Frame(old(images[i].src), Loaded(width, height))]
      ensures loadedCount == old(loadedCount) + 1
      ensures readyCalls == old(readyCalls) + (if loadedCount == EagerFrames then 1 else 0)
      ensures old(loadPct) <= loadPct
      ensures i != 0 || !old(alive) ==>
        unchanged(this`canvasWidth, this`canvasHeight, this`cssWidth, this`cssHeight, this`picture)
      ensures i == 0 && old(alive) ==>
        && canvasWidth == BackingSize(vp.innerWidth, vp.devicePixelRatio)
        && canvasHeight == BackingSize(CssHeight(vp), vp.devicePixelRatio)
        && cssWidth == vp.innerWidth && cssHeight == CssHeight(vp)
        && picture == Paint(images[..], canvasWidth, canvasHeight, 0,
                            Paint(images[..], canvasWidth, canvasHeight, Round(currentFrame), Blank))
      ensures currentFrame == old(currentFrame) && targetFrame == old(targetFrame) && progressBar == old(progressBar)
      ensures alive == old(alive) && rafRunning == old(rafRunning) && pendingTicks == old(pendingTicks)
    {
      CountResolution(i, Frame(images[i].src, Loaded(width, height)));
      if i == 0 {
        Resize(vp);
        Draw(0);
      }
      SignalReadyIfDue();
    }

    /** `img.onerror` for frame i: the frame becomes Errored (never drawn),
        and the counter, percentage and ready signal advance exactly as for a
        successful load. */
    method OnError(i: nat)
      requires Valid() && i < images.Length && images[i].state.Pending?
      modifies this`loadedCount, this`loadPct, this`eagerDone, this`readyCalls, images
      ensures Valid()
      ensures images[..] == old(images[..])[i := Frame(old(images[i].src), Errored)]
      ensures loadedCount == old(loadedCount) + 1
      ensures readyCalls == old(readyCalls) + (if loadedCount == EagerFrames then 1 else 0)
      ensures old(loadPct) <= loadPct
      ensures unchanged(this`canvasWidth, this`canvasHeight, this`cssWidth, this`cssHeight, this`picture)
      ensures currentFrame == old(currentFrame) && targetFrame == old(targetFrame) && progressBar == old(progressBar)
      ensures alive == old(alive) && rafRunning == old(rafRunning) && pendingTicks == old(pendingTicks)
    {
      CountResolution(i, Frame(images[i].src, Errored));
      SignalReadyIfDue();
    }

    /** Teardown: clear the liveness flag and cancel the pending tick. */
    method Cleanup()
      requires Valid()
      modifies this`alive, this`pendingTicks
      ensures Valid()
      ensures !alive && pendingTicks == 0
    {
      alive := false;
      pendingTicks := 0;
    }
  }

  /** The browser delivering animation frames while no other event arrives:
      with the target fixed, a running loop performs exactly
      TicksToSettle + 1 ticks (the last one snaps) and then requests nothing
      more; an idle loop performs none. */
  method DeliverFramesUntilIdle(player: Player) returns (ticks: nat)
    requires player.Valid()
    modifies player
    ensures player.Valid() && player.pendingTicks == 0
    ensures player.targetFrame == old(player.targetFrame)
    ensures old(player.pendingTicks) == 0 ==> ticks == 0
    ensures old(player.pendingTicks) == 1 ==>
      && ticks == TicksToSettle(old(player.currentFrame), old(player.targetFrame)) + 1
      && player.currentFrame == player.targetFrame
      && !player.rafRunning
  {
    ticks := 0;
    ghost var c0, t := player.currentFrame, player.targetFrame;
    ghost var started := player.pendingTicks == 1;
    while player.pendingTicks > 0
      invariant player.Valid() && player.targetFrame == t
      invariant !started ==> ticks == 0 && player.pendingTicks == 0
      invariant player.pendingTicks > 0 ==> ticks + TicksToSettle(player.currentFrame, t) == TicksToSettle(c0, t)
      invariant started && player.pendingTicks == 0 ==>
        ticks == TicksToSettle(c0, t) + 1 && player.currentFrame == t && !player.rafRunning
      decreases player.pendingTicks + TicksToSettle(player.currentFrame, t)
    {
      player.AnimationFrame();
      ticks := ticks + 1;
    }
  }

  /** Bootstrap followed by the first animation frame: current and target
      both start at 0, so that first tick is already settled; it snaps,
      repaints, publishes and requests nothing more. */
  method BootstrapThenFirstFrame(vp: Viewport) returns (player: Player)
    requires ViewportOk(vp)
    ensures player.Valid() && player.alive
    ensures player.currentFrame == 0.0 && player.targetFrame == 0.0
    ensures !player.rafRunning && player.pendingTicks == 0
  {
    player := new Player(vp);
    player.AnimationFrame();
  }
}
