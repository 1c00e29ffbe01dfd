/** The frame store: one entry per frame with its address and load state, the
    count of resolved frames, the load percentage shown while loading, and the
    backward search for the nearest frame that can be drawn. */
module FrameStore {
  import opened ScrollMath
  import opened FrameAddress

  /** Resolved frames after which the page is told it may show itself. */
  const EagerFrames: nat := 30

  /** An image element's load state; `Loaded` carries `naturalWidth` and
      `naturalHeight`. */
  datatype LoadState = Pending | Loaded(naturalWidth: nat, naturalHeight: nat) | Errored

  datatype Frame = Frame(src: string, state: LoadState)

  /** A frame is drawn only when it is complete and has a non-zero
      `naturalWidth`; a failed or still pending frame never is. */
  predicate Drawable(f: Frame)
    ensures Drawable(f) ==> Resolved(f)
    ensures f.state.Errored? ==> !Drawable(f)
  {
    f.state.Loaded? && f.state.naturalWidth > 0
  }

  predicate Resolved(f: Frame)
  {
    !f.state.Pending?
  }

  /** The frame `draw(idx)` paints: idx itself when it is drawable, otherwise
      the closest drawable frame below it, or none at all. */
  function NearestDrawable(frames: seq<Frame>, idx: int): (r: Option<nat>)
    requires idx < |frames|
    ensures r.Some? ==> r.value <= idx && Drawable(frames[r.value])
    decreases idx + 1
  {
    if idx < 0 then None
    else if Drawable(frames[idx]) then Some(idx)
    else NearestDrawable(frames, idx - 1)
  }

  /** The frame chosen is the greatest drawable one at or below idx, and no
      frame is chosen only when none at or below idx is drawable. */
  lemma {:induction false} NearestDrawableIsGreatest(frames: seq<Frame>, idx: int)
    requires idx < |frames|
    ensures NearestDrawable(frames, idx).Some? ==>
      forall k :: NearestDrawable(frames, idx).value < k <= idx ==> !Drawable(frames[k])
    ensures NearestDrawable(frames, idx).None? <==>
      forall k :: 0 <= k <= idx ==> !Drawable(frames[k])
    decreases idx + 1
  {
    if idx >= 0 && !Drawable(frames[idx]) {
      NearestDrawableIsGreatest(frames, idx - 1);
    }
  }

  /** The choice depends only on the frames at or below idx: frames ahead of
      the requested one never influence what is painted. */
  lemma {:induction false} NearestDrawableIgnoresLaterFrames(frames: seq<Frame>, other: seq<Frame>, idx: int)
    requires idx < |frames| && idx < |other|
    requires forall k :: 0 <= k <= idx ==> frames[k] == other[k]
    ensures NearestDrawable(frames, idx) == NearestDrawable(other, idx)
    decreases idx + 1
  {
    if idx >= 0 && !Drawable(frames[idx]) {
      NearestDrawableIgnoresLaterFrames(frames, other, idx - 1);
    }
  }

  /** Number of frames whose load has resolved, successfully or not. */
  function ResolvedCount(frames: seq<Frame>): (n: nat)
    ensures n <= |frames|
  {
    if frames == [] then 0
    else ResolvedCount(frames[..|frames| - 1]) + (if Resolved(frames[|frames| - 1]) then 1 else 0)
  }

  /** Resolving one pending frame raises the count by exactly one, whether
      it loaded or failed. */
  lemma {:induction false} ResolveOneFrame(frames: seq<Frame>, i: nat, f: Frame)
    requires i < |frames|
    requires !Resolved(frames[i]) && Resolved(f)
    ensures ResolvedCount(frames[i := f]) == ResolvedCount(frames) + 1
  {
    var n := |frames|;
    var updated := frames[i := f];
    if i == n - 1 {
      assert updated[..n - 1] == frames[..n - 1];
    } else {
      assert updated[..n - 1] == frames[..n - 1][i := f];
      ResolveOneFrame(frames[..n - 1], i, f);
    }
  }

  lemma {:induction false} NothingResolved(frames: seq<Frame>)
    requires forall k :: 0 <= k < |frames| ==> !Resolved(frames[k])
    ensures ResolvedCount(frames) == 0
  {
    if frames != [] {
      NothingResolved(frames[..|frames| - 1]);
    }
  }

  lemma {:induction false} AllResolved(frames: seq<Frame>)
    requires forall k :: 0 <= k < |frames| ==> Resolved(frames[k])
    ensures ResolvedCount(frames) == |frames|
  {
    if frames != [] {
      AllResolved(frames[..|frames| - 1]);
    }
  }

  /** The loading indicator: `Math.round(count / TOTAL_FRAMES * 100)`. */
  function LoadPercent(count: nat): (pct: int)
    requires count <= TotalFrames
    ensures 0 <= pct <= 100
    ensures count == 0 ==> pct == 0
    ensures count == TotalFrames ==> pct == 100
  {
    Round(count as real / TotalFrames as real * 100.0)
  }

  /** More resolved frames never show a lower percentage. */
  lemma LoadPercentMonotone(m: nat, n: nat)
    requires m <= n <= TotalFrames
    ensures LoadPercent(m) <= LoadPercent(n)
  {
    RoundMonotone(m as real / TotalFrames as real * 100.0, n as real / TotalFrames as real * 100.0);
  }
}
