/** The hero overlay: once the first frames are ready, three groups of the
    hero screen (body, header, scroll hint) fade out over the first part of
    the scroll, each on its own curve. */
module HeroUI {
  import opened ScrollMath

  /** The progress at which each group has faded out completely. */
  const BodyFadeEnd: real := 0.12
  const HeaderFadeEnd: real := 0.20
  const HintFadeEnd: real := 0.06

  /** How far the body and the header rise, in pixels, when fully faded. */
  const BodyRise: real := 72.0
  const HeaderRise: real := 20.0

  /** Body opacity below which the left-bottom block stops taking clicks. */
  const PointerCutoff: real := 0.05

  /** One fade curve: `Math.min(p / end, 1)`. It starts at 0, reaches 1 at
      `end` and stays there. */
  function Fade(p: real, end: real): (t: real)
    requires 0.0 <= p && end > 0.0
    ensures 0.0 <= t <= 1.0
    ensures p == 0.0 ==> t == 0.0
    ensures p >= end ==> t == 1.0
    ensures p < end ==> t < 1.0
  {
    if p >= end then QuotientAtLeastOne(p, end); Min(p / end, 1.0)
    else
      QuotientBelowOne(p, end);
      Min(p / end, 1.0)
  }

  lemma FadeMonotone(p: real, q: real, end: real)
    requires 0.0 <= p <= q && end > 0.0
    ensures Fade(p, end) <= Fade(q, end)
  {
    QuotientMonotone(p, q, end);
  }

  /** The styles `update` writes: body opacity and rise, the left-bottom
      block's pointer-events, header opacity, rise and pointer-events, and
      the scroll hint's opacity. */
  datatype HeroStyles = HeroStyles(
    bodyOpacity: real, bodyShift: real, leftBottomPointer: PointerEvents,
    headerOpacity: real, headerShift: real, headerPointer: PointerEvents,
    hintOpacity: real)

  /** The hero's styles at progress p. Every opacity lies in [0,1] and every
      shift between its full rise and 0; at the top of the page everything
      is fully visible and in place. The body is gone from BodyFadeEnd on,
      the header from HeaderFadeEnd, the hint from HintFadeEnd. The
      left-bottom block is inert exactly when the body is nearly
      transparent; the header always takes clicks. */
  function HeroStylesAt(p: real): (s: HeroStyles)
    requires 0.0 <= p <= 1.0
    ensures 0.0 <= s.bodyOpacity <= 1.0 && 0.0 <= s.headerOpacity <= 1.0 && 0.0 <= s.hintOpacity <= 1.0
    ensures -BodyRise <= s.bodyShift <= 0.0 && -HeaderRise <= s.headerShift <= 0.0
    ensures s.bodyShift == -BodyRise * (1.0 - s.bodyOpacity)
    ensures s.headerShift == -HeaderRise * (1.0 - s.headerOpacity)
    ensures s.leftBottomPointer == NoEvents <==> s.bodyOpacity < PointerCutoff
    ensures s.headerPointer == Auto
    ensures p == 0.0 ==>
      s.bodyOpacity == 1.0 && s.headerOpacity == 1.0 && s.hintOpacity == 1.0
      && s.bodyShift == 0.0 && s.headerShift == 0.0
    ensures p >= BodyFadeEnd <==> s.bodyOpacity == 0.0
    ensures p >= HeaderFadeEnd <==> s.headerOpacity == 0.0
    ensures p >= HintFadeEnd <==> s.hintOpacity == 0.0
  {
    var tb := Fade(p, BodyFadeEnd);
    var th := Fade(p, HeaderFadeEnd);
    var bodyOpacity := 1.0 - tb;
    HeroStyles(bodyOpacity, -tb * BodyRise, if bodyOpacity < PointerCutoff then NoEvents else Auto,
               1.0 - th, -th * HeaderRise, Auto,
               1.0 - Fade(p, HintFadeEnd))
  }

  /** Because the hint's curve ends first and the header's last, at every
      progress the hint is at most as visible as the body, and the body at
      most as visible as the header. */
  lemma FadeOrdering(p: real)
    requires 0.0 <= p <= 1.0
    ensures HeroStylesAt(p).hintOpacity <= HeroStylesAt(p).bodyOpacity <= HeroStylesAt(p).headerOpacity
  {
    assert p / HintFadeEnd == 2.0 * (p / BodyFadeEnd);
    assert p / BodyFadeEnd >= p / HeaderFadeEnd by {
      assert p / BodyFadeEnd == (5.0 / 3.0) * (p / HeaderFadeEnd);
    }
  }

  /** Scrolling down never makes any group more visible nor moves it back
      down, and a left-bottom block that has become inert stays inert. */
  lemma FadesMonotone(p: real, q: real)
    requires 0.0 <= p <= q <= 1.0
    ensures HeroStylesAt(q).bodyOpacity <= HeroStylesAt(p).bodyOpacity
    ensures HeroStylesAt(q).headerOpacity <= HeroStylesAt(p).headerOpacity
    ensures HeroStylesAt(q).hintOpacity <= HeroStylesAt(p).hintOpacity
    ensures HeroStylesAt(q).bodyShift <= HeroStylesAt(p).bodyShift
    ensures HeroStylesAt(q).headerShift <= HeroStylesAt(p).headerShift
    ensures HeroStylesAt(p).leftBottomPointer == NoEvents ==> HeroStylesAt(q).leftBottomPointer == NoEvents
  {
    FadeMonotone(p, q, BodyFadeEnd);
    FadeMonotone(p, q, HeaderFadeEnd);
    FadeMonotone(p, q, HintFadeEnd);
  }

  class HeroOverlay {
    /** The styles last written, if `update` has written any. */
    var styles: Option<HeroStyles>
    /** Whether the scroll effect is active: set when it runs with `loaded`
        true, cleared by its cleanup. `update` does nothing while clear. */
    var wired: bool
    var isMobile: bool

    /** Mount: the mobile check, then the scroll effect for the initial
        `loaded`. Before the frames are ready nothing is wired or written. */
    constructor (innerWidth: real, loaded: bool, scrollY: real, scrollHeight: real, innerHeight: real)
      ensures isMobile == IsMobile(innerWidth) && wired == loaded
      ensures styles ==
        if loaded && ScrollProgress(scrollY, scrollHeight, innerHeight).Some?
        then Some(HeroStylesAt(ScrollProgress(scrollY, scrollHeight, innerHeight).value))
        else None
    {
      isMobile := IsMobile(innerWidth);
      wired := false;
      styles := None;
      new;
      LoadedChanged(loaded, scrollY, scrollHeight, innerHeight);
    }

    /** The resize listener: re-run the mobile check. */
    method CheckMobile(innerWidth: real)
      modifies this`isMobile
      ensures isMobile == IsMobile(innerWidth)
    {
      isMobile := innerWidth < MobileBreakpoint;
    }

    /** The scroll effect re-running for a new `loaded`: the previous run's
        cleanup, then, only when loaded, wiring and one `update`. */
    method LoadedChanged(loaded: bool, scrollY: real, scrollHeight: real, innerHeight: real)
      modifies this`wired, this`styles
      ensures wired == loaded
      ensures loaded && ScrollProgress(scrollY, scrollHeight, innerHeight).Some? ==>
        styles == Some(HeroStylesAt(ScrollProgress(scrollY, scrollHeight, innerHeight).value))
      ensures !loaded || ScrollProgress(scrollY, scrollHeight, innerHeight).None? ==>
        styles == old(styles)
    {
      wired := false;
      if !loaded {
        return;
      }
      wired := true;
      Update(scrollY, scrollHeight, innerHeight);
    }

    /** `update()`: nothing unless wired or on a page that cannot scroll;
        otherwise every group is styled for the clamped scroll progress. */
    method Update(scrollY: real, scrollHeight: real, innerHeight: real)
      modifies this`styles
      ensures !wired || ScrollProgress(scrollY, scrollHeight, innerHeight).None? ==> unchanged(this)
      ensures wired && ScrollProgress(scrollY, scrollHeight, innerHeight).Some? ==>
        styles == Some(HeroStylesAt(ScrollProgress(scrollY, scrollHeight, innerHeight).value))
    {
      if !wired {
        return;
      }
      var max := scrollHeight - innerHeight;
      if max <= 0.0 {
        return;
      }
      var p := Clamp01(scrollY / max);
      var tb := Min(p / BodyFadeEnd, 1.0);
      var bodyOpacity := 1.0 - tb;
      var th := Min(p / HeaderFadeEnd, 1.0);
      var tn := Min(p / HintFadeEnd, 1.0);
      styles := Some(HeroStyles(
        bodyOpacity, -tb * BodyRise, if bodyOpacity < PointerCutoff then NoEvents else Auto,
        1.0 - th, -th * HeaderRise, Auto,
        1.0 - tn));
    }

    /** The scroll effect's cleanup on unmount. */
    method Teardown()
      modifies this`wired
      ensures !wired
    {
      wired := false;
    }
  }
}
