/** Arithmetic shared by the three scroll-driven components: the clamp,
    Math.round, and the mapping from a scroll offset to a progress in [0,1]
    that every scroll handler computes before anything else. All numbers are
    exact reals; IEEE rounding is not modelled. */
module ScrollMath {

  datatype Option<+T> = None | Some(value: T)

  /** The CSS `pointer-events` value written on overlay elements. */
  datatype PointerEvents = Auto | NoEvents

  function Abs(x: real): (r: real)
    ensures r >= 0.0 && (r == x || r == -x)
  {
    if x < 0.0 then -x else x
  }

  function Min(a: real, b: real): (r: real)
    ensures r <= a && r <= b && (r == a || r == b)
  {
    if a <= b then a else b
  }

  function Max(a: real, b: real): (r: real)
    ensures r >= a && r >= b && (r == a || r == b)
  {
    if a >= b then a else b
  }

  /** `Math.min(Math.max(x, 0), 1)` */
  function Clamp01(x: real): (r: real)
    ensures 0.0 <= r <= 1.0
    ensures 0.0 <= x <= 1.0 ==> r == x
    ensures x <= 0.0 ==> r == 0.0
    ensures x >= 1.0 ==> r == 1.0
  {
    Min(Max(x, 0.0), 1.0)
  }

  lemma Clamp01Monotone(x: real, y: real)
    requires x <= y
    ensures Clamp01(x) <= Clamp01(y)
  {
  }

  /** `Math.round`: the nearest integer, halves rounded up. */
  function Round(x: real): (n: int)
    ensures n as real - 0.5 <= x < n as real + 0.5
  {
    (x + 0.5).Floor
  }

  lemma RoundMonotone(x: real, y: real)
    requires x <= y
    ensures Round(x) <= Round(y)
  {
  }

  /** Scroll progress as every scroll handler computes it: the scrollable
      range is the document height minus the window height; a range that is
      not positive yields no progress at all (the handler returns early);
      otherwise the offset is divided by the range and clamped to [0,1]. */
  function ScrollProgress(scrollY: real, scrollHeight: real, innerHeight: real): (p: Option<real>)
    ensures p.None? <==> scrollHeight - innerHeight <= 0.0
    ensures p.Some? ==> 0.0 <= p.value <= 1.0
    ensures p.Some? && scrollY <= 0.0 ==> p.value == 0.0
    ensures p.Some? && scrollY >= scrollHeight - innerHeight ==> p.value == 1.0
  {
    var range := scrollHeight - innerHeight;
    if range <= 0.0 then None else Some(Clamp01(scrollY / range))
  }

  /** Scrolling further down never lowers the progress. */
  lemma ScrollProgressMonotone(y1: real, y2: real, scrollHeight: real, innerHeight: real)
    requires y1 <= y2
    requires scrollHeight - innerHeight > 0.0
    ensures ScrollProgress(y1, scrollHeight, innerHeight).value <= ScrollProgress(y2, scrollHeight, innerHeight).value
  {
    var range := scrollHeight - innerHeight;
    QuotientMonotone(y1, y2, range);
    Clamp01Monotone(y1 / range, y2 / range);
  }

  /** Viewport widths below this many CSS pixels count as mobile. */
  const MobileBreakpoint: real := 640.0

  /** The `isMobile` check both overlays run on mount and on every resize:
      widths below 640px are mobile, 640px and wider are not. */
  predicate IsMobile(innerWidth: real)
    ensures innerWidth < 640.0 ==> IsMobile(innerWidth)
    ensures innerWidth >= 640.0 ==> !IsMobile(innerWidth)
  {
    innerWidth < MobileBreakpoint
  }

  /** A quantity at least as large as a positive divisor gives a quotient of
      at least one. */
  lemma QuotientAtLeastOne(a: real, w: real)
    requires 0.0 < w <= a
    ensures a / w >= 1.0
  {
    assert (a / w) * w == a;
  }

  /** A quantity below a positive divisor gives a quotient below one. */
  lemma QuotientBelowOne(a: real, w: real)
    requires a < w && 0.0 < w
    ensures a / w < 1.0
  {
    assert (1.0 - a / w) * w == w - a;
  }

  /** Dividing by a positive quantity preserves order. */
  lemma QuotientMonotone(a: real, b: real, w: real)
    requires a <= b && 0.0 < w
    ensures a / w <= b / w
  {
    assert b / w - a / w == (b - a) / w;
  }
}
