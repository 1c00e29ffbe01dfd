/** Canvas geometry: the backing-store size chosen for a viewport and device
    pixel ratio, and the "cover" placement of a frame on the canvas. */
module CoverFit {
  import opened ScrollMath

  /** Where `drawImage` places the frame: top-left corner and drawn size. */
  datatype Rect = Rect(x: real, y: real, width: real, height: real)

  /** `Math.min(window.devicePixelRatio ?? 1, 2)` */
  function EffectiveDpr(dpr: Option<real>): (r: real)
    requires dpr.Some? ==> dpr.value > 0.0
    ensures 0.0 < r <= 2.0
    ensures dpr.None? ==> r == 1.0
    ensures dpr.Some? && dpr.value <= 2.0 ==> r == dpr.value
    ensures dpr.Some? && dpr.value >= 2.0 ==> r == 2.0
  {
    Min(if dpr.Some? then dpr.value else 1.0, 2.0)
  }

  /** `Math.round(css * dpr)`: one side of the canvas's backing store. */
  function BackingSize(css: real, dpr: Option<real>): (n: nat)
    requires css >= 0.0
    requires dpr.Some? ==> dpr.value > 0.0
    ensures Abs(n as real - css * EffectiveDpr(dpr)) <= 0.5
    ensures n as real <= 2.0 * css + 0.5
  {
    var d := EffectiveDpr(dpr);
    assert css * d >= 0.0;
    assert css * d <= 2.0 * css;
    Round(css * d)
  }

  /** `Math.max(cw / iw, ch / ih)` */
  function CoverScale(cw: nat, ch: nat, iw: nat, ih: nat): (s: real)
    requires iw > 0 && ih > 0
    ensures s >= 0.0
  {
    Max(cw as real / iw as real, ch as real / ih as real)
  }

  /** The scale is the smallest one at which the image covers the canvas:
      it covers, and every scale that covers is at least as large. */
  lemma CoverScaleIsLeast(cw: nat, ch: nat, iw: nat, ih: nat, s: real)
    requires iw > 0 && ih > 0
    ensures iw as real * CoverScale(cw, ch, iw, ih) >= cw as real
    ensures ih as real * CoverScale(cw, ch, iw, ih) >= ch as real
    ensures iw as real * s >= cw as real && ih as real * s >= ch as real ==> s >= CoverScale(cw, ch, iw, ih)
  {
    var a, b := cw as real / iw as real, ch as real / ih as real;
    assert iw as real * a == cw as real;
    assert ih as real * b == ch as real;
    if iw as real * s >= cw as real && ih as real * s >= ch as real {
      assert s >= a by { assert iw as real * (s - a) >= 0.0; }
      assert s >= b by { assert ih as real * (s - b) >= 0.0; }
    }
  }

  /** The placement `draw` computes: the image scaled by CoverScale, centred
      on both axes. It covers the whole canvas, fits it exactly on at least
      one axis, keeps the image's aspect ratio, and overhangs equally on the
      two sides of each axis. */
  function Cover(cw: nat, ch: nat, iw: nat, ih: nat): (r: Rect)
    requires iw > 0 && ih > 0
    ensures r.width >= cw as real && r.height >= ch as real
    ensures r.width == cw as real || r.height == ch as real
    ensures r.width * ih as real == r.height * iw as real
    ensures r.x <= 0.0 && r.y <= 0.0
    ensures r.x + r.width + r.x == cw as real && r.y + r.height + r.y == ch as real
  {
    var s := CoverScale(cw, ch, iw, ih);
    CoverScaleIsLeast(cw, ch, iw, ih, s);
    var w, h := iw as real * s, ih as real * s;
    assert w == cw as real || h == ch as real by {
      if s == cw as real / iw as real { assert w == cw as real; }
      else { assert h == ch as real; }
    }
    Rect((cw as real - w) / 2.0, (ch as real - h) / 2.0, w, h)
  }

  /** A 1920x1080 frame on an 800x1200 canvas fills the height exactly and is
      cropped left and right. */
  lemma LandscapeFrameOnPortraitCanvas()
    ensures Cover(800, 1200, 1920, 1080).height == 1200.0
    ensures Cover(800, 1200, 1920, 1080).width > 800.0
  {
    var s := CoverScale(800, 1200, 1920, 1080);
    assert 1200.0 / 1080.0 > 800.0 / 1920.0;
    assert s == 1200.0 / 1080.0;
  }
}
