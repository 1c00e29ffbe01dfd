/** The playback arithmetic: scroll progress to target frame, the per-tick
    exponential smoothing of the current frame, the convergence test that
    lets the loop go idle, and the frame index that gets painted. */
module Smoothing {
  import opened ScrollMath
  import opened FrameAddress

  const LerpFactor: real := 0.072
  const LerpEpsilon: real := 0.008

  /** Highest frame index, as a real: `TOTAL_FRAMES - 1`. */
  const LastFrame: real := (TotalFrames - 1) as real

  /** The least amount by which one unsettled tick shrinks the distance to
      the target: `LerpFactor * LerpEpsilon`. */
  const Quantum: real := LerpFactor * LerpEpsilon

  /** `p * (TOTAL_FRAMES - 1)` */
  function TargetFrame(p: real): (f: real)
    requires 0.0 <= p <= 1.0
    ensures 0.0 <= f <= LastFrame
    ensures p == 0.0 ==> f == 0.0
    ensures p == 1.0 ==> f == LastFrame
  {
    p * LastFrame
  }

  lemma TargetFrameMonotone(p: real, q: real)
    requires 0.0 <= p <= q <= 1.0
    ensures TargetFrame(p) <= TargetFrame(q)
  {
    assert TargetFrame(q) - TargetFrame(p) == (q - p) * LastFrame;
  }

  /** The target frame a scroll event sets, when it sets one. */
  function ScrollTarget(scrollY: real, scrollHeight: real, innerHeight: real): (t: Option<real>)
    ensures t.None? <==> scrollHeight - innerHeight <= 0.0
    ensures t.Some? ==> 0.0 <= t.value <= LastFrame
    ensures t.Some? && scrollY <= 0.0 ==> t.value == 0.0
    ensures t.Some? && scrollY >= scrollHeight - innerHeight ==> t.value == LastFrame
  {
    match ScrollProgress(scrollY, scrollHeight, innerHeight)
    case None => None
    case Some(p) => Some(TargetFrame(p))
  }

  /** Scrolling further down never moves the target back. */
  lemma ScrollTargetMonotone(y1: real, y2: real, scrollHeight: real, innerHeight: real)
    requires y1 <= y2
    requires scrollHeight - innerHeight > 0.0
    ensures ScrollTarget(y1, scrollHeight, innerHeight).value <= ScrollTarget(y2, scrollHeight, innerHeight).value
  {
    ScrollProgressMonotone(y1, y2, scrollHeight, innerHeight);
    TargetFrameMonotone(ScrollProgress(y1, scrollHeight, innerHeight).value,
                        ScrollProgress(y2, scrollHeight, innerHeight).value);
  }

  /** The tick's convergence test: the loop snaps and stops when true. */
  predicate Settled(current: real, target: real)
    ensures current == target ==> Settled(current, target)
  {
    Abs(target - current) < LerpEpsilon
  }

  /** One unsettled tick: `current += (target - current) * LERP_FACTOR`. The
      new value lies between the old one and the target, and the distance to
      the target shrinks to (1 - LerpFactor) of what it was. */
  function Lerp(current: real, target: real): (r: real)
    ensures Min(current, target) <= r <= Max(current, target)
    ensures Abs(target - r) == (1.0 - LerpFactor) * Abs(target - current)
  {
    current + (target - current) * LerpFactor
  }

  /** The progress a tick publishes, `currentFrame / (TOTAL_FRAMES - 1)`
      clamped to [0,1], is the unclamped ratio for every frame position in
      range: 0 at the first frame and 1 at the last. */
  lemma PublishedProgress(current: real)
    requires 0.0 <= current <= LastFrame
    ensures Clamp01(current / LastFrame) == current / LastFrame
    ensures current == 0.0 ==> Clamp01(current / LastFrame) == 0.0
    ensures current == LastFrame ==> Clamp01(current / LastFrame) == 1.0
  {
    assert LastFrame == 191.0;
    assert current / 191.0 <= 1.0;
  }

  /** The index a tick paints:
      `Math.min(Math.max(Math.round(current), 0), TOTAL_FRAMES - 1)`. */
  function FrameIndex(current: real): (i: nat)
    ensures i < TotalFrames
    ensures 0.0 <= current <= LastFrame ==> i == Round(current)
    ensures 0.0 <= current <= LastFrame ==> Abs(i as real - current) <= 0.5
  {
    var r := Round(current);
    if r < 0 then 0 else if r > TotalFrames - 1 then TotalFrames - 1 else r
  }

  /** Where the current frame is after n unsettled ticks. */
  function LerpN(current: real, target: real, n: nat): real
    decreases n
  {
    if n == 0 then current else LerpN(Lerp(current, target), target, n - 1)
  }

  function Pow(base: real, n: nat): real
  {
    if n == 0 then 1.0 else base * Pow(base, n - 1)
  }

  /** The distance to the target decays geometrically, keeping its sign:
      after n unsettled ticks it is (1 - LerpFactor)^n of the initial one. */
  lemma {:induction false} GeometricDecay(current: real, target: real, n: nat)
    ensures target - LerpN(current, target, n) == Pow(1.0 - LerpFactor, n) * (target - current)
    decreases n
  {
    if n > 0 {
      var q := 1.0 - LerpFactor;
      var next := Lerp(current, target);
      assert target - next == q * (target - current);
      assert LerpN(current, target, n) == LerpN(next, target, n - 1);
      assert Pow(q, n) == q * Pow(q, n - 1);
      GeometricDecay(next, target, n - 1);
      ScaleTwice(Pow(q, n - 1), q, target - current, target - next);
    }
  }

  lemma ScaleTwice(p: real, q: real, a: real, b: real)
    requires b == q * a
    ensures p * b == (q * p) * a
  {
  }

  /** The measure that bounds the number of unsettled ticks. */
  function TickMeasure(current: real, target: real): nat
  {
    (Abs(target - current) / Quantum).Floor
  }

  /** An unsettled tick lowers the measure by at least one. */
  lemma UnsettledTickProgress(current: real, target: real)
    requires !Settled(current, target)
    ensures TickMeasure(Lerp(current, target), target) < TickMeasure(current, target)
  {
    var d := Abs(target - current);
    var d' := Abs(target - Lerp(current, target));
    assert d' <= d - Quantum by {
      assert d' == d - LerpFactor * d;
      assert LerpFactor * d >= LerpFactor * LerpEpsilon;
    }
    assert d' / Quantum <= d / Quantum - 1.0 by {
      assert d / Quantum - d' / Quantum == (d - d') / Quantum;
    }
  }

  /** How many unsettled ticks pass, with the target fixed, before a tick
      finds the current frame settled (that tick snaps and stops the loop). */
  function TicksToSettle(current: real, target: real): (n: nat)
    ensures n == 0 <==> Settled(current, target)
    decreases TickMeasure(current, target)
  {
    if Settled(current, target) then 0
    else
      UnsettledTickProgress(current, target);
      1 + TicksToSettle(Lerp(current, target), target)
  }

  /** After TicksToSettle unsettled ticks the frame is settled, and it is not
      settled at any earlier tick: the loop runs exactly that long. */
  lemma {:induction false} SettlesExactlyThen(current: real, target: real)
    ensures Settled(LerpN(current, target, TicksToSettle(current, target)), target)
    ensures forall k :: 0 <= k < TicksToSettle(current, target) ==> !Settled(LerpN(current, target, k), target)
    decreases TickMeasure(current, target)
  {
    if !Settled(current, target) {
      var next := Lerp(current, target);
      UnsettledTickProgress(current, target);
      SettlesExactlyThen(next, target);
      forall k | 0 <= k < TicksToSettle(current, target)
        ensures !Settled(LerpN(current, target, k), target)
      {
        if k > 0 {
          assert LerpN(current, target, k) == LerpN(next, target, k - 1);
        }
      }
    }
  }

  /** The number of unsettled ticks is bounded by the initial distance over
      Quantum, so the loop always goes idle. */
  lemma {:induction false} TicksToSettleBound(current: real, target: real)
    ensures TicksToSettle(current, target) <= TickMeasure(current, target)
    decreases TickMeasure(current, target)
  {
    if !Settled(current, target) {
      UnsettledTickProgress(current, target);
      TicksToSettleBound(Lerp(current, target), target);
    }
  }

  lemma {:induction false} PowNonNegative(base: real, n: nat)
    requires base >= 0.0
    ensures Pow(base, n) >= 0.0
  {
    if n > 0 {
      PowNonNegative(base, n - 1);
    }
  }

  lemma AbsScale(q: real, x: real)
    requires q >= 0.0
    ensures Abs(q * x) == q * Abs(x)
  {
    if x < 0.0 {
      assert q * x == -(q * -x);
    }
  }

  /** Unsigned form of the decay: after n unsettled ticks the distance to
      the target is (1 - LerpFactor)^n of the initial distance. */
  lemma DistanceAfter(current: real, target: real, n: nat)
    ensures Abs(target - LerpN(current, target, n)) == Pow(1.0 - LerpFactor, n) * Abs(target - current)
  {
    GeometricDecay(current, target, n);
    PowNonNegative(1.0 - LerpFactor, n);
    AbsScale(Pow(1.0 - LerpFactor, n), target - current);
  }

  /** The logarithmic bound: once (1 - LerpFactor)^n times the initial
      distance is below the epsilon, at most n unsettled ticks remain, so the
      loop idles after about log(epsilon / distance) / log(1 - LerpFactor)
      ticks. */
  lemma TicksToSettleLogBound(current: real, target: real, n: nat)
    requires Pow(1.0 - LerpFactor, n) * Abs(target - current) < LerpEpsilon
    ensures TicksToSettle(current, target) <= n
  {
    DistanceAfter(current, target, n);
    assert Settled(LerpN(current, target, n), target);
    SettlesExactlyThen(current, target);
  }
}
