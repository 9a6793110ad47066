/** Easing curves and linear interpolation used by the tween scheduler.
    All arithmetic is on exact reals. */
module Easing {
  import opened RealArith

  /** The "backout" curve with overshoot `amount`: the argument is first
      decremented, so with u = t - 1 the value is u*u*((amount+1)*u + amount) + 1.
      It starts at 0, ends at 1, and for t close to 1 rises above 1 before
      settling back (the bounce of a stopping reel). */
  function Backout(amount: real, t: real): (r: real)
    ensures t == 0.0 ==> r == 0.0
    ensures t == 1.0 ==> r == 1.0
  {
    var u := t - 1.0;
    u * u * ((amount + 1.0) * u + amount) + 1.0
  }

  /** Linear blend from `a1` (at t = 0) to `a2` (at t = 1); `t` is not clamped. */
  function Lerp(a1: real, a2: real, t: real): (r: real)
    ensures t == 0.0 ==> r == a1
    ensures t == 1.0 ==> r == a2
    ensures r - a1 == (a2 - a1) * t
  {
    a1 * (1.0 - t) + a2 * t
  }

  /** The easing curves a tween can carry. The animation only ever builds
      backout curves, so this is the one kind there is. */
  datatype Curve = BackoutCurve(amount: real)
  {
    function Apply(t: real): real
    {
      match this
      case BackoutCurve(a) => Backout(a, t)
    }
  }

  /** Written with s = 1 - t, backout is 1 - s^3 + amount * s^2 * (1 - s). */
  lemma BackoutInTermsOfRemaining(amount: real, t: real)
    ensures Backout(amount, t)
         == 1.0 - (1.0 - t) * (1.0 - t) * (1.0 - t)
            + amount * (1.0 - t) * (1.0 - t) * t
  {
  }

  /** On [0, 1] and for a non-negative overshoot, backout never goes below 0
      and never above 1 + 4 * amount / 27 (the largest value of s^2 * (1 - s)
      on [0, 1] is 4/27, reached at s = 2/3). */
  lemma BackoutBounds(amount: real, t: real)
    requires amount >= 0.0
    requires 0.0 <= t <= 1.0
    ensures 0.0 <= Backout(amount, t) <= 1.0 + amount * 4.0 / 27.0
  {
    var s := 1.0 - t;
    BackoutInTermsOfRemaining(amount, t);
    // 0 <= s^3 <= 1
    MulNonNegative(s, s);
    MulNonNegative(s * s, 1.0 - s);
    assert s * s * s <= s * s;
    MulNonNegative(s, 1.0 - s);
    assert s * s <= s;
    // 0 <= s^2 * (1 - s) <= 4/27, since 4/27 - s^2 + s^3 == (s - 2/3)^2 * (s + 1/3)
    var w := s * s * t;
    MulNonNegative(s * s, t);
    var d := s - 2.0 / 3.0;
    assert 4.0 / 27.0 - w == d * d * (s + 1.0 / 3.0);
    MulNonNegative(d * d, s + 1.0 / 3.0);
    assert w <= 4.0 / 27.0;
    MulNonNegative(amount, w);
    MulNonNegative(amount, 4.0 / 27.0 - w);
    MulNonNegative(s * s, s);
    assert amount * (s * s * t) == amount * w;
    assert amount * 4.0 / 27.0 == amount * (4.0 / 27.0);
  }

  /** The overshoot is real: with the amount 0.5 used for the reels, the
      curve exceeds 1 before the end (its largest value is 1 + 6/729, at t = 7/9). */
  lemma BackoutOvershoots()
    ensures Backout(0.5, 7.0 / 9.0) == 1.0 + 6.0 / 729.0
    ensures Backout(0.5, 7.0 / 9.0) > 1.0
  {
  }

  /** Interpolation with an eased value above 1 goes past the end value, in
      the direction of travel: the overshoot reaches the tweened property. */
  lemma LerpOvershoot(a1: real, a2: real, t: real)
    requires a1 < a2
    requires t > 1.0
    ensures Lerp(a1, a2, t) > a2
  {
    assert Lerp(a1, a2, t) - a2 == (a2 - a1) * (t - 1.0);
    MulPositive(a2 - a1, t - 1.0);
  }

  /** For a non-negative eased value the interpolation never falls below
      its start when it moves upwards. */
  lemma LerpAbove(a1: real, a2: real, t: real)
    requires a1 <= a2
    requires t >= 0.0
    ensures a1 <= Lerp(a1, a2, t)
  {
    MulNonNegative(a2 - a1, t);
  }
}
