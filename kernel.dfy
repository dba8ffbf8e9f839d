/**
 * The per-pair arithmetic of the 12-10-6 pair style: the force and energy
 * expressions shared by compute, compute_inner, compute_middle, compute_outer
 * and single, the cubic switching factors of the rRESPA shells, and the radial
 * window each routine accepts.  Everything is over `real`: the distance r is an
 * input with r * r == rsq, so no square root appears.
 */
module Kernel {
  import opened Wrappers
  import opened Arith

  /** lj1..lj6 and offset of one type pair, as init_one derives them. */
  datatype Derived = Derived(lj1: real, lj2: real, lj3: real, lj4: real, lj5: real, lj6: real, offset: real)

  function Abs(x: real): real { if x < 0.0 then -x else x }

  /** The value a routine adds to the force sum, zero when it skips the pair. */
  function Val(p: Option<real>): real { if p.Some? then p.value else 0.0 }

  /** forcelj: r6inv (lj1 r6inv - lj2 r2inv^2 + lj3), where r2inv = 1/rsq. */
  function ForceLJ(d: Derived, r2inv: real): real
  {
    var r6inv := r2inv * r2inv * r2inv;
    r6inv * (d.lj1 * r6inv - d.lj2 * r2inv * r2inv + d.lj3)
  }

  /** The unscaled pair energy r6inv (lj4 r6inv - lj5 r2inv^2 + lj6) - offset, where r2inv = 1/rsq. */
  function PhiLJ(d: Derived, r2inv: real): real
  {
    var r6inv := r2inv * r2inv * r2inv;
    r6inv * (d.lj4 * r6inv - d.lj5 * r2inv * r2inv + d.lj6) - d.offset
  }

  /** fpair = factor_lj * forcelj * r2inv: the scalar the separation vector del is multiplied by. */
  function Fpair(d: Derived, rsq: real, factor: real): real
    requires rsq != 0.0
  {
    factor * ForceLJ(d, 1.0 / rsq) * (1.0 / rsq)
  }

  /** evdwl: the pair energy, then scaled by the special-bond factor. */
  function Energy(d: Derived, rsq: real, factor: real): real
    requires rsq != 0.0
  {
    factor * PhiLJ(d, 1.0 / rsq)
  }

  /** A pair with zero force constants, or one whose special factor is zero, is inert. */
  lemma InertPair(d: Derived, rsq: real, factor: real)
    requires rsq != 0.0
    ensures (d.lj1 == 0.0 && d.lj2 == 0.0 && d.lj3 == 0.0) || factor == 0.0 ==> Fpair(d, rsq, factor) == 0.0
    ensures (d.lj4 == 0.0 && d.lj5 == 0.0 && d.lj6 == 0.0 && d.offset == 0.0) || factor == 0.0 ==>
              Energy(d, rsq, factor) == 0.0
  {
  }

  // ---------------------------------------------------------------------------
  // Cubic switching polynomials of the rRESPA shells

  /** compute_inner's fade-out, 1 - t^2 (3 - 2t). */
  function InnerFadeOut(t: real): (s: real)
    ensures t == 0.0 ==> s == 1.0
    ensures t == 1.0 ==> s == 0.0
    ensures 0.0 <= t <= 1.0 ==> 0.0 <= s <= 1.0
  {
    CubicBounds(t);
    1.0 - t * t * (3.0 - 2.0 * t)
  }

  /** The fade-in of compute_middle and compute_outer, t^2 (3 - 2t). */
  function FadeIn(t: real): (s: real)
    ensures t == 0.0 ==> s == 0.0
    ensures t == 1.0 ==> s == 1.0
    ensures 0.0 <= t <= 1.0 ==> 0.0 <= s <= 1.0
  {
    CubicBounds(t);
    t * t * (3.0 - 2.0 * t)
  }

  /** compute_middle's fade-out, 1 + t^2 (2t - 3). */
  function MiddleFadeOut(t: real): (s: real)
    ensures t == 0.0 ==> s == 1.0
    ensures t == 1.0 ==> s == 0.0
    ensures 0.0 <= t <= 1.0 ==> 0.0 <= s <= 1.0
  {
    CubicBounds(t);
    assert t * t * (2.0 * t - 3.0) == -(t * t * (3.0 - 2.0 * t));
    1.0 + t * t * (2.0 * t - 3.0)
  }

  /** Where the inner shell fades out the middle shell fades in, by the same amount. */
  lemma InnerMiddleHandOff(t: real)
    ensures InnerFadeOut(t) + FadeIn(t) == 1.0
  {
  }

  /** Where the middle shell fades out the outer shell fades in, by the same amount. */
  lemma MiddleOuterHandOff(t: real)
    ensures MiddleFadeOut(t) + FadeIn(t) == 1.0
  {
  }

  // ---------------------------------------------------------------------------
  // Radial windows

  /** Scaling by a factor in [0, 1] does not increase a magnitude. */
  lemma Attenuates(f: real, s: real)
    requires 0.0 <= s <= 1.0
    ensures Abs(f * s) <= Abs(f)
  {
    if f >= 0.0 {
      MulLe(s, 1.0, f);
      MulNonneg(s, f);
    } else {
      MulLe(s, 1.0, -f);
      MulNonneg(s, -f);
    }
  }

  /** A force scaled by a switching factor in [0, 1]: never larger in magnitude. */
  function Faded(f: real, s: real): (v: real)
    requires 0.0 <= s <= 1.0
    ensures Abs(v) <= Abs(f)
  {
    Attenuates(f, s);
    f * s
  }

  /** The four force routines of the pair style. */
  datatype Level = Full | Inner | Middle | Outer

  /**
   * The rRESPA radii cut_respa[0..3] each routine relies on: it divides by the
   * widths of the shells it switches over, so those must be positive.
   */
  predicate ShellsUsable(level: Level, cr: seq<real>)
  {
    match level
    case Full => true
    case Inner => |cr| == 4 && 0.0 <= cr[0] < cr[1]
    case Middle => |cr| == 4 && 0.0 <= cr[0] < cr[1] && 0.0 <= cr[2] < cr[3]
    case Outer => |cr| == 4 && 0.0 <= cr[2] < cr[3]
  }

  /** A distance r that goes with the squared distance rsq. */
  predicate IsDistance(r: real, rsq: real)
  {
    0.0 <= r && r * r == rsq && rsq > 0.0
  }

  /** compute: a pair contributes exactly when rsq < cutsq, with the unswitched force f. */
  function FullShell(f: real, cutsq: real, rsq: real): (p: Option<real>)
    ensures p.Some? <==> rsq < cutsq
    ensures p.Some? ==> p.value == f
  {
    if rsq < cutsq then Some(f) else None
  }

  /**
   * compute_inner: out_on = cut_respa[0], out_off = cut_respa[1].  The pair
   * contributes when r < out_off, with f itself up to out_on and f faded out
   * beyond.
   */
  function InnerShell(f: real, cr: seq<real>, rsq: real, r: real): (p: Option<real>)
    requires ShellsUsable(Inner, cr) && IsDistance(r, rsq)
    ensures p.Some? <==> r < cr[1]
    ensures p.Some? && r <= cr[0] ==> p.value == f
    ensures p.Some? ==> Abs(p.value) <= Abs(f)
  {
    SquareOrder(cr[0], r);
    SquareOrder(r, cr[1]);
    if rsq < cr[1] * cr[1] then
      if rsq > cr[0] * cr[0] then
        var t := (r - cr[0]) / (cr[1] - cr[0]);
        UnitInterval(r, cr[0], cr[1]);
        Some(Faded(f, InnerFadeOut(t)))
      else
        Some(f)
    else
      None
  }

  /** compute_middle's fade-in below in_on = cut_respa[1]. */
  function MiddleFadeInStep(f: real, cr: seq<real>, rsq: real, r: real): (v: real)
    requires ShellsUsable(Middle, cr) && IsDistance(r, rsq) && cr[0] < r
    ensures Abs(v) <= Abs(f)
    ensures cr[1] <= r ==> v == f
  {
    SquareOrder(r, cr[1]);
    if rsq < cr[1] * cr[1] then
      var t := (r - cr[0]) / (cr[1] - cr[0]);
      UnitInterval(r, cr[0], cr[1]);
      Faded(f, FadeIn(t))
    else
      f
  }

  /** compute_middle's fade-out above out_on = cut_respa[2]. */
  function MiddleFadeOutStep(f: real, cr: seq<real>, rsq: real, r: real): (v: real)
    requires ShellsUsable(Middle, cr) && IsDistance(r, rsq) && r < cr[3]
    ensures Abs(v) <= Abs(f)
    ensures r <= cr[2] ==> v == f
  {
    SquareOrder(cr[2], r);
    if rsq > cr[2] * cr[2] then
      var t := (r - cr[2]) / (cr[3] - cr[2]);
      UnitInterval(r, cr[2], cr[3]);
      Faded(f, MiddleFadeOut(t))
    else
      f
  }

  /**
   * compute_middle: in_off, in_on, out_on, out_off = cut_respa[0..3].  The pair
   * contributes when in_off < r < out_off, with f faded in below in_on and
   * faded out above out_on.
   */
  function MiddleShell(f: real, cr: seq<real>, rsq: real, r: real): (p: Option<real>)
    requires ShellsUsable(Middle, cr) && IsDistance(r, rsq)
    ensures p.Some? <==> cr[0] < r < cr[3]
    ensures p.Some? && cr[1] <= r <= cr[2] ==> p.value == f
    ensures p.Some? ==> Abs(p.value) <= Abs(f)
  {
    SquareOrder(r, cr[3]);
    SquareOrder(cr[0], r);
    if rsq < cr[3] * cr[3] && rsq > cr[0] * cr[0] then
      Some(MiddleFadeOutStep(MiddleFadeInStep(f, cr, rsq, r), cr, rsq, r))
    else
      None
  }

  /**
   * compute_outer's force branch: in_off = cut_respa[2], in_on = cut_respa[3].
   * The pair contributes when rsq < cutsq and r > in_off, with f faded in
   * below in_on.
   */
  function OuterShell(f: real, cutsq: real, cr: seq<real>, rsq: real, r: real): (p: Option<real>)
    requires ShellsUsable(Outer, cr) && IsDistance(r, rsq)
    ensures p.Some? <==> rsq < cutsq && cr[2] < r
    ensures p.Some? && cr[3] <= r ==> p.value == f
    ensures p.Some? ==> Abs(p.value) <= Abs(f)
  {
    SquareOrder(cr[2], r);
    SquareOrder(r, cr[3]);
    if rsq < cutsq then
      if rsq > cr[2] * cr[2] then
        if rsq < cr[3] * cr[3] then
          var t := (r - cr[2]) / (cr[3] - cr[2]);
          UnitInterval(r, cr[2], cr[3]);
          Some(Faded(f, FadeIn(t)))
        else
          Some(f)
      else
        None
    else
      None
  }

  /**
   * The fpair compute_outer hands to the virial tally when vflag is set, for a
   * pair inside the cutoff: recomputed from scratch up to in_off, recomputed
   * from forcelj and r2inv of the force branch below in_on, and left as the
   * force branch computed it beyond.  In every case it is the unswitched force.
   */
  function OuterVirialFpair(d: Derived, cutsq: real, cr: seq<real>, rsq: real, r: real, factor: real): (v: real)
    requires ShellsUsable(Outer, cr) && IsDistance(r, rsq) && rsq < cutsq
    ensures v == Fpair(d, rsq, factor)
  {
    SquareOrder(cr[2], r);
    SquareOrder(r, cr[3]);
    if rsq <= cr[2] * cr[2] then
      Fpair(d, rsq, factor)
    else if rsq < cr[3] * cr[3] then
      factor * ForceLJ(d, 1.0 / rsq) * (1.0 / rsq)
    else
      OuterShell(Fpair(d, rsq, factor), cutsq, cr, rsq, r).value
  }

  /** The fpair each routine adds for a pair of coefficients d, or None when it skips the pair. */
  function LevelFpair(level: Level, d: Derived, cutsq: real, cr: seq<real>, rsq: real, r: real, factor: real): Option<real>
    requires ShellsUsable(level, cr) && IsDistance(r, rsq)
  {
    var f := Fpair(d, rsq, factor);
    match level
    case Full => FullShell(f, cutsq, rsq)
    case Inner => InnerShell(f, cr, rsq, r)
    case Middle => MiddleShell(f, cr, rsq, r)
    case Outer => OuterShell(f, cutsq, cr, rsq, r)
  }

  /** Between out_on and out_off compute_inner hands back f faded out. */
  lemma InnerSwitching(f: real, cr: seq<real>, rsq: real, r: real)
    requires ShellsUsable(Inner, cr) && IsDistance(r, rsq) && cr[0] < r < cr[1]
    ensures 0.0 <= (r - cr[0]) / (cr[1] - cr[0]) <= 1.0
    ensures InnerShell(f, cr, rsq, r) == Some(Faded(f, InnerFadeOut((r - cr[0]) / (cr[1] - cr[0]))))
  {
    SquareOrder(cr[0], r);
    SquareOrder(r, cr[1]);
    UnitInterval(r, cr[0], cr[1]);
  }

  /** Between in_off and in_on compute_middle hands back f faded in. */
  lemma MiddleSwitchingIn(f: real, cr: seq<real>, rsq: real, r: real)
    requires ShellsUsable(Middle, cr) && cr[1] <= cr[2] && IsDistance(r, rsq) && cr[0] < r < cr[1]
    ensures 0.0 <= (r - cr[0]) / (cr[1] - cr[0]) <= 1.0
    ensures MiddleShell(f, cr, rsq, r) == Some(Faded(f, FadeIn((r - cr[0]) / (cr[1] - cr[0]))))
  {
    SquareOrder(r, cr[3]);
    SquareOrder(cr[0], r);
    SquareOrder(r, cr[1]);
    SquareOrder(cr[2], r);
    UnitInterval(r, cr[0], cr[1]);
    var v := MiddleFadeInStep(f, cr, rsq, r);
    assert v == Faded(f, FadeIn((r - cr[0]) / (cr[1] - cr[0])));
    assert MiddleFadeOutStep(v, cr, rsq, r) == v;
  }

  /** Between out_on and out_off compute_middle hands back f faded out. */
  lemma MiddleSwitchingOut(f: real, cr: seq<real>, rsq: real, r: real)
    requires ShellsUsable(Middle, cr) && cr[1] <= cr[2] && IsDistance(r, rsq) && cr[2] < r < cr[3]
    ensures 0.0 <= (r - cr[2]) / (cr[3] - cr[2]) <= 1.0
    ensures MiddleShell(f, cr, rsq, r) == Some(Faded(f, MiddleFadeOut((r - cr[2]) / (cr[3] - cr[2]))))
  {
    SquareOrder(r, cr[3]);
    SquareOrder(cr[0], r);
    SquareOrder(r, cr[1]);
    SquareOrder(cr[2], r);
    UnitInterval(r, cr[2], cr[3]);
    assert MiddleFadeInStep(f, cr, rsq, r) == f;
  }

  /** Between in_off and in_on compute_outer hands back f faded in. */
  lemma OuterSwitching(f: real, cutsq: real, cr: seq<real>, rsq: real, r: real)
    requires ShellsUsable(Outer, cr) && IsDistance(r, rsq) && rsq < cutsq && cr[2] < r < cr[3]
    ensures 0.0 <= (r - cr[2]) / (cr[3] - cr[2]) <= 1.0
    ensures OuterShell(f, cutsq, cr, rsq, r) == Some(Faded(f, FadeIn((r - cr[2]) / (cr[3] - cr[2]))))
  {
    SquareOrder(cr[2], r);
    SquareOrder(r, cr[3]);
    UnitInterval(r, cr[2], cr[3]);
  }

  /** A force scaled by two switching factors that add up to one adds back up to the force. */
  lemma FadeSum(f: real, s: real, u: real)
    requires 0.0 <= s <= 1.0 && 0.0 <= u <= 1.0 && s + u == 1.0
    ensures Faded(f, s) + Faded(f, u) == f
  {
    assert f * s + f * u == f * (s + u);
  }

  /** Inside the inner/middle switching zone the two fades add back up to f. */
  lemma InnerMiddleZone(f: real, cr: seq<real>, rsq: real, r: real)
    requires |cr| == 4 && 0.0 <= cr[0] < cr[1] <= cr[2] < cr[3]
    requires IsDistance(r, rsq) && cr[0] < r < cr[1]
    ensures Val(InnerShell(f, cr, rsq, r)) + Val(MiddleShell(f, cr, rsq, r)) == f
  {
    var t := (r - cr[0]) / (cr[1] - cr[0]);
    InnerSwitching(f, cr, rsq, r);
    MiddleSwitchingIn(f, cr, rsq, r);
    InnerMiddleHandOff(t);
    FadeSum(f, InnerFadeOut(t), FadeIn(t));
  }

  /** Inside the middle/outer switching zone the two fades add back up to f. */
  lemma MiddleOuterZone(f: real, cutsq: real, cr: seq<real>, rsq: real, r: real)
    requires |cr| == 4 && 0.0 <= cr[0] < cr[1] <= cr[2] < cr[3]
    requires IsDistance(r, rsq) && rsq < cutsq && cr[2] < r < cr[3]
    ensures Val(MiddleShell(f, cr, rsq, r)) + Val(OuterShell(f, cutsq, cr, rsq, r)) == f
  {
    var t := (r - cr[2]) / (cr[3] - cr[2]);
    MiddleSwitchingOut(f, cr, rsq, r);
    OuterSwitching(f, cutsq, cr, rsq, r);
    MiddleOuterHandOff(t);
    FadeSum(f, MiddleFadeOut(t), FadeIn(t));
  }

  /** Inside the inner/outer switching zone of a two-level split the two fades add back up to f. */
  lemma InnerOuterZone(f: real, cutsq: real, cr: seq<real>, rsq: real, r: real)
    requires |cr| == 4 && 0.0 <= cr[0] < cr[1] && cr[2] == cr[0] && cr[3] == cr[1]
    requires IsDistance(r, rsq) && rsq < cutsq && cr[0] < r < cr[1]
    ensures Val(InnerShell(f, cr, rsq, r)) + Val(OuterShell(f, cutsq, cr, rsq, r)) == f
  {
    var t := (r - cr[0]) / (cr[1] - cr[0]);
    InnerSwitching(f, cr, rsq, r);
    OuterSwitching(f, cutsq, cr, rsq, r);
    InnerMiddleHandOff(t);
    FadeSum(f, InnerFadeOut(t), FadeIn(t));
  }

  /**
   * Three-level rRESPA splits a force without loss or double counting: for
   * shells 0 <= in_off < in_on <= out_on < out_off no farther out than the
   * pair cutoff, the inner, middle and outer contributions add up to what
   * compute gives.
   */
  lemma ThreeLevelSplit(f: real, cutsq: real, cr: seq<real>, rsq: real, r: real)
    requires |cr| == 4 && 0.0 <= cr[0] < cr[1] <= cr[2] < cr[3]
    requires cr[3] * cr[3] <= cutsq
    requires IsDistance(r, rsq)
    ensures Val(InnerShell(f, cr, rsq, r)) + Val(MiddleShell(f, cr, rsq, r)) + Val(OuterShell(f, cutsq, cr, rsq, r))
            == Val(FullShell(f, cutsq, rsq))
  {
    if r < cr[3] {
      SquareLess(r, cr[3]);
    }
    if cr[0] < r < cr[1] {
      InnerMiddleZone(f, cr, rsq, r);
    } else if cr[2] < r < cr[3] {
      MiddleOuterZone(f, cutsq, cr, rsq, r);
    }
  }

  /**
   * Two-level rRESPA (no middle level, so cut_respa[2..3] repeat
   * cut_respa[0..1]): the inner and outer contributions add up to compute's.
   */
  lemma TwoLevelSplit(f: real, cutsq: real, cr: seq<real>, rsq: real, r: real)
    requires |cr| == 4 && 0.0 <= cr[0] < cr[1] && cr[2] == cr[0] && cr[3] == cr[1]
    requires cr[1] * cr[1] <= cutsq
    requires IsDistance(r, rsq)
    ensures Val(InnerShell(f, cr, rsq, r)) + Val(OuterShell(f, cutsq, cr, rsq, r)) == Val(FullShell(f, cutsq, rsq))
  {
    if r < cr[1] {
      SquareLess(r, cr[1]);
    }
    if cr[0] < r < cr[1] {
      InnerOuterZone(f, cutsq, cr, rsq, r);
    }
  }

  /** What single returns: the pair energy, and the force through fforce. */
  datatype SingleResult = SingleResult(energy: real, fforce: real)

  /**
   * single: the same force and energy expressions compute uses, without a
   * cutoff test of its own; fforce is the fpair compute adds for the pair.
   */
  function Single(d: Derived, rsq: real, factor: real): (s: SingleResult)
    requires rsq > 0.0
    ensures s.fforce == Fpair(d, rsq, factor)
    ensures s.energy == Energy(d, rsq, factor)
  {
    var r2inv := 1.0 / rsq;
    var forcelj := ForceLJ(d, r2inv);
    var philj := PhiLJ(d, r2inv);
    SingleResult(factor * philj, factor * forcelj * r2inv)
  }
}
