/**
 * What one sweep of a compute routine over a neighbor list adds to the
 * force array, as a sequence of pair contributions.  The routines take the
 * derived coefficients of every type pair (the force uses lj1..lj3) and the
 * rRESPA cutoffs as values here, so that the specification does not depend
 * on the heap.
 */
module Sweep {
  import opened Wrappers
  import opened Kernel
  import opened Accumulate

  /** One entry of a neighbor list: the neighbor j (already masked) and its special factor_lj. */
  datatype Neighbor = Neighbor(j: nat, factor: real)

  /** One atom of a neighbor list and its neighbors. */
  datatype Site = Site(i: nat, neighbors: seq<Neighbor>)

  /** A square table of derived coefficients indexed 0..ntypes in both dimensions. */
  predicate Grid(coeffs: seq<seq<Derived>>)
  {
    forall p :: 0 <= p < |coeffs| ==> |coeffs[p]| == |coeffs|
  }

  /**
   * Both atoms have a position and a type in 1..ntypes, they are at a
   * positive distance, and sqrt gives that distance from rsq.
   */
  predicate PairOk(x: seq<Vec3>, types: seq<nat>, ntypes: nat, sqrt: real -> real, i: nat, j: nat)
  {
    |types| == |x| && i < |x| && j < |x| && 1 <= types[i] <= ntypes && 1 <= types[j] <= ntypes &&
    IsDistance(sqrt(NormSq(Sub(x[i], x[j]))), NormSq(Sub(x[i], x[j])))
  }

  /** Atom i and every neighbor of nbs are PairOk (stated neighbor by neighbor from the end). */
  predicate NeighborsOk(x: seq<Vec3>, types: seq<nat>, ntypes: nat, sqrt: real -> real, i: nat, nbs: seq<Neighbor>)
  {
    |nbs| == 0 ||
    (NeighborsOk(x, types, ntypes, sqrt, i, nbs[..|nbs| - 1]) && PairOk(x, types, ntypes, sqrt, i, nbs[|nbs| - 1].j))
  }

  lemma {:induction false} NeighborsOkAt(x: seq<Vec3>, types: seq<nat>, ntypes: nat, sqrt: real -> real, i: nat, nbs: seq<Neighbor>, m: nat)
    requires NeighborsOk(x, types, ntypes, sqrt, i, nbs) && m < |nbs|
    ensures PairOk(x, types, ntypes, sqrt, i, nbs[m].j)
    decreases |nbs|
  {
    if m < |nbs| - 1 {
      NeighborsOkAt(x, types, ntypes, sqrt, i, nbs[..|nbs| - 1], m);
    }
  }

  predicate SiteOk(x: seq<Vec3>, types: seq<nat>, ntypes: nat, sqrt: real -> real, i: nat, nbs: seq<Neighbor>)
  {
    |types| == |x| && i < |x| && 1 <= types[i] <= ntypes && NeighborsOk(x, types, ntypes, sqrt, i, nbs)
  }

  /** Every site of the list is SiteOk (stated site by site from the end, like AllFit). */
  predicate ListOk(x: seq<Vec3>, types: seq<nat>, ntypes: nat, sqrt: real -> real, list: seq<Site>)
  {
    |list| == 0 ||
    (ListOk(x, types, ntypes, sqrt, list[..|list| - 1]) &&
     SiteOk(x, types, ntypes, sqrt, list[|list| - 1].i, list[|list| - 1].neighbors))
  }

  lemma {:induction false} ListOkAt(x: seq<Vec3>, types: seq<nat>, ntypes: nat, sqrt: real -> real, list: seq<Site>, k: nat)
    requires ListOk(x, types, ntypes, sqrt, list) && k < |list|
    ensures SiteOk(x, types, ntypes, sqrt, list[k].i, list[k].neighbors)
    decreases |list|
  {
    if k < |list| - 1 {
      ListOkAt(x, types, ntypes, sqrt, list[..|list| - 1], k);
    }
  }

  /** What a compute routine of the given level relies on: a table of coefficients and usable cut_respa shells. */
  predicate Ready(level: Level, coeffs: seq<seq<Derived>>, cr: seq<real>)
  {
    |coeffs| > 0 && Grid(coeffs) && ShellsUsable(level, cr)
  }

  /**
   * What the routine of the given level adds for atom i and one neighbor:
   * one contribution when the pair is inside the routine's window, nothing
   * otherwise.
   */
  function PairContribution(level: Level, coeffs: seq<seq<Derived>>, cr: seq<real>, x: seq<Vec3>, types: seq<nat>,
                            cutsq: (nat, nat) -> real, sqrt: real -> real, i: nat, nb: Neighbor): (cs: seq<Contribution>)
    requires Ready(level, coeffs, cr) && PairOk(x, types, |coeffs| - 1, sqrt, i, nb.j)
    ensures |cs| <= 1 && AllFit(cs, |x|)
    ensures forall k :: 0 <= k < |cs| ==> cs[k].i == i && cs[k].j == nb.j && cs[k].del == Sub(x[i], x[nb.j])
    ensures var rsq := NormSq(Sub(x[i], x[nb.j]));
            var p := LevelFpair(level, coeffs[types[i]][types[nb.j]], cutsq(types[i], types[nb.j]), cr, rsq, sqrt(rsq), nb.factor);
            (|cs| == 1 <==> p.Some?) && (|cs| == 1 ==> cs[0].fpair == p.value)
  {
    var del := Sub(x[i], x[nb.j]);
    var rsq := NormSq(del);
    var itype, jtype := types[i], types[nb.j];
    var p := LevelFpair(level, coeffs[itype][jtype], cutsq(itype, jtype), cr, rsq, sqrt(rsq), nb.factor);
    if p.Some? then [Contribution(i, nb.j, del, p.value)] else []
  }

  /** The contributions of atom i with its first k neighbors, in list order. */
  function SiteContributions(level: Level, coeffs: seq<seq<Derived>>, cr: seq<real>, x: seq<Vec3>, types: seq<nat>,
                             cutsq: (nat, nat) -> real, sqrt: real -> real, i: nat, nbs: seq<Neighbor>, k: nat): (cs: seq<Contribution>)
    requires Ready(level, coeffs, cr) && SiteOk(x, types, |coeffs| - 1, sqrt, i, nbs) && k <= |nbs|
    ensures AllFit(cs, |x|)
  {
    if k == 0 then []
    else
      NeighborsOkAt(x, types, |coeffs| - 1, sqrt, i, nbs, k - 1);
      var init := SiteContributions(level, coeffs, cr, x, types, cutsq, sqrt, i, nbs, k - 1);
      var last := PairContribution(level, coeffs, cr, x, types, cutsq, sqrt, i, nbs[k - 1]);
      AllFitAppend(init, last, |x|);
      init + last
  }

  /** The contributions of the first k atoms of a neighbor list, in list order. */
  function ListContributions(level: Level, coeffs: seq<seq<Derived>>, cr: seq<real>, x: seq<Vec3>, types: seq<nat>,
                             cutsq: (nat, nat) -> real, sqrt: real -> real, list: seq<Site>, k: nat): (cs: seq<Contribution>)
    requires Ready(level, coeffs, cr) && ListOk(x, types, |coeffs| - 1, sqrt, list) && k <= |list|
    ensures AllFit(cs, |x|)
  {
    if k == 0 then []
    else
      ListOkAt(x, types, |coeffs| - 1, sqrt, list, k - 1);
      var init := ListContributions(level, coeffs, cr, x, types, cutsq, sqrt, list, k - 1);
      var last := SiteContributions(level, coeffs, cr, x, types, cutsq, sqrt, list[k - 1].i, list[k - 1].neighbors, |list[k - 1].neighbors|);
      AllFitAppend(init, last, |x|);
      init + last
  }

  /** Before the first neighbor and before the first atom nothing has been contributed. */
  lemma NoneYet(level: Level, coeffs: seq<seq<Derived>>, cr: seq<real>, x: seq<Vec3>, types: seq<nat>,
                cutsq: (nat, nat) -> real, sqrt: real -> real, i: nat, nbs: seq<Neighbor>, list: seq<Site>)
    requires Ready(level, coeffs, cr)
    ensures SiteOk(x, types, |coeffs| - 1, sqrt, i, nbs) ==> SiteContributions(level, coeffs, cr, x, types, cutsq, sqrt, i, nbs, 0) == []
    ensures ListOk(x, types, |coeffs| - 1, sqrt, list) ==> ListContributions(level, coeffs, cr, x, types, cutsq, sqrt, list, 0) == []
  {
  }

  /** One more neighbor adds its PairContribution. */
  lemma SiteContributionsNext(level: Level, coeffs: seq<seq<Derived>>, cr: seq<real>, x: seq<Vec3>, types: seq<nat>,
                              cutsq: (nat, nat) -> real, sqrt: real -> real, i: nat, nbs: seq<Neighbor>, k: nat)
    requires Ready(level, coeffs, cr) && SiteOk(x, types, |coeffs| - 1, sqrt, i, nbs) && k < |nbs|
    ensures PairOk(x, types, |coeffs| - 1, sqrt, i, nbs[k].j)
    ensures SiteContributions(level, coeffs, cr, x, types, cutsq, sqrt, i, nbs, k + 1) ==
            SiteContributions(level, coeffs, cr, x, types, cutsq, sqrt, i, nbs, k) +
            PairContribution(level, coeffs, cr, x, types, cutsq, sqrt, i, nbs[k])
  {
    NeighborsOkAt(x, types, |coeffs| - 1, sqrt, i, nbs, k);
  }

  /** One more atom adds its SiteContributions. */
  lemma ListContributionsNext(level: Level, coeffs: seq<seq<Derived>>, cr: seq<real>, x: seq<Vec3>, types: seq<nat>,
                              cutsq: (nat, nat) -> real, sqrt: real -> real, list: seq<Site>, k: nat)
    requires Ready(level, coeffs, cr) && ListOk(x, types, |coeffs| - 1, sqrt, list) && k < |list|
    ensures SiteOk(x, types, |coeffs| - 1, sqrt, list[k].i, list[k].neighbors)
    ensures ListContributions(level, coeffs, cr, x, types, cutsq, sqrt, list, k + 1) ==
            ListContributions(level, coeffs, cr, x, types, cutsq, sqrt, list, k) +
            SiteContributions(level, coeffs, cr, x, types, cutsq, sqrt, list[k].i, list[k].neighbors, |list[k].neighbors|)
  {
    ListOkAt(x, types, |coeffs| - 1, sqrt, list, k);
  }

  /** Applying the contributions of the first k atoms, then those of atom k, applies the first k + 1. */
  lemma ListStep(level: Level, coeffs: seq<seq<Derived>>, cr: seq<real>, x: seq<Vec3>, types: seq<nat>,
                 cutsq: (nat, nat) -> real, sqrt: real -> real, list: seq<Site>, k: nat,
                 f0: seq<Vec3>, before: seq<Vec3>, after: seq<Vec3>, newton: bool, nlocal: nat)
    requires Ready(level, coeffs, cr) && ListOk(x, types, |coeffs| - 1, sqrt, list) && k < |list| && |f0| == |x|
    requires before == ApplyAll(f0, ListContributions(level, coeffs, cr, x, types, cutsq, sqrt, list, k), newton, nlocal)
    requires SiteOk(x, types, |coeffs| - 1, sqrt, list[k].i, list[k].neighbors)
    requires after == ApplyAll(before, SiteContributions(level, coeffs, cr, x, types, cutsq, sqrt, list[k].i, list[k].neighbors, |list[k].neighbors|), newton, nlocal)
    ensures after == ApplyAll(f0, ListContributions(level, coeffs, cr, x, types, cutsq, sqrt, list, k + 1), newton, nlocal)
  {
    ApplyAllAppend(f0, ListContributions(level, coeffs, cr, x, types, cutsq, sqrt, list, k),
                   SiteContributions(level, coeffs, cr, x, types, cutsq, sqrt, list[k].i, list[k].neighbors, |list[k].neighbors|), newton, nlocal);
  }
}
