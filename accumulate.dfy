/**
 * The force update every compute routine performs for an accepted pair:
 * f[i] += del fpair, and f[j] -= del fpair when newton_pair is on or j is a
 * local atom.  Forces are three-vectors over `real`; the force array is a
 * sequence here and an `array` in the routines that update it in place.
 */
module Accumulate {

  datatype Vec3 = Vec3(x: real, y: real, z: real)

  const Zero := Vec3(0.0, 0.0, 0.0)

  function Add(u: Vec3, v: Vec3): Vec3 { Vec3(u.x + v.x, u.y + v.y, u.z + v.z) }

  function Sub(u: Vec3, v: Vec3): Vec3 { Vec3(u.x - v.x, u.y - v.y, u.z - v.z) }

  function Neg(v: Vec3): Vec3 { Vec3(-v.x, -v.y, -v.z) }

  function Scale(v: Vec3, s: real): Vec3 { Vec3(v.x * s, v.y * s, v.z * s) }

  /** delx^2 + dely^2 + delz^2. */
  function NormSq(v: Vec3): real { v.x * v.x + v.y * v.y + v.z * v.z }

  /** One accepted pair: atoms i and j, del = x[i] - x[j], and the scalar fpair. */
  datatype Contribution = Contribution(i: nat, j: nat, del: Vec3, fpair: real)

  /** The force the pair exerts on atom i. */
  function PairForce(c: Contribution): Vec3 { Scale(c.del, c.fpair) }

  /** Whether atom j also receives the reaction: newton_pair || j < nlocal. */
  predicate ReactsOn(c: Contribution, newton: bool, nlocal: nat)
  {
    newton || c.j < nlocal
  }

  predicate Fits(c: Contribution, n: nat) { c.i < n && c.j < n }

  /** One pair's update of the force array. */
  function Apply(fs: seq<Vec3>, c: Contribution, newton: bool, nlocal: nat): (r: seq<Vec3>)
    requires Fits(c, |fs|)
    ensures |r| == |fs|
    ensures c.i != c.j ==> r[c.i] == Add(fs[c.i], PairForce(c))
    ensures c.i != c.j ==> r[c.j] == if ReactsOn(c, newton, nlocal) then Sub(fs[c.j], PairForce(c)) else fs[c.j]
    ensures c.i == c.j ==> r[c.i] == if ReactsOn(c, newton, nlocal) then fs[c.i] else Add(fs[c.i], PairForce(c))
    ensures forall k :: 0 <= k < |fs| && k != c.i && k != c.j ==> r[k] == fs[k]
  {
    var v := PairForce(c);
    var fi := fs[c.i := Add(fs[c.i], v)];
    if ReactsOn(c, newton, nlocal) then fi[c.j := Sub(fi[c.j], v)] else fi
  }

  /** With the reaction applied, what atom j receives is the opposite of what atom i receives. */
  lemma Antisymmetric(fs: seq<Vec3>, c: Contribution, newton: bool, nlocal: nat)
    requires Fits(c, |fs|) && c.i != c.j && ReactsOn(c, newton, nlocal)
    ensures Sub(Apply(fs, c, newton, nlocal)[c.j], fs[c.j]) == Neg(Sub(Apply(fs, c, newton, nlocal)[c.i], fs[c.i]))
  {
  }

  /** Every pair of cs indexes an array of n atoms (stated pair by pair from the end, like ApplyAll). */
  predicate AllFit(cs: seq<Contribution>, n: nat)
  {
    |cs| == 0 || (AllFit(cs[..|cs| - 1], n) && Fits(cs[|cs| - 1], n))
  }

  lemma {:induction false} AllFitAppend(a: seq<Contribution>, b: seq<Contribution>, n: nat)
    requires AllFit(a, n) && AllFit(b, n)
    ensures AllFit(a + b, n)
    decreases |b|
  {
    if |b| == 0 {
      assert a + b == a;
    } else {
      var init := b[..|b| - 1];
      AllFitAppend(a, init, n);
      assert (a + b)[..|a + b| - 1] == a + init;
    }
  }

  /** The updates of a sequence of pairs, in order. */
  function ApplyAll(fs: seq<Vec3>, cs: seq<Contribution>, newton: bool, nlocal: nat): (r: seq<Vec3>)
    requires AllFit(cs, |fs|)
    ensures |r| == |fs|
  {
    if |cs| == 0 then fs else Apply(ApplyAll(fs, cs[..|cs| - 1], newton, nlocal), cs[|cs| - 1], newton, nlocal)
  }

  /** No pairs leave the forces as they are. */
  lemma ApplyNone(fs: seq<Vec3>, newton: bool, nlocal: nat)
    ensures ApplyAll(fs, [], newton, nlocal) == fs
  {
  }

  /** Applying one more pair after a sequence of pairs is applying the longer sequence. */
  lemma ApplyAllSnoc(fs: seq<Vec3>, cs: seq<Contribution>, c: Contribution, newton: bool, nlocal: nat)
    requires AllFit(cs, |fs|) && Fits(c, |fs|)
    ensures AllFit(cs + [c], |fs|)
    ensures ApplyAll(fs, cs + [c], newton, nlocal) == Apply(ApplyAll(fs, cs, newton, nlocal), c, newton, nlocal)
  {
    assert (cs + [c])[..|cs|] == cs;
  }

  /** ApplyAll of a non-empty sequence, split at its last pair. */
  lemma ApplyAllLast(fs: seq<Vec3>, cs: seq<Contribution>, newton: bool, nlocal: nat)
    requires AllFit(cs, |fs|) && |cs| > 0
    ensures AllFit(cs[..|cs| - 1], |fs|) && Fits(cs[|cs| - 1], |fs|)
    ensures ApplyAll(fs, cs, newton, nlocal) == Apply(ApplyAll(fs, cs[..|cs| - 1], newton, nlocal), cs[|cs| - 1], newton, nlocal)
  {
  }

  /** Applying cs then ds is applying cs + ds. */
  lemma {:induction false} ApplyAllAppend(fs: seq<Vec3>, cs: seq<Contribution>, ds: seq<Contribution>, newton: bool, nlocal: nat)
    requires AllFit(cs, |fs|) && AllFit(ds, |fs|)
    ensures AllFit(cs + ds, |fs|)
    ensures ApplyAll(fs, cs + ds, newton, nlocal) == ApplyAll(ApplyAll(fs, cs, newton, nlocal), ds, newton, nlocal)
    decreases |ds|
  {
    hide *;
    AllFitAppend(cs, ds, |fs|);
    if |ds| == 0 {
      assert cs + ds == cs;
      ApplyNone(ApplyAll(fs, cs, newton, nlocal), newton, nlocal);
    } else {
      var init := ds[..|ds| - 1];
      ApplyAllLast(ApplyAll(fs, cs, newton, nlocal), ds, newton, nlocal);
      ApplyAllAppend(fs, cs, init, newton, nlocal);
      assert (cs + ds)[..|cs + ds| - 1] == cs + init;
      assert (cs + ds)[|cs + ds| - 1] == ds[|ds| - 1];
      ApplyAllLast(fs, cs + ds, newton, nlocal);
    }
  }

  /** The sum of all forces. */
  function Total(fs: seq<Vec3>): Vec3
  {
    if |fs| == 0 then Zero else Add(Total(fs[..|fs| - 1]), fs[|fs| - 1])
  }

  /** Replacing one force changes the sum by the difference. */
  lemma {:induction false} TotalUpdate(fs: seq<Vec3>, k: nat, v: Vec3)
    requires k < |fs|
    ensures Total(fs[k := v]) == Add(Sub(Total(fs), fs[k]), v)
    decreases |fs|
  {
    var n := |fs| - 1;
    var gs := fs[k := v];
    if k == n {
      assert gs[..n] == fs[..n];
    } else {
      assert gs[..n] == fs[..n][k := v];
      TotalUpdate(fs[..n], k, v);
    }
  }

  /** Apply, spelled out: the update of f[i], then the reaction on f[j] when it applies. */
  lemma ApplyUnfold(fs: seq<Vec3>, c: Contribution, newton: bool, nlocal: nat)
    requires Fits(c, |fs|)
    ensures c.i < |fs| && c.j < |fs|
    ensures var fi := fs[c.i := Add(fs[c.i], PairForce(c))];
            Apply(fs, c, newton, nlocal) == if ReactsOn(c, newton, nlocal) then fi[c.j := Sub(fi[c.j], PairForce(c))] else fi
  {
  }

  /** Adding v at one atom and subtracting it at another (or the same) one restores the sum. */
  lemma ReactCancels(t: Vec3, a: Vec3, b: Vec3, v: Vec3)
    ensures Add(Sub(Add(Sub(t, a), Add(a, v)), b), Sub(b, v)) == t
  {
  }

  lemma ActionAdds(t: Vec3, a: Vec3, v: Vec3)
    ensures Add(Sub(t, a), Add(a, v)) == Add(t, v)
  {
  }

  /**
   * One pair leaves the sum of forces unchanged when the reaction on j is
   * applied, and adds the pair force to it when the reaction is left to
   * another process.
   */
  lemma TotalApply(fs: seq<Vec3>, c: Contribution, newton: bool, nlocal: nat)
    requires Fits(c, |fs|)
    ensures Total(Apply(fs, c, newton, nlocal)) ==
              if ReactsOn(c, newton, nlocal) then Total(fs) else Add(Total(fs), PairForce(c))
  {
    hide *;
    ApplyUnfold(fs, c, newton, nlocal);
    var v := PairForce(c);
    var fi := fs[c.i := Add(fs[c.i], v)];
    TotalUpdate(fs, c.i, Add(fs[c.i], v));
    if ReactsOn(c, newton, nlocal) {
      TotalUpdate(fi, c.j, Sub(fi[c.j], v));
      ReactCancels(Total(fs), fs[c.i], fi[c.j], v);
    } else {
      ActionAdds(Total(fs), fs[c.i], v);
    }
  }

  /** With newton_pair on, a whole sweep of pairs leaves the sum of forces unchanged. */
  lemma {:induction false} NewtonConservesTotal(fs: seq<Vec3>, cs: seq<Contribution>, nlocal: nat)
    requires AllFit(cs, |fs|)
    ensures Total(ApplyAll(fs, cs, true, nlocal)) == Total(fs)
    decreases |cs|
  {
    if |cs| > 0 {
      var init := cs[..|cs| - 1];
      NewtonConservesTotal(fs, init, nlocal);
      TotalApply(ApplyAll(fs, init, true, nlocal), cs[|cs| - 1], true, nlocal);
    }
  }
}
