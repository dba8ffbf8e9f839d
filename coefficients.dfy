/**
 * One entry of the per-type-pair coefficient table and the pure operations
 * the table routines apply to it: what coeff assigns, what settings resets,
 * what init_one finalizes and mirrors, and the names extract answers to.
 */
module Coefficients {
  import opened Wrappers
  import opened Kernel

  /**
   * The values the pair style keeps for one (i, j) cell of its
   * (ntypes+1) x (ntypes+1) arrays: setflag, aterm, bterm, cterm, cut and the
   * derived lj1..lj6 and offset.
   */
  datatype Entry = Entry(setflag: int, aterm: real, bterm: real, cterm: real, cut: real, derived: Derived)

  const NoDerived := Derived(0.0, 0.0, 0.0, 0.0, 0.0, 0.0, 0.0)

  /** The value the model gives a cell that allocate creates and nothing has written yet. */
  const Blank := Entry(0, 0.0, 0.0, 0.0, 0.0, NoDerived)

  /** init_one's derivation of the kernel constants from the three input coefficients. */
  function Derive(a: real, b: real, c: real): Derived
  {
    Derived(12.0 * a, 10.0 * b, 6.0 * c, a, b, c, 0.0)
  }

  /** What coeff writes into one selected cell. */
  function Assign(e: Entry, a: real, b: real, c: real, cut: real): (r: Entry)
    ensures r.setflag == 1
    ensures r.aterm == a && r.bterm == b && r.cterm == c && r.cut == cut
    ensures r.derived == e.derived
  {
    e.(setflag := 1, aterm := a, bterm := b, cterm := c, cut := cut)
  }

  /** What settings does to one cell of the upper triangle: only a set cell gets the new cutoff. */
  function ResetCut(e: Entry, cutGlobal: real): (r: Entry)
    ensures e.setflag != 0 ==> r == e.(cut := cutGlobal)
    ensures e.setflag == 0 ==> r == e
  {
    if e.setflag != 0 then e.(cut := cutGlobal) else e
  }

  /**
   * init_one on cell [i][j]: an unset cell loses its coefficients and takes
   * the mixed cutoff, then lj1..lj6 and offset are derived from the
   * coefficients.
   */
  function Finalize(e: Entry, mixedCut: real): (r: Entry)
    ensures r.setflag == e.setflag
    ensures e.setflag == 0 ==> r.aterm == 0.0 && r.bterm == 0.0 && r.cterm == 0.0 && r.cut == mixedCut
    ensures e.setflag != 0 ==> r.aterm == e.aterm && r.bterm == e.bterm && r.cterm == e.cterm && r.cut == e.cut
    ensures r.derived.lj1 == 12.0 * r.aterm && r.derived.lj2 == 10.0 * r.bterm && r.derived.lj3 == 6.0 * r.cterm
    ensures r.derived.lj4 == r.aterm && r.derived.lj5 == r.bterm && r.derived.lj6 == r.cterm
    ensures r.derived.offset == 0.0
  {
    var base := if e.setflag == 0 then e.(aterm := 0.0, bterm := 0.0, cterm := 0.0, cut := mixedCut) else e;
    base.(derived := Derive(base.aterm, base.bterm, base.cterm))
  }

  /**
   * init_one on cell [j][i]: only lj1..lj6 and offset are copied from [i][j];
   * the setflag, coefficients and cutoff of [j][i] stay as they were.
   */
  function Mirror(dst: Entry, src: Entry): (r: Entry)
    ensures r.derived == src.derived
    ensures r.setflag == dst.setflag && r.aterm == dst.aterm && r.bterm == dst.bterm
    ensures r.cterm == dst.cterm && r.cut == dst.cut
  {
    dst.(derived := src.derived)
  }

  /** Finalizing a finalized cell with the same mixed cutoff changes nothing. */
  lemma FinalizeIdempotent(e: Entry, mixedCut: real)
    ensures Finalize(Finalize(e, mixedCut), mixedCut) == Finalize(e, mixedCut)
  {
  }

  /** A cell that coeff never set exerts no force and has no energy once finalized. */
  lemma UnsetIsInert(e: Entry, mixedCut: real, rsq: real, factor: real)
    requires e.setflag == 0 && rsq != 0.0
    ensures Fpair(Finalize(e, mixedCut).derived, rsq, factor) == 0.0
    ensures Energy(Finalize(e, mixedCut).derived, rsq, factor) == 0.0
  {
    InertPair(Finalize(e, mixedCut).derived, rsq, factor);
  }

  // ---------------------------------------------------------------------------
  // The derived constants against the 12-10-6 potential

  /** q^n. */
  function Pow(q: real, n: nat): real
  {
    if n == 0 then 1.0 else q * Pow(q, n - 1)
  }

  /** k q^n. */
  datatype Term = Term(coef: real, power: nat)

  /** The sum of a list of power terms at q. */
  function Eval(ts: seq<Term>, q: real): real
  {
    if |ts| == 0 then 0.0 else ts[0].coef * Pow(q, ts[0].power) + Eval(ts[1..], q)
  }

  /**
   * The 12-10-6 energy a/r^12 - b/r^10 + c/r^6 as powers of q = 1/r^2:
   * a q^6 - b q^5 + c q^3.
   */
  function PotentialTerms(a: real, b: real, c: real): seq<Term>
  {
    [Term(a, 6), Term(-b, 5), Term(c, 3)]
  }

  /**
   * The radial force over r, -(dE/dr)/r, of a sum of powers of q = 1/r^2: the
   * term k q^n contributes 2 n k q^(n+1).
   */
  function ForceTerms(ts: seq<Term>): (fs: seq<Term>)
    ensures |fs| == |ts|
    ensures forall k :: 0 <= k < |ts| ==> fs[k] == Term(2.0 * (ts[k].power as real) * ts[k].coef, ts[k].power + 1)
  {
    if |ts| == 0 then [] else [Term(2.0 * (ts[0].power as real) * ts[0].coef, ts[0].power + 1)] + ForceTerms(ts[1..])
  }

  /** The powers the kernel builds out of r2inv and r6inv = r2inv^3. */
  lemma Powers(q: real)
    ensures Pow(q, 3) == q * q * q
    ensures Pow(q, 4) == Pow(q, 3) * q
    ensures Pow(q, 5) == Pow(q, 3) * (q * q)
    ensures Pow(q, 6) == Pow(q, 3) * Pow(q, 3)
    ensures Pow(q, 7) == Pow(q, 3) * Pow(q, 3) * q
  {
    var q3 := Pow(q, 3);
    assert Pow(q, 1) == q;
    assert Pow(q, 2) == q * q;
    assert q3 == q * (q * q);
    assert Pow(q, 4) == q * q3;
    assert Pow(q, 5) == q * (q * q3);
    assert Pow(q, 6) == q * (q * (q * q3));
    assert q * (q * (q * q3)) == q3 * (q * (q * q));
    assert Pow(q, 7) == q * Pow(q, 6);
  }

  /** The potential's terms summed. */
  lemma PotentialEval(a: real, b: real, c: real, q: real)
    ensures Eval(PotentialTerms(a, b, c), q) == a * Pow(q, 6) - b * Pow(q, 5) + c * Pow(q, 3)
  {
    var ts := PotentialTerms(a, b, c);
    assert ts[1..] == [Term(-b, 5), Term(c, 3)];
    assert ts[1..][1..] == [Term(c, 3)];
    assert Eval([Term(c, 3)], q) == c * Pow(q, 3) + Eval([], q);
  }

  /** The force terms of the potential summed. */
  lemma ForceEval(a: real, b: real, c: real, q: real)
    ensures Eval(ForceTerms(PotentialTerms(a, b, c)), q) == 12.0 * a * Pow(q, 7) - 10.0 * b * Pow(q, 6) + 6.0 * c * Pow(q, 4)
  {
    var ts := PotentialTerms(a, b, c);
    var fs := ForceTerms(ts);
    assert fs[0] == Term(2.0 * 6.0 * a, 7);
    assert fs[1] == Term(2.0 * 5.0 * -b, 6);
    assert fs[2] == Term(2.0 * 3.0 * c, 4);
    assert fs == [Term(12.0 * a, 7), Term(-10.0 * b, 6), Term(6.0 * c, 4)];
    assert fs[1..] == [Term(-10.0 * b, 6), Term(6.0 * c, 4)];
    assert fs[1..][1..] == [Term(6.0 * c, 4)];
    assert Eval([Term(6.0 * c, 4)], q) == 6.0 * c * Pow(q, 4) + Eval([], q);
  }

  /** The kernel's energy expression, with init_one's constants, as powers of r2inv. */
  lemma PhiAsPowers(a: real, b: real, c: real, rsq: real)
    requires rsq != 0.0
    ensures PhiLJ(Derive(a, b, c), 1.0 / rsq) == a * Pow(1.0 / rsq, 6) - b * Pow(1.0 / rsq, 5) + c * Pow(1.0 / rsq, 3)
  {
    var q := 1.0 / rsq;
    Powers(q);
    var q3 := Pow(q, 3);
    assert PhiLJ(Derive(a, b, c), 1.0 / rsq) == q3 * (a * q3 - b * q * q + c) - 0.0;
    assert q3 * (a * q3 - b * q * q + c) == a * (q3 * q3) - b * (q3 * (q * q)) + c * q3;
  }

  /** The kernel's force expression, with init_one's constants, as powers of r2inv. */
  lemma FpairAsPowers(a: real, b: real, c: real, rsq: real)
    requires rsq != 0.0
    ensures Fpair(Derive(a, b, c), rsq, 1.0) == 12.0 * a * Pow(1.0 / rsq, 7) - 10.0 * b * Pow(1.0 / rsq, 6) + 6.0 * c * Pow(1.0 / rsq, 4)
  {
    var q := 1.0 / rsq;
    Powers(q);
    var q3 := Pow(q, 3);
    var flj := ForceLJ(Derive(a, b, c), 1.0 / rsq);
    assert flj == q3 * (12.0 * a * q3 - 10.0 * b * q * q + 6.0 * c);
    assert Fpair(Derive(a, b, c), rsq, 1.0) == 1.0 * flj * q;
    assert q3 * (12.0 * a * q3 - 10.0 * b * q * q + 6.0 * c) * q
        == 12.0 * a * (q3 * q3 * q) - 10.0 * b * (q3 * q3) + 6.0 * c * (q3 * q);
  }

  /**
   * With the constants init_one derives, the kernel's energy (factor 1) is the
   * 12-10-6 potential and its fpair is that potential's radial force over r,
   * both written as powers of q = 1/rsq.
   */
  lemma DerivedMatchesPotential(a: real, b: real, c: real, rsq: real)
    requires rsq != 0.0
    ensures Energy(Derive(a, b, c), rsq, 1.0) == Eval(PotentialTerms(a, b, c), 1.0 / rsq)
    ensures Fpair(Derive(a, b, c), rsq, 1.0) == Eval(ForceTerms(PotentialTerms(a, b, c)), 1.0 / rsq)
  {
    PhiAsPowers(a, b, c, rsq);
    assert Energy(Derive(a, b, c), rsq, 1.0) == PhiLJ(Derive(a, b, c), 1.0 / rsq);
    FpairAsPowers(a, b, c, rsq);
    PotentialEval(a, b, c, 1.0 / rsq);
    ForceEval(a, b, c, 1.0 / rsq);
  }

  /**
   * The worked case a = 1000, b = 2000, c = 50 at rsq = 25: r2inv = 0.04,
   * r6inv = 6.4e-5 and forcelj = r6inv (12000 r6inv - 20000 r2inv^2 + 300).
   */
  lemma WorkedCase(factor: real)
    ensures ForceLJ(Derive(1000.0, 2000.0, 50.0), 0.04) == 0.000064 * (12000.0 * 0.000064 - 20000.0 * 0.0016 + 300.0)
    ensures Fpair(Derive(1000.0, 2000.0, 50.0), 25.0, factor) == factor * 0.04 * 0.000064 * (12000.0 * 0.000064 - 20000.0 * 0.0016 + 300.0)
  {
  }

  // ---------------------------------------------------------------------------
  // extract

  /** The per-pair arrays extract hands out. */
  datatype Coefficient = ATerm | BTerm | CTerm

  /** The name extract recognises each array by. */
  function Name(c: Coefficient): string
  {
    match c
    case ATerm => "aterm"
    case BTerm => "bterm"
    case CTerm => "cterm"
  }

  /** The value of one of the extractable arrays in a cell. */
  function Column(e: Entry, c: Coefficient): real
  {
    match c
    case ATerm => e.aterm
    case BTerm => e.bterm
    case CTerm => e.cterm
  }

  /** extract: always dimension 2, and the array whose name matches, if any. */
  function Extract(name: string): (r: (int, Option<Coefficient>))
    ensures r.0 == 2
    ensures r.1.Some? <==> name == "aterm" || name == "bterm" || name == "cterm"
    ensures r.1.Some? ==> Name(r.1.value) == name
  {
    if name == "aterm" then (2, Some(ATerm))
    else if name == "bterm" then (2, Some(BTerm))
    else if name == "cterm" then (2, Some(CTerm))
    else (2, None)
  }

  /** Every extractable array is found under its own name. */
  lemma ExtractByName(c: Coefficient)
    ensures Extract(Name(c)).1 == Some(c)
  {
  }
}
