# The `lj/eten` pair style of LAMMPS, modelled in Dafny

`Software/LAMMPS/pair_lj_eten.cpp` implements the 12-10-6 potential

    E(r) = a / r^12 - b / r^10 + c / r^6

as a LAMMPS pair style, with rRESPA inner, middle and outer levels. This project models its core in three
parts.

- **The coefficient table.** A dense `(ntypes+1) x (ntypes+1)` table holds, per type pair, `setflag`,
  `aterm`, `bterm`, `cterm`, `cut` and the derived `lj1..lj6` and `offset`. The routines `allocate`,
  `settings`, `coeff` and `init_one` update it in place; `init_style` only records `cut_respa`.
  - The model is the class `Pair.PairLJETEN`, whose table is one `array2<Entry>`.
  - The pure per-cell updates are in module `Coefficients`.
- **The restart codec.** `write_restart` and `read_restart` lay the table out positionally:
  1. the four settings `cut_global`, `offset_flag`, `mix_flag` and `tail_flag`;
  2. for every `i <= j`, its `setflag`;
  3. its four values, only when the pair is set.

  Module `Restart` describes the layout as an encoder and decoder over a `seq<Token>` (one token per `fwrite`).
  It proves decode-after-encode and that every truncated stream fails. The class methods `WriteRestart` and
  `ReadRestart` walk the table as the source does and are proved equal to the encoder and the decoder.
- **The force routines.** `compute`, `compute_inner`, `compute_middle`, `compute_outer` and `single` are
  modelled over `real`.
  - Module `Kernel` has the force and energy expressions, the cubic switching factors and the radial
    window of each routine.
  - Module `Accumulate` has the force update `f[i] += del fpair` and, when `newton_pair || j < nlocal`,
    `f[j] -= del fpair`.
  - Module `Sweep` has what a sweep over a neighbor list contributes.
  - `PairLJETEN.Compute` runs the two nested neighbor loops over a force `array` and is proved to apply
    exactly those contributions, in list order.

The distance `r` is an input that satisfies `r * r == rsq`, so no square root appears. The properties proved
are exact algebraic ones:
- each routine's window;
- the switching endpoints;
- the partition of unity across adjacent shells, and the three- and two-level rRESPA splits adding back up to
  `compute`;
- inert pairs for zero coefficients or a zero special factor;
- antisymmetry of the pair update and conservation of the total force under `newton_pair`;
- the `init_one` derivation matching the potential above.

Files:
- `wrappers.dfy`: `Option`, `Result` and the error kinds;
- `arith.dfy`: real-arithmetic facts;
- `kernel.dfy`, `coefficients.dfy`, `accumulate.dfy`, `restart.dfy` and `sweep.dfy`: the pure parts;
- `pair.dfy`: the class.

Two behaviours of the code worth noting:
- **`compute_outer`'s virial value.** With `vflag` set and `in_off < r < in_on`, `compute_outer` hands
  `ev_tally` a freshly computed unswitched `factor_lj * forcelj * r2inv` (lines 386-387), not the smoothed force
  it added to `f`. This is `Kernel.OuterVirialFpair`.
- **`init_one`'s mirror.** `init_one` copies only `lj1..lj6` and `offset` into `[j][i]`; `aterm`, `bterm`,
  `cterm` and `cut` of `[j][i]` are not touched (lines 539-545). This is `Coefficients.Mirror`.

## Model

| member | source | states |
|---|---|---|
| Kernel.InertPair | Software/LAMMPS/pair_lj_eten.cpp:117-133 | zero `lj1..lj3` or `factor_lj = 0` gives `fpair = 0`; zero `lj4..lj6` and `offset`, or `factor_lj = 0`, gives zero energy |
| Kernel.InnerFadeOut | Software/LAMMPS/pair_lj_eten.cpp:199-201 | `1 - t^2 (3 - 2t)` is 1 at `t = 0`, 0 at `t = 1`, and stays in [0, 1] on [0, 1] |
| Kernel.FadeIn | Software/LAMMPS/pair_lj_eten.cpp:358-360 | `t^2 (3 - 2t)` is 0 at `t = 0`, 1 at `t = 1`, and stays in [0, 1] on [0, 1] |
| Kernel.MiddleFadeOut | Software/LAMMPS/pair_lj_eten.cpp:281-283 | `1 + t^2 (2t - 3)` is 1 at `t = 0`, 0 at `t = 1`, and stays in [0, 1] on [0, 1] |
| Kernel.InnerMiddleHandOff | Software/LAMMPS/pair_lj_eten.cpp:199-279 | at the same `t`, the inner fade-out plus the middle fade-in is exactly 1 |
| Kernel.MiddleOuterHandOff | Software/LAMMPS/pair_lj_eten.cpp:281-360 | at the same `t`, the middle fade-out plus the outer fade-in is exactly 1 |
| Kernel.Faded | Software/LAMMPS/pair_lj_eten.cpp:199-202 | scaling `fpair` by a switching factor in [0, 1] never increases its magnitude |
| Kernel.FullShell | Software/LAMMPS/pair_lj_eten.cpp:116-120 | `compute` takes a pair exactly when `rsq < cutsq`, with the unswitched `fpair` |
| Kernel.InnerShell | Software/LAMMPS/pair_lj_eten.cpp:193-202 | `compute_inner` takes a pair exactly when `r < cut_respa[1]`; the force is unswitched up to `cut_respa[0]` and never larger in magnitude |
| Kernel.MiddleFadeInStep | Software/LAMMPS/pair_lj_eten.cpp:277-280 | the fade-in below `in_on` never increases the force and leaves it as is from `in_on` on |
| Kernel.MiddleFadeOutStep | Software/LAMMPS/pair_lj_eten.cpp:281-284 | the fade-out above `out_on` never increases the force and leaves it as is up to `out_on` |
| Kernel.MiddleShell | Software/LAMMPS/pair_lj_eten.cpp:271-284 | `compute_middle` takes a pair exactly when `cut_respa[0] < r < cut_respa[3]`; the force is unswitched between `cut_respa[1]` and `cut_respa[2]` and never larger in magnitude |
| Kernel.OuterShell | Software/LAMMPS/pair_lj_eten.cpp:352-361 | `compute_outer` adds a force exactly when `rsq < cutsq` and `r > cut_respa[2]`; it is unswitched from `cut_respa[3]` on and never larger in magnitude |
| Kernel.OuterVirialFpair | Software/LAMMPS/pair_lj_eten.cpp:380-388 | the `fpair` `compute_outer` tallies for the virial is the unswitched force in all three branches |
| Kernel.InnerSwitching | Software/LAMMPS/pair_lj_eten.cpp:193-202 | between `out_on` and `out_off`, `compute_inner` gives `f` times the inner fade-out at `t = (r - out_on) / (out_off - out_on)`, with `t` in [0, 1] |
| Kernel.MiddleSwitchingIn | Software/LAMMPS/pair_lj_eten.cpp:271-284 | between `in_off` and `in_on`, `compute_middle` gives `f` times the fade-in of `t = (r - in_off) / (in_on - in_off)` and nothing else |
| Kernel.MiddleSwitchingOut | Software/LAMMPS/pair_lj_eten.cpp:271-284 | between `out_on` and `out_off`, `compute_middle` gives `f` times the middle fade-out of `t = (r - out_on) / (out_off - out_on)` and nothing else |
| Kernel.OuterSwitching | Software/LAMMPS/pair_lj_eten.cpp:352-361 | between `in_off` and `in_on`, `compute_outer` gives `f` times the fade-in of `t = (r - in_off) / (in_on - in_off)` |
| Kernel.InnerMiddleZone | Software/LAMMPS/pair_lj_eten.cpp:193-284 | in the inner/middle switching zone the inner and middle forces add up to the unswitched force |
| Kernel.MiddleOuterZone | Software/LAMMPS/pair_lj_eten.cpp:271-361 | in the middle/outer switching zone the middle and outer forces add up to the unswitched force |
| Kernel.InnerOuterZone | Software/LAMMPS/pair_lj_eten.cpp:193-361 | with two levels (`cut_respa[2..3]` equal to `cut_respa[0..1]`), the inner and outer forces add up to the unswitched force in the switching zone |
| Kernel.ThreeLevelSplit | Software/LAMMPS/pair_lj_eten.cpp:116-361 | for shells `0 <= in_off < in_on <= out_on < out_off` with `out_off^2 <= cutsq`, inner + middle + outer forces equal `compute`'s force at every distance |
| Kernel.TwoLevelSplit | Software/LAMMPS/pair_lj_eten.cpp:116-361 | with two levels and `cut_respa[1]^2 <= cutsq`, inner + outer forces equal `compute`'s force at every distance |
| Kernel.Single | Software/LAMMPS/pair_lj_eten.cpp:684-696 | `single`'s `fforce` is the `fpair` the compute routines use, and its return value is their pair energy |
| Coefficients.Assign | Software/LAMMPS/pair_lj_eten.cpp:467-471 | a cell `coeff` writes gets `setflag = 1`, the three coefficients and the cutoff, and keeps its derived constants |
| Coefficients.ResetCut | Software/LAMMPS/pair_lj_eten.cpp:440 | `settings` gives a set cell the new global cutoff and leaves an unset cell as it is |
| Coefficients.Finalize | Software/LAMMPS/pair_lj_eten.cpp:512-537 | an unset cell gets `a = b = c = 0` and the mixed cutoff, a set cell keeps its values; then `lj1..lj3 = 12a, 10b, 6c`, `lj4..lj6 = a, b, c` and `offset = 0` |
| Coefficients.Mirror | Software/LAMMPS/pair_lj_eten.cpp:539-545 | `[j][i]` receives `lj1..lj6` and `offset` of `[i][j]` and keeps its own `setflag`, coefficients and cutoff |
| Coefficients.FinalizeIdempotent | Software/LAMMPS/pair_lj_eten.cpp:512-537 | finalizing a finalized cell again with the same mixed cutoff changes nothing |
| Coefficients.UnsetIsInert | Software/LAMMPS/pair_lj_eten.cpp:512-537 | a cell `coeff` never set has zero force and zero energy once `init_one` finalizes it |
| Coefficients.PhiAsPowers | Software/LAMMPS/pair_lj_eten.cpp:526-537 | with `init_one`'s constants the energy expression is `a q^6 - b q^5 + c q^3` for `q = 1/rsq` |
| Coefficients.FpairAsPowers | Software/LAMMPS/pair_lj_eten.cpp:523-525 | with `init_one`'s constants `fpair` is `12a q^7 - 10b q^6 + 6c q^4` |
| Coefficients.DerivedMatchesPotential | Software/LAMMPS/pair_lj_eten.cpp:523-537 | the derived constants make the energy the 12-10-6 potential and `fpair` its radial force over `r` |
| Coefficients.WorkedCase | Software/LAMMPS/pair_lj_eten.cpp:117-120 | the force expressions at `a = 1000, b = 2000, c = 50, rsq = 25`, evaluated by hand |
| Coefficients.Extract | Software/LAMMPS/pair_lj_eten.cpp:725-732 | `extract` always reports dimension 2 and finds an array exactly for the names `aterm`, `bterm` and `cterm` |
| Coefficients.ExtractByName | Software/LAMMPS/pair_lj_eten.cpp:728-730 | each extractable array is found under its own name |
| Accumulate.Apply | Software/LAMMPS/pair_lj_eten.cpp:122-129 | one pair adds `del fpair` to `f[i]`, subtracts it from `f[j]` when `newton_pair` or `j < nlocal`, and changes no other atom; a pair with `i == j` gets `del fpair` added, and then subtracted again when the reaction applies |
| Accumulate.Antisymmetric | Software/LAMMPS/pair_lj_eten.cpp:122-129 | when the reaction is applied, atom `j` receives the opposite of what atom `i` receives |
| Accumulate.ApplyAllAppend | Software/LAMMPS/pair_lj_eten.cpp:96-139 | applying one sequence of pairs and then another is applying their concatenation |
| Accumulate.TotalApply | Software/LAMMPS/pair_lj_eten.cpp:122-129 | one pair leaves the summed force unchanged when the reaction is applied, and adds the pair force otherwise |
| Accumulate.NewtonConservesTotal | Software/LAMMPS/pair_lj_eten.cpp:96-139 | with `newton_pair` a whole sweep leaves the summed force unchanged |
| Restart.DecodeRestart | Software/LAMMPS/pair_lj_eten.cpp:605-629 | a successful read yields the upper triangle: `ntypes` rows, row `i` with the cells `i..ntypes`, and every set record with non-zero `setflag` |
| Restart.HeaderRoundTrip | Software/LAMMPS/pair_lj_eten.cpp:635-660 | reading the settings back gives what was written, with the rest of the stream untouched |
| Restart.RecordRoundTrip | Software/LAMMPS/pair_lj_eten.cpp:591-627 | reading back one pair's record gives the record written |
| Restart.RowRoundTrip | Software/LAMMPS/pair_lj_eten.cpp:590-628 | reading back a row of records gives the row written |
| Restart.RowsRoundTrip | Software/LAMMPS/pair_lj_eten.cpp:589-628 | reading back the upper triangle gives the triangle written |
| Restart.RestartRoundTrip | Software/LAMMPS/pair_lj_eten.cpp:584-629 | `read_restart` of what `write_restart` wrote gives back the settings and the triangle, and leaves the following tokens unread |
| Restart.HeaderTruncated | Software/LAMMPS/pair_lj_eten.cpp:647-660 | a settings header cut short fails to read |
| Restart.RecordTruncated | Software/LAMMPS/pair_lj_eten.cpp:614-621 | a record cut short fails to read |
| Restart.RowTruncated | Software/LAMMPS/pair_lj_eten.cpp:613-628 | a row cut short fails to read |
| Restart.RowsTruncated | Software/LAMMPS/pair_lj_eten.cpp:612-628 | a triangle cut short fails to read |
| Restart.RestartTruncated | Software/LAMMPS/pair_lj_eten.cpp:605-629 | any proper prefix of a restart stream fails to read |
| Sweep.PairContribution | Software/LAMMPS/pair_lj_eten.cpp:105-129 | one neighbor contributes an update exactly when the routine's window accepts its distance, for the pair `(i, j)` with `del = x[i] - x[j]` and the routine's `fpair` |
| Sweep.SiteContributionsNext | Software/LAMMPS/pair_lj_eten.cpp:105-138 | the inner loop's next neighbor appends its contribution to those of the neighbors before it |
| Sweep.ListContributionsNext | Software/LAMMPS/pair_lj_eten.cpp:96-139 | the outer loop's next atom appends its neighbors' contributions to those of the atoms before it |
| Sweep.ListStep | Software/LAMMPS/pair_lj_eten.cpp:96-139 | forces holding the first `k` atoms' contributions, updated by atom `k`'s, hold the first `k + 1` atoms' |
| Pair.SelectionNonEmpty | Software/LAMMPS/pair_lj_eten.cpp:464-476 | `coeff`'s count ends non-zero exactly when some cell `ilo <= i <= ihi`, `MAX(jlo, i) <= j <= jhi` exists |
| Pair.RequestedList | Software/LAMMPS/pair_lj_eten.cpp:487-493 | `init_style` asks for the full rRESPA list with a middle level, the inner/outer list with only an inner level, and the default list otherwise |
| Pair.RecordOf | Software/LAMMPS/pair_lj_eten.cpp:591-597 | a cell's restart record is unset exactly when `setflag` is 0, and otherwise carries `setflag`, `aterm`, `bterm`, `cterm` and `cut` |
| Pair.StoreThenRecord | Software/LAMMPS/pair_lj_eten.cpp:614-627 | storing a read record into a cell and taking that cell's record gives the record back |
| Pair.RecordTokens | Software/LAMMPS/pair_lj_eten.cpp:591-597 | the tokens written for a cell are its `setflag`, then the four values only when it is set |
| Pair.PairLJETEN.constructor | Software/LAMMPS/pair_lj_eten.cpp:39-44 | a new pair style has no table and no rRESPA cutoffs |
| Pair.PairLJETEN.Allocate | Software/LAMMPS/pair_lj_eten.cpp:400-422 | a fresh `(ntypes+1)^2` table whose upper-triangle `setflag`s are all 0; the settings are unchanged |
| Pair.PairLJETEN.Settings | Software/LAMMPS/pair_lj_eten.cpp:428-442 | a wrong argument count fails and changes nothing; otherwise `cut_global` is set and, when allocated, exactly the set cells of the upper triangle take it as their cutoff |
| Pair.PairLJETEN.Coeff | Software/LAMMPS/pair_lj_eten.cpp:448-477 | a wrong argument count fails and changes nothing; otherwise the table is allocated if needed, exactly the selected cells are assigned, `cut` defaults to `cut_global`, and the call fails exactly when no cell was selected |
| Pair.PairLJETEN.InitStyle | Software/LAMMPS/pair_lj_eten.cpp:483-503 | records `cut_respa` exactly when the run uses rRESPA with an inner level, and returns the requested neighbor list |
| Pair.PairLJETEN.InitOne | Software/LAMMPS/pair_lj_eten.cpp:509-577 | `[i][j]` is finalized, only its derived constants are mirrored into `[j][i]`, no other cell changes, and the result is `cut[i][j]` or the rRESPA failure when `cut[i][j] < cut_respa[3]` |
| Pair.PairLJETEN.InitOneTwice | Software/LAMMPS/pair_lj_eten.cpp:509-577 | a second `init_one` on the same pair returns the same result; after both, `[i][j]` is the cell finalized once, `[j][i]` holds only its derived constants, and no other cell changes |
| Pair.PairLJETEN.TableRows | Software/LAMMPS/pair_lj_eten.cpp:588-598 | the records of the upper triangle, row `i` holding the cells `(i, i)..(i, ntypes)` |
| Pair.PairLJETEN.WriteRow | Software/LAMMPS/pair_lj_eten.cpp:590-598 | the inner loop of `write_restart` emits the encoding of row `i`'s records |
| Pair.PairLJETEN.WriteRestart | Software/LAMMPS/pair_lj_eten.cpp:584-599 | `write_restart` emits the settings header and then the encoding of the upper triangle |
| Pair.PairLJETEN.ReadRow | Software/LAMMPS/pair_lj_eten.cpp:613-628 | the inner loop of `read_restart` fails as the decoder does, or stores the decoded row in the cells `(i, i)..(i, ntypes)`, keeping their derived constants, and touches no other cell |
| Pair.PairLJETEN.ReadRows | Software/LAMMPS/pair_lj_eten.cpp:612-628 | the outer loop of `read_restart` fails as the decoder does, or stores every decoded record in its cell |
| Pair.PairLJETEN.ReadRestart | Software/LAMMPS/pair_lj_eten.cpp:605-629 | `read_restart` fails exactly when the decoder fails, with its error; otherwise it holds the decoded settings in a fresh table with every decoded record and returns the unread rest |
| Pair.PairLJETEN.RestoreFrom | Software/LAMMPS/pair_lj_eten.cpp:584-629 | a restart written by one pair style and read by another with the same `ntypes` reads to the end, restoring the settings and every upper-triangle record |
| Pair.PairLJETEN.ComputePair | Software/LAMMPS/pair_lj_eten.cpp:105-129 | one neighbor updates the force array by exactly its contribution in the routine's window |
| Pair.PairLJETEN.ComputeSite | Software/LAMMPS/pair_lj_eten.cpp:105-138 | the inner loop applies the contributions of atom `i` with each of its neighbors, in order |
| Pair.PairLJETEN.ComputeAtom | Software/LAMMPS/pair_lj_eten.cpp:96-139 | one pass of the outer loop extends the applied contributions by the next atom's |
| Pair.PairLJETEN.Compute | Software/LAMMPS/pair_lj_eten.cpp:72-394 | each of `compute`, `compute_inner`, `compute_middle` and `compute_outer` leaves the force array as the list's contributions applied in order; with `newton_pair` the summed force is unchanged |
| Pair.PairLJETEN.ExtractAt | Software/LAMMPS/pair_lj_eten.cpp:725-732 | `extract` on a cell gives dimension 2 and, for a known name, that array's value in the cell |

## Left out

- MPI: the `MPI_Bcast` calls of `read_restart` and `read_restart_settings`, and `MPI_Allreduce`, are left out. One process is modelled.
- `FILE` I/O: the restart stream is a sequence of int and real tokens, not bytes. A token of the wrong kind fails, where the source would reinterpret the bytes. An `sfread` that runs out is a `Failure` result, not an abort.
- Settings, Coeff and InitOne: their `error->all` exits are `Failure` results and the run goes on. At that point `Coeff` may already have allocated the table, and `InitOne` has already finalized `[i][j]` and mirrored `[j][i]` when it returns `RespaCutoffTooSmall`; the source aborts the run instead.
- ReadRestart: on a read failure the model returns the error and leaves the cells read so far in the table; the source aborts the run.
- The long-range tail correction of `init_one` (lines 555-575) is left out; the code's own comments disown it.
- The commented-out energy shift of `init_one` (lines 530-536) is left out; `offset` is always 0, as the live code sets it.
- `born_matrix` (lines 700-721) is left out; it needs a square root and its own comments say it does not apply to this potential.
- `write_data` and `write_data_all` (lines 666-680) are left out; they only format text.
- Rounding: IEEE-754 rounding is not modelled. All force, energy and switching arithmetic is exact over `real`.
- `sqrt` is a parameter of the compute routines, and the sweep requires it to return a non-negative `r` with `r * r == rsq`.
- rsq > 0: the sweep requires a positive distance for every listed pair, since the source divides by `rsq`.
- `mix_distance` is a function parameter of `InitOne`; its body belongs to the base class, which is not part of this model.
- `cutsq` is a function parameter of the compute routines; the base class computes it from `init_one`'s results.
- `utils::bounds` and `utils::numeric` are not modelled: `Coeff` and `Settings` take the type ranges and numbers already parsed and checked.
- `sbmask` and `NEIGHMASK` are not modelled: each neighbor comes with its atom index and its `special_lj` factor.
- `ev_tally`, the energy and virial sums and `virial_fdotr_compute` are left out. `Kernel.OuterVirialFpair` states only the value `compute_outer` hands to the tally.
- The neighbor request of `init_style` is left out; only the requested list style is returned.
- Allocate: `memory->create` leaves every cell except the upper-triangle `setflag`s uninitialised. The model gives such cells the value `Blank` (all zeros); its ensures states it for the whole table.
- Pair.PairLJETEN.constructor: `cut_global`, `offset_flag`, `mix_flag` and `tail_flag` start at 0. The base class's own defaults are not part of this model. The capability flags the constructor sets (`respa_enable`, `born_matrix_enable` and `writedata`) are not modelled, since no modelled routine reads them.
- Compute: the compute routines require `cut_respa` to hold four radii with positive shell widths for the level they run. The source divides by those widths without checking them.
- Compute: the coefficients are passed as a ghost table `coeffs` that the requires ties to the table's derived constants.
- InitOneTwice: does not cover an unset diagonal cell, whose mixed cutoff would be mixed again. The base class refuses to run with an unset diagonal cell, and that check is not part of this model.
