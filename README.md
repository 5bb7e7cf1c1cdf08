# solid_dmft driver bookkeeping, in Dafny

This project models the rule-based bookkeeping around the TRIQS numerics in
solid_dmft's DMFT self-consistency driver. It covers:

- `dmft_cycle.py`:
  - the expansion of impurity-dependent parameters to one value per
    inequivalent shell;
  - the impurity→solver map, the solver type of each impurity and the shell
    multiplicities;
  - the degeneracy groups of the block structure, where the structure comes
    from, and the rotation-matrix check;
  - where a run starts (iteration offset, `mu_initial_guess`);
  - the main loop with its early exit, the sticky convergence flag and the
    sampling iterations;
  - the removal of the seed magnetic field and the G0-mixing gate;
  - the delta interface: the `diag_delta` mask on Delta(tau) and the
    threshold rule for the Hloc_0 terms;
  - the Hartree solvers' DC energies.
- `dmft_tools/initial_self_energies.py`:
  - the double-counting (DC) pipeline `calculate_double_counting`: Hartree
    shells, fixed value, fixed occupation, the formula, nominal energies, the
    global factor and the orbital shift;
  - the comparison of a loaded DC with the current one and the correction of
    a loaded self-energy (`_set_loaded_sigma`);
  - the lattice→solver remap of self-energies (`_sumk_sigma_to_solver_struct`);
  - the selection of the initial self-energy, with its magnetic bias and noise;
  - the archive group a self-energy is loaded from.

The lattice object's DC state (`sum_k.dc_imp`, `sum_k.dc_energ`) is a class,
`SumkState.Sumk`. Its methods change that state in place, as the source does,
and each is proved to leave the state that a specification function in
`DoubleCounting` describes. Element-wise writes stay on arrays:

- Delta(tau) masking and noise use an `array3`;
- filling a solver block uses an `array2`.

Loops that build lists stay loops, each proved against the function that
specifies it. TRIQS and SumkDFT routines are function-valued parameters:
`calc_dc`, `add_dc` after `put_Sigma`, `rotloc`, the cRPA DC and
`check_convergence`. Python exceptions are the `Error` values of a `Result`:

- `KeyError`, `IndexError`, `ValueError`, `TypeError`;
- `NotImplementedError`, `ZeroDivisionError`.

Element-wise numpy operations between two arrays follow numpy's
broadcasting rule (module `NumpyArrays`):

- along each axis the two lengths must agree or one of them must be 1;
- an axis of length 1 is stretched to the other length;
- shapes that do not broadcast raise `ValueError`.

The model takes numpy 1.24 or later, where `np.array` of a ragged list
raises `ValueError`.

Where the code and its documentation differ, the model follows the code:

- extra entries of `dc_orb_shift` are ignored. A short list fails with `ValueError` unless its chunks still broadcast against the blocks: a single entry, for example, is added to every element of every block;
- an inconclusive convergence check resets the convergence flag;
- noise is added on the load-sigma path as well as the fresh paths;
- on the DC path the magnetic bias is added to every element of the DC
  potential, not only to its diagonal;
- the `'Hartree'` guards of the nominal DC and the orbital shift compare
  case-sensitively, and so never see the solver type `'hartree'`;
- a rotation-matrix mismatch only warns, and `zip` compares only the common prefix.

## Model

| member | source | states |
|---|---|---|
| NumpyArrays.Broadcast | python/solid_dmft/dmft_tools/initial_self_energies.py:266 | the result has the broadcast shape, and each element combines the entries the two operands show at that position, a length-1 axis repeating its entry |
| NumpyArrays.Diag | python/solid_dmft/dmft_tools/initial_self_energies.py:266 | `np.diag(d)` is square, of the length of d, with d on the diagonal and zeros elsewhere |
| NumpyArrays.SameShapeIsElementwise | python/solid_dmft/dmft_tools/initial_self_energies.py:417-418 | arrays of one shape broadcast and combine entry by entry |
| NumpyArrays.SquareBroadcast | python/solid_dmft/dmft_tools/initial_self_energies.py:266 | square arrays of sizes n and k broadcast iff n = k or one of them is 1, and the result is square |
| NumpyArrays.AddSingleEntry | python/solid_dmft/dmft_tools/initial_self_energies.py:266 | adding a 1 x 1 array adds its entry to every element |
| PerInequiv.ExtractQuantityPerInequiv | python/solid_dmft/dmft_cycle.py:61-102 | a scalar becomes `n` copies of itself; a list of length `n` is kept; any other list raises IndexError and a missing key KeyError; other keys are untouched |
| PerInequiv.ExtractQuantityIdempotent | python/solid_dmft/dmft_cycle.py:89-100 | expanding an already expanded parameter returns it unchanged |
| PerInequiv.CheckImpurityDependent | python/solid_dmft/dmft_cycle.py:346-351 | the loop over the impurity-dependent keys succeeds iff every key is present and well-formed; it stops with the exception of the first bad key; on success each listed key is expanded and the rest are kept |
| SolverMap.MapImpSolver | python/solid_dmft/dmft_cycle.py:355-368 | a single solver without `idx_impurities` serves every impurity; otherwise success iff the concatenated lists are a permutation of 0..n-1 (else ValueError, TypeError for a missing list); on success impurity i maps to the one entry listing it |
| SolverMap.FirstSolverListing | python/solid_dmft/dmft_cycle.py:364-368 | the inner loop with `break` yields an entry index within the solver list, or the list length if none lists the impurity |
| SolverMap.MapIsWellDefined | python/solid_dmft/dmft_cycle.py:358-368 | when every impurity is listed exactly once, the first listing is the only listing |
| SolverMap.SolverTypePerImp | python/solid_dmft/dmft_cycle.py:369 | each impurity's type is the type of the solver entry serving it |
| SolverMap.SolverTypeOfServingEntry | python/solid_dmft/dmft_cycle.py:355-369 | after a successful map, a single solver without `idx_impurities` gives every impurity its type; otherwise some entry lists impurity i, and i's type is the type of every entry listing it |
| SolverMap.ShellMultiplicity | python/solid_dmft/dmft_cycle.py:476 | one count per inequivalent shell: the number of correlated shells mapped to it |
| SolverMap.MultiplicitiesSumToCorrShells | python/solid_dmft/dmft_cycle.py:476 | the multiplicities add up to the number of correlated shells |
| BlockStructure.InitialDegShells | python/solid_dmft/dmft_cycle.py:122-124 | without spin-orbit coupling every shell starts with the group `['up_0', 'down_0']`; otherwise the groups are kept |
| BlockStructure.LabelsWith | python/solid_dmft/dmft_cycle.py:164 | exactly the labels of a group that contain the spin name |
| BlockStructure.LabelsWithIsSubsequence | python/solid_dmft/dmft_cycle.py:164 | the filtered labels keep their order: a subsequence of the group |
| BlockStructure.AdjustDegShells | python/solid_dmft/dmft_cycle.py:155-171 | a magnetic run without SO keeps one entry per shell; an SO run has every shell's groups emptied; otherwise the groups are unchanged |
| BlockStructure.MagneticGroupsWellFormed | python/solid_dmft/dmft_cycle.py:158-168 | every group kept in a magnetic run has at least two labels, all containing 'up' or all containing 'down', and is a subsequence of an original group |
| BlockStructure.MagneticGroupsComplete | python/solid_dmft/dmft_cycle.py:161-167 | each spin's share of an original group with at least two labels is kept |
| BlockStructure.MagneticRunDegeneracies | python/solid_dmft/dmft_cycle.py:155-171 | the adjusted structure: magnetic groups are well formed per shell; with SO every group list is empty |
| BlockStructure.DefaultPairsDroppedWhenMagnetic | python/solid_dmft/dmft_cycle.py:122-168 | the default up/down pairs all disappear in a magnetic run |
| BlockStructure.LoadedDegShells | python/solid_dmft/dmft_cycle.py:446-448 | on the load-sigma path a magnetic run without SO has no degenerate groups; otherwise the loaded groups are kept |
| BlockStructure.ChooseBlockSource | python/solid_dmft/dmft_cycle.py:413-466 | load-sigma reads the other archive; otherwise the structure is determined iff the own archive holds none |
| BlockStructure.RotMatsAgree | python/solid_dmft/dmft_cycle.py:436 | the `all(...)` over the zipped pairs: true iff every compared pair is close; an exception is that of the first pair that is not close, raised only after every earlier pair agreed |
| BlockStructure.CheckRotMat | python/solid_dmft/dmft_cycle.py:436-459 | raises iff the first pair that is not close raises, with its exception; otherwise the warning is given iff some compared pair is not close, `previous_rot_mat` is kept only with a warning, and a resumed run overwrites the archived matrices only on a mismatch |
| BlockStructure.MismatchedShapesRaise | python/solid_dmft/dmft_cycle.py:436-459 | a pair whose comparison raises ValueError, after agreeing pairs, makes the whole check raise ValueError |
| BlockStructure.RotMatCountNotChecked | python/solid_dmft/dmft_cycle.py:436 | a loaded list with an extra matrix but a matching prefix gives no warning |
| Cycle.StartOfRun | python/solid_dmft/dmft_cycle.py:313-377 | the offset is the archived `iteration_count` (0 if absent); `mu_initial_guess` overrides mu exactly when the offset is 0 |
| Cycle.UpdateConverged | python/solid_dmft/dmft_cycle.py:839-844 | None resets the flag; a fresh True sets it; a set flag survives any other verdict; a set flag means a verdict was given and one of the two was true |
| Cycle.HFieldAt | python/solid_dmft/dmft_cycle.py:562-566 | the field is the seed or zero; zero exactly after `h_field_it` when it is nonzero; never removed when `h_field_it` is 0 |
| Cycle.HFieldStaysOff | python/solid_dmft/dmft_cycle.py:562-566 | once removed the field stays zero at every later iteration |
| Cycle.G0MixingApplies | python/solid_dmft/dmft_cycle.py:664 | G0 is mixed iff the iteration is at least 2 |
| Cycle.BindPositional | python/solid_dmft/dmft_tools/initial_self_energies.py:40 | positional arguments bind iff their number is between the required and the total parameter count; otherwise TypeError |
| Cycle.DcArgumentBinding | python/solid_dmft/dmft_cycle.py:765-768 | the five-argument DC call in a step raises TypeError; the start-up calls and the call with `gw_params` bind |
| Cycle.StepOutcome | python/solid_dmft/dmft_cycle.py:764-844 | a step fails iff it recomputes the DC with arguments that do not bind; otherwise it returns the updated convergence flag |
| Cycle.StepDcRecomputationAsWritten | python/solid_dmft/dmft_cycle.py:765-768 | with `dc` and `dc_dmft` set, every step raises TypeError |
| Cycle.StepDcRecomputationCorrected | python/solid_dmft/dmft_cycle.py:765-768 | with `gw_params` passed, recomputing the DC does not change a step's outcome |
| Cycle.MainStepsStopAtFirstConvergence | python/solid_dmft/dmft_cycle.py:559-577 | the main loop runs at most `n_iter` steps, stops right after the first converged one, and runs all of them when none converges |
| Cycle.DmftCycle | python/solid_dmft/dmft_cycle.py:557-599 | main iterations are numbered offset+1.. in order with the flag cleared and the field of that iteration; the final flag is the last main verdict; sampling runs exactly `sampling_iterations` further numbered steps with the flag set only after convergence; a step's TypeError ends the run |
| DeltaInterface.UsesDeltaInterfaceAsWritten | python/solid_dmft/dmft_cycle.py:672-673 | ctseg always uses the interface; cthyb reads `delta_interface` of the solver entry with the impurity's index, and raises IndexError past the last entry |
| DeltaInterface.DeltaInterfaceFollowsServingSolver | python/solid_dmft/dmft_cycle.py:509 | with the run's solver map, the gate reads type and flag from the entry serving the impurity |
| DeltaInterface.DeltaInterfaceAsWrittenFailsForSharedSolver | python/solid_dmft/dmft_cycle.py:672-673 | one cthyb entry serving two impurities: the gate as written fails on the second |
| DeltaInterface.ZeroOffDiagonalDelta | python/solid_dmft/dmft_cycle.py:692-696 | every off-diagonal element of Delta(tau) is zero at every time point; diagonal elements are unchanged |
| DeltaInterface.BuildHloc0 | python/solid_dmft/dmft_cycle.py:699-708 | Hloc_0 is the reference term list: one term, with half the real part, per diagonal element and per off-diagonal element not below `off_diag_threshold`, in loop order |
| DeltaInterface.Hloc0TermsMeaning | python/solid_dmft/dmft_cycle.py:699-708 | the reference term list holds a term for every diagonal element and every off-diagonal one not below the threshold, and no other term |
| DoubleCounting.SetShellDc | python/solid_dmft/dmft_tools/initial_self_energies.py:79-80 | `calc_dc` for one inequivalent shell sets every correlated shell of it and keeps the state's shape |
| DoubleCounting.RunPhaseClosedForm | python/solid_dmft/dmft_tools/initial_self_energies.py:73-196 | after a loop of `calc_dc` calls each correlated shell holds the result for its inequivalent shell if that shell was computed, and its old DC otherwise |
| DoubleCounting.FormulaRequestOfShell | python/solid_dmft/dmft_tools/initial_self_energies.py:100-196 | Hartree shells are skipped; cRPA types take the static cRPA DC; `dc_type` 3 calls formula 0 with U-J and 2J; other types keep their U, J and formula |
| DoubleCounting.FillDiagonal | python/solid_dmft/dmft_tools/initial_self_energies.py:96-97 | the diagonal is set to the value and every other element is kept |
| DoubleCounting.FixOccupation | python/solid_dmft/dmft_tools/initial_self_energies.py:92-97 | every block of the copied density has its diagonal filled, names kept |
| DoubleCounting.TraceOfFilledDiagonal | python/solid_dmft/dmft_tools/initial_self_energies.py:92-97 | a filled n x n block has real trace n times the value |
| DoubleCounting.FixedOccupationIsTotal | python/solid_dmft/dmft_tools/initial_self_energies.py:90-97 | with two spin blocks the fixed occupation puts exactly `dc_fixed_occ` electrons into the density the formula sees |
| DoubleCounting.NominalEnergy | python/solid_dmft/dmft_tools/initial_self_energies.py:208-221 | fails with IndexError on an empty block and ZeroDivisionError on a shell without blocks |
| DoubleCounting.NominalEnergyOfUniformPotential | python/solid_dmft/dmft_tools/initial_self_energies.py:208-221 | with the same leading potential v in every block the energy is n_DC times v |
| DoubleCounting.NominalEnergiesAreShellwise | python/solid_dmft/dmft_tools/initial_self_energies.py:208-221 | the loop succeeds iff every shell's energy can be formed, and then holds exactly those energies |
| DoubleCounting.NominalFailurePersists | python/solid_dmft/dmft_tools/initial_self_energies.py:208-221 | once a shell fails the loop's exception is that shell's, whatever follows |
| DoubleCounting.NominalStep | python/solid_dmft/dmft_tools/initial_self_energies.py:200-222 | NotImplementedError with a 'Hartree' solver; otherwise success iff every shell's energy can be formed, a failure being the first failing shell's; on success the potentials stay and each energy is the average over blocks of n_DC times the leading potential, with n_DC from the original density |
| DoubleCounting.NominalEnergiesFailAtFirst | python/solid_dmft/dmft_tools/initial_self_energies.py:208-221 | a failing energy loop fails with the exception of a shell whose energy fails while every earlier shell's succeeds |
| DoubleCounting.NominalGuardMissesHartreeSolver | python/solid_dmft/dmft_tools/initial_self_energies.py:201 | a run whose solver type is 'hartree' passes the guard |
| DoubleCounting.ScaleDc | python/solid_dmft/dmft_tools/initial_self_energies.py:232-239 | every potential element and every energy is multiplied by the factor, nothing else changes |
| DoubleCounting.ScaleDcComposes | python/solid_dmft/dmft_tools/initial_self_energies.py:232-239 | a factor 1 is the identity and two factors compose to their product |
| DoubleCounting.Chunks | python/solid_dmft/dmft_tools/initial_self_energies.py:255-260 | inequivalent shell i takes the next `dim_i` entries of `dc_orb_shift` |
| DoubleCounting.ChunksTile | python/solid_dmft/dmft_tools/initial_self_energies.py:255-260 | with enough entries the chunks, concatenated, are the consumed prefix of the list, in order |
| DoubleCounting.ChunkHasShellSize | python/solid_dmft/dmft_tools/initial_self_energies.py:255-260 | with enough entries each chunk has its shell's dimension |
| DoubleCounting.AddDiagonal | python/solid_dmft/dmft_tools/initial_self_energies.py:265-266 | `m + np.diag(d)`, broadcast; its meaning is `AddDiagonalMeaning` |
| DoubleCounting.AddDiagonalMeaning | python/solid_dmft/dmft_tools/initial_self_energies.py:266 | for a square block of the chunk's size, the chunk is added to the diagonal and the rest is kept; a one-entry chunk is added to every element |
| DoubleCounting.OrbShiftStep | python/solid_dmft/dmft_tools/initial_self_energies.py:248-269 | NotImplementedError with a 'Hartree' solver; otherwise success iff the chunks have one length and each broadcasts against every block of its shell, else ValueError |
| DoubleCounting.OrbShiftEffect | python/solid_dmft/dmft_tools/initial_self_energies.py:255-269 | each block gains diag(chunk); correlated shells of the same inequivalent shell get the same result; energies untouched |
| DoubleCounting.ShortShiftRejected | python/solid_dmft/dmft_tools/initial_self_energies.py:255-266 | with square blocks of every shell's dimension, at least 2, a list shorter than the total dimension fails with ValueError unless it has exactly one entry |
| DoubleCounting.SingleEntryShiftBroadcasts | python/solid_dmft/dmft_tools/initial_self_energies.py:255-269 | one inequivalent shell and a one-entry list: the step succeeds and every element of every block gains that entry |
| DoubleCounting.OrbShiftIgnoresExtraEntries | python/solid_dmft/dmft_tools/initial_self_energies.py:255-260 | entries beyond the total dimension change nothing |
| DoubleCounting.DoubleCountingSpec | python/solid_dmft/dmft_tools/initial_self_energies.py:40-271 | the pipeline in its fixed order, with the exception raised if any; the state keeps its shape |
| DoubleCounting.FixedValueReturnsEarly | python/solid_dmft/dmft_tools/initial_self_energies.py:73-87 | with `dc_fixed_value`, Hartree shells get 0 and all others the value, and nothing else runs |
| DoubleCounting.RegularDcPerShell | python/solid_dmft/dmft_tools/initial_self_energies.py:73-196 | without post-processing each shell holds `calc_dc` of its request on its (fixed-occupation) density; Hartree shells get 0 |
| DoubleCounting.FactorOnlyScales | python/solid_dmft/dmft_tools/initial_self_energies.py:232-239 | setting `dc_factor` scales the result of the rest of the pipeline and changes nothing else |
| DoubleCounting.WithHartreeEnergies | python/solid_dmft/dmft_cycle.py:770-775 | Hartree shells take the solver's DC energy; other energies and all potentials are kept |
| SumkState.Sumk.CalculateDoubleCounting | python/solid_dmft/dmft_tools/initial_self_energies.py:40-271 | the in-place pipeline leaves exactly the state and exception of `DoubleCountingSpec` on every path |
| SumkState.Sumk.HartreePhase | python/solid_dmft/dmft_tools/initial_self_energies.py:73-80 | the loop leaves the state of the Hartree actions |
| SumkState.Sumk.FixedValuePhase | python/solid_dmft/dmft_tools/initial_self_energies.py:83-87 | the loop leaves the state of the fixed-value actions |
| SumkState.Sumk.RegularPhase | python/solid_dmft/dmft_tools/initial_self_energies.py:100-196 | the loop leaves the state of the formula actions, the cRPA DC set directly |
| SumkState.Sumk.NominalPhase | python/solid_dmft/dmft_tools/initial_self_energies.py:200-222 | the state and exception are those of `NominalStep`; a failure leaves the state untouched |
| SumkState.Sumk.FactorPhase | python/solid_dmft/dmft_tools/initial_self_energies.py:232-239 | the state becomes the scaled state |
| SumkState.Sumk.OrbShiftPhase | python/solid_dmft/dmft_tools/initial_self_energies.py:248-269 | the state and exception are those of `OrbShiftStep` |
| SumkState.Sumk.FixedOccDensities | python/solid_dmft/dmft_tools/initial_self_energies.py:69-97 | the copied densities equal `DcDensities`; the caller's densities are values and stay as they were |
| SumkState.Sumk.FillEveryBlock | python/solid_dmft/dmft_tools/initial_self_energies.py:96-97 | equals `FixOccupation` |
| SumkState.Sumk.NominalEnergiesOf | python/solid_dmft/dmft_tools/initial_self_energies.py:208-221 | the energy loop returns `NominalEnergies` for all correlated shells |
| SumkState.Sumk.TotalOccupation | python/solid_dmft/dmft_tools/initial_self_energies.py:209-211 | n_DC is the sum of the blocks' real traces |
| SumkState.Sumk.ShellNominalEnergy | python/solid_dmft/dmft_tools/initial_self_energies.py:215-221 | equals `NominalEnergy` |
| SumkState.Sumk.SplitOrbShift | python/solid_dmft/dmft_tools/initial_self_energies.py:253-260 | consuming the list with `del` yields exactly `Chunks` |
| SumkState.Sumk.SetHartreeDcEnergies | python/solid_dmft/dmft_cycle.py:770-775 | the loop leaves `WithHartreeEnergies` of the old state |
| SumkState.Sumk.SetLoadedSigma | python/solid_dmft/dmft_tools/initial_self_energies.py:362-434 | ValueError from the comparison leaves the DC as it was; an unchanged DC returns the loaded sigma; a changed DC returns the remap of `add_dc` with the DC difference and restores the calculated DC; a failed remap leaves the difference in `dc_imp` and fails as the remap does |
| LoadedSigma.Lookup | python/solid_dmft/dmft_tools/initial_self_energies.py:401-402 | a block is found iff its name is in the shell, and it is a block of that name |
| LoadedSigma.LookupFindsBlock | python/solid_dmft/dmft_tools/initial_self_energies.py:401-402 | with unique names the lookup finds the block itself |
| LoadedSigma.DcComparison | python/solid_dmft/dmft_tools/initial_self_energies.py:390-404 | a shell-count mismatch raises ValueError; every failure is ValueError; success means equal counts and equal key multisets in every shell |
| LoadedSigma.ComparisonMeaning | python/solid_dmft/dmft_tools/initial_self_energies.py:390-410 | the DC counts as unchanged iff every channel of every shell agrees within 1e-4 |
| LoadedSigma.ShellChangedMeaning | python/solid_dmft/dmft_tools/initial_self_energies.py:400-404 | one shell: unchanged iff all its channels are close |
| LoadedSigma.ShellChanged | python/solid_dmft/dmft_tools/initial_self_energies.py:400-404 | the channel loop's only exception is ValueError, from shapes that do not broadcast |
| LoadedSigma.AllCloseSameShape | python/solid_dmft/dmft_tools/initial_self_energies.py:402 | on arrays of one shape `np.allclose` raises nothing and holds iff every pair of entries is within 1e-4 |
| LoadedSigma.ShellsChangedMeaning | python/solid_dmft/dmft_tools/initial_self_energies.py:396-404 | all shells: keys agree, and unchanged iff every shell is close |
| LoadedSigma.SameDcUnchanged | python/solid_dmft/dmft_tools/initial_self_energies.py:390-410 | comparing a DC with itself finds no change |
| LoadedSigma.CompareLoadedDc | python/solid_dmft/dmft_tools/initial_self_energies.py:390-404 | the loops, with `break` leaving only the channel loop, compute `DcComparison` |
| LoadedSigma.CompareShell | python/solid_dmft/dmft_tools/initial_self_energies.py:400-404 | the channel loop computes `ShellChanged` |
| LoadedSigma.ShellDifference | python/solid_dmft/dmft_tools/initial_self_energies.py:417-418 | success iff every channel's shapes broadcast, else ValueError; each channel becomes loaded minus calculated, broadcast |
| LoadedSigma.DcDifference | python/solid_dmft/dmft_tools/initial_self_energies.py:417-419 | the shell-by-shell difference, or ValueError |
| Remap.Localized | python/solid_dmft/dmft_tools/initial_self_energies.py:336-346 | with rotations every block is rotated to the local frame of its shell; otherwise the self-energies are kept |
| Remap.IdentityMapCopiesBlock | python/solid_dmft/dmft_tools/initial_self_energies.py:349-356 | a `solver_to_sumk` that is the identity on a block copies that block |
| Remap.FillSolverBlock | python/solid_dmft/dmft_tools/initial_self_energies.py:351-356 | without error every entry (i, j) is the lattice entry at the two lookups, block from the second; an error is the first failing entry's |
| Remap.SumkSigmaToSolverStruct | python/solid_dmft/dmft_tools/initial_self_energies.py:319-359 | on success shell i's blocks are those of `gf_struct_solver[i]`, with its dimensions, filled from correlated shell `inequiv_to_corr[i]`; a failure comes from some entry's lookup |
| InitialSigma.SelectMode | python/solid_dmft/dmft_tools/initial_self_energies.py:487-560 | exactly one mode, in priority order: resume, load sigma, DC, magnetic without DC, zero |
| InitialSigma.InitialDcCall | python/solid_dmft/dmft_tools/initial_self_energies.py:487-513 | which density the DC is computed from at start-up, if at all, per mode, `dc`, `dc_dmft` and `csc` |
| InitialSigma.ResumeRecomputesDcWithoutDcFlag | python/solid_dmft/dmft_tools/initial_self_energies.py:487-491 | a resumed charge self-consistent run without `dc_dmft` recomputes the DC even with `dc` off |
| InitialSigma.NoDcCallWithoutDc | python/solid_dmft/dmft_tools/initial_self_energies.py:487-560 | a fresh run without `dc` and `load_sigma` never computes the DC |
| InitialSigma.BiasFor | python/solid_dmft/dmft_tools/initial_self_energies.py:533-557 | blocks named with 'up' get -magmom, all others +magmom |
| InitialSigma.InitialSigmaShell | python/solid_dmft/dmft_tools/initial_self_energies.py:515-560 | one block per solver block, in order; IndexError iff a bias applies and `magmom` has no entry for the shell |
| InitialSigma.BiasSplitsSpins | python/solid_dmft/dmft_tools/initial_self_energies.py:525-557 | with equal DC, 'down' minus 'up' is 2 magmom in every element on the DC path and on the diagonal without DC |
| InitialSigma.NoBiasWithoutMagmom | python/solid_dmft/dmft_tools/initial_self_energies.py:525-539 | without a usable `magmom` the DC path starts from the DC itself and the magnetic path from zero |
| InitialSigma.Symmetrized | python/solid_dmft/dmft_tools/initial_self_energies.py:570 | element (a, b) is the mean of the draw's (a, b) and (b, a) |
| InitialSigma.SymmetrizedIsSymmetric | python/solid_dmft/dmft_tools/initial_self_energies.py:570 | the added noise is symmetric, and a symmetric draw is kept as it is |
| InitialSigma.AddNoise | python/solid_dmft/dmft_tools/initial_self_energies.py:563-571 | at every frequency the real part of each element gains the symmetrized noise; a block Hermitian at every frequency stays Hermitian |
| InitialSigma.AddInitialNoise | python/solid_dmft/dmft_tools/initial_self_energies.py:562-571 | with a level not about zero and iteration offset 0 every block gains its symmetrized draw, except that a negative level raises ValueError at the first block and changes nothing; otherwise no block changes |
| InitialSigma.LoadPath | python/solid_dmft/dmft_tools/initial_self_energies.py:297-298 | the path lies under `DMFT_results/` and is `DMFT_results/last_iter` for -1 |
| InitialSigma.LoadPathInjective | python/solid_dmft/dmft_tools/initial_self_energies.py:297-298 | different iterations are read from different groups; -1 never reads a numbered group |
| InitialSigma.IntToStringInjective | python/solid_dmft/dmft_tools/initial_self_energies.py:298 | no two iteration numbers format to the same text |

## Left out

- HDF5 reads and writes, MPI broadcasts and barriers, and every report and print. The archive's contents are parameters: `iteration_count`, the presence of `block_structure`, and the loaded self-energy and DC.
- The printout after `_set_loaded_sigma` corrects the self-energy indexes `loaded_sigma[0]` and `start_sigma[0][first_block]`, and can itself raise IndexError or, when impurity 0's solver structure lacks the loaded first block name, KeyError; with the other prints it is not modelled.
- The printouts after the nominal and factor steps (`dc_per_spin[0][0]`) are not modelled.
- TRIQS numerics are not modelled: the Dyson equation, `make_hermitian`, the tail fit and Fourier transforms, `symm_deg_gf`, the solvers, the mixers, `calc_mu`, `extract_G_loc`, `analyse_block_structure` and the ftps degeneracies.
- `pick_gf_struct_solver` and `map_gf_struct_solver` are not modelled. `AdjustDegShells` starts from the groups they leave.
- The cRPA/DLR dynamic DC (initial_self_energies.py:111-190) is a function parameter. Only where its static result is stored is modelled.
- The eigen-decomposition in `_calculate_rotation_matrix`, `_chi_setup`, and TRIQS `Operator` algebra are not modelled. Hloc_0 is the list of its terms.
- `np.random.normal`: the noise matrices are inputs, one per block; `AddInitialNoise` takes the blocks of all impurities as one list of distinct arrays.
- Zeroing `Sigma_imp` after `_set_loaded_sigma`, and handing the initial self-energy to the solvers, are not modelled.
- The `density_tot`/`density_shell` accumulation of `_dmft_step` sums TRIQS densities and is not modelled.
- `np.allclose` of two rotation matrices is the parameter `close` of `CheckRotMat`, a verdict or the exception it raises; its tolerances on complex entries are not modelled.
- Floating point: all arithmetic is over exact reals, so rounding in `np.allclose`, `np.isclose` and the DC arithmetic is not modelled.
- Remap.SumkSigmaToSolverStruct: on failure it states that some entry's lookup fails with that exception, not which entry fails first across blocks.
- Remap.FillSolverBlock: on failure it does not state the contents of the partly filled block, which the caller discards.
- SumkState.Sumk.SetLoadedSigma: when the remap fails it states the failing entry as `SumkSigmaToSolverStruct` does, not which entry fails first.
- numpy before 1.24 builds an object array from ragged `dc_orb_shift` chunks, and `dc_orb_shift[icrsh,:]` then raises IndexError; that behaviour is not modelled.
- A 2-D array with no rows stands for the 0 x 0 array; a 0 x k array with k > 0 is not distinguished from it.
- An index beyond a TRIQS block is reported as IndexError. TRIQS's own exception type is not part of this model.

## Findings

| source | as written | input that shows it | evidently intended | confidence | as-written member | corrected member |
|---|---|---|---|---|---|---|
| python/solid_dmft/dmft_cycle.py:672-673 | the delta-interface gate reads `solver_params[icrsh]`, indexing the solver list with the impurity index (so do `diag_delta` and `off_diag_threshold` at 692 and 703) | one cthyb solver entry with `idx_impurities` None serving two impurities: impurity 1 raises IndexError | read the entry `map_imp_solver[icrsh]` that serves the impurity, as the solver is built at line 509 | not executed | DeltaInterface.DeltaInterfaceAsWrittenFailsForSharedSolver | DeltaInterface.DeltaInterfaceFollowsServingSolver |
| python/solid_dmft/dmft_cycle.py:765-768 | `calculate_double_counting` is called with five positional arguments, leaving out `gw_params`, while it requires six | `dc` and `dc_dmft` both true with `n_iter` at least 1: the first step raises TypeError | pass `gw_params` as at initial_self_energies.py:490-491 | not executed | Cycle.StepDcRecomputationAsWritten | Cycle.StepDcRecomputationCorrected |
