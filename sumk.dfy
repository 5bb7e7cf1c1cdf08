/**
 * The part of the lattice object (`SumkDFT`) that `calculate_double_counting`
 * updates in place: the DC potentials and energies of the correlated shells.
 * Its methods follow the loops of initial_self_energies.py:40-271 and leave
 * the object in the state `DoubleCounting.DoubleCountingSpec` describes.
 */
module SumkState {
  import opened Common
  import opened DoubleCounting
  import opened NumpyArrays
  import opened LoadedSigma
  import opened Remap

  class Sumk {
    const layout: Layout
    var dcImp: seq<BlockMatrices>
    var dcEnerg: seq<real>

    function State(): DcState
      reads this
    {
      DcState(dcImp, dcEnerg)
    }

    ghost predicate Valid()
      reads this
    {
      ValidLayout(layout) && Fits(State(), layout)
    }

    constructor (l: Layout, initialImp: seq<BlockMatrices>, initialEnerg: seq<real>)
      requires ValidLayout(l) && Fits(DcState(initialImp, initialEnerg), l)
      ensures Valid() && layout == l && State() == DcState(initialImp, initialEnerg)
    {
      layout := l;
      dcImp := initialImp;
      dcEnerg := initialEnerg;
    }

    /** `calc_dc(dens, orb=orb, ...)`: the potential and energy of every correlated shell of `orb`. */
    method CalcDc(dens: DensityShell, orb: nat, req: DcRequest, calcDc: CalcDcFn)
      requires Valid() && orb < |layout.inequivToCorr|
      modifies this
      ensures Valid() && State() == SetShellDc(old(State()), layout, orb, calcDc(orb, dens, req))
    {
      var next := SetShellDc(State(), layout, orb, calcDc(orb, dens, req));
      dcImp, dcEnerg := next.dcImp, next.dcEnerg;
    }

    /** `set_dc(dc_imp, dc_energ)`. */
    method SetDc(newImp: seq<BlockMatrices>, newEnerg: seq<real>)
      requires Valid() && Fits(DcState(newImp, newEnerg), layout)
      modifies this
      ensures Valid() && State() == DcState(newImp, newEnerg)
    {
      dcImp, dcEnerg := newImp, newEnerg;
    }

    /**
     * `calculate_double_counting`: returns the exception raised, if any, and
     * leaves the object as the specification says, on every path.
     */
    method CalculateDoubleCounting(types: seq<string>, dens: seq<DensityShell>, p: DcParams,
                                   calcDc: CalcDcFn, crpa: CrpaFn)
      returns (raised: Option<Error>)
      requires Valid() && DcInputsFit(State(), layout, types, dens, p)
      modifies this
      ensures Valid()
      ensures DcRun(State(), raised) == DoubleCountingSpec(old(State()), layout, types, dens, p, calcDc, crpa)
    {
      HartreePhase(types, dens, calcDc);
      if p.dcFixedValue.Some? {
        FixedValuePhase(types, dens, p.dcFixedValue.value, calcDc);
        return None;
      }
      var densDc := FixedOccDensities(types, p, layout, dens);
      RegularPhase(types, densDc, p, calcDc, crpa);
      if p.dcNominal {
        raised := NominalPhase(types, dens);
        if raised.Some? {
          return;
        }
      }
      if p.dcFactor.Some? {
        FactorPhase(p.dcFactor.value);
      }
      raised := None;
      if p.dcOrbShift.Some? {
        raised := OrbShiftPhase(types, p.dcOrbShift.value);
      }
    }

    /**
     * `_set_loaded_sigma` (initial_self_energies.py:362-434): the loaded
     * self-energy is kept when the DC did not change; otherwise the lattice
     * object's DC is set to the loaded minus the calculated DC, `addDc`
     * (`put_Sigma` then `add_dc`) applies it to the loaded self-energy, the
     * result is remapped to the solver structure and the calculated DC is put
     * back. An exception in the remap leaves the difference in place.
     */
    method SetLoadedSigma<G(==,0)>(loadedSigma: seq<seq<SolverBlock<G>>>, loadedDcImp: seq<BlockMatrices>,
                                   addDc: (seq<seq<SolverBlock<G>>>, seq<BlockMatrices>) -> seq<map<string, Mat<G>>>,
                                   s: Structure<G>)
      returns (r: Result<seq<seq<SolverBlock<G>>>>)
      requires Valid()
      requires forall sigma, dc :: |addDc(sigma, dc)| == |layout.corrToInequiv|
      requires StructureFits(s, |layout.corrToInequiv|)
      modifies this
      ensures Valid() && dcEnerg == old(dcEnerg)
      ensures var cmp := DcComparison(loadedDcImp, old(dcImp));
              && (cmp.Failure? ==> r == Failure(cmp.error) && dcImp == old(dcImp))
              && (cmp == Success(false) ==> r == Success(loadedSigma) && dcImp == old(dcImp))
              && (cmp == Success(true) ==>
                    var diff := DcDifference(loadedDcImp, old(dcImp));
                    && (diff.Failure? ==> r == Failure(diff.error) && dcImp == old(dcImp))
                    && (diff.Success? && r.Success? ==>
                          dcImp == old(dcImp) && IsRemapOf(r.value, addDc(loadedSigma, diff.value), s))
                    && (diff.Success? && r.Failure? ==>
                          dcImp == diff.value && RemapFailsWith(addDc(loadedSigma, diff.value), s, r.error)))
    {
      var changed := CompareLoadedDc(loadedDcImp, dcImp);
      if changed.Failure? {
        return Failure(changed.error);
      }
      if !changed.value {
        return Success(loadedSigma);
      }
      var calculatedDcImp := dcImp;
      var diff := DcDifference(loadedDcImp, dcImp);
      if diff.Failure? {
        return Failure(diff.error);
      }
      dcImp := diff.value;
      var startSigma := addDc(loadedSigma, dcImp);
      r := SumkSigmaToSolverStruct(startSigma, s);
      if r.Failure? {
        return;
      }
      dcImp := calculatedDcImp;
    }

    /**
     * After the solvers ran (dmft_cycle.py:770-775): every correlated shell
     * whose inequivalent shell uses the Hartree solver takes that solver's DC
     * energy; the DC potentials are not touched.
     */
    method SetHartreeDcEnergies(types: seq<string>, solverDcEnergy: seq<real>)
      requires Valid() && |types| == |layout.inequivToCorr| && |solverDcEnergy| == |types|
      modifies this
      ensures Valid() && State() == WithHartreeEnergies(old(State()), layout, types, solverDcEnergy)
    {
      ghost var st0 := State();
      for icrsh := 0 to |layout.corrToInequiv|
        invariant Valid() && dcImp == st0.dcImp && |dcEnerg| == |st0.dcEnerg|
        invariant forall c | 0 <= c < |layout.corrToInequiv| ::
                    dcEnerg[c] == if c < icrsh && types[layout.corrToInequiv[c]] == "hartree"
                                  then solverDcEnergy[layout.corrToInequiv[c]] else st0.dcEnerg[c]
      {
        var iineq := layout.corrToInequiv[icrsh];
        if types[iineq] == "hartree" {
          dcEnerg := dcEnerg[icrsh := solverDcEnergy[iineq]];
        }
      }
      assert dcEnerg == WithHartreeEnergies(st0, layout, types, solverDcEnergy).dcEnerg;
    }

    /** Hartree shells get a zero DC (initial_self_energies.py:73-80). */
    method HartreePhase(types: seq<string>, dens: seq<DensityShell>, calcDc: CalcDcFn)
      requires Valid() && |types| == |layout.inequivToCorr| && |dens| == |types|
      modifies this
      ensures Valid() && State() == RunPhase(old(State()), layout, HartreeActions(types), dens, calcDc, |types|)
    {
      ghost var st0 := State();
      for i := 0 to |types|
        invariant Valid() && State() == RunPhase(st0, layout, HartreeActions(types), dens, calcDc, i)
      {
        if types[i] == "hartree" {
          CalcDc(dens[i], i, UseValue(0.0), calcDc);
        }
      }
    }

    /** Every other shell gets `dc_fixed_value` (initial_self_energies.py:83-87). */
    method FixedValuePhase(types: seq<string>, dens: seq<DensityShell>, v: real, calcDc: CalcDcFn)
      requires Valid() && |types| == |layout.inequivToCorr| && |dens| == |types|
      modifies this
      ensures Valid() && State() == RunPhase(old(State()), layout, FixedValueActions(types, v), dens, calcDc, |types|)
    {
      ghost var st0 := State();
      for i := 0 to |types|
        invariant Valid() && State() == RunPhase(st0, layout, FixedValueActions(types, v), dens, calcDc, i)
      {
        if types[i] != "hartree" {
          CalcDc(dens[i], i, UseValue(v), calcDc);
        }
      }
    }

    /** The regular DC from U, J and `dc_type` (initial_self_energies.py:100-196). */
    method RegularPhase(types: seq<string>, densDc: seq<DensityShell>, p: DcParams, calcDc: CalcDcFn, crpa: CrpaFn)
      requires Valid() && |types| == |layout.inequivToCorr| && |densDc| == |types| && ParamsFit(p, |types|)
      modifies this
      ensures Valid() && State() == RunPhase(old(State()), layout, FormulaActions(types, p, crpa), densDc, calcDc, |types|)
    {
      ghost var st0 := State();
      for i := 0 to |types|
        invariant Valid() && State() == RunPhase(st0, layout, FormulaActions(types, p, crpa), densDc, calcDc, i)
      {
        if types[i] != "hartree" {
          if p.dcType[i] == FormulaNumber(3) {
            CalcDc(densDc[i], i, Formula(p.dcU[i] - p.dcJ[i], 2.0 * p.dcJ[i], FormulaNumber(0)), calcDc);
          } else if IsCrpa(p.dcType[i]) {
            // `sum_k.dc_imp[icrsh] = Sig_DC_hartree`
            dcImp := dcImp[i := crpa(i)];
          } else {
            CalcDc(densDc[i], i, Formula(p.dcU[i], p.dcJ[i], p.dcType[i]), calcDc);
          }
        }
      }
    }

    /** The nominal DC energies (initial_self_energies.py:200-220); `set_dc` is reached only when every shell succeeds. */
    method NominalPhase(types: seq<string>, dens: seq<DensityShell>) returns (raised: Option<Error>)
      requires Valid() && |dens| == |layout.inequivToCorr|
      modifies this
      ensures Valid()
      ensures var r := NominalStep(old(State()), layout, types, dens);
              if r.Failure? then raised == Some(r.error) && State() == old(State())
              else raised.None? && State() == r.value
    {
      if "Hartree" in types {
        return Some(NotImplementedError);
      }
      var energies := NominalEnergiesOf(State(), layout, dens);
      if energies.Failure? {
        return Some(energies.error);
      }
      SetDc(dcImp, energies.value);
      raised := None;
    }

    /** `dc_factor` (initial_self_energies.py:232-239). */
    method FactorPhase(f: real)
      requires Valid()
      modifies this
      ensures Valid() && State() == ScaleDc(old(State()), f)
    {
      var imp, energ := dcImp, dcEnerg;
      var rescaledImp := seq(|imp|, c requires 0 <= c < |imp| => ScalePotential(f, imp[c]));
      var rescaledEnerg := seq(|energ|, c requires 0 <= c < |energ| => f * energ[c]);
      SetDc(rescaledImp, rescaledEnerg);
    }

    /** `dc_orb_shift` (initial_self_energies.py:248-269). */
    method OrbShiftPhase(types: seq<string>, shift: seq<real>) returns (raised: Option<Error>)
      requires Valid()
      modifies this
      ensures Valid()
      ensures var r := OrbShiftStep(old(State()), layout, types, shift);
              if r.Failure? then raised == Some(r.error) && State() == old(State())
              else raised.None? && State() == r.value
    {
      if "Hartree" in types {
        return Some(NotImplementedError);
      }
      var n := |layout.inequivToCorr|;
      var chunks := SplitOrbShift(shift, layout.corrDims[..n]);
      // `np.array(dc_orb_shift)` and `dc_per_spin + np.diag(...)`
      if !Rectangular(chunks) || !ShiftFits(State(), layout, chunks) {
        return Some(ValueError);
      }
      var before := dcImp;
      var dc := seq(n, i requires 0 <= i < n => ShiftPotential(before[layout.inequivToCorr[i]], chunks[i]));
      ghost var target := ShiftedState(State(), layout, chunks);
      var m := |layout.corrToInequiv|;
      for c := 0 to m
        invariant |dcImp| == m && Valid() && dcEnerg == target.dcEnerg
        invariant forall c' | 0 <= c' < m :: dcImp[c'] == if c' < c then target.dcImp[c'] else before[c']
      {
        assert target.dcImp[c] == dc[layout.corrToInequiv[c]];
        dcImp := dcImp[c := dc[layout.corrToInequiv[c]]];
      }
      assert State() == target;
      raised := None;
    }

    /** The fixed-occupation copy of the density matrices (initial_self_energies.py:69, 89-97). */
    static method FixedOccDensities(types: seq<string>, p: DcParams, l: Layout, dens: seq<DensityShell>)
      returns (densDc: seq<DensityShell>)
      requires ValidLayout(l) && ParamsFit(p, |types|) && |types| == |dens| == |l.inequivToCorr|
      ensures densDc == DcDensities(types, p, l, dens)
    {
      ghost var target := DcDensities(types, p, l, dens);
      densDc := dens;
      for i := 0 to |types|
        invariant |densDc| == |dens|
        invariant forall j | 0 <= j < |dens| :: densDc[j] == if j < i then target[j] else dens[j]
      {
        if types[i] != "hartree" && p.dcFixedOcc[i].Some? {
          var nOrb := l.corrDims[i];
          var orbOcc := p.dcFixedOcc[i].value / (nOrb as real * 2.0);
          var blocks := FillEveryBlock(densDc[i], Complex(orbOcc, 0.0));
          assert nOrb as real * 2.0 == 2.0 * l.corrDims[i] as real;
          densDc := densDc[i := blocks];
        }
      }
    }

    /** `np.fill_diagonal(inner, v)` for every block of one shell's density copy. */
    static method FillEveryBlock(d: DensityShell, v: Complex) returns (r: DensityShell)
      ensures r == FixOccupation(d, v)
    {
      r := d;
      for k := 0 to |d|
        invariant |r| == |d|
        invariant forall j | 0 <= j < |d| :: r[j] == if j < k then DensBlock(d[j].name, FillDiagonal(d[j].m, v)) else d[j]
      {
        r := r[k := DensBlock(r[k].name, FillDiagonal(r[k].m, v))];
      }
    }

    /** The loop over the correlated shells at initial_self_energies.py:208-219. */
    static method NominalEnergiesOf(st: DcState, l: Layout, dens: seq<DensityShell>) returns (r: Result<seq<real>>)
      requires ValidLayout(l) && Fits(st, l) && |dens| == |l.inequivToCorr|
      ensures r == NominalEnergies(st, l, dens, |l.corrToInequiv|)
    {
      var energies: seq<real> := [];
      for ish := 0 to |l.corrToInequiv|
        invariant NominalEnergies(st, l, dens, ish) == Success(energies)
      {
        var nDc := TotalOccupation(dens[l.corrToInequiv[ish]]);
        var e := ShellNominalEnergy(st.dcImp[ish], nDc);
        if e.Failure? {
          NominalFailurePersists(st, l, dens, ish + 1, |l.corrToInequiv|);
          return Failure(e.error);
        }
        energies := energies + [e.value];
      }
      r := Success(energies);
    }

    /** `n_DC`: the sum of the real traces of a shell's density blocks. */
    static method TotalOccupation(d: DensityShell) returns (nDc: real)
      ensures nDc == Occupation(d)
    {
      nDc := 0.0;
      for k := 0 to |d|
        invariant nDc == Occupation(d[..k])
      {
        assert d[..k + 1][..k] == d[..k];
        nDc := nDc + RealTrace(d[k].m);
      }
      assert d[..|d|] == d;
    }

    /** `n_DC * dc_per_spin[0][0]` summed over the blocks, then divided by their number. */
    static method ShellNominalEnergy(pot: BlockMatrices, nDc: real) returns (r: Result<real>)
      ensures r == NominalEnergy(pot, nDc)
    {
      var en := 0.0;
      for k := 0 to |pot|
        invariant HasLeading(pot[..k]) && en == WeightedLeading(pot[..k], nDc)
      {
        if |pot[k].m| == 0 || |pot[k].m[0]| == 0 {
          assert !HasLeading(pot);
          return Failure(IndexError);
        }
        assert pot[..k + 1][..k] == pot[..k];
        en := en + nDc * pot[k].m[0][0];
      }
      assert pot[..|pot|] == pot;
      if |pot| == 0 {
        return Failure(ZeroDivisionError);
      }
      r := Success(en / |pot| as real);
    }

    /**
     * The `del dc_orb_shift_orig[:dim]` loop: one chunk per inequivalent
     * shell. `pos` marks where the list left by the `del`s starts.
     */
    static method SplitOrbShift(shift: seq<real>, dims: seq<nat>) returns (chunks: seq<seq<real>>)
      ensures chunks == Chunks(shift, dims, |dims|)
    {
      var pos := 0;
      chunks := [];
      for i := 0 to |dims|
        invariant chunks == Chunks(shift, dims, i)
        invariant pos == Min(PrefixSum(dims, i), |shift|)
      {
        var take := Min(dims[i], |shift| - pos);
        ChunksSnoc(shift, dims, i);
        chunks := chunks + [shift[pos..pos + take]];
        pos := pos + take;
      }
    }
  }
}
