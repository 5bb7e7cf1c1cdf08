/**
 * The double-counting (DC) bookkeeping of `calculate_double_counting`
 * (initial_self_energies.py:40-271), as functions on the DC state of the
 * lattice object: one potential (a dictionary of block matrices) and one
 * energy per correlated shell.
 *
 * The DC formulas themselves live in the lattice object's `calc_dc`, which
 * is a parameter here (`CalcDcFn`): given an inequivalent shell, its density
 * matrix and the request (a fixed value, or a formula with U and J), it
 * yields the potential and energy that `calc_dc` writes into every
 * correlated shell of that inequivalent shell. The static cRPA potential is
 * a parameter as well (`CrpaFn`).
 */
module DoubleCounting {
  import opened Common
  import opened NumpyArrays

  /** One named block of a DC potential; a potential keeps its blocks in dictionary order. */
  datatype Block = Block(name: string, m: Matrix)
  type BlockMatrices = seq<Block>

  /** One named block of a density matrix. */
  datatype DensBlock = DensBlock(name: string, m: seq<seq<Complex>>)
  type DensityShell = seq<DensBlock>

  /** `dc_type` of one impurity: a formula number, or a name such as 'crpa_static'. */
  datatype DcKind = FormulaNumber(n: int) | Named(tag: string)

  /** The arguments of one `calc_dc` call besides the density matrix and the shell. */
  datatype DcRequest = UseValue(v: real) | Formula(u: real, j: real, kind: DcKind)

  datatype ShellDc = ShellDc(pot: BlockMatrices, energy: real)

  type CalcDcFn = (nat, DensityShell, DcRequest) -> ShellDc
  type CrpaFn = nat -> BlockMatrices

  /** `sum_k.dc_imp` and `sum_k.dc_energ`, one entry per correlated shell. */
  datatype DcState = DcState(dcImp: seq<BlockMatrices>, dcEnerg: seq<real>)

  /** The shell layout of the lattice object. */
  datatype Layout = Layout(corrToInequiv: seq<nat>, inequivToCorr: seq<nat>, corrDims: seq<nat>)

  predicate ValidLayout(l: Layout) {
    && |l.corrDims| == |l.corrToInequiv|
    && |l.inequivToCorr| <= |l.corrToInequiv|
    && (forall c | 0 <= c < |l.corrToInequiv| :: l.corrToInequiv[c] < |l.inequivToCorr|)
    && (forall i | 0 <= i < |l.inequivToCorr| ::
          l.inequivToCorr[i] < |l.corrToInequiv| && l.corrToInequiv[l.inequivToCorr[i]] == i)
    && (forall c | 0 <= c < |l.corrDims| :: l.corrDims[c] >= 1)
  }

  predicate Fits(st: DcState, l: Layout) {
    |st.dcImp| == |l.corrToInequiv| && |st.dcEnerg| == |l.corrToInequiv|
  }

  /** The DC parameters, with the impurity-dependent ones already one entry per inequivalent shell. */
  datatype DcParams = DcParams(
    dcType: seq<DcKind>,
    dcU: seq<real>,
    dcJ: seq<real>,
    dcFixedValue: Option<real>,
    dcFixedOcc: seq<Option<real>>,
    dcNominal: bool,
    dcFactor: Option<real>,
    dcOrbShift: Option<seq<real>>)

  predicate ParamsFit(p: DcParams, n: nat) {
    |p.dcType| == n && |p.dcU| == n && |p.dcJ| == n && |p.dcFixedOcc| == n
  }

  // ---------------------------------------------------------------------
  // The calc_dc phases

  /** `calc_dc(orb=orb)`: every correlated shell of `orb` gets the new potential and energy. */
  function SetShellDc(st: DcState, l: Layout, orb: nat, d: ShellDc): (r: DcState)
    requires Fits(st, l)
    ensures Fits(r, l)
  {
    var n := |l.corrToInequiv|;
    DcState(seq(n, c requires 0 <= c < n => if l.corrToInequiv[c] == orb then d.pot else st.dcImp[c]),
            seq(n, c requires 0 <= c < n => if l.corrToInequiv[c] == orb then d.energy else st.dcEnerg[c]))
  }

  /** What one pass of a loop over the inequivalent shells does for shell `i`. */
  datatype DcAction = Skip | Calc(req: DcRequest) | SetStatic(pot: BlockMatrices)

  function ApplyAction(st: DcState, l: Layout, i: nat, dens: DensityShell, a: DcAction, calcDc: CalcDcFn)
    : (r: DcState)
    requires ValidLayout(l) && Fits(st, l) && i < |l.inequivToCorr|
    ensures Fits(r, l)
  {
    match a
    case Skip => st
    case Calc(req) => SetShellDc(st, l, i, calcDc(i, dens, req))
    // the cRPA branch stores into `dc_imp[icrsh]`, the shell with the loop's index
    case SetStatic(pot) => st.(dcImp := st.dcImp[i := pot])
  }

  /** The state after a loop over the first `k` inequivalent shells. */
  function RunPhase(st: DcState, l: Layout, acts: seq<DcAction>, dens: seq<DensityShell>, calcDc: CalcDcFn, k: nat)
    : (r: DcState)
    requires ValidLayout(l) && Fits(st, l)
    requires |acts| == |l.inequivToCorr| && |dens| == |l.inequivToCorr| && k <= |acts|
    ensures Fits(r, l)
    decreases k
  {
    if k == 0 then st
    else ApplyAction(RunPhase(st, l, acts, dens, calcDc, k - 1), l, k - 1, dens[k - 1], acts[k - 1], calcDc)
  }

  /**
   * Without cRPA shells, the loop leaves every correlated shell with the DC
   * that `calc_dc` computed for its own inequivalent shell, and untouched
   * when that shell was skipped.
   */
  lemma {:induction false} RunPhaseClosedForm(st: DcState, l: Layout, acts: seq<DcAction>, dens: seq<DensityShell>,
                                             calcDc: CalcDcFn, k: nat)
    requires ValidLayout(l) && Fits(st, l)
    requires |acts| == |l.inequivToCorr| && |dens| == |l.inequivToCorr| && k <= |acts|
    requires forall i | 0 <= i < |acts| :: !acts[i].SetStatic?
    ensures forall c | 0 <= c < |l.corrToInequiv| ::
              var i := l.corrToInequiv[c];
              var r := RunPhase(st, l, acts, dens, calcDc, k);
              if i < k && acts[i].Calc? then
                r.dcImp[c] == calcDc(i, dens[i], acts[i].req).pot && r.dcEnerg[c] == calcDc(i, dens[i], acts[i].req).energy
              else
                r.dcImp[c] == st.dcImp[c] && r.dcEnerg[c] == st.dcEnerg[c]
    decreases k
  {
    if k > 0 {
      RunPhaseClosedForm(st, l, acts, dens, calcDc, k - 1);
    }
  }

  /** Shells whose solver type is 'hartree' get a zero DC (initial_self_energies.py:73-80). */
  function HartreeActions(types: seq<string>): (acts: seq<DcAction>)
    ensures |acts| == |types|
  {
    seq(|types|, i requires 0 <= i < |types| => if types[i] == "hartree" then Calc(UseValue(0.0)) else Skip)
  }

  /** `dc_fixed_value` is used for every other shell (initial_self_energies.py:83-87). */
  function FixedValueActions(types: seq<string>, v: real): (acts: seq<DcAction>)
    ensures |acts| == |types|
  {
    seq(|types|, i requires 0 <= i < |types| => if types[i] != "hartree" then Calc(UseValue(v)) else Skip)
  }

  predicate IsCrpa(k: DcKind) {
    k.Named? && (k.tag == "crpa_static" || k.tag == "crpa_static_qp" || k.tag == "crpa_dynamic")
  }

  /**
   * The regular DC (initial_self_energies.py:100-196): `dc_type` 3 is the
   * FLL formula with U-J and 2J, the cRPA types store a static potential,
   * every other type is passed on to `calc_dc` with `dc_U` and `dc_J`.
   */
  function FormulaActions(types: seq<string>, p: DcParams, crpa: CrpaFn): (acts: seq<DcAction>)
    requires ParamsFit(p, |types|)
    ensures |acts| == |types|
  {
    seq(|types|, i requires 0 <= i < |types| =>
      if types[i] == "hartree" then Skip
      else if p.dcType[i] == FormulaNumber(3) then Calc(Formula(p.dcU[i] - p.dcJ[i], 2.0 * p.dcJ[i], FormulaNumber(0)))
      else if IsCrpa(p.dcType[i]) then SetStatic(crpa(i))
      else Calc(Formula(p.dcU[i], p.dcJ[i], p.dcType[i])))
  }

  /** The request each non-Hartree shell makes in the regular phase, with both directions of the dc_type 3 rule. */
  lemma FormulaRequestOfShell(types: seq<string>, p: DcParams, crpa: CrpaFn, i: nat)
    requires ParamsFit(p, |types|) && i < |types|
    ensures var a := FormulaActions(types, p, crpa)[i];
            && (a.Skip? <==> types[i] == "hartree")
            && (a.SetStatic? <==> types[i] != "hartree" && IsCrpa(p.dcType[i]))
            && (a.Calc? ==> a.req.Formula?)
            && (a.Calc? && a.req.kind == FormulaNumber(0) && p.dcType[i] != FormulaNumber(0) ==>
                  p.dcType[i] == FormulaNumber(3) && a.req.u == p.dcU[i] - p.dcJ[i] && a.req.j == 2.0 * p.dcJ[i])
  {
  }

  // ---------------------------------------------------------------------
  // Fixed occupation

  /** `np.fill_diagonal(m, v)`: the diagonal becomes `v`, the rest is kept. */
  function FillDiagonal(m: seq<seq<Complex>>, v: Complex): (r: seq<seq<Complex>>)
    ensures |r| == |m|
    ensures forall a | 0 <= a < |m| ::
              |r[a]| == |m[a]| && forall b | 0 <= b < |m[a]| :: r[a][b] == if a == b then v else m[a][b]
  {
    seq(|m|, a requires 0 <= a < |m| => seq(|m[a]|, b requires 0 <= b < |m[a]| => if a == b then v else m[a][b]))
  }

  function FixOccupation(d: DensityShell, v: Complex): (r: DensityShell)
    ensures |r| == |d| && forall k | 0 <= k < |d| :: r[k] == DensBlock(d[k].name, FillDiagonal(d[k].m, v))
  {
    seq(|d|, k requires 0 <= k < |d| => DensBlock(d[k].name, FillDiagonal(d[k].m, v)))
  }

  /**
   * The density matrices the regular phase uses (initial_self_energies.py:89-97):
   * a copy of the input where every non-Hartree shell with a fixed occupation
   * `n` has `n / (2 dim)` on the diagonal of each block; `dim` is read from
   * `corr_shells` at the inequivalent shell's index.
   */
  function DcDensities(types: seq<string>, p: DcParams, l: Layout, dens: seq<DensityShell>): (r: seq<DensityShell>)
    requires ValidLayout(l) && ParamsFit(p, |types|) && |types| == |dens| == |l.inequivToCorr|
    ensures |r| == |dens|
  {
    seq(|dens|, i requires 0 <= i < |dens| =>
      if types[i] != "hartree" && p.dcFixedOcc[i].Some? then
        FixOccupation(dens[i], Complex(p.dcFixedOcc[i].value / (2.0 * l.corrDims[i] as real), 0.0))
      else dens[i])
  }

  /** `np.trace(m.real)`. */
  function RealTrace(m: seq<seq<Complex>>): real {
    if m == [] then 0.0
    else RealTrace(m[..|m| - 1]) + (if |m| - 1 < |m[|m| - 1]| then m[|m| - 1][|m| - 1].re else 0.0)
  }

  /** A matrix whose diagonal has real part `x` throughout has trace `|m| x`. */
  lemma {:induction false} TraceOfConstantDiagonal(m: seq<seq<Complex>>, x: real)
    requires forall a | 0 <= a < |m| :: a < |m[a]| && m[a][a].re == x
    ensures RealTrace(m) == |m| as real * x
    decreases |m|
  {
    if m != [] {
      TraceOfConstantDiagonal(m[..|m| - 1], x);
    }
  }

  lemma TraceOfFilledDiagonal(m: seq<seq<Complex>>, v: Complex, n: nat)
    requires IsSquare(m, n)
    ensures RealTrace(FillDiagonal(m, v)) == n as real * v.re
  {
    TraceOfConstantDiagonal(FillDiagonal(m, v), v.re);
  }

  /** The total occupation `sum(np.trace(v.real) for v in density.values())`. */
  function Occupation(d: DensityShell): real {
    if d == [] then 0.0 else Occupation(d[..|d| - 1]) + RealTrace(d[|d| - 1].m)
  }

  /**
   * With the usual two spin blocks of size `dim`, the fixed occupation puts
   * exactly `dc_fixed_occ` electrons into the density the DC formula sees.
   */
  lemma FixedOccupationIsTotal(d: DensityShell, occ: real, dim: nat)
    requires |d| == 2 && dim >= 1 && IsSquare(d[0].m, dim) && IsSquare(d[1].m, dim)
    ensures Occupation(FixOccupation(d, Complex(occ / (2.0 * dim as real), 0.0))) == occ
  {
    var v := Complex(occ / (2.0 * dim as real), 0.0);
    var f := FixOccupation(d, v);
    TraceOfFilledDiagonal(d[0].m, v, dim);
    TraceOfFilledDiagonal(d[1].m, v, dim);
    assert f[..|f| - 1] == [f[0]];
    assert [f[0]][..0] == [];
    assert Occupation([f[0]]) == RealTrace(f[0].m);
    assert Occupation(f) == RealTrace(f[0].m) + RealTrace(f[1].m);
    assert (dim as real) * v.re == occ / 2.0;
  }

  // ---------------------------------------------------------------------
  // Nominal DC energy

  /** The leading element `dc_per_spin[0][0]` of every block, when every block has one. */
  predicate HasLeading(pot: BlockMatrices) {
    forall k | 0 <= k < |pot| :: |pot[k].m| > 0 && |pot[k].m[0]| > 0
  }

  /** `n_DC * dc_per_spin[0][0]` added up over the blocks. */
  function WeightedLeading(pot: BlockMatrices, nDc: real): real
    requires HasLeading(pot)
  {
    if pot == [] then 0.0 else WeightedLeading(pot[..|pot| - 1], nDc) + nDc * pot[|pot| - 1].m[0][0]
  }

  /**
   * The nominal energy of one correlated shell (initial_self_energies.py:208-219):
   * the occupation `n_DC` times the leading potential element, averaged over
   * the blocks. A block without elements raises IndexError; a potential
   * without blocks divides by zero.
   */
  function NominalEnergy(pot: BlockMatrices, nDc: real): (r: Result<real>)
    ensures r.Failure? <==> !HasLeading(pot) || pot == []
    ensures r.Failure? ==> r.error == if !HasLeading(pot) then IndexError else ZeroDivisionError
  {
    if !HasLeading(pot) then Failure(IndexError)
    else if pot == [] then Failure(ZeroDivisionError)
    else Success(WeightedLeading(pot, nDc) / |pot| as real)
  }

  lemma {:induction false} WeightedUniformLeading(pot: BlockMatrices, nDc: real, v: real)
    requires HasLeading(pot) && forall k | 0 <= k < |pot| :: pot[k].m[0][0] == v
    ensures WeightedLeading(pot, nDc) == |pot| as real * (nDc * v)
    decreases |pot|
  {
    if pot != [] {
      WeightedUniformLeading(pot[..|pot| - 1], nDc, v);
    }
  }

  /** When every block carries the same leading potential `v`, the nominal energy is `n_DC * v`. */
  lemma NominalEnergyOfUniformPotential(pot: BlockMatrices, nDc: real, v: real)
    requires pot != [] && HasLeading(pot) && forall k | 0 <= k < |pot| :: pot[k].m[0][0] == v
    ensures NominalEnergy(pot, nDc) == Success(nDc * v)
  {
    WeightedUniformLeading(pot, nDc, v);
    var count := |pot| as real;
    var x := nDc * v;
    assert WeightedLeading(pot, nDc) == count * x;
    assert count * x / count == x;
  }

  /** The nominal energies of the first `k` correlated shells; the first failing shell raises. */
  function NominalEnergies(st: DcState, l: Layout, dens: seq<DensityShell>, k: nat): (r: Result<seq<real>>)
    requires ValidLayout(l) && Fits(st, l) && |dens| == |l.inequivToCorr| && k <= |l.corrToInequiv|
    ensures r.Success? ==> |r.value| == k
    ensures r.Failure? ==> r.error == IndexError || r.error == ZeroDivisionError
    decreases k
  {
    if k == 0 then Success([])
    else
      var before :- NominalEnergies(st, l, dens, k - 1);
      var e :- NominalEnergy(st.dcImp[k - 1], Occupation(dens[l.corrToInequiv[k - 1]]));
      Success(before + [e])
  }

  /** Once a shell fails, the loop raises the same exception however many shells follow. */
  lemma {:induction false} NominalFailurePersists(st: DcState, l: Layout, dens: seq<DensityShell>, k: nat, k': nat)
    requires ValidLayout(l) && Fits(st, l) && |dens| == |l.inequivToCorr| && k <= k' <= |l.corrToInequiv|
    requires NominalEnergies(st, l, dens, k).Failure?
    ensures NominalEnergies(st, l, dens, k') == NominalEnergies(st, l, dens, k)
    decreases k' - k
  {
    if k < k' {
      NominalFailurePersists(st, l, dens, k, k' - 1);
    }
  }

  /** Python's `'Hartree' in solver_type_per_imp`. */
  predicate ListsCapitalHartree(types: seq<string>) {
    "Hartree" in types
  }

  /**
   * `dc_nominal` (initial_self_energies.py:200-220): the potentials stay, the
   * energies become the nominal ones, computed from the density matrices the
   * function was called with (not the fixed-occupation copies).
   */
  function NominalStep(st: DcState, l: Layout, types: seq<string>, dens: seq<DensityShell>): (r: Result<DcState>)
    requires ValidLayout(l) && Fits(st, l) && |dens| == |l.inequivToCorr|
    ensures ListsCapitalHartree(types) ==> r == Failure(NotImplementedError)
    ensures !ListsCapitalHartree(types) ==>
              (r.Success? <==>
                 forall c | 0 <= c < |l.corrToInequiv| :: NominalEnergy(st.dcImp[c], Occupation(dens[l.corrToInequiv[c]])).Success?)
    ensures !ListsCapitalHartree(types) && r.Failure? ==>
              exists c | 0 <= c < |l.corrToInequiv| :: NominalFailsFirstAt(st, l, dens, c, r.error)
    ensures r.Success? ==>
              && r.value.dcImp == st.dcImp
              && |r.value.dcEnerg| == |st.dcEnerg|
              && forall c | 0 <= c < |l.corrToInequiv| ::
                   NominalEnergy(st.dcImp[c], Occupation(dens[l.corrToInequiv[c]])) == Success(r.value.dcEnerg[c])
  {
    if ListsCapitalHartree(types) then Failure(NotImplementedError)
    else
      NominalEnergiesAreShellwise(st, l, dens, |l.corrToInequiv|);
      NominalEnergiesFailAtFirst(st, l, dens, |l.corrToInequiv|);
      var energies :- NominalEnergies(st, l, dens, |l.corrToInequiv|);
      Success(st.(dcEnerg := energies))
  }

  /** Correlated shell `c` is the first whose nominal energy cannot be formed, and it raises `e`. */
  predicate NominalFailsFirstAt(st: DcState, l: Layout, dens: seq<DensityShell>, c: nat, e: Error)
    requires ValidLayout(l) && Fits(st, l) && |dens| == |l.inequivToCorr| && c < |l.corrToInequiv|
  {
    && NominalEnergy(st.dcImp[c], Occupation(dens[l.corrToInequiv[c]])) == Failure(e)
    && forall c' | 0 <= c' < c :: NominalEnergy(st.dcImp[c'], Occupation(dens[l.corrToInequiv[c']])).Success?
  }

  /** A failing loop raises the exception of the first shell that fails. */
  lemma {:induction false} NominalEnergiesFailAtFirst(st: DcState, l: Layout, dens: seq<DensityShell>, k: nat)
    requires ValidLayout(l) && Fits(st, l) && |dens| == |l.inequivToCorr| && k <= |l.corrToInequiv|
    ensures NominalEnergies(st, l, dens, k).Failure? ==>
              exists c | 0 <= c < k :: NominalFailsFirstAt(st, l, dens, c, NominalEnergies(st, l, dens, k).error)
    decreases k
  {
    if k > 0 {
      NominalEnergiesFailAtFirst(st, l, dens, k - 1);
      if NominalEnergies(st, l, dens, k - 1).Success? && NominalEnergies(st, l, dens, k).Failure? {
        NominalEnergiesAreShellwise(st, l, dens, k - 1);
        assert NominalFailsFirstAt(st, l, dens, k - 1, NominalEnergies(st, l, dens, k).error);
      }
    }
  }

  lemma {:induction false} NominalEnergiesAreShellwise(st: DcState, l: Layout, dens: seq<DensityShell>, k: nat)
    requires ValidLayout(l) && Fits(st, l) && |dens| == |l.inequivToCorr| && k <= |l.corrToInequiv|
    ensures NominalEnergies(st, l, dens, k).Success? <==>
              forall c | 0 <= c < k :: NominalEnergy(st.dcImp[c], Occupation(dens[l.corrToInequiv[c]])).Success?
    ensures NominalEnergies(st, l, dens, k).Success? ==>
              forall c | 0 <= c < k ::
                NominalEnergy(st.dcImp[c], Occupation(dens[l.corrToInequiv[c]])) ==
                Success(NominalEnergies(st, l, dens, k).value[c])
    decreases k
  {
    if k > 0 {
      NominalEnergiesAreShellwise(st, l, dens, k - 1);
    }
  }

  /**
   * The guard compares with 'Hartree' while the Hartree solver's type is
   * 'hartree': with that solver the nominal step never raises
   * NotImplementedError.
   */
  lemma NominalGuardMissesHartreeSolver(st: DcState, l: Layout, dens: seq<DensityShell>)
    requires ValidLayout(l) && Fits(st, l) && |dens| == |l.inequivToCorr|
    ensures NominalStep(st, l, ["hartree"], dens) != Failure(NotImplementedError)
  {
    assert "hartree" != "Hartree" by { assert "hartree"[0] != "Hartree"[0]; }
    assert !ListsCapitalHartree(["hartree"]);
  }

  // ---------------------------------------------------------------------
  // dc_factor

  function ScaleMatrix(f: real, m: Matrix): (r: Matrix)
    ensures |r| == |m| && forall a | 0 <= a < |m| :: |r[a]| == |m[a]| && forall b | 0 <= b < |m[a]| :: r[a][b] == f * m[a][b]
  {
    seq(|m|, a requires 0 <= a < |m| => seq(|m[a]|, b requires 0 <= b < |m[a]| => f * m[a][b]))
  }

  function ScalePotential(f: real, pot: BlockMatrices): (r: BlockMatrices)
    ensures |r| == |pot| && forall k | 0 <= k < |pot| :: r[k] == Block(pot[k].name, ScaleMatrix(f, pot[k].m))
  {
    seq(|pot|, k requires 0 <= k < |pot| => Block(pot[k].name, ScaleMatrix(f, pot[k].m)))
  }

  /** `dc_factor` (initial_self_energies.py:232-239): every potential and every energy is scaled. */
  function ScaleDc(st: DcState, f: real): (r: DcState)
    ensures |r.dcImp| == |st.dcImp| && |r.dcEnerg| == |st.dcEnerg|
    ensures forall c | 0 <= c < |st.dcImp| :: r.dcImp[c] == ScalePotential(f, st.dcImp[c])
    ensures forall c | 0 <= c < |st.dcEnerg| :: r.dcEnerg[c] == f * st.dcEnerg[c]
  {
    DcState(seq(|st.dcImp|, c requires 0 <= c < |st.dcImp| => ScalePotential(f, st.dcImp[c])),
            seq(|st.dcEnerg|, c requires 0 <= c < |st.dcEnerg| => f * st.dcEnerg[c]))
  }

  lemma ScaleMatrixComposes(m: Matrix, f: real, g: real)
    ensures ScaleMatrix(1.0, m) == m
    ensures ScaleMatrix(g, ScaleMatrix(f, m)) == ScaleMatrix(g * f, m)
  {
    forall a | 0 <= a < |m| ensures ScaleMatrix(1.0, m)[a] == m[a] {
    }
    forall a | 0 <= a < |m| ensures ScaleMatrix(g, ScaleMatrix(f, m))[a] == ScaleMatrix(g * f, m)[a] {
      forall b | 0 <= b < |m[a]| ensures ScaleMatrix(g, ScaleMatrix(f, m))[a][b] == ScaleMatrix(g * f, m)[a][b] {
        assert g * (f * m[a][b]) == (g * f) * m[a][b];
      }
    }
  }

  lemma ScalePotentialComposes(pot: BlockMatrices, f: real, g: real)
    ensures ScalePotential(1.0, pot) == pot
    ensures ScalePotential(g, ScalePotential(f, pot)) == ScalePotential(g * f, pot)
  {
    forall k | 0 <= k < |pot| ensures ScalePotential(1.0, pot)[k] == pot[k] {
      ScaleMatrixComposes(pot[k].m, f, g);
    }
    forall k | 0 <= k < |pot| ensures ScalePotential(g, ScalePotential(f, pot))[k] == ScalePotential(g * f, pot)[k] {
      ScaleMatrixComposes(pot[k].m, f, g);
    }
  }

  /** Scaling by one changes nothing, and two scalings are one scaling by the product. */
  lemma ScaleDcComposes(st: DcState, f: real, g: real)
    ensures ScaleDc(st, 1.0) == st
    ensures ScaleDc(ScaleDc(st, f), g) == ScaleDc(st, g * f)
  {
    forall c | 0 <= c < |st.dcImp| ensures ScaleDc(st, 1.0).dcImp[c] == st.dcImp[c] {
      ScalePotentialComposes(st.dcImp[c], f, g);
    }
    forall c | 0 <= c < |st.dcImp| ensures ScaleDc(ScaleDc(st, f), g).dcImp[c] == ScaleDc(st, g * f).dcImp[c] {
      ScalePotentialComposes(st.dcImp[c], f, g);
    }
    assert ScaleDc(st, 1.0).dcImp == st.dcImp;
    assert ScaleDc(st, 1.0).dcEnerg == st.dcEnerg;
    assert ScaleDc(ScaleDc(st, f), g).dcImp == ScaleDc(st, g * f).dcImp;
    forall c | 0 <= c < |st.dcEnerg| ensures ScaleDc(ScaleDc(st, f), g).dcEnerg[c] == ScaleDc(st, g * f).dcEnerg[c] {
      assert g * (f * st.dcEnerg[c]) == (g * f) * st.dcEnerg[c];
    }
    assert ScaleDc(ScaleDc(st, f), g).dcEnerg == ScaleDc(st, g * f).dcEnerg;
  }

  // ---------------------------------------------------------------------
  // dc_orb_shift

  /** The first `i` entries of `dims` added up. */
  function PrefixSum(dims: seq<nat>, i: nat): nat
    requires i <= |dims|
  {
    if i == 0 then 0 else PrefixSum(dims, i - 1) + dims[i - 1]
  }

  /** The entries consumed for shell `i` by `dc_orb_shift_orig[:dim]` followed by `del`: a slice that stops at the end of the list. */
  function Chunk(shift: seq<real>, dims: seq<nat>, i: nat): (r: seq<real>)
    requires i < |dims|
    ensures |r| == Min(PrefixSum(dims, i + 1), |shift|) - Min(PrefixSum(dims, i), |shift|)
  {
    var lo := Min(PrefixSum(dims, i), |shift|);
    var hi := Min(PrefixSum(dims, i + 1), |shift|);
    shift[lo..hi]
  }

  /** The chunks of the first `k` shells. */
  function Chunks(shift: seq<real>, dims: seq<nat>, k: nat): (r: seq<seq<real>>)
    requires k <= |dims|
    ensures |r| == k && forall i | 0 <= i < k :: r[i] == Chunk(shift, dims, i)
  {
    seq(k, i requires 0 <= i < k => Chunk(shift, dims, i))
  }

  /** With enough entries every chunk has its shell's size. */
  lemma ChunkHasShellSize(shift: seq<real>, dims: seq<nat>, i: nat)
    requires i < |dims| && PrefixSum(dims, |dims|) <= |shift|
    ensures |Chunk(shift, dims, i)| == dims[i]
  {
    PrefixSumMonotone(dims, i + 1);
  }

  /** The chunks tile the list from its start. */
  lemma {:induction false} ChunksTile(shift: seq<real>, dims: seq<nat>, k: nat)
    requires k <= |dims| && PrefixSum(dims, |dims|) <= |shift|
    ensures PrefixSum(dims, k) <= |shift|
    ensures Concat(Chunks(shift, dims, k)) == shift[..PrefixSum(dims, k)]
    decreases k
  {
    PrefixSumMonotone(dims, k);
    if k > 0 {
      ChunksTile(shift, dims, k - 1);
      var lo, hi := PrefixSum(dims, k - 1), PrefixSum(dims, k);
      assert Chunk(shift, dims, k - 1) == shift[lo..hi];
      assert Chunks(shift, dims, k)[..k - 1] == Chunks(shift, dims, k - 1);
      assert shift[..hi] == shift[..lo] + shift[lo..hi];
    }
  }

  lemma {:induction false} PrefixSumMonotone(dims: seq<nat>, k: nat)
    requires k <= |dims|
    ensures PrefixSum(dims, k) <= PrefixSum(dims, |dims|)
    decreases |dims| - k
  {
    if k < |dims| {
      PrefixSumMonotone(dims, k + 1);
    }
  }

  function Concat(chunks: seq<seq<real>>): seq<real> {
    if chunks == [] then [] else Concat(chunks[..|chunks| - 1]) + chunks[|chunks| - 1]
  }

  /** `m + np.diag(d)`, with numpy's broadcasting. */
  function AddDiagonal(m: Matrix, d: seq<real>): Matrix
    requires Broadcastable(m, Diag(d))
  {
    Add(m, Diag(d))
  }

  /**
   * A block of the chunk's size gains the chunk on its diagonal and keeps its
   * other elements; a chunk of one entry is added to every element of the
   * block, whatever its size.
   */
  lemma AddDiagonalMeaning(m: Matrix, d: seq<real>)
    requires Broadcastable(m, Diag(d))
    ensures IsSquare(m, |d|) ==>
              var r := AddDiagonal(m, d);
              && IsSquare(r, |d|)
              && forall a, b | 0 <= a < |d| && 0 <= b < |d| :: r[a][b] == if a == b then m[a][b] + d[a] else m[a][b]
    ensures |d| == 1 ==>
              var r := AddDiagonal(m, d);
              && |r| == |m|
              && forall a | 0 <= a < |m| :: |r[a]| == |m[a]| && forall b | 0 <= b < |m[a]| :: r[a][b] == m[a][b] + d[0]
  {
    if IsSquare(m, |d|) {
      SameShapeIsElementwise(m, Diag(d), Plus);
    }
    if |d| == 1 {
      AddSingleEntry(m, Diag(d));
    }
  }

  /** Every block of `pot` can be added to `np.diag(d)`. */
  predicate BlocksBroadcast(pot: BlockMatrices, d: seq<real>) {
    forall k | 0 <= k < |pot| :: Broadcastable(pot[k].m, Diag(d))
  }

  predicate BlocksAreSquare(pot: BlockMatrices, n: nat) {
    forall k | 0 <= k < |pot| :: IsSquare(pot[k].m, n)
  }

  function ShiftPotential(pot: BlockMatrices, d: seq<real>): (r: BlockMatrices)
    requires BlocksBroadcast(pot, d)
    ensures |r| == |pot| && forall k | 0 <= k < |pot| :: r[k] == Block(pot[k].name, AddDiagonal(pot[k].m, d))
  {
    seq(|pot|, k requires 0 <= k < |pot| => Block(pot[k].name, AddDiagonal(pot[k].m, d)))
  }

  /** The sizes `corr_shells[icrsh]['dim']` read for the inequivalent shells, by their index. */
  function InequivDims(l: Layout): (dims: seq<nat>)
    requires ValidLayout(l)
    ensures |dims| == |l.inequivToCorr|
  {
    l.corrDims[..|l.inequivToCorr|]
  }

  /** `np.array(dc_orb_shift)` builds a two-dimensional array only when all chunks have one length. */
  predicate Rectangular(chunks: seq<seq<real>>) {
    forall i | 0 <= i < |chunks| :: |chunks[i]| == |chunks[0]|
  }

  /** Whether every block of the representative potential of every inequivalent shell can be added to its chunk's `np.diag`. */
  predicate ShiftFits(st: DcState, l: Layout, chunks: seq<seq<real>>)
    requires ValidLayout(l) && Fits(st, l) && |chunks| == |l.inequivToCorr|
  {
    forall i | 0 <= i < |chunks| :: BlocksBroadcast(st.dcImp[l.inequivToCorr[i]], chunks[i])
  }

  /**
   * `dc_orb_shift` (initial_self_energies.py:248-269): the list is cut into
   * one chunk per inequivalent shell, each chunk is added to the diagonal of
   * every block of that shell's representative potential, and every
   * correlated shell receives its inequivalent shell's result. Energies are
   * not touched. Chunks of different lengths (`np.array` of a ragged list),
   * or a block and a chunk whose shapes do not broadcast, raise ValueError.
   */
  function OrbShiftStep(st: DcState, l: Layout, types: seq<string>, shift: seq<real>): (r: Result<DcState>)
    requires ValidLayout(l) && Fits(st, l)
    ensures ListsCapitalHartree(types) ==> r == Failure(NotImplementedError)
    ensures !ListsCapitalHartree(types) ==>
              var chunks := Chunks(shift, InequivDims(l), |l.inequivToCorr|);
              r.Success? <==> Rectangular(chunks) && ShiftFits(st, l, chunks)
    ensures r.Failure? && !ListsCapitalHartree(types) ==> r.error == ValueError
  {
    var chunks := Chunks(shift, InequivDims(l), |l.inequivToCorr|);
    if ListsCapitalHartree(types) then Failure(NotImplementedError)
    else if !Rectangular(chunks) || !ShiftFits(st, l, chunks) then Failure(ValueError)
    else Success(ShiftedState(st, l, chunks))
  }

  /** Chunk `i` added to inequivalent shell `i`'s representative potential, handed to each of its correlated shells. */
  function ShiftedState(st: DcState, l: Layout, chunks: seq<seq<real>>): (r: DcState)
    requires ValidLayout(l) && Fits(st, l) && |chunks| == |l.inequivToCorr| && ShiftFits(st, l, chunks)
  {
    var n := |l.inequivToCorr|;
    var shifted := seq(n, i requires 0 <= i < n => ShiftPotential(st.dcImp[l.inequivToCorr[i]], chunks[i]));
    st.(dcImp := seq(|l.corrToInequiv|, c requires 0 <= c < |l.corrToInequiv| => shifted[l.corrToInequiv[c]]))
  }

  /**
   * What the shift does: every correlated shell of inequivalent shell `i` gets
   * the representative potential with chunk `i` added on the diagonal (the
   * off-diagonal elements are kept), so all correlated shells of one
   * inequivalent shell end equal, and the energies stay.
   */
  lemma OrbShiftEffect(st: DcState, l: Layout, types: seq<string>, shift: seq<real>)
    requires ValidLayout(l) && Fits(st, l)
    requires OrbShiftStep(st, l, types, shift).Success?
    ensures var r := OrbShiftStep(st, l, types, shift).value;
            && r.dcEnerg == st.dcEnerg
            && |r.dcImp| == |st.dcImp|
            && (forall c | 0 <= c < |l.corrToInequiv| ::
                  r.dcImp[c] == ShiftPotential(st.dcImp[l.inequivToCorr[l.corrToInequiv[c]]],
                                               Chunk(shift, InequivDims(l), l.corrToInequiv[c])))
            && (forall c, c' | 0 <= c < |l.corrToInequiv| && 0 <= c' < |l.corrToInequiv| &&
                               l.corrToInequiv[c] == l.corrToInequiv[c'] :: r.dcImp[c] == r.dcImp[c'])
  {
  }

  lemma ChunksSnoc(shift: seq<real>, dims: seq<nat>, i: nat)
    requires i < |dims|
    ensures Chunks(shift, dims, i + 1) == Chunks(shift, dims, i) + [Chunk(shift, dims, i)]
  {
  }

  /** If every chunk has its shell's size, the list was long enough. */
  lemma {:induction false} FullChunksFitShift(shift: seq<real>, dims: seq<nat>, k: nat)
    requires k <= |dims| && forall i | 0 <= i < k :: |Chunk(shift, dims, i)| == dims[i]
    ensures PrefixSum(dims, k) <= |shift|
    decreases k
  {
    if k > 0 {
      FullChunksFitShift(shift, dims, k - 1);
      assert |Chunk(shift, dims, k - 1)| == dims[k - 1];
    }
  }

  /**
   * A list shorter than the shells' total size is rejected when, as the
   * lattice object lays them out, the DC blocks of each inequivalent shell
   * are square of that shell's size, every such shell has at least two
   * orbitals, and the list does not hold exactly one entry (which numpy
   * would broadcast, see `SingleEntryShiftBroadcasts`).
   */
  lemma ShortShiftRejected(st: DcState, l: Layout, types: seq<string>, shift: seq<real>)
    requires ValidLayout(l) && Fits(st, l) && !ListsCapitalHartree(types)
    requires forall i | 0 <= i < |l.inequivToCorr| ::
               && InequivDims(l)[i] >= 2
               && |st.dcImp[l.inequivToCorr[i]]| > 0 && BlocksAreSquare(st.dcImp[l.inequivToCorr[i]], InequivDims(l)[i])
    requires |shift| < PrefixSum(InequivDims(l), |l.inequivToCorr|) && |shift| != 1
    ensures OrbShiftStep(st, l, types, shift) == Failure(ValueError)
  {
    var dims := InequivDims(l);
    var n := |l.inequivToCorr|;
    if forall i | 0 <= i < n :: |Chunk(shift, dims, i)| == dims[i] {
      FullChunksFitShift(shift, dims, n);
    }
    var i :| 0 <= i < n && |Chunk(shift, dims, i)| != dims[i];
    var chunks := Chunks(shift, dims, n);
    if Rectangular(chunks) {
      assert |chunks[0]| == Min(dims[0], |shift|);
      assert |chunks[i]| != 1 && |chunks[i]| != dims[i];
      var m := st.dcImp[l.inequivToCorr[i]][0].m;
      SquareBroadcast(m, Diag(chunks[i]), dims[i], |chunks[i]|);
      assert !BlocksBroadcast(st.dcImp[l.inequivToCorr[i]], chunks[i]);
    }
  }

  /**
   * A list of one entry for a single inequivalent shell is broadcast: the
   * entry is added to every element of every block, whatever the shell's
   * size, and nothing is raised.
   */
  lemma SingleEntryShiftBroadcasts(st: DcState, l: Layout, types: seq<string>, x: real)
    requires ValidLayout(l) && Fits(st, l) && !ListsCapitalHartree(types)
    requires |l.inequivToCorr| == 1 && InequivDims(l)[0] >= 1
    requires forall k | 0 <= k < |st.dcImp[l.inequivToCorr[0]]| :: IsArray(st.dcImp[l.inequivToCorr[0]][k].m)
    ensures var r := OrbShiftStep(st, l, types, [x]);
            && r.Success?
            && forall c, k | 0 <= c < |l.corrToInequiv| && 0 <= k < |st.dcImp[l.inequivToCorr[0]]| ::
                 var m := st.dcImp[l.inequivToCorr[0]][k].m;
                 && |r.value.dcImp[c]| == |st.dcImp[l.inequivToCorr[0]]|
                 && |r.value.dcImp[c][k].m| == |m|
                 && forall a | 0 <= a < |m| ::
                      |r.value.dcImp[c][k].m[a]| == |m[a]| &&
                      forall b | 0 <= b < |m[a]| :: r.value.dcImp[c][k].m[a][b] == m[a][b] + x
  {
    var dims := InequivDims(l);
    var chunks := Chunks([x], dims, 1);
    assert chunks[0] == [x];
    var pot := st.dcImp[l.inequivToCorr[0]];
    forall k | 0 <= k < |pot| ensures Broadcastable(pot[k].m, Diag([x])) {
      AddSingleEntry(pot[k].m, Diag([x]));
    }
    assert ShiftFits(st, l, chunks);
    forall k | 0 <= k < |pot| {
      AddDiagonalMeaning(pot[k].m, [x]);
    }
    forall c | 0 <= c < |l.corrToInequiv| ensures l.corrToInequiv[c] == 0 {
    }
  }

  lemma ChunkIgnoresExtra(shift: seq<real>, extra: seq<real>, dims: seq<nat>, i: nat)
    requires i < |dims| && PrefixSum(dims, |dims|) <= |shift|
    ensures Chunk(shift + extra, dims, i) == Chunk(shift, dims, i)
  {
    PrefixSumMonotone(dims, i + 1);
    assert PrefixSum(dims, i) <= PrefixSum(dims, i + 1);
    assert (shift + extra)[..|shift|] == shift;
  }

  /** Entries of the shift list beyond the shells' total size are never read. */
  lemma OrbShiftIgnoresExtraEntries(st: DcState, l: Layout, types: seq<string>, shift: seq<real>, extra: seq<real>)
    requires ValidLayout(l) && Fits(st, l)
    requires PrefixSum(InequivDims(l), |l.inequivToCorr|) <= |shift|
    ensures OrbShiftStep(st, l, types, shift + extra) == OrbShiftStep(st, l, types, shift)
  {
    var dims := InequivDims(l);
    var n := |l.inequivToCorr|;
    forall i | 0 <= i < n ensures Chunks(shift + extra, dims, n)[i] == Chunks(shift, dims, n)[i] {
      ChunkIgnoresExtra(shift, extra, dims, i);
    }
    assert Chunks(shift + extra, dims, n) == Chunks(shift, dims, n);
  }

  // ---------------------------------------------------------------------
  // The whole function

  /** The state the lattice object is left in, and the exception raised, if any. */
  datatype DcRun = DcRun(state: DcState, raised: Option<Error>)

  predicate DcInputsFit(st: DcState, l: Layout, types: seq<string>, dens: seq<DensityShell>, p: DcParams) {
    && ValidLayout(l) && Fits(st, l)
    && |types| == |l.inequivToCorr| && |dens| == |l.inequivToCorr| && ParamsFit(p, |types|)
  }

  /**
   * `calculate_double_counting` (initial_self_energies.py:40-271): the Hartree
   * shells first, then either the fixed value (which ends the call) or the
   * regular DC on the fixed-occupation densities, followed by the optional
   * nominal energies, scaling and orbital shift. On an exception the state
   * is the one the raising step found.
   */
  function DoubleCountingSpec(st: DcState, l: Layout, types: seq<string>, dens: seq<DensityShell>, p: DcParams,
                              calcDc: CalcDcFn, crpa: CrpaFn): (r: DcRun)
    requires DcInputsFit(st, l, types, dens, p)
    ensures Fits(r.state, l)
  {
    var n := |types|;
    var afterHartree := RunPhase(st, l, HartreeActions(types), dens, calcDc, n);
    if p.dcFixedValue.Some? then
      DcRun(RunPhase(afterHartree, l, FixedValueActions(types, p.dcFixedValue.value), dens, calcDc, n), None)
    else
      var regular := RunPhase(afterHartree, l, FormulaActions(types, p, crpa), DcDensities(types, p, l, dens), calcDc, n);
      var nominal := if p.dcNominal then NominalStep(regular, l, types, dens) else Success(regular);
      if nominal.Failure? then DcRun(regular, Some(nominal.error))
      else
        var scaled := if p.dcFactor.Some? then ScaleDc(nominal.value, p.dcFactor.value) else nominal.value;
        if p.dcOrbShift.None? then DcRun(scaled, None)
        else
          var shifted := OrbShiftStep(scaled, l, types, p.dcOrbShift.value);
          if shifted.Failure? then DcRun(scaled, Some(shifted.error)) else DcRun(shifted.value, None)
  }

  /**
   * `dc_fixed_value` wins over everything else: every correlated shell gets
   * the fixed value's DC (zero for Hartree shells), computed from its own
   * inequivalent shell's density, and nothing is raised.
   */
  lemma FixedValueReturnsEarly(st: DcState, l: Layout, types: seq<string>, dens: seq<DensityShell>, p: DcParams,
                               calcDc: CalcDcFn, crpa: CrpaFn)
    requires DcInputsFit(st, l, types, dens, p) && p.dcFixedValue.Some?
    ensures var r := DoubleCountingSpec(st, l, types, dens, p, calcDc, crpa);
            && r.raised.None?
            && forall c | 0 <= c < |l.corrToInequiv| ::
                 var i := l.corrToInequiv[c];
                 var v := if types[i] == "hartree" then 0.0 else p.dcFixedValue.value;
                 r.state.dcImp[c] == calcDc(i, dens[i], UseValue(v)).pot &&
                 r.state.dcEnerg[c] == calcDc(i, dens[i], UseValue(v)).energy
  {
    var n := |types|;
    var afterHartree := RunPhase(st, l, HartreeActions(types), dens, calcDc, n);
    RunPhaseClosedForm(st, l, HartreeActions(types), dens, calcDc, n);
    RunPhaseClosedForm(afterHartree, l, FixedValueActions(types, p.dcFixedValue.value), dens, calcDc, n);
  }

  /** Without the optional steps the DC is the Hartree phase followed by the regular phase, and nothing is raised. */
  lemma PlainSpecIsTwoPhases(st: DcState, l: Layout, types: seq<string>, dens: seq<DensityShell>, p: DcParams,
                             calcDc: CalcDcFn, crpa: CrpaFn)
    requires DcInputsFit(st, l, types, dens, p)
    requires p.dcFixedValue.None? && !p.dcNominal && p.dcFactor.None? && p.dcOrbShift.None?
    ensures var afterHartree := RunPhase(st, l, HartreeActions(types), dens, calcDc, |types|);
            DoubleCountingSpec(st, l, types, dens, p, calcDc, crpa) ==
              DcRun(RunPhase(afterHartree, l, FormulaActions(types, p, crpa), DcDensities(types, p, l, dens), calcDc, |types|), None)
  {
  }

  /**
   * What `calc_dc` is asked for shell `i` when it is not a cRPA shell: zero
   * for a Hartree shell, the FLL formula with U-J and 2J for dc_type 3, the
   * shell's own formula otherwise.
   */
  function RegularRequest(types: seq<string>, p: DcParams, i: nat): DcRequest
    requires ParamsFit(p, |types|) && i < |types|
  {
    if types[i] == "hartree" then UseValue(0.0)
    else if p.dcType[i] == FormulaNumber(3) then Formula(p.dcU[i] - p.dcJ[i], 2.0 * p.dcJ[i], FormulaNumber(0))
    else Formula(p.dcU[i], p.dcJ[i], p.dcType[i])
  }

  /** The value correlated shell `c` holds after the Hartree and the regular phases, without cRPA shells. */
  lemma TwoPhasesOneShell(st: DcState, l: Layout, types: seq<string>, dens: seq<DensityShell>, p: DcParams,
                          calcDc: CalcDcFn, crpa: CrpaFn, c: nat)
    requires DcInputsFit(st, l, types, dens, p) && c < |l.corrToInequiv|
    requires forall i | 0 <= i < |types| :: !IsCrpa(p.dcType[i])
    ensures var afterHartree := RunPhase(st, l, HartreeActions(types), dens, calcDc, |types|);
            var ddens := DcDensities(types, p, l, dens);
            var r := RunPhase(afterHartree, l, FormulaActions(types, p, crpa), ddens, calcDc, |types|);
            var i := l.corrToInequiv[c];
            var d := if types[i] == "hartree" then dens[i] else ddens[i];
            r.dcImp[c] == calcDc(i, d, RegularRequest(types, p, i)).pot &&
            r.dcEnerg[c] == calcDc(i, d, RegularRequest(types, p, i)).energy
  {
    var n := |types|;
    var afterHartree := RunPhase(st, l, HartreeActions(types), dens, calcDc, n);
    var acts := FormulaActions(types, p, crpa);
    var ddens := DcDensities(types, p, l, dens);
    forall i | 0 <= i < |acts| ensures !acts[i].SetStatic? {
      FormulaRequestOfShell(types, p, crpa, i);
    }
    RunPhaseClosedForm(st, l, HartreeActions(types), dens, calcDc, n);
    RunPhaseClosedForm(afterHartree, l, acts, ddens, calcDc, n);
    var i := l.corrToInequiv[c];
    var r := RunPhase(afterHartree, l, acts, ddens, calcDc, n);
    if types[i] == "hartree" {
      assert acts[i].Skip?;
      assert HartreeActions(types)[i] == Calc(UseValue(0.0));
      assert r.dcImp[c] == afterHartree.dcImp[c];
    } else {
      assert acts[i] == Calc(RegularRequest(types, p, i));
    }
  }

  /**
   * Without the optional steps and without cRPA shells, every correlated
   * shell ends with `calc_dc`'s result for its inequivalent shell: the FLL
   * eg variant for dc_type 3, the requested formula otherwise, zero for
   * Hartree shells, on the fixed-occupation density where one is given.
   */
  lemma RegularDcPerShell(st: DcState, l: Layout, types: seq<string>, dens: seq<DensityShell>, p: DcParams,
                          calcDc: CalcDcFn, crpa: CrpaFn)
    requires DcInputsFit(st, l, types, dens, p)
    requires p.dcFixedValue.None? && !p.dcNominal && p.dcFactor.None? && p.dcOrbShift.None?
    requires forall i | 0 <= i < |types| :: !IsCrpa(p.dcType[i])
    ensures var r := DoubleCountingSpec(st, l, types, dens, p, calcDc, crpa);
            && r.raised.None?
            && forall c | 0 <= c < |l.corrToInequiv| ::
                 var i := l.corrToInequiv[c];
                 var d := if types[i] == "hartree" then dens[i] else DcDensities(types, p, l, dens)[i];
                 r.state.dcImp[c] == calcDc(i, d, RegularRequest(types, p, i)).pot &&
                 r.state.dcEnerg[c] == calcDc(i, d, RegularRequest(types, p, i)).energy
  {
    PlainSpecIsTwoPhases(st, l, types, dens, p, calcDc, crpa);
    forall c | 0 <= c < |l.corrToInequiv| {
      TwoPhasesOneShell(st, l, types, dens, p, calcDc, crpa, c);
    }
  }

  /** `dc_factor` scales whatever the earlier steps produced and nothing else. */
  lemma FactorOnlyScales(st: DcState, l: Layout, types: seq<string>, dens: seq<DensityShell>, p: DcParams,
                         calcDc: CalcDcFn, crpa: CrpaFn, f: real)
    requires DcInputsFit(st, l, types, dens, p)
    requires p.dcFixedValue.None? && p.dcOrbShift.None? && p.dcFactor.None?
    ensures var unscaled := DoubleCountingSpec(st, l, types, dens, p, calcDc, crpa);
            var scaled := DoubleCountingSpec(st, l, types, dens, p.(dcFactor := Some(f)), calcDc, crpa);
            scaled == if unscaled.raised.None? then DcRun(ScaleDc(unscaled.state, f), None) else unscaled
  {
  }

  /**
   * The DC energy of Hartree shells is the one their solver computed
   * (dmft_cycle.py:770-775); the other shells keep theirs.
   */
  function WithHartreeEnergies(st: DcState, l: Layout, types: seq<string>, solverDcEnergy: seq<real>)
    : (r: DcState)
    requires ValidLayout(l) && Fits(st, l) && |types| == |l.inequivToCorr| && |solverDcEnergy| == |types|
    ensures Fits(r, l) && r.dcImp == st.dcImp
    ensures forall c | 0 <= c < |l.corrToInequiv| ::
              r.dcEnerg[c] == if types[l.corrToInequiv[c]] == "hartree" then solverDcEnergy[l.corrToInequiv[c]]
                              else st.dcEnerg[c]
  {
    var n := |l.corrToInequiv|;
    st.(dcEnerg := seq(n, c requires 0 <= c < n =>
      if types[l.corrToInequiv[c]] == "hartree" then solverDcEnergy[l.corrToInequiv[c]] else st.dcEnerg[c]))
  }
}
