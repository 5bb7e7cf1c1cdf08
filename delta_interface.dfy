/**
 * The delta interface of `_dmft_step`: whether an impurity hands its
 * hybridisation Delta(tau) and local Hamiltonian Hloc_0 to the solver
 * directly, the `diag_delta` mask on Delta(tau), and the threshold rule
 * deciding which elements of the effective atomic levels enter Hloc_0.
 */
module DeltaInterface {
  import opened Common
  import opened SolverMap

  /**
   * The gate as written at dmft_cycle.py:672-673: the solver settings are
   * looked up with the impurity index, so an impurity whose index is not a
   * solver entry raises IndexError when its type is cthyb (ctseg answers
   * before the lookup).
   */
  function UsesDeltaInterfaceAsWritten(typePerImp: seq<string>, solvers: seq<SolverParams>, icrsh: nat)
    : (r: Result<bool>)
    requires icrsh < |typePerImp|
    ensures typePerImp[icrsh] == "cthyb" ==>
              r == if icrsh < |solvers| then Success(solvers[icrsh].deltaInterface) else Failure(IndexError)
    ensures typePerImp[icrsh] != "cthyb" ==> r == Success(typePerImp[icrsh] == "ctseg")
  {
    if typePerImp[icrsh] == "cthyb" then
      if icrsh < |solvers| then Success(solvers[icrsh].deltaInterface) else Failure(IndexError)
    else Success(typePerImp[icrsh] == "ctseg")
  }

  /** The gate with the settings of the solver entry that serves the impurity, as the solver itself is built (dmft_cycle.py:509). */
  function UsesDeltaInterface(typePerImp: seq<string>, solvers: seq<SolverParams>, impToSolver: seq<nat>, icrsh: nat)
    : bool
    requires icrsh < |typePerImp| && icrsh < |impToSolver| && impToSolver[icrsh] < |solvers|
  {
    typePerImp[icrsh] == "ctseg" || (typePerImp[icrsh] == "cthyb" && solvers[impToSolver[icrsh]].deltaInterface)
  }

  /**
   * With the solver map of the run, the corrected gate never fails and reads
   * the type and the `delta_interface` flag from the same solver entry.
   */
  lemma DeltaInterfaceFollowsServingSolver(solvers: seq<SolverParams>, n: nat, icrsh: nat)
    requires MapImpSolver(solvers, n).Success? && icrsh < n
    ensures var impToSolver := MapImpSolver(solvers, n).value;
            var entry := solvers[impToSolver[icrsh]];
            UsesDeltaInterface(SolverTypePerImp(solvers, impToSolver), solvers, impToSolver, icrsh) <==>
              entry.solverType == "ctseg" || (entry.solverType == "cthyb" && entry.deltaInterface)
  {
  }

  /** One cthyb solver serving two impurities: the gate as written fails on the second impurity. */
  lemma DeltaInterfaceAsWrittenFailsForSharedSolver()
    ensures var solvers := [SolverParams("cthyb", None, true, false, 0.0)];
            var impToSolver := MapImpSolver(solvers, 2).value;
            && impToSolver == [0, 0]
            && UsesDeltaInterfaceAsWritten(SolverTypePerImp(solvers, impToSolver), solvers, 1) == Failure(IndexError)
            && UsesDeltaInterface(SolverTypePerImp(solvers, impToSolver), solvers, impToSolver, 1)
  {
    var solvers := [SolverParams("cthyb", None, true, false, 0.0)];
    assert SingleDefaultSolver(solvers);
    var impToSolver := MapImpSolver(solvers, 2).value;
    assert impToSolver == [0, 0];
    assert SolverTypePerImp(solvers, impToSolver) == ["cthyb", "cthyb"];
  }

  /**
   * `diag_delta` (dmft_cycle.py:692-696): every off-diagonal element of
   * Delta(tau) is set to zero at every time point; diagonal elements are kept.
   * `data[t, o1, o2]` holds the block at time index `t`.
   */
  method ZeroOffDiagonalDelta(data: array3<Complex>)
    requires data.Length1 == data.Length2
    modifies data
    ensures forall t, o1, o2 | 0 <= t < data.Length0 && 0 <= o1 < data.Length1 && 0 <= o2 < data.Length2 ::
              data[t, o1, o2] == if o1 != o2 then Complex(0.0, 0.0) else old(data[t, o1, o2])
  {
    var n := data.Length1;
    for o1 := 0 to n
      invariant forall t, a, b | 0 <= t < data.Length0 && 0 <= a < n && 0 <= b < n ::
                  data[t, a, b] == if a < o1 && a != b then Complex(0.0, 0.0) else old(data[t, a, b])
    {
      for o2 := 0 to n
        invariant forall t, a, b | 0 <= t < data.Length0 && 0 <= a < n && 0 <= b < n ::
                    data[t, a, b] == if (a < o1 || (a == o1 && b < o2)) && a != b then Complex(0.0, 0.0)
                                     else old(data[t, a, b])
      {
        if o1 != o2 {
          // `data[:, o1, o2] = 0`
          for t := 0 to data.Length0
            invariant forall t', a, b | 0 <= t' < data.Length0 && 0 <= a < n && 0 <= b < n ::
                        data[t', a, b] == if ((a < o1 || (a == o1 && b < o2)) || (a == o1 && b == o2 && t' < t)) && a != b
                                          then Complex(0.0, 0.0)
                                          else old(data[t', a, b])
          {
            data[t, o1, o2] := Complex(0.0, 0.0);
          }
        }
      }
    }
  }

  /** `abs(z) < thr` for a complex `z`, without the square root. */
  predicate AbsBelow(z: Complex, thr: real) {
    thr > 0.0 && z.re * z.re + z.im * z.im < thr * thr
  }

  /** An element of the atomic levels enters Hloc_0 unless it is off-diagonal and smaller than the threshold. */
  predicate EntersHloc0(z: Complex, o1: nat, o2: nat, thr: real) {
    o1 == o2 || !AbsBelow(z, thr)
  }

  /** A block of the effective atomic levels: its name and a `rows` x `cols` matrix. */
  datatype LevelBlock = LevelBlock(spin: string, rows: nat, cols: nat, entries: seq<seq<Complex>>)

  predicate WellShaped(b: LevelBlock) {
    |b.entries| == b.rows && forall r | 0 <= r < b.rows :: |b.entries[r]| == b.cols
  }

  /**
   * One summand `v.real/2 * (c_dag(spin,o1) c(spin,o2) + c_dag(spin,o2) c(spin,o1))`
   * of Hloc_0, recorded by its block, orbitals and coefficient.
   */
  datatype HopTerm = HopTerm(spin: string, o1: nat, o2: nat, coeff: real)

  function TermAt(b: LevelBlock, o1: nat, o2: nat): HopTerm
    requires WellShaped(b) && o1 < b.rows && o2 < b.cols
  {
    HopTerm(b.spin, o1, o2, b.entries[o1][o2].re / 2.0)
  }

  /** Whether the element `(o1, o2)` of block `b` enters Hloc_0. */
  predicate Kept(b: LevelBlock, o1: nat, o2: nat, thr: real)
    requires WellShaped(b) && o1 < b.rows && o2 < b.cols
  {
    EntersHloc0(b.entries[o1][o2], o1, o2, thr)
  }

  /** The summands of row `o1` of block `b` from its first `n` columns, in order. */
  function RowTerms(b: LevelBlock, thr: real, o1: nat, n: nat): seq<HopTerm>
    requires WellShaped(b) && o1 < b.rows && n <= b.cols
  {
    if n == 0 then []
    else RowTerms(b, thr, o1, n - 1) + (if Kept(b, o1, n - 1, thr) then [TermAt(b, o1, n - 1)] else [])
  }

  /** The summands of the first `m` rows of block `b`, row by row. */
  function BlockTerms(b: LevelBlock, thr: real, m: nat): seq<HopTerm>
    requires WellShaped(b) && m <= b.rows
  {
    if m == 0 then [] else BlockTerms(b, thr, m - 1) + RowTerms(b, thr, m - 1, b.cols)
  }

  /** The summands of the first `k` blocks, block by block: one per kept element, in the loops' order. */
  function Hloc0Terms(blocks: seq<LevelBlock>, thr: real, k: nat): seq<HopTerm>
    requires k <= |blocks| && forall i | 0 <= i < |blocks| :: WellShaped(blocks[i])
  {
    if k == 0 then [] else Hloc0Terms(blocks, thr, k - 1) + BlockTerms(blocks[k - 1], thr, blocks[k - 1].rows)
  }

  lemma {:induction false} RowTermsMeaning(b: LevelBlock, thr: real, o1: nat, n: nat)
    requires WellShaped(b) && o1 < b.rows && n <= b.cols
    ensures forall c: nat | c < n && Kept(b, o1, c, thr) :: TermAt(b, o1, c) in RowTerms(b, thr, o1, n)
    ensures forall t | t in RowTerms(b, thr, o1, n) ::
              exists c: nat | c < n :: t == TermAt(b, o1, c) && Kept(b, o1, c, thr)
  {
    if n > 0 {
      RowTermsMeaning(b, thr, o1, n - 1);
    }
  }

  lemma {:induction false} BlockTermsMeaning(b: LevelBlock, thr: real, m: nat)
    requires WellShaped(b) && m <= b.rows
    ensures forall a: nat, c: nat | a < m && c < b.cols && Kept(b, a, c, thr) :: TermAt(b, a, c) in BlockTerms(b, thr, m)
    ensures forall t | t in BlockTerms(b, thr, m) ::
              exists a: nat, c: nat | a < m && c < b.cols :: t == TermAt(b, a, c) && Kept(b, a, c, thr)
  {
    if m > 0 {
      BlockTermsMeaning(b, thr, m - 1);
      RowTermsMeaning(b, thr, m - 1, b.cols);
    }
  }

  /**
   * Hloc_0 holds a summand, with half the real part of the element, for
   * exactly the elements that enter it: every diagonal element and the
   * off-diagonal elements not below `off_diag_threshold`.
   */
  lemma {:induction false} Hloc0TermsMeaning(blocks: seq<LevelBlock>, thr: real, k: nat)
    requires k <= |blocks| && forall i | 0 <= i < |blocks| :: WellShaped(blocks[i])
    ensures forall i, o1: nat, o2: nat | 0 <= i < k && o1 < blocks[i].rows && o2 < blocks[i].cols ::
              Kept(blocks[i], o1, o2, thr) ==> TermAt(blocks[i], o1, o2) in Hloc0Terms(blocks, thr, k)
    ensures forall t | t in Hloc0Terms(blocks, thr, k) ::
              exists i, o1: nat, o2: nat | 0 <= i < k && o1 < blocks[i].rows && o2 < blocks[i].cols ::
                t == TermAt(blocks[i], o1, o2) && Kept(blocks[i], o1, o2, thr)
  {
    if k > 0 {
      Hloc0TermsMeaning(blocks, thr, k - 1);
      BlockTermsMeaning(blocks[k - 1], thr, blocks[k - 1].rows);
    }
  }

  /**
   * Hloc_0 as built at dmft_cycle.py:699-708: the three loops add the summand
   * of every kept element, block by block and row by row.
   */
  method BuildHloc0(blocks: seq<LevelBlock>, thr: real) returns (terms: seq<HopTerm>)
    requires forall i | 0 <= i < |blocks| :: WellShaped(blocks[i])
    ensures terms == Hloc0Terms(blocks, thr, |blocks|)
  {
    terms := [];
    for i := 0 to |blocks|
      invariant terms == Hloc0Terms(blocks, thr, i)
    {
      var b := blocks[i];
      ghost var before := terms;
      for o1 := 0 to b.rows
        invariant terms == before + BlockTerms(b, thr, o1)
      {
        ghost var rowStart := terms;
        for o2 := 0 to b.cols
          invariant terms == rowStart + RowTerms(b, thr, o1, o2)
        {
          var v := b.entries[o1][o2];
          if o1 != o2 && AbsBelow(v, thr) {
            continue;
          }
          terms := terms + [HopTerm(b.spin, o1, o2, v.re / 2.0)];
        }
      }
    }
  }
}
