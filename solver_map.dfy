/**
 * Setup of the cycle: which solver entry serves which impurity, and how many
 * correlated shells each inequivalent shell stands for (its multiplicity).
 */
module SolverMap {
  import opened Common

  /**
   * One entry of the solver section of the input: its type, the impurities
   * it serves, and the delta-interface settings read by the step.
   */
  datatype SolverParams = SolverParams(
    solverType: string,
    idxImpurities: Option<seq<int>>,
    deltaInterface: bool,
    diagDelta: bool,
    offDiagThreshold: real)

  /** The entry names impurity `i` in its `idx_impurities`. */
  predicate Lists(entry: SolverParams, i: int) {
    entry.idxImpurities.Some? && i in entry.idxImpurities.value
  }

  /** One solver whose `idx_impurities` is None: it serves every impurity. */
  predicate SingleDefaultSolver(solvers: seq<SolverParams>) {
    |solvers| == 1 && solvers[0].idxImpurities.None?
  }

  predicate AllListed(solvers: seq<SolverParams>) {
    forall s | 0 <= s < |solvers| :: solvers[s].idxImpurities.Some?
  }

  /** The concatenated `idx_impurities` lists (`all_idx_imp`). */
  function AllIdxImpurities(solvers: seq<SolverParams>): seq<int>
    requires AllListed(solvers)
  {
    if solvers == [] then [] else solvers[0].idxImpurities.value + AllIdxImpurities(solvers[1..])
  }

  /**
   * `sorted(all_idx_imp) == list(range(n))`: two lists sort to the same list
   * exactly when they hold the same elements with the same multiplicities.
   */
  predicate ListsEachImpurityOnce(all: seq<int>, n: nat) {
    multiset(all) == multiset(Range(n))
  }

  /** The inner loop with `break`: the first solver entry that lists impurity `i` (`|solvers|` if none). */
  function FirstSolverListing(solvers: seq<SolverParams>, i: int): (k: nat)
    requires AllListed(solvers)
    ensures k <= |solvers|
  {
    if solvers == [] then 0
    else if i in solvers[0].idxImpurities.value then 0
    else 1 + FirstSolverListing(solvers[1..], i)
  }

  /**
   * The impurity-to-solver map built at dmft_cycle.py:355-368. A single
   * default solver serves all impurities; otherwise every impurity must be
   * listed exactly once (ValueError), and an entry without a list cannot be
   * iterated (TypeError). On success impurity `i` is served by the one
   * solver entry that lists it.
   */
  function MapImpSolver(solvers: seq<SolverParams>, n: nat): (r: Result<seq<nat>>)
    ensures SingleDefaultSolver(solvers) ==> r == Success(seq(n, _ => 0))
    ensures !SingleDefaultSolver(solvers) ==>
              (r.Success? <==> AllListed(solvers) && ListsEachImpurityOnce(AllIdxImpurities(solvers), n))
    ensures !SingleDefaultSolver(solvers) && r.Failure? ==>
              r.error == (if AllListed(solvers) then ValueError else TypeError)
    ensures r.Success? ==> |r.value| == n && forall i | 0 <= i < n :: r.value[i] < |solvers|
    ensures r.Success? && !SingleDefaultSolver(solvers) ==>
              forall i | 0 <= i < n ::
                && i in solvers[r.value[i]].idxImpurities.value
                && forall s | 0 <= s < |solvers| && i in solvers[s].idxImpurities.value :: s == r.value[i]
  {
    if SingleDefaultSolver(solvers) then Success(seq(n, _ => 0))
    else if !AllListed(solvers) then Failure(TypeError)
    else if !ListsEachImpurityOnce(AllIdxImpurities(solvers), n) then Failure(ValueError)
    else
      MapIsWellDefined(solvers, n);
      Success(seq(n, i => FirstSolverListing(solvers, i)))
  }

  /** `solver_type_per_imp`: the type of the solver entry serving each impurity. */
  function SolverTypePerImp(solvers: seq<SolverParams>, impToSolver: seq<nat>): (types: seq<string>)
    requires forall i | 0 <= i < |impToSolver| :: impToSolver[i] < |solvers|
    ensures |types| == |impToSolver|
    ensures forall i | 0 <= i < |impToSolver| :: types[i] == solvers[impToSolver[i]].solverType
  {
    seq(|impToSolver|, i requires 0 <= i < |impToSolver| => solvers[impToSolver[i]].solverType)
  }

  /**
   * The type recorded for impurity `i` is the type of the entry that serves
   * it: the single entry without `idx_impurities`, or else the one entry whose
   * `idx_impurities` lists `i`.
   */
  lemma SolverTypeOfServingEntry(solvers: seq<SolverParams>, n: nat)
    requires MapImpSolver(solvers, n).Success?
    ensures var types := SolverTypePerImp(solvers, MapImpSolver(solvers, n).value);
            && |types| == n
            && (SingleDefaultSolver(solvers) ==> forall i | 0 <= i < n :: types[i] == solvers[0].solverType)
            && (!SingleDefaultSolver(solvers) ==>
                  forall i | 0 <= i < n ::
                    && (exists s | 0 <= s < |solvers| :: Lists(solvers[s], i))
                    && forall s | 0 <= s < |solvers| && Lists(solvers[s], i) :: types[i] == solvers[s].solverType)
  {
    var m := MapImpSolver(solvers, n).value;
    if !SingleDefaultSolver(solvers) {
      forall i | 0 <= i < n ensures m[i] < |solvers| && Lists(solvers[m[i]], i) {
      }
      var types := SolverTypePerImp(solvers, m);
      forall i, s | 0 <= i < n && 0 <= s < |solvers| && Lists(solvers[s], i) ensures types[i] == solvers[s].solverType {
        assert i in solvers[s].idxImpurities.value;
        assert s == m[i];
      }
    }
  }

  lemma {:induction false} RangeMultiplicity(n: nat, x: int)
    ensures multiset(Range(n))[x] == if 0 <= x < n then 1 else 0
  {
    if n > 0 {
      RangeMultiplicity(n - 1, x);
      assert Range(n) == Range(n - 1) + [n - 1];
    }
  }

  lemma {:induction false} ListedIsInAll(solvers: seq<SolverParams>, s: nat, x: int)
    requires AllListed(solvers) && s < |solvers| && x in solvers[s].idxImpurities.value
    ensures x in multiset(AllIdxImpurities(solvers))
  {
    if s > 0 {
      ListedIsInAll(solvers[1..], s - 1, x);
    }
  }

  lemma {:induction false} FirstListingFound(solvers: seq<SolverParams>, x: int)
    requires AllListed(solvers) && x in multiset(AllIdxImpurities(solvers))
    ensures FirstSolverListing(solvers, x) < |solvers|
    ensures x in solvers[FirstSolverListing(solvers, x)].idxImpurities.value
  {
    if x !in solvers[0].idxImpurities.value {
      assert multiset(AllIdxImpurities(solvers)) ==
             multiset(solvers[0].idxImpurities.value) + multiset(AllIdxImpurities(solvers[1..]));
      FirstListingFound(solvers[1..], x);
    }
  }

  lemma {:induction false} OnlyListing(solvers: seq<SolverParams>, s: nat, x: int)
    requires AllListed(solvers) && s < |solvers| && x in solvers[s].idxImpurities.value
    requires multiset(AllIdxImpurities(solvers))[x] <= 1
    ensures FirstSolverListing(solvers, x) == s
  {
    if s > 0 {
      var tail := solvers[1..];
      assert multiset(AllIdxImpurities(solvers)) ==
             multiset(solvers[0].idxImpurities.value) + multiset(AllIdxImpurities(tail));
      ListedIsInAll(tail, s - 1, x);
      OnlyListing(tail, s - 1, x);
    }
  }

  lemma MapIsWellDefined(solvers: seq<SolverParams>, n: nat)
    requires AllListed(solvers) && ListsEachImpurityOnce(AllIdxImpurities(solvers), n)
    ensures forall i | 0 <= i < n ::
              && FirstSolverListing(solvers, i) < |solvers|
              && i in solvers[FirstSolverListing(solvers, i)].idxImpurities.value
              && forall s | 0 <= s < |solvers| && i in solvers[s].idxImpurities.value ::
                   s == FirstSolverListing(solvers, i)
  {
    forall i | 0 <= i < n
      ensures && FirstSolverListing(solvers, i) < |solvers|
              && i in solvers[FirstSolverListing(solvers, i)].idxImpurities.value
              && forall s | 0 <= s < |solvers| && i in solvers[s].idxImpurities.value ::
                   s == FirstSolverListing(solvers, i)
    {
      RangeMultiplicity(n, i);
      FirstListingFound(solvers, i);
      forall s | 0 <= s < |solvers| && i in solvers[s].idxImpurities.value
        ensures s == FirstSolverListing(solvers, i)
      {
        OnlyListing(solvers, s, i);
      }
    }
  }

  /** `shell_multiplicity` (dmft_cycle.py:476): how many correlated shells map to each inequivalent shell. */
  function ShellMultiplicity(corrToInequiv: seq<int>, n: nat): (m: seq<nat>)
    ensures |m| == n
  {
    seq(n, i => Count(corrToInequiv, i))
  }

  lemma {:induction false} SumOfIncrement(s: seq<nat>, x: nat)
    requires x < |s|
    ensures Sum(s[x := s[x] + 1]) == Sum(s) + 1
  {
    if x > 0 {
      SumOfIncrement(s[1..], x - 1);
      assert s[x := s[x] + 1][1..] == s[1..][x - 1 := s[x] + 1];
    }
  }

  lemma {:induction false} SumOfZeros(n: nat)
    ensures Sum(seq(n, _ => 0)) == 0
  {
    if n > 0 {
      assert seq(n, _ => 0)[1..] == seq(n - 1, _ => 0);
      SumOfZeros(n - 1);
    }
  }

  /**
   * Every correlated shell belongs to exactly one inequivalent shell, so the
   * multiplicities add up to the number of correlated shells.
   */
  lemma {:induction false} MultiplicitiesSumToCorrShells(corrToInequiv: seq<int>, n: nat)
    requires forall c | 0 <= c < |corrToInequiv| :: 0 <= corrToInequiv[c] < n
    ensures Sum(ShellMultiplicity(corrToInequiv, n)) == |corrToInequiv|
  {
    if corrToInequiv == [] {
      assert ShellMultiplicity(corrToInequiv, n) == seq(n, _ => 0);
      SumOfZeros(n);
    } else {
      var x := corrToInequiv[0];
      var tail := corrToInequiv[1..];
      MultiplicitiesSumToCorrShells(tail, n);
      var before := ShellMultiplicity(tail, n);
      assert ShellMultiplicity(corrToInequiv, n) == before[x := before[x] + 1];
      SumOfIncrement(before, x);
    }
  }
}
