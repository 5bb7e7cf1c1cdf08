/**
 * `_sumk_sigma_to_solver_struct` (initial_self_energies.py:319-359): the
 * self-energies of the correlated shells, in the lattice object's block
 * structure, are rotated to the local frame when rotations are in use and
 * copied entry by entry into the solver's block structure of each
 * inequivalent shell. A self-energy entry is a whole frequency function; its
 * type is the parameter `G`.
 */
module Remap {
  import opened Common

  type Mat<G> = seq<seq<G>>

  /** A block of the lattice object's structure and an orbital index in it. */
  datatype SumkIndex = SumkIndex(block: string, idx: nat)

  /** `solver_to_sumk[ish]`: a solver block and index to the lattice block and index they come from. */
  type SolverToSumk = map<(string, nat), SumkIndex>

  /** `gf_struct_solver[ish]`: the solver blocks with their sizes, in order. */
  type GfStruct = seq<(string, nat)>

  datatype SolverBlock<G> = SolverBlock(name: string, data: Mat<G>)

  /** What the lattice object knows about the block structures; `rotloc` is its rotation to the local frame. */
  datatype Structure<!G> = Structure(
    gfStructSolver: seq<GfStruct>,
    solverToSumk: seq<SolverToSumk>,
    inequivToCorr: seq<nat>,
    useRotations: bool,
    rotloc: (nat, Mat<G>) -> Mat<G>)

  predicate StructureFits<G>(s: Structure<G>, nCorr: nat) {
    && |s.gfStructSolver| == |s.inequivToCorr|
    && |s.solverToSumk| == |s.inequivToCorr|
    && forall ish | 0 <= ish < |s.inequivToCorr| :: s.inequivToCorr[ish] < nCorr
  }

  /** The correlated shells' self-energies, rotated block by block to the local frame when rotations are in use. */
  function Localized<G>(sigma: seq<map<string, Mat<G>>>, useRotations: bool, rotloc: (nat, Mat<G>) -> Mat<G>)
    : (r: seq<map<string, Mat<G>>>)
    ensures |r| == |sigma|
    ensures forall c | 0 <= c < |sigma| ::
              r[c].Keys == sigma[c].Keys &&
              forall b | b in sigma[c] :: r[c][b] == if useRotations then rotloc(c, sigma[c][b]) else sigma[c][b]
  {
    if useRotations then seq(|sigma|, c requires 0 <= c < |sigma| => map b | b in sigma[c] :: rotloc(c, sigma[c][b]))
    else sigma
  }

  /**
   * Entry `(i, j)` of solver block `block`: both indices are looked up in
   * `solver_to_sumk`, and the lattice block is the one of the second lookup.
   * A missing key raises KeyError; an index outside the lattice block, IndexError.
   */
  function SolverEntry<G>(local: map<string, Mat<G>>, s2s: SolverToSumk, block: string, i: nat, j: nat): Result<G> {
    if (block, i) !in s2s || (block, j) !in s2s then Failure(KeyError)
    else
      var row := s2s[(block, i)].idx;
      var col := s2s[(block, j)].idx;
      var from := s2s[(block, j)].block;
      if from !in local then Failure(KeyError)
      else if row < |local[from]| && col < |local[from][row]| then Success(local[from][row][col])
      else Failure(IndexError)
  }

  /** Entry `(a, b)` comes before entry `(i, j)` in the loops' row-major order. */
  predicate Before(a: nat, b: nat, i: nat, j: nat) {
    a < i || (a == i && b < j)
  }

  predicate Remappable<G>(local: map<string, Mat<G>>, s2s: SolverToSumk, name: string, dim: nat) {
    forall a, b | 0 <= a < dim && 0 <= b < dim :: SolverEntry(local, s2s, name, a, b).Success?
  }

  /**
   * When `solver_to_sumk` sends every index of a solver block to the same
   * index of the lattice block of the same name, the solver block is a copy
   * of that lattice block.
   */
  lemma IdentityMapCopiesBlock<G>(local: map<string, Mat<G>>, s2s: SolverToSumk, name: string, dim: nat)
    requires name in local && |local[name]| == dim && forall a | 0 <= a < dim :: |local[name][a]| == dim
    requires forall a | 0 <= a < dim :: (name, a) in s2s && s2s[(name, a)] == SumkIndex(name, a)
    ensures Remappable(local, s2s, name, dim)
    ensures forall a, b | 0 <= a < dim && 0 <= b < dim :: SolverEntry(local, s2s, name, a, b).value == local[name][a][b]
  {
  }

  /** `blk` is solver block `name` of size `dim`, every entry copied from where `solver_to_sumk` points. */
  predicate RemappedBlock<G(==)>(local: map<string, Mat<G>>, s2s: SolverToSumk, name: string, dim: nat, blk: SolverBlock<G>) {
    && blk.name == name
    && |blk.data| == dim
    && forall a | 0 <= a < dim ::
         |blk.data[a]| == dim && forall b | 0 <= b < dim :: SolverEntry(local, s2s, name, a, b) == Success(blk.data[a][b])
  }

  function Contents<G>(target: array2<G>): (m: Mat<G>)
    reads target
    ensures |m| == target.Length0 && forall a | 0 <= a < target.Length0 :: |m[a]| == target.Length1
    ensures forall a, b | 0 <= a < target.Length0 && 0 <= b < target.Length1 :: m[a][b] == target[a, b]
  {
    seq(target.Length0, a requires 0 <= a < target.Length0 reads target =>
      seq(target.Length1, b requires 0 <= b < target.Length1 reads target => target[a, b]))
  }

  /**
   * The two inner loops for one solver block: every entry is copied in
   * row-major order, and the first entry whose lookup fails raises.
   */
  method FillSolverBlock<G(==)>(target: array2<G>, local: map<string, Mat<G>>, s2s: SolverToSumk, block: string)
    returns (err: Option<Error>)
    requires target.Length0 == target.Length1
    modifies target
    ensures err.None? ==>
              forall a, b | 0 <= a < target.Length0 && 0 <= b < target.Length0 ::
                SolverEntry(local, s2s, block, a, b) == Success(target[a, b])
    ensures err.Some? ==>
              exists i, j | 0 <= i < target.Length0 && 0 <= j < target.Length0 ::
                && SolverEntry(local, s2s, block, i, j) == Failure(err.value)
                && forall a, b | 0 <= a < target.Length0 && 0 <= b < target.Length0 && Before(a, b, i, j) ::
                     SolverEntry(local, s2s, block, a, b).Success?
  {
    var dim := target.Length0;
    for i := 0 to dim
      invariant forall a, b | 0 <= a < i && 0 <= b < dim :: SolverEntry(local, s2s, block, a, b) == Success(target[a, b])
    {
      for j := 0 to dim
        invariant forall a, b | 0 <= a < dim && 0 <= b < dim && Before(a, b, i, j) ::
                    SolverEntry(local, s2s, block, a, b) == Success(target[a, b])
      {
        var e := SolverEntry(local, s2s, block, i, j);
        if e.Failure? {
          return Some(e.error);
        }
        target[i, j] := e.value;
      }
    }
    err := None;
  }

  /** `result` holds, for every inequivalent shell, its solver blocks remapped from its correlated shell. */
  ghost predicate IsRemapOf<G>(result: seq<seq<SolverBlock<G>>>, startSigma: seq<map<string, Mat<G>>>, s: Structure<G>)
    requires StructureFits(s, |startSigma|)
  {
    && |result| == |s.inequivToCorr|
    && forall ish | 0 <= ish < |s.inequivToCorr| ::
         && |result[ish]| == |s.gfStructSolver[ish]|
         && forall k | 0 <= k < |s.gfStructSolver[ish]| ::
              RemappedBlock(Localized(startSigma, s.useRotations, s.rotloc)[s.inequivToCorr[ish]],
                            s.solverToSumk[ish], s.gfStructSolver[ish][k].0, s.gfStructSolver[ish][k].1,
                            result[ish][k])
  }

  /** Some entry of some solver block cannot be looked up, and its lookup raises `e`. */
  ghost predicate RemapFailsWith<G>(startSigma: seq<map<string, Mat<G>>>, s: Structure<G>, e: Error)
    requires StructureFits(s, |startSigma|)
  {
    exists ish, k | 0 <= ish < |s.inequivToCorr| && 0 <= k < |s.gfStructSolver[ish]| ::
      var dim := s.gfStructSolver[ish][k].1;
      exists i, j | 0 <= i < dim && 0 <= j < dim ::
        SolverEntry(Localized(startSigma, s.useRotations, s.rotloc)[s.inequivToCorr[ish]],
                    s.solverToSumk[ish], s.gfStructSolver[ish][k].0, i, j) == Failure(e)
  }

  /**
   * The whole conversion: one list of solver blocks per inequivalent shell,
   * each taken from the correlated shell `inequiv_to_corr[ish]`.
   */
  method SumkSigmaToSolverStruct<G(==,0)>(startSigma: seq<map<string, Mat<G>>>, s: Structure<G>)
    returns (r: Result<seq<seq<SolverBlock<G>>>>)
    requires StructureFits(s, |startSigma|)
    ensures r.Success? ==> IsRemapOf(r.value, startSigma, s)
    ensures r.Failure? ==> RemapFailsWith(startSigma, s, r.error)
  {
    var local := Localized(startSigma, s.useRotations, s.rotloc);
    var result: seq<seq<SolverBlock<G>>> := [];
    for ish := 0 to |s.inequivToCorr|
      invariant |result| == ish
      invariant forall i | 0 <= i < ish ::
                  && |result[i]| == |s.gfStructSolver[i]|
                  && forall k | 0 <= k < |s.gfStructSolver[i]| ::
                       RemappedBlock(local[s.inequivToCorr[i]], s.solverToSumk[i], s.gfStructSolver[i][k].0,
                                     s.gfStructSolver[i][k].1, result[i][k])
    {
      var blocks: seq<SolverBlock<G>> := [];
      var struct := s.gfStructSolver[ish];
      var from := local[s.inequivToCorr[ish]];
      for k := 0 to |struct|
        invariant |blocks| == k
        invariant forall k' | 0 <= k' < k ::
                    RemappedBlock(from, s.solverToSumk[ish], struct[k'].0, struct[k'].1, blocks[k'])
      {
        var name := struct[k].0;
        var dim := struct[k].1;
        var target := new G[dim, dim];
        var err := FillSolverBlock(target, from, s.solverToSumk[ish], name);
        if err.Some? {
          ghost var i, j :| 0 <= i < dim && 0 <= j < dim &&
                            SolverEntry(from, s.solverToSumk[ish], name, i, j) == Failure(err.value);
          return Failure(err.value);
        }
        blocks := blocks + [SolverBlock(name, Contents(target))];
      }
      result := result + [blocks];
    }
    r := Success(result);
  }
}
