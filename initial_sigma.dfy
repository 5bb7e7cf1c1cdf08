/**
 * `determine_dc_and_initial_sigma` (initial_self_energies.py:437-596) and
 * `_load_sigma_from_h5`'s archive path (297-298): which of the five ways of
 * starting the self-energy applies, which density the DC is computed from,
 * the magnetic bias of a fresh magnetic run, and the symmetric noise added
 * in the first iteration. The random noise matrix is an input.
 */
module InitialSigma {
  import opened Common
  import opened DoubleCounting
  import opened NumpyArrays

  /** The five ways the initial self-energy is set, in the order they are tried. */
  datatype SigmaMode = Resume | LoadSigma | DcAsSigma | MagneticBias | ZeroSigma

  /**
   * The first applicable way wins (initial_self_energies.py:487-560): a
   * resumed run, then a self-energy loaded from another archive, then the DC
   * as self-energy, then a magnetic bias without DC, else zero.
   */
  function SelectMode(offset: int, loadSigma: bool, dc: bool, magnetic: bool): (m: SigmaMode)
    ensures m == Resume <==> offset > 0
    ensures m == LoadSigma <==> offset <= 0 && loadSigma
    ensures m == DcAsSigma <==> offset <= 0 && !loadSigma && dc
    ensures m == MagneticBias <==> offset <= 0 && !loadSigma && !dc && magnetic
    ensures m == ZeroSigma <==> offset <= 0 && !loadSigma && !dc && !magnetic
  {
    if offset > 0 then Resume
    else if loadSigma then LoadSigma
    else if dc then DcAsSigma
    else if !dc && magnetic then MagneticBias
    else ZeroSigma
  }

  /** The density matrices `calculate_double_counting` is called with at start-up, if it is called. */
  datatype DcDensity = NoDcCall | DftDensity | LoadedDensity

  /**
   * initial_self_energies.py:490-513: a resumed run keeps the archived DC
   * unless it is charge self-consistent without `dc_dmft`; a loaded
   * self-energy recomputes the DC when `dc` is set, from the loaded density
   * with `dc_dmft`; a fresh run with `dc` computes it from the DFT density.
   */
  function InitialDcCall(mode: SigmaMode, dc: bool, dcDmft: bool, csc: bool): (d: DcDensity)
    ensures d == LoadedDensity <==> mode == LoadSigma && dc && dcDmft
    ensures d == DftDensity <==>
              (mode == Resume && csc && !dcDmft) || (mode == LoadSigma && dc && !dcDmft) || mode == DcAsSigma
  {
    match mode
    case Resume => if csc && !dcDmft then DftDensity else NoDcCall
    case LoadSigma => if dc then (if dcDmft then LoadedDensity else DftDensity) else NoDcCall
    case DcAsSigma => DftDensity
    case _ => NoDcCall
  }

  /** A resumed charge self-consistent run recomputes the DC even when `dc` is off. */
  lemma ResumeRecomputesDcWithoutDcFlag(offset: int, loadSigma: bool, magnetic: bool)
    requires offset > 0
    ensures InitialDcCall(SelectMode(offset, loadSigma, false, magnetic), false, false, true) == DftDensity
  {
  }

  /** A magnetic run without DC never calls `calculate_double_counting` at start-up unless it resumes. */
  lemma NoDcCallWithoutDc(offset: int, magnetic: bool, dcDmft: bool, csc: bool)
    requires offset <= 0
    ensures InitialDcCall(SelectMode(offset, false, false, magnetic), false, dcDmft, csc) == NoDcCall
  {
  }

  // ---------------------------------------------------------------------
  // Magnetic bias

  /** `general_params['magnetic'] and general_params['magmom'] and sum_k.SO == 0`: `magmom` must be a non-empty list. */
  predicate BiasApplies(magnetic: bool, magmom: Option<seq<real>>, so: int) {
    magnetic && magmom.Some? && |magmom.value| > 0 && so == 0
  }

  /** The bias of a block: blocks whose name contains 'up' get `-magmom`, all others `+magmom`. */
  function BiasFor(name: string, fac: real): (b: real)
    ensures Contains(name, "up") ==> b == -fac
    ensures !Contains(name, "up") ==> b == fac
  {
    if Contains(name, "up") then -fac else fac
  }

  /** `x + m` with a numpy array `m`: every element is shifted. */
  function AddToAll(m: Matrix, x: real): (r: Matrix)
    ensures |r| == |m| && forall a | 0 <= a < |m| :: |r[a]| == |m[a]| && forall b | 0 <= b < |m[a]| :: r[a][b] == m[a][b] + x
  {
    seq(|m|, a requires 0 <= a < |m| => seq(|m[a]|, b requires 0 <= b < |m[a]| => m[a][b] + x))
  }

  /** `gf << x` with a scalar `x` on an `n` x `n` block: `x` on the diagonal, zero elsewhere. */
  function ScalarBlock(n: nat, x: real): (r: Matrix)
    ensures IsSquare(r, n) && forall a, b | 0 <= a < n && 0 <= b < n :: r[a][b] == if a == b then x else 0.0
  {
    seq(n, a requires 0 <= a < n => seq(n, b requires 0 <= b < n => if a == b then x else 0.0))
  }

  /** One block of a frequency-independent initial self-energy. */
  datatype SigmaBlock = SigmaBlock(name: string, m: Matrix)

  /**
   * The initial self-energy of inequivalent shell `icrsh` on the fresh-run
   * paths (initial_self_energies.py:515-560), block by block as
   * `gf_struct_solver[icrsh]` lists them. `dcPot` is the shell's DC converted
   * to the solver structure. `magmom[icrsh]` raises IndexError when the list
   * is too short.
   */
  function InitialSigmaShell(mode: SigmaMode, icrsh: nat, blocks: seq<(string, nat)>, dcPot: string -> Matrix,
                             magnetic: bool, magmom: Option<seq<real>>, so: int): (r: Result<seq<SigmaBlock>>)
    requires mode == DcAsSigma || mode == MagneticBias || mode == ZeroSigma
    ensures r.Failure? <==> mode != ZeroSigma && BiasApplies(magnetic, magmom, so) && icrsh >= |magmom.value|
    ensures r.Failure? ==> r.error == IndexError
    ensures r.Success? ==> |r.value| == |blocks| && forall k | 0 <= k < |blocks| :: r.value[k].name == blocks[k].0
  {
    var n := |blocks|;
    if mode == ZeroSigma || (mode == MagneticBias && !BiasApplies(magnetic, magmom, so)) then
      Success(seq(n, k requires 0 <= k < n => SigmaBlock(blocks[k].0, ScalarBlock(blocks[k].1, 0.0))))
    else if mode == DcAsSigma && !BiasApplies(magnetic, magmom, so) then
      Success(seq(n, k requires 0 <= k < n => SigmaBlock(blocks[k].0, dcPot(blocks[k].0))))
    else if icrsh >= |magmom.value| then Failure(IndexError)
    else
      var fac := magmom.value[icrsh];
      if mode == DcAsSigma then
        Success(seq(n, k requires 0 <= k < n => SigmaBlock(blocks[k].0, AddToAll(dcPot(blocks[k].0), BiasFor(blocks[k].0, fac)))))
      else
        Success(seq(n, k requires 0 <= k < n => SigmaBlock(blocks[k].0, ScalarBlock(blocks[k].1, BiasFor(blocks[k].0, fac)))))
  }

  /**
   * With a positive moment the 'up' blocks start lower: on the DC path, an
   * 'up' and a 'down' block with the same DC differ by `2 magmom` in every
   * element; without DC, on the diagonal.
   */
  lemma BiasSplitsSpins(mode: SigmaMode, icrsh: nat, blocks: seq<(string, nat)>, dcPot: string -> Matrix,
                        magmom: seq<real>, up: nat, down: nat)
    requires mode == DcAsSigma || mode == MagneticBias
    requires icrsh < |magmom| && up < |blocks| && down < |blocks|
    requires Contains(blocks[up].0, "up") && !Contains(blocks[down].0, "up")
    requires blocks[up].1 == blocks[down].1 && dcPot(blocks[up].0) == dcPot(blocks[down].0)
    ensures var r := InitialSigmaShell(mode, icrsh, blocks, dcPot, true, Some(magmom), 0);
            var n := blocks[up].1;
            && r.Success?
            && (mode == DcAsSigma ==>
                  forall a, b | 0 <= a < |dcPot(blocks[up].0)| && 0 <= b < |dcPot(blocks[up].0)[a]| ::
                    r.value[down].m[a][b] - r.value[up].m[a][b] == 2.0 * magmom[icrsh])
            && (mode == MagneticBias ==>
                  forall a | 0 <= a < n :: r.value[down].m[a][a] - r.value[up].m[a][a] == 2.0 * magmom[icrsh])
  {
  }

  /** Without a usable `magmom` the DC path starts from the DC itself and the no-DC path from zero. */
  lemma NoBiasWithoutMagmom(mode: SigmaMode, icrsh: nat, blocks: seq<(string, nat)>, dcPot: string -> Matrix,
                            magnetic: bool, magmom: Option<seq<real>>, so: int)
    requires mode == DcAsSigma || mode == MagneticBias
    requires !BiasApplies(magnetic, magmom, so)
    ensures var r := InitialSigmaShell(mode, icrsh, blocks, dcPot, magnetic, magmom, so);
            && r.Success?
            && forall k | 0 <= k < |blocks| ::
                 r.value[k].m == if mode == DcAsSigma then dcPot(blocks[k].0) else ScalarBlock(blocks[k].1, 0.0)
  {
  }

  // ---------------------------------------------------------------------
  // Noise

  /** `np.isclose(x, 0)`: within the default absolute tolerance 1e-8 (the relative one vanishes against 0). */
  predicate IsCloseToZero(x: real) {
    -0.00000001 <= x <= 0.00000001
  }

  /** Noise is added in the zeroth iteration only, whatever the way the self-energy was set, unless its level is about zero. */
  predicate NoiseApplies(level: real, offset: int) {
    !IsCloseToZero(level) && offset == 0
  }

  /** `.5 * (noise + noise.T)`. */
  function Symmetrized(noise: Matrix): (r: Matrix)
    requires IsSquare(noise, |noise|)
    ensures IsSquare(r, |noise|)
    ensures forall a, b | 0 <= a < |noise| && 0 <= b < |noise| :: r[a][b] == 0.5 * (noise[a][b] + noise[b][a])
  {
    var n := |noise|;
    seq(n, a requires 0 <= a < n => seq(n, b requires 0 <= b < n => 0.5 * (noise[a][b] + noise[b][a])))
  }

  predicate Symmetric(m: Matrix)
    requires IsSquare(m, |m|)
  {
    forall a, b | 0 <= a < |m| && 0 <= b < |m| :: m[a][b] == m[b][a]
  }

  /** The added noise is symmetric, and a symmetric draw is added as it is. */
  lemma SymmetrizedIsSymmetric(noise: Matrix)
    requires IsSquare(noise, |noise|)
    ensures Symmetric(Symmetrized(noise))
    ensures Symmetric(noise) ==> Symmetrized(noise) == noise
  {
    var r := Symmetrized(noise);
    forall a, b | 0 <= a < |noise| && 0 <= b < |noise| ensures r[a][b] == r[b][a] {
      assert noise[a][b] + noise[b][a] == noise[b][a] + noise[a][b];
    }
    if Symmetric(noise) {
      forall a | 0 <= a < |noise| ensures r[a] == noise[a] {
        forall b | 0 <= b < |noise| ensures r[a][b] == noise[a][b] {
          assert noise[b][a] == noise[a][b];
        }
      }
    }
  }

  function Conj(z: Complex): Complex {
    Complex(z.re, -z.im)
  }

  /**
   * `block += Gf(data=noise)` with the symmetrized noise broadcast over the
   * frequencies (initial_self_energies.py:563-571): `data[w, a, b]` is the
   * element `(a, b)` at frequency index `w`. The real part of every element
   * gains the symmetrized noise; a block that was Hermitian at every
   * frequency stays Hermitian.
   */
  method AddNoise(data: array3<Complex>, noise: Matrix)
    requires data.Length1 == |noise| && data.Length2 == |noise| && IsSquare(noise, |noise|)
    modifies data
    ensures forall w, a, b | 0 <= w < data.Length0 && 0 <= a < |noise| && 0 <= b < |noise| ::
              data[w, a, b] == Complex(old(data[w, a, b]).re + Symmetrized(noise)[a][b], old(data[w, a, b]).im)
    ensures (forall w, a, b | 0 <= w < data.Length0 && 0 <= a < |noise| && 0 <= b < |noise| ::
               old(data[w, a, b]) == Conj(old(data[w, b, a]))) ==>
            forall w, a, b | 0 <= w < data.Length0 && 0 <= a < |noise| && 0 <= b < |noise| ::
              data[w, a, b] == Conj(data[w, b, a])
  {
    var sym := Symmetrized(noise);
    SymmetrizedIsSymmetric(noise);
    var n := |noise|;
    for w := 0 to data.Length0
      invariant forall w', a, b | 0 <= w' < data.Length0 && 0 <= a < n && 0 <= b < n ::
                  data[w', a, b] == if w' < w then Complex(old(data[w', a, b]).re + sym[a][b], old(data[w', a, b]).im)
                                    else old(data[w', a, b])
    {
      for a := 0 to n
        invariant forall w', a', b | 0 <= w' < data.Length0 && 0 <= a' < n && 0 <= b < n ::
                    data[w', a', b] == if w' < w || (w' == w && a' < a)
                                       then Complex(old(data[w', a', b]).re + sym[a'][b], old(data[w', a', b]).im)
                                       else old(data[w', a', b])
      {
        for b := 0 to n
          invariant forall w', a', b' | 0 <= w' < data.Length0 && 0 <= a' < n && 0 <= b' < n ::
                      data[w', a', b'] == if w' < w || (w' == w && a' < a) || (w' == w && a' == a && b' < b)
                                          then Complex(old(data[w', a', b']).re + sym[a'][b'], old(data[w', a', b']).im)
                                          else old(data[w', a', b'])
        {
          data[w, a, b] := Complex(data[w, a, b].re + sym[a][b], data[w, a, b].im);
        }
      }
    }
  }

  /** `np.random.normal` raises ValueError for a negative `scale`. */
  predicate NormalRejectsScale(level: real) {
    level < 0.0
  }

  /**
   * The noise step of the initial self-energy (initial_self_energies.py:562-571),
   * over the blocks of every impurity in turn. When the level is not about
   * zero and the run starts from iteration 0, block `k` gains the symmetrized
   * draw `draws[k]` at every frequency; a negative level passes that gate, and
   * the first draw then raises ValueError before any block changes. Otherwise
   * no block changes. The draws stand for `np.random.normal`, which the model
   * takes as given.
   */
  method AddInitialNoise(blocks: seq<array3<Complex>>, draws: seq<Matrix>, level: real, offset: int)
    returns (raised: Option<Error>)
    requires |draws| == |blocks|
    requires forall i, j | 0 <= i < j < |blocks| :: blocks[i] != blocks[j]
    requires forall k | 0 <= k < |blocks| ::
               && IsSquare(draws[k], |draws[k]|)
               && blocks[k].Length1 == |draws[k]| && blocks[k].Length2 == |draws[k]|
    modifies set k | 0 <= k < |blocks| :: blocks[k]
    ensures raised.Some? <==> NoiseApplies(level, offset) && NormalRejectsScale(level) && |blocks| > 0
    ensures raised.Some? ==> raised.value == ValueError
    ensures NoiseApplies(level, offset) && raised.None? ==>
              forall k, w, a, b | 0 <= k < |blocks| && 0 <= w < blocks[k].Length0 && 0 <= a < |draws[k]| && 0 <= b < |draws[k]| ::
                blocks[k][w, a, b] == Complex(old(blocks[k][w, a, b]).re + Symmetrized(draws[k])[a][b], old(blocks[k][w, a, b]).im)
    ensures !NoiseApplies(level, offset) || raised.Some? ==>
              forall k, w, a, b | 0 <= k < |blocks| && 0 <= w < blocks[k].Length0 && 0 <= a < |draws[k]| && 0 <= b < |draws[k]| ::
                blocks[k][w, a, b] == old(blocks[k][w, a, b])
  {
    if !NoiseApplies(level, offset) {
      return None;
    }
    if NormalRejectsScale(level) && |blocks| > 0 {
      return Some(ValueError);
    }
    for k := 0 to |blocks|
      invariant forall k', w, a, b | 0 <= k' < |blocks| && 0 <= w < blocks[k'].Length0 && 0 <= a < |draws[k']| && 0 <= b < |draws[k']| ::
                  blocks[k'][w, a, b] == if k' < k then Complex(old(blocks[k'][w, a, b]).re + Symmetrized(draws[k'])[a][b], old(blocks[k'][w, a, b]).im)
                                         else old(blocks[k'][w, a, b])
    {
      AddNoise(blocks[k], draws[k]);
    }
    raised := None;
  }

  // ---------------------------------------------------------------------
  // Archive path

  function DigitChar(d: nat): char
    requires d < 10
  {
    (48 + d) as char
  }

  /** `str(n)` for a natural number. */
  function NatToString(n: nat): (s: string)
    ensures |s| >= 1 && (n >= 10 <==> |s| >= 2)
    decreases n
  {
    if n < 10 then [DigitChar(n)] else NatToString(n / 10) + [DigitChar(n % 10)]
  }

  /** `str(i)` for an integer. */
  function IntToString(i: int): string {
    if i < 0 then "-" + NatToString(-i) else NatToString(i)
  }

  lemma {:induction false} NatToStringInjective(a: nat, b: nat)
    requires NatToString(a) == NatToString(b)
    ensures a == b
    decreases a
  {
    if a >= 10 {
      var s := NatToString(a);
      assert s[..|s| - 1] == NatToString(a / 10);
      assert s[..|s| - 1] == NatToString(b / 10);
      NatToStringInjective(a / 10, b / 10);
      assert DigitChar(a % 10) == s[|s| - 1] == DigitChar(b % 10);
    }
  }

  /** No two integers print alike. */
  lemma IntToStringInjective(a: int, b: int)
    requires IntToString(a) == IntToString(b)
    ensures a == b
  {
    if a < 0 && b < 0 {
      assert NatToString(-a) == IntToString(a)[1..];
      assert NatToString(-b) == IntToString(b)[1..];
      NatToStringInjective(-a, -b);
    } else if a >= 0 && b >= 0 {
      NatToStringInjective(a, b);
    } else {
      // one string starts with '-', the other with a digit
      var n: nat := if a < 0 then b else a;
      NatToStringFirst(n);
    }
  }

  lemma {:induction false} NatToStringFirst(n: nat)
    ensures '0' <= NatToString(n)[0] <= '9'
    decreases n
  {
    if n >= 10 {
      NatToStringFirst(n / 10);
    }
  }

  /** The name of the iteration group: `last_iter` for -1, else `it_<iteration>`. */
  function IterationGroup(iteration: int): string {
    if iteration == -1 then "last_iter" else "it_" + IntToString(iteration)
  }

  /** The group the self-energy is read from: the last iteration for -1, else iteration `iteration` (initial_self_energies.py:297-298). */
  function LoadPath(iteration: int): (p: string)
    ensures |p| > 13 && p[..13] == "DMFT_results/"
    ensures iteration == -1 ==> p == "DMFT_results/last_iter"
  {
    "DMFT_results/" + IterationGroup(iteration)
  }

  /** `last_iter` starts with 'l', every numbered group with 'i'. */
  lemma IterationGroupStart(i: int)
    ensures |IterationGroup(i)| > 0 && IterationGroup(i)[0] == if i == -1 then 'l' else 'i'
  {
  }

  lemma IterationGroupInjective(a: int, b: int)
    requires IterationGroup(a) == IterationGroup(b)
    ensures a == b
  {
    var ga, gb := IterationGroup(a), IterationGroup(b);
    IterationGroupStart(a);
    IterationGroupStart(b);
    if a != -1 && b != -1 {
      assert ga[3..] == IntToString(a);
      assert gb[3..] == IntToString(b);
      IntToStringInjective(a, b);
    }
  }

  /** Different iterations are read from different groups, and -1 never reads a numbered one. */
  lemma LoadPathInjective(a: int, b: int)
    requires LoadPath(a) == LoadPath(b)
    ensures a == b
  {
    assert LoadPath(a)[13..] == IterationGroup(a);
    assert LoadPath(b)[13..] == IterationGroup(b);
    IterationGroupInjective(a, b);
  }
}
