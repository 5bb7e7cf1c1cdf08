/**
 * The discrete decisions `dmft_cycle` takes about the block structure: the
 * degeneracy groups kept for magnetic and spin-orbit runs, where the block
 * structure comes from, and how a changed rotation matrix is reported.
 * A degeneracy group is a list of block labels; `deg_shells` holds one list
 * of groups per inequivalent shell.
 */
module BlockStructure {
  import opened Common

  type DegGroup = seq<string>
  type DegShells = seq<seq<DegGroup>>

  /** Without spin-orbit coupling every shell starts with its two spin blocks degenerate (dmft_cycle.py:123-124). */
  function InitialDegShells(so: int, current: DegShells, nInequiv: nat): (r: DegShells)
    ensures so == 0 ==> |r| == nInequiv && forall i | 0 <= i < nInequiv :: r[i] == [["up_0", "down_0"]]
    ensures so != 0 ==> r == current
  {
    if so == 0 then seq(nInequiv, _ => [["up_0", "down_0"]]) else current
  }

  /** `[orb for orb in deg_orbs if spin in orb]`. */
  function LabelsWith(group: DegGroup, spin: string): (r: DegGroup)
    ensures |r| <= |group|
    ensures forall l | l in r :: Contains(l, spin) && l in group
    ensures forall l | l in group && Contains(l, spin) :: l in r
  {
    if group == [] then []
    else (if Contains(group[0], spin) then [group[0]] else []) + LabelsWith(group[1..], spin)
  }

  lemma {:induction false} LabelsWithIsSubsequence(group: DegGroup, spin: string)
    ensures IsSubsequence(LabelsWith(group, spin), group)
  {
    if group != [] {
      LabelsWithIsSubsequence(group[1..], spin);
      var kept := LabelsWith(group, spin);
      if !Contains(group[0], spin) && kept != [] {
        // the first kept label contains `spin`, so it is not `group[0]`
        assert kept == LabelsWith(group[1..], spin);
        assert kept[0] in kept;
        assert kept[0] != group[0];
      }
    }
  }

  /** A label with no occurrence of the first character of `sub` does not contain `sub`. */
  lemma {:induction false} NotContainsWithoutFirstChar(s: string, sub: string)
    requires sub != [] && sub[0] !in s
    ensures !Contains(s, sub)
    decreases |s|
  {
    if s != [] {
      assert s[0] in s;
      NotContainsWithoutFirstChar(s[1..], sub);
    }
  }

  /** The groups of one shell that survive in a magnetic run: per group, its 'up' labels then its 'down' labels, when there are at least two. */
  function MagneticGroups(site: seq<DegGroup>): seq<DegGroup> {
    if site == [] then []
    else
      var up := LabelsWith(site[0], "up");
      var down := LabelsWith(site[0], "down");
      (if |up| > 1 then [up] else []) + (if |down| > 1 then [down] else []) + MagneticGroups(site[1..])
  }

  /**
   * The degeneracies after `_determine_block_structure` (dmft_cycle.py:155-171):
   * a magnetic run without spin-orbit coupling splits every group by spin and
   * drops the singletons; a spin-orbit run clears every shell's groups;
   * otherwise the groups are kept.
   */
  function AdjustDegShells(degShells: DegShells, magnetic: bool, so: int, nInequiv: nat): (r: DegShells)
    ensures magnetic && so == 0 ==> |r| == |degShells|
    ensures !(magnetic && so == 0) && so == 1 ==> |r| == nInequiv && forall i | 0 <= i < nInequiv :: r[i] == []
    ensures !(magnetic && so == 0) && so != 1 ==> r == degShells
  {
    if magnetic && so == 0 then seq(|degShells|, i requires 0 <= i < |degShells| => MagneticGroups(degShells[i]))
    else if so == 1 then seq(nInequiv, _ => [])
    else degShells
  }

  /** Every group kept in a magnetic run has at least two labels, of one spin, and is a subsequence of an original group. */
  ghost predicate MagneticGroupOf(g: DegGroup, site: seq<DegGroup>) {
    && |g| >= 2
    && ((forall l | l in g :: Contains(l, "up")) || (forall l | l in g :: Contains(l, "down")))
    && exists orig | orig in site :: IsSubsequence(g, orig)
  }

  lemma {:induction false} MagneticGroupsWellFormed(site: seq<DegGroup>)
    ensures forall g | g in MagneticGroups(site) :: MagneticGroupOf(g, site)
  {
    if site != [] {
      MagneticGroupsWellFormed(site[1..]);
      LabelsWithIsSubsequence(site[0], "up");
      LabelsWithIsSubsequence(site[0], "down");
      forall g | g in MagneticGroups(site) ensures MagneticGroupOf(g, site) {
        if g in MagneticGroups(site[1..]) {
          assert MagneticGroupOf(g, site[1..]);
          var orig :| orig in site[1..] && IsSubsequence(g, orig);
          assert orig in site;
        } else {
          assert site[0] in site;
        }
      }
    }
  }

  /** Nothing is lost either: each spin's share of an original group that has at least two labels is kept. */
  lemma {:induction false} MagneticGroupsComplete(site: seq<DegGroup>, k: nat, spin: string)
    requires k < |site| && (spin == "up" || spin == "down")
    requires |LabelsWith(site[k], spin)| > 1
    ensures LabelsWith(site[k], spin) in MagneticGroups(site)
  {
    if k > 0 {
      MagneticGroupsComplete(site[1..], k - 1, spin);
    }
  }

  /** The degeneracy property of the whole adjusted structure (magnetic without spin-orbit, and spin-orbit). */
  lemma MagneticRunDegeneracies(degShells: DegShells, magnetic: bool, so: int, nInequiv: nat)
    ensures magnetic && so == 0 ==>
              forall i, g | 0 <= i < |degShells| && g in AdjustDegShells(degShells, magnetic, so, nInequiv)[i] ::
                MagneticGroupOf(g, degShells[i])
    ensures so == 1 ==>
              forall i | 0 <= i < |AdjustDegShells(degShells, magnetic, so, nInequiv)| ::
                AdjustDegShells(degShells, magnetic, so, nInequiv)[i] == []
  {
    forall i | 0 <= i < |degShells| {
      MagneticGroupsWellFormed(degShells[i]);
    }
  }

  /** Of the default pair, only "up_0" is an 'up' label. */
  lemma DefaultPairUp()
    ensures LabelsWith(["up_0", "down_0"], "up") == ["up_0"]
  {
    assert Contains("up_0", "up");
    NotContainsWithoutFirstChar("down_0", "up");
    assert ["up_0", "down_0"][1..] == ["down_0"];
    assert LabelsWith(["down_0"], "up") == [];
  }

  /** Of the default pair, only "down_0" is a 'down' label. */
  lemma DefaultPairDown()
    ensures LabelsWith(["up_0", "down_0"], "down") == ["down_0"]
  {
    assert Contains("down_0", "down");
    NotContainsWithoutFirstChar("up_0", "down");
    assert ["up_0", "down_0"][1..] == ["down_0"];
    assert LabelsWith(["down_0"], "down") == ["down_0"];
  }

  /** The default pair of one shell splits into two singletons, so none of its groups survives. */
  lemma DefaultPairSplits()
    ensures MagneticGroups([["up_0", "down_0"]]) == []
  {
    DefaultPairUp();
    DefaultPairDown();
  }

  /**
   * In a magnetic run the default up/down pairs are all split into singletons
   * and dropped. This covers groups that reach `AdjustDegShells` as
   * `InitialDegShells` left them; `analyse_block_structure` runs in between
   * (dmft_cycle.py:137) and may change them.
   */
  lemma DefaultPairsDroppedWhenMagnetic(nInequiv: nat)
    ensures AdjustDegShells(InitialDegShells(0, [], nInequiv), true, 0, nInequiv) == seq(nInequiv, _ => [])
  {
    DefaultPairSplits();
  }

  /** On the load-sigma path a magnetic run without spin-orbit coupling drops every group (dmft_cycle.py:446-448). */
  function LoadedDegShells(loaded: DegShells, magnetic: bool, so: int, nInequiv: nat): (r: DegShells)
    ensures magnetic && so == 0 ==> |r| == nInequiv && forall i | 0 <= i < nInequiv :: r[i] == []
    ensures !(magnetic && so == 0) ==> r == loaded
  {
    if magnetic && so == 0 then seq(nInequiv, _ => []) else loaded
  }

  /** Where the block structure of the run comes from (dmft_cycle.py:413-466). */
  datatype BlockSource = Determine | LoadFromSigmaArchive | LoadFromOwnArchive

  function ChooseBlockSource(blockStructureInArchive: bool, loadSigma: bool): (src: BlockSource)
    ensures loadSigma ==> src == LoadFromSigmaArchive
    ensures !loadSigma ==> (src == Determine <==> !blockStructureInArchive)
  {
    var detBlocks := !blockStructureInArchive;
    if detBlocks && !loadSigma then Determine
    else if loadSigma then LoadFromSigmaArchive
    else LoadFromOwnArchive
  }

  /**
   * `all(np.allclose(x, y) for x, y in zip(current, previous))` from pair `k`
   * on. `zip` stops at the shorter list, so only the common prefix is
   * compared. The generator is consumed in order and `all` stops at the first
   * pair that is not close, so a pair whose comparison raises (shapes that do
   * not broadcast give ValueError) propagates only when every earlier pair
   * was close.
   */
  function RotMatsAgree<M>(current: seq<M>, previous: seq<M>, close: (M, M) -> Result<bool>, k: nat): (r: Result<bool>)
    requires k <= Min(|current|, |previous|)
    ensures r.Success? ==>
              (r.value <==> forall j | k <= j < Min(|current|, |previous|) :: close(current[j], previous[j]) == Success(true))
    ensures r.Failure? ==>
              exists j | k <= j < Min(|current|, |previous|) ::
                && close(current[j], previous[j]) == Failure(r.error)
                && forall i | k <= i < j :: close(current[i], previous[i]) == Success(true)
    ensures (exists j | k <= j < Min(|current|, |previous|) ::
               && close(current[j], previous[j]).Failure?
               && forall i | k <= i < j :: close(current[i], previous[i]) == Success(true)) ==> r.Failure?
    decreases Min(|current|, |previous|) - k
  {
    if k == Min(|current|, |previous|) then Success(true)
    else
      var here := close(current[k], previous[k]);
      if here.Failure? then Failure(here.error)
      else if !here.value then Success(false)
      else RotMatsAgree(current, previous, close, k + 1)
  }

  /** The outcome of comparing rotation matrices: a warning, the `previous_rot_mat` kept, and the matrices in the archive afterwards. */
  datatype RotMatCheck<M> = RotMatCheck(warns: bool, previousRotMat: Option<seq<M>>, archived: seq<M>)

  /**
   * The rotation check on the load-sigma path (dmft_cycle.py:436-439) and on
   * a resumed run (455-459). `close` is `np.allclose` of two matrices, or the
   * exception it raises. A mismatch is only a warning: the run goes on. A
   * resumed run overwrites the archived matrices with the current ones.
   */
  function CheckRotMat<M>(current: seq<M>, previous: seq<M>, archived: seq<M>, resumed: bool, close: (M, M) -> Result<bool>)
    : (r: Result<RotMatCheck<M>>)
    ensures r.Failure? ==>
              exists k | 0 <= k < Min(|current|, |previous|) ::
                && close(current[k], previous[k]) == Failure(r.error)
                && forall j | 0 <= j < k :: close(current[j], previous[j]) == Success(true)
    ensures (exists k | 0 <= k < Min(|current|, |previous|) ::
               && close(current[k], previous[k]).Failure?
               && forall j | 0 <= j < k :: close(current[j], previous[j]) == Success(true)) ==> r.Failure?
    ensures r.Success? ==>
              && (r.value.warns <==> exists k | 0 <= k < Min(|current|, |previous|) :: close(current[k], previous[k]) != Success(true))
              && r.value.previousRotMat == (if r.value.warns then Some(previous) else None)
              && r.value.archived == if resumed && r.value.warns then current else archived
  {
    var agree :- RotMatsAgree(current, previous, close, 0);
    if !agree then
      Success(RotMatCheck(true, Some(previous), if resumed then current else archived))
    else
      Success(RotMatCheck(false, None, archived))
  }

  /** A loaded list of rotation matrices with a different length but a matching prefix raises no warning. */
  lemma RotMatCountNotChecked<M>(current: seq<M>, extra: M, close: (M, M) -> Result<bool>)
    requires forall k | 0 <= k < |current| :: close(current[k], current[k]) == Success(true)
    ensures var r := CheckRotMat(current, current + [extra], current, true, close);
            r.Success? && !r.value.warns
  {
  }

  /**
   * Matrices of other shapes, as from a calculation with other shell
   * dimensions, end the check with the exception of their comparison when
   * every earlier pair agrees; no warning is given.
   */
  lemma {:induction false} MismatchedShapesRaise<M>(current: seq<M>, previous: seq<M>, close: (M, M) -> Result<bool>, k: nat)
    requires k < Min(|current|, |previous|)
    requires forall j | 0 <= j < k :: close(current[j], previous[j]) == Success(true)
    requires close(current[k], previous[k]) == Failure(ValueError)
    ensures forall archived: seq<M>, resumed: bool :: CheckRotMat(current, previous, archived, resumed, close) == Failure(ValueError)
  {
    forall archived: seq<M>, resumed: bool ensures CheckRotMat(current, previous, archived, resumed, close) == Failure(ValueError) {
      var r := CheckRotMat(current, previous, archived, resumed, close);
      assert r.Failure?;
      var k' :| 0 <= k' < Min(|current|, |previous|) && close(current[k'], previous[k']) == Failure(r.error)
                && forall j | 0 <= j < k' :: close(current[j], previous[j]) == Success(true);
      assert k' == k;
    }
  }
}
