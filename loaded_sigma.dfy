/**
 * The comparison `_set_loaded_sigma` makes between the DC potentials loaded
 * with a self-energy from another calculation and the ones just calculated
 * (initial_self_energies.py:390-405), and the DC difference it then applies
 * to the loaded self-energy (412-414).
 */
module LoadedSigma {
  import opened Common
  import opened DoubleCounting
  import opened NumpyArrays

  /** The absolute tolerance of `np.allclose(..., atol=1e-4, rtol=0)`. */
  const DC_ATOL: real := 0.0001

  function AbsReal(x: real): real {
    if x < 0.0 then -x else x
  }

  /** The block names of a potential, in dictionary order. */
  function NameSeq(pot: BlockMatrices): (r: seq<string>)
    ensures |r| == |pot| && forall k | 0 <= k < |pot| :: r[k] == pot[k].name
  {
    seq(|pot|, k requires 0 <= k < |pot| => pot[k].name)
  }

  /** `sorted(a.keys()) == sorted(b.keys())`: the same names, counted with multiplicity. */
  predicate SameKeys(a: BlockMatrices, b: BlockMatrices) {
    multiset(NameSeq(a)) == multiset(NameSeq(b))
  }

  /** `shell[name]`: the matrix of the first block with that name. */
  function Lookup(pot: BlockMatrices, name: string): (r: Option<Matrix>)
    ensures r.Some? <==> name in NameSeq(pot)
    ensures r.Some? ==> exists k | 0 <= k < |pot| :: pot[k].name == name && pot[k].m == r.value
  {
    if pot == [] then None
    else if pot[0].name == name then Some(pot[0].m)
    else
      assert NameSeq(pot) == [pot[0].name] + NameSeq(pot[1..]);
      Lookup(pot[1..], name)
  }

  predicate UniqueNames(pot: BlockMatrices) {
    forall k, k' | 0 <= k < k' < |pot| :: pot[k].name != pot[k'].name
  }

  lemma {:induction false} LookupFindsBlock(pot: BlockMatrices, k: nat)
    requires UniqueNames(pot) && k < |pot|
    ensures Lookup(pot, pot[k].name) == Some(pot[k].m)
    decreases k
  {
    if k > 0 {
      assert pot[0].name != pot[k].name;
      LookupFindsBlock(pot[1..], k - 1);
    }
  }

  /** `np.isclose(x, y, atol=1e-4, rtol=0)`. */
  predicate Close(x: real, y: real) {
    AbsReal(x - y) <= DC_ATOL
  }

  /**
   * `np.allclose(a, b, atol=1e-4, rtol=0)` on arrays whose shapes broadcast:
   * every element of the broadcast difference is within the tolerance.
   */
  predicate AllClose(a: Matrix, b: Matrix)
    requires Broadcastable(a, b)
  {
    var d := Subtract(a, b);
    forall i, j | 0 <= i < |d| && 0 <= j < |d[i]| :: AbsReal(d[i][j]) <= DC_ATOL
  }

  /** On arrays of one shape, `np.allclose` compares entry by entry. */
  lemma AllCloseSameShape(a: Matrix, b: Matrix)
    requires IsArray(a) && IsArray(b) && Rows(a) == Rows(b) && Cols(a) == Cols(b)
    ensures Broadcastable(a, b)
    ensures AllClose(a, b) <==> forall i, j | 0 <= i < |a| && 0 <= j < |a[i]| :: Close(a[i][j], b[i][j])
  {
    SameShapeIsElementwise(a, b, Minus);
    var d := Subtract(a, b);
    assert forall i, j | 0 <= i < |a| && 0 <= j < |a[i]| :: d[i][j] == a[i][j] - b[i][j];
  }

  /**
   * The channel loop for one shell: the loaded channels in order, each
   * compared with the calculated channel of the same name, stopping at the
   * first that differs. Channels whose shapes do not broadcast raise
   * ValueError.
   */
  function ShellChanged(loaded: BlockMatrices, current: BlockMatrices): (r: Result<bool>)
    requires forall k | 0 <= k < |loaded| :: loaded[k].name in NameSeq(current)
    ensures r.Failure? ==> r.error == ValueError
    decreases |loaded|
  {
    if loaded == [] then Success(false)
    else
      var c := Lookup(current, loaded[0].name).value;
      if !Broadcastable(loaded[0].m, c) then Failure(ValueError)
      else if !AllClose(loaded[0].m, c) then Success(true)
      else ShellChanged(loaded[1..], current)
  }

  /** The result of the shell loop as the flag `changed` and the shells still to compare combine. */
  function OrElse(changed: bool, rest: Result<bool>): Result<bool> {
    if rest.Failure? then rest else Success(changed || rest.value)
  }

  /** The shell loop: the block names of every shell must agree, and any changed channel sets the flag. */
  function ShellsChanged(loaded: seq<BlockMatrices>, current: seq<BlockMatrices>): (r: Result<bool>)
    requires |loaded| == |current|
    ensures r.Failure? ==> r.error == ValueError
    decreases |loaded|
  {
    if loaded == [] then Success(false)
    else if !SameKeys(loaded[0], current[0]) then Failure(ValueError)
    else
      assert forall k | 0 <= k < |loaded[0]| :: loaded[0][k].name in NameSeq(current[0]) by {
        forall k | 0 <= k < |loaded[0]| ensures loaded[0][k].name in NameSeq(current[0]) {
          assert NameSeq(loaded[0])[k] == loaded[0][k].name;
          assert loaded[0][k].name in multiset(NameSeq(loaded[0]));
        }
      }
      var here :- ShellChanged(loaded[0], current[0]);
      OrElse(here, ShellsChanged(loaded[1..], current[1..]))
  }

  /** `has_double_counting_changed`, or the ValueError raised while computing it. */
  function DcComparison(loaded: seq<BlockMatrices>, current: seq<BlockMatrices>): (r: Result<bool>)
    ensures |loaded| != |current| ==> r == Failure(ValueError)
    ensures r.Failure? ==> r.error == ValueError
    ensures r.Success? ==> |loaded| == |current| && forall s | 0 <= s < |loaded| :: SameKeys(loaded[s], current[s])
  {
    if |loaded| != |current| then Failure(ValueError)
    else
      var r := ShellsChanged(loaded, current);
      if r.Success? then ShellsChangedMeaning(loaded, current); r else r
  }

  /** The comparison loops of initial_self_energies.py:390-405, with the `break` leaving only the channel loop. */
  method CompareLoadedDc(loaded: seq<BlockMatrices>, current: seq<BlockMatrices>) returns (r: Result<bool>)
    ensures r == DcComparison(loaded, current)
  {
    if |loaded| != |current| {
      return Failure(ValueError);
    }
    var changed := false;
    for s := 0 to |loaded|
      invariant ShellsChanged(loaded, current) == OrElse(changed, ShellsChanged(loaded[s..], current[s..]))
    {
      assert loaded[s..][1..] == loaded[s + 1..] && current[s..][1..] == current[s + 1..];
      if !SameKeys(loaded[s], current[s]) {
        return Failure(ValueError);
      }
      var shellChanged := CompareShell(loaded[s], current[s]);
      if shellChanged.Failure? {
        return Failure(ValueError);
      }
      changed := changed || shellChanged.value;
    }
    r := Success(changed);
  }

  /** The channel loop for one shell. */
  method CompareShell(loaded: BlockMatrices, current: BlockMatrices) returns (r: Result<bool>)
    requires SameKeys(loaded, current)
    ensures forall k | 0 <= k < |loaded| :: loaded[k].name in NameSeq(current)
    ensures r == ShellChanged(loaded, current)
  {
    forall k | 0 <= k < |loaded| ensures loaded[k].name in NameSeq(current) {
      assert NameSeq(loaded)[k] == loaded[k].name;
      assert loaded[k].name in multiset(NameSeq(loaded));
    }
    var changed := false;
    var k := 0;
    while k < |loaded|
      invariant 0 <= k <= |loaded|
      invariant ShellChanged(loaded, current) == if changed then Success(true) else ShellChanged(loaded[k..], current)
      decreases |loaded| - k
    {
      assert loaded[k..][1..] == loaded[k + 1..];
      var c := Lookup(current, loaded[k].name).value;
      if !Broadcastable(loaded[k].m, c) {
        return Failure(ValueError);
      }
      if !AllClose(loaded[k].m, c) {
        changed := true;
        break;
      }
      k := k + 1;
    }
    r := Success(changed);
  }

  /** Every channel of a shell has a calculated counterpart it broadcasts with and is within the tolerance of. */
  ghost predicate ShellClose(loaded: BlockMatrices, current: BlockMatrices) {
    forall k | 0 <= k < |loaded| ::
      var c := Lookup(current, loaded[k].name);
      c.Some? && Broadcastable(loaded[k].m, c.value) && AllClose(loaded[k].m, c.value)
  }

  /** When the channel loop answers, "unchanged" means every channel is close. */
  lemma {:induction false} ShellChangedMeaning(loaded: BlockMatrices, current: BlockMatrices)
    requires forall k | 0 <= k < |loaded| :: loaded[k].name in NameSeq(current)
    ensures ShellChanged(loaded, current) == Success(false) <==> ShellClose(loaded, current)
    ensures ShellChanged(loaded, current) == Success(true) ==> !ShellClose(loaded, current)
    decreases |loaded|
  {
    if loaded != [] {
      ShellChangedMeaning(loaded[1..], current);
      assert forall k | 1 <= k < |loaded| :: loaded[1..][k - 1] == loaded[k];
    }
  }

  /** The shell loop's verdict, shell by shell. */
  lemma {:induction false} ShellsChangedMeaning(loaded: seq<BlockMatrices>, current: seq<BlockMatrices>)
    requires |loaded| == |current| && ShellsChanged(loaded, current).Success?
    ensures forall s | 0 <= s < |loaded| :: SameKeys(loaded[s], current[s])
    ensures ShellsChanged(loaded, current) == Success(false) <==>
              forall s | 0 <= s < |loaded| :: ShellClose(loaded[s], current[s])
    decreases |loaded|
  {
    if loaded != [] {
      ShellsChangedMeaning(loaded[1..], current[1..]);
      KeysCover(loaded[0], current[0]);
      ShellChangedMeaning(loaded[0], current[0]);
      HeadAndTail(loaded, current);
    }
  }

  /** A property of every shell is one of the first shell and one of every later shell. */
  lemma HeadAndTail(loaded: seq<BlockMatrices>, current: seq<BlockMatrices>)
    requires |loaded| == |current| && loaded != []
    ensures (forall s | 0 <= s < |loaded| :: SameKeys(loaded[s], current[s])) <==>
              SameKeys(loaded[0], current[0]) && forall s | 0 <= s < |loaded| - 1 :: SameKeys(loaded[1..][s], current[1..][s])
    ensures (forall s | 0 <= s < |loaded| :: ShellClose(loaded[s], current[s])) <==>
              ShellClose(loaded[0], current[0]) && forall s | 0 <= s < |loaded| - 1 :: ShellClose(loaded[1..][s], current[1..][s])
  {
    assert forall s | 1 <= s < |loaded| :: loaded[1..][s - 1] == loaded[s] && current[1..][s - 1] == current[s];
  }

  /**
   * When the comparison succeeds, the shells agree in number and block names,
   * and the DC counts as unchanged exactly when every channel of every shell
   * is within 1e-4 of the calculated one.
   */
  lemma ComparisonMeaning(loaded: seq<BlockMatrices>, current: seq<BlockMatrices>)
    requires DcComparison(loaded, current).Success?
    ensures |loaded| == |current|
    ensures forall s | 0 <= s < |loaded| :: SameKeys(loaded[s], current[s])
    ensures DcComparison(loaded, current) == Success(false) <==>
              forall s | 0 <= s < |loaded| :: ShellClose(loaded[s], current[s])
  {
    ShellsChangedMeaning(loaded, current);
  }

  lemma KeysCover(loaded: BlockMatrices, current: BlockMatrices)
    requires SameKeys(loaded, current)
    ensures forall k | 0 <= k < |loaded| :: loaded[k].name in NameSeq(current)
  {
    forall k | 0 <= k < |loaded| ensures loaded[k].name in NameSeq(current) {
      assert NameSeq(loaded)[k] == loaded[k].name;
      assert loaded[k].name in multiset(NameSeq(loaded));
    }
  }

  /** Every block of a shell is a numpy array. */
  predicate ArrayBlocks(pot: BlockMatrices) {
    forall k | 0 <= k < |pot| :: IsArray(pot[k].m)
  }

  /**
   * A DC compared with itself is unchanged, provided no shell repeats a block
   * name (as a dictionary cannot) and every block is an array.
   */
  lemma {:induction false} SameDcUnchanged(dc: seq<BlockMatrices>)
    requires forall s | 0 <= s < |dc| :: UniqueNames(dc[s]) && ArrayBlocks(dc[s])
    ensures DcComparison(dc, dc) == Success(false)
    decreases |dc|
  {
    if dc != [] {
      SameDcUnchanged(dc[1..]);
      assert forall s | 0 <= s < |dc[1..]| :: dc[1..][s] == dc[s + 1];
      SameShellUnchanged(dc[0], 0);
      assert dc[0][0..] == dc[0];
    }
  }

  lemma {:induction false} SameShellUnchanged(pot: BlockMatrices, k: nat)
    requires UniqueNames(pot) && ArrayBlocks(pot) && k <= |pot|
    ensures forall k' | k <= k' < |pot| :: pot[k'].name in NameSeq(pot)
    ensures ShellChanged(pot[k..], pot) == Success(false)
    decreases |pot| - k
  {
    forall k' | k <= k' < |pot| ensures pot[k'].name in NameSeq(pot) {
      assert NameSeq(pot)[k'] == pot[k'].name;
    }
    if k < |pot| {
      SameShellUnchanged(pot, k + 1);
      LookupFindsBlock(pot, k);
      assert pot[k..][1..] == pot[k + 1..];
      assert pot[k..][0] == pot[k];
      var m := pot[k].m;
      AllCloseSameShape(m, m);
      forall i, j | 0 <= i < |m| && 0 <= j < |m[i]| ensures Close(m[i][j], m[i][j]) {
      }
    }
  }

  /**
   * One shell of `{channel: np.array(loaded[channel]) - np.array(current[channel]) for channel in loaded}`,
   * with numpy's broadcasting; shapes that do not broadcast raise ValueError.
   */
  function ShellDifference(loaded: BlockMatrices, current: BlockMatrices): (r: Result<BlockMatrices>)
    requires forall k | 0 <= k < |loaded| :: loaded[k].name in NameSeq(current)
    ensures r.Failure? ==> r.error == ValueError
    ensures r.Success? <==> forall k | 0 <= k < |loaded| :: Broadcastable(loaded[k].m, Lookup(current, loaded[k].name).value)
    ensures r.Success? ==>
              |r.value| == |loaded| &&
              forall k | 0 <= k < |loaded| ::
                r.value[k] == Block(loaded[k].name, Subtract(loaded[k].m, Lookup(current, loaded[k].name).value))
    decreases |loaded|
  {
    if loaded == [] then Success([])
    else
      var c := Lookup(current, loaded[0].name).value;
      if !Broadcastable(loaded[0].m, c) then Failure(ValueError)
      else
        var rest :- ShellDifference(loaded[1..], current);
        assert forall k | 1 <= k < |loaded| :: loaded[1..][k - 1] == loaded[k];
        Success([Block(loaded[0].name, Subtract(loaded[0].m, c))] + rest)
  }

  /** The DC the loaded self-energy is corrected by: loaded minus calculated, shell by shell. */
  function DcDifference(loaded: seq<BlockMatrices>, current: seq<BlockMatrices>): (r: Result<seq<BlockMatrices>>)
    requires |loaded| == |current| && forall s | 0 <= s < |loaded| :: SameKeys(loaded[s], current[s])
    ensures r.Failure? ==> r.error == ValueError
    ensures r.Success? ==>
              |r.value| == |loaded| &&
              forall s | 0 <= s < |loaded| :: (KeysCover(loaded[s], current[s]); ShellDifference(loaded[s], current[s])) == Success(r.value[s])
    decreases |loaded|
  {
    if loaded == [] then Success([])
    else
      KeysCover(loaded[0], current[0]);
      var here :- ShellDifference(loaded[0], current[0]);
      var rest :- DcDifference(loaded[1..], current[1..]);
      assert forall s | 1 <= s < |loaded| :: loaded[1..][s - 1] == loaded[s] && current[1..][s - 1] == current[s];
      Success([here] + rest)
  }
}
