/**
 * Two-dimensional numpy arrays of reals as nested sequences, and numpy's
 * broadcasting rule for element-wise operations between two of them. An
 * array is rectangular; a nested list whose rows differ in length is not
 * an array, and numpy (from version 1.24) raises ValueError when asked to
 * make one of it. An array without rows stands for the empty 0 x 0 array.
 */
module NumpyArrays {

  type Matrix = seq<seq<real>>

  function Rows(m: Matrix): nat { |m| }

  function Cols(m: Matrix): nat { if m == [] then 0 else |m[0]| }

  /** Every row has the length of the first. */
  predicate IsArray(m: Matrix) {
    forall a | 0 <= a < |m| :: |m[a]| == Cols(m)
  }

  /** One axis of the rule: the two lengths are equal, or one of them is 1. */
  predicate AxisBroadcasts(x: nat, y: nat) {
    x == y || x == 1 || y == 1
  }

  /** The length of the result along an axis: a length 1 is stretched to the other one. */
  function AxisResult(x: nat, y: nat): nat
    requires AxisBroadcasts(x, y)
  {
    if x == 1 then y else x
  }

  /** The element-wise operations the driver uses. */
  datatype Op = Plus | Minus

  function Apply(op: Op, x: real, y: real): real {
    match op
    case Plus => x + y
    case Minus => x - y
  }

  /** `a op b` raises no ValueError: both are arrays and their shapes broadcast on both axes. */
  predicate Broadcastable(a: Matrix, b: Matrix) {
    && IsArray(a) && IsArray(b)
    && AxisBroadcasts(Rows(a), Rows(b)) && AxisBroadcasts(Cols(a), Cols(b))
  }

  /** Element `(i, j)` of `m` as seen from the broadcast result: an axis of length 1 repeats its single entry. */
  function Stretched(m: Matrix, i: nat, j: nat): real
    requires IsArray(m)
    requires Rows(m) == 1 || i < Rows(m)
    requires Cols(m) == 1 || j < Cols(m)
  {
    m[if Rows(m) == 1 then 0 else i][if Cols(m) == 1 then 0 else j]
  }

  /** The element-wise operation `op` between `a` and `b` after broadcasting. */
  function Broadcast(a: Matrix, b: Matrix, op: Op): (r: Matrix)
    requires Broadcastable(a, b)
    ensures IsArray(r)
    ensures var rows := AxisResult(Rows(a), Rows(b));
            var cols := AxisResult(Cols(a), Cols(b));
            && |r| == rows
            && forall i | 0 <= i < rows :: |r[i]| == cols
    ensures forall i, j | 0 <= i < |r| && 0 <= j < |r[i]| :: r[i][j] == Apply(op, Stretched(a, i, j), Stretched(b, i, j))
  {
    var rows := AxisResult(Rows(a), Rows(b));
    var cols := AxisResult(Cols(a), Cols(b));
    seq(rows, i requires 0 <= i < rows =>
      seq(cols, j requires 0 <= j < cols => Apply(op, Stretched(a, i, j), Stretched(b, i, j))))
  }

  /** `a + b`. */
  function Add(a: Matrix, b: Matrix): Matrix
    requires Broadcastable(a, b)
  {
    Broadcast(a, b, Plus)
  }

  /** `a - b`. */
  function Subtract(a: Matrix, b: Matrix): Matrix
    requires Broadcastable(a, b)
  {
    Broadcast(a, b, Minus)
  }

  /** `np.diag(d)`: the square array with `d` on its diagonal and zeros elsewhere. */
  function Diag(d: seq<real>): (r: Matrix)
    ensures IsArray(r) && Rows(r) == |d| && Cols(r) == |d| && IsSquare(r, |d|)
    ensures forall a, b | 0 <= a < |d| && 0 <= b < |d| :: r[a][b] == if a == b then d[a] else 0.0
  {
    seq(|d|, a requires 0 <= a < |d| => seq(|d|, b requires 0 <= b < |d| => if a == b then d[a] else 0.0))
  }

  predicate IsSquare<T>(m: seq<seq<T>>, n: nat) {
    |m| == n && forall a | 0 <= a < n :: |m[a]| == n
  }

  /** Arrays of one shape combine entry by entry. */
  lemma SameShapeIsElementwise(a: Matrix, b: Matrix, op: Op)
    requires IsArray(a) && IsArray(b) && Rows(a) == Rows(b) && Cols(a) == Cols(b)
    ensures Broadcastable(a, b)
    ensures var r := Broadcast(a, b, op);
            && |r| == |a|
            && forall i | 0 <= i < |a| :: |r[i]| == |a[i]| && forall j | 0 <= j < |a[i]| :: r[i][j] == Apply(op, a[i][j], b[i][j])
  {
    var r := Broadcast(a, b, op);
    forall i, j | 0 <= i < |a| && 0 <= j < |a[i]| ensures r[i][j] == Apply(op, a[i][j], b[i][j]) {
      if Rows(a) == 1 {
        assert i == 0;
      }
      if Cols(a) == 1 {
        assert j == 0;
      }
    }
  }

  /**
   * Two square arrays of sizes `n` and `k` combine exactly when the sizes are
   * equal or one of them is 1; the result is square of the larger size, or
   * empty when a size 1 meets a size 0.
   */
  lemma SquareBroadcast(a: Matrix, b: Matrix, n: nat, k: nat)
    requires IsSquare(a, n) && IsSquare(b, k)
    ensures Broadcastable(a, b) <==> n == k || n == 1 || k == 1
    ensures Broadcastable(a, b) ==>
              forall op: Op :: IsSquare(Broadcast(a, b, op), if n == 1 then k else n)
  {
    assert IsArray(a) && Rows(a) == n && Cols(a) == n by {
      if n > 0 { assert |a[0]| == n; }
    }
    assert IsArray(b) && Rows(b) == k && Cols(b) == k by {
      if k > 0 { assert |b[0]| == k; }
    }
  }

  /** An array plus a 1 x 1 array: every entry gains the single entry. */
  lemma AddSingleEntry(a: Matrix, b: Matrix)
    requires IsArray(a) && IsSquare(b, 1)
    ensures Broadcastable(a, b)
    ensures var r := Add(a, b);
            && |r| == |a|
            && forall i | 0 <= i < |a| :: |r[i]| == |a[i]| && forall j | 0 <= j < |a[i]| :: r[i][j] == a[i][j] + b[0][0]
  {
    var r := Add(a, b);
    forall i, j | 0 <= i < |a| && 0 <= j < |a[i]| ensures r[i][j] == a[i][j] + b[0][0] {
      if Rows(a) == 1 {
        assert i == 0;
      }
      if Cols(a) == 1 {
        assert j == 0;
      }
    }
  }
}
