/**
 * Shared vocabulary of the model: optional values, results carrying the
 * Python exception a step raises, complex numbers, and the few list and
 * string operations the driver relies on (`x in list`, `sub in s`, `count`).
 */
module Common {

  datatype Option<T> = None | Some(value: T)

  /** The exceptions the modelled code raises (directly or through Python and numpy). */
  datatype Error =
    | KeyError
    | IndexError
    | ValueError
    | TypeError
    | NotImplementedError
    | ZeroDivisionError

  /** Either the value a step returns or the exception it raises. */
  datatype Result<T> = Success(value: T) | Failure(error: Error) {
    predicate IsFailure() { Failure? }

    function PropagateFailure<U>(): Result<U>
      requires Failure?
    {
      Failure(error)
    }

    function Extract(): T
      requires Success?
    {
      value
    }
  }

  datatype Complex = Complex(re: real, im: real)

  /** Python's `sub in s` on strings: `sub` occurs as a contiguous substring of `s`. */
  predicate Contains(s: string, sub: string)
    decreases |s|
  {
    sub <= s || (s != [] && Contains(s[1..], sub))
  }

  /** Python's `s.count(x)` on a list. */
  function Count(s: seq<int>, x: int): nat {
    if s == [] then 0 else (if s[0] == x then 1 else 0) + Count(s[1..], x)
  }

  function Sum(s: seq<nat>): nat {
    if s == [] then 0 else s[0] + Sum(s[1..])
  }

  /** Python's `list(range(n))`. */
  function Range(n: nat): (r: seq<int>)
    ensures |r| == n && forall i | 0 <= i < n :: r[i] == i
  {
    seq(n, i => i)
  }

  function Min(a: int, b: int): int { if a <= b then a else b }

  /** `sub` can be obtained from `s` by deleting elements (order is kept). */
  predicate IsSubsequence<T(==)>(sub: seq<T>, s: seq<T>)
    decreases |s|
  {
    if sub == [] then true
    else if s == [] then false
    else if sub[0] == s[0] then IsSubsequence(sub[1..], s[1..])
    else IsSubsequence(sub, s[1..])
  }
}
