/**
 * Parameters that depend on the impurity (inequivalent correlated shell):
 * each may be given once for all shells or as one value per shell, and is
 * expanded to a list of length `n_inequiv_shells` before the cycle starts.
 */
module PerInequiv {
  import opened Common

  /** A parameter as read from the input: a single value, or a Python list. */
  datatype Param<T> = Single(value: T) | PerShell(values: seq<T>)

  /** The shapes `_extract_quantity_per_inequiv` lets through for `n` shells. */
  predicate Accepted<T>(p: Param<T>, n: nat) {
    p.Single? || |p.values| == n
  }

  /** The list a parameter stands for: `n` copies of a single value, or the list itself. */
  function Expanded<T>(p: Param<T>, n: nat): seq<T> {
    if p.Single? then seq(n, _ => p.value) else p.values
  }

  /** The exception raised for a key that is missing or holds a list of the wrong length. */
  function RejectionOf<T>(key: string, n: nat, params: map<string, Param<T>>): Error {
    if key in params then IndexError else KeyError
  }

  /**
   * `_extract_quantity_per_inequiv`: a scalar becomes a list of `n` copies of
   * itself, a list of length `n` is kept, any other list raises IndexError
   * (a missing key raises KeyError at the dictionary lookup).
   */
  function ExtractQuantityPerInequiv<T>(paramName: string, n: nat, params: map<string, Param<T>>)
    : (r: Result<map<string, Param<T>>>)
    ensures r.Success? <==> paramName in params && Accepted(params[paramName], n)
    ensures r.Failure? ==> r.error == RejectionOf(paramName, n, params)
    ensures r.Success? ==>
              && r.value.Keys == params.Keys
              && r.value[paramName].PerShell?
              && |r.value[paramName].values| == n
              && (params[paramName].Single? ==>
                    forall i | 0 <= i < n :: r.value[paramName].values[i] == params[paramName].value)
              && (params[paramName].PerShell? ==> r.value[paramName] == params[paramName])
              && forall k | k in params && k != paramName :: r.value[k] == params[k]
  {
    if paramName !in params then Failure(KeyError)
    else match params[paramName]
      case Single(v) => Success(params[paramName := PerShell(seq(n, _ => v))])
      case PerShell(vs) => if |vs| == n then Success(params) else Failure(IndexError)
  }

  /** Expanding an already expanded parameter changes nothing. */
  lemma ExtractQuantityIdempotent<T>(paramName: string, n: nat, params: map<string, Param<T>>)
    requires ExtractQuantityPerInequiv(paramName, n, params).Success?
    ensures var once := ExtractQuantityPerInequiv(paramName, n, params).value;
            ExtractQuantityPerInequiv(paramName, n, once) == Success(once)
  {
  }

  /**
   * The loops at dmft_cycle.py:347-351: every impurity-dependent key is
   * expanded in turn, and the first key that is missing or malformed stops
   * the run with its exception.
   */
  method CheckImpurityDependent<T>(keys: seq<string>, n: nat, params: map<string, Param<T>>)
    returns (r: Result<map<string, Param<T>>>)
    ensures r.Success? <==> forall j | 0 <= j < |keys| :: keys[j] in params && Accepted(params[keys[j]], n)
    ensures r.Failure? ==>
              exists j | 0 <= j < |keys| ::
                && !(keys[j] in params && Accepted(params[keys[j]], n))
                && (forall j' | 0 <= j' < j :: keys[j'] in params && Accepted(params[keys[j']], n))
                && r.error == RejectionOf(keys[j], n, params)
    ensures r.Success? ==>
              && r.value.Keys == params.Keys
              && (forall k | k in keys :: r.value[k] == PerShell(Expanded(params[k], n)))
              && (forall k | k in params && k !in keys :: r.value[k] == params[k])
  {
    var current := params;
    for i := 0 to |keys|
      invariant current.Keys == params.Keys
      invariant forall j | 0 <= j < i :: keys[j] in params && Accepted(params[keys[j]], n)
      invariant forall k | k in keys[..i] :: current[k] == PerShell(Expanded(params[k], n))
      invariant forall k | k in params && k !in keys[..i] :: current[k] == params[k]
    {
      var key := keys[i];
      var step := ExtractQuantityPerInequiv(key, n, current);
      if step.Failure? {
        assert key !in keys[..i] ==> key in current ==> current[key] == params[key];
        return Failure(step.error);
      }
      current := step.value;
      assert keys[..i + 1] == keys[..i] + [key];
    }
    assert keys[..|keys|] == keys;
    r := Success(current);
  }
}
