/**
 * The self-consistency driver of `dmft_cycle`: where the iteration count
 * and chemical potential start, the main loop with its early exit on
 * convergence, the removal of the seed magnetic field, the sampling
 * iterations that follow convergence, and the sticky convergence flag.
 * The physics of one iteration is not modelled: a step is recorded by the
 * arguments it receives, and the convergence test is an oracle `check`
 * giving the verdict of `convergence.check_convergence` at each iteration.
 */
module Cycle {
  import opened Common

  /** The starting point of a run: the iteration offset and the chemical potential. */
  datatype Start = Start(offset: int, mu: real)

  /**
   * dmft_cycle.py:313-377. A run whose archive holds `iteration_count`
   * resumes after it with the archived chemical potential; the initial guess
   * for mu is used only when the offset is zero, which includes an archive
   * whose count is zero.
   */
  function StartOfRun(archivedCount: Option<int>, archivedMu: real, defaultMu: real, muGuess: Option<real>)
    : (s: Start)
    ensures s.offset == if archivedCount.Some? then archivedCount.value else 0
    ensures muGuess.Some? && s.offset == 0 ==> s.mu == muGuess.value
    ensures !(muGuess.Some? && s.offset == 0) ==> s.mu == if archivedCount.Some? then archivedMu else defaultMu
  {
    var offset := if archivedCount.Some? then archivedCount.value else 0;
    var mu := if archivedCount.Some? then archivedMu else defaultMu;
    Start(offset, if muGuess.Some? && offset == 0 then muGuess.value else mu)
  }

  /**
   * The convergence flag after a step (dmft_cycle.py:839-844): an
   * inconclusive check (None) resets it; otherwise a flag already set stays
   * set, and a check that reports convergence sets it.
   */
  function UpdateConverged(wasConverged: bool, now: Option<bool>): (r: bool)
    ensures now.None? ==> !r
    ensures now.Some? && wasConverged ==> r
    ensures now == Some(true) ==> r
    ensures r ==> now.Some? && (wasConverged || now.value)
  {
    if now.None? then false else wasConverged || now.value
  }

  /**
   * The seed field at iteration `it` (dmft_cycle.py:562-566): it is switched
   * off for good once the iteration number passes `h_field_it`, and never
   * when `h_field_it` is zero.
   */
  function HFieldAt(hField0: real, hFieldIt: int, it: int): (h: real)
    ensures hFieldIt == 0 ==> h == hField0
    ensures hFieldIt != 0 && it > hFieldIt ==> h == 0.0
    ensures h == hField0 || h == 0.0
    ensures h != hField0 ==> it > hFieldIt
  {
    if hFieldIt != 0 && it > hFieldIt then 0.0 else hField0
  }

  /** Once switched off, the field stays off for every later iteration. */
  lemma HFieldStaysOff(hField0: real, hFieldIt: int, it: int, later: int)
    requires it <= later && HFieldAt(hField0, hFieldIt, it) == 0.0
    ensures HFieldAt(hField0, hFieldIt, later) == 0.0
  {
  }

  /** G0 is mixed with the previous iteration's from the second iteration on (dmft_cycle.py:664). */
  function G0MixingApplies(it: int): (b: bool)
    ensures b <==> it >= 2
  {
    it > 1
  }

  /** Python's binding of `given` positional arguments to a function with `required` required and `params` parameters in all. */
  function BindPositional(required: nat, params: nat, given: nat): (r: Result<nat>)
    ensures r.Success? <==> required <= given <= params
    ensures r.Failure? ==> r.error == TypeError
    ensures r.Success? ==> r.value == params - given
  {
    if given < required || given > params then Failure(TypeError) else Success(params - given)
  }

  /** `calculate_double_counting` takes seven parameters, the last (`G_loc_all`) optional (initial_self_energies.py:40). */
  const DC_REQUIRED_ARGS: nat := 6
  const DC_PARAMS: nat := 7
  /** The recomputation of the DC inside a step passes five positional arguments, leaving out `gw_params` (dmft_cycle.py:765-768). */
  const STEP_DC_ARGS: nat := 5
  /** The same call with `gw_params` in its place. */
  const CORRECTED_STEP_DC_ARGS: nat := 6
  /** The calls while setting up the initial self-energy pass all seven arguments positionally (initial_self_energies.py:491-513). */
  const INITIAL_DC_ARGS: nat := 7

  /** Whether a call of `calculate_double_counting` with `given` arguments binds them. */
  predicate DcCallBinds(given: nat) {
    BindPositional(DC_REQUIRED_ARGS, DC_PARAMS, given).Success?
  }

  /** Recomputing the DC inside a step cannot bind its arguments, while the calls at start-up and the corrected call can. */
  lemma DcArgumentBinding()
    ensures BindPositional(DC_REQUIRED_ARGS, DC_PARAMS, STEP_DC_ARGS) == Failure(TypeError)
    ensures DcCallBinds(INITIAL_DC_ARGS) && DcCallBinds(CORRECTED_STEP_DC_ARGS)
  {
  }

  /** The arguments of one call of `_dmft_step`. */
  datatype StepCall = StepCall(it: int, isConverged: bool, isSampling: bool, hField: real)

  /**
   * What one step returns: the updated convergence flag, or the TypeError
   * raised when `dc` and `dc_dmft` make it recompute the double counting
   * with `dcArgs` positional arguments that do not bind.
   */
  function StepOutcome(call: StepCall, check: int -> Option<bool>, recomputesDc: bool, dcArgs: nat): (r: Result<bool>)
    ensures r.Failure? <==> recomputesDc && !DcCallBinds(dcArgs)
    ensures r.Failure? ==> r.error == TypeError
    ensures r.Success? ==> r.value == UpdateConverged(call.isConverged, check(call.it))
  {
    if recomputesDc then
      var unbound :- BindPositional(DC_REQUIRED_ARGS, DC_PARAMS, dcArgs);
      Success(UpdateConverged(call.isConverged, check(call.it)))
    else Success(UpdateConverged(call.isConverged, check(call.it)))
  }

  /** As written, every step that recomputes the DC raises TypeError, whatever the iteration. */
  lemma StepDcRecomputationAsWritten(call: StepCall, check: int -> Option<bool>)
    ensures StepOutcome(call, check, true, STEP_DC_ARGS) == Failure(TypeError)
  {
    DcArgumentBinding();
  }

  /** With `gw_params` passed, recomputing the DC leaves the step's outcome to the convergence check alone. */
  lemma StepDcRecomputationCorrected(call: StepCall, check: int -> Option<bool>)
    ensures StepOutcome(call, check, true, CORRECTED_STEP_DC_ARGS) == StepOutcome(call, check, false, CORRECTED_STEP_DC_ARGS)
    ensures StepOutcome(call, check, true, CORRECTED_STEP_DC_ARGS) == Success(UpdateConverged(call.isConverged, check(call.it)))
  {
    DcArgumentBinding();
  }

  /**
   * How many main-loop steps run when the loop starts at iteration `first`
   * with `remaining` iterations to go: it stops after the first step whose
   * check reports convergence.
   */
  function MainSteps(first: int, remaining: int, check: int -> Option<bool>): nat
    decreases remaining
  {
    if remaining <= 0 then 0
    else if check(first) == Some(true) then 1
    else 1 + MainSteps(first + 1, remaining - 1, check)
  }

  /**
   * The main loop stops at the first converged iteration and nowhere else:
   * it runs at most `n_iter` steps, every step before the last was not
   * converged, and it runs all `n_iter` steps when none converges.
   */
  lemma {:induction false} MainStepsStopAtFirstConvergence(first: int, remaining: int, check: int -> Option<bool>)
    ensures MainSteps(first, remaining, check) <= if remaining <= 0 then 0 else remaining
    ensures forall it | first <= it < first + MainSteps(first, remaining, check) - 1 :: check(it) != Some(true)
    ensures 0 < MainSteps(first, remaining, check) < remaining ==>
              check(first + MainSteps(first, remaining, check) - 1) == Some(true)
    ensures (forall it | first <= it < first + remaining :: check(it) != Some(true)) ==>
              MainSteps(first, remaining, check) == if remaining <= 0 then 0 else remaining
    decreases remaining
  {
    if remaining > 0 && check(first) != Some(true) {
      MainStepsStopAtFirstConvergence(first + 1, remaining - 1, check);
    }
  }

  /**
   * `dmft_cycle`'s iteration control (dmft_cycle.py:557-599). The main loop
   * calls the step for iterations `offset+1 ..` with the convergence flag
   * cleared and the seed field of that iteration, and leaves at the first
   * converged step. After convergence, `sampling_iterations` further steps
   * follow with the flag set, the field as the main loop left it, and their
   * verdicts discarded. Returns the final flag and every step call made.
   * `dcArgs` is the number of positional arguments a step passes when it
   * recomputes the DC (`STEP_DC_ARGS` as written).
   */
  method DmftCycle(offset: int, nIter: int, samplingIterations: int, hField0: real, hFieldIt: int,
                   check: int -> Option<bool>, recomputesDc: bool, dcArgs: nat)
    returns (r: Result<bool>, calls: seq<StepCall>)
    ensures r.Failure? <==> recomputesDc && !DcCallBinds(dcArgs) && nIter > 0
    ensures r.Failure? ==>
              r.error == TypeError && calls == [StepCall(offset + 1, false, false, HFieldAt(hField0, hFieldIt, offset + 1))]
    ensures r.Success? ==>
              var m := MainSteps(offset + 1, nIter, check);
              && m <= |calls|
              && (forall k | 0 <= k < m ::
                    calls[k] == StepCall(offset + 1 + k, false, false, HFieldAt(hField0, hFieldIt, offset + 1 + k)))
              && (r.value <==> m > 0 && check(offset + m) == Some(true))
              && (if r.value && samplingIterations > 0 then
                    && |calls| == m + samplingIterations
                    && forall j | m <= j < |calls| ::
                         calls[j] == StepCall(offset + 1 + j, true, true, HFieldAt(hField0, hFieldIt, offset + m))
                  else |calls| == m)
  {
    calls := [];
    var isConverged := false;
    var hField := hField0;
    var it := offset;
    var m := MainSteps(offset + 1, nIter, check);
    // the main loop: `for it in range(offset + 1, offset + n_iter + 1)`
    var next := offset + 1;
    while next < offset + nIter + 1
      invariant offset + 1 <= next
      invariant nIter > 0 ==> next <= offset + nIter + 1
      invariant nIter <= 0 ==> next == offset + 1
      invariant |calls| == next - offset - 1
      invariant recomputesDc && !DcCallBinds(dcArgs) ==> calls == []
      invariant !isConverged
      invariant calls != [] ==> check(next - 1) != Some(true)
      invariant MainSteps(offset + 1, nIter, check) == |calls| + MainSteps(next, offset + nIter + 1 - next, check)
      invariant forall k | 0 <= k < |calls| ::
                  calls[k] == StepCall(offset + 1 + k, false, false, HFieldAt(hField0, hFieldIt, offset + 1 + k))
      invariant hField == if calls == [] then hField0 else HFieldAt(hField0, hFieldIt, next - 1)
      decreases offset + nIter + 1 - next
    {
      it := next;
      if hField != 0.0 && hFieldIt != 0 && it > hFieldIt {
        hField := 0.0;
      }
      var call := StepCall(it, isConverged, false, hField);
      calls := calls + [call];
      var outcome := StepOutcome(call, check, recomputesDc, dcArgs);
      if outcome.Failure? {
        return Failure(outcome.error), calls;
      }
      isConverged := outcome.value;
      if isConverged {
        break;
      }
      next := next + 1;
    }
    assert |calls| == m;

    if isConverged && samplingIterations > 0 {
      var mainEnd := it;
      var fieldAtEnd := hField;
      assert mainEnd == offset + m;
      assert fieldAtEnd == HFieldAt(hField0, hFieldIt, offset + m);
      for s := mainEnd + 1 to mainEnd + 1 + samplingIterations
        invariant |calls| == m + (s - mainEnd - 1)
        invariant forall k | 0 <= k < m ::
                    calls[k] == StepCall(offset + 1 + k, false, false, HFieldAt(hField0, hFieldIt, offset + 1 + k))
        invariant forall j | m <= j < |calls| :: calls[j] == StepCall(offset + 1 + j, true, true, fieldAtEnd)
      {
        // the verdict of a sampling step is discarded
        calls := calls + [StepCall(s, true, true, fieldAtEnd)];
      }
    }
    r := Success(isConverged);
  }
}
