/**
 The plane-parameter initialization that follows the reflectance estimate.

 The transform model supplies an initial parameter vector; the driver writes
 the intensity-scale prior and the per-channel ambient levels into it, hands
 it to an alignment engine, and steps that engine until it reports
 convergence or the step budget is spent.

 The engine is an oracle: `step` maps the engine's state to the flag the
 step returns and the engine's next state. Nothing is assumed about it.
 */
module Refinement {

  /** Slot of the intensity-scale term in the parameter vector. */
  const IntensitySlot: nat := 11
  /** First slot of the per-channel ambient-light block. */
  const AmbientSlot: nat := 12
  /** Most engine steps the driver makes. */
  const MaxIterations: nat := 100

  /**
   Writes the intensity prior 1.0 into slot 11 and `ambient[i]` into slot
   `12 + i`, one channel at a time. Every other slot keeps the value the
   transform model created.
   */
  method SeedParameters(created: seq<real>, ambient: seq<real>) returns (p: seq<real>)
    requires |created| >= AmbientSlot + |ambient|
    ensures |p| == |created|
    ensures p[IntensitySlot] == 1.0
    ensures forall i :: 0 <= i < |ambient| ==> p[AmbientSlot + i] == ambient[i]
    ensures forall k :: (0 <= k < |created| && k != IntensitySlot
                         && !(AmbientSlot <= k < AmbientSlot + |ambient|)) ==> p[k] == created[k]
  {
    p := created[IntensitySlot := 1.0];
    var i := 0;
    while i < |ambient|
      invariant 0 <= i <= |ambient|
      invariant |p| == |created|
      invariant p[IntensitySlot] == 1.0
      invariant forall m :: 0 <= m < i ==> p[AmbientSlot + m] == ambient[m]
      invariant forall k :: (0 <= k < |created| && k != IntensitySlot
                             && !(AmbientSlot <= k < AmbientSlot + i)) ==> p[k] == created[k]
    {
      p := p[AmbientSlot + i := ambient[i]];
      i := i + 1;
    }
  }

  /** The engine's state after `k` steps from `s`. */
  function After<S>(step: S -> (bool, S), s: S, k: nat): S {
    if k == 0 then s else After(step, step(s).1, k - 1)
  }

  /** The flag returned by step number `k + 1` (counting from 1) from `s`. */
  function Reports<S>(step: S -> (bool, S), s: S, k: nat): bool {
    step(After(step, s, k)).0
  }

  /** Reference count of the steps the driver makes with a budget of
      `budget` steps: up to and including the first that reports convergence. */
  function StepsTaken<S>(step: S -> (bool, S), s: S, budget: nat): (r: nat)
    ensures r <= budget
    ensures budget > 0 ==> r >= 1
  {
    if budget == 0 then 0
    else if step(s).0 then 1
    else 1 + StepsTaken(step, step(s).1, budget - 1)
  }

  /** What a run of `n` steps under a budget looks like: at least one step,
      within the budget; no step before the last reported convergence; and a
      run that stopped short of the budget did so because the last step
      reported convergence. */
  predicate StopsAt<S>(step: S -> (bool, S), s: S, budget: nat, n: nat) {
    && 1 <= n <= budget
    && (forall k :: 0 <= k < n - 1 ==> !Reports(step, s, k))
    && (n < budget ==> Reports(step, s, n - 1))
  }

  /** Stepping `k + 1` times is one step followed by `k` more. */
  lemma {:induction false} AfterSucc<S>(step: S -> (bool, S), s: S, k: nat)
    ensures After(step, s, k + 1) == step(After(step, s, k)).1
  {
    if k > 0 {
      AfterSucc(step, step(s).1, k - 1);
    }
  }

  /** The reference count is a run of the shape `StopsAt` describes. */
  lemma {:induction false} StepsTakenStops<S>(step: S -> (bool, S), s: S, budget: nat)
    requires budget > 0
    ensures StopsAt(step, s, budget, StepsTaken(step, s, budget))
  {
    var n := StepsTaken(step, s, budget);
    if !step(s).0 && budget > 1 {
      var s1 := step(s).1;
      StepsTakenStops(step, s1, budget - 1);
      forall k | 0 <= k < n - 1
        ensures !Reports(step, s, k)
      {
        if k > 0 {
          assert After(step, s, k) == After(step, s1, k - 1);
          assert Reports(step, s, k) == Reports(step, s1, k - 1);
        } else {
          assert After(step, s, 0) == s;
        }
      }
      if n < budget {
        assert After(step, s, n - 1) == After(step, s1, n - 2);
      }
    }
  }

  /** `StopsAt` fixes the number of steps: any two runs of that shape have
      the same length. */
  lemma StopsAtUnique<S>(step: S -> (bool, S), s: S, budget: nat, n: nat, m: nat)
    requires StopsAt(step, s, budget, n) && StopsAt(step, s, budget, m)
    ensures n == m
  {
  }

  /** A run has the shape `StopsAt` describes exactly when its length is the
      reference count. */
  lemma StopsAtIffStepsTaken<S>(step: S -> (bool, S), s: S, budget: nat, n: nat)
    requires budget > 0
    ensures StopsAt(step, s, budget, n) <==> n == StepsTaken(step, s, budget)
  {
    StepsTakenStops(step, s, budget);
    if StopsAt(step, s, budget, n) {
      StopsAtUnique(step, s, budget, n, StepsTaken(step, s, budget));
    }
  }

  /**
   The refinement loop: step the engine while it has not converged and fewer
   than 100 steps were made. Returns the number of steps, the last step's
   flag and the engine's final state.
   */
  method Refine<S>(step: S -> (bool, S), s0: S) returns (iterations: nat, converged: bool, s: S)
    ensures StopsAt(step, s0, MaxIterations, iterations)
    ensures iterations == StepsTaken(step, s0, MaxIterations)
    ensures converged == Reports(step, s0, iterations - 1)
    ensures s == After(step, s0, iterations)
  {
    converged := false;
    iterations := 0;
    s := s0;
    while !converged && iterations < MaxIterations
      invariant iterations <= MaxIterations
      invariant s == After(step, s0, iterations)
      invariant forall k :: 0 <= k < iterations - 1 ==> !Reports(step, s0, k)
      invariant iterations == 0 ==> !converged
      invariant iterations > 0 ==> converged == Reports(step, s0, iterations - 1)
      decreases MaxIterations - iterations, !converged
    {
      AfterSucc(step, s0, iterations);
      var next := step(s);
      converged := next.0;
      s := next.1;
      iterations := iterations + 1;
    }
    StopsAtIffStepsTaken(step, s0, MaxIterations, iterations);
  }

  /**
   The whole plane-parameter initialization: seed the created vector, start
   the engine from it, refine, and read the engine's parameters back.
   `start` stands for constructing the engine around the seeded vector and
   `current` for reading its parameter vector.
   */
  method InitializePlaneParameters<S>(
    created: seq<real>, ambient: seq<real>,
    start: seq<real> -> S, step: S -> (bool, S), current: S -> seq<real>)
    returns (seeded: seq<real>, iterations: nat, result: seq<real>)
    requires |created| >= AmbientSlot + |ambient|
    ensures |seeded| == |created| && seeded[IntensitySlot] == 1.0
    ensures forall i :: 0 <= i < |ambient| ==> seeded[AmbientSlot + i] == ambient[i]
    ensures forall k :: (0 <= k < |created| && k != IntensitySlot
                         && !(AmbientSlot <= k < AmbientSlot + |ambient|)) ==> seeded[k] == created[k]
    ensures StopsAt(step, start(seeded), MaxIterations, iterations)
    ensures result == current(After(step, start(seeded), iterations))
  {
    seeded := SeedParameters(created, ambient);
    var converged, s;
    iterations, converged, s := Refine(step, start(seeded));
    result := current(s);
  }
}
