/** Time steps and the acceptance window of RFC 6238. The code itself is an
    uninterpreted function of seed and step. */
module Totp {
  import opened Options

  type Seed = nat
  type Code = string

  /** The keyed code generator. */
  type Generator = (Seed, int) -> Code

  const STEP_SECONDS := 30
  const MICROS := 1_000_000

  /** The time step containing an instant given in microseconds (section 4.2 of
      RFC 6238, with whole seconds first). */
  function StepAt(now: nat): (k: nat)
    ensures k * 30_000_000 <= now < (k + 1) * 30_000_000
  {
    now / MICROS / STEP_SECONDS
  }

  /** The step within one of `at` whose code this is: the earliest one. */
  function MatchingStep(g: Generator, seed: Seed, code: Code, at: int): (r: Option<int>)
    ensures r.Some? ==> at - 1 <= r.value <= at + 1 && g(seed, r.value) == code
    ensures r.Some? <==> exists step :: at - 1 <= step <= at + 1 && g(seed, step) == code
    ensures r.Some? ==> forall step :: at - 1 <= step < r.value ==> g(seed, step) != code
  {
    if g(seed, at - 1) == code then Some(at - 1)
    else if g(seed, at) == code then Some(at)
    else if g(seed, at + 1) == code then Some(at + 1)
    else None
  }

  /** The widened check as the early-exit loop it is. */
  method FindMatchingStep(g: Generator, seed: Seed, code: Code, at: int) returns (r: Option<int>)
    ensures r == MatchingStep(g, seed, code, at)
  {
    for step := at - 1 to at + 2
      invariant forall s :: at - 1 <= s < step ==> g(seed, s) != code
    {
      if g(seed, step) == code {
        return Some(step);
      }
    }
    r := None;
  }
}
