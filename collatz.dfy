/**
  The sequence verifier: `collatz_conjecture` copies its candidate into a
  working value and applies the Collatz step until that value is 1.

  Whether that loop stops for every positive candidate is the open
  conjecture itself, so the checking method is cut off after `fuel` passes
  and reports whether it saw 1 within that many passes.
 */
module Collatz {

  import opened Wrappers

  /** GMP's exact division by 2, defined only for multiples of 2. */
  function HalveExact(n: nat): (h: nat)
    requires n % 2 == 0
    ensures 2 * h == n
  {
    n / 2
  }

  /** One pass of the loop on a working value that is not 1. */
  function Step(n: nat): (r: nat)
    ensures n % 2 == 0 ==> 2 * r == n
    ensures n % 2 == 1 ==> r == 3 * n + 1 && r % 2 == 0
    ensures n >= 1 ==> r >= 1
  {
    if n % 2 == 0 then HalveExact(n) else 3 * n + 1
  }

  /** The working value after `k` passes of the loop. */
  function Iterate(n: nat, k: nat): (m: nat)
  {
    if k == 0 then n else Step(Iterate(n, k - 1))
  }

  /**
    The number of passes after which the working value first equals 1, when
    that happens within `fuel` passes; `None` otherwise.
   */
  function StepsWithin(n: nat, fuel: nat): (r: Option<nat>)
    ensures r.Some? ==> r.value <= fuel
    decreases fuel
  {
    if n == 1 then Some(0)
    else if fuel == 0 then None
    else match StepsWithin(Step(n), fuel - 1)
      case None => None
      case Some(k) => Some(k + 1)
  }

  lemma {:induction false} IterateStepFirst(n: nat, k: nat)
    ensures Iterate(n, k + 1) == Iterate(Step(n), k)
  {
    if k > 0 {
      IterateStepFirst(n, k - 1);
    }
  }

  /** A positive candidate never leaves the positive numbers. */
  lemma {:induction false} IteratePositive(n: nat, k: nat)
    requires n >= 1
    ensures Iterate(n, k) >= 1
  {
    if k > 0 {
      IteratePositive(n, k - 1);
    }
  }

  /** `StepsWithin` finds the first pass that reaches 1, and `None` means no pass up to `fuel` does. */
  lemma {:induction false} StepsWithinSound(n: nat, fuel: nat)
    ensures StepsWithin(n, fuel).Some? ==>
      StepsWithin(n, fuel).value <= fuel && Iterate(n, StepsWithin(n, fuel).value) == 1
    ensures StepsWithin(n, fuel).Some? ==>
      forall j :: 0 <= j < StepsWithin(n, fuel).value ==> Iterate(n, j) != 1
    ensures StepsWithin(n, fuel).None? ==> forall j :: 0 <= j <= fuel ==> Iterate(n, j) != 1
    decreases fuel
  {
    if n != 1 && fuel > 0 {
      StepsWithinSound(Step(n), fuel - 1);
      forall j | 1 <= j <= fuel
        ensures Iterate(n, j) == Iterate(Step(n), j - 1)
      {
        IterateStepFirst(n, j - 1);
      }
    }
  }

  /** Conversely, the first pass that reaches 1 within `fuel` passes is what `StepsWithin` returns. */
  lemma StepsWithinExact(n: nat, fuel: nat, k: nat)
    requires k <= fuel && Iterate(n, k) == 1
    requires forall j :: 0 <= j < k ==> Iterate(n, j) != 1
    ensures StepsWithin(n, fuel) == Some(k)
  {
    StepsWithinSound(n, fuel);
    if StepsWithin(n, fuel).Some? {
      var m := StepsWithin(n, fuel).value;
      assert !(m < k) && !(k < m);
    }
  }

  /** More fuel never changes an outcome that was already reached: the check has no hidden state. */
  lemma StepsWithinMonotone(n: nat, fuel: nat, more: nat)
    requires fuel <= more && StepsWithin(n, fuel).Some?
    ensures StepsWithin(n, more) == StepsWithin(n, fuel)
  {
    StepsWithinSound(n, fuel);
    StepsWithinExact(n, more, StepsWithin(n, fuel).value);
  }

  function Pow2(k: nat): (p: nat)
    ensures p >= 1
  {
    if k == 0 then 1 else 2 * Pow2(k - 1)
  }

  /** 2^k is halved exactly k times on its way to 1. */
  lemma {:induction false} PowerOfTwoSteps(k: nat, fuel: nat)
    requires k <= fuel
    ensures StepsWithin(Pow2(k), fuel) == Some(k)
  {
    if k > 0 {
      PowerOfTwoSteps(k - 1, fuel - 1);
      assert Step(Pow2(k)) == Pow2(k - 1);
    }
  }

  /**
    `collatz_conjecture(start_number)`, cut off after `fuel` passes. The loop
    works on a copy `number`; it leaves only when that copy is 1 (or, in this
    model, when the fuel is spent). `passes` counts the arithmetic steps taken.
   */
  method CheckConjecture(startNumber: nat, fuel: nat) returns (reached: bool, passes: nat, number: nat)
    ensures passes <= fuel && number == Iterate(startNumber, passes)
    ensures reached <==> number == 1
    ensures reached <==> StepsWithin(startNumber, fuel).Some?
    ensures reached ==> StepsWithin(startNumber, fuel) == Some(passes)
    ensures !reached ==> passes == fuel
    ensures forall j :: 0 <= j < passes ==> Iterate(startNumber, j) != 1
    ensures startNumber == 1 ==> reached && passes == 0
    ensures startNumber >= 1 ==> number >= 1
  {
    number := startNumber;
    passes := 0;
    while true
      invariant passes <= fuel && number == Iterate(startNumber, passes)
      invariant forall j :: 0 <= j < passes ==> Iterate(startNumber, j) != 1
      invariant startNumber >= 1 ==> number >= 1
      decreases fuel - passes
    {
      if number == 1 {
        break;
      }
      if passes == fuel {
        break;
      }
      if number % 2 == 0 {
        number := HalveExact(number);
      } else {
        number := number * 3;
        number := number + 1;
      }
      passes := passes + 1;
    }
    reached := number == 1;
    if reached {
      StepsWithinExact(startNumber, fuel, passes);
    } else {
      StepsWithinSound(startNumber, fuel);
    }
  }
}
