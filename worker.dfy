/**
  The worker unit: `thread_procedure` checks `iterations_per_thread`
  consecutive candidates, starting at the value it was launched with, by
  advancing a cursor by one after each check.
 */
module Worker {

  import opened Collatz

  /** The check of candidate `n` returns within `fuel` passes. */
  predicate Reaches(n: nat, fuel: nat)
  {
    StepsWithin(n, fuel).Some?
  }

  /** Every candidate of [lo, lo + count) reaches 1 within `fuel` passes. */
  ghost predicate AllReach(lo: nat, count: nat, fuel: nat)
  {
    forall c :: lo <= c < lo + count ==> Reaches(c, fuel)
  }

  /** Checking [lo, lo + m + n) is checking [lo, lo + m) and then [lo + m, lo + m + n). */
  lemma AllReachSplit(lo: nat, m: nat, n: nat, fuel: nat)
    ensures AllReach(lo, m + n, fuel) <==> AllReach(lo, m, fuel) && AllReach(lo + m, n, fuel)
  {
  }

  /**
    The position in [start, start + count) of the first candidate whose check
    does not return within `fuel` passes, or `count` when there is none.
   */
  function FirstStall(start: nat, count: nat, fuel: nat): (r: nat)
    ensures r <= count
    ensures AllReach(start, r, fuel)
    ensures r < count ==> !Reaches(start + r, fuel)
    decreases count
  {
    if count == 0 || !Reaches(start, fuel) then 0
    else 1 + FirstStall(start + 1, count - 1, fuel)
  }

  /** The range is fully checked exactly when no candidate in it stalls. */
  lemma FirstStallAll(start: nat, count: nat, fuel: nat)
    ensures FirstStall(start, count, fuel) == count <==> AllReach(start, count, fuel)
  {
  }

  /** The first stall is the one position before which every check returns and at which one does not. */
  lemma FirstStallUnique(start: nat, count: nat, fuel: nat, i: nat)
    requires i <= count
    requires AllReach(start, i, fuel)
    requires i < count ==> !Reaches(start + i, fuel)
    ensures FirstStall(start, count, fuel) == i
  {
  }

  /**
    `thread_procedure(thread_start_number, iterations_per_thread)`. Returns the
    final cursor and the candidates whose checks returned, in the order they
    were checked. A check that does not return within `fuel` passes stands for
    a thread that never gets past that candidate: the worker stops there.
   */
  method ThreadProcedure(threadStartNumber: nat, iterationsPerThread: nat, fuel: nat)
    returns (cursor: nat, checked: seq<nat>, finished: bool)
    ensures |checked| == FirstStall(threadStartNumber, iterationsPerThread, fuel)
    ensures forall j :: 0 <= j < |checked| ==> checked[j] == threadStartNumber + j
    ensures cursor == threadStartNumber + |checked|
    ensures finished <==> |checked| == iterationsPerThread
    ensures finished <==> AllReach(threadStartNumber, iterationsPerThread, fuel)
  {
    cursor := threadStartNumber;
    checked := [];
    finished := true;
    var i: nat := 0;
    while i < iterationsPerThread
      invariant i <= iterationsPerThread
      invariant cursor == threadStartNumber + i && |checked| == i
      invariant forall j :: 0 <= j < i ==> checked[j] == threadStartNumber + j
      invariant AllReach(threadStartNumber, i, fuel)
      invariant finished
    {
      var reached, passes, number := CheckConjecture(cursor, fuel);
      if !reached {
        finished := false;
        break;
      }
      checked := checked + [cursor];
      cursor := cursor + 1;
      i := i + 1;
    }
    FirstStallUnique(threadStartNumber, iterationsPerThread, fuel, i);
    FirstStallAll(threadStartNumber, iterationsPerThread, fuel);
  }
}
