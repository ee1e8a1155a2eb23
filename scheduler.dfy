/**
  The batch scheduler and the batch loop of `main`: each batch of
  `thread_count * iterations_per_thread` consecutive candidates is cut into
  `thread_count` sub-ranges of `iterations_per_thread` candidates, one per
  thread, and the frontier `batch_start_number` advances by one batch once
  every thread has finished.

  Threads run here one after another, each on the start value it was
  launched with; their concurrency is not modelled.
 */
module Scheduler {

  import opened Wrappers
  import opened Worker
  import opened Input

  const TwoTo32: nat := 0x1_0000_0000
  const TwoTo64: nat := 0x1_0000_0000_0000_0000

  /** `batch_size` as written: a `uint64_t` product, so it wraps modulo 2^64. */
  function BatchSizeAsWritten(threadCount: nat, iterationsPerThread: nat): (r: nat)
    ensures r < TwoTo64
    ensures r == threadCount * iterationsPerThread <==> threadCount * iterationsPerThread < TwoTo64
  {
    (threadCount * iterationsPerThread) % TwoTo64
  }

  /**
    Two counts the count test accepts whose product wraps to 0: from start 1
    the first batch is shown as "Trying 1 - 1" and the frontier stays put.
   */
  lemma BatchSizeWraps()
    ensures 0 < 2 < ULongLongMax && 0 < 0x8000_0000_0000_0000 < ULongLongMax
    ensures BatchSizeAsWritten(2, 0x8000_0000_0000_0000) == 0
    ensures 2 * 0x8000_0000_0000_0000 == TwoTo64
  {
  }

  /** While both counts fit the 32-bit loop counters, the `uint64_t` product is exact. */
  lemma BatchSizeExactBelow32(threadCount: nat, iterationsPerThread: nat)
    requires threadCount < TwoTo32 && iterationsPerThread < TwoTo32
    ensures BatchSizeAsWritten(threadCount, iterationsPerThread) == threadCount * iterationsPerThread
  {
    var p := threadCount * iterationsPerThread;
    MulMonotone(iterationsPerThread, TwoTo32 - 1, threadCount);
    MulMonotone(threadCount, TwoTo32 - 1, TwoTo32 - 1);
    assert p < TwoTo64;
  }

  /**
    The launch loop as written: a 32-bit `unsigned` counter that starts at 0,
    is compared with the 64-bit thread count and wraps modulo 2^32. The
    number of passes before the guard fails, if that happens within `fuel`
    passes. The loop of `thread_procedure` has the same shape, with
    `iterations_per_thread` as the count, wherever `unsigned long` is 64 bits
    wide.
   */
  function LaunchPasses32(i: nat, threadCount: nat, fuel: nat): (r: Option<nat>)
    requires i < TwoTo32
    ensures r.Some? ==> r.value <= fuel
    decreases fuel
  {
    if !(i < threadCount) then Some(0)
    else if fuel == 0 then None
    else match LaunchPasses32((i + 1) % TwoTo32, threadCount, fuel - 1)
      case None => None
      case Some(k) => Some(k + 1)
  }

  /** From a 32-bit counter value `i`, a count below 2^32 is reached after `threadCount - i` passes. */
  lemma {:induction false} LaunchLoop32Exits(i: nat, threadCount: nat, fuel: nat)
    requires i <= threadCount < TwoTo32 && threadCount - i <= fuel
    ensures LaunchPasses32(i, threadCount, fuel) == Some(threadCount - i)
    decreases threadCount - i
  {
    if i < threadCount {
      LaunchLoop32Exits(i + 1, threadCount, fuel - 1);
    }
  }

  /** A count of 2^32 or more, which the count validator accepts, is never reached: the counter wraps first. */
  lemma {:induction false} LaunchLoop32NeverExits(i: nat, threadCount: nat, fuel: nat)
    requires i < TwoTo32 <= threadCount
    ensures LaunchPasses32(i, threadCount, fuel) == None
    decreases fuel
  {
    if fuel > 0 {
      LaunchLoop32NeverExits((i + 1) % TwoTo32, threadCount, fuel - 1);
    }
  }

  /** The start values handed to the threads, in launch order. */
  function LaunchStarts(batchStart: nat, threadCount: nat, iterationsPerThread: nat): (s: seq<nat>)
    ensures |s| == threadCount
    ensures forall i :: 0 <= i < threadCount ==> s[i] == batchStart + i * iterationsPerThread
  {
    if threadCount == 0 then
      []
    else
      LaunchStarts(batchStart, threadCount - 1, iterationsPerThread) + [batchStart + (threadCount - 1) * iterationsPerThread]
  }

  /** Consecutive sub-ranges touch: each ends where the next begins, from the batch start to the batch end. */
  lemma PartitionContiguous(batchStart: nat, threadCount: nat, iterationsPerThread: nat, i: nat)
    requires i < threadCount
    ensures LaunchStarts(batchStart, threadCount, iterationsPerThread)[0] == batchStart
    ensures i + 1 < threadCount ==>
      LaunchStarts(batchStart, threadCount, iterationsPerThread)[i] + iterationsPerThread
        == LaunchStarts(batchStart, threadCount, iterationsPerThread)[i + 1]
    ensures LaunchStarts(batchStart, threadCount, iterationsPerThread)[threadCount - 1] + iterationsPerThread
      == batchStart + threadCount * iterationsPerThread
  {
  }

  /** Sub-ranges are ascending and pairwise disjoint: thread i's range ends before thread j's begins. */
  lemma PartitionDisjoint(batchStart: nat, threadCount: nat, iterationsPerThread: nat, i: nat, j: nat)
    requires i < j < threadCount
    ensures LaunchStarts(batchStart, threadCount, iterationsPerThread)[i] + iterationsPerThread
      <= LaunchStarts(batchStart, threadCount, iterationsPerThread)[j]
  {
  }

  /** Every sub-range lies inside the batch [batchStart, batchStart + threadCount * iterationsPerThread). */
  lemma PartitionWithin(batchStart: nat, threadCount: nat, iterationsPerThread: nat, i: nat)
    requires i < threadCount
    ensures batchStart <= LaunchStarts(batchStart, threadCount, iterationsPerThread)[i]
    ensures LaunchStarts(batchStart, threadCount, iterationsPerThread)[i] + iterationsPerThread
      <= batchStart + threadCount * iterationsPerThread
  {
  }

  /** Every candidate of the batch lies in the sub-range of thread (c - batchStart) / iterationsPerThread. */
  lemma PartitionCover(batchStart: nat, threadCount: nat, iterationsPerThread: nat, c: nat)
    requires batchStart <= c < batchStart + threadCount * iterationsPerThread
    ensures iterationsPerThread > 0 && (c - batchStart) / iterationsPerThread < threadCount
    ensures var s := LaunchStarts(batchStart, threadCount, iterationsPerThread);
      var i := (c - batchStart) / iterationsPerThread;
      s[i] <= c < s[i] + iterationsPerThread
  {
  }

  lemma MulMonotone(a: nat, b: nat, m: nat)
    ensures a <= b ==> a * m <= b * m
  {
  }

  /**
    One pass of `main`'s batch loop from the launch of the threads to their
    join. Returns the start value each thread was launched with and whether
    every thread finished, which is when the batch passes.
   */
  method RunBatch(batchStart: nat, threadCount: nat, iterationsPerThread: nat, fuel: nat)
    returns (launches: seq<nat>, passed: bool)
    ensures launches == LaunchStarts(batchStart, threadCount, iterationsPerThread)
    ensures passed <==> AllReach(batchStart, threadCount * iterationsPerThread, fuel)
  {
    var threadStartNumber := batchStart;
    launches := [];
    var i: nat := 0;
    while i < threadCount
      invariant i <= threadCount
      invariant launches == LaunchStarts(batchStart, i, iterationsPerThread)
      invariant threadStartNumber == batchStart + i * iterationsPerThread
    {
      launches := launches + [threadStartNumber];
      threadStartNumber := threadStartNumber + iterationsPerThread;
      i := i + 1;
    }
    passed := true;
    var k: nat := 0;
    ghost var joined: nat := 0;
    while k < threadCount
      invariant k <= threadCount && joined == k * iterationsPerThread
      invariant passed <==> AllReach(batchStart, joined, fuel)
    {
      assert launches[k] == batchStart + joined;
      var cursor, checked, finished := ThreadProcedure(launches[k], iterationsPerThread, fuel);
      AllReachSplit(batchStart, joined, iterationsPerThread, fuel);
      passed := passed && finished;
      joined := joined + iterationsPerThread;
      k := k + 1;
      assert joined == k * iterationsPerThread by {
        assert k * iterationsPerThread == (k - 1) * iterationsPerThread + iterationsPerThread;
      }
    }
  }

  /** The range a batch announces before it starts, "Trying first - bound"; `bound` is exclusive. */
  datatype Trial = Trial(first: nat, bound: nat)

  /**
    `main`'s batch loop from `startNumber`, for at most `batches` batches.
    `batchStartNumber` is the frontier, `batchEndNumber` the end shown for the
    batch in flight, `passedBatches` the batches that passed and `tried` the
    ranges announced. A batch that does not pass stands for one whose join
    never returns: the loop ends there.
   */
  method CheckBatches(startNumber: nat, threadCount: nat, iterationsPerThread: nat, batches: nat, fuel: nat)
    returns (batchStartNumber: nat, batchEndNumber: nat, passedBatches: nat, tried: seq<Trial>)
    ensures passedBatches <= batches && passedBatches <= |tried| <= passedBatches + 1
    ensures |tried| == passedBatches ==> passedBatches == batches
    ensures batchStartNumber == startNumber + passedBatches * (threadCount * iterationsPerThread)
    ensures batchEndNumber == startNumber + |tried| * (threadCount * iterationsPerThread)
    ensures forall k :: 0 <= k < |tried| ==>
      tried[k] == Trial(startNumber + k * (threadCount * iterationsPerThread),
                        startNumber + (k + 1) * (threadCount * iterationsPerThread))
    ensures AllReach(startNumber, batchStartNumber - startNumber, fuel)
    ensures |tried| == passedBatches + 1 ==>
      !AllReach(batchStartNumber, threadCount * iterationsPerThread, fuel)
  {
    batchStartNumber := startNumber;
    batchEndNumber := startNumber;
    var batchSize := threadCount * iterationsPerThread;
    passedBatches := 0;
    tried := [];
    while passedBatches < batches
      invariant passedBatches <= batches && |tried| == passedBatches
      invariant batchStartNumber == startNumber + passedBatches * batchSize
      invariant batchEndNumber == batchStartNumber
      invariant forall k :: 0 <= k < |tried| ==>
        tried[k] == Trial(startNumber + k * batchSize, startNumber + (k + 1) * batchSize)
      invariant AllReach(startNumber, batchStartNumber - startNumber, fuel)
    {
      batchEndNumber := batchEndNumber + batchSize;
      assert batchEndNumber == startNumber + (passedBatches + 1) * batchSize;
      tried := tried + [Trial(batchStartNumber, batchEndNumber)];
      var launches, passed := RunBatch(batchStartNumber, threadCount, iterationsPerThread, fuel);
      if !passed {
        return;
      }
      AllReachSplit(startNumber, batchStartNumber - startNumber, batchSize, fuel);
      batchStartNumber := batchStartNumber + batchSize;
      passedBatches := passedBatches + 1;
    }
  }
}
