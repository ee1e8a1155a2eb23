# Collatz Conjecture Checker — Dafny model

This project models the batch-parallel Collatz checker in `Source/Main.cpp`.
The checker reads a thread count, an iteration count per thread and a start
number. It then scans consecutive candidates in batches of
`thread_count * iterations_per_thread`. Each candidate's working value is
halved when even and replaced by `3n + 1` when odd, until it reaches 1.

Modules, in the order of the program:

- `Collatz` (`collatz.dfy`): one Collatz step, the trajectory `Iterate`, the
  reference function `StepsWithin`, and `CheckConjecture`, the loop of
  `collatz_conjecture` cut off after `fuel` passes.
- `Worker` (`worker.dfy`): `ThreadProcedure`, the counted scan of one thread's
  sub-range, specified by `FirstStall`.
- `Scheduler` (`scheduler.dfy`): the launch values handed to the threads
  (`LaunchStarts`), the partition lemmas, one batch (`RunBatch`) and the batch
  loop of `main` (`CheckBatches`). The fixed-width behaviour as written is also
  here (`BatchSizeAsWritten`, `LaunchPasses32`).
- `Input` (`input.dfy`): the count acceptance test of `get_int64`, with
  `find_first_not_of` and a saturating `strtoull`, and the positivity test on
  the start number.
- `Wrappers` (`wrappers.dfy`): `Option`.

Whether every positive number reaches 1 is the open conjecture. So the model
never claims that the loop of `collatz_conjecture` stops. Every check takes a
`fuel` bound instead. A candidate that has not reached 1 within `fuel` passes
stands for a thread that never returns. The worker stops at that candidate,
the batch does not pass, and the batch loop ends there. In the source, that
stall is how a counterexample would show.

The code hands every thread the address of the same `thread_start_number`.
`main` goes on advancing that variable after each launch and clears it before
the joins, so the threads share one cursor. The model instead gives each
worker the value it was launched with, and it does not claim that the code
keeps the cursors apart.

The end shown for a batch, `batch_start + batch_size`, is an exclusive bound.
The model returns it as `Trial.bound`.

## Model

| member | source | states |
|---|---|---|
| `Collatz.HalveExact` | Source/Main.cpp:29 | `mpz_divexact_ui` by 2 is defined only for even values and is exact: twice the result is the input |
| `Collatz.Step` | Source/Main.cpp:28-36 | an even value is halved exactly; an odd value becomes 3n+1, which is even; a value ≥ 1 stays ≥ 1 |
| `Collatz.IteratePositive` | Source/Main.cpp:26-36 | from a positive candidate, the working value stays ≥ 1 after any number of passes |
| `Collatz.StepsWithin` | Source/Main.cpp:23-37 | the reference outcome of the loop on a candidate: a pass count, never more than `fuel`, or `None`; its meaning is stated by the two lemmas below |
| `Collatz.StepsWithinSound` | Source/Main.cpp:23-37 | `StepsWithin` returns the first pass count at which the working value is 1; `None` means no pass up to `fuel` reaches 1 |
| `Collatz.StepsWithinExact` | Source/Main.cpp:23-37 | conversely, the first pass count ≤ fuel that reaches 1 is exactly what `StepsWithin` returns |
| `Collatz.StepsWithinMonotone` | Source/Main.cpp:18-40 | more fuel never changes an outcome already reached: the check depends on nothing but its input |
| `Collatz.PowerOfTwoSteps` | Source/Main.cpp:29 | 2^k reaches 1 after exactly k halvings |
| `Collatz.CheckConjecture` | Source/Main.cpp:18-40 | the loop works on a copy; it leaves only when the copy is 1 (or the fuel is spent); it reports 1 exactly when `StepsWithin` does, with the same pass count; input 1 leaves before any step; the copy stays ≥ 1 |
| `Worker.FirstStall` | Source/Main.cpp:46-50 | the first position of the range whose check does not return within fuel: every earlier candidate reaches 1 and the one at that position does not |
| `Worker.FirstStallAll` | Source/Main.cpp:46-50 | no candidate stalls exactly when every candidate of the range reaches 1 |
| `Worker.ThreadProcedure` | Source/Main.cpp:44-51 | the worker checks start, start+1, … in ascending order, one candidate per pass; it leaves its cursor at start + iterations when every check returns, and at the first stalled candidate otherwise |
| `Scheduler.BatchSizeAsWritten` | Source/Main.cpp:106 | the `uint64_t` product is below 2^64 and equals the exact product exactly when that product fits |
| `Scheduler.BatchSizeWraps` | Source/Main.cpp:106 | the counts 2 and 2^63, both in the range the count test accepts, give a batch size of 0 |
| `Scheduler.BatchSizeExactBelow32` | Source/Main.cpp:106 | the product is exact when both counts fit the 32-bit loop counters |
| `Scheduler.LaunchPasses32` | Source/Main.cpp:126 | the launch loop with a 32-bit `unsigned` counter that wraps modulo 2^32, compared with the 64-bit count: a pass count, never more than `fuel`, or `None`; line 46 has the same shape |
| `Scheduler.LaunchLoop32Exits` | Source/Main.cpp:126 | with a 32-bit counter, a thread count below 2^32 is reached after exactly that many passes |
| `Scheduler.LaunchLoop32NeverExits` | Source/Main.cpp:126 | with a 32-bit counter, a thread count of 2^32 or more is never reached, whatever the number of passes |
| `Scheduler.LaunchStarts` | Source/Main.cpp:124-132 | thread i (0 ≤ i < thread_count) is launched with batch_start + i·iterations_per_thread |
| `Scheduler.PartitionContiguous` | Source/Main.cpp:124-132 | the first sub-range starts at the batch start, each ends where the next begins, and the last ends at batch_start + batch_size |
| `Scheduler.PartitionDisjoint` | Source/Main.cpp:124-132 | for i < j, thread i's sub-range ends at or before thread j's starts: the sub-ranges are ascending and pairwise disjoint |
| `Scheduler.PartitionWithin` | Source/Main.cpp:124-132 | every sub-range lies inside [batch_start, batch_start + batch_size) |
| `Scheduler.PartitionCover` | Source/Main.cpp:124-132 | every candidate of the batch lies in the sub-range of thread (c − batch_start) / iterations_per_thread, which exists |
| `Scheduler.RunBatch` | Source/Main.cpp:119-137 | the threads receive exactly the launch values above, one per thread; the batch passes exactly when every candidate of [batch_start, batch_start + batch_size) reaches 1 |
| `Scheduler.CheckBatches` | Source/Main.cpp:102-145 | after k passed batches the frontier is start + k·batch_size; batch k is announced as start + k·B to start + (k+1)·B, one batch ahead of the frontier; every candidate below the frontier reaches 1; the loop stops early only at a batch with a candidate that does not |
| `Input.FindFirstNotOf` | Source/Main.cpp:66 | `npos` exactly when every character is in the set; otherwise the first position whose character is not |
| `Input.StrToULL` | Source/Main.cpp:65 | base-10 `strtoull` of a digit string, never more than `ULLONG_MAX` |
| `Input.StrToULLSaturates` | Source/Main.cpp:65 | `strtoull` of a numeral is its exact value when below 2^64 − 1 and `ULLONG_MAX` otherwise |
| `Input.ParseCount` | Source/Main.cpp:65-67 | an accepted count is strictly between 0 and `ULLONG_MAX` |
| `Input.ParseCountCorrect` | Source/Main.cpp:65-67 | a string is accepted exactly when it is all digits and its decimal value v satisfies 0 < v < 2^64 − 1, and then the count is v |
| `Input.ParseCountRejectsNonDigit` | Source/Main.cpp:66-67 | any character outside 0123456789 (a sign, a space) rejects the input |
| `Input.ParseCountRejectsBounds` | Source/Main.cpp:65-67 | the empty string, strings of zeros, "18446744073709551615" and larger values are rejected |
| `Input.InputExamples` | Source/Main.cpp:65-67 | "27" is accepted as 27; "", "0", "-5", " 5", "+5" are rejected; as start numbers "27" is accepted and "0" and "-5" are not |
| `Input.ParseCountTwoTo32` | Source/Main.cpp:65-67 | "4294967296" (2^32) is an accepted count |
| `Input.StartAccepted` | Source/Main.cpp:97-98 | a start number is accepted exactly when it is at least 1 |
| `Input.StartAcceptedDigits` | Source/Main.cpp:97-98 | a numeral is an accepted start number exactly when one of its digits is not '0' |
| `Input.StartAcceptedSigned` | Source/Main.cpp:97-98 | a numeral with an optional leading '-' is an accepted start number exactly when it has no '-' and a digit other than '0' |

## Findings

| source | as written | input that shows it | evidently intended | confidence | as-written member | corrected member |
|---|---|---|---|---|---|---|
| Source/Main.cpp:126 | `unsigned i` (32 bits) is compared with the 64-bit `thread_count`, so `i < thread_count` holds for every value of `i` once the count is 2^32 or more (where `unsigned long` is 64 bits wide, line 46 compares `unsigned i` with `iterations_per_thread` in the same way) | thread count "4294967296", which `get_int64` accepts | launch exactly `thread_count` threads, with a counter as wide as the count | not executed; the guard provably never fails | `Scheduler.LaunchLoop32NeverExits` | `Scheduler.RunBatch` |
| Source/Main.cpp:106 | `batch_size` is a `uint64_t` product and wraps modulo 2^64 | thread count "2", iterations per thread "9223372036854775808", start number "1": `batch_size` is 0, so the first batch is shown as "Trying 1 - 1" and the frontier would never advance | the exact product, as the `mpz_t` frontier arithmetic expects | not executed; the wrap is certain, but inputs this large are impractical | `Scheduler.BatchSizeWraps` | `Scheduler.CheckBatches` |

The model uses the corrected forms throughout. Counters are natural numbers and
the batch size is the exact product.

## Left out

- Console I/O: the prompts, `getline`, the "Invalid input." retry loop of `get_int64` and every line printed. Announced batch ranges are returned as `Trial` values instead.
- Wall-clock timing with `std::chrono`: the elapsed time of a batch is not modelled.
- Thread creation and `join`: workers run one after another, each on the start value it was launched with. The data race on the shared `thread_start_number`, and its `mpz_clear` before the joins, are not modelled.
- GMP internals: `mpz_t` values are natural numbers. `mpz_init`, `mpz_clear` and the `hardware_concurrency` recommendation are left out.
- Start-number parsing by `mpz_init_set_str` (whitespace, signs, invalid strings, the ignored return code): the test is stated on the parsed value, with lemmas for digit strings and for digit strings with a leading '-'.
- `strtoull` is modelled only on strings of digits. On other strings its handling of whitespace, signs and trailing text does not matter, because the digit test already rejects them.
- CheckConjecture: the loop is cut off after `fuel` passes. A candidate that has not reached 1 by then is reported as not reached, where the source loops forever. Termination for every candidate is the open conjecture.
- ThreadProcedure: a stalled candidate ends the worker, which stands for the thread that never returns.
- CheckBatches: runs at most `batches` batches. The source loops forever.
- The fixed-width counters and the wrapping `batch_size` are modelled only in `LaunchPasses32` and `BatchSizeAsWritten` (see Findings). The other members use exact arithmetic.
- `unsigned long` is taken to be 64 bits wide. `thread_procedure` receives `iterations_per_thread` as an `unsigned long` (line 44), and `mpz_add_ui` takes its addend as one (lines 116, 131, 144). Where `unsigned long` is 32 bits wide, those values are truncated modulo 2^32: with 2 threads of 2^31 iterations the frontier advances by 0 after a batch, and the loop on line 46 then ends. This truncation is not modelled.
- The regression trace for 27 (111 passes) and the empirical run over 1 ≤ n < 10^7 are not stated. Only the power-of-two family is proved for concrete inputs.
