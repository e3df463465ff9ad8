# afl-showmap, modelled in Dafny

afl-showmap runs an instrumented target once and prints the coverage tuples
the target recorded. It gives the target a shared-memory bitmap of
`MAP_SIZE` hit counters (`MAP_SIZE = 1 << 14`), then starts it under a fork
server and exchanges 4-byte messages with it over the fork-server pipes.
When the target has finished, afl-showmap processes the bitmap in three
steps:

- it counts the set bits of the map, and an empty map is fatal;
- it buckets every hit counter into a power-of-two marker;
- it lists every non-zero counter as an `index/value` line, in ascending
  index order.

This project models that post-run processing and the decision rule of the
handshake. The modules are:

- `Config`: the constants of config.h (`MAP_SIZE`, `FORKSRV_FD`), the byte
  type and the 32-bit integer ranges.
- `Classify`: `classify_counts`.
  - `ClassifyCount` is the per-counter switch.
  - `BUCKETS` and `LookupBucket` are the same mapping as an ordered range
    table.
  - `ClassifyMap` buckets a whole map.
  - `ClassifyCounts` is the in-place loop over an array.
- `Swar`: the popcount inside `count_bits`.
  - `PopCount` is a reference bit count on integers.
  - `SwarPopCount` is the branch-free 32-bit expression of the source.
  - The proof that they agree goes byte lane by byte lane.
- `BitCount`: `count_bits` as a loop over `MAP_SIZE / 4` words. The loop
  keeps a 32-bit accumulator and is specified by `TotalBits`, the number of
  set bits of a byte sequence.
- `TupleList`: `show_tuples`.
  - `Tuples` is the list of `(index, value)` entries for the non-zero
    counters.
  - `ListTuples` and `ShowTuples` are the loop and the
    classify-then-list operation.
- `ForkServer`: the accept/reject rule of `run_target`. Its inputs are what
  the "go" write returned and the replies the status pipe delivered.
- `ShowMap`: the order of the steps in `main`.
  - `Showmap` is the outcome as a function.
  - `RunShowmap` is the method that runs the steps against the array and is
    proved equal to that function.
  - Lemmas state the two fatal conditions, the shape of a successful report,
    and the end-to-end runs.

`count_bits` counts set bits, not non-zero counters.
`ShowMap.BitsBetweenEntries` shows that the bit count lies between the
number of listed tuples and eight times that number, so the zero test at
line 256 gives the same answer either way.

## Model

| member | source | states |
|---|---|---|
| Classify.ClassifyCount | afl-showmap.c:62-69 | the bucketed counter is one of 0,1,2,4,8,16,32,64,128, and it is zero exactly when the raw counter is zero |
| Classify.ClassifyMatchesTable | afl-showmap.c:62-69 | the switch agrees, on all 256 values, with the ordered table 3→4, 4-7→8, 8-15→16, 16-31→32, 32-127→64, 128-255→128, any other value kept |
| Classify.LookupBucket | afl-showmap.c:62-69 | no contract; the switch as an ordered table `BUCKETS` of (lo, hi, marker) ranges, first match wins, a count in no range kept; tied to the switch by ClassifyMatchesTable |
| Classify.ClassifyKeepsSmallCounts | afl-showmap.c:62-69 | counts 0, 1 and 2 match no case and are left unchanged |
| Classify.ClassifyMonotone | afl-showmap.c:63-68 | a ≤ b implies class(a) ≤ class(b) |
| Classify.ClassifyTwiceIff | afl-showmap.c:63-68 | bucketing twice equals bucketing once exactly for 0..2 and 32..255, so bucketing is not idempotent (4→8→16) |
| Classify.ClassifyMap | afl-showmap.c:56-75 | bucketing a map keeps its length |
| Classify.ClassifyMapAt | afl-showmap.c:58-73 | counter k of the bucketed map is the bucket of raw counter k alone |
| Classify.ClassifyMapBuckets | afl-showmap.c:62-69 | after bucketing every counter is a bucket value, and exactly the raw zero counters are zero, so the set of non-zero indices is kept |
| Classify.ClassifyCounts | afl-showmap.c:56-75 | the first MAP_SIZE counters are bucketed in place, each from its own old value, and every counter past MAP_SIZE is unchanged |
| Swar.MapSizeIsPow2 | config.h:186-187 | MAP_SIZE is 2 to the power MAP_SIZE_POW2, a whole number of 32-bit words |
| Swar.Word | afl-showmap.c:101-107 | no contract; the u32 word that four consecutive counters form when read through the `u32*` pointer, lowest byte first; its bytes are recovered by WordLanes |
| Swar.NibbleStage | afl-showmap.c:109-111 | no contract; the first two SWAR steps and the masked nibble fold; each byte lane is the lane count, by SwarLane0-3 and SwarByteSums |
| Swar.GatherTop | afl-showmap.c:111 | no contract; the multiply by 0x1010101 and shift by 24; on lane counts of at most 8 it yields their sum, by GatherLanes |
| Swar.SwarPopCount | afl-showmap.c:109-111 | no contract; the whole per-word expression added to `ret`; specified by SwarLaneSum, SwarWord and SwarIsPopCount |
| Swar.PopCountConcat | afl-showmap.c:101-111 | putting b above the k low bits of a adds the set bits of a and b, so the count of a word is the sum over its parts |
| Swar.BytesPopCount | afl-showmap.c:101-107 | a 32-bit number built from four bytes has as many set bits as the four bytes together |
| Swar.LaneSwarIsPopCount | afl-showmap.c:109-111 | the three SWAR steps on one byte lane (pair sums, nibble sums, byte sum) give the number of set bits of that byte |
| Swar.SwarLaneSum | afl-showmap.c:109-111 | no carry crosses a lane boundary: the 32-bit expression equals the sum of its four lane counts, each at most 8 |
| Swar.SumOfFour | afl-showmap.c:111 | four lane counts of at most 8 add up in a byte without wrapping |
| Swar.SwarWord | afl-showmap.c:107-111 | on any word, the SWAR expression is the total set-bit count of the word's four bytes |
| Swar.SwarIsPopCount | afl-showmap.c:107-111 | on the word read from four counters, the SWAR expression equals the population count of the word's value |
| Swar.SwarByteOrderIrrelevant | afl-showmap.c:101-107 | reading the four bytes of a word in the opposite order gives the same count, so the result does not depend on byte order |
| BitCount.TotalBits | afl-showmap.c:97-117 | no contract; the number of set bits of a byte sequence, the value count_bits promises; specified by TotalBitsAppend, TotalBitsBound and TotalBitsZeroIff |
| BitCount.TotalBitsAppend | afl-showmap.c:105-113 | the set bits of a concatenation are the sum over its parts |
| BitCount.TotalBitsBound | afl-showmap.c:103-111 | a byte sequence holds at most 8 set bits per byte, so a MAP_SIZE map holds at most 131072 |
| BitCount.TotalBitsZeroIff | afl-showmap.c:256 | the bit count is zero exactly when every counter is zero |
| BitCount.WordPopCount | afl-showmap.c:107-111 | one loop iteration: the SWAR value of the word at p is the number of set bits of its four counters |
| BitCount.WordStep | afl-showmap.c:105-111 | adding word p extends the counted prefix by four counters, and the total after p+1 words is at most 32(p+1) |
| BitCount.CountBits | afl-showmap.c:99-117 | walking MAP_SIZE/4 words with a 32-bit accumulator returns the number of set bits of the whole map, and the accumulator never wraps |
| TupleList.Tuples | afl-showmap.c:86-92 | no contract; the (index, value) lines for the non-zero counters; specified by TuplesSound, TuplesSorted and TuplesComplete |
| TupleList.TuplesSound | afl-showmap.c:86-92 | every listed entry names an index below the map length, carries the counter stored there, and that counter is non-zero |
| TupleList.TuplesSorted | afl-showmap.c:86-92 | entries are in strictly ascending index order, so no index appears twice |
| TupleList.TuplesComplete | afl-showmap.c:86-92 | every non-zero counter is listed with its value |
| TupleList.TuplesEmptyIff | afl-showmap.c:88 | nothing is listed exactly when every counter is zero |
| TupleList.TuplesZeroSuffix | afl-showmap.c:86-92 | trailing zero counters add no entries |
| TupleList.ClassifyPrefix | afl-showmap.c:58-73 | bucketing a prefix of the map gives the prefix of the bucketed map |
| TupleList.TuplesOfClassified | afl-showmap.c:84-92 | the entries listed after bucketing are those of the raw map with their values bucketed |
| TupleList.ListTuples | afl-showmap.c:86-92 | the loop returns exactly the entries of the non-zero counters of the map, in index order |
| TupleList.ShowTuples | afl-showmap.c:79-94 | the map is bucketed in place, and the entries listed are those of the bucketed map |
| ForkServer.RunTarget | afl-showmap.c:201-213 | the check stops after at most three status reads |
| ForkServer.RunTargetAccepts | afl-showmap.c:201-213 | the run is accepted exactly when the go write and the three reads each moved 4 bytes and the pid is positive; the pid is then the second message and the status the third |
| ForkServer.RunTargetPositivePid | afl-showmap.c:207-208 | an accepted run has a positive child pid and has performed all three reads |
| ForkServer.RunTargetStopsAtFailure | afl-showmap.c:201-209 | no read happens when the go write failed, and every read before the last one performed was complete (short-circuit order) |
| ForkServer.ShortExchangeRejected | afl-showmap.c:207-213 | a fork server that sends fewer than three messages is rejected |
| ForkServer.HelloValueIgnored | afl-showmap.c:207 | the content of the "hi mom" message does not affect the outcome |
| ForkServer.LaterRepliesIgnored | afl-showmap.c:207-209 | messages after the third are never read |
| ShowMap.Showmap | afl-showmap.c:251-262 | no contract; the outcome of main: handshake verdict first, then the zero test on the raw map, then the tuples of the bucketed map; specified by DetectedIff, NoDataIff and SuccessReport |
| ShowMap.RunShowmap | afl-showmap.c:251-262 | the method's result equals the outcome function. The map is left as it was on either fatal path and is bucketed only on success. It is counted on its raw contents before bucketing |
| ShowMap.DetectedIff | afl-showmap.c:201-213 | "no instrumentation detected" is the outcome exactly when the handshake was incomplete, independent of the map |
| ShowMap.NoDataIff | afl-showmap.c:256 | after an accepted handshake, "no instrumentation data found" is the outcome exactly when every counter is zero |
| ShowMap.VerdictIndependentOfBucketing | afl-showmap.c:256-260 | counting before bucketing, as main does, gives the same zero verdict as counting after |
| ShowMap.SuccessReport | afl-showmap.c:256-260 | a successful run lists at least one tuple, in strictly ascending index order. Each tuple carries the bucketed non-zero counter at its index, and every non-zero counter is listed |
| ShowMap.StatusDoesNotAffectTuples | afl-showmap.c:207-216 | the reported wait status (a signal, say) changes neither success nor the listed tuples |
| ShowMap.BitsBetweenEntries | afl-showmap.c:99-117 | the bit count lies between the number of listed entries and eight times that number |
| ShowMap.ScenarioSingleHit | afl-showmap.c:251-262 | a map with 1 at index 42 reports exactly the tuple (42, 1) |
| ShowMap.ScenarioTwoHits | afl-showmap.c:251-262 | a map with 5 at index 0 and 200 at index 16383 reports (0, 8) then (16383, 128) |
| ShowMap.ScenarioNoStub | afl-showmap.c:207-213 | a target whose status pipe closes without a reply fails with "no instrumentation detected" |
| ShowMap.ScenarioEmptyMap | afl-showmap.c:256 | a completed handshake with an all-zero map fails with "no instrumentation data found" |

## Left out

- Process and IPC plumbing is not modelled:
  - the shared memory (`setup_shm`, `remove_shm`, `shmget`, `shmat`, `shmctl`, `atexit`, `setenv`);
  - the pipes and the child (`pipe`, `fork`, `dup2`, `execvp`, the `/dev/null` redirection, `getenv("AFL_SINK_OUTPUT")`).

  These are operating-system calls. The model receives their results as inputs instead:
  - the byte count of the "go" write;
  - the replies of the status pipe;
  - the map contents once the child has exited.
- Concurrency is left out. The child writes the map while it runs. The model sees only the map after the child has exited.
- The signal report through `WIFSIGNALED`/`WTERMSIG` is not decoded. These are libc macros. The wait status is carried into the report, and `ShowMap.StatusDoesNotAffectTuples` shows that it does not change the tuples.
- Output formatting is left out: `SAYF`, `FATAL`, the banners, colours and the `%05u/%u` line format (debug.h). A fatal condition is a `Failure` value, and the report is a sequence of `(index, value)` pairs. Process exit codes are not modelled.
- The usage text and the `argc < 2` exit are left out. They are command-line handling.
- `trace_bits` is a global pointer in the source. Here it is an array parameter. `count_bits` and `show_tuples` take a map of exactly `MAP_SIZE` counters. `classify_counts` accepts a longer array and touches only its first `MAP_SIZE` counters.
- BitCount.CountBits reads each 32-bit word little-endian. The source reads the word in native byte order. `Swar.SwarByteOrderIrrelevant` proves that the opposite byte order gives the same count.
- BitCount.WordPopCount computes the SWAR steps through the functions `Swar.NibbleStage` and `Swar.GatherTop`, which spell out lines 109-111. It does not use local variable updates.
- The `ret` accumulator of `count_bits` is modelled as an integer, with the 32-bit wrap written out (`% 2^32`). It is proved never to wrap (at most 131072).
- Swar.SwarIsPopCount: relates the SWAR value to `PopCount(WordValue(..))`, where `WordValue` is the little-endian value of the word by definition; that `Word(..) as int` equals `WordValue(..)` is not proved, because the solver does not settle 32-bit bit-vector to integer conversions within the resource limit. The count itself goes through the four byte counts and does not depend on this link.
- A fork server that stays alive without answering is not modelled. The reads at afl-showmap.c:207-209 then block forever, as there is no time-out; ForkServer.RunTarget is a total function over a finite list of replies and cannot represent that hang.
- `written != 4` stands only for a "go" write that returns. The source installs no SIGPIPE handler, so a write after the target has exited kills afl-showmap by SIGPIPE before the fatal message at line 202, and the `atexit` cleanup of the shared memory does not run; that termination is not modelled.
- ForkServer.RunTarget:
  - It models a reply the pipe never delivers as a read that returns 0 (end of file).
  - A failed read's partial effect on `status` or `child_pid` is not modelled, because a failed read is always fatal.
  - It returns the third message as the status. The "hi mom" message, which the source also reads into `status`, is overwritten and never used.
