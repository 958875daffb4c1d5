# cdsp_peak, verified

`cdsp_peak` measures a Hexagon compute DSP from a host over FastRPC: null calls, HVX compute kernels,
HMX tile kernels and memory bandwidth. This project models the logic under the remote calls and
proves what a printed row can be trusted for.

- `Words`, `Checksum`, `Vectors`: 64-bit FNV-style folds with their wrap-around written out, and the
  128-byte vector as 32 wrapping words. Every fold step is a bijection of the state, which gives
  exact error-detection theorems for buffers of any length.
- `XorBits`, `StateParts`, `VectorShifts`, `BlindSpots`: what the checksum of the eight accumulators
  cannot see, exactly. The first two follow single bits of a state through exclusive or and the
  product with the prime; the third shows that no fixed amount added to every vector leaves its
  checksum, or even the change of it, the same.
- `ComputeKernels`, `MemKernels`: the int8 kernels, the kernel switch, and the read, write and copy
  benchmarks, as loops over arrays proved against closed forms.
- `StrideFactors`, `CopyVerify`: the sampling copy verifier. The number of different positions it
  probes is computed exactly for every length, and with it exactly what it can miss. That the stride
  has no divisor from 2 to 4096 is proved through the order of one number modulo such a divisor.
- `HmxResource`, `HmxBench`: staged acquisition of the HMX resource against a ledger of what the
  runtime holds, the layout of the tightly coupled memory, and every exit of one HMX call.
- `ForkJoin`, `Measure`: worker threads on private slots under an arbitrary scheduler, and the rounds
  built on them.
- `RoundRows`: for every kind of round, exactly when it is reported and what its row then shows, in terms
  of what the outside world answered each worker.
- `Results`, `ScenarioFilter`, `Scheduler`: options, the comma-separated filter, the adaptive doubling
  loops, group runs and the dispatch of the compute table.
- `Benchmark`, `HmxHost`: whole runs, in which all of the above meet: where every row printed comes
  from, and what every error was caused by.
- `Lifecycle`: acquisition and cleanup of everything `main` owns, from every failure point, and the order
  in which the device is asked for anything.
- `Power`, `Clock`: the power-vote ladder with the host that asks for it, and the Windows clock.

Machine integers are bounded naturals with the modulus written out. What the model cannot see is an
input that ranges over every possibility: the answer of each foreign call, the readings of clocks and
cycle counters, the scheduler's choices, the accumulators of the floating-point kernels, what a
transfer does to the bytes it carries, and what the tile instructions leave in the output region, as a
function of the inputs they find staged.

## Results worth knowing

- A change of a single byte, and also any change confined to two adjacent bytes, always changes the
  checksum of an HMX output. `checksum_accumulators` is weaker. Accumulators 1, 2, 4 and 6 are seen
  only through the total of all eight: changes of them whose effect on the total is confined to one
  word are noticed if and only if the total changes, so an amount moved between any two of them never
  is. A sampled accumulator (0, 3, 5 or 7) is no safer: its own checksum is mixed in by exclusive or
  and can cancel that of the total. It may hold anything without being noticed if and only if the
  other seven sum to zero in every lane.
- The copy verifier probes exactly `min(4096, bytes / gcd(bytes, 2654435761))` positions, and decides
  equality if and only if there are at most 4096 bytes. For every length the host sends 4096
  positions are probed, so a copy reported as good has at most `bytes - 4096` wrong bytes; that bound
  is attained.
- Every row printed is that of a round measured in the same run, with the kernel and the count of its own
  scenario, after rounds that succeeded and were too short; a run stops with an error only if something
  outside failed in its last round, and the error is that failure's own.
- A byte sum of `checksum_bytes` changes with a byte exactly as often as the byte is counted: once if its
  position is a multiple of 4096, and once if it is the last. All other bytes are invisible to it.
- The two int8 rows of a run always agree in checksum and count, whatever the timings, the number of
  threads and their schedule.
- In 32-bit address arithmetic the room check of the HMX call is right if and only if both of its
  sums wrap or neither does. A block of the size asked for always has room, and yet is refused if and
  only if it ends exactly at the end of the address space. A smaller block that the check lets
  through without room exists, near that end.
- A group whose enabled members have no positive start count is skipped without a row and without an
  error. The host's own table has no such group.
- `--size-mib` multiplied by 2^20 wraps to a zero length exactly for multiples of 2^44.
- The Windows clock is exact for every counter value if and only if the frequency is at most
  9223372037.
- The last element of the scenario filter is never compared when it is empty.

## Model

| member | source | states |
|---|---|---|
| Checksum.StepBijective | dsp/cdsp_peak_hmx.c:118-128 | a fold step (xor, multiply by the prime modulo 2^64) is undone by the explicit inverse step, both ways round |
| Words.XorBitAt | dsp/cdsp_peak_imp.c:75 | the exclusive or of the model is set in exactly the bits where one of the two numbers is |
| Checksum.StepInjectiveInElement | dsp/cdsp_peak_hmx.c:122-125 | from one state, different elements lead to different states |
| Checksum.FoldBijective | dsp/cdsp_peak_imp.c:68-80 | for fixed data of any length the whole fold is a bijection of the 64-bit state |
| Checksum.FoldWindow | dsp/cdsp_peak_hmx.c:118-128 | sequences that agree outside a window have equal checksums iff the folds over the window agree |
| Checksum.SingleElementDetected | host/cdsp_peak.c:200-205 | a change confined to one element is detected, at any place of a sequence of any length, from any start |
| Checksum.PrimeSpreads | dsp/cdsp_peak_hmx.c:124 | multiplying by the prime moves any difference in the low byte above the low byte |
| Checksum.AdjacentLowBytesDetected | dsp/cdsp_peak_hmx.c:122-125 | two adjacent elements altered in their low bytes only always change the fold |
| Checksum.ChecksumHmxOutput | dsp/cdsp_peak_hmx.c:118-128 | the loop computes the fold of the bytes tagged with their index; a negative length reads nothing |
| Checksum.ByteElementParts | dsp/cdsp_peak_hmx.c:123 | the element mixed in has the byte in its low word and the index in its high word |
| Checksum.HmxSingleByteDetected | dsp/cdsp_peak_hmx.c:118-128 | outputs that differ at most in byte k have equal checksums iff they are equal |
| Checksum.HmxAdjacentBytesDetected | dsp/cdsp_peak_hmx.c:118-128 | any corruption confined to two adjacent bytes is detected |
| Checksum.ThreadsChecksumSnoc | host/cdsp_peak.c:200-205 | mixing in one more thread extends the fold by one step; no thread gives the offset basis |
| Checksum.ThreadElementByIndex | host/cdsp_peak.c:202 | with thread index 4q + r the element is the value plus the constant plus 257q + 64r, modulo 2^64 |
| Checksum.ThreadChecksumDetected | host/cdsp_peak.c:200-205 | rows whose thread checksums differ at most at one thread are equal iff that thread agrees |
| Vectors.BytesOfWord | dsp/cdsp_peak_imp.c:60-63 | the four bytes of a word are read back little-endian |
| Vectors.AccumulationForms | dsp/cdsp_peak_imp.c:326-335 | a fused multiply-accumulate, and a multiply followed by an add, both turn n times the dot product into n+1 times, modulo 2^32 |
| Vectors.FormsAgree | README.md:15-16 | any number of fused multiply-accumulates, and of multiplies each followed by an add, lead from any accumulator and any operands to the same vector |
| Vectors.ChecksumVector | dsp/cdsp_peak_imp.c:68-80 | the loop over the 32 words computes the fold of the words tagged with their index |
| Vectors.WordElementParts | dsp/cdsp_peak_imp.c:75 | the element mixed in has the word in its low half and the lane in its high half |
| Vectors.VectorSingleWordDetected | dsp/cdsp_peak_imp.c:68-80 | vectors that differ at most in one 32-bit word have equal checksums iff they are equal |
| Vectors.TreeIsTotal | dsp/cdsp_peak_imp.c:82-97 | the tree of pairwise wrapping adds is the wrapping sum of all eight accumulators |
| Vectors.UnsampledWordDetected | dsp/cdsp_peak_imp.c:82-97 | a change of one word of one of accumulators 1, 2, 4 and 6 is detected |
| BlindSpots.OnlyTotalSeen | dsp/cdsp_peak_imp.c:82-97 | accumulators that agree on 0, 3, 5 and 7 have equal checksums iff their totals have |
| BlindSpots.UnsampledChangeDetected | dsp/cdsp_peak_imp.c:82-97 | if moreover the totals differ in one word at most, the checksums are equal iff the totals are |
| BlindSpots.TransferUndetectedIff | dsp/cdsp_peak_imp.c:82-97 | replacing any two of accumulators 1, 2, 4 and 6 by others whose sum differs in one word at most goes unnoticed iff the sum is the same |
| BlindSpots.TransferWitness | dsp/cdsp_peak_imp.c:82-97 | one unit moved from accumulator 1 to accumulator 6 goes unnoticed |
| BlindSpots.SampledChange | dsp/cdsp_peak_imp.c:82-97 | a change of a sampled accumulator goes unnoticed iff it changes its own checksum and that of the total by the same mask |
| BlindSpots.SampledUnnoticedIff | dsp/cdsp_peak_imp.c:82-97 | whatever a sampled accumulator is changed to goes unnoticed iff the other seven sum to zero in every lane |
| BlindSpots.SampledWitness | dsp/cdsp_peak_imp.c:82-97 | accumulator 0 changed from zero to one in every lane, all others zero, goes unnoticed |
| XorBits.XorJoin | dsp/cdsp_peak_imp.c:75-76 | exclusive or works on the high and the low part separately, wherever two numbers are split |
| XorBits.MaskVaries | dsp/cdsp_peak_imp.c:75-76 | the mask between two different upper halves of a product is not the same for all carries from below |
| StateParts.NoUniformFlip | dsp/cdsp_peak_imp.c:68-80 | whatever the states before a lane and the amount added to it, for some word the states after it differ in more than bit 31 |
| VectorShifts.UnnoticedShift | dsp/cdsp_peak_imp.c:68-80 | only the zero vector can be added to every vector without changing its checksum |
| VectorShifts.ConstantMask | dsp/cdsp_peak_imp.c:68-80 | only the zero vector can be added to every vector with the same change of the checksum |
| ComputeKernels.FixedDots | dsp/cdsp_peak_imp.c:299-322 | the fixed operands of accumulator k have the dot product (k+1)(16k+10) |
| ComputeKernels.Int8Lanes | dsp/cdsp_peak_imp.c:299-322 | the closed form in numbers: n iterations leave n times (k+1) times the sum of 4k+1 to 4k+4 in every lane of accumulator k, modulo 2^32 |
| ComputeKernels.VectorUnit.ChecksumAccumulators | dsp/cdsp_peak_imp.c:82-97 | the sink becomes the total and the result is the checksum of the total mixed with accumulators 0, 3, 5 and 7 |
| ComputeKernels.VectorUnit.RunInt8FixedKernel | dsp/cdsp_peak_imp.c:297-342 | after n iterations every lane of accumulator k holds n times its dot product modulo 2^32, and the checksum is that closed form's |
| ComputeKernels.VectorUnit.RunInt8AddFixedKernel | dsp/cdsp_peak_imp.c:344-403 | the multiply-then-add kernel ends in the very same closed form |
| ComputeKernels.VectorUnit.BenchCompute | dsp/cdsp_peak_imp.c:445-477 | a count that is not positive or an unknown kernel is refused without touching the sink; otherwise the kernel's closed form is reported |
| MemKernels.StoreAfterLoad | dsp/cdsp_peak_imp.c:557-558 | storing a loaded vector gives back its bytes |
| MemKernels.StoreVector | dsp/cdsp_peak_imp.c:523 | a vector store writes its 128 bytes and no other |
| MemKernels.BenchMemRead | dsp/cdsp_peak_imp.c:479-504 | success iff there is a whole vector and a positive count; then the sink is repeats times the sum of the whole vectors modulo 2^32, and the checksum is that of the sink |
| MemKernels.StreamStarts | dsp/cdsp_peak_imp.c:491-497 | no repeats, or no vectors, sum to zero |
| MemKernels.StreamRepeats | dsp/cdsp_peak_imp.c:491-497 | one more repeat adds the sum of one pass |
| MemKernels.StreamGrows | dsp/cdsp_peak_imp.c:491-497 | one more vector adds itself to the sum of one pass |
| MemKernels.SamplingIndexFits | dsp/cdsp_peak_imp.c:405-416 | the sampling index stays in the int range iff the length is at most 0x7ffff000 |
| MemKernels.ChecksumBytes | dsp/cdsp_peak_imp.c:405-416 | the sum of one byte every 4096 plus the last byte, zero for a length that is not positive |
| MemKernels.ByteChecksumSees | dsp/cdsp_peak_imp.c:405-416 | a changed byte changes the sum by the difference, once if its position is a multiple of 4096 and once if it is the last |
| MemKernels.ZeroSamples | dsp/cdsp_peak_imp.c:405-416 | a buffer of zeros sums to zero |
| MemKernels.FillPass | dsp/cdsp_peak_imp.c:522-523 | one pass fills exactly the whole vectors with the word and leaves the tail as it was |
| MemKernels.WriteWordSteps | dsp/cdsp_peak_imp.c:524 | stepping the value advances pass r's word to pass r+1's |
| MemKernels.BenchMemWrite | dsp/cdsp_peak_imp.c:506-532 | success iff there is a whole vector and a positive count; then every whole vector holds 0x5a5a5a5a plus repeats-1 times 0x01010101, least significant byte first, the tail is unchanged, and the checksum is of that content; a refusal leaves the buffer alone |
| MemKernels.WriteChecksumClosedForm | dsp/cdsp_peak_imp.c:405-416 | over whole vectors a write's checksum is ceil(len/4096) times the low byte of the last word plus its high byte, whatever the buffer held |
| MemKernels.CopyPass | dsp/cdsp_peak_imp.c:556-560 | one pass copies exactly the whole vectors and adds each to the accumulator |
| MemKernels.BenchMemCopy | dsp/cdsp_peak_imp.c:534-569 | for buffers of any lengths: success iff both hold a whole vector and the count is positive; then the bytes of the common whole vectors are those of the source, all others are unchanged, and the checksum is that of the sink plus the sampled sum of the bytes copied |
| MemKernels.CopyIsExact | dsp/cdsp_peak_imp.c:534-569 | over equally long buffers of whole vectors the destination ends equal to the source |
| CopyVerify.VerifyCopy | host/cdsp_peak.c:1042-1052 | zero iff the bytes at i * 2654435761 modulo the length agree for all i below 4096 and the length, else -1; the index product does not wrap |
| CopyVerify.ProbesMeet | host/cdsp_peak.c:1047 | probes i and j hit the same position iff i - j is a multiple of bytes / gcd(bytes, stride) |
| CopyVerify.ProbeSetSize | host/cdsp_peak.c:1042-1052 | exactly min(4096, bytes / gcd(bytes, stride)) different positions are compared, all inside the buffer |
| CopyVerify.EqualBuffersPass | host/cdsp_peak.c:1042-1052 | equal buffers never fail |
| CopyVerify.ManyMismatchesRejected | host/cdsp_peak.c:1042-1052 | more mismatches than unprobed positions always fail |
| CopyVerify.UndetectedIff | host/cdsp_peak.c:1042-1052 | some pair of buffers with k mismatches passes iff at least k positions are unprobed |
| StrideFactors.NoSmallDivisor | host/cdsp_peak.c:1047 | the stride has no divisor from 2 to 4096 |
| CopyVerify.CoprimeProbes | host/cdsp_peak.c:1042-1052 | at lengths prime to the stride no two probes meet |
| CopyVerify.DecidesEqualityIff | host/cdsp_peak.c:1042-1052 | the verifier decides equality of all buffers of a length iff the length is at most 4096 |
| CopyVerify.HostSizesProbeFully | host/cdsp_peak.c:1284-1289 | for multiples of 4096 all 4096 probes are different |
| HmxResource.HmxErrorDecodes | dsp/cdsp_peak_hmx.c:36-38 | a stage error is neither success nor unsupported and reveals its stage and the low byte of its cause |
| HmxResource.AcquireResultUnique | dsp/cdsp_peak_hmx.c:155-227 | the answers of the runtime determine one error code |
| HmxResource.AcquireResultIs | dsp/cdsp_peak_hmx.c:155-227 | which code: the stages in their order, each with the answers it depends on |
| HmxResource.ResourceManager.Release | dsp/cdsp_peak_hmx.c:229-238 | a context may be given back only once its lock and its cached hold are gone |
| HmxResource.Resource.PrepareRequest | dsp/cdsp_peak_hmx.c:165-190 | the stages before the grant, in order, hold nothing and fail with the first failing stage |
| HmxResource.Resource.TakeStages | dsp/cdsp_peak_hmx.c:196-226 | a failure after the grant gives back exactly what was taken, in the legal order, and clears the record |
| HmxResource.Resource.AcquireAll | dsp/cdsp_peak_hmx.c:155-227 | success iff every stage succeeds, else the first failing stage's error; failure leaves the manager as it was, success adds one context cached and locked exactly as asked |
| HmxResource.Resource.ReleaseAll | dsp/cdsp_peak_hmx.c:229-238 | unlock, release cached, release; the context is gone from every ledger and the record cleared |
| HmxBench.MaskClearsRemainder | dsp/cdsp_peak_hmx.c:135-138 | the masking idiom clears exactly the remainder |
| HmxBench.AlignUpBounds | dsp/cdsp_peak_hmx.c:135-138 | without wrap-around the result is the least multiple not below the value |
| HmxBench.RoomCheckExact | dsp/cdsp_peak_hmx.c:663-668 | for any block the 32-bit check refuses exactly when there is no room iff both of its sums leave the address space or neither does |
| HmxBench.RoomCheckWitness | dsp/cdsp_peak_hmx.c:663-668 | a block too small for the mode that the check lets through |
| HmxBench.OverlookedIff | dsp/cdsp_peak_hmx.c:663-668 | a block inside the address space is let through without room iff the required end leaves the address space and its own end does not |
| HmxBench.RequiredResidue | dsp/cdsp_peak_hmx.c:639-641 | every measuring mode needs 384 bytes modulo 1024 |
| HmxBench.RequiredByMode | dsp/cdsp_peak_hmx.c:639-641 | the bytes required, by mode number |
| HmxBench.ModeTakes | dsp/cdsp_peak_hmx.c:577-622 | by mode number: which modes exist, which only probe, and which take the cached hold and the lock |
| HmxBench.GrantedRequestRefusedIff | dsp/cdsp_peak_hmx.c:663-668 | a block of the requested size has room at every address, and is refused iff it ends exactly at 2^32 |
| HmxBench.LayoutFits | dsp/cdsp_peak_hmx.c:670-674 | the five regions are 128-aligned, follow each other without overlap and stay inside the block with 128 bytes to spare |
| HmxBench.InitFp16Scales | dsp/cdsp_peak_hmx.c:344-351 | the bias region holds half-precision ones in its first 128 bytes and zero after, and nothing else changes |
| HmxBench.Stage | dsp/cdsp_peak_hmx.c:676-683 | all five regions end with their contents, no staging step overwrites another, and the rest of the block is untouched |
| HmxBench.RunTiles | dsp/cdsp_peak_hmx.c:689-750 | every repeat sees the staged inputs, and the output region ends with what the last repeat left |
| HmxBench.Measure | dsp/cdsp_peak_hmx.c:670-758 | on an architecture with the tile the output is what the last repeat leaves for the inputs the caller gave, and the checksum is of it; otherwise unsupported with a cleared output |
| HmxBench.Refusals | dsp/cdsp_peak_hmx.c:609-622 | if only the cached hold or the lock is refused, exactly the modes that take it fail, at stage 6 or 8 |
| HmxBench.ProbeWords | dsp/cdsp_peak_hmx.c:647-661 | a probe writes the context, the size and two flags, which are 0 and 0, 1 and 0, 1 and 1 for modes 100, 101 and 102 |
| HmxBench.BenchHmxInt8 | dsp/cdsp_peak_hmx.c:549-759 | every exit, by mode number and architecture: error code, cycles, output bytes and checksum; the resource ledger is unchanged by any call |
| ForkJoin.StepInv | host/cdsp_peak.c:831-844 | every action of main or of a worker, in any order, keeps the invariant |
| ForkJoin.QuietWhenDone | host/cdsp_peak.c:842-864 | once main has joined, no worker can act any more and the state is the sequential one |
| ForkJoin.Progress | host/cdsp_peak.c:842-843 | before the end main or the worker it waits for can act |
| ForkJoin.StepDecreases | host/cdsp_peak.c:831-844 | every action brings the end nearer |
| ForkJoin.EveryScheduleAgrees | host/cdsp_peak.c:831-844 | every schedule is finite and ends with exactly the workers created before the first creation failure having run to their end, each as if alone, and joined |
| ForkJoin.RunThreads | host/cdsp_peak.c:831-844 | under an arbitrary scheduler the machine ends in that one state |
| ForkJoin.RunAlone | host/cdsp_peak.c:828-829 | a single worker runs inside main from its first action to its last |
| Measure.FirstFailing | host/cdsp_peak.c:851-855 | the lowest index that reports an error |
| Measure.MaxCyclesIsMaximum | host/cdsp_peak.c:856-857 | the cycles reported are an upper bound of all cycle counts that is attained, or zero |
| Measure.Collect | host/cdsp_peak.c:850-861 | the lowest failing index decides, else the maximum of the cycles and the index-ordered checksum |
| Measure.CountIsExact | host/cdsp_peak.c:846-846 | per-thread count times threads is exact in 64 bits for up to 256 threads |
| Measure.FailureIsVisible | host/cdsp_peak.c:804-866 | a failed round always returns a nonzero error |
| Measure.MeasureComputeThreads | host/cdsp_peak.c:804-866 | for every interleaving: missing memory first, then the first creation that failed, then the lowest worker that failed; otherwise the cycles of the slowest worker, the index-ordered mix of the checksums, and the time of the round |
| Measure.RpcFinishes | host/cdsp_peak.c:691-710 | a worker stops at its first failing call, else reports what its last call returned |
| Measure.MeasureRpcThreads | host/cdsp_peak.c:722-780 | the same for null calls, in which every worker makes many calls that interleave freely |
| Measure.MemFinishes | host/cdsp_peak.c:1066-1087 | a memory worker ends with the DSP's outcome, and a copy with the verifier's verdict |
| Measure.MeasureMemThreads | host/cdsp_peak.c:1089-1156 | the same for memory rounds, with the destination of every thread afterwards |
| Measure.FaithfulCopyAccepted | host/cdsp_peak.c:1078-1084 | a copy whose bytes all arrive is never rejected and leaves the source's bytes |
| Measure.ReportedCopyBound | host/cdsp_peak.c:1078-1084 | if a copy round is reported, no thread's destination differs in more positions than the verifier leaves unprobed, whatever the transfers did |
| RoundRows.ComputeRoundRow | host/cdsp_peak.c:804-866 | a compute round is reported iff its memory and threads are there, the count and the kernel are valid and every call succeeds; then the row shows the slowest cycles and each worker's own checksum, fixed by the count for int8; otherwise the error is the first of the memory's, the creations' or the workers' |
| RoundRows.RpcRoundRow | host/cdsp_peak.c:691-780 | a null-call round is reported iff every call of every worker returns; then each worker shows the exclusive or of what its last call returned; otherwise the error is that of the first call that did not, of the lowest such worker |
| RoundRows.ReadRoundRow | host/cdsp_peak.c:1070-1073 | a read round is reported iff nothing outside fails; then each worker shows the checksum of repeats times the sum of its source's vectors, and no destination is written |
| RoundRows.WriteRoundRow | host/cdsp_peak.c:1074-1077 | a write round is reported iff nothing outside fails; then its checksum depends on the length and the repeats alone, and every destination becomes what the transfer makes of the last pass's pattern |
| RoundRows.CopyRoundRow | host/cdsp_peak.c:1078-1084 | a copy round is reported iff nothing outside fails and every probed byte arrives, which is the worker's own error otherwise; then its checksum is fixed by the sources, and every destination becomes what the transfer makes of its source |
| RoundRows.MemRoundRow | host/cdsp_peak.c:1089-1156 | the three in one statement, for use over whole runs |
| Results.ResolveThreadCount | host/cdsp_peak.c:611-622 | always between 1 and 256: the request clamped, or the preferred capability, with one for a missing one and for one that turns negative as int |
| Results.EscalationBounded | host/cdsp_peak.c:885-897 | doubling below a cap from a positive start stays below twice the cap |
| Results.EscalationFromOne | host/cdsp_peak.c:784-796 | from one, below 2^n, there are at most n doublings and nothing beyond 2^n is tried |
| ScenarioFilter.ListedMeansElement | host/cdsp_peak.c:624-644 | what the scan finds is membership in the comma split, except for an empty last element |
| ScenarioFilter.Scan | host/cdsp_peak.c:632-641 | the moving cursor finds exactly the listed names |
| ScenarioFilter.ScenarioEnabled | host/cdsp_peak.c:624-644 | true iff the filter is "all" or the name is selected by it |
| ScenarioFilter.SplitJoin | host/cdsp_peak.c:632-641 | splitting undoes joining of comma-free names |
| ScenarioFilter.JoinSplit | host/cdsp_peak.c:632-641 | joining undoes splitting of any filter |
| ScenarioFilter.JoinedFilterSelects | host/cdsp_peak.c:624-644 | a filter joined from plain names selects exactly those names, or everything if it is the single name "all" |
| Scheduler.GroupStartIsMaximum | host/cdsp_peak.c:903-920 | a group starts from the user's count, or without one from the largest start of its enabled members |
| Scheduler.ComputeRounds | host/cdsp_peak.c:885-897 | no compute round tries more than 0x60000000 after a doubling |
| Scheduler.RpcRounds | host/cdsp_peak.c:784-796 | at most 24 doublings and at most 2^24 calls |
| Scheduler.MemRounds | host/cdsp_peak.c:1166-1177 | at most 25 doublings and at most 2^25 repeats |
| Scheduler.EachReportedOnce | host/cdsp_peak.c:1420-1441 | for any table, filter and groups a run without errors reports every reportable scenario once and nothing else |
| Scheduler.AllEnabledReportedIff | host/cdsp_peak.c:903-933 | every enabled scenario is reported iff each enabled grouped one has a user's count or a member with a positive start |
| Scheduler.ShiftedBits | host/cdsp_peak.c:1426-1433 | setting a group's bit adds that group to the mask and no other |
| Scheduler.SelectScenarios | host/cdsp_peak.c:1422-1424 | every entry is marked with the filter's verdict on its name |
| Scheduler.Host.RunCompute | host/cdsp_peak.c:880-901 | the values tried are start * 2^k without overflow; earlier rounds all succeeded too short below the cap; the first failing round's error or the last round's row |
| Scheduler.Host.RunRpcNull | host/cdsp_peak.c:782-802 | the same for null calls from one call |
| Scheduler.Host.RunMem | host/cdsp_peak.c:1158-1185 | the same for memory scenarios, each round starting from the buffers the one before left |
| Scheduler.Host.ChooseGroupStart | host/cdsp_peak.c:903-920 | the user's count, else the largest start among the enabled members |
| Scheduler.Host.MeasureGroup | host/cdsp_peak.c:933-951 | one round measures each enabled member once with the common count, or stops at the first that fails |
| Scheduler.Host.RunComputeGroup | host/cdsp_peak.c:922-968 | terminates for every timing; all rows come from one final round with one count; success means all long enough, a fixed count, nothing measured or past the cap; failure prints nothing |
| Scheduler.Host.DispatchCompute | host/cdsp_peak.c:1420-1441 | every row printed shows a measurement made in this run, at the end of rounds that were too short, of its scenario alone or of its group with one count; without an error the rows are exactly the report of the table; an error is that of the measurement made last |
| Benchmark.NonPositiveFails | dsp/cdsp_peak_imp.c:450-454 | a round with a count that is not positive never succeeds |
| Benchmark.MeasurementsSound | host/cdsp_peak.c:722-866 | no failed measurement of any kind can pass for a success |
| Benchmark.NewHost | host/cdsp_peak.c:1278-1279 | the scheduler's assumptions hold of the measurements of this program and its own table |
| Benchmark.Int8RowChecksum | host/cdsp_peak.c:804-866 | the checksum of a reported int8 row in closed form, for either kernel and any schedule |
| Benchmark.SharedRowsAgree | README.md:238-239 | rows measured with one count per group have int8 rows that agree in checksum and count |
| Benchmark.RunComputeScenario | host/cdsp_peak.c:880-901 | the run is reported iff nothing outside fails in its last round; then the row is that round's, with the scenario's kernel and the count of that round |
| Benchmark.RunNullCalls | host/cdsp_peak.c:782-802 | the null calls are reported iff every call of the last round returns, after rounds that all did and were too short; the row is that round's, long enough or at 2^24 calls |
| Benchmark.RunMemScenario | host/cdsp_peak.c:1158-1185 | any memory run is reported iff nothing fails in its last round, after rounds that all succeeded and were too short; the row is that round's, long enough or at 2^25 repeats, and the destinations are what that round leaves |
| Benchmark.RunComputeScenarios | host/cdsp_peak.c:1420-1441 | every row printed is that of a round of this run, measured with its scenario's kernel; without an error each selected scenario is printed exactly once and no other, and the int8 rows agree; an error is the one by which something outside failed in the last round |
| Benchmark.HostLengths | host/cdsp_peak.c:1284-1289 | the length is the size in mebibytes, modulo 2^44 mebibytes, and zero exactly when the product wraps to zero; every length main goes on with suits the kernels and is probed in 4096 positions |
| Benchmark.RoundsKeepShape | host/cdsp_peak.c:1166-1177 | the destination buffers keep their lengths through all rounds |
| Benchmark.RunMemRead | host/cdsp_peak.c:1158-1185 | the checksum of a reported mem-read run is fixed by the sources, the length and the repeats of its last round, and no destination is written |
| Benchmark.RunMemReadOfSize | host/cdsp_peak.c:1284-1289 | the same for every buffer size main goes on with |
| Benchmark.RunMemWrite | host/cdsp_peak.c:1158-1185 | the checksum of a reported mem-write run is fixed by the threads, the length and the repeats of its last round, and the destinations are what the transfers make of its pattern |
| Benchmark.RunMemWriteOfSize | host/cdsp_peak.c:1284-1289 | the same for every buffer size main goes on with |
| Benchmark.RunMemCopy | host/cdsp_peak.c:1158-1185 | a reported mem-copy run leaves in every destination what the last transfer makes of the source, with no more wrong bytes than unprobed positions |
| Benchmark.RunMemCopyOfSize | host/cdsp_peak.c:1284-1289 | for every buffer size main goes on with, a reported mem-copy run leaves at most bytes - 4096 wrong bytes in any destination |
| Benchmark.RunMemCopyFaithfully | host/cdsp_peak.c:1158-1185 | if nothing fails and every byte arrives, the run is reported and the destinations equal the sources |
| HmxHost.JoinedHmxFilterEnables | host/cdsp_peak.c:646-657 | a filter joined from names enables exactly the entries named, whatever the architecture; the single name "all" enables the default entries whose architecture is unknown or sufficient |
| HmxHost.AllEnablesByArchitecture | host/cdsp_peak.c:146-190 | with "all" every entry of the table is enabled but two, which need architecture 69 and 73 unless it is unknown |
| HmxHost.TableMatchesModes | host/cdsp_peak.c:146-190 | every table entry declares exactly the sizes its mode needs, and its call passes all checks of the DSP |
| HmxHost.HmxRound | host/cdsp_peak.c:1003-1018 | a call is lost with the transport's error, or ends in the exit of the DSP that its answers determine, for the inputs and the cleared output it was given |
| HmxHost.MaxEnabledBytes | host/cdsp_peak.c:1207-1248 | the least upper bound of the enabled entries' sizes, for activation, weight and output |
| HmxHost.FillInput | host/cdsp_peak.c:970-990 | half-precision ones for the FP16 mode, leaving an odd last byte alone; byte ones otherwise; nothing beyond the given length |
| HmxHost.RunHmxInt8 | host/cdsp_peak.c:992-1033 | error, count, cycles, checksum and output are those of the last call, exit by exit; all calls before it succeeded and were too short; at most 24 doublings to 2^24, probes once; every call made passes the checks of the DSP; the ledger is unchanged |
| HmxHost.RunHmxScenarios | host/cdsp_peak.c:1443-1473 | the buffers are allocated once, at the first enabled entry, and hold what every enabled entry needs; without an error the rows are those of the enabled entries in order, with one those before the entry that failed, whose error it is; every row's totals are those of its own entry's run; the ledger is unchanged |
| HmxHost.RunHostHmx | host/cdsp_peak.c:1443-1473 | the same for the table of the host, whose entries all suit their modes |
| Lifecycle.Platform.RpcmemFree | host/cdsp_peak.c:1486-1503 | only a live buffer can be freed |
| Lifecycle.AddsCancel | host/cdsp_peak.c:1485-1513 | releasing some of what was acquired leaves exactly the rest to release |
| Lifecycle.OpenSessions | host/cdsp_peak.c:1336-1355 | the sessions opened are those named by the handles, also after a failure; success iff every open succeeds |
| Lifecycle.AllocateMemory | host/cdsp_peak.c:1384-1407 | the blocks and buffers allocated are those named, also after a failure at any of them |
| Lifecycle.RunHmx | host/cdsp_peak.c:1443-1473 | buffers are allocated once, at the first enabled scenario; every call is given live buffers |
| Lifecycle.RunMem | host/cdsp_peak.c:1475-1484 | no memory scenario runs unless every buffer is live; the enabled ones run in order until one fails |
| Lifecycle.RunScenarios | host/cdsp_peak.c:1409-1484 | success iff every enabled scenario succeeds; null calls, compute, HMX and memory scenarios run in this order until one fails |
| Lifecycle.FreeSlots | host/cdsp_peak.c:1486-1503 | frees exactly what the slots hold and skips empty ones |
| Lifecycle.CloseSlots | host/cdsp_peak.c:1504-1509 | closes exactly the sessions the handles name |
| Lifecycle.RunProgram | host/cdsp_peak.c:1278-1515 | from every failure point everything acquired is released exactly once and nothing else is; status 0 iff nothing needed failed, 2 iff the size is too large; a successful run opened one session per thread and allocated what its scenarios need; what is asked of the device is a prefix of one plan, the whole of it if the run succeeds, and nothing is asked after a failure |
| Power.SetPower | dsp/cdsp_peak_power.c:110-172 | the mask is always a prefix of the ladder and the failed step the one after it, with its own error; other modes grant nothing |
| Power.ApplyPowerConfig | host/cdsp_peak.c:451-484 | max mode succeeds iff every session grants the whole ladder and then reports the mask each returned; otherwise it stops at the first that does not, with that session's own error and no mask |
| Clock.SplitDivision | host/windows_compat.c:41-43 | splitting off the seconds first loses nothing of the exact quotient |
| Clock.ExactIff | host/windows_compat.c:41-43 | the conversion is exact for every counter iff the frequency is at most 9223372037 |
| Clock.DirectProductOverflows | host/windows_compat.c:41-43 | scaling the counter itself would overflow from 9223372037 ticks on |
| Clock.Monotone | host/windows_compat.c:41-46 | a later counter never gives an earlier time |
| Clock.PerformanceClock.GetTime | host/windows_compat.c:20-48 | succeeds iff there is a destination and both queries answer; a failure leaves the time as it was; the first frequency answered is kept; the time is the floor of the exact value in normal form |

## Left out

- BenchCompute: the FP32, FP16 and qfloat kernels are not interpreted; their accumulators are inputs, because their meaning is the hardware's.
- RunTiles: the HMX tile instructions are not interpreted; each repeat leaves an output of the right size that is an arbitrary function of the repeat and of the staged inputs, and an unsupported tile is one that the architecture number excludes.
- BenchHmxInt8: a block is assumed to lie inside the 32-bit address space, and blocks without room that the room check lets through are excluded, since the layout does not fit them; OverlookedIff says exactly which those are, and RoomCheckWitness gives one. A fresh context is assumed never to have the number of one in use, and releases are assumed to succeed, as the source ignores their results.
- ChecksumBytes: lengths beyond 0x7ffff000 are excluded, since there the source's index overflows; HostLengths shows that the host never sends one.
- BenchMemCopy: source and destination are different buffers, as everywhere in the host.
- SetPower: the null checks of its three result pointers are not modelled, as results always have a place; power requests are opaque beyond their answer.
- ApplyPowerConfig: votes already granted to earlier sessions when a later one fails stay granted, in the source as in the model; closing the sessions is what ends them.
- GetTime: the product that overflows for larger frequencies is modelled as wrapping, although in C it is undefined.
- SelectScenarios: the filter is evaluated once per entry instead of on every use; it never changes during a run.
- MeasureMemThreads: buffers are sequences of bytes handed to the workers and back, not shared arrays; each worker has its own pair, so no aliasing is lost.
- RunThreads: a worker's remote call is one atomic action on its own slot; the elapsed time of a round is an input.
- RunProgram: compute and null-call runs appear by their error only, and printing, warnings and capability queries do not appear; the measured behaviour is in modules Scheduler, Benchmark and HmxHost.
- RunRpcNull: the user's iteration count has no effect on null calls and memory runs, as in the source.
- Printed scores and rates: floating-point formatting of elapsed times and cycles.
- Option parsing, domain and mode names, environment variables, executable paths and the domain reset: case analysis and input/output only; the clamped option ranges are preconditions.
- FastRPC, rpcmem, service lookup and the loader: foreign calls, present by their answers.
- Cycle counters and timer overhead: inputs.
- The values of the error codes come from AEEStdErr.h, which is not part of this model; only their being nonzero and distinct from success is used.
- The build and the recorded results: nothing to prove.
