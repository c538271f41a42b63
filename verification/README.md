# Plate-recognition engine: verified model

A Dafny model of the algorithmic core of the plate-recognition engine, with proofs. It follows the engine's own parts:

- **CTC beam search and plate grammar** (`Grammar`, `Ctc`, `CtcBeam`, `CtcExactness`, `CtcDecode`, `LprNetRecognizer`;
  sums in `Sums`, sorting in `Sorting`). The search is a dynamic program over states (text, last class). Its meaning is
  given separately, as a sum over all alignments (sequences of classes annotated with confusion choices). Under any
  pruning every state weighs at most the alignments that end in it; without pruning it weighs exactly that, so the
  candidates are the heaviest plates in order, confusions included. Without confusions the weight of a plate is its CTC
  probability.
- **Bounded worker pool** (`WorkerPool`, `WorkerPoolProofs`, `WorkerPoolDrain`). The critical sections are methods of a
  class that accounts for every task offered to it. The whole system is a transition system of submitters, workers and
  shutdown callers with sleeping, notification and spurious wakeup, in which each section is one step; an invariant of
  every reachable state gives conservation, order, bounds and no lost wakeup, and two measures give that an accepting pool
  finishes all its work and that shutdown completes.
- **C result serializer** (`Wire`, `WireReader`, `ResultBuffer`). A layout plan that needs no buffer, a reader that follows
  offsets and counts from byte 0, and the two-pass writer proved against both.
- **Multi-detector fusion** (`Geometry`, `DisjointSets`, `DetectorFusion`). Union by rank with path compression on arrays,
  and groups proved to be the connected components of the overlap relation.
- **SHA-256 and the recognition cache** (`Sha256`, `LruCache`). The block loop and tail against FIPS 180-4, and the cache
  against the history of its uses.
- **Stream session** (`TemporalConsensus`, `StreamSession`). The sliding window, the vote and the duplicate filter, over
  the log of everything since the last reset.
- **Pipeline, candidate fusion, decision** (`CandidateFusion`, `DecisionPolicy`, `RecognitionEnsemble`,
  `RecognitionPipeline`, `HiddenConflicts`). Failure accounting and fail-closed acceptance from recognizer to recognition,
  and exactly what the candidate limit can hide from it.
- **Detection geometry** (`Suppression`, `Tiling`, `ImageView`, `Letterbox`, `YoloParser`). Greedy suppression, tile
  coverage, strided views without overflow, the letterbox maps and the pose output parser.

`Domain`, `Outcomes`, `Machine` and `Reals` hold the shared types, error codes, size arithmetic and bounds.

Floating-point numbers are reals throughout, except in the serializer, where a float is its 32-bit pattern. In the beam
search a weight is a non-negative real instead of a logarithm: adding logarithms becomes multiplication, `log_add`
becomes addition, and a softmax row is any positive distribution. Timestamps, provider answers, cancellation and the
detectors' and recognizers' outputs are inputs. Integers are unbounded where the code cannot overflow and checked against
`size_t` where it checks.

Where the code does not do what one would expect of it, the model follows the code; a theorem says exactly when, and a
lemma gives an input:

- `is_valid_prefix` normalizes its argument and `is_valid_normalized` does not. The prefix test accepts a text that starts
  no plate exactly where normalization changes the text into a start of a plate, and refuses one that does exactly for its
  length (`Grammar.TestsDisagreeExactly`); a hyphen is enough (`Grammar.HyphenSeparatesTheTests`).
- A call of `shutdown` returns with all workers out exactly if it found the pool not yet stopping, or they had left before
  (`WorkerPoolDrain.ShutdownReturnExactly`); so a second concurrent call can return early
  (`WorkerPoolDrain.SecondShutdownReturnsEarly`).
- Two emissions of a plate are closer than the cooldown exactly if another plate is emitted after one of its emissions and
  the plate is sighted again while its cooldown lasts (`StreamSession.CloseEmissionsExactly`, per call
  `StreamSession.EmittedInsideCooldownExactly`); such a run is `StreamSession.AlternatingPlatesAreReemitted`.
- The decision policy looks only at the runner-up. For any list, a strong conflict goes unseen exactly if the top text is
  repeated at rank 1 and the conflict stands behind the repetition (`DecisionPolicy.ConflictUnseenExactly`, an input is
  `DecisionPolicy.RepetitionHidesConflict`); fused texts are distinct, so there it finds every one
  (`DecisionPolicy.RunnerUpSuffices`).
- The candidate limit cuts the fused list before the decision sees it. An accepted plate has a strong format-valid rival in
  the evidence exactly if the limit cut off a strong format-valid text and left the plate as the only format-valid one
  (`HiddenConflicts.HiddenConflictExactly`); with the shipped settings this happens (`HiddenConflicts.LimitHidesConflict`).
- Mapping a letterboxed pixel back misses the point asked of the sampler by less than half a model pixel even where the
  resized side was clamped up to one pixel (`Letterbox.RoundTripError`). The sampler moves points near the edges of an
  enlarged image inwards, and then half a source pixel is the bound (`Letterbox.ReadError`).

`dafny verify dfyconfig.toml` checks the project.

## Model

| member | source | states |
|---|---|---|
| `Grammar.Normalize` | src/application/turkish_plate_grammar.cpp:74-95 | the normalization loop: empty for over-long or non-ASCII input, otherwise the kept characters upper-cased in order |
| `Grammar.NormalizeIdempotent` | src/application/turkish_plate_grammar.cpp:74-95 | normalizing a normalized text changes nothing |
| `Grammar.NormalizedPlain` | src/application/turkish_plate_grammar.cpp:74-95 | a normalized text holds nothing that normalization would still strip or change |
| `Grammar.IsValidNormalized` | src/application/turkish_plate_grammar.cpp:118-154 | the scanning loops accept exactly the texts of the form province 01-81, one to three allowed letters, and the digit counts allowed for that many letters |
| `Grammar.IsValidPrefix` | src/application/turkish_plate_grammar.cpp:161-215 | the scanning loops decide the prefix test on the normalized text |
| `Grammar.PlateStartExact` | src/application/turkish_plate_grammar.cpp:161-215 | the shape the prefix test looks for is exactly the set of texts that extend to a plate: no dead ends and nothing missed |
| `Grammar.PrefixExact` | src/application/turkish_plate_grammar.cpp:118-215 | a text without stripped characters and within the length limit passes the prefix test iff it extends to a text that passes the final test |
| `Grammar.AcceptsPrefixMeaning` | src/application/turkish_plate_grammar.cpp:161-215 | for any text: what passing the prefix test means after normalization |
| `Grammar.PlatePrefixesAccepted` | src/application/turkish_plate_grammar.cpp:161-215 | every prefix of a plate passes the prefix test iff it is within the length limit |
| `Grammar.PrefixClosed` | src/application/turkish_plate_grammar.cpp:161-215 | a prefix of an accepted text without stripped characters is accepted |
| `Grammar.TestsDisagreeExactly` | src/application/turkish_plate_grammar.cpp:118-215 | for any text, exactly when the prefix test and extendability to a plate part: accepted without extending iff normalization changed the text into a non-empty start of a plate, extending without being accepted iff a start of a plate beyond the length limit |
| `Ctc.Argmax` | src/infrastructure/lprnet/ctc_decoder.cpp:26-57 | the loop finds the first most probable class |
| `Ctc.GreedyDecode` | src/infrastructure/lprnet/ctc_decoder.cpp:104-146 | the greedy text is the CTC collapse of an argmax path, with one confidence per character; the overall confidence is their mean and in [0,1] |
| `Ctc.ClassCharacterInjective` | src/infrastructure/lprnet/ctc_decoder.cpp:59-102 | different classes emit different characters |
| `Ctc.CollapseStep` | src/infrastructure/lprnet/ctc_decoder.cpp:131-136 | one more timestep extends the collapse unless the class is the blank or repeats the last one |
| `Ctc.PathsSummedOnce` | src/infrastructure/lprnet/ctc_decoder.cpp:124-137 | the sum behind a CTC probability runs over exactly the class paths of that many steps, each once |
| `Ctc.ArgmaxPathIsBest` | src/infrastructure/lprnet/ctc_decoder.cpp:124-137 | no path is more probable than the greedy one |
| `Ctc.GreedyPathIsSummand` | src/infrastructure/lprnet/ctc_decoder.cpp:124-137 | the greedy path's weight is one of the summands of its text's CTC probability |
| `CtcBeam.SelectionSound` | src/infrastructure/lprnet/constrained_ctc_beam_search.cpp:92-115 | the selected classes are distinct, in range, contain the blank, and are all classes when the count allows |
| `CtcBeam.SelectionKeepsMostProbable` | src/infrastructure/lprnet/constrained_ctc_beam_search.cpp:92-115 | apart from the blank, every selected class ranks before every class left out |
| `CtcBeam.MergeAllScore` | src/infrastructure/lprnet/constrained_ctc_beam_search.cpp:185-197 | merging equal keys conserves weight: each key's score is the sum over the states merged into it |
| `CtcBeam.ExpandBeamMass` | src/infrastructure/lprnet/constrained_ctc_beam_search.cpp:199-242 | the weight expansion sends to a key is the sum, over states and moves that lead there, of weight times move weight |
| `CtcBeam.ExpandBeamKeys` | src/infrastructure/lprnet/constrained_ctc_beam_search.cpp:199-242 | a key is reached iff some state and some move lead to it |
| `CtcExactness.ArrangementUnique` | src/infrastructure/lprnet/constrained_ctc_beam_search.cpp:252-263 | the ranking of merged states is a total order, so the sorted beam is determined |
| `CtcExactness.PruningKeepsBest` | src/infrastructure/lprnet/constrained_ctc_beam_search.cpp:252-266 | a state that pruning drops ranks behind every state it keeps |
| `CtcExactness.Regroup` | src/infrastructure/lprnet/constrained_ctc_beam_search.cpp:177-270 | summing over beam states and over the alignments that end in them is summing over alignments: the exchange behind merging |
| `CtcExactness.AlignmentsSummedOnce` | src/infrastructure/lprnet/constrained_ctc_beam_search.cpp:199-242 | the sum behind an exact weight runs over exactly the sequences of class and confusion choices of that length, each once |
| `CtcExactness.MassStep` | src/infrastructure/lprnet/constrained_ctc_beam_search.cpp:177-242 | the exact weight of a state after one more step is what flows in from the exact weights before |
| `CtcExactness.StepSound` | src/infrastructure/lprnet/constrained_ctc_beam_search.cpp:177-242 | one timestep keeps scores at or below the exact weight, and equal to it when all classes are tried and nothing was lost |
| `CtcExactness.BeamSound` | src/infrastructure/lprnet/constrained_ctc_beam_search.cpp:172-270 | for every beam width, class cut and confusion table: the beam is never empty, keys are distinct, texts pass the prefix test, and no state weighs more than all alignments that end in it |
| `CtcExactness.BeamExact` | src/infrastructure/lprnet/constrained_ctc_beam_search.cpp:172-270 | while nothing is pruned every state weighs exactly its alignments and no admissible alignment is missing |
| `CtcDecode.ScoresSound` | src/infrastructure/lprnet/constrained_ctc_beam_search.cpp:272-283 | only plates are scored, and never above the exact weight of their text |
| `CtcDecode.ScoresExact` | src/infrastructure/lprnet/constrained_ctc_beam_search.cpp:172-283 | without pruning every plate within the length limit scores exactly its alignments, confusion choices included; longer ones are never scored |
| `CtcDecode.TextMassIsProbability` | src/infrastructure/lprnet/constrained_ctc_beam_search.cpp:199-242 | with no confusion pairs the alignments of a text weigh its CTC probability |
| `CtcDecode.SpellingUnique` | src/infrastructure/lprnet/constrained_ctc_beam_search.cpp:221-240 | when no two confusion pairs name the same characters, a class path spells a text by at most one choice of alternatives |
| `CtcDecode.MassAtMostOne` | src/infrastructure/lprnet/constrained_ctc_beam_search.cpp:221-240 | when no two confusion pairs name the same characters, the alignments of one text weigh at most one together, confusion alternatives included |
| `CtcDecode.SearchComputesCtcProbability` | src/infrastructure/lprnet/constrained_ctc_beam_search.cpp:172-283 | with no confusion pairs, all classes and no truncation the final score of every plate is the sum of path probabilities over all class paths that collapse to it |
| `CtcDecode.ScoresAreMasses` | src/infrastructure/lprnet/constrained_ctc_beam_search.cpp:172-283 | unpruned, a text is scored only if it is a plate within the length limit, with its exact weight, and such a plate without a score is impossible |
| `CtcDecode.GreedyPlateIsFound` | src/infrastructure/lprnet/constrained_ctc_beam_search.cpp:154-283 | then a greedy text that is a plate is found, with at least the greedy path's weight |
| `CtcDecode.AlignmentWeightsTotal` | src/infrastructure/lprnet/constrained_ctc_beam_search.cpp:59-90 | the weights of all alignments add up to one |
| `CtcDecode.BeamWeightAtMostOne` | src/infrastructure/lprnet/constrained_ctc_beam_search.cpp:177-270 | the beam never holds more than probability one |
| `CtcDecode.ExpandState` | src/infrastructure/lprnet/constrained_ctc_beam_search.cpp:199-242 | the class and confusion loops merge exactly the contributions of one state |
| `CtcDecode.Step` | src/infrastructure/lprnet/constrained_ctc_beam_search.cpp:177-266 | one timestep's loops compute the next beam |
| `CtcDecode.Search` | src/infrastructure/lprnet/constrained_ctc_beam_search.cpp:172-270 | the timestep loop computes the beam of the specification; its early exit is never taken |
| `CtcDecode.CollectScores` | src/infrastructure/lprnet/constrained_ctc_beam_search.cpp:272-283 | the final scores sum the states of each valid text |
| `CtcDecode.ConfidenceRanksLikeWeight` | src/infrastructure/lprnet/constrained_ctc_beam_search.cpp:117-126 | the per-step confidence is the T-th root of the weight capped at one: its T-th power is that, and it ranks as that does |
| `CtcDecode.ListCandidates` | src/infrastructure/lprnet/constrained_ctc_beam_search.cpp:285-307 | the listed candidates are the best-scored plates with distinct texts, in order, up to the limit |
| `CtcDecode.Decode` | src/infrastructure/lprnet/constrained_ctc_beam_search.cpp:154-329 | shape errors exactly; otherwise the best candidates, the fallback exactly when nothing scored and the greedy text is not empty, the top margin, and every candidate marked format-valid is a plate |
| `CtcDecode.DecodesHeaviest` | src/infrastructure/lprnet/constrained_ctc_beam_search.cpp:154-329 | unpruned and for any confusion table the candidates are the plates of greatest exact weight, capped at one, in order, whatever is left out weighing no more, each confidence the T-th root; the fallback only when every plate is impossible |
| `CtcDecode.DecodesExactlyHeaviest` | src/infrastructure/lprnet/constrained_ctc_beam_search.cpp:154-329 | when no two confusion pairs name the same characters the cap changes nothing: the candidates come ranked by their exact weights |
| `CtcDecode.DecodesMostProbable` | src/infrastructure/lprnet/constrained_ctc_beam_search.cpp:154-329 | without confusion pairs these are the most probable plates under CTC, each confidence the T-th root of its probability |
| `LprNetRecognizer.Recognize` | src/infrastructure/lprnet/lprnet_onnx_ocr_adapter.cpp:124-137 | the decoder's candidates as an answer, calibrated as they are; format-valid only for plates; the adapter's own greedy fallback never happens |
| `LprNetRecognizer.AcceptedPlateIsPlate` | src/application/lpr_pipeline.cpp:223-277 | end to end with CTC recognizers: a plate the pipeline accepts is in the grammar |
| `WorkerPool.BoundedWorkerPool.Submit` | src/infrastructure/concurrency/bounded_worker_pool.cpp:54-82 | a task is queued, behind all others, iff the pool accepts and has room; the caller waits iff it is full under the block policy; a refusal is counted as dropped iff the pool accepts and is full; every task stays accounted for and the queue within its capacity |
| `WorkerPool.BoundedWorkerPool.WorkerTake` | src/infrastructure/concurrency/bounded_worker_pool.cpp:119-137 | a worker leaves iff the pool is stopped and empty, sleeps iff it is empty and runs, and otherwise takes the task accepted first among the queued ones; every task stays accounted for |
| `WorkerPool.BoundedWorkerPool.WorkerFinish` | src/infrastructure/concurrency/bounded_worker_pool.cpp:147-155 | one active task becomes completed or failed, nothing else, so completed, failed and active still add up to the tasks dequeued |
| `WorkerPool.BoundedWorkerPool.BeginShutdown` | src/infrastructure/concurrency/bounded_worker_pool.cpp:84-96 | afterwards the pool is stopped; the first call alone changes anything, and under discard drops and counts exactly the queued tasks |
| `WorkerPool.BoundedWorkerPool.Stats` | src/infrastructure/concurrency/bounded_worker_pool.cpp:107-117 | the snapshot balances: submitted plus rejected-when-full is completed, failed, active, pending and dropped together; pending and peak stay within the capacity |
| `WorkerPoolProofs.StepQueueConserves` | src/infrastructure/concurrency/bounded_worker_pool.cpp:76-78 | every step keeps: accepted tasks are, in order, dequeued, discarded or queued, and submitted and dropped count them |
| `WorkerPoolProofs.StepWorkConserves` | src/infrastructure/concurrency/bounded_worker_pool.cpp:119-157 | every step keeps: each dequeued task is finished once or held by one worker, and completed, failed and active count them |
| `WorkerPoolProofs.StepNoLostWorkWakeup` | src/infrastructure/concurrency/bounded_worker_pool.cpp:76-81 | every step keeps: while accepting, if a worker sleeps then queued tasks are covered by pending notifications and ready workers |
| `WorkerPoolProofs.StepNoLostSpaceWakeup` | src/infrastructure/concurrency/bounded_worker_pool.cpp:64-70 | every step keeps: while accepting, if a submitter is blocked then free slots are covered by pending notifications and woken submitters |
| `WorkerPoolProofs.StepStopSignalled` | src/infrastructure/concurrency/bounded_worker_pool.cpp:84-99 | every step keeps: after the flags are set nobody sleeps without a notify_all still to come |
| `WorkerPoolProofs.StepLifecycle` | src/infrastructure/concurrency/bounded_worker_pool.cpp:84-132 | every step keeps: the flags move together, workers leave only a stopped empty pool, and a joiner saw all of them leave |
| `WorkerPoolProofs.ReachableInvariant` | src/infrastructure/concurrency/bounded_worker_pool.cpp:54-157 | in every reachable state, over all interleavings and spurious wakeups: conservation, FIFO order, bounds, lifecycle and no lost wakeup |
| `WorkerPoolDrain.StepUsesUp` | src/infrastructure/concurrency/bounded_worker_pool.cpp:84-157 | in a stopped pool every step except an outside call decreases a measure |
| `WorkerPoolDrain.StepSettles` | src/infrastructure/concurrency/bounded_worker_pool.cpp:54-157 | while the pool keeps accepting, every step except a new call and a spurious wakeup decreases a measure |
| `WorkerPoolDrain.AcceptingPoolSettles` | src/infrastructure/concurrency/bounded_worker_pool.cpp:54-157 | without new calls and spurious wakeups a pool that keeps accepting takes boundedly many steps and rests exactly with an empty queue, no active task, every submit returned and every accepted task run once |
| `WorkerPoolDrain.StoppedPoolProceeds` | src/infrastructure/concurrency/bounded_worker_pool.cpp:84-132 | a stopped pool that has not wound down can take a step |
| `WorkerPoolDrain.ShutdownCompletes` | src/infrastructure/concurrency/bounded_worker_pool.cpp:84-157 | if tasks return, shutdown takes boundedly many steps and can rest only with all workers out and all blocked callers returned; draining runs every accepted task exactly once |
| `WorkerPoolDrain.JoinedMeansExited` | src/infrastructure/concurrency/bounded_worker_pool.cpp:100-104 | the caller that stopped the pool returns only after every worker left |
| `WorkerPoolDrain.ShutdownReturnExactly` | src/infrastructure/concurrency/bounded_worker_pool.cpp:84-105 | over every run from a shutdown caller's critical section to its return: all workers are out at the return iff the call found the pool not stopping or they had all left before |
| `Wire.TidyResult` | src/c_api/result_buffer.cpp:113-135 | the regions a result's plan reserves are in order, pairwise disjoint, 4-aligned, inside [0, required), starting with the root at 0 |
| `WireReader.ResultRecovered` | src/c_api/result_buffer.cpp:298-329 | following offsets and counts from byte 0 of a buffer that holds a result recovers it, whatever its nesting |
| `WireReader.PlateRecovered` | src/c_api/result_buffer.cpp:257-296 | reading one recognition record recovers its text, evidence, alternatives, reasons, optional box and quadrilateral |
| `ResultBuffer.BufferWriter.Reserve` | src/c_api/result_buffer.cpp:118-135 | reservation aligns, refuses exactly what exceeds the budget or the capacity, and moves only the position |
| `ResultBuffer.BufferWriter.Write` | src/c_api/result_buffer.cpp:137-147 | a record is written in place and nothing else changes |
| `ResultBuffer.AppendText` | src/c_api/result_buffer.cpp:180-188 | a text is placed as planned, or refused as planned |
| `ResultBuffer.AppendCandidates` | src/c_api/result_buffer.cpp:203-216 | a candidate array with its texts is placed as planned |
| `ResultBuffer.AppendEvidence` | src/c_api/result_buffer.cpp:218-240 | an evidence array with nested candidates is placed as planned |
| `ResultBuffer.AppendReasons` | src/c_api/result_buffer.cpp:242-255 | a reason array is placed as planned |
| `ResultBuffer.SerializePlate` | src/c_api/result_buffer.cpp:257-296 | the record returned and the nested data written are those of the recognition; values outside their range are refused |
| `ResultBuffer.AppendRecognitions` | src/c_api/result_buffer.cpp:308-316 | the recognition array is placed as planned |
| `ResultBuffer.SerializeImpl` | src/c_api/result_buffer.cpp:298-329 | with and without a buffer the same plan is followed: same size, same refusals; with a buffer the result lies in it and bytes outside the reserved regions are untouched |
| `ResultBuffer.SerializeResult` | src/c_api/result_buffer.cpp:333-361 | sizing and writing agree, the second pass never fails, nothing is written unless the status is OK, and reading the buffer back gives the result |
| `Geometry.IouSymmetric` | src/infrastructure/yolo/yolo_pose_parser.cpp:156-180 | intersection over union does not depend on the order of the boxes |
| `Geometry.IouSelf` | src/infrastructure/yolo/yolo_pose_parser.cpp:156-180 | a valid box overlaps itself fully |
| `Geometry.IntersectionBounds` | src/infrastructure/yolo/yolo_pose_parser.cpp:172-175 | the intersection is at most either area |
| `DisjointSets.CompressKeepsRoots` | src/application/multi_detector_fusion.cpp:117-122 | path compression moves no element to another root |
| `DisjointSets.LinkRoots` | src/application/multi_detector_fusion.cpp:124-137 | linking two roots merges exactly their two classes |
| `DisjointSets.LinkPaid` | src/application/multi_detector_fusion.cpp:130-136 | every root of rank r keeps at least 2^r members |
| `DisjointSets.RankBelowSize` | src/application/multi_detector_fusion.cpp:110-142 | ranks stay below the number of elements |
| `DisjointSets.DepthLogarithmic` | src/application/multi_detector_fusion.cpp:117-122 | 2 to the depth of any element is at most the number of elements, which bounds the recursion of find |
| `DisjointSets.DisjointSet.Find` | src/application/multi_detector_fusion.cpp:117-122 | find returns the root, terminates because ranks rise towards it, and changes nobody's root |
| `DisjointSets.DisjointSet.Unite` | src/application/multi_detector_fusion.cpp:124-137 | afterwards two elements share a root iff they did before or the two united classes hold them |
| `DetectorFusion.OverlapSymmetric` | src/application/multi_detector_fusion.cpp:23-55 | the overlap test is symmetric |
| `DetectorFusion.Deduplicate` | src/application/multi_detector_fusion.cpp:84-108 | what is kept of a provider never repeats itself, and whatever is dropped repeats something kept that does not rank behind it |
| `DetectorFusion.ConnectedByOneMore` | src/application/multi_detector_fusion.cpp:306-321 | what one more overlap adds to the chains |
| `DetectorFusion.Group` | src/application/multi_detector_fusion.cpp:306-321 | after the pair loop two detections share a root iff a chain of cross-provider overlaps connects them |
| `DetectorFusion.Bucket` | src/application/multi_detector_fusion.cpp:323-326 | there is one bucket per root, holding exactly its component in order |
| `DetectorFusion.BuildGroup` | src/application/multi_detector_fusion.cpp:144-207 | the fused detection: each provider's earliest best, weighted box and geometry, noisy-OR confidence, the earliest strongest member's quadrilateral |
| `DetectorFusion.FusedBoxInHull` | src/application/multi_detector_fusion.cpp:178-201 | every fused coordinate lies between the members' smallest and largest |
| `DetectorFusion.FusedConfidenceDominates` | src/application/multi_detector_fusion.cpp:174-203 | a fused detection is at least as confident as each member's weighted confidence, and at most 1 |
| `DetectorFusion.Collect` | src/application/multi_detector_fusion.cpp:281-299 | all evidence of the consulted detectors in order, or an error exactly if one of them reported an invalid detection |
| `DetectorFusion.FuseBuckets` | src/application/multi_detector_fusion.cpp:328-333 | one fused group per component, none twice, none missing |
| `DetectorFusion.DetectGroups` | src/application/multi_detector_fusion.cpp:278-339 | end to end: deduplicated evidence, one group per connected component, ranked, cut to the maximum |
| `Sha256.ZeroBitsLeast` | src/infrastructure/crypto/sha256.cpp:70-81 | the number of zero bits is the least that reaches 448 modulo 512, as section 5.1.1 of FIPS 180-4 asks |
| `Sha256.PaddingIsStandard` | src/infrastructure/crypto/sha256.cpp:64-85 | for every message shorter than 2^64 bits the bytes processed are, bit for bit, the padded message of section 5.1.1 |
| `Sha256.Schedule` | src/infrastructure/crypto/sha256.cpp:27-39 | the word loop computes the message schedule of section 6.2.2 |
| `Sha256.Transform` | src/infrastructure/crypto/sha256.cpp:26-55 | the in-place update is the compression of section 6.2.2 |
| `Sha256.BuildTail` | src/infrastructure/crypto/sha256.cpp:70-81 | whole blocks followed by the 64 or 128 byte tail are the padded message |
| `Sha256.ProcessTail` | src/infrastructure/crypto/sha256.cpp:70-85 | after the tail the state is the hash of the padded message |
| `Sha256.Hash` | src/infrastructure/crypto/sha256.cpp:59-95 | the digest is the standard's, 32 bytes |
| `Sha256.HashHex` | src/infrastructure/crypto/sha256.cpp:97-105 | 64 hexadecimal digits of the digest |
| `Sha256.HexInjective` | src/infrastructure/crypto/sha256.cpp:97-105 | two keys are equal iff the digests are |
| `LruCache.RecencyOrder` | src/infrastructure/paddle/paddle_ocr_adapter.cpp:73-108 | the reference list holds each used key once, ordered by its last use |
| `LruCache.HeldStep` | src/infrastructure/paddle/paddle_ocr_adapter.cpp:73-108 | what one lookup or store does to the keys that should be held |
| `LruCache.HeldKeys` | src/infrastructure/paddle/paddle_ocr_adapter.cpp:73-108 | held keys are distinct, at most the capacity, and all were stored |
| `LruCache.PaddleOcrAdapter.TryGetCached` | src/infrastructure/paddle/paddle_ocr_adapter.cpp:73-87 | hits exactly the capacity most recently used keys, returns the evidence stored last, and keeps list and map in step with the history |
| `LruCache.PaddleOcrAdapter.StoreCached` | src/infrastructure/paddle/paddle_ocr_adapter.cpp:89-108 | after a store, replacement or eviction list and map again hold exactly what the history says |
| `LruCache.PaddleOcrAdapter.Recognize` | src/infrastructure/paddle/paddle_ocr_adapter.cpp:110-149 | the order of checks, lookup, worker and store; failures store nothing; every answer is valid evidence the worker gave for a payload with the same digest |
| `LruCache.LastStoredExplained` | src/infrastructure/paddle/paddle_ocr_adapter.cpp:127-148 | what is stored under a key is the worker's answer for a payload with that key |
| `LruCache.SameKeySameDigest` | src/infrastructure/paddle/paddle_ocr_adapter.cpp:127-130 | cache keys are equal iff digests are |
| `TemporalConsensus.WindowStep` | src/application/temporal_plate_consensus.cpp:44-61 | expiring from the front, appending and trimming turns the window of a log into the window of the longer log |
| `TemporalConsensus.WindowUnique` | src/application/temporal_plate_consensus.cpp:44-61 | a log has one window |
| `TemporalConsensus.CountVotes` | src/application/temporal_plate_consensus.cpp:63-79 | the aggregation loop sums support and frames per plate and remembers the earliest best frame |
| `TemporalConsensus.PickWinner` | src/application/temporal_plate_consensus.cpp:87-97 | the loop finds the first of the greatest supports and the greatest of the others |
| `TemporalConsensus.LeaderWins` | src/application/temporal_plate_consensus.cpp:87-97 | hence the least plate of maximal support, and the maximum over all other plates |
| `TemporalConsensus.Vote` | src/application/temporal_plate_consensus.cpp:63-117 | a stable result appears iff the winner meets the frame, share and margin thresholds, and what it then is |
| `TemporalConsensus.DecisionUnique` | src/application/temporal_plate_consensus.cpp:63-117 | the specification of the vote leaves one result per window |
| `TemporalConsensus.SupportBounds` | src/application/temporal_plate_consensus.cpp:72-101 | supports are non-negative and two plates together have at most the total, so clamping the shares changes nothing |
| `TemporalConsensus.TemporalPlateConsensus.Expire` | src/application/temporal_plate_consensus.cpp:44-52 | drops from the front up to the first entry that is not expired |
| `TemporalConsensus.TemporalPlateConsensus.Observe` | src/application/temporal_plate_consensus.cpp:54-117 | for monotone timestamps the history is the longest suffix of the log within the time to live and the maximum length, and the result is its vote |
| `StreamSession.EmissionsSpaced` | src/application/stable_plate_event_filter.cpp:28-44 | successive emissions of one plate are at least the cooldown apart |
| `StreamSession.CloseEmissionsExactly` | src/application/stable_plate_event_filter.cpp:28-44 | over whole runs: two emissions of a plate are closer than the cooldown iff another plate was emitted after an emission of it and it was sighted again while the cooldown of that emission lasts |
| `StreamSession.EmittedInsideCooldownExactly` | src/application/stable_plate_event_filter.cpp:28-44 | a sighting inside the cooldown of an earlier emission of its plate is emitted iff the latest emission was another plate's |
| `StreamSession.SuppressedExactlyInCooldown` | src/application/stable_plate_event_filter.cpp:28-44 | a sighting is suppressed iff the latest emission was of its plate and its cooldown lasts: suppression never extends it, and a plate still stable at its end is emitted again |
| `StreamSession.FirstSightingEmitted` | src/application/stable_plate_event_filter.cpp:28-44 | the first stable plate is emitted |
| `StreamSession.StablePlateEventFilter.Observe` | src/application/stable_plate_event_filter.cpp:19-45 | emission or suppression as the log of sightings says; emitted and suppressed add up to its length |
| `StreamSession.RecognitionStreamSession.Recognize` | src/application/recognition_stream_session.cpp:36-71 | refusals when closed or out of order and pipeline failures leave the session as it was; single-plate frames feed window and filter; other frames change neither |
| `StreamSession.RecognitionStreamSession.Reset` | src/application/recognition_stream_session.cpp:73-81 | clears the session, or refuses when closed |
| `StreamSession.RecognitionStreamSession.Close` | src/application/recognition_stream_session.cpp:83-92 | clears and closes; closing again changes nothing |
| `CandidateFusion.CandidateMargin` | src/application/candidate_fusion.cpp:40-60 | the margin over the strongest candidate with another text |
| `CandidateFusion.Listen` | src/application/candidate_fusion.cpp:125-147 | per crop, each text's best score and whether a candidate for it was format-valid |
| `CandidateFusion.VotedStep` | src/application/candidate_fusion.cpp:149-154 | merging a crop multiplies each text's doubt by the crop's |
| `CandidateFusion.DoubtRange` | src/application/candidate_fusion.cpp:151-152 | supports stay in [0,1], so the clamp changes nothing |
| `CandidateFusion.SupportDominates` | src/application/candidate_fusion.cpp:149-154 | a text is at least as well supported as by any single piece of evidence |
| `CandidateFusion.Fuse` | src/application/candidate_fusion.cpp:102-179 | one entry per mentioned text, its noisy-OR support, format-valid iff some counted candidate was, distinct texts, best first, cut to the limit |
| `DecisionPolicy.RankingFacts` | src/application/safe_decision_policy.cpp:51-71 | the ranking holds exactly the format-valid candidates, strongest first |
| `DecisionPolicy.ConflictUnseenExactly` | src/application/safe_decision_policy.cpp:109-113 | for any list the runner-up test raises no false alarm, and misses a strong format-valid rival iff the top text is repeated at rank 1 with the rival behind it; it is exact whenever the top two texts differ |
| `DecisionPolicy.Decide` | src/application/safe_decision_policy.cpp:30-127 | errors exactly for out-of-range inputs; otherwise plate, status and exactly the reasons that apply |
| `DecisionPolicy.AcceptedExactlyIfSafe` | src/application/safe_decision_policy.cpp:73-126 | accepted iff no failure, every threshold met by the top candidate, and no conflict |
| `RecognitionEnsemble.ValidateEvidence` | src/application/recognition_ensemble.cpp:35-56 | an answer is rejected iff some candidate is malformed; otherwise rescaled by the weight |
| `RecognitionEnsemble.Recognize` | src/application/recognition_ensemble.cpp:87-147 | a required recognizer's failure fails the call; other failures are recorded and degrade; the evidence is the usable answers in order |
| `RecognitionEnsemble.NoFailuresMeansAllHeard` | src/application/recognition_ensemble.cpp:102-141 | the failure list is empty iff every consulted recognizer gave a usable answer |
| `RecognitionEnsemble.EvidenceIsOffered` | src/application/recognition_ensemble.cpp:110-121 | every candidate in the evidence is a recognizer's, text and format verdict unchanged |
| `RecognitionPipeline.Calibrate` | src/application/lpr_pipeline.cpp:201-215 | calibration replaces the calibrated confidences only; a failing calibrator fails the call |
| `RecognitionPipeline.ReadCrop` | src/application/lpr_pipeline.cpp:177-261 | one crop's evidence, layout and failures, which are none iff all its providers worked |
| `RecognitionPipeline.FusedFacts` | src/application/lpr_pipeline.cpp:263-277 | fused texts are distinct and non-empty, their confidences in range, and each format-valid one was offered by a recognizer |
| `RecognitionPipeline.RecognizeScene` | src/application/lpr_pipeline.cpp:112-290 | failures are none iff no provider of the detection failed; degraded iff there are some; acceptance only with everything it stands for |
| `RecognitionPipeline.DecisionIsTrustworthy` | src/application/lpr_pipeline.cpp:263-288 | an accepted decision had no failure, met every threshold, took its text from a recognizer's format-valid candidate, and left no other strong format-valid text in the fused list |
| `RecognitionPipeline.Recognize` | src/application/lpr_pipeline.cpp:99-295 | one recognition per detection; failure count, list and degraded flag agree; acceptance fails closed in every recognition |
| `HiddenConflicts.HiddenConflictExactly` | src/application/candidate_fusion.cpp:175-177 | an accepted plate has a strong format-valid rival in the evidence iff the limit cut off a strong format-valid text and left the plate as the only format-valid one |
| `HiddenConflicts.NothingHidden` | src/application/candidate_fusion.cpp:175-177 | acceptance leaves no strong rival in the whole evidence when nothing was cut off or two fused texts are format-valid |
| `HiddenConflicts.LimitHidesConflict` | src/application/safe_decision_policy.cpp:51-126 | with the shipped settings, an accepted plate whose strong format-valid rival is cut off behind four strong texts of no plate format |
| `Suppression.Suppress` | src/infrastructure/yolo/yolo_pose_parser.cpp:291-306 | the limited loop returns a prefix of unlimited greedy suppression |
| `Suppression.GreedyGrows` | src/infrastructure/yolo/yolo_pose_parser.cpp:291-306 | looking further down the list only appends |
| `Suppression.GreedySelects` | src/infrastructure/yolo/yolo_pose_parser.cpp:291-306 | what is kept is a selection in rank order, pairwise at or below the threshold |
| `Suppression.LeftOutOverlaps` | src/infrastructure/yolo/yolo_pose_parser.cpp:291-306 | whatever is left out overlaps something kept that is ranked before it |
| `Suppression.Idempotent` | src/infrastructure/yolo/yolo_pose_parser.cpp:291-306 | suppression of its own output changes nothing |
| `Suppression.RankAndSuppress` | src/infrastructure/yolo/yolo_pose_parser.cpp:281-308 | ranking by confidence and place, then suppression and the limit |
| `Suppression.KeptExplained` | src/infrastructure/yolo/yolo_pose_parser.cpp:281-308 | kept boxes are spread and most confident first; any other candidate overlaps a kept one ranked before it, or the limit was reached with ones at least as confident |
| `Suppression.MergeDetections` | src/infrastructure/adaptive/adaptive_tile_detector.cpp:112-143 | the merge of tile detections |
| `Suppression.MergedFacts` | src/infrastructure/adaptive/adaptive_tile_detector.cpp:112-143 | merged detections are sorted, valid, spread and from the input; every other valid one overlaps one that does not rank behind it |
| `Suppression.MergeIdempotent` | src/infrastructure/adaptive/adaptive_tile_detector.cpp:112-143 | merging again changes nothing |
| `Tiling.StepPositive` | src/infrastructure/adaptive/adaptive_tile_detector.cpp:42-46 | the step is positive, so the zero-step error cannot arise |
| `Tiling.AxisOrigins` | src/infrastructure/adaptive/adaptive_tile_detector.cpp:35-64 | the loop produces 1 + ceil((extent - tile) / step) origins, the k-th at min(k * step, extent - tile) |
| `Tiling.GridShape` | src/infrastructure/adaptive/adaptive_tile_detector.cpp:35-64 | origins start at 0, increase strictly, and the last tile ends at the end of the axis |
| `Tiling.SpanCovered` | src/infrastructure/adaptive/adaptive_tile_detector.cpp:35-64 | every span of at most overlap + 1 pixels lies wholly in some tile |
| `Tiling.LongerSpanMissed` | src/infrastructure/adaptive/adaptive_tile_detector.cpp:35-64 | a span one longer can lie in none: the bound is exact |
| `Tiling.BoxCovered` | src/infrastructure/adaptive/adaptive_tile_detector.cpp:177-198 | every box at most overlap + 1 wide and high lies wholly in some tile |
| `Tiling.TileIsValid` | src/infrastructure/adaptive/adaptive_tile_detector.cpp:184-192 | on a validated image every tile can be cut out and is a validated image of the tile's size |
| `Tiling.TranslateFacts` | src/infrastructure/adaptive/adaptive_tile_detector.cpp:87-110 | translated boxes and keypoints lie in the image, and a box inside its tile only moves |
| `Tiling.Detect` | src/infrastructure/adaptive/adaptive_tile_detector.cpp:164-201 | whole image plus all tiles, merged; it can fail only for an invalid image, an interruption, the detector or too many tiles |
| `Machine.CheckedAdd` | src/application/image_validation.cpp:12-20 | refuses exactly the sums that do not fit size_t |
| `Machine.CheckedMultiply` | src/application/image_validation.cpp:22-30 | refuses exactly the products that do not fit size_t |
| `ImageView.ValidatedExactly` | src/application/image_validation.cpp:66-108 | validation accepts exactly the images whose last row ends inside the buffer and the limits, over unbounded integers |
| `ImageView.PixelsInBuffer` | src/application/image_validation.cpp:87-97 | every channel of every pixel of a validated image lies in its buffer |
| `ImageView.CropExactly` | src/infrastructure/native_image/native_image.cpp:44-76 | on a validated image a crop succeeds iff the region is non-empty and inside, and which bytes it is |
| `ImageView.CropIsValid` | src/infrastructure/native_image/native_image.cpp:183-193 | a crop of a validated image passes validation again |
| `ImageView.CropShowsRegion` | src/infrastructure/native_image/native_image.cpp:183-193 | pixel (x, y) of the crop is pixel (x0 + x, y0 + y) of the source |
| `ImageView.CopyCrop` | src/infrastructure/native_image/native_image.cpp:207-231 | succeeds exactly for a fitting destination; then every byte of the region is in place and row padding is untouched; otherwise nothing is written |
| `Letterbox.ResizedBounds` | src/infrastructure/yolo/yolo_pose_preprocessor.cpp:99-106 | the rounded size differs from the scaled one by at most a half, or was clamped up to 1 |
| `Letterbox.RoundTripError` | src/infrastructure/yolo/yolo_pose_preprocessor.cpp:155-160 | mapping a resized pixel's centre back misses the point asked of the sampler for it by less than 0.5 / scale |
| `Letterbox.ReadError` | src/infrastructure/yolo/yolo_pose_preprocessor.cpp:56-66 | the point read after the sampler's clamp is that point unless the image is enlarged, and then the miss is below 0.5 / scale or at most half a source pixel |
| `Letterbox.MetadataFacts` | src/infrastructure/yolo/yolo_pose_preprocessor.cpp:89-118 | the resized image lies inside the tensor, and both axes keep the error bounds, for the point asked for and the point read |
| `Letterbox.SampleRange` | src/infrastructure/yolo/yolo_pose_preprocessor.cpp:56-87 | a bilinear sample stays in the range of bytes |
| `Letterbox.SampleAtPixel` | src/infrastructure/yolo/yolo_pose_preprocessor.cpp:56-87 | at a pixel's own coordinates the sample is the pixel |
| `Letterbox.IndexInjective` | src/infrastructure/yolo/yolo_pose_preprocessor.cpp:164-167 | different planes and pixels have different places in the tensor |
| `Letterbox.PreprocessInto` | src/infrastructure/yolo/yolo_pose_preprocessor.cpp:143-170 | every place of the tensor holds the normalized sample of its pixel or the normalized padding |
| `YoloParser.AtInData` | src/infrastructure/yolo/yolo_pose_parser.cpp:20-28 | every feature of every candidate lies in the tensor, in both layouts |
| `YoloParser.AtInjective` | src/infrastructure/yolo/yolo_pose_parser.cpp:20-28 | different features and candidates are read from different places |
| `YoloParser.CandidateInImage` | src/infrastructure/yolo/yolo_pose_parser.cpp:212-278 | a candidate's box is valid and, like its four keypoints, inside the source image, its confidence between the threshold and 1, its keypoints' between 0 and 1 |
| `YoloParser.ReadCandidate` | src/infrastructure/yolo/yolo_pose_parser.cpp:212-278 | the class, objectness, box and keypoint loops read one candidate |
| `YoloParser.Parse` | src/infrastructure/yolo/yolo_pose_parser.cpp:187-308 | errors exactly for bad metadata, shape or width; otherwise at most the limit, most confident first, spread, box and keypoints inside the image, and every other candidate overlaps an earlier-ranked kept one or lost to the limit |

## Left out

- ONNX Runtime sessions, execution providers, model files and their digests, path handling: foreign calls and file system.
- OpenCV alignment, enhancement, layout analysis, double-row handling and the concrete crop generator: their work is done in
  library calls; here they are providers with arbitrary answers or failures.
- The concrete crop generator reports quality 0 for every crop, so with a positive minimum crop quality the shipped
  combination never accepts; the pipeline theorems are about any crop generator.
- JSON adapters, command line, benchmarks, release scripts, language samples, the Python evaluation tools: plumbing.
- Logistic calibration and geometry scoring: they rest on exp, log and atan2; calibrator and geometry evaluator are
  arbitrary functions here.
- IEEE rounding, NaN and infinity: reals instead of floats, so the finiteness tests have no counterpart.
- CtcDecode.Decode: rows are given as softmax rows, so a buffer of the wrong size and logits that are not finite, which the
  code refuses, cannot be expressed; the T-th root is a parameter that satisfies its defining equation.
- LprNetRecognizer.Recognize: the shape tests and the transposition of the output tensor happen before.
- The mutex of the worker pool is not a thread of its own: each critical section is one atomic step, which is what
  mutual exclusion gives; the steps between sections interleave freely, condition variables included.
- Worker threads that cannot be started (the constructor's catch block), the queue memory budget and the workspaces.
- ResultBuffer.SerializeResult: words are written little-endian and floats are their bit patterns; the latency's
  narrowing to float is an input that is in range or not; the address alignment test is a flag.
- DetectorFusion.DetectGroups: ties of the unstable sorts may come out in any order, so invariance under the order of
  registration is not claimed.
- LruCache.PaddleOcrAdapter.StoreCached: list iterators are positions in the list, latency is not part of the evidence, and
  each cache operation is one atomic step.
- Sha256.Hash: messages of 2^61 bytes or more are hashed with their length modulo 2^64, as the code does; the standard
  does not define them.
- Stage timings, latencies, diagnostics counters and logging.
- YoloParser.Parse: the provider name is not carried; all values count as finite.
- YoloParser.ReadCandidate: likewise, so a candidate always has its keypoints.
- Native image workspaces and the crop quality measure.
- Handles of the C interface and stale-handle detection.
- Configuration range checks and enumeration maps: one branch settles each.
