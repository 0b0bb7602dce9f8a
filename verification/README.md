# Promptboot, verified

Promptboot boots a language model without an operating system: one UEFI program reads a prompt, tokenizes it, evaluates
it on all processors with a cache of keys and values, samples a reply, shows it on the console and reports every step
on the serial port. This project models the parts of it that are protocols, state machines and codecs, and proves what
they are for. `dafny verify dfyconfig.toml` checks all of it.

## What is modelled, and the main results

**Token dispatch** (`Barrier`, `Rows`, `Dispatch`, `DispatchSafety`, `DispatchProgress`). One coordinator and any
number of workers share a job descriptor, an epoch, a reusable barrier and a terminal flag. Every atomic access is a
step, and so is every plain read and write of the descriptor and of each output row, so race freedom is a theorem and
not an assumption. `AllRunsSafe` covers every interleaving: the parallel run computes what the serial run computes and
ends sound; `FairDispatchEnds` says that every fair schedule gets there.

**A dispatched token** (`ProductSteps`, `DispatchedEvaluation`, `DispatchedProducts`). The layer loop, with its seven
named products and the checks between them, asks for its products one at a time. `TokenPlanned` derives from it the
number of jobs that the protocol check expects, and `DispatchedToken` says that in every interleaving the products that
come back lead to the cache row and the logits of a from-scratch evaluation of the token, or to none when there is
none.

**Processor entry** (`ApEntry`, `ApEntrySafety`, `ApEntryProgress`, `EntryDispatch`, `EntryStranded`, `EntryProgress`,
`EntryMixed`, `EntryEnds`). The callbacks agree on the backend and on whether to enter at all, and the checks that
follow a dispatch accept exactly the good ones (`VerdictExact`). `EntryDispatch` runs entry and dispatch as one system,
in which a worker call returns when its slot of the dispatch does; only the processors' own answers then decide
(`TokenAccepted`). A fair schedule of enough callbacks ends exactly if it is not stranded (`FairEntryEnds`), and
`EntryEndsExactly` says for which processors every fair schedule ends.

**Cached inference** (`KvLayout`, `Attention`, `AttentionMeaning`, `ExactNumbers`, `Evaluation`, `EvaluationMeaning`,
`Engine`). The specification evaluates a token list from scratch: seven matrix products a layer, attention over the
rows so far, and every finiteness check, with the arithmetic uninterpreted. `ExactSoftmax` says what this attention is
with exact arithmetic, and `Footprint` which words have a say in which; `ProjectReads` and `BypassedReadout` do the
same for the layer around it. `RunAttention` runs either of the two sets of score, softmax and value loops over the
arena and a dirty score buffer, and proves that only the positions up to the current one have a say. The engine writes
into an arena of arbitrary contents, keeps a prefix, appends, faults half-way and resets, alone or with every product
computed by a dispatch; `AnyCalls` says that unless it is FAULTED its cached rows are always those of its history
evaluated from scratch.

**The session** (`Session`). Conversation, working buffer, cached length and engine stay in step over every run of
lines, interrupts, failures, resets and `/new` (`AnySession`). The internal HISTORY_STATE errors and the rejection of a
context turn out to be unreachable, and `AcceptedTurn` says what the conversation becomes in every case;
`UndisturbedTurn` says which replies are saved, to the token.

**The tokenizer** (`MergeIndex`, `TokenizerIndex`, `Bpe`, `Pretoken`, `TokenText`, `Prompt`, `PromptText`). The
open-addressing index answers every lookup as the merge list does, and its four self-checks are characterised; the
in-place merge loop is the leftmost-lowest-rank reduction; the hand-written scanner is the documented regular
expression under greedy backtracking; `RoundTrip` says that decoding the tokens of any text gives the text back.
`Prompt` shows that this tokenizer meets every assumption of the session, and `PromptText` that the tokens of a prompt
spell its rendered text and those of a follow-up the next message, and that a saved reply is closed exactly once.

**Streaming codecs** (`Utf8`, `ConsoleText`, `Sha256`, `Sha256Meaning`, `Sha256Constants`, `Sha256Standard`). UTF-8
(section 3 of RFC 3629) to UTF-16 (section 2 of RFC 2781) with a carry, CR LF rendering, and SHA-256 (sections 5.1.1
and 6.2 of FIPS 180-4): each is independent of how the input is cut, and each equals a definition that knows nothing of
streaming. UTF-16 is read back by a reader of its own, `DigestIsStandard` compares the hasher with the standard bit by
bit, and `RoundConstants` derives its constants from the cube roots of primes.

**Choosing a token** (`Binary32`, `Selection`, `Sampler`, `Repetition`, `PenalizedSampling`). The insertion loops from
the back and from the front give the same stable selection of the largest numbers (`TopIsLargest`, by `GreaterIsReal`),
the sampler keeps the least nucleus of it and picks one by a random number, and the repetition penalty adjusts each
distinct token once and leaves its bitmap empty. `SampleWithRepetition` is the whole of what generation calls; a logit
that overflows under the penalty never gets among the candidates, no penalty raises a score, and `ExactSample` says
what the sampler picks with exact arithmetic.

**The event stream** (`EventWire`, `EventItems`, `EventStream`, `EventParse`, `EventRuns`, `EventTorn`). The firmware's
emitter against the host's parser, on a wire that also carries console text: a strict parse of a whole run is exact, a
polling parse of any beginning of it never fails and only grows, and a half-written boundary is read exactly as stated.

**The console** (`ConsoleRing`, `ConsoleCursor`). The scrollback ring shows the end of an endless sheet, and three
independent cursor computations agree with the firmware's cursor exactly as long as no line feed comes away from column
0.

## Where a property does not hold

- A record that repeats the one before it while the display is off cannot be read back: the parser takes the two for an
  unauthorised pair. `EventRuns.StrictExactly` gives the exact condition, on the emitted events, and
  `EventRuns.RepeatedRecord` the failing case.
- `/events` flips the display flag before it writes the message and the boundary. When less than the whole boundary
  gets out, a failure record that follows is written under a flag the parser does not know of, and the strict parse of
  the capture fails for every run. `EventTorn.TornToggleExactly` gives the exact condition and every value and error,
  for every number of bytes written and whatever console text stands before the record; without such a record the
  capture still reads as the run (`EventTorn.TornAlone`).
- The tokens of a text are those of plain text exactly when neither `<tool_call>` nor `</tool_call>` occurs in it
  (`TokenText.PlainExactly`; `TokenText.ToolCallIsSpecial` for the word itself).
- A line feed alone resets the column in the scrollback ring and in nothing else. `ConsoleCursor.TogetherExactly` gives
  the exact condition for the trackers to agree, `ConsoleCursor.FeedAlone` a text that fails it; rendered text meets
  it.
- A page down undoes a page up exactly from the bottom or after a whole page (`ConsoleRing.PageDownUndoes`;
  `ConsoleRing.PageDownMisses` is a case in which it does not).
- An entry need not end. With fewer callbacks than workers it never does (`EntryEnds.TooFewNeverEnd`). With more, and
  as many ready ones as workers, the rejection that a surplus callback stores can reach one processor after another has
  entered the worker call, which then waits for a slot that never joins (`EntryEnds.MixedEntry` for two workers and
  three callbacks, `EntryMixed.ReachMixed` for all). `EntryEnds.EntryEndsExactly` gives the exact condition; in the
  code only the time limit of the firmware call ends such an entry.

## How the model relates to the code

- Objects that the code updates in place are classes or arrays here, and their methods are proved against specification
  functions; protocols are transition systems over their shared state.
- `docs/PBTQW25-v1.md` says that special parsing is disabled for user text; the code recognises `<tool_call>` and
  `</tool_call>` in it (`crates/promptboot-core/src/tokenizer.rs:1168-1178`). The model follows the code.
- The character classes of the regular expression are over bytes, as in the code; they agree with the documented
  Unicode classes on the printable ASCII text that the editor accepts.
- What `crates/promptboot-core/src/model.rs` validates about the vocabulary, and the digests pin down about its control
  tokens, are hypotheses: `GoodVocabulary` and `GoodPromptVocabulary`.
- The console text between a torn boundary and a record is any that makes no record prefix with what was written of the
  boundary; the echo of a record has its prefix broken on purpose (`src/main.rs:1242-1250`).
- How the dispatches of an engine are scheduled is a parameter, its dispatcher: for every token, the outcome of some
  finished run. With injected faults an evaluation may stop before it has used all the products of that run.
- What the penalty does to a finite number is a hypothesis. `Lawful`: a quotient stays finite, the product of a
  negative number stays finite or becomes minus infinity. `Shrinking`: neither moves a number up that it is meant to
  move down.
- The theorems about exact arithmetic have it as a hypothesis; `ExactNumbers.ExactExists` and `Sampler.ExactExists`
  show that it can be met.
- The words of the scratch memory are passed as values, except for attention, whose score buffer and output are arrays
  with arbitrary contents. The cache arena is an array.
- The wire of the event stream is the firmware's own writes and the console text it mirrors, which is any text without
  a NUL and without the prefix of a record.
- Faults, interrupts, statuses, sampled tokens and processor answers are parameters, so the theorems hold for all of
  them. `inject` tells an engine with injected faults from one without.
- The generation loop's reports, timing and console output are merged into one environment value per iteration: what
  stops the loop before or after the token, and whether the status line fails.
- The error exits of the session that are proved unreachable appear as `assert false`.

## Model

| member | source | states |
|---|---|---|
| `Barrier.BarrierSafety` | crates/promptboot-core/src/inference.rs:367-377 | in every run of any number of threads through the reusable barrier, for any number of generations: arrivals stay below the worker count, nobody leaves a generation before all have arrived in it, the last arriver has everyone else spinning, and its store of 0 discards no arrival of a later generation |
| `Barrier.BarrierProgress` | crates/promptboot-core/src/inference.rs:367-377 | whenever every thread is inside the barrier, some thread has a step other than spinning: the barrier cannot jam |
| `Barrier.RunInv` | src/mp_inference.rs:103-114 | the entry barrier of the application processors (the same algorithm) keeps the barrier invariant over every run |
| `Rows.SharesPartition` | crates/promptboot-core/src/inference.rs:472-473 | the row ranges `rows*slot/workers .. rows*(slot+1)/workers` split the rows: each row belongs to exactly one slot, for any worker count |
| `DispatchSafety.AllRunsSafe` | crates/promptboot-core/src/inference.rs:466-543 | in every reachable state of every interleaving of one token dispatch, with plain reads and writes as steps of their own: no two threads touch the same plain cell in conflict, a completed job has each of its rows written exactly once with the serial value, and once the terminal flag is up all workers have served every epoch, the barrier is empty and the collected results are those of the serial run |
| `DispatchSafety.NoConflict` | crates/promptboot-core/src/inference.rs:466-478 | the descriptor is never read while it is being overwritten, and no output row is written by two slots |
| `DispatchSafety.StepInv` | crates/promptboot-core/src/inference.rs:484-542 | every atomic step of every thread keeps the dispatch invariant |
| `DispatchSafety.InvJobComplete` | crates/promptboot-core/src/inference.rs:526-537 | when the barrier has released the coordinator, every row in 0..rows was computed by its owner from the descriptor of this very epoch, and the row count equals the hits |
| `DispatchSafety.InvTerminalSound` | crates/promptboot-core/src/inference.rs:443-464 | after the terminal store the protocol status is 0 for every thread, with arrivals 0 and generation equal to the job epoch |
| `DispatchSafety.SerialJobCount` | crates/promptboot-core/src/inference.rs:437 | a serial run of a planned program runs as many jobs as the protocol check expects when it completes, and no more when it aborts |
| `DispatchProgress.SomeoneMoves` | crates/promptboot-core/src/inference.rs:494-542 | from every reachable state that is not final some thread has a step that is not a spin |
| `DispatchProgress.UsefulStepDecreases` | crates/promptboot-core/src/inference.rs:494-542 | every step that is not a spin makes a natural-number measure smaller |
| `DispatchProgress.SpinKeepsMeasure` | crates/promptboot-core/src/inference.rs:373-375 | spinning changes nothing that matters for progress |
| `DispatchProgress.DispatchTerminates` | crates/promptboot-core/src/inference.rs:494-542 | every schedule has at most a fixed number of useful steps, and until all workers have returned one is always available |
| `DispatchProgress.CanFinish` | crates/promptboot-core/src/inference.rs:494-542 | every reachable state can be completed to one in which all workers have returned status 0 with the serial results |
| `DispatchProgress.FairDispatchEnds` | crates/promptboot-core/src/inference.rs:494-542 | a schedule that gives every slot a turn in each of enough rounds ends with every slot returned with status 0 and the serial results |
| `ProductSteps.ThenAsks` | crates/promptboot-core/src/inference.rs:621-628 | an evaluation that asks for n products and goes on as one that asks for k asks for n + k |
| `ProductSteps.ThenGives` | crates/promptboot-core/src/inference.rs:621-628 | and with the right products it gives what the two give one after the other |
| `ProductSteps.ServesThen` | crates/promptboot-core/src/inference.rs:621-628 | products that serve an evaluation serve its first part and then what follows it |
| `DispatchedEvaluation.LayerExact` | crates/promptboot-core/src/inference.rs:1504-1707 | a layer asks for exactly seven products, for fewer when a check fails, and with them it computes the layer |
| `DispatchedEvaluation.TokenExact` | crates/promptboot-core/src/inference.rs:1454-1765 | a token asks for seven products a layer and one for its logits, and with them it gives the row and the logits of the token |
| `DispatchedEvaluation.TokenPlanned` | crates/promptboot-core/src/inference.rs:437 | the evaluation that a dispatch runs publishes exactly as many jobs as its protocol check expects, and fewer when it fails: 168 or 169 |
| `DispatchedEvaluation.SerialToken` | crates/promptboot-core/src/inference.rs:565-628 | running the jobs one after the other is evaluating the token |
| `DispatchedEvaluation.DispatchedToken` | crates/promptboot-core/src/inference.rs:1419-1445 | in every interleaving of a dispatched token: the terminal code is 1 exactly if the token can be evaluated from scratch, and then the products read back lead to its cache row and its logits; any other code than 1 and 2 is impossible |
| `DispatchedEvaluation.DispatchedTokenEnds` | crates/promptboot-core/src/inference.rs:1419-1445 | every fair schedule of a dispatched token gets there, with status 0 on every slot |
| `DispatchedProducts.LayerServes` | crates/promptboot-core/src/inference.rs:1504-1707 | the products of a layer are, in order, those of its projections and then those of its second half |
| `DispatchedProducts.LayersServe` | crates/promptboot-core/src/inference.rs:1504-1707 | each layer takes its seven products, and the rest are those of the layers behind it |
| `DispatchedProducts.ProjectServed` | crates/promptboot-core/src/inference.rs:1506-1603 | each product that is read back is the one for the matrix and the vector that the code asks for at that point |
| `DispatchedProducts.FinishedServes` | crates/promptboot-core/src/inference.rs:1419-1445 | however the dispatch of a token was scheduled, its results serve the evaluation of that token to its end, and its terminal code is 1 if the token can be evaluated and 2 if not |
| `DispatchedProducts.SerialFinishes` | crates/promptboot-core/src/inference.rs:484-542 | for every token there is a finished run of its dispatch |
| `DispatchedProducts.SomeDispatcher` | crates/promptboot-core/src/inference.rs:1419-1445 | so there is a dispatcher for every model and every number of workers from two on |
| `ApEntrySafety.EntryAgreement` | src/mp_inference.rs:314-369 | when exactly as many callbacks run as there are workers, whoever has decided holds its own slot of a permutation, all chose the backend that everybody can run, and all enter the worker or none does |
| `ApEntrySafety.VerdictExact` | src/mp_inference.rs:265-299 | once all callbacks have returned, the checks after a dispatch accept exactly when as many callbacks as workers ran, all were ready and restored their state, all worker calls returned 0 and the core status is 0, for any number of workers, callbacks and mask words |
| `ApEntrySafety.PrefixWord` | src/mp_inference.rs:271-282 | a mask word in which exactly the first r bits are set has the value `(1 << r) - 1` |
| `EntryDispatch.StepInv` | src/mp_inference.rs:314-369 | every step of a processor, at the entry or inside the worker call, keeps the joint invariant of entry and dispatch: a slot of the dispatch is exactly as far as the processor holding it has taken it |
| `EntryDispatch.TokenAccepted` | src/mp_inference.rs:265-310 | an entry that has ended is accepted exactly if as many processors came as were expected and all were ready and restored their state, and then the dispatch has the results of one processor |
| `EntryStranded.MissedSlot` | crates/promptboot-core/src/inference.rs:466-542 | while a slot has not joined the dispatch there is no terminal code, when it is slot 0 or when the evaluation asks for a job |
| `EntryStranded.StrandedForEver` | src/mp_inference.rs:346-355 | one processor in the worker call and the missed slot held by one that has decided to stay out: from there no schedule ends |
| `EntryProgress.SomebodyMoves` | src/mp_inference.rs:103-114 | with at least as many callbacks as workers, until all have returned or the entry is stranded, some processor has a step that is not a spin, at the entry barrier or in its slot of the dispatch |
| `EntryProgress.UsefulStepDecreases` | src/mp_inference.rs:314-369 | every step that is not a spin leaves entry and dispatch together with fewer steps to go |
| `EntryProgress.FairEntryEnds` | src/mp_inference.rs:265-369 | with at least as many callbacks as workers, a fair schedule ends with all of them returned exactly if it is not stranded, and then the checks accept it exactly if all was well |
| `EntryMixed.ReachMixed` | src/mp_inference.rs:314-356 | more callbacks than workers, with enough of them ready, can always come to slot 1 in the worker call and slot 0 turned down by the rejection of a surplus callback |
| `EntryEnds.EnoughNeverStranded` | src/mp_inference.rs:334-355 | with exactly as many callbacks as workers, or more but fewer ready ones than workers, all enter or none does |
| `EntryEnds.TooFewNeverEnd` | src/mp_inference.rs:103-114 | with fewer callbacks than workers they never all return |
| `EntryEnds.EntryEndsExactly` | src/mp_inference.rs:314-369 | every fair schedule of an entry ends exactly if as many callbacks come as there are workers, or more of them but fewer than the workers are ready, or none at all |
| `EntryEnds.MixedEntry` | src/mp_inference.rs:314-356 | two workers, three ready callbacks: a run in which slot 1 has entered and slot 0 stores status 42, and no way on in which all return |
| `KvLayout.AddressRoundTrip` | crates/promptboot-core/src/inference.rs:2035-2053 | the transposed-key layout is injective: the address of a word can be read back from its index, and the index is inside the arena |
| `KvLayout.WordRoundTrip` | crates/promptboot-core/src/inference.rs:2035-2053 | every word of the arena is the word of exactly one address, so keys, values, layers, positions and heads never overlap |
| `KvLayout.KeyLanes` | crates/promptboot-core/src/inference.rs:2043-2047 | one component of the keys of a tile of four positions is four words in a row |
| `KvLayout.ValueLanes` | crates/promptboot-core/src/inference.rs:2048-2051 | the components of a value are words in a row |
| `Attention.ScoresSse2` | crates/promptboot-core/src/fp32_sse2.rs:1430-1454 | the score loop reads inside the arena and leaves, for every position, the score of its key |
| `Attention.ScoresAvx2` | crates/promptboot-core/src/fp32_sse2.rs:1483-1525 | the tile loop leaves the same scores: masked lanes are not touched, and what a lane beyond the positions holds is never a score |
| `Attention.Normalise` | crates/promptboot-core/src/fp32_sse2.rs:1617-1665 | maximum, masking, exponentials and scaling turn the scores in the buffer into the probabilities; no slot is read before it was written in this call |
| `Attention.ValuesSse2` | crates/promptboot-core/src/fp32_sse2.rs:1526-1550 | the value loop leaves the weighted sums of one head in its output words and changes no other |
| `Attention.ValuesAvx2` | crates/promptboot-core/src/fp32_sse2.rs:1552-1583 | the loop over four components at once leaves the same words |
| `Attention.RunAttention` | crates/promptboot-core/src/fp32_sse2.rs:1589-1711 | whatever scores, output and arena held, and with either set of loops, the output is the attention over the keys and values of the positions up to the current one |
| `AttentionMeaning.HeadFootprint` | crates/promptboot-core/src/fp32_sse2.rs:1606-1625 | the 64 output words of a query head depend on its own 64 query words and on 64 words of each key and value: words 0 to 63 for the first seven heads, 64 to 127 for the others |
| `AttentionMeaning.Footprint` | crates/promptboot-core/src/fp32_sse2.rs:1606-1711 | so keys and values that agree on the words of one key-value head give the same 448 output words of its group |
| `AttentionMeaning.OnePosition` | crates/promptboot-core/src/fp32_sse2.rs:1526-1550 | with plain products and sums, the value of a single position is copied to all seven heads of its group |
| `AttentionMeaning.ExactSoftmax` | crates/promptboot-core/src/fp32_sse2.rs:1589-1680 | with exact arithmetic every output word is the mean of the values weighted by the exponentials of an eighth of the products of query and keys, for each of the fourteen heads and any number of positions |
| `AttentionMeaning.LargestIsLargest` | crates/promptboot-core/src/fp32_sse2.rs:1622-1628 | what is subtracted before the exponentials is the largest score |
| `AttentionMeaning.ScaleIsAnEighth` | crates/promptboot-core/src/fp32_sse2.rs:1430-1454 | the constant that scales the scores has the value 1/8 |
| `ExactNumbers.ExactExists` | crates/promptboot-core/src/fp32_sse2.rs:1589-1711 | there is an arithmetic as exact as that theorem asks for, over any word encoding of the numbers it meets |
| `Evaluation.FreshRowsPrefix` | crates/promptboot-core/src/inference.rs:1454-1765 | the rows a token list leaves behind begin with the rows of each of its prefixes |
| `EvaluationMeaning.ProjectReads` | crates/promptboot-core/src/inference.rs:1506-1603 | query, key and value of a position each depend on their own matrix and bias in this layer, under the norm before attention; query and key are rotated for this position and the value is not |
| `EvaluationMeaning.FeedForwardReads` | crates/promptboot-core/src/inference.rs:1643-1706 | the second half of a layer depends on its own three matrices and the norm before them |
| `EvaluationMeaning.PositionRead` | crates/promptboot-core/src/inference.rs:1504-1707 | a layer uses the rotations of one position only, that of the token behind the cached rows |
| `EvaluationMeaning.FeedForwardPasses` | crates/promptboot-core/src/inference.rs:1643-1706 | what the last product gives is added to the hidden state, which passes through when that is zero |
| `EvaluationMeaning.ClosedGate` | crates/promptboot-core/src/inference.rs:1643-1706 | it is the gate product that opens and closes: when it is zero nothing of the other product gets through |
| `EvaluationMeaning.BypassedReadout` | crates/promptboot-core/src/inference.rs:1454-1765 | when no layer adds anything, the logits are those of the embedding of the last token, whatever came before it |
| `Engine.WriteVector` | crates/promptboot-core/src/inference.rs:1809-1887 | the two write loops put exactly one vector into the arena and change no other word |
| `Engine.SameExceptVector` | crates/promptboot-core/src/inference.rs:2035-2052 | a write to one vector of the arena leaves every other vector as it was |
| `Engine.WriteKv` | crates/promptboot-core/src/inference.rs:1809-1887 | however far a failing write gets, rows below the position and entries of lower layers are untouched; on success the new entry is stored |
| `Engine.GatherRows` | crates/promptboot-core/src/inference.rs:1454-1765 | after the write, the keys and values up to the current position are those of the cached rows followed by the new entry |
| `Engine.RunLayers` | crates/promptboot-core/src/inference.rs:1504-1707 | the layer loop over the dirty arena computes what one from-scratch evaluation step computes, and fails without injected faults only when that does |
| `Engine.InferenceEngine.Evaluate` | crates/promptboot-core/src/inference.rs:1413-1452 | one token, on this processor or with every product computed by a dispatch, in any interleaving: the cache stays that of evaluating the ghost history from scratch, extended by the token on success, and no other terminal code than 1 and 2 occurs |
| `Engine.PrefixRefusal` | crates/promptboot-core/src/inference.rs:1044-1093 | a prompt that may be prefilled from scratch may also be appended to its own retained prefix |
| `Engine.CacheShrinks` | crates/promptboot-core/src/inference.rs:1315-1335 | forgetting the tail of the history leaves a fresh cache of the prefix |
| `Engine.InferenceEngine.Prefill` | crates/promptboot-core/src/inference.rs:1026-1040 | prefill starts at the current position: the history becomes history ++ prompt, the logits are those of evaluating that from scratch, and without injected faults it succeeds exactly when that evaluation does |
| `Engine.InferenceEngine.PrefillWithPrefix` | crates/promptboot-core/src/inference.rs:1044-1093 | on both paths a success leaves history == prompt and the prefix retained; a prompt that can be evaluated from scratch is never lost by reusing the prefix |
| `Engine.InferenceEngine.AppendPrefill` | crates/promptboot-core/src/inference.rs:1095-1107 | appending to a live engine continues its history; a refused call changes nothing, a failing one faults |
| `Engine.InferenceEngine.Decode` | crates/promptboot-core/src/inference.rs:1205-1295 | one more token; the context check inside decode never refuses |
| `Engine.InferenceEngine.ResetToPrefix` | crates/promptboot-core/src/inference.rs:1315-1335 | back to the retained prefix, which is then the whole history, or to nothing after a fault |
| `Engine.AnyCalls` | crates/promptboot-core/src/inference.rs:1026-1335 | after any sequence of calls with faults anywhere, from arbitrary memory, with or without a dispatcher: an engine that is not FAULTED holds the rows of its history evaluated from scratch |
| `Engine.CheckWords` | crates/promptboot-core/src/inference.rs:1904-1936 | the finiteness check passes only finite words, and without injected faults all of them |
| `Engine.RunProject` | crates/promptboot-core/src/inference.rs:1506-1603 | from the norm to the rotations: three products, their biases and all checks in order |
| `Engine.RunFeedForward` | crates/promptboot-core/src/inference.rs:1643-1706 | the second half of a layer: three products and all checks in order |
| `Engine.RunLayer` | crates/promptboot-core/src/inference.rs:1504-1707 | one layer over the dirty arena computes what the layer computes from the rows, and stores its entry |
| `Engine.InferenceEngine.EvaluateInner` | crates/promptboot-core/src/inference.rs:1454-1765 | one token through all layers, which write their cache entries and read their products back in order: what is in the arena and in the logits afterwards is the from-scratch evaluation |
| `Engine.PrefillAccepted` | crates/promptboot-core/src/inference.rs:1109-1195 | a prompt is taken exactly if it fits into the 32768 tokens of the context behind the cached ones and together with the reserve, all its tokens exist and the buffer has room for the logits |
| `Engine.DecodeAccepted` | crates/promptboot-core/src/inference.rs:1221-1280 | a token is decoded exactly behind a prefill and within its reserve; the greedy call takes only the token that was selected, and none behind an end of text |
| `Session.FollowUpUnique` | crates/promptboot-core/src/tokenizer.rs:762-793 | at most one place of a rendered prompt is the newline before its second IM_START |
| `Session.FindFollowUp` | crates/promptboot-core/src/tokenizer.rs:762-793 | the scan finds that place exactly when there is one |
| `Session.Controller.Render` | crates/promptboot-core/src/tokenizer.rs:690-840 | the prompt is the committed history followed by the follow-up part of the line, or the line alone; it never reports a bad history |
| `Session.Controller.RightPromptUnique` | src/model_repl.rs:673-852 | history and line determine the prompt |
| `Session.Controller.FitsOrNot` | crates/promptboot-core/src/lib.rs:40-71 | a line is too long behind a history exactly when its one follow-up prompt exceeds the prompt limit |
| `Session.Controller.InferPrompt` | src/model_repl.rs:943-957 | the first model call of a turn leaves the engine with the whole prompt as its history, and its logits are those of the prompt evaluated from scratch |
| `Session.Controller.NextToken` | src/model_repl.rs:928-1115 | one iteration: it stops only for a key, a device, a token that cannot be shown or an evaluation fault, and otherwise stores the reply behind what is there |
| `Session.Controller.GenerateTokens` | src/model_repl.rs:928-1115 | the loop ends with the tokens up to the first end of text or the limit; the engine has evaluated all but the last of them |
| `Session.Controller.SaveTurn` | src/repl_contract.rs:46-57 | a finished text that ends with the end token becomes the conversation; the error exit of the commit is unreachable |
| `Session.Controller.Generate` | src/model_repl.rs:868-1237 | a turn leaves conversation and engine in step: saved and held by the engine but for the last token, or unchanged with the engine at rest; HISTORY_STATE is unreachable, and an undisturbed turn that can be evaluated finishes, and is saved exactly if the first end of text comes within 1024 tokens and the 32768 of the context |
| `Session.Controller.ResetConversation` | crates/promptboot-core/src/lib.rs:73-104 | the conversation is forgotten, the engine keeps at most the fixed prefix, the fresh prompt stays |
| `Session.Controller.ResolvePrompt` | src/model_repl.rs:673-852 | every line that can be rendered gets exactly its right prompt, after at most one reset; nothing is rejected for its length |
| `Session.Controller.AcceptedTurn` | src/model_repl.rs:673-866 | one line, start to end: the conversation becomes the right prompt followed by exactly the tokens generated, or stays, or is empty after the one reset, as the outcome of the turn says; an undisturbed turn that can be evaluated finishes, and is saved exactly if its first end of text comes within 1024 tokens and the 32768 of the context |
| `Session.Controller.NewSession` | src/model_repl.rs:1619-1631 | `/new` leaves an empty conversation and an engine at position 0 |
| `Session.AnySession` | src/model_repl.rs:1559-1695 | every run of lines and `/new` commands, with any interrupts and failures, keeps the session coherent, never meets an internal inconsistency or a rejected context, and changes the conversation from input to input as the turns say |
| `MergeIndex.MergeOfExact` | crates/promptboot-core/src/tokenizer.rs:435-474 | the search of the merge list that lookups are compared with finds a pair exactly when the list has it |
| `MergeIndex.MergeOfUnique` | crates/promptboot-core/src/tokenizer.rs:1150-1166 | among distinct merges each is what its own pair finds |
| `MergeIndex.Lookup` | crates/promptboot-core/src/tokenizer.rs:1150-1166 | the bounded probe loop gives the result and the probe count of the specification, and changes nothing |
| `MergeIndex.ProbeFinds` | crates/promptboot-core/src/tokenizer.rs:1150-1166 | a merge in the table is found by exactly one probe more than its displacement |
| `MergeIndex.LookupExact` | crates/promptboot-core/src/tokenizer.rs:1150-1166 | for every pair the bounded lookup answers what the merge list answers |
| `MergeIndex.NewPair` | crates/promptboot-core/src/tokenizer.rs:439-473 | meeting an unused slot, or going all the way round, proves that the pair is not in the table: duplicates are always detected |
| `MergeIndex.InsertKeeps` | crates/promptboot-core/src/tokenizer.rs:450-459 | an insertion keeps the table a faithful image of the merges so far |
| `MergeIndex.FullTable` | crates/promptboot-core/src/tokenizer.rs:440-446 | the table-full error means that there are as many distinct merges before as slots |
| `MergeIndex.LongestCluster` | crates/promptboot-core/src/tokenizer.rs:489-503 | the scan with its early stop finds the longest circular run of taken slots |
| `MergeIndex.DisplacementBelowCluster` | crates/promptboot-core/src/tokenizer.rs:481-516 | every displacement is below the longest run |
| `MergeIndex.MissStops` | crates/promptboot-core/src/tokenizer.rs:534-547 | a lookup that finds nothing stopped at an unused slot within the longest run plus one probes |
| `MergeIndex.LongestHit` | crates/promptboot-core/src/tokenizer.rs:517-533 | the hit check always sees the largest displacement plus one |
| `MergeIndex.Construct` | crates/promptboot-core/src/tokenizer.rs:434-547 | without byte map and digests: success exactly on distinct merges that fit the table with the expected displacement and cluster, and then every lookup is the search of the list; otherwise the first failing check with its number, and the last two never fail |
| `Bpe.BestExact` | crates/promptboot-core/src/tokenizer.rs:983-1003 | the pair chosen is the leftmost one of lowest rank, and there is none only when nothing can be merged |
| `Bpe.ReduceIrreducible` | crates/promptboot-core/src/tokenizer.rs:983-1010 | when merging ends no adjacent pair can be merged |
| `Bpe.FindBest` | crates/promptboot-core/src/tokenizer.rs:983-1003 | the search loop with index lookups finds that pair |
| `Bpe.MergeInPlace` | crates/promptboot-core/src/tokenizer.rs:1004-1010 | the in-place replacement and shift is the merge on sequences, and touches only the segment |
| `Bpe.EncodePretoken` | crates/promptboot-core/src/tokenizer.rs:957-1029 | the whole in-place routine stages exactly the reduced tokens behind the earlier ones, or reports why not; earlier tokens and the rendered text are untouched |
| `Pretoken.StarTakesRun` | crates/promptboot-core/src/tokenizer.rs:1193-1250 | a starred class takes the whole run when the rest still matches there |
| `Pretoken.SpacesNewlines` | crates/promptboot-core/src/tokenizer.rs:1227-1240 | spaces then newlines match up to the last newline of the run |
| `Pretoken.SpacesLookahead` | crates/promptboot-core/src/tokenizer.rs:1241-1248 | spaces not followed by text match all but the last space |
| `Pretoken.WordsMatch` | crates/promptboot-core/src/tokenizer.rs:1200-1249 | what the alternatives after the contractions match, case by case |
| `Pretoken.PretokenLength` | docs/PBTQW25-v1.md:79-83 | the hand-written scanner finds exactly what the documented expression matches first, under greedy backtracking semantics; pre-tokens are never empty |
| `TokenText.CodepointInjective` | crates/promptboot-core/src/tokenizer.rs:185-203 | different bytes have different stand-in characters |
| `TokenText.Gpt2Codepoint` | crates/promptboot-core/src/tokenizer.rs:185-203 | the counting loop computes the stand-in character |
| `TokenText.EncodedByte` | crates/promptboot-core/src/tokenizer.rs:206-217 | its bytes are the UTF-8 encoding of that character |
| `TokenText.BuildByteMap` | crates/promptboot-core/src/tokenizer.rs:401-432 | each byte gets the first token that writes it; failure names the first byte that has none |
| `TokenText.NextUserDefined` | crates/promptboot-core/src/tokenizer.rs:1168-1178 | the first place where one of the two user-defined tokens starts |
| `TokenText.DecodePiece` | crates/promptboot-core/src/tokenizer.rs:1031-1147 | kind and bytes of a token by type, or exactly the error there is: unknown, bad type, a character that stands for no byte, too long, no room; nothing is written on failure |
| `TokenText.ReduceSpells` | crates/promptboot-core/src/tokenizer.rs:983-1010 | merging in any number of steps keeps what the tokens spell |
| `TokenText.RoundTrip` | crates/promptboot-core/src/tokenizer.rs:916-1147 | for every text, of any length, decoding its tokens piece by piece gives the text back exactly, given that merges concatenate and pieces fit |
| `TokenText.StageFragments` | crates/promptboot-core/src/tokenizer.rs:942-955 | the fragment loop stages exactly the tokens of the text, and fails exactly when they do not fit |
| `TokenText.StageOrdinary` | crates/promptboot-core/src/tokenizer.rs:916-940 | the same for text with user-defined tokens in it |
| `Prompt.PromptFollowUp` | crates/promptboot-core/src/tokenizer.rs:842-896 | every rendered prompt has a place where a follow-up turn starts |
| `Prompt.SessionTokenizer` | crates/promptboot-core/src/tokenizer.rs:842-896 | the tokenizer meets everything the session assumes of it: a fixed proper prefix, valid tokens, at most 599 of them, and a follow-up place in each prompt |
| `Prompt.ComputePrompt` | crates/promptboot-core/src/tokenizer.rs:842-896 | the rendered text is staged, and the tokens completely exactly when they fit, with the right prefix and user counts |
| `Utf8.PointIsScalar` | src/repl_contract.rs:149-190 | what passes the lead and continuation checks is a scalar value that encodes to the same bytes: the late surrogate and range checks never fire |
| `Utf8.DecodeExact` | src/repl_contract.rs:98-204 | decoding succeeds with nothing left exactly on encodings of NUL-free text, and gives that text |
| `Utf8.DecodeSplit` | src/repl_contract.rs:98-204 | decoding in two steps with the carry is decoding at once |
| `Utf8.Utf8Decoder.Push` | src/repl_contract.rs:98-204 | one push decodes the carry and the piece, all or nothing, into UTF-16 that reads back as the characters decoded; it never reports Incomplete and never overruns its staging buffer |
| `Utf8.DecodeStream` | src/repl_contract.rs:90-204 | for any partition into pieces of at most 128 bytes, all pushes and the finish succeed exactly when the whole is well-formed NUL-free UTF-8, and the output is UTF-16 that reads back as the text |
| `ConsoleText.RenderedSplit` | src/repl_contract.rs:213-243 | rendering line ends does not depend on how the text is cut |
| `ConsoleText.RenderedUnique` | src/repl_contract.rs:213-243 | the rendered text is the only one with CR LF line ends and the same lines |
| `ConsoleText.RenderConsoleText` | src/repl_contract.rs:213-243 | the two loops write exactly the rendered text, or nothing when it does not fit |
| `Sha256.WrappedIsModulo` | crates/promptboot-core/src/sha256.rs:149-194 | the wrapping additions are additions modulo 2^32 |
| `Sha256.MessageSchedule` | crates/promptboot-core/src/sha256.rs:149-166 | the schedule loop computes the 64 words of section 6.2.2 of FIPS 180-4 |
| `Sha256.RunRounds` | crates/promptboot-core/src/sha256.rs:168-194 | the round loop with its eight variables computes the 64 rounds of the standard |
| `Sha256.Hasher.UpdatePartial` | crates/promptboot-core/src/sha256.rs:46-58 | a waiting part of a block is filled up first, and only a full block goes into the state |
| `Sha256.Hasher.Update` | crates/promptboot-core/src/sha256.rs:46-69 | after an update the hasher stands where it would after the whole message so far: the state has absorbed its full blocks, the buffer holds the rest, shorter than a block |
| `Sha256.PadFromRest` | crates/promptboot-core/src/sha256.rs:71-91 | the padding of section 5.1.1 is what the bytes after the last full block need |
| `Sha256.PadBlocks` | crates/promptboot-core/src/sha256.rs:71-91 | with room for the length the tail is one block, otherwise two; both branches are the standard padding |
| `Sha256.Hasher.Finish` | crates/promptboot-core/src/sha256.rs:71-91 | the result is the FIPS 180-4 digest of everything hashed |
| `Sha256.DigestPieces` | crates/promptboot-core/src/sha256.rs:46-91 | for any list of updates, the digest is that of the concatenation |
| `Selection.IsTopUnique` | crates/promptboot-core/src/inference.rs:814-859 | logits determine the selection: largest first, equal ones by lowest token |
| `Selection.InsertKeepsTop` | crates/promptboot-core/src/inference.rs:839-854 | inserting one more logit at its place keeps the selection of the logits seen |
| `Selection.InsertFromBack` | crates/promptboot-core/src/inference.rs:839-854 | the insertion loop from the back puts the entry at its place, on the staged array |
| `Selection.InsertFromFront` | crates/promptboot-core/src/fp32_sse2.rs:1799-1816 | so does the insertion from the front with the shift by one |
| `Selection.TopLogits` | crates/promptboot-core/src/inference.rs:814-859 | the first eight of the stable descending order, or the error for the first logit that is not finite |
| `Selection.SampleTop` | crates/promptboot-core/src/fp32_sse2.rs:1797-1816 | the sampler's first twenty, in the same order |
| `Selection.ValidateLogits` | crates/promptboot-core/src/inference.rs:883-903 | the check that the callers make first: the number of logits, then the first that is not finite |
| `Selection.GreedyToken` | crates/promptboot-core/src/inference.rs:861-881 | the lowest token with the largest logit, for finite logits only |
| `Sampler.Weigh` | crates/promptboot-core/src/fp32_sse2.rs:1818-1824 | the weighing loop gives the weight of every candidate and their sum |
| `Sampler.KeepNucleus` | crates/promptboot-core/src/fp32_sse2.rs:1825-1834 | the cut keeps the least number of candidates whose weights reach it, or all |
| `Sampler.Pick` | crates/promptboot-core/src/fp32_sse2.rs:1836-1845 | the pick is the first kept candidate at which the running sum exceeds the target, or the last |
| `Sampler.SampleTopKTopP` | crates/promptboot-core/src/fp32_sse2.rs:1787-1846 | the sampled token is one of the kept candidates of the twenty largest logits, the one that the random number picks |
| `Sampler.SampleUnique` | crates/promptboot-core/src/fp32_sse2.rs:1787-1846 | logits and random number determine the sample |
| `Sampler.SampleToken` | crates/promptboot-core/src/inference.rs:883-917 | sampling refuses logits of the wrong number or that are not finite, and otherwise gives that sample |
| `Selection.Argmax` | crates/promptboot-core/src/fp32_sse2.rs:1773-1784 | the greedy token is the selection of one |
| `Selection.TopPrefix` | crates/promptboot-core/src/fp32_sse2.rs:1797-1816 | a shorter selection is the beginning of a longer one |
| `Selection.SelectionsAgree` | crates/promptboot-core/src/inference.rs:814-881 | the three scans agree: the first eight of the sampler are the diagnostic eight, and its first is the greedy token |
| `Repetition.SetBitOnly` | crates/promptboot-core/src/fp32_sse2.rs:1858-1861 | setting a bit of a byte sets that bit and no other |
| `Repetition.ClearBitOnly` | crates/promptboot-core/src/fp32_sse2.rs:1871-1875 | clearing a bit of a byte clears that bit and no other |
| `Repetition.ApplyPenalty` | crates/promptboot-core/src/fp32_sse2.rs:1849-1876 | every score whose token occurs and was not marked is adjusted exactly once, all others are kept; afterwards exactly the tokens of the context are unmarked |
| `Repetition.PenalizeOnce` | crates/promptboot-core/src/fp32_sse2.rs:1849-1876 | from an empty bitmap: each distinct token of the context adjusted once whatever its repetitions, and the bitmap empty again |
| `EventItems.FramesOnWire` | scripts/event_topology.py:46-56 | the search for a boundary finds exactly the boundaries that were written, each in its place, among records, console text and a torn boundary |
| `EventItems.RecordsOnWire` | scripts/event_topology.py:29-45 | the line scan finds exactly the records that were written, whatever boundaries and console text share their lines, and tolerates a cut-off one only when told to |
| `EventWire.SortedUnique` | scripts/event_topology.py:57-58 | sorting by place has one possible outcome for items in distinct places |
| `EventItems.ItemsOnWire` | scripts/event_topology.py:29-58 | on any sequence of writes, cut off anywhere, the scan finds exactly the complete ones, in order and in place |
| `EventStream.AfterEvent` | src/main.rs:931-955 | a record adds its bytes once to the wire, twice while the display is on; a toggle adds its boundary and flips the flag; console text adds itself |
| `EventStream.Emitter.Emit` | src/main.rs:900-957 | a record goes out completely or the failure is latched; whatever fails, the wire gains only a beginning of the copies |
| `EventStream.Emitter.Log` | src/main.rs:900-957 | in a session the wire always holds the beginning of what the run says, and all of it unless a record failed |
| `EventStream.Emitter.Fatal` | src/main.rs:841-898 | the failure record, or the fallback record for one that has overflowed, continues the run; the fallback counts as a failure even when it gets out; after a torn toggle it goes out behind the part of the boundary, under the flipped flag |
| `EventStream.Emitter.ToggleDisplay` | src/model_repl.rs:1559-1585 | the flag flips before the message and the boundary; a boundary that is written completely counts as a toggle even when the write reports failure, and only a part of one is torn; any failure ends the session |
| `EventParse.ScanRecords` | scripts/event_topology.py:29-45 | the line loop |
| `EventParse.FirstFound` | scripts/event_topology.py:51-56 | what the search finds next is the first item of those that are left |
| `EventParse.ScanFrames` | scripts/event_topology.py:46-56 | the search loop finds every occurrence of a boundary, from left to right |
| `EventParse.ParseRecords` | scripts/event_topology.py:66-113 | the parse loop reads the items as specified, and reports the first violation |
| `EventRuns.ReadRun` | scripts/event_topology.py:75-113 | reading the items of a run gives its records and ends with nothing pending, unless a record is repeated while the display is off |
| `EventRuns.StrictExactly` | scripts/event_topology.py:66-113 | the strict parse of a whole run returns exactly the logical and physical records if no record is repeated while the display is off, and refuses the run otherwise |
| `EventRuns.RepeatedRecord` | scripts/event_topology.py:107-110 | a record written twice while the display is off is refused, whatever the record |
| `EventRuns.PollingGrows` | scripts/event_topology.py:90-96 | what polling has read of some items stays as more items come |
| `EventRuns.PollingCaptures` | scripts/event_topology.py:66-113 | polling any beginning of a run never fails, and of two captures the later shows everything the earlier showed |
| `EventRuns.PollingWhole` | scripts/event_topology.py:66-113 | at the end of a run the two modes agree |
| `EventTorn.EmitterReadable` | src/main.rs:900-957 | what an emitter put on the wire can be polled at any moment, whatever failed, and is read completely when no record failed, unless a record was written behind a torn toggle |
| `EventTorn.EmitterUnreadable` | src/main.rs:841-898 | a record that was written behind a torn toggle makes the strict parse of everything the emitter wrote fail |
| `EventTorn.TornToggleExactly` | src/model_repl.rs:1565-1584 | a run, the first n bytes of a boundary, console text, and a record under the flipped flag parse strictly exactly if the boundary is complete and the run with that toggle and record repeats nothing while the display is off; the value or the error is given in every case, for every n |
| `EventTorn.TornAlone` | src/model_repl.rs:1565-1584 | with part of a boundary and at most console text behind it, a capture reads as the run before it |
| `EventTorn.TornPolls` | scripts/event_topology.py:66-113 | any beginning of such a capture can be polled |
| `EventStream.Emitter.Mirror` | src/main.rs:1204-1213 | console text that reaches the serial port adds its bytes and no record, also behind a part of a boundary |
| `ConsoleRing.LinesGiveText` | src/console_history.rs:56-80 | for text without backspaces and with CR LF line ends, wrapping loses nothing: the lines, hard ends included, give the text back |
| `ConsoleRing.ConsoleHistory.AdvanceLine` | src/console_history.rs:138-148 | the ring moves on by one cleared line and drops the oldest when full |
| `ConsoleRing.ConsoleHistory.Write` | src/console_history.rs:56-80 | the ring always holds the last lines of the endless sheet that the units describe |
| `ConsoleRing.PhysicalSlot` | src/console_history.rs:125-130 | the index counted from the oldest line is the slot counted back from the head |
| `ConsoleRing.ConsoleHistory.ViewportLine` | src/console_history.rs:125-136 | a row of the view is the matching line of the kept lines |
| `ConsoleRing.ConsoleHistory.ViewportCursor` | src/console_history.rs:111-123 | the cursor is at the column of the ring at the bottom, and at the end of the last shown line otherwise |
| `ConsoleRing.ConsoleHistory.PageUp` | src/console_history.rs:82-88 | a page up goes up by the rows of the screen, at most to the oldest kept line, and reports whether anything changed |
| `ConsoleRing.ConsoleHistory.PageDown` | src/console_history.rs:90-95 | a page down goes down by the rows of the screen, at most to the bottom |
| `ConsoleRing.ViewOfAll` | src/console_history.rs:125-136 | with no more rows than lines in the ring, the view is the matching window of all lines ever written |
| `ConsoleRing.EveryLineShown` | src/console_history.rs:82-95 | paging up from the bottom shows every kept line |
| `ConsoleRing.PagesMeet` | src/console_history.rs:82-95 | a whole page up shows exactly the lines before those that were shown |
| `ConsoleRing.PageDownMisses` | src/console_history.rs:82-95 | nine lines on four rows, three lines up: the page up stops at the top and the page down comes out at one |
| `ConsoleRing.PageDownUndoes` | src/console_history.rs:82-95 | a page down undoes a page up exactly when the page up was a whole one or started at the bottom |
| `ConsoleCursor.NativeScrolls` | src/status_bar.rs:286-322 | the counting loop gives the rows that run over the content, and nothing for a cursor outside it |
| `ConsoleCursor.WriteContentWithWrap` | src/status_bar.rs:324-363 | the calls that went well join to a beginning of the text with CR LF behind every full line, to all of it on success; a failure is the status of the call after them |
| `ConsoleCursor.FirmwareFollows` | src/status_bar.rs:324-363 | on the broken lines a cursor that never wraps ends where the trackers say, for every text, and never prints outside the width |
| `ConsoleCursor.TogetherExactly` | src/console_history.rs:56-80 | ring and trackers have the same column after every beginning of a text exactly when no line feed comes away from column 0 |
| `ConsoleCursor.FeedAlone` | src/status_bar.rs:334-341 | a letter and a line feed alone part ring and trackers, at every width of at least 2 |
| `ConsoleCursor.CrlfFeedsAtZero` | src/repl_contract.rs:213-243 | text with CR LF line ends has no such line feed, whatever the width |
| `ConsoleCursor.BottomOfRing` | src/console_history.rs:111-123 | at the bottom the cursor row of the view is that of all the lines exactly when the rows fit the ring or it dropped nothing |
| `ConsoleCursor.CursorsAgree` | src/main.rs:1220-1259 | for text with CR LF line ends at the bottom, the firmware's cursor ends where the ring says, and the scroll count is the number of lines that leave the view |
| `PenalizedSampling.SteppedNonzero` | crates/promptboot-core/src/inference.rs:801-809 | the random number generator never gets stuck at 0 |
| `PenalizedSampling.SamplingState.Next24` | crates/promptboot-core/src/inference.rs:801-809 | a draw steps the generator once, counts it and gives 24 bits of the new state |
| `PenalizedSampling.PenalizedSortable` | crates/promptboot-core/src/fp32_sse2.rs:1849-1876 | the penalty of finite logits leaves numbers that are finite or minus infinity |
| `PenalizedSampling.CandidatesFinite` | crates/promptboot-core/src/fp32_sse2.rs:1787-1816 | with at least twenty tokens outside the context no overflowed logit is among the twenty candidates |
| `PenalizedSampling.SampleWithRepetition` | crates/promptboot-core/src/inference.rs:919-965 | the checks refuse in their order, number of logits, finiteness, room in the bitmap, token range, and a refusal changes nothing; a success is the sample, by the next random number, of the logits with each distinct token of the context penalised once; the bitmap is empty on every return |
| `TokenizerIndex.FirstHashError` | crates/promptboot-core/src/tokenizer.rs:167-183 | the first byte in which a digest differs from the expected one, if any |
| `TokenizerIndex.Construct` | crates/promptboot-core/src/tokenizer.rs:401-563 | construction succeeds exactly if every byte has a token, the merges lie in the table as expected and the bytes of map and index have the two SHA-256 digests, and then lookups are exact; otherwise it names the first check that fails |
| `PromptText.RenderedParts` | crates/promptboot-core/src/tokenizer.rs:842-896 | the rendered text is that of the parts which the tokens are made of |
| `PromptText.TokensShowText` | crates/promptboot-core/src/tokenizer.rs:842-896 | the two outputs agree: the tokens of a prompt, decoded one by one and with the names of the control tokens, are its rendered text, for every user text |
| `TokenText.PlainExactly` | crates/promptboot-core/src/tokenizer.rs:916-940 | special parsing changes the tokens of a text exactly when one of the two words occurs in it |
| `TokenText.ToolCallIsSpecial` | crates/promptboot-core/src/tokenizer.rs:1168-1178 | `<tool_call>` is one token, which plain text never gives |
| `Binary32.GreaterIsReal` | crates/promptboot-core/src/fp32_sse2.rs:230-242 | for all words, the comparison is that of the values which sign, exponent and fraction give, subnormals and both zeros included |
| `Binary32.FiniteIsBounded` | crates/promptboot-core/src/inference.rs:836-850 | the finite words are those whose magnitude is below 2 to the 128 |
| `Selection.TopIsLargest` | crates/promptboot-core/src/inference.rs:814-859 | a selection is the largest values, read as numbers, in falling order with the lower token first among equals, and nothing left out is larger |
| `Utf8.UnitsReadBack` | src/repl_contract.rs:178-196 | a reader of UTF-16 after section 2.2 of RFC 2781, which knows nothing of the decoder, reads the units of every text back as that text |
| `Utf8.UnitsOfRead` | src/repl_contract.rs:178-196 | and what it reads from any units has exactly those units |
| `Sha256Meaning.ChoiceBit` | crates/promptboot-core/src/sha256.rs:173 | bit b of the choice is that of the second word where the first has it, and that of the third elsewhere |
| `Sha256Meaning.MajorityBit` | crates/promptboot-core/src/sha256.rs:180 | bit b of the majority is set exactly if at least two of the three words have it |
| `Sha256Meaning.RotateBit` | crates/promptboot-core/src/sha256.rs:155-178 | bit b of a word rotated by n is its bit b + n modulo 32 |
| `Sha256Standard.DigestIsStandard` | crates/promptboot-core/src/sha256.rs:46-91 | for every message the digest is that of a definition after FIPS 180-4 written from bits, sums modulo 2^32 and base-256 digits, which shares only the constants with the hasher |
| `Sha256Standard.StepsAre` | crates/promptboot-core/src/sha256.rs:168-194 | the rounds are those of that definition |
| `Sha256Standard.ScheduleIs` | crates/promptboot-core/src/sha256.rs:149-166 | so is the schedule |
| `Sha256Standard.PaddedIs` | crates/promptboot-core/src/sha256.rs:71-91 | and the padding |
| `Sha256Constants.RoundConstants` | crates/promptboot-core/src/sha256.rs:21-30 | the 64 round constants are the first 32 bits of the fractional parts of the cube roots of the first 64 primes |
| `Sha256Constants.InitialConstants` | crates/promptboot-core/src/sha256.rs:33-44 | the eight initial words are those of the square roots of the first eight |
| `Sha256Constants.PrimesInOrder` | crates/promptboot-core/src/sha256.rs:21-30 | these 64 numbers are all the primes up to the last of them, in order |
| `Session.Controller.UndisturbedTurn` | src/model_repl.rs:895-928 | an undisturbed turn whose first end of text comes at token n, with n at most 1024 and room for it in the 32768 tokens of the context, saves exactly those n tokens behind the prompt; when it saves nothing, none of the tokens there was room for ended the text |
| `PenalizedSampling.EightDraws` | crates/promptboot-core/src/tests.rs:424-442 | the generator has the published state after eight draws from the published seed |
| `PenalizedSampling.DrawnDivides` | crates/promptboot-core/src/inference.rs:808 | a draw is the quotient of the wrapped 64-bit product by 2 to the 40 |
| `PenalizedSampling.NeverRaised` | crates/promptboot-core/src/fp32_sse2.rs:1862-1868 | the penalty raises no score and turns none below zero: it divides what is not negative and multiplies what is |
| `Sampler.ExactSample` | crates/promptboot-core/src/fp32_sse2.rs:1818-1845 | with exact arithmetic: the shortest beginning of the candidates that reaches the cut is kept, and the token is the one in whose stretch of the summed weights the target falls |
| `TokenText.Alphabet` | crates/promptboot-core/src/tokenizer.rs:185-205 | the alphabet byte by byte: printable bytes stand for themselves, the 68 others get U+0100 to U+0143 in order and without a gap |
| `PromptText.FollowUpShows` | crates/promptboot-core/src/tokenizer.rs:762-793 | what a follow-up prompt adds to the conversation shows a newline, the next user message and the opening of the reply, for every user text and wherever the scan found its start |
| `Pretoken.ContractionWords` | crates/promptboot-core/src/tokenizer.rs:1193-1200 | a contraction is taken exactly where the text begins with one of seven words in either case, those of two characters first |
| `Prompt.CheckUser` | crates/promptboot-core/src/tokenizer.rs:220-250 | a line is turned down for its length or for its first byte that is not printable, and for nothing else here |
| `TokenText.KindByType` | crates/promptboot-core/src/tokenizer.rs:1044-1061 | text, end of text, suppressed and none, by the numbers of the token types: the end of text is a control token and one of two |
| `PromptText.ReplyClosesOnce` | src/model_repl.rs:1055-1110 | a saved reply holds the token that closes a message exactly once, at its end, and never the other end of text: an iteration ends the text by the kind that decoding gives to these two tokens |
| `TokenizerIndex.SlotReadBack` | crates/promptboot-core/src/tokenizer.rs:450-459 | every slot can be read back, word by word, from the bytes of the table |
| `TokenizerIndex.MapReadBack` | crates/promptboot-core/src/tokenizer.rs:401-432 | and every token of the byte map from its bytes |

## Left out

- Weak memory: acquire and release accesses are sequentially consistent steps.
- Machine integers of indices and counters: unbounded here, except where the code wraps on purpose (SHA-256 words and
  byte count, UTF-16 units, token range checks).
- Numeric kernels: a row of a matrix product, normalisation, biases, rotation, quantisation and the gate of the feed
  forward part are uninterpreted functions on whole vectors, with no loops; only attention has its loops, over
  uninterpreted operations on words. The weights of the sampler are uninterpreted, its loops are not.
- The SSE2, AVX2 and SHA-NI variants other than the two sets of attention loops, backend selection and processor state
  save and restore.
- Failures to look up a tensor, which a loaded model does not have.
- UEFI calls, serial set-up, timers and memory maps.
- Console text that is mirrored to the serial port after a record failed.
- How 32-bit words lie in byte buffers: scratch and index are arrays of words, and zeroing scratch after use is not
  stated.
- MergeIndex.Construct: is the part of the construction that fills and checks the merge table; the byte map and the
  digests are in `TokenizerIndex.Construct`.
- TokenText.DecodePiece: a piece that contains NUL counts as undecodable, though no validated vocabulary has one.
- ApEntrySafety.EntryAgreement: is about dispatches in which as many callbacks run as there are workers, which is what
  the firmware is asked for; with any other number nothing is said about who enters, only that the dispatch is refused.
- EntryDispatch.TokenAccepted: leaves out the time limit of the firmware call that starts the processors.
- DispatchProgress.DispatchTerminates: does not need fairness and so says only that useful steps are bounded and that
  one is always available; `DispatchProgress.FairDispatchEnds` is about fair schedules.
- Selection.SampleTop: follows the order of numbers, as does Selection.Argmax; their callers have validated the logits
  (`Selection.GreedyToken`, `Sampler.SampleToken`, `PenalizedSampling.SampleWithRepetition`).
- Sampler.SampleToken: takes the random number as a parameter; the generator is in `PenalizedSampling`.
- PenalizedSampling.SampleWithRepetition: is about an empty bitmap, which is how the session starts and how every call
  leaves it; `Repetition.ApplyPenalty` is about any bitmap.
- EventStream.Emitter.Fatal: leaves out the panic record.
- The mode and topology names of the parser are a datatype, so the errors for unknown names are left out.
- ConsoleRing.ConsoleHistory.Write: leaves out the redraw of the screen after paging; the view is what a redraw would
  print.
- The line editor, record builders, status line text, model file validation, the primitive C interface, asset download,
  and the Python host tools other than the event parser: easy compared with the rest, or input and output.
