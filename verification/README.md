# laygo stages as finite sequence functions

laygo builds data pipelines out of async generators: producers that create a sequence, transformers that turn one sequence into another, consumers that drain one, and a chaining facade, `pipeline(source)`, on top of them. Every stage pulls one item at a time and handles it completely before pulling the next. Driven over a finite input, each stage is therefore a function from the items it reads to the items it yields and to how it ends. It either ends exhausted, or it fails with an error after yielding a prefix.

This project models that core in Dafny:

- `Streams`: shared vocabulary.
  - `Stream(items, end)` is a finite run of a generator.
  - `Run(out, pulled)` is a stage's output plus how many items it read.
  - User callbacks are parameters that return an `Outcome` (`Returned` or `Threw`, with the values the call passed to `emit`/`done` and whether it called `done`) or a `Try`.
  - `Value` is the dynamically typed item the facade carries.
- `Errors`: error maps and `buildHandleError`'s dispatch.
- `Fold`: `reduce`, the fold with `emit`, `done` and an `onDone` finisher. Its loop returns the log of step calls, and the properties are stated against that log.
- `Stages`: the stages not built on `reduce`: `map`, `flat`, `filter`, `tap`, `validate`, `unique` and `uniqueBy`.
- `FoldStages`: the stages defined as particular reducers: `chunk`, `take`, `split` and `join`.
- `Producers`: the combinators `arrayGenerator`, `generatorGenerator`, `promiseGenerator` and the round-robin `merge`.
  - `merge` is modelled twice, as written and with the removal rule evidently intended (see Findings).
- `Consumers`: the consumers `pipe`, `pipeFirst`, `each` and `result`.
  - A destination is observed through the calls made on it: `write`, the wait for `drain`, and `end`.
  - What `write` returns depends on the destination's buffer, so it is an oracle parameter: `accepted(k)` is the value the `k`-th write returns.
- `Facade`: `pipeline(source)`, driven by a list of method calls.
  - `groupBy` is defined through `reduce`.
  - `flatMap` is `flat` after `map`.
  - The facade's `reduce` passes no finisher.
  - The first `fork()` captures the generator current at that call.
  - A generator is read once. Chaining after a terminal call or a fork wraps a generator that a consumer is already reading, so what the new stage sees depends on how far that consumer got. The model marks such a generator as `Shared` and promises nothing about its items.

Where the repository's tests expect other output than the code produces, the model follows the code:
- `map` yields only the values passed to `emit`/`done` and ignores `fn`'s return value, so `map((v) => v * 2)` yields nothing. `flatMap` is affected the same way.
- `take` never emits, so it yields a single list.

## Model

| member | source | states |
|---|---|---|
| Errors.HandleError | src/errors.ts:7-17 | The outcome is either the original error rethrown unchanged or the result of the handler under the error's name or under `default`; with neither key present the error is rethrown |
| Errors.NamedHandlerWins | src/errors.ts:9-15 | A handler registered under the error's name is used, with its result returned as is, even when a `default` handler exists |
| Errors.DefaultCatchesUnnamed | src/errors.ts:9-13 | An error whose name has no handler goes to the `default` handler, which receives the error and the item |
| Errors.OtherNamesIrrelevant | src/errors.ts:9-15 | Handlers registered under names other than the error's name and `default` never change the outcome |
| Errors.AbsentPolicyIsEmptyMap | src/errors.ts:10-11 | A stage without an error map lets every error propagate unchanged, exactly as an empty error map does |
| Fold.Reduce | src/transformers.ts:108-176 | reduce never reads more items than its source holds; what it yields and how its step is called are stated, against its call log, by the Fold lemmas below |
| Fold.Loop | src/transformers.ts:130-161 | The `for await` loop of reduce makes at most one step call per item it reads |
| Fold.ReduceStepInputs | src/transformers.ts:130-160 | Each step call receives the item at its position, the accumulator left by the earlier calls, and an index that counts only the earlier calls that returned. A return of `undefined` or a throw leaves the accumulator unchanged, and a throw does not advance the index |
| Fold.LoopCallInputs | src/transformers.ts:130-149 | The same input law for a loop started from any state: accumulator and index follow the earlier calls of the log |
| Fold.ReduceAbort | src/transformers.ts:136-157 | After a step calls `done`, no item is read past the next call that returns; a run with no `done` call and no failure reads every item |
| Fold.LoopStopsAfterDone | src/transformers.ts:136-157 | From any state, once a call has asked to stop (or the state was already aborted), the first later call that returns normally is the last call made |
| Fold.LoopReadsAll | src/transformers.ts:130-161 | From any state without a pending abort, the loop calls the step on every item unless a call asks to stop or an error propagates |
| Fold.ReduceImplicitMode | src/transformers.ts:163-166 | When no step call emitted, a completed run yields exactly the final accumulator once and a failed one yields nothing; the finisher plays no part |
| Fold.ReduceExplicitMode | src/transformers.ts:140-175 | Once a step has emitted, a completed run yields the emitted values in call order and then the finisher's emissions, never the accumulator by itself; a failed run has yielded the emitted values except those of the throwing calls since the last call that returned |
| Fold.LoopOutput | src/transformers.ts:140-175 | From any state, the loop's output follows the implicit, explicit and failed-run laws, read off its call log |
| Fold.LoopFinisherIrrelevant | src/transformers.ts:163-171 | The finisher never influences which step calls are made, and it never influences the output when nothing was emitted |
| Fold.LoopCompletes | src/transformers.ts:130-175 | Over an exhausted source, with an error map that recovers every error and a finisher that does not throw, a run always completes |
| Fold.LoopCongruent | src/transformers.ts:130-161 | Two step functions that agree on the source's items give identical runs |
| Fold.ReducePlain | src/transformers.ts:146-166 | A reducer that only returns new accumulators reads the whole source and yields one item, the left fold of its step over the items, or nothing if the source failed |
| Stages.Map | src/transformers.ts:36-77 | map never reads more items than its source holds; its call and output laws are the Stages.Map lemmas below |
| Stages.MapLoop | src/transformers.ts:54-76 | The `for await` loop of map makes at most one call of `fn` per item it reads |
| Stages.MapCallInputs | src/transformers.ts:54-75 | Each call of `fn` receives the item at its position and an index counting the earlier calls that returned; a throwing call does not advance the index |
| Stages.MapLoopInputs | src/transformers.ts:54-75 | The same input law for a map loop started from any index |
| Stages.MapAbort | src/transformers.ts:59-70 | After a call requests `done`, no item is read past the next call that returns; without a `done` request or a failure every item is read |
| Stages.MapOutput | src/transformers.ts:59-75 | When no throwing call emitted before it threw, map yields, call by call in order, what a returning call passed to `emit`/`done` and the non-`undefined` recovery value of a throwing call; `fn`'s own return values are never yielded |
| Stages.MapWithoutThrows | src/transformers.ts:54-76 | When no call throws, map yields exactly the emitted values in call order. Without `done` it reads every item and ends as its source ended; with `done` it ends normally |
| Stages.MapLoopStopsAfterDone | src/transformers.ts:62-70 | From any state, once a call has requested `done` (or `done` was already set), the first later call that returns is the last call made |
| Stages.MapLoopReadsAll | src/transformers.ts:54-76 | From a state without `done`, map calls `fn` on every item unless a call requests `done` or an error propagates |
| Stages.MapLoopEnd | src/transformers.ts:67-71 | A map loop in which every call returned either read every item and ends as its source ended, or, when some call requested `done`, ends normally |
| Stages.Flat | src/transformers.ts:8-17 | flat yields the elements of array items one level deep and every other item as is, in order, reading the whole source and ending as it ended |
| Stages.Filter | src/transformers.ts:79-106 | filter never yields more items than its source. When the predicate never throws, it yields exactly the items for which the predicate holds at their position, in order, and ends as its source ended |
| Stages.FilterLoop | src/transformers.ts:85-105 | From any index, the filter loop yields at most one item per item read, and either ends as its source ended or fails |
| Stages.FilterSelects | src/transformers.ts:79-106 | When the predicate never throws, filter yields exactly the in-order subsequence of items for which the predicate holds at their position, and ends as its source ended |
| Stages.FilterPerItem | src/transformers.ts:85-97 | With an index-free predicate whose errors the error map all recovers, each item is kept, dropped, or replaced by its handler's value unless that is `undefined` |
| Stages.Tap | src/transformers.ts:178-200 | tap yields a prefix of its source, every yielded item settled by its callback. It yields the whole source, ending as the source ended, exactly when no callback throws unrecovered; otherwise it fails at the first item whose callback does |
| Stages.TapLoop | src/transformers.ts:178-200 | tap yields a prefix of its source, consisting of the items whose callback succeeded or was recovered. It stops at the first unrecovered throw and fails with the handler's error, having read exactly that item |
| Stages.TapPassesThrough | src/transformers.ts:178-200 | When every callback succeeds or is recovered, tap yields its source unchanged and reads all of it |
| Stages.Validate | src/transformers.ts:263-274 | validate yields a prefix of its source and calls `errFn` on exactly the items read that `fn` rejects, in order. It yields the whole source, reading all of it and ending as the source ended, unless `fn` threw or `errFn` threw on a rejected item; then it stops right after reading that item and fails with the thrown error |
| Stages.ValidateLoop | src/transformers.ts:263-274 | validate yields a prefix of its source and calls `errFn` on exactly the items read for which `fn` is false, in order. A throw from `fn`, or from `errFn` on a rejected item, ends the run with that error |
| Stages.ValidatePassesThrough | src/transformers.ts:263-274 | When neither callback throws, validate yields its source unchanged and calls `errFn` exactly on the items `fn` rejects |
| Stages.UniqueBy | src/transformers.ts:228-240 | uniqueBy never yields two items with the same key, nor more items than its source; it ends as its source ended or fails |
| Stages.UniqueByLoop | src/transformers.ts:233-239 | From any set of keys already seen, the loop yields no item whose key was seen and no two items with the same key |
| Stages.Unique | src/transformers.ts:218-226 | unique never yields the same item twice, nor more items than its source, and ends as its source ended |
| Stages.UniqueLoop | src/transformers.ts:220-225 | From any set of items already seen, the loop yields no seen item and no item twice |
| Stages.UniqueByKeepsFirst | src/transformers.ts:228-240 | When the key function does not throw, uniqueBy yields the in-order subsequence of first occurrences by key, no two with the same key, and ends as its source ended |
| Stages.UniqueKeepsFirst | src/transformers.ts:218-226 | unique is uniqueBy with the identity key: it yields the first occurrences, in order, without duplicates |
| Stages.FirstByDistinct | src/transformers.ts:232-238 | The first occurrences by key never repeat a key |
| FoldStages.Chunk | src/transformers.ts:19-34 | chunk reads everything. A completed run yields the blocks of the input, which concatenate back to the input: every block but the last has exactly `size` items and the last is the remainder, which is empty when `size` divides a non-empty input. With fewer than `size` items the only block is the whole input. A failed run has yielded every full block but not the remainder |
| FoldStages.Take | src/transformers.ts:202-216 | take yields a single list. When `0 <= count < n` the list is the first `count` items, after reading `count + 1` items, and the run completes. Otherwise the whole source is read and the list is the whole input, or nothing if the source failed |
| FoldStages.Split | src/transformers.ts:242-257 | When every item splits, split yields all parts in order and reads everything; when no item produced a part, a completed run yields the initial `""` once instead. The first item that cannot be split ends the run with its error, after the parts of the items before it |
| FoldStages.FirstThrow | src/transformers.ts:242-257 | Finds the first item that cannot be split: every earlier item splits |
| FoldStages.Join | src/transformers.ts:259-261 | join yields one string: each item followed by the delimiter, concatenated, so with a trailing delimiter and `""` for no items; nothing if the source failed |
| Producers.ArrayGenerator | src/producers.ts:6-12 | arrayGenerator yields the concatenation of its argument arrays, in order, and completes |
| Producers.GeneratorGenerator | src/producers.ts:15-21 | When every source completes, generatorGenerator yields the concatenation of the sources, each drained before the next starts. When source `k` is the first to fail, it yields the earlier sources and that source's items, then fails with its error, never reading later sources |
| Producers.FirstFailed | src/producers.ts:15-21 | Finds the first source that fails: every earlier source completes |
| Producers.AwaitAll | src/producers.ts:24 | Promise.all resolves exactly when every promise resolves, to their values in argument order; otherwise it rejects with the error of a rejected promise before which every promise resolved |
| Producers.PromiseGenerator | src/producers.ts:23-27 | promiseGenerator completes exactly when every promise resolves, yielding their values in argument order. Otherwise it yields nothing and fails with the error of one of the rejected promises |
| Producers.PromiseGeneratorAwaitsAll | src/producers.ts:23-27 | When every promise resolves, promiseGenerator yields what draining the promises one at a time yields; when one rejects it yields nothing and fails |
| Producers.RoundPulls | src/producers.ts:114-116 | A merge round that does not reject pulls once from every remaining source: a value from each source with items left, `done` from each finished one |
| Producers.RoundProgress | src/producers.ts:113-124 | Every round lowers the remaining items plus remaining sources, under either removal rule, so merge terminates on finite sources |
| Producers.MergeAsWritten | src/producers.ts:113-124 | merge as written fails only with the error of one of its sources, so over sources that all complete it completes. Which items it yields is stated by the lemmas below |
| Producers.MergeFixed | src/producers.ts:113-124 | The intended merge likewise fails only with a source's error and completes over completing sources |
| Producers.MergeFixedInterleaves | src/producers.ts:113-124 | With finished sources removed exactly, merge over completing sources yields their round-robin interleaving: round `r` holds the `r`-th item of every source long enough, in source-list order |
| Producers.SpliceAgrees | src/producers.ts:116-118 | When at most one source finishes in a round, removing by round index from the shrinking array removes exactly the finished source |
| Producers.MergeAgreesOnDistinctLengths | src/producers.ts:113-124 | When no two sources have the same length, merge as written equals the intended merge |
| Producers.MergeTwoSources | src/producers.ts:113-124 | Sources [a1, a2] and [b1, b2, b3, b4] merge to a1, b1, a2, b2, b3, b4 under both removal rules |
| Producers.MergeLosesItems | src/producers.ts:116-118 | Sources [], [] and [c1, c2] merge to [c1] as written, while the intended removal gives [c1, c2] |
| Consumers.Feed | src/consumers.ts:84-89 | Feeding a destination writes exactly the given items once each, in order, and waits for `drain` once per write that returned false |
| Consumers.Offer | src/consumers.ts:94-103 | Offering the next item to every destination extends each destination's calls by that item's write and wait for `drain` when it takes the item, and leaves them unchanged when it does not |
| Consumers.FirstRefusal | src/consumers.ts:82-87 | Finds the first item the destination's condition refuses: it refuses that item and accepts every earlier one |
| Consumers.PipeOne | src/consumers.ts:82-91 | With one destination, items are written in order while its condition holds. At the first refused item the pipe resolves after reading that item, without writing it and without calling `end`. Otherwise `end` is called once after exhaustion, and a failing source rejects without `end` |
| Consumers.PipeAll | src/consumers.ts:94-106 | With several destinations, each one receives exactly the in-order subsequence its own condition accepts, and every destination is ended once after exhaustion |
| Consumers.Pipe | src/consumers.ts:75-107 | pipe without destinations reads nothing; with one or several it behaves as the single-destination and multi-destination paths |
| Consumers.PipeOneAgreesWithAll | src/consumers.ts:82-102 | When the condition holds for every item, a lone destination receives the same writes it would receive in a longer list |
| Consumers.Route | src/consumers.ts:115-121 | The destination pipeFirst picks for an item is the first whose condition holds, or none |
| Consumers.PipeFirst | src/consumers.ts:109-126 | pipeFirst gives each item to the first destination accepting it and drops items nobody accepts; every destination is ended once after exhaustion |
| Consumers.PipeFirstOnExclusiveConditions | src/consumers.ts:109-126 | When no item satisfies two conditions, pipeFirst hands every destination the same items as pipe |
| Consumers.PipeFirstWritableFirst | src/consumers.ts:38-43 | A bare writable's condition is always true, so placed first in pipeFirst it takes every item and later destinations receive nothing |
| Consumers.Each | src/consumers.ts:128-147 | each calls `fn` once per item in order. An error the error map recovers lets the iteration continue; the first unrecovered error, any error without an error map, rejects after that item. Otherwise it settles as its source ended |
| Consumers.EachIsDrainedTap | src/consumers.ts:128-147 | each runs `fn` exactly where tap would, and settles as a fully drained tap ends |
| Consumers.Result | src/consumers.ts:149-155 | result returns every source item in order when the source completes, and the source's error otherwise |
| Facade.GroupBy | src/pipeline.ts:106-122 | groupBy yields only records. When the key function never throws, it yields exactly one record, or nothing if the source failed. The record's keys are exactly the items' keys, and under each key lie the items with that key in arrival order |
| Facade.ApplyStage | src/pipeline.ts:29-69 | The stage each chaining method builds: split and join yield texts, chunk and take lists, groupBy records; join and take yield at most one item; flat spreads one level; filter, unique and uniqueBy never add items, and unique never repeats one; tap and validate yield a prefix of their source |
| Facade.Compose | src/pipeline.ts:29-69 | Chained stages apply in call order: with no stage the source is unchanged, and otherwise the first stage reads the source and the rest read what it yields |
| Facade.FirstUse | src/pipeline.ts:77-97 | Finds the first call that hands the generator to a consumer: every earlier call chains |
| Facade.Drive | src/pipeline.ts:23-137 | While no consumer has been handed the generator, the current generator yields the composition of the chained stages in call order. The first terminal call or fork is handed the composition of the stages chained before it, and the generator is shared from then on. The forkable exists exactly when `fork()` was called; it is the generator current at the first fork, which is unread exactly when no terminal call preceded that fork |
| Facade.FirstFork | src/pipeline.ts:123-128 | The first `fork()` call is found: no fork before it, and it is a fork when it exists |
| Facade.ChainComposes | src/pipeline.ts:29-69 | A chain of calls denotes the composition of its stages however it is split into two chains |
| Facade.NonChainingCallsKeepSequence | src/pipeline.ts:77-97 | Terminal calls and forks add no stage: they never put a new generator in place of the current one |
| Facade.FlatMapSpreadsEmissions | src/pipeline.ts:66-69 | When no call of `fn` throws or stops, flatMap yields the one-level spread of everything `fn` emitted and ends as its source ended |
| Facade.FacadeReduceHasNoFinisher | src/pipeline.ts:46-53 | The facade's reduce passes no finisher: once a step has emitted, a completed run yields exactly the emitted values |
| Facade.JoinDefaultsToEmpty | src/pipeline.ts:34-37 | join without a delimiter equals join with `""`: the items' text concatenated |

## Left out

- Timing and concurrency. Awaits, the event loop, and the interleaving of concurrent promises are not modelled. Every stage is modelled as pulling and handling one item at a time, which is what the code does.
- The multi-destination `pipe` awaits `Promise.all` per item. It is modelled as offering the item to each destination in turn. Per-destination call sequences do not depend on that order.
- Of several rejecting promises, `Promise.all` is modelled as reporting the first in argument order, since settlement timing is not modelled.
- The destination buffer and backpressure timing. Whether `write` returns false is the oracle `accepted(k)`, and the wait for `drain` is an event in the destination's trace.
- Throwing from a destination's `condition`, `write` or `end` is not modelled; these callbacks are total functions.
- Forking. The multicast forkable of src/fork.ts, and the pipelines `fork()` returns, are not part of this model. A fork is seen only as the sequence it captured.
- Stream, readline and EventEmitter producers and consumers (`streamGenerator`, `mergeEventEmitters`, `eventEmitterGenerator`, `streamLineReader`, `toStream` with its JSON conversion) are I/O adapters and are left out. `toGenerator` is a terminal call that returns the current sequence.
- `collect` and `result` are imported into src/pipeline.ts from src/transformers.ts, which defines neither, so the facade's `collect()` and `result()` are both left out. The consumer `result` of src/consumers.ts is modelled as `Consumers.Result`. `apply(fn)` only calls `fn` on the pipeline and is left out as well.
- `fromPipeline` is `merge` over the pipelines' generators. Its zero-source branch indexes an empty array, and that branch is left out.
- JavaScript's `String.prototype.split` (separators, regular expressions, `limit`) is a parameter, `parts`. JavaScript's string conversion of joined items is a parameter, `show`.
- src/helpers.ts (`trim`, `replace`, JSON wrappers), src/types.ts and src/index.ts are wrappers and declarations.
- The missing `buildPassthroughHandleError` (imported in src/transformers.ts but absent from src/errors.ts) is modelled as rethrowing every error.
- Errors.HandleError: an error map holds only truthy handlers. Keys inherited through the prototype chain and falsy values stored under a name are not modelled.
- Facade.Drive: a generator is single-use. After a terminal call, a fork, or `toGenerator` has handed the current generator to a consumer, the model marks it `Shared` and does not say what it, or a stage chained onto it, yields. How far each consumer reads, and how concurrent readers split the items, is not modelled.
- Facade.GroupBy: group keys are strings in a plain map. `res in acc` also sees prototype keys such as `constructor`, and number and symbol keys are not modelled. The contract assumes a key function that does not throw; with one that throws, the run follows the general `reduce` laws.
- Stages.UniqueKeepsFirst: values are compared structurally, while JavaScript's `Set` compares objects and arrays by reference, so for non-primitive items the model differs from the code. Given two distinct arrays `[1]` and `[1]`, JavaScript's `unique` yields both, and the model yields one.
- Stages.UniqueByKeepsFirst: stated only for key functions that do not throw. A throwing key ends the run in the model, as in the code, but that case has no lemma.
- Stages.MapOutput: stated only for runs in which no throwing call emitted before it threw. Such leftover emissions are modelled exactly in `Stages.MapLoop`, where they stay queued until the next call that returns, but the output law does not describe them.
- Fold.Reduce: its own contract only bounds how many items it reads. Its yields and step calls are stated by the lemmas about its call log (`ReduceStepInputs`, `ReduceAbort`, `ReduceImplicitMode`, `ReduceExplicitMode`, `ReducePlain`).
- Fold.Loop: its own contract only bounds the number of step calls. The loop's laws are the `Loop*` lemmas.
- Stages.Map: its own contract only bounds how many items it reads. Its laws are `MapCallInputs`, `MapAbort`, `MapOutput` and `MapWithoutThrows`.
- Stages.MapLoop: its own contract only bounds the number of calls. The loop's laws are the `MapLoop*` lemmas.
- Stages.FilterLoop: states only a length bound and how the run can end. The selection laws are `Stages.Filter`, `Stages.FilterSelects` and `Stages.FilterPerItem`.
- Stages.UniqueBy: states only that keys do not repeat, plus bounds. That exactly the first occurrences are kept is `Stages.UniqueByKeepsFirst`, for key functions that do not throw.
- Stages.UniqueByLoop: as for `Stages.UniqueBy`, from a given set of seen keys.
- Stages.Unique: states only that items do not repeat, plus bounds. That exactly the first occurrences are kept is `Stages.UniqueKeepsFirst`.
- Stages.UniqueLoop: as for `Stages.Unique`, from a given set of seen items.
- Producers.MergeAsWritten: its own contract only says how it can end. Which items it yields is stated by `MergeAgreesOnDistinctLengths`, `MergeTwoSources` and `MergeLosesItems`.
- Producers.MergeFixed: its own contract only says how it can end. Which items it yields is `Producers.MergeFixedInterleaves`.
- Facade.ApplyStage: states per-stage shape facts only. The full behaviour of each stage is the contract of the stage function it calls.
- Stages.FilterPerItem: stated only for predicates that ignore the index. Filter's index skips the calls that threw, so with index-dependent predicates the per-item reading does not hold. Stages.FilterSelects covers predicates that never throw.

## Findings

| source | as written | input that shows it | evidently intended | confidence | as-written member | corrected member |
|---|---|---|---|---|---|---|
| src/producers.ts:116-118 | Within one round, a finished source is removed with `sources.splice(index, 1)`, where `index` is its position in that round's results, from an array that earlier removals in the same round have already shortened | sources [], [] and [c1, c2]: the first round removes the first source and then, at index 1, the source holding c2; merge yields only [c1] | remove exactly the sources that finished in the round, so that every item of every source is yielded in round-robin order | not executed | Producers.MergeAsWritten, shown by Producers.MergeLosesItems | Producers.MergeFixed, proved by Producers.MergeFixedInterleaves |
