# DeckLink input frame ordering, modelled in Dafny

This project models the frame-ordering core of `DeckLinkInputDelegate` in
libopenshot (`src/DecklinkInput.cpp`). The capture card calls the delegate once per
captured frame. The delegate copies each frame into a raw queue. Once the queue
holds as many frames as there are processors, it converts the whole queue in
parallel. Each conversion task inserts its result into a reorder cache keyed by
the frame's position in the batch. A drain then walks the keys upwards and
appends the frames to the output deque `final_frames`. The deque is trimmed to
the newest 20 frames, and the consumer pops frames from its head with
`GetFrame`.

The model is functional. The delegate is an immutable record of the three
containers and the batch counter (`DeckLinkInput.Delegate`), and each callback
is a pure transition function:

- `frames.dfy` (`Frames`): the frame values and the conversion. Conversion is an
  arbitrary total function `RawFrame -> Frame`.
- `final_frames.dfy` (`FinalFrames`): the output deque, with the retention limit
  `MaxFinalFrames = 20`, head trimming and the non-blocking pop.
- `reorder_cache.dfy` (`ReorderCache`): one batch. It covers the dispatch loop that
  assigns keys 0..n-1, the tasks inserting in an arbitrary completion order, and
  the drain in key order.
- `input_delegate.dfy` (`DeckLinkInput`): the delegate state, the two callbacks,
  the invariant between callbacks, and arrival order across batches.

Concurrency is abstracted as follows. The OpenMP tasks of a batch finish in any
order, and all of them finish before the drain, because the parallel region
joins first. A batch therefore takes a completion order `order: seq<nat>`: the
keys of the tasks in the order they reach the cache. `IsSchedule` requires each
key to be below n and to appear at most once. `InsertsAll` says every key
appears. The code has no path on which a task skips its insert, so `InsertsAll`
is what actually happens; the order-restoration theorems assume it. The drain
still tolerates absent keys, and `PartialBatchInArrivalOrder` states what it
yields then. The batch threshold `omp_get_num_procs()` is a parameter of type
`ProcCount` (a natural number of at least 1).

Three behaviours of the code shape the model:

- Every dispatched task inserts its frame. No branch in the task skips the
  insert (src/DecklinkInput.cpp:168-209). A failed RGB allocation is not a
  skip: it leaves `m_rgbFrame` null, and the task then dereferences it at
  src/DecklinkInput.cpp:195. The model assumes allocation succeeds (see
  "## Left out").
- Cache keys are batch positions. The dispatch loop resets them to 0 for each
  batch (src/DecklinkInput.cpp:154-166).
- `GetFrame` ignores its requested frame number (src/DecklinkInput.cpp:71-87).

## Model

| member | source | states |
|---|---|---|
| `FinalFrames.Trim` | src/DecklinkInput.cpp:244-247 | Trimming keeps exactly min(n, 20) frames, and they are the newest ones in their original order (a suffix of the input). |
| `FinalFrames.TrimTwice` | src/DecklinkInput.cpp:244-247 | Trimming after every batch gives the same deque as one trim over everything appended, so without pulls the deque is always the newest 20 frames ever pushed. |
| `ReorderCache.Dispatch` | src/DecklinkInput.cpp:153-224 | The dispatch loop takes the raw queue front-first. The i-th task gets key start+i and the i-th queued frame, and the counter ends at start+n. |
| `ReorderCache.Complete` | src/DecklinkInput.cpp:168-219 | After the tasks insert in any completion order, the cache holds the converted frame of its own task for every key that finished. It also keeps the old entries under other keys and has no other keys. |
| `ReorderCache.DrainKeys` | src/DecklinkInput.cpp:230-233 | The keys the drain visits are exactly the cache keys below the counter. |
| `ReorderCache.DrainKeysIncreasing` | src/DecklinkInput.cpp:230-233 | The drain visits keys in strictly increasing order. |
| `ReorderCache.IncreasingEnumerationUnique` | src/DecklinkInput.cpp:230-233 | Two strictly increasing key sequences with the same members are equal, so the drain's key order is fully determined by which keys are present. |
| `ReorderCache.Drain` | src/DecklinkInput.cpp:230-239 | The drain appends one frame per visited key: the cache entry under that key, in visiting order. |
| `ReorderCache.DrainKeysAllPresent` | src/DecklinkInput.cpp:230-239 | When every key below the counter is present, the drain visits 0, 1, ..., n-1. |
| `ReorderCache.DrainFullBatch` | src/DecklinkInput.cpp:230-239 | A cache holding the converted frame at every batch position drains to exactly the converted batch, in arrival order. |
| `ReorderCache.CompleteBatchInArrivalOrder` | src/DecklinkInput.cpp:154-239 | When every task inserted, the drain yields the converted batch in arrival order, whatever the completion order and whatever the cache held before. |
| `ReorderCache.PartialBatchInArrivalOrder` | src/DecklinkInput.cpp:206-239 | If only some tasks inserted (starting from an empty cache), the drain yields exactly their converted frames, in increasing arrival position. |
| `ReorderCache.CompletionOrderIrrelevant` | src/DecklinkInput.cpp:168-227 | The cache after the join depends only on which tasks finished, not on the order in which they finished. |
| `DeckLinkInput.GetFrame` | src/DecklinkInput.cpp:71-87 | On a non-empty deque, returns the front frame and removes exactly that frame, leaving the other containers unchanged. On an empty deque, returns nothing and changes nothing. |
| `DeckLinkInput.ProcessBatch` | src/DecklinkInput.cpp:146-247 | After a batch, the raw queue and the reorder cache are empty, the counter equals the batch size, and the deque holds at most 20 frames. |
| `DeckLinkInput.ProcessBatchAppendsDrained` | src/DecklinkInput.cpp:229-247 | The deque after a batch is a suffix of (old deque ++ drained frames), of length min(20, total), so trimming only removes from the head. |
| `DeckLinkInput.ProcessBatchInArrivalOrder` | src/DecklinkInput.cpp:146-247 | When every task inserted, the deque after a batch is the trimmed (old deque ++ converted batch in arrival order). |
| `DeckLinkInput.VideoInputFrameArrived` | src/DecklinkInput.cpp:89-255 | A missing frame or a frame flagged "no input source" changes nothing. A valid frame below the threshold is appended to the raw queue and nothing else changes. A batch leaves the raw queue and cache empty, the counter at n and the deque within 20. |
| `DeckLinkInput.InitValid` | src/DecklinkInput.cpp:32-40 | The constructed delegate satisfies the between-callbacks invariant: empty cache, raw queue below the threshold, deque within 20. |
| `DeckLinkInput.ArrivalKeepsValid` | src/DecklinkInput.cpp:141-247 | The arrival callback keeps the invariant, and every batch it processes holds exactly as many frames as the threshold. |
| `DeckLinkInput.GetFrameKeepsValid` | src/DecklinkInput.cpp:71-87 | A pull keeps the invariant. |
| `DeckLinkInput.ArrivalIgnoresCompletionOrder` | src/DecklinkInput.cpp:149-239 | Two completion orders with the same finished tasks give the same delegate state after the callback. |
| `DeckLinkInput.InitInArrivalOrder` | src/DecklinkInput.cpp:32-40 | The constructed delegate is in arrival order for the empty history. |
| `DeckLinkInput.BatchKeepsArrivalOrder` | src/DecklinkInput.cpp:146-247 | A batch in which every task inserted keeps "deque ++ converted raw queue is the newest part of the converted arrival history". |
| `DeckLinkInput.ArrivalKeepsArrivalOrder` | src/DecklinkInput.cpp:89-255 | Across batches, the frames that reach the deque are the converted arrivals in arrival order, with only older frames missing. |
| `DeckLinkInput.GetFrameKeepsArrivalOrder` | src/DecklinkInput.cpp:71-87 | Pulling from the head keeps arrival order. |
| `DeckLinkInput.BatchKeepsNewestFrames` | src/DecklinkInput.cpp:229-247 | If the deque holds the newest 20 converted frames of the earlier batches, after a full batch it holds the newest 20 of those batches plus this one. |
| `DeckLinkInput.InitRetainsNewest` | src/DecklinkInput.cpp:32-40 | The constructed delegate retains the newest frames of the empty history. |
| `DeckLinkInput.ArrivalRetainsNewest` | src/DecklinkInput.cpp:141-247 | Without pulls, the deque is always exactly the newest 20 converted frames of everything batched so far, and the raw queue holds the frames that arrived since. |

## Left out

- Device calls are not modelled: `CreateVideoFrame`, `GetBytes`, the `memcpy` copy, `ConvertFrame` and the timecode lookup (src/DecklinkInput.cpp:101-138, 174-195). They are foreign hardware calls with no visible semantics, so conversion is an arbitrary function and copying is the identity.
- Building the application frame, `AddImage` and `TransparentColors` (src/DecklinkInput.cpp:197-204) are not modelled. They belong to an external image library and use a floating-point tolerance.
- The frame number given to the application frame (src/DecklinkInput.cpp:198) is not modelled. The task reads the shared counter there, not its private copy, which is a data race. Only the cache key is modelled.
- Frame dimensions inside a task (src/DecklinkInput.cpp:177-178, 180-186) are read from the frame that triggered the batch, not the task's own. Within one callback the model folds them into that callback's conversion function. After an input format change, the same raw frame would be converted differently depending on its batch. The lemmas that span several callbacks assume one conversion for the whole history, that is, a constant input format (see the three lines below).
- OpenMP threads and critical sections (src/DecklinkInput.cpp:75, 147-227) are not modelled. They are replaced by an arbitrary completion order followed by a join.
- Every `CreateVideoFrame` is assumed to succeed (src/DecklinkInput.cpp:125-137, 180-189). On failure the code logs a message for the RGB frame and then dereferences the null frame pointer (src/DecklinkInput.cpp:137, 195), which is undefined behaviour and in practice a crash. The model has no crash state.
- Each callback is modelled as atomic: a pull sees the deque only between callbacks. The code does not guarantee this. `GetFrame` pops under the critical section `blackmagic_input_queue` (src/DecklinkInput.cpp:75-83), but the drain's `push_back` and the trim's `pop_front` (src/DecklinkInput.cpp:237, 245-247) run on the capture thread outside any critical section. A concurrent pull can therefore race them on the same `std::deque`, which is a data race with no defined outcome.
- Reference counting, the mutex and `delete this` (src/DecklinkInput.cpp:42-69) are left out as lifetime plumbing.
- `VideoInputFormatChanged` (src/DecklinkInput.cpp:257-260) is left out; it does nothing.
- The output scheduler in include/DecklinkOutput.h is left out. Only its declarations are available, and no function bodies.
- The reorder cache class is not part of this model. Its `Add` is modelled as a map update that overwrites. An overwrite never happens, because keys within a batch are distinct and the cache is empty between batches.
- The unsigned counter `frameCount` is modelled as an unbounded natural number. It counts at most one batch of frames, so wrap-around cannot occur.
- The raw queue has no bound in the code, and none is added here.
- `ArrivalKeepsArrivalOrder`: stated only for completion orders in which every task inserted. That is the only case the code produces. The partial case is covered per batch by `PartialBatchInArrivalOrder`.
- `ArrivalKeepsArrivalOrder`: the invariant `InArrivalOrder` uses one conversion function for the whole history, so the lemma assumes the input format does not change between batches.
- `BatchKeepsNewestFrames`: the invariant `RetainsNewest` uses one conversion function for every batch, so the lemma assumes the input format does not change between batches.
- `ArrivalRetainsNewest`: assumes a constant input format, for the same reason as `BatchKeepsNewestFrames`.
- `ArrivalRetainsNewest`: stated without intervening pulls. With pulls, `GetFrameKeepsArrivalOrder` and `ArrivalKeepsArrivalOrder` still give arrival order.
