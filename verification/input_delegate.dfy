/** The frame-ordering state machine of the DeckLink input delegate: the two
    callbacks the capture side drives (a frame arrives, the consumer asks for
    a frame) as pure transitions over an immutable state record. */
module DeckLinkInput {
  import opened Frames
  import opened FinalFrames
  import opened ReorderCache

  /** The containers of the delegate and the batch counter. */
  datatype Delegate = Delegate(
    rawVideoFrames: seq<RawFrame>,  // raw queue, front = oldest
    tempCache: Cache,               // reorder cache, filled by the tasks of one batch
    finalFrames: seq<Frame>,        // output deque, front = oldest
    frameCount: nat)                // key counter of the last batch

  /** The batch threshold: the processor count, at least one. */
  type ProcCount = n: nat | n >= 1 witness 1

  /** A video frame handed to the callback, with its "no input source" flag. */
  datatype VideoInput = VideoInput(noInputSource: bool, frame: RawFrame)

  /** The state the constructor sets up: empty containers, counter zero. */
  function Init(): Delegate {
    Delegate([], map[], [], 0)
  }

  /** The consumer pull: the oldest finished frame, or an empty pointer when
      none is ready. The requested frame number is ignored. */
  function GetFrame(s: Delegate, requestedFrame: int): (r: (Option<Frame>, Delegate))
    ensures s.finalFrames == [] ==> r == (None, s)
    ensures s.finalFrames != [] ==>
      && r.0 == Some(s.finalFrames[0])
      && [r.0.value] + r.1.finalFrames == s.finalFrames
      && r.1 == s.(finalFrames := r.1.finalFrames)
  {
    var (f, rest) := PopFront(s.finalFrames);
    (f, s.(finalFrames := rest))
  }

  /** Whether the callback for `video` ends up processing a batch. */
  predicate BatchFires(s: Delegate, video: Option<VideoInput>, procs: ProcCount) {
    video.Some? && !video.value.noInputSource && |s.rawVideoFrames| + 1 >= procs
  }

  /** The raw frames that the callback for `video` queues. */
  function Arrived(video: Option<VideoInput>): seq<RawFrame> {
    if video.Some? && !video.value.noInputSource then [video.value.frame] else []
  }

  /** One batch, once the raw queue has reached the threshold: number the
      queued frames, let the tasks insert in completion order `order`, drain
      the keys upwards, clear the cache and trim the output deque. */
  function ProcessBatch(s: Delegate, order: seq<nat>, convert: Converter): (s': Delegate)
    requires IsSchedule(order, |s.rawVideoFrames|)
    ensures s'.rawVideoFrames == []
    ensures s'.tempCache == map[]
    ensures s'.frameCount == |s.rawVideoFrames|
    ensures |s'.finalFrames| <= MaxFinalFrames
  {
    var dispatched := Dispatch(s.rawVideoFrames, 0);
    var cache := Complete(s.tempCache, dispatched.0, order, convert);
    Delegate([], map[], Trim(s.finalFrames + Drain(cache, dispatched.1)), dispatched.1)
  }

  /** The output deque after a batch: the old contents followed by what the
      drain found, cut down to the newest MaxFinalFrames by dropping from the
      head only. */
  lemma ProcessBatchAppendsDrained(s: Delegate, order: seq<nat>, convert: Converter)
    requires IsSchedule(order, |s.rawVideoFrames|)
    ensures var drained := Drain(Complete(s.tempCache, Dispatch(s.rawVideoFrames, 0).0, order, convert), |s.rawVideoFrames|);
      var s' := ProcessBatch(s, order, convert);
      && IsSuffix(s'.finalFrames, s.finalFrames + drained)
      && |s'.finalFrames| == Retained(|s.finalFrames| + |drained|)
  {
    var drained := Drain(Complete(s.tempCache, Dispatch(s.rawVideoFrames, 0).0, order, convert), |s.rawVideoFrames|);
    assert ProcessBatch(s, order, convert).finalFrames == Trim(s.finalFrames + drained);
    TrimAppend(s.finalFrames, drained);
  }

  /** Order restoration for one batch: once every task has inserted, the
      batch appends its converted frames to the output deque in arrival
      order, whatever order the tasks finished in, and the trim keeps the
      newest of them. */
  lemma ProcessBatchInArrivalOrder(s: Delegate, order: seq<nat>, convert: Converter)
    requires IsSchedule(order, |s.rawVideoFrames|)
    requires InsertsAll(order, |s.rawVideoFrames|)
    ensures ProcessBatch(s, order, convert).finalFrames == Trim(s.finalFrames + ConvertAll(convert, s.rawVideoFrames))
  {
    CompleteBatchInArrivalOrder(s.tempCache, s.rawVideoFrames, order, convert);
  }

  /** The arrival callback. A missing frame or one flagged as having no
      input source changes nothing; otherwise the frame joins the raw queue,
      and a full queue is processed as one batch whose tasks finish in
      `order`. */
  function VideoInputFrameArrived(s: Delegate, video: Option<VideoInput>, procs: ProcCount,
                                  convert: Converter, order: seq<nat>): (s': Delegate)
    requires BatchFires(s, video, procs) ==> IsSchedule(order, |s.rawVideoFrames| + 1)
    ensures Arrived(video) == [] ==> s' == s
    ensures Arrived(video) != [] && !BatchFires(s, video, procs) ==>
      s' == s.(rawVideoFrames := s.rawVideoFrames + [video.value.frame])
    ensures BatchFires(s, video, procs) ==>
      && s'.rawVideoFrames == []
      && s'.tempCache == map[]
      && s'.frameCount == |s.rawVideoFrames| + 1
      && |s'.finalFrames| <= MaxFinalFrames
  {
    match video
    case None => s
    case Some(v) =>
      if v.noInputSource then s
      else
        var queued := s.(rawVideoFrames := s.rawVideoFrames + [v.frame]);
        if |queued.rawVideoFrames| >= procs then ProcessBatch(queued, order, convert) else queued
  }

  /** What holds between callbacks: the cache is empty, the raw queue is
      below the threshold and the output deque within its limit. */
  ghost predicate Valid(s: Delegate, procs: ProcCount) {
    && s.tempCache == map[]
    && |s.rawVideoFrames| < procs
    && |s.finalFrames| <= MaxFinalFrames
  }

  lemma InitValid(procs: ProcCount)
    ensures Valid(Init(), procs)
  {
  }

  /** Both callbacks keep the invariant, and every batch holds exactly
      `procs` frames. */
  lemma ArrivalKeepsValid(s: Delegate, video: Option<VideoInput>, procs: ProcCount,
                          convert: Converter, order: seq<nat>)
    requires Valid(s, procs)
    requires BatchFires(s, video, procs) ==> IsSchedule(order, |s.rawVideoFrames| + 1)
    ensures BatchFires(s, video, procs) ==> |s.rawVideoFrames| + 1 == procs
    ensures Valid(VideoInputFrameArrived(s, video, procs, convert, order), procs)
  {
  }

  lemma GetFrameKeepsValid(s: Delegate, requestedFrame: int, procs: ProcCount)
    requires Valid(s, procs)
    ensures Valid(GetFrame(s, requestedFrame).1, procs)
  {
  }

  /** The arrival callback does not depend on the order in which the
      conversion tasks finished, only on which of them did. */
  lemma ArrivalIgnoresCompletionOrder(s: Delegate, video: Option<VideoInput>, procs: ProcCount,
                                      convert: Converter, order1: seq<nat>, order2: seq<nat>)
    requires BatchFires(s, video, procs) ==> IsSchedule(order1, |s.rawVideoFrames| + 1)
    requires BatchFires(s, video, procs) ==> IsSchedule(order2, |s.rawVideoFrames| + 1)
    requires forall k :: k in order1 <==> k in order2
    ensures VideoInputFrameArrived(s, video, procs, convert, order1)
         == VideoInputFrameArrived(s, video, procs, convert, order2)
  {
    if BatchFires(s, video, procs) {
      var queued := s.(rawVideoFrames := s.rawVideoFrames + [video.value.frame]);
      var tasks := Dispatch(queued.rawVideoFrames, 0).0;
      CompletionOrderIrrelevant(queued.tempCache, tasks, order1, order2, convert);
    }
  }

  /** Frames reach the consumer in arrival order: the output deque followed
      by the converted raw queue is the newest part of the converted history
      of all frames that arrived. */
  ghost predicate InArrivalOrder(s: Delegate, history: seq<RawFrame>, convert: Converter) {
    IsSuffix(s.finalFrames + ConvertAll(convert, s.rawVideoFrames), ConvertAll(convert, history))
  }

  lemma InitInArrivalOrder(convert: Converter)
    ensures InArrivalOrder(Init(), [], convert)
  {
  }

  /** A batch whose tasks all finish keeps arrival order. */
  lemma BatchKeepsArrivalOrder(q: Delegate, order: seq<nat>, convert: Converter, history: seq<RawFrame>)
    requires IsSchedule(order, |q.rawVideoFrames|)
    requires InsertsAll(order, |q.rawVideoFrames|)
    requires InArrivalOrder(q, history, convert)
    ensures InArrivalOrder(ProcessBatch(q, order, convert), history, convert)
  {
    var q' := ProcessBatch(q, order, convert);
    ProcessBatchInArrivalOrder(q, order, convert);
    assert q'.finalFrames + ConvertAll(convert, q'.rawVideoFrames) == q'.finalFrames;
    SuffixTransitive(q'.finalFrames, q.finalFrames + ConvertAll(convert, q.rawVideoFrames),
                     ConvertAll(convert, history));
  }

  /** A callback whose batch tasks all finish keeps arrival order across
      batches. */
  lemma ArrivalKeepsArrivalOrder(s: Delegate, video: Option<VideoInput>, procs: ProcCount,
                                 convert: Converter, order: seq<nat>, history: seq<RawFrame>)
    requires BatchFires(s, video, procs) ==> IsSchedule(order, |s.rawVideoFrames| + 1)
    requires BatchFires(s, video, procs) ==> InsertsAll(order, |s.rawVideoFrames| + 1)
    requires InArrivalOrder(s, history, convert)
    ensures InArrivalOrder(VideoInputFrameArrived(s, video, procs, convert, order), history + Arrived(video), convert)
  {
    if Arrived(video) == [] {
      assert history + Arrived(video) == history;
    } else {
      var f := video.value.frame;
      var queued := s.(rawVideoFrames := s.rawVideoFrames + [f]);
      var h' := history + [f];
      ConvertAllAppend(convert, history, [f]);
      ConvertAllAppend(convert, s.rawVideoFrames, [f]);
      SuffixAppend(s.finalFrames + ConvertAll(convert, s.rawVideoFrames), ConvertAll(convert, history),
                   ConvertAll(convert, [f]));
      assert InArrivalOrder(queued, h', convert);
      if BatchFires(s, video, procs) {
        BatchKeepsArrivalOrder(queued, order, convert, h');
      }
    }
  }

  /** The consumer pull keeps arrival order. */
  lemma GetFrameKeepsArrivalOrder(s: Delegate, requestedFrame: int, history: seq<RawFrame>, convert: Converter)
    requires InArrivalOrder(s, history, convert)
    ensures InArrivalOrder(GetFrame(s, requestedFrame).1, history, convert)
  {
    var s' := GetFrame(s, requestedFrame).1;
    var rest := ConvertAll(convert, s.rawVideoFrames);
    if s.finalFrames != [] {
      assert s.finalFrames + rest == [s.finalFrames[0]] + (s'.finalFrames + rest);
      SuffixTransitive(s'.finalFrames + rest, s.finalFrames + rest, ConvertAll(convert, history));
    }
  }

  /** Without pulls, the output deque holds exactly the newest
      MaxFinalFrames converted frames of everything batched so far, and the
      raw queue the frames that arrived since. */
  ghost predicate RetainsNewest(s: Delegate, history: seq<RawFrame>, convert: Converter) {
    && |s.rawVideoFrames| <= |history|
    && history[|history| - |s.rawVideoFrames|..] == s.rawVideoFrames
    && s.finalFrames == Trim(ConvertAll(convert, history[..|history| - |s.rawVideoFrames|]))
  }

  lemma InitRetainsNewest(convert: Converter)
    ensures RetainsNewest(Init(), [], convert)
  {
  }

  lemma BatchKeepsNewestFrames(q: Delegate, order: seq<nat>, convert: Converter, batched: seq<RawFrame>)
    requires IsSchedule(order, |q.rawVideoFrames|)
    requires InsertsAll(order, |q.rawVideoFrames|)
    requires q.finalFrames == Trim(ConvertAll(convert, batched))
    ensures ProcessBatch(q, order, convert).finalFrames == Trim(ConvertAll(convert, batched + q.rawVideoFrames))
  {
    calc {
      ProcessBatch(q, order, convert).finalFrames;
      { ProcessBatchInArrivalOrder(q, order, convert); }
      Trim(Trim(ConvertAll(convert, batched)) + ConvertAll(convert, q.rawVideoFrames));
      { TrimTwice(ConvertAll(convert, batched), ConvertAll(convert, q.rawVideoFrames)); }
      Trim(ConvertAll(convert, batched) + ConvertAll(convert, q.rawVideoFrames));
      { ConvertAllAppend(convert, batched, q.rawVideoFrames); }
      Trim(ConvertAll(convert, batched + q.rawVideoFrames));
    }
  }

  lemma BatchRetainsNewest(q: Delegate, order: seq<nat>, convert: Converter, batched: seq<RawFrame>)
    requires IsSchedule(order, |q.rawVideoFrames|)
    requires InsertsAll(order, |q.rawVideoFrames|)
    requires q.finalFrames == Trim(ConvertAll(convert, batched))
    ensures RetainsNewest(ProcessBatch(q, order, convert), batched + q.rawVideoFrames, convert)
  {
    BatchKeepsNewestFrames(q, order, convert, batched);
    EmptyQueueRetainsNewest(ProcessBatch(q, order, convert), convert, batched + q.rawVideoFrames);
  }

  lemma EmptyQueueRetainsNewest(s: Delegate, convert: Converter, history: seq<RawFrame>)
    requires s.rawVideoFrames == []
    requires s.finalFrames == Trim(ConvertAll(convert, history))
    ensures RetainsNewest(s, history, convert)
  {
    assert history[..|history| - |s.rawVideoFrames|] == history;
    assert history[|history| - |s.rawVideoFrames|..] == [];
  }

  lemma QueueRetainsNewest(s: Delegate, f: RawFrame, convert: Converter, history: seq<RawFrame>)
    requires RetainsNewest(s, history, convert)
    ensures RetainsNewest(s.(rawVideoFrames := s.rawVideoFrames + [f]), history + [f], convert)
  {
    var h' := history + [f];
    var raw := s.rawVideoFrames + [f];
    var batched := history[..|history| - |s.rawVideoFrames|];
    assert history == batched + s.rawVideoFrames;
    assert h' == batched + raw;
    assert h'[..|h'| - |raw|] == batched;
    assert h'[|h'| - |raw|..] == raw;
  }

  lemma QueuedBatchRetainsNewest(s: Delegate, f: RawFrame, order: seq<nat>, convert: Converter, history: seq<RawFrame>)
    requires IsSchedule(order, |s.rawVideoFrames| + 1)
    requires InsertsAll(order, |s.rawVideoFrames| + 1)
    requires RetainsNewest(s, history, convert)
    ensures RetainsNewest(ProcessBatch(s.(rawVideoFrames := s.rawVideoFrames + [f]), order, convert), history + [f], convert)
  {
    var queued := s.(rawVideoFrames := s.rawVideoFrames + [f]);
    var batched := history[..|history| - |s.rawVideoFrames|];
    assert history + [f] == batched + queued.rawVideoFrames;
    BatchRetainsNewest(queued, order, convert, batched);
  }

  lemma ArrivalRetainsNewest(s: Delegate, video: Option<VideoInput>, procs: ProcCount,
                             convert: Converter, order: seq<nat>, history: seq<RawFrame>)
    requires BatchFires(s, video, procs) ==> IsSchedule(order, |s.rawVideoFrames| + 1)
    requires BatchFires(s, video, procs) ==> InsertsAll(order, |s.rawVideoFrames| + 1)
    requires RetainsNewest(s, history, convert)
    ensures RetainsNewest(VideoInputFrameArrived(s, video, procs, convert, order), history + Arrived(video), convert)
  {
    if Arrived(video) == [] {
      assert history + Arrived(video) == history;
    } else if BatchFires(s, video, procs) {
      QueuedBatchRetainsNewest(s, video.value.frame, order, convert, history);
    } else {
      QueueRetainsNewest(s, video.value.frame, convert, history);
    }
  }
}
