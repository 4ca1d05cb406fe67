/** The output deque `final_frames`: converted frames in delivery order,
    appended at the tail by the drain, trimmed from the head, popped from the
    head by the consumer. */
module FinalFrames {
  import opened Frames

  /** How many converted frames the delegate keeps at most. */
  const MaxFinalFrames: nat := 20

  /** The number of frames left after trimming a deque of `n` frames. */
  function Retained(n: nat): nat {
    if n <= MaxFinalFrames then n else MaxFinalFrames
  }

  /** Drops frames from the head, oldest first, while more than
      MaxFinalFrames are held: what remains are the newest frames, in order. */
  function Trim(q: seq<Frame>): (r: seq<Frame>)
    ensures |r| <= MaxFinalFrames
    ensures |r| == Retained(|q|)
    ensures r == q[|q| - |r|..]
    decreases |q|
  {
    if |q| > MaxFinalFrames then Trim(q[1..]) else q
  }

  /** Non-blocking pop: the head frame and the rest, or nothing on an empty deque. */
  function PopFront(q: seq<Frame>): (r: (Option<Frame>, seq<Frame>))
    ensures q == [] <==> r.0.None?
    ensures q == [] ==> r.1 == q
    ensures q != [] ==> [r.0.value] + r.1 == q
  {
    if |q| > 0 then (Some(q[0]), q[1..]) else (None, q)
  }

  /** Appending a batch and trimming keeps the newest frames of the whole. */
  lemma TrimAppend(a: seq<Frame>, b: seq<Frame>)
    ensures IsSuffix(Trim(a + b), a + b)
    ensures |Trim(a + b)| == Retained(|a| + |b|)
  {
  }

  /** Trimming only looks at the newest frames: a suffix that still holds at
      least as many frames as trimming keeps trims to the same deque. */
  lemma TrimSuffix(x: seq<Frame>, y: seq<Frame>)
    requires IsSuffix(x, y)
    requires |x| >= Retained(|y|)
    ensures Trim(x) == Trim(y)
  {
    var m := Retained(|y|);
    var tx, ty := x[|x| - m..], y[|y| - m..];
    assert Trim(x) == tx;
    assert Trim(y) == ty;
    forall i | 0 <= i < m
      ensures tx[i] == ty[i]
    {
      assert x[|x| - m + i] == y[|y| - |x| + (|x| - m + i)];
    }
  }

  /** Trimming after every batch keeps exactly the newest MaxFinalFrames of
      everything appended so far, as one trim at the end would. */
  lemma TrimTwice(a: seq<Frame>, b: seq<Frame>)
    ensures Trim(Trim(a) + b) == Trim(a + b)
  {
    SuffixAppend(Trim(a), a, b);
    TrimSuffix(Trim(a) + b, a + b);
  }
}
