/** Frame values that flow through the capture pipeline of the DeckLink input
    delegate: the YUV copies waiting in the raw queue and the converted
    application frames that end up in the output deque. */
module Frames {

  /** Stands for a possibly empty shared pointer. */
  datatype Option<+T> = None | Some(value: T)

  /** The owned 8-bit YUV copy of a captured frame, taken before the capture
      callback returns (the hardware buffer dies with the callback). */
  datatype RawFrame = RawFrame(width: int, height: int, rowBytes: int, yuv: seq<bv8>)

  /** A converted ARGB frame, wrapped as an application frame. */
  datatype Frame = Frame(width: int, height: int, argb: seq<bv8>)

  /** Pixel conversion goes through a device call whose semantics are not
      visible, so it is modelled as an arbitrary total function. */
  type Converter = RawFrame -> Frame

  /** The converted frames of `raw`, position by position. */
  function ConvertAll(convert: Converter, raw: seq<RawFrame>): (fs: seq<Frame>)
    ensures |fs| == |raw|
    ensures forall i :: 0 <= i < |raw| ==> fs[i] == convert(raw[i])
  {
    seq(|raw|, i requires 0 <= i < |raw| => convert(raw[i]))
  }

  lemma ConvertAllAppend(convert: Converter, a: seq<RawFrame>, b: seq<RawFrame>)
    ensures ConvertAll(convert, a + b) == ConvertAll(convert, a) + ConvertAll(convert, b)
  {
  }

  /** `a` is what is left of `b` after dropping some prefix. */
  ghost predicate IsSuffix<T>(a: seq<T>, b: seq<T>) {
    |a| <= |b| && a == b[|b| - |a|..]
  }

  lemma SuffixTransitive<T>(a: seq<T>, b: seq<T>, c: seq<T>)
    requires IsSuffix(a, b) && IsSuffix(b, c)
    ensures IsSuffix(a, c)
  {
    assert b[|b| - |a|..] == c[|c| - |a|..];
  }

  lemma SuffixAppend<T>(a: seq<T>, b: seq<T>, tail: seq<T>)
    requires IsSuffix(a, b)
    ensures IsSuffix(a + tail, b + tail)
  {
    assert (b + tail)[|b + tail| - |a + tail|..] == b[|b| - |a|..] + tail;
  }
}
