/** What becomes of the frames that leave a queue. */
module Departures {

  /** Delivered to the consumer, dropped to make room, or lost in an overfull buffer. */
  datatype Departure<T> = Delivered(frame: T) | Dropped(frame: T) | Lost(frame: T)

  function FramesOf<T>(ds: seq<Departure<T>>): (fs: seq<T>)
    ensures |fs| == |ds| && forall i :: 0 <= i < |ds| ==> fs[i] == ds[i].frame
  {
    seq(|ds|, i requires 0 <= i < |ds| => ds[i].frame)
  }
}
