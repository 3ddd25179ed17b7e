module Bytes {

  type Byte = b: int | 0 <= b < 256

  /** One more step through a queue: `kept` takes in `taken` and gives out `given`. */
  lemma QueueStep<T>(all: seq<T>, out: seq<T>, kept: seq<T>, taken: seq<T>, given: seq<T>, kept': seq<T>)
    requires all == out + kept && kept + taken == given + kept'
    ensures all + taken == (out + given) + kept'
  {
    calc {
      all + taken;
      out + (kept + taken);
      out + (given + kept');
      (out + given) + kept';
    }
  }

  lemma PartMoves<T>(all: seq<T>, out: seq<T>, kept: seq<T>, moved: seq<T>, rest: seq<T>)
    requires all == out + kept && kept == moved + rest
    ensures all == (out + moved) + rest && |all| == |out| + |moved| + |rest|
  {
  }
}
