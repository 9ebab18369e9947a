/** Selecting elements of a sequence by position. */
module Sequences {

  /** The elements at the given positions. */
  function Select<T>(all: seq<T>, positions: seq<nat>): (r: seq<T>)
    requires forall k :: 0 <= k < |positions| ==> positions[k] < |all|
    ensures |r| == |positions| && forall k :: 0 <= k < |r| ==> r[k] == all[positions[k]]
  {
    seq(|positions|, k requires 0 <= k < |positions| => all[positions[k]])
  }
}
