/**
  The `chunks` generator that `insert` uses to bound the number of members
  sent to the insert script in one call.
 */
module Chunking {

  /** Concatenation of a sequence of sequences. */
  function Flatten<T>(xss: seq<seq<T>>): (r: seq<T>)
  {
    if |xss| == 0 then [] else xss[0] + Flatten(xss[1..])
  }

  /**
    Consecutive slices of `xs` of `size` elements each, the last one possibly
    shorter. A size of zero takes an empty first slice, and the generator
    stops at the first empty slice, so it yields nothing at all.
   */
  function Chunks<T>(xs: seq<T>, size: nat): (r: seq<seq<T>>)
    ensures size == 0 ==> r == []
    ensures size > 0 ==> Flatten(r) == xs
    ensures forall i :: 0 <= i < |r| ==> 0 < |r[i]| <= size
    ensures forall i :: 0 <= i < |r| - 1 ==> |r[i]| == size
    decreases |xs|
  {
    if size == 0 || |xs| == 0 then []
    else if |xs| <= size then [xs]
    else
      var rest := Chunks(xs[size..], size);
      assert Flatten([xs[..size]] + rest) == xs[..size] + Flatten(rest);
      assert xs[..size] + xs[size..] == xs;
      [xs[..size]] + rest
  }
}
