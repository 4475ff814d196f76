/** The stacking arithmetic shared by both window managers: `Math.max(...zs)`. */
module ZOrder {

  /** The largest element of a non-empty sequence. */
  function Max(zs: seq<int>): (m: int)
    requires |zs| > 0
    ensures forall i :: 0 <= i < |zs| ==> zs[i] <= m
    ensures exists i :: 0 <= i < |zs| && zs[i] == m
  {
    if |zs| == 1 then zs[0]
    else
      var rest := Max(zs[1..]);
      if zs[0] >= rest then zs[0] else rest
  }
}
