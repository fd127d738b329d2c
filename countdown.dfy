/**
 * The numbers `delay_time` prints, one per second, before a long or destructive step.
 * Only the sequence of numbers is modelled; the title line and the sleeping are not.
 */
module Countdown {

  /** The descending range from numSec down to 1, and nothing when numSec <= 0. */
  function Ticks(numSec: int): (r: seq<int>)
    ensures |r| == if numSec > 0 then numSec else 0
    ensures forall k :: 0 <= k < |r| ==> r[k] == numSec - k
    decreases numSec
  {
    if numSec <= 0 then [] else [numSec] + Ticks(numSec - 1)
  }

  /** The countdown loop of `delay_time`; `shown` is what it prints. */
  method DelayTime(numSec: int) returns (shown: seq<int>)
    ensures shown == Ticks(numSec)
  {
    shown := [];
    var i := numSec;
    while i > 0
      invariant shown + Ticks(i) == Ticks(numSec)
      decreases i
    {
      shown := shown + [i];
      i := i - 1;
    }
  }
}
