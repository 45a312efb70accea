/** The congestion window.  The value of the CUBIC curve is an input: whatever it is, the window
    stays in its range. */
module Congestion {
  import opened Bytes

  const UINT32: nat := 0x1_0000_0000

  function Clamp(lo: nat, hi: nat, x: nat): nat {
    if x < lo then lo else if x > hi then hi else x
  }

  class Cubic {
    const minWindow: nat
    const maxWindow: nat
    var slowStart: bool
    var window: nat
    var windowBeforeReduction: nat
    var accumulatedAcks: nat

    ghost predicate Valid()
      reads this
    {
      minWindow <= window <= maxWindow < UINT32 - 1 && accumulatedAcks < UINT32
    }

    constructor (minWindow: nat, maxWindow: nat)
      requires minWindow <= maxWindow < UINT32 - 1
      ensures Valid() && this.minWindow == minWindow && this.maxWindow == maxWindow
      ensures slowStart && window == minWindow
    {
      this.minWindow, this.maxWindow := minWindow, maxWindow;
      slowStart, window, windowBeforeReduction, accumulatedAcks := true, minWindow, 0, 0;
    }

    /** One more segment was acknowledged; `curve` is the CUBIC curve, converted to 32 bits. */
    method OnAck(curve: nat)
      requires Valid() && curve < UINT32
      modifies this
      ensures Valid() && slowStart == old(slowStart)
      ensures slowStart ==> window == Min(old(window) + 1, maxWindow)
      ensures !slowStart ==> window == Max(minWindow, Min(maxWindow, (curve + accumulatedAcks / 16) % UINT32))
      ensures accumulatedAcks == if slowStart then old(accumulatedAcks) else (old(accumulatedAcks) + 1) % UINT32
      ensures windowBeforeReduction == old(windowBeforeReduction)
    {
      if slowStart {
        window := Clamp(minWindow, maxWindow, window + 1);
      } else {
        accumulatedAcks := (accumulatedAcks + 1) % UINT32;
        window := Clamp(minWindow, maxWindow, (curve + accumulatedAcks / 16) % UINT32);
      }
    }

    /** A loss was detected early; `reduced` is the window after multiplication by beta. */
    method OnLoss(reduced: nat)
      requires Valid() && reduced <= window
      modifies this
      ensures Valid() && !slowStart && window == Max(minWindow, reduced) <= old(window)
      ensures windowBeforeReduction == old(window) && accumulatedAcks == 0
    {
      slowStart, windowBeforeReduction, accumulatedAcks := false, window, 0;
      window := Clamp(minWindow, maxWindow, reduced);
    }

    method OnTimeout()
      requires Valid()
      modifies this
      ensures Valid() && slowStart && window == minWindow
      ensures windowBeforeReduction == accumulatedAcks == 0
    {
      slowStart, window, windowBeforeReduction, accumulatedAcks := true, minWindow, 0, 0;
    }
  }
}
