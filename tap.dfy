/**
 * The tap detector behind grid cells: a mouse or pen press taps at once;
 * a touch taps on release only if it stayed within the movement threshold
 * and was released within 300 ms.
 */
module TapInteraction {
  import opened Wrappers

  const DEFAULT_THRESHOLD := 8
  const TAP_MAX_MS := 300

  datatype PointerType = Mouse | Pen | Touch

  /** The fields of a `PointerEvent` the handlers read. */
  datatype Pointer = Pointer(pointerType: PointerType, button: int, pointerId: int, x: int, y: int)

  function Abs(n: int): nat {
    if n < 0 then -n else n
  }

  /** Whether a move has left the threshold box around the start point (strictly beyond, on either axis). */
  predicate Beyond(startX: int, startY: int, x: int, y: int, threshold: int) {
    Abs(x - startX) > threshold || Abs(y - startY) > threshold
  }

  /** The hook's refs (`start`, `moved`, `pointerId`) and the taps it has fired. */
  class TapDetector {
    const threshold: int
    var startX: int
    var startY: int
    var startTime: int
    var moved: bool
    var tracked: Option<int>
    var taps: seq<Pointer>

    constructor (threshold: int)
      ensures this.threshold == threshold
      ensures startX == 0 && startY == 0 && startTime == 0 && !moved && tracked == None && taps == []
    {
      this.threshold := threshold;
      startX, startY, startTime := 0, 0, 0;
      moved := false;
      tracked := None;
      taps := [];
    }

    /** `onPointerDown`; `now` is `Date.now()`. */
    method PointerDown(e: Pointer, now: int)
      modifies this
      ensures e.pointerType == Mouse && e.button != 0 ==>
                && taps == old(taps) && tracked == old(tracked) && moved == old(moved)
                && startX == old(startX) && startY == old(startY) && startTime == old(startTime)
      ensures (e.pointerType == Pen || (e.pointerType == Mouse && e.button == 0)) ==>
                && taps == old(taps) + [e] && tracked == old(tracked) && moved == old(moved)
                && startX == old(startX) && startY == old(startY) && startTime == old(startTime)
      ensures e.pointerType == Touch ==>
                && taps == old(taps) && tracked == Some(e.pointerId) && !moved
                && startX == e.x && startY == e.y && startTime == now
    {
      if e.pointerType == Mouse && e.button != 0 {
        return;
      }
      if e.pointerType != Touch {
        taps := taps + [e];
        return;
      }
      tracked := Some(e.pointerId);
      startX, startY, startTime := e.x, e.y, now;
      moved := false;
    }

    /** `onPointerMove`: once `moved` is set it stays set until the next touch-down. */
    method PointerMove(e: Pointer)
      modifies this
      ensures tracked == old(tracked) && taps == old(taps)
      ensures startX == old(startX) && startY == old(startY) && startTime == old(startTime)
      ensures moved == (old(moved) || (old(tracked) == Some(e.pointerId) && Beyond(startX, startY, e.x, e.y, threshold)))
    {
      if tracked != Some(e.pointerId) {
        return;
      }
      if Abs(e.x - startX) > threshold || Abs(e.y - startY) > threshold {
        moved := true;
      }
    }

    /** `onPointerUp`: taps iff it is the tracked pointer, not moved, and quick; then stops tracking. */
    method PointerUp(e: Pointer, now: int)
      modifies this
      ensures old(tracked) != Some(e.pointerId) ==> tracked == old(tracked) && taps == old(taps)
      ensures old(tracked) == Some(e.pointerId) ==>
                && tracked == None
                && taps == old(taps) + (if !moved && now - startTime < TAP_MAX_MS then [e] else [])
      ensures moved == old(moved) && startX == old(startX) && startY == old(startY) && startTime == old(startTime)
    {
      if tracked != Some(e.pointerId) {
        return;
      }
      if !moved && now - startTime < TAP_MAX_MS {
        taps := taps + [e];
      }
      tracked := None;
    }

    /** `onPointerCancel`. */
    method PointerCancel()
      modifies this
      ensures tracked == None && taps == old(taps) && moved == old(moved)
      ensures startX == old(startX) && startY == old(startY) && startTime == old(startTime)
    {
      tracked := None;
    }
  }

  /** A touch that wanders past the threshold never taps, however it comes back. */
  method MovedTouchDoesNotTap(threshold: int, down: Pointer, away: Pointer, back: Pointer, t0: int, t1: int)
      returns (tapped: bool)
    requires down.pointerType == Touch && away.pointerId == down.pointerId && back.pointerId == down.pointerId
    requires Beyond(down.x, down.y, away.x, away.y, threshold)
    ensures !tapped
  {
    var d := new TapDetector(threshold);
    d.PointerDown(down, t0);
    d.PointerMove(away);
    d.PointerMove(back);
    d.PointerUp(back, t1);
    tapped := |d.taps| > 0;
  }

  /** A quick, still touch taps exactly once, with the release event. */
  method QuickTouchTaps(threshold: int, down: Pointer, up: Pointer, t0: int, t1: int)
      returns (taps: seq<Pointer>)
    requires down.pointerType == Touch && up.pointerId == down.pointerId
    requires t1 - t0 < TAP_MAX_MS
    ensures taps == [up]
  {
    var d := new TapDetector(threshold);
    d.PointerDown(down, t0);
    d.PointerUp(up, t1);
    taps := d.taps;
  }

  /** After a cancel, the release of the same touch fires nothing. */
  method CancelledTouchDoesNotTap(threshold: int, down: Pointer, up: Pointer, t0: int, t1: int)
      returns (taps: seq<Pointer>)
    requires down.pointerType == Touch && up.pointerId == down.pointerId
    ensures taps == []
  {
    var d := new TapDetector(threshold);
    d.PointerDown(down, t0);
    d.PointerCancel();
    d.PointerUp(up, t1);
    taps := d.taps;
  }
}
