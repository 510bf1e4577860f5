/** `initParallaxEffect` of js/animations.js: scroll events are coalesced
    through the `ticking` flag into at most one pending animation frame,
    and the frame moves every parallax element by `-(scrollY * speed)`.
    The requested frame is the counter `pendingFrames`; running it is a
    call of `OnFrame`. */
module AnimationsParallax {
  import opened Wrappers
  import opened JsText

  /** The vertical offset of one element: `speed` is `parseFloat` of its
      `data-parallax` attribute (`None` when missing or unparsable), with
      0.5 for a missing, unparsable or zero speed. */
  function Offset(scrollY: real, speed: Option<real>): (y: real)
    ensures speed.Some? && speed.value != 0.0 ==> y == -(scrollY * speed.value)
    ensures speed == None || speed == Some(0.0) ==> y + y == -scrollY
  {
    -(scrollY * OrReal(speed, 0.5))
  }

  class Parallax {
    /** The parsed `data-parallax` of each matched element. */
    const speeds: seq<Option<real>>
    var ticking: bool
    /** Animation frames requested and not yet run. */
    var pendingFrames: nat
    /** The offset each element's `translate3d` was last set to (`None`
        before the first frame). */
    var offsets: seq<Option<real>>

    ghost predicate Valid()
      reads this
    {
      |offsets| == |speeds|
      && pendingFrames == (if ticking then 1 else 0)
    }

    /** The scroll listener is only installed when some element matched. */
    predicate Listening()
    {
      |speeds| > 0
    }

    constructor (speeds: seq<Option<real>>)
      ensures Valid()
      ensures this.speeds == speeds && !ticking && pendingFrames == 0
      ensures offsets == seq(|speeds|, _ => None)
    {
      this.speeds := speeds;
      ticking := false;
      pendingFrames := 0;
      offsets := seq(|speeds|, _ => None);
    }

    /** A `scroll` event: however many arrive before the next frame, exactly
        one frame is pending afterwards. */
    method OnScroll()
      requires Valid()
      modifies this
      ensures Valid()
      ensures Listening() ==> ticking && pendingFrames == 1
      ensures !Listening() ==> ticking == old(ticking) && pendingFrames == old(pendingFrames)
      ensures offsets == old(offsets)
    {
      if Listening() && !ticking {
        pendingFrames := pendingFrames + 1;
        ticking := true;
      }
    }

    /** `updateParallax` runs in the requested frame with the window at
        `scrollY`: every element gets its offset, and the flag is cleared so
        the next scroll requests a new frame. */
    method OnFrame(scrollY: real)
      requires Valid() && pendingFrames > 0
      modifies this
      ensures Valid()
      ensures !ticking && pendingFrames == 0
      ensures |offsets| == |speeds|
      ensures forall i :: 0 <= i < |speeds| ==> offsets[i] == Some(Offset(scrollY, speeds[i]))
    {
      var i := 0;
      var updated := offsets;
      while i < |speeds|
        invariant 0 <= i <= |speeds| && |updated| == |speeds|
        invariant forall k :: 0 <= k < i ==> updated[k] == Some(Offset(scrollY, speeds[k]))
      {
        var speed := OrReal(speeds[i], 0.5);
        var yPos := -(scrollY * speed);
        assert yPos == Offset(scrollY, speeds[i]);
        updated := updated[i := Some(yPos)];
        i := i + 1;
      }
      offsets := updated;
      ticking := false;
      pendingFrames := pendingFrames - 1;
    }
  }

  /** A burst of scroll events followed by one frame: the burst leaves one
      frame pending and the frame leaves none, so the next burst can request
      again. */
  method ScrollBurst(p: Parallax, events: nat, scrollY: real)
    requires p.Valid() && p.Listening() && events > 0
    modifies p
    ensures p.Valid() && !p.ticking && p.pendingFrames == 0
    ensures forall i :: 0 <= i < |p.speeds| ==> p.offsets[i] == Some(Offset(scrollY, p.speeds[i]))
  {
    var n := 0;
    while n < events
      invariant 0 <= n <= events && p.Valid()
      invariant n > 0 ==> p.pendingFrames == 1
    {
      p.OnScroll();
      n := n + 1;
    }
    p.OnFrame(scrollY);
  }
}
