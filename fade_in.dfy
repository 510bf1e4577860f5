/** `FadeInSequence` of js/supernova.js: element `i` of a list gets the
    `animate` class `delay + i * stagger` milliseconds after `start()`.
    The timers are recorded, not run; a timer firing is a call of `Fire`. */
module SupernovaFadeIn {
  import opened Wrappers
  import opened JsText

  /** When element `i` is due. */
  function DueAt(delay: int, stagger: int, i: nat): int
  {
    delay + i * stagger
  }

  /** With a positive stagger the elements are due strictly one after the
      other, in list order, `stagger` apart. */
  lemma {:induction false} DueAtIncreasing(delay: int, stagger: int, i: nat, j: nat)
    requires stagger > 0 && i < j
    ensures DueAt(delay, stagger, i) < DueAt(delay, stagger, j)
    ensures DueAt(delay, stagger, j) - DueAt(delay, stagger, i) == (j - i) * stagger
    decreases j - i
  {
    if j > i + 1 {
      DueAtIncreasing(delay, stagger, i, j - 1);
      assert (j - i) * stagger == (j - 1 - i) * stagger + stagger;
    } else {
      assert (i + 1) * stagger == i * stagger + stagger;
    }
  }

  /** Without a stagger option (or with 0) the stagger is 300, so the
      schedule always increases; a missing or 0 delay starts at 0. */
  lemma DefaultScheduleIncreasing(delay: Option<int>, stagger: Option<int>, i: nat, j: nat)
    requires stagger == None || stagger == Some(0)
    requires i < j
    ensures DueAt(OrInt(delay, 0), OrInt(stagger, 300), i) < DueAt(OrInt(delay, 0), OrInt(stagger, 300), j)
    ensures delay == None ==> DueAt(OrInt(delay, 0), OrInt(stagger, 300), i) == 300 * i
  {
    DueAtIncreasing(OrInt(delay, 0), 300, i, j);
  }

  class FadeInSequence {
    /** `elements.length`. */
    const count: nat
    const delay: int
    const stagger: int
    /** The `setTimeout` delays, one per element, in the order they were set. */
    var timers: seq<int>
    /** Elements that have the `animate` class. */
    var animated: set<nat>

    /** `new FadeInSequence(elements, options)`. */
    constructor (count: nat, delay: Option<int>, stagger: Option<int>)
      ensures this.count == count
      ensures this.delay == OrInt(delay, 0) && this.stagger == OrInt(stagger, 300)
      ensures timers == [] && animated == {}
    {
      this.count := count;
      this.delay := OrInt(delay, 0);
      this.stagger := OrInt(stagger, 300);
      timers := [];
      animated := {};
    }

    /** `start()`: one more timer per element, element `i` due at
        `DueAt(i)`; the timers of an earlier `start()` stay set, so a second
        call schedules a second batch. */
    method Start()
      modifies this
      ensures |timers| == |old(timers)| + count
      ensures timers[..|old(timers)|] == old(timers)
      ensures forall j :: |old(timers)| <= j < |timers| ==> timers[j] == DueAt(delay, stagger, j - |old(timers)|)
      ensures animated == old(animated)
    {
      var base := |timers|;
      var i := 0;
      while i < count
        invariant 0 <= i <= count && |timers| == base + i
        invariant timers[..base] == old(timers)
        invariant forall j :: base <= j < |timers| ==> timers[j] == DueAt(delay, stagger, j - base)
        invariant animated == old(animated)
      {
        timers := timers + [delay + i * stagger];
        i := i + 1;
      }
    }

    /** The timer of element `i` fires. */
    method Fire(i: nat)
      requires i < count <= |timers|
      modifies this`animated
      ensures animated == old(animated) + {i}
    {
      animated := animated + {i};
    }
  }
}
