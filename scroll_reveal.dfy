/** `initScrollAnimations` of js/animations.js: every matched element is
    hidden, given `data-anim-delay = index * 80` and observed; when the
    observer reports it intersecting, a reveal tween is scheduled and the
    element is unobserved, so one observer reveals each element at most
    once. Elements are their document-order indices; the observer's
    geometry is left out and its callback is `OnEntries`. */
module AnimationsScrollReveal {
  import opened Wrappers
  import opened JsText

  /** One `IntersectionObserverEntry`. */
  datatype Entry = Entry(target: nat, intersecting: bool)

  /** One `setTimeout(() => animate(el, ...), delay)`. */
  datatype Timer = Timer(element: nat, delay: int)

  /** The reveal delay of element `index` at position `batchIndex` of its
      batch: `parseInt(el.dataset.animDelay) || (batchIndex * 50)`, where
      the attribute holds `index * 80`. */
  function RevealDelay(index: nat, batchIndex: nat): (d: int)
    ensures index > 0 ==> d == index * 80
    ensures index == 0 ==> d == batchIndex * 50
    ensures d >= 0
  {
    OrInt(Some(index * 80), batchIndex * 50)
  }

  /** The timers set while handling the first `n` entries of a batch. */
  function Scheduled(entries: seq<Entry>, n: nat): (r: seq<Timer>)
    requires n <= |entries|
    ensures forall t :: t in r ==> exists k :: 0 <= k < n && entries[k].intersecting
                                        && t == Timer(entries[k].target, RevealDelay(entries[k].target, k))
  {
    if n == 0 then []
    else
      var e := entries[n - 1];
      Scheduled(entries, n - 1) + (if e.intersecting then [Timer(e.target, RevealDelay(e.target, n - 1))] else [])
  }

  /** The targets of the intersecting entries among the first `n`. */
  function Hit(entries: seq<Entry>, n: nat): (s: set<nat>)
    requires n <= |entries|
    ensures forall x :: x in s <==> exists k :: 0 <= k < n && entries[k].intersecting && entries[k].target == x
  {
    if n == 0 then {}
    else Hit(entries, n - 1) + (if entries[n - 1].intersecting then {entries[n - 1].target} else {})
  }

  /** The elements `0..n-1`. */
  function Upto(n: nat): (s: set<nat>)
    ensures forall x: nat :: x in s <==> x < n
  {
    if n == 0 then {} else Upto(n - 1) + {n - 1}
  }

  /** The elements the timers reveal. */
  function Revealed(timers: seq<Timer>): set<nat>
  {
    set k | 0 <= k < |timers| :: timers[k].element
  }

  class ScrollReveal {
    /** Number of matched elements. */
    const count: nat
    var observed: set<nat>
    /** The reveal timers set so far, in the order they were set. */
    var timers: seq<Timer>

    ghost predicate Valid()
      reads this
    {
      && (forall x :: x in observed ==> x < count)
      && (forall a :: 0 <= a < |timers| ==> timers[a].element < count && timers[a].element !in observed)
      && (forall a, b :: 0 <= a < b < |timers| ==> timers[a].element != timers[b].element)
    }

    /** `initScrollAnimations()`: all `count` elements observed, nothing
        revealed yet. */
    constructor (count: nat)
      ensures Valid()
      ensures this.count == count && observed == Upto(count) && timers == []
    {
      this.count := count;
      observed := Upto(count);
      timers := [];
    }

    /** The observer callback on one batch of entries, each for an observed
        element and no element twice. Each intersecting entry sets one
        reveal timer and unobserves its element; the others are ignored. */
    method OnEntries(entries: seq<Entry>)
      requires Valid()
      requires forall k :: 0 <= k < |entries| ==> entries[k].target in observed
      requires forall a, b :: 0 <= a < b < |entries| ==> entries[a].target != entries[b].target
      modifies this
      ensures Valid()
      ensures timers == old(timers) + Scheduled(entries, |entries|)
      ensures observed == old(observed) - Hit(entries, |entries|)
    {
      var k := 0;
      while k < |entries|
        invariant 0 <= k <= |entries| && Valid()
        invariant timers == old(timers) + Scheduled(entries, k)
        invariant observed == old(observed) - Hit(entries, k)
      {
        var entry := entries[k];
        if entry.intersecting {
          var delay := OrInt(Some(entry.target * 80), k * 50);
          assert entry.target in observed by {
            assert entry.target !in Hit(entries, k);
          }
          timers := timers + [Timer(entry.target, delay)];
          observed := observed - {entry.target};
        }
        k := k + 1;
      }
    }
  }

  /** The elements a batch reveals are exactly its intersecting targets,
      which are the ones `Observe` stops observing. */
  lemma RevealedLeaveObservation(entries: seq<Entry>)
    ensures Revealed(Scheduled(entries, |entries|)) == Hit(entries, |entries|)
  {
    ScheduledCovers(entries, |entries|);
    var r := Scheduled(entries, |entries|);
    forall x | x in Revealed(r) ensures x in Hit(entries, |entries|) {
      var a :| 0 <= a < |r| && r[a].element == x;
      assert r[a] in r;
    }
  }

  lemma {:induction false} ScheduledCovers(entries: seq<Entry>, n: nat)
    requires n <= |entries|
    ensures forall x :: x in Hit(entries, n) ==> x in Revealed(Scheduled(entries, n))
  {
    if n > 0 {
      ScheduledCovers(entries, n - 1);
      var prev := Scheduled(entries, n - 1);
      var r := Scheduled(entries, n);
      forall x | x in Hit(entries, n) ensures x in Revealed(r) {
        if x in Hit(entries, n - 1) {
          var a :| 0 <= a < |prev| && prev[a].element == x;
          assert r[a] == prev[a];
        } else {
          assert r[|prev|].element == x;
        }
      }
    }
  }
}
