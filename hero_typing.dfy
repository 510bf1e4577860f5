/** `initTypingEffect` of js/animations.js: the hero title's text is taken
    out and typed back one character every 30 ms, starting 500 ms after the
    call. The `dataset.typed` flag makes a second call (after a page swap
    re-runs the initialisers) do nothing. A pending `typeChar` timer is the
    flag `pending`; its firing is a call of `TypeChar`. */
module AnimationsHeroTyping {

  const StartDelay := 500
  const TypingSpeed := 30

  function Min(a: nat, b: nat): (m: nat)
    ensures m <= a && m <= b && (m == a || m == b)
  {
    if a <= b then a else b
  }

  class HeroTyping {
    /** Whether the page has a `.hero-title`. */
    const present: bool
    /** `heroTitle.textContent`. */
    var title: string
    /** `heroTitle.dataset.typed` is set. */
    var typed: bool
    /** Whether this call's closure (`text`, `charIndex`) exists. */
    var started: bool
    /** The text captured by the call. */
    var text: string
    var charIndex: nat
    /** A `typeChar` timer is pending. */
    var pending: bool
    /** The delay of the pending timer. */
    var wait: int
    /** How many times `typeChar` has run. */
    ghost var ticks: nat

    ghost predicate Valid()
      reads this
    {
      && (started ==> present && typed)
      && (!started ==> !pending && ticks == 0 && charIndex == 0)
      && (started ==>
            && charIndex == Min(ticks, |text|)
            && title == text[..charIndex]
            && (pending <==> ticks <= |text|)
            && (pending ==> wait == (if ticks == 0 then StartDelay else TypingSpeed)))
    }

    /** The page as loaded: a hero title (when `present`) holding `title`,
        possibly already marked as typed. */
    constructor (present: bool, title: string, typed: bool)
      ensures Valid()
      ensures this.present == present && this.title == title && this.typed == typed
      ensures !started && !pending
    {
      this.present := present;
      this.title := title;
      this.typed := typed;
      started := false;
      text := [];
      charIndex := 0;
      pending := false;
      wait := 0;
      ticks := 0;
    }

    /** `initTypingEffect()`: nothing without a title or when it is already
        typed; otherwise the text is captured, the title emptied and the
        first character scheduled after 500 ms. */
    method Init()
      requires Valid()
      modifies this
      ensures Valid()
      ensures !present || old(typed) ==>
        title == old(title) && typed == old(typed) && started == old(started) && pending == old(pending)
        && text == old(text) && charIndex == old(charIndex)
      ensures present && !old(typed) ==>
        started && typed && text == old(title) && title == [] && charIndex == 0 && pending && wait == StartDelay
    {
      if !present || typed {
        return;
      }
      typed := true;
      text := title;
      title := [];
      started := true;
      charIndex := 0;
      pending := true;
      wait := StartDelay;
      ticks := 0;
    }

    /** `typeChar()` fires: while characters remain, the next one is
        appended and the next call scheduled 30 ms later; once all are
        typed the chain stops. */
    method TypeChar()
      requires Valid() && pending
      modifies this
      ensures Valid()
      ensures ticks == old(ticks) + 1 && text == old(text) && typed == old(typed) && started
      ensures old(charIndex) < |text| ==>
        title == old(title) + [text[old(charIndex)]] && charIndex == old(charIndex) + 1 && pending && wait == TypingSpeed
      ensures old(charIndex) == |text| ==> title == old(title) && charIndex == old(charIndex) && !pending
    {
      if charIndex < |text| {
        assert text[..charIndex + 1] == text[..charIndex] + [text[charIndex]];
        title := title + [text[charIndex]];
        charIndex := charIndex + 1;
        pending := true;
        wait := TypingSpeed;
      } else {
        pending := false;
      }
      ticks := ticks + 1;
    }
  }

  /** A second call finds the flag set and changes nothing: the text is
      typed once, however often the initialisers run. */
  method InitTwice(h: HeroTyping)
    requires h.Valid() && h.present && !h.typed
    modifies h
    ensures h.Valid() && h.started && h.text == old(h.title) && h.title == [] && h.charIndex == 0
  {
    h.Init();
    h.Init();
  }

  /** After `k` timer firings the title shows the first `min(k, |text|)`
      characters; after `|text| + 1` firings nothing is pending any more. */
  method TypeFor(h: HeroTyping, k: nat)
    requires h.Valid() && h.started && h.ticks == 0 && k <= |h.text| + 1
    modifies h
    ensures h.Valid() && h.text == old(h.text)
    ensures h.title == h.text[..Min(k, |h.text|)]
    ensures h.pending <==> k <= |h.text|
  {
    var n := 0;
    while n < k
      invariant 0 <= n <= k && h.Valid() && h.started && h.ticks == n && h.text == old(h.text)
    {
      h.TypeChar();
      n := n + 1;
    }
  }
}
