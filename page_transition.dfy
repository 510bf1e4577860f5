/** `PageTransition` of js/animations.js: clicks on internal links are
    intercepted, the page fades out, the new page is fetched and swapped
    in, and history is updated. The fetch, the DOM swap and the re-run of
    the page scripts are left out; what remains is the `isAnimating` guard,
    the order of the awaited steps and the history entries pushed. */
module AnimationsPageTransition {
  import opened JsText

  /** The parts of an `<a>` element the transition looks at. */
  datatype Link = Link(hostname: string, href: string, noTransition: bool)

  /** `isInternalLink(link)`. */
  predicate IsInternalLink(link: Link, currentHostname: string)
  {
    link.hostname == currentHostname && EndsWith(link.href, ".html") && !link.noTransition
  }

  /** Where a click navigation is in its awaited steps. */
  datatype Stage =
    | Idle
    | FadingOut(url: string)  // `animatePageOut()`: the 500 ms wait
    | Loading(url: string)    // `loadPage(url, true)`: fetch, swap, `animatePageIn()`

  class PageTransition {
    var isAnimating: bool
    var stage: Stage
    /** `window.location.href`. */
    var location: string
    /** URLs pushed with `history.pushState`, oldest first. */
    var pushed: seq<string>
    /** Pages swapped in by `loadPage` without a full reload. */
    var swaps: nat

    ghost predicate Valid()
      reads this
    {
      isAnimating <==> stage != Idle
    }

    /** `new PageTransition()` on the page at `location`. */
    constructor (location: string)
      ensures Valid()
      ensures !isAnimating && stage == Idle && this.location == location && pushed == [] && swaps == 0
    {
      isAnimating := false;
      stage := Idle;
      this.location := location;
      pushed := [];
      swaps := 0;
    }

    /** The document `click` listener, for a click inside `link`: an internal
        link is intercepted (the result) and handed to `navigateTo`; any
        other link is left to the browser. */
    method OnLinkClick(link: Link, currentHostname: string) returns (intercepted: bool)
      requires Valid()
      modifies this
      ensures Valid()
      ensures intercepted == IsInternalLink(link, currentHostname)
      ensures !intercepted ==> stage == old(stage) && isAnimating == old(isAnimating)
      ensures intercepted && !old(isAnimating) && link.href != old(location) ==> stage == FadingOut(link.href)
      ensures intercepted && (old(isAnimating) || link.href == old(location)) ==> stage == old(stage)
      ensures location == old(location) && pushed == old(pushed) && swaps == old(swaps)
    {
      intercepted := IsInternalLink(link, currentHostname);
      if intercepted {
        NavigateTo(link.href);
      }
    }

    /** `navigateTo(url)` up to its first `await`: nothing happens while a
        navigation is in flight or for the current URL; otherwise the guard
        is raised and the page starts fading out. */
    method NavigateTo(url: string)
      requires Valid()
      modifies this
      ensures Valid()
      ensures old(isAnimating) || url == location ==>
        stage == old(stage) && isAnimating == old(isAnimating)
      ensures !old(isAnimating) && url != location ==> isAnimating && stage == FadingOut(url)
      ensures location == old(location) && pushed == old(pushed) && swaps == old(swaps)
    {
      if isAnimating || url == location {
        return;
      }
      isAnimating := true;
      stage := FadingOut(url);
    }

    /** The 500 ms fade-out wait ends; `loadPage(url, true)` starts. */
    method FadeOutDone()
      requires Valid() && stage.FadingOut?
      modifies this
      ensures Valid()
      ensures stage == Loading(old(stage).url) && isAnimating
      ensures location == old(location) && pushed == old(pushed) && swaps == old(swaps)
    {
      stage := Loading(stage.url);
    }

    /** `loadPage(url, true)` finishes and `navigateTo` lowers the guard.
        When the fetch and swap succeed (`ok`) the URL is pushed to history;
        otherwise the catch branch sends the browser to the URL. */
    method LoadDone(ok: bool)
      requires Valid() && stage.Loading?
      modifies this
      ensures Valid()
      ensures !isAnimating && stage == Idle
      ensures location == old(stage).url
      ensures pushed == (if ok then old(pushed) + [old(stage).url] else old(pushed))
      ensures swaps == (if ok then old(swaps) + 1 else old(swaps))
    {
      var url := stage.url;
      if ok {
        swaps := swaps + 1;
        pushed := pushed + [url];
        location := url;
      } else {
        location := url;
      }
      isAnimating := false;
      stage := Idle;
    }

    /** The `popstate` listener: the browser has moved to `href`;
        `loadPage(href, false)` swaps it in without pushing history. This
        path does not look at or change the guard. */
    method OnPopState(href: string, ok: bool)
      requires Valid()
      modifies this
      ensures Valid()
      ensures location == href && pushed == old(pushed)
      ensures swaps == (if ok then old(swaps) + 1 else old(swaps))
      ensures isAnimating == old(isAnimating) && stage == old(stage)
    {
      location := href;
      if ok {
        swaps := swaps + 1;
      }
    }
  }

  /** While a click navigation is in flight, further clicks change nothing:
      at most one is in flight at a time. */
  method SecondClickIgnored(t: PageTransition, first: string, second: string)
    requires t.Valid() && !t.isAnimating && first != t.location
    modifies t
    ensures t.Valid() && t.stage == FadingOut(first)
  {
    t.NavigateTo(first);
    t.NavigateTo(second);
  }
}
