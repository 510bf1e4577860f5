/** The navigation handlers of js/main.js: the navbar's `scrolled` class,
    the mobile-menu toggle with its hamburger styles, the nav links that
    close the menu, the active-link highlighting from the URL path, and
    the scroll-to-top button's visibility. Scroll positions are reals. */
module MainNavigation {
  import opened Wrappers
  import opened JsText

  // ---------------------------------------------------------------------
  // updateActiveLink
  // ---------------------------------------------------------------------

  /** `path.split('/').pop()`: what follows the last '/', or the whole
      path when it has none. */
  function LastSegment(path: string): (seg: string)
    ensures '/' !in seg
    ensures EndsWith(path, seg)
    ensures seg == path || path[|path| - |seg| - 1] == '/'
  {
    var k := LastIndexOf(path, '/');
    assert path[k + 1..] == path[|path| - |path[k + 1..]|..];
    path[k + 1..]
  }

  /** The page a path without a file name stands for. */
  const HomePage: string := "index.html"

  lemma HomePageIsFileName()
    ensures HomePage != "" && '/' !in HomePage
  {
    assert forall i :: 0 <= i < |HomePage| ==> HomePage[i] != '/';
  }

  /** `window.location.pathname.split('/').pop() || 'index.html'`. */
  function CurrentPage(path: string): (page: string)
    ensures page != "" && '/' !in page
    ensures LastSegment(path) != "" ==> page == LastSegment(path)
    ensures LastSegment(path) == "" ==> page == HomePage
  {
    var seg := LastSegment(path);
    HomePageIsFileName();
    if seg == "" then HomePage else seg
  }

  /** The page is the file name after the directories, whatever they are. */
  lemma CurrentPageOfFile(dir: string, file: string)
    requires file != "" && '/' !in file
    ensures CurrentPage(dir + "/" + file) == file
  {
    var path := dir + "/" + file;
    var seg := LastSegment(path);
    assert path[|dir|] == '/';
    assert seg == path[|path| - |seg|..];
  }

  /** A directory path (one ending in '/', such as the site root) is the
      home page. */
  lemma CurrentPageOfDirectory(dir: string)
    ensures CurrentPage(dir + "/") == HomePage
  {
  }

  /** Whether a link with attribute `href` (`None` when it has none) gets
      `active`: `href === currentPage || (currentPage === '' && href ===
      'index.html')`. */
  predicate IsActive(href: Option<string>, page: string)
  {
    (href.Some? && href.value == page) || (page == "" && href == Some(HomePage))
  }

  /** The second disjunct never applies, since the current page is never
      empty: a link is active exactly when its `href` is the page. */
  lemma ActiveIffCurrent(href: Option<string>, path: string)
    ensures IsActive(href, CurrentPage(path)) <==> href == Some(CurrentPage(path))
  {
  }

  /** The nav links with their `href` attributes and `active` classes. */
  class NavLinks {
    const hrefs: seq<Option<string>>
    var active: seq<bool>

    constructor (hrefs: seq<Option<string>>, active: seq<bool>)
      requires |active| == |hrefs|
      ensures this.hrefs == hrefs && this.active == active
    {
      this.hrefs := hrefs;
      this.active := active;
    }

    /** `updateActiveLink()` on the page at `path`: exactly the links whose
        `href` is the current page are active afterwards. */
    method UpdateActiveLink(path: string)
      modifies this
      ensures |active| == |hrefs|
      ensures forall i :: 0 <= i < |hrefs| ==> (active[i] <==> hrefs[i] == Some(CurrentPage(path)))
    {
      active := Mark(hrefs, CurrentPage(path));
    }

    /** The `forEach` over the links for a (never empty) current page. */
    static method Mark(hrefs: seq<Option<string>>, page: string) returns (marks: seq<bool>)
      requires page != ""
      ensures |marks| == |hrefs|
      ensures forall i :: 0 <= i < |hrefs| ==> (marks[i] <==> hrefs[i] == Some(page))
    {
      marks := [];
      var i := 0;
      while i < |hrefs|
        invariant 0 <= i <= |hrefs| && |marks| == i
        invariant forall k :: 0 <= k < i ==> (marks[k] <==> hrefs[k] == Some(page))
      {
        marks := marks + [IsActive(hrefs[i], page)];
        i := i + 1;
      }
    }
  }

  // ---------------------------------------------------------------------
  // Scroll thresholds
  // ---------------------------------------------------------------------

  /** The navbar has `scrolled` past 50 pixels. */
  predicate Scrolled(scrollY: real)
  {
    scrollY > 50.0
  }

  /** The scroll-to-top button is shown past 500 pixels. */
  predicate BackToTopVisible(scrollY: real)
  {
    scrollY > 500.0
  }

  /** The button only shows on a scrolled navbar, and between the two
      thresholds the navbar is scrolled while the button stays hidden. */
  lemma VisibleOnlyWhenScrolled(scrollY: real)
    ensures BackToTopVisible(scrollY) ==> Scrolled(scrollY)
    ensures 50.0 < scrollY <= 500.0 <==> Scrolled(scrollY) && !BackToTopVisible(scrollY)
  {
  }

  // ---------------------------------------------------------------------
  // Navbar, mobile menu and scroll-to-top button
  // ---------------------------------------------------------------------

  /** The inline styles of the three hamburger bars. */
  datatype Hamburger = Hamburger(top: string, middle: string, bottom: string)

  /** The bars for an open (a cross) or closed (three bars) menu. */
  function HamburgerFor(open: bool): (h: Hamburger)
    ensures open ==> h.middle == "0"
    ensures !open ==> h == Hamburger("none", "1", "none")
  {
    if open then Hamburger("rotate(45deg) translateY(10px)", "0", "rotate(-45deg) translateY(-10px)")
    else Hamburger("none", "1", "none")
  }

  class Navbar {
    /** Whether the page has a `.mobile-menu-btn` (no menu listeners
        otherwise). */
    const hasMenuButton: bool
    /** Whether the page has a `.scroll-to-top` button (no scroll-to-top
        listener otherwise). */
    const hasScrollButton: bool
    var scrolled: bool
    var lastScrollY: real
    /** `.nav-links` has `active`. */
    var menuOpen: bool
    /** The bars' inline styles; `None` until the first menu event. */
    var bars: Option<Hamburger>
    /** The scroll-to-top button's opacity and whether it takes clicks. */
    var backToTop: Option<(string, string)>

    /** The bars always show the menu's state once they have been set. */
    ghost predicate Valid()
      reads this
    {
      bars.Some? ==> bars.value == HamburgerFor(menuOpen)
    }

    constructor (hasMenuButton: bool, hasScrollButton: bool)
      ensures Valid()
      ensures this.hasMenuButton == hasMenuButton && this.hasScrollButton == hasScrollButton
      ensures !scrolled && lastScrollY == 0.0 && !menuOpen
      ensures bars == None && backToTop == None
    {
      this.hasMenuButton := hasMenuButton;
      this.hasScrollButton := hasScrollButton;
      scrolled := false;
      lastScrollY := 0.0;
      menuOpen := false;
      bars := None;
      backToTop := None;
    }

    /** The two `scroll` listeners: the navbar's class and the
        scroll-to-top button, when the page has one, follow the current
        position only. */
    method OnScroll(scrollY: real)
      requires Valid()
      modifies this
      ensures Valid()
      ensures scrolled == Scrolled(scrollY) && lastScrollY == scrollY
      ensures hasScrollButton ==>
        backToTop == Some(if BackToTopVisible(scrollY) then ("1", "auto") else ("0", "none"))
      ensures !hasScrollButton ==> backToTop == old(backToTop)
      ensures menuOpen == old(menuOpen) && bars == old(bars)
    {
      scrolled := scrollY > 50.0;
      lastScrollY := scrollY;
      if hasScrollButton {
        if scrollY > 500.0 {
          backToTop := Some(("1", "auto"));
        } else {
          backToTop := Some(("0", "none"));
        }
      }
    }

    /** A click on the menu button toggles the menu, and the bars follow
        the new state. */
    method OnMenuClick()
      requires Valid() && hasMenuButton
      modifies this
      ensures Valid()
      ensures menuOpen == !old(menuOpen) && bars == Some(HamburgerFor(menuOpen))
      ensures scrolled == old(scrolled) && backToTop == old(backToTop)
    {
      menuOpen := !menuOpen;
      if menuOpen {
        bars := Some(Hamburger("rotate(45deg) translateY(10px)", "0", "rotate(-45deg) translateY(-10px)"));
      } else {
        bars := Some(Hamburger("none", "1", "none"));
      }
    }

    /** A click on any nav link closes the menu, whatever its state. */
    method OnNavLinkClick()
      requires Valid() && hasMenuButton
      modifies this
      ensures Valid()
      ensures !menuOpen && bars == Some(HamburgerFor(false))
      ensures scrolled == old(scrolled) && backToTop == old(backToTop)
    {
      menuOpen := false;
      bars := Some(Hamburger("none", "1", "none"));
    }
  }

  /** Two menu clicks bring the menu back to where it was. */
  method ToggleTwice(n: Navbar)
    requires n.Valid() && n.hasMenuButton
    modifies n
    ensures n.Valid() && n.menuOpen == old(n.menuOpen)
  {
    n.OnMenuClick();
    n.OnMenuClick();
  }
}
