/** `initPortfolioFilter` of js/main.js: a click on a filter button makes it
    the only highlighted button and restyles every portfolio item. A
    matching item is displayed at once and faded in by a 10 ms timer; any
    other item is faded out at once and taken out of the layout by a 300 ms
    timer. Pending timers are recorded in the order they were set, and the
    environment fires them in any order through `Fire`.

    The handler as written never cancels the timers of an earlier click.
    `cancelsPending` chooses between that behaviour (`false`) and the
    corrected one that clears them first (`true`); the consistency of the
    item styles with the current filter is proved for the latter, and
    `StaleCollapseHidesMatch` shows how the former breaks it. */
module MainPortfolio {
  import opened Wrappers

  /** Whether an item with `data-category` `category` is shown under the
      button's `data-filter` `filter`: `filter === 'all' || category ===
      filter` (two missing attributes are equal, as `undefined === undefined`). */
  predicate Shown(filter: Option<string>, category: Option<string>)
  {
    filter == Some("all") || category == filter
  }

  /** The classes of a filter button the handler touches. */
  datatype ButtonClasses = ButtonClasses(active: bool, primary: bool, secondary: bool)

  const Selected := ButtonClasses(true, true, false)
  const Unselected := ButtonClasses(false, false, true)

  /** The inline styles of one item. */
  datatype Style = Style(display: string, opacity: string, transform: string)

  /** A pending `setTimeout` of the handler. */
  datatype Timer =
    | Reveal(item: nat)    // after 10 ms: opacity 1, scale(1)
    | Collapse(item: nat)  // after 300 ms: display none

  /** The timer a click sets for item `i`. */
  function TimerFor(filter: Option<string>, category: Option<string>, i: nat): (t: Timer)
    ensures t.item == i
    ensures t.Reveal? <==> Shown(filter, category)
  {
    if Shown(filter, category) then Reveal(i) else Collapse(i)
  }

  /** The timers one click sets, one per item in item order. */
  function ClickTimers(filter: Option<string>, categories: seq<Option<string>>): (ts: seq<Timer>)
    ensures |ts| == |categories|
    ensures forall i :: 0 <= i < |ts| ==> ts[i] == TimerFor(filter, categories[i], i)
  {
    seq(|categories|, i requires 0 <= i < |categories| => TimerFor(filter, categories[i], i))
  }

  /** An item's style once its timer has run, or before the timer, with the
      part of the click that is immediate. */
  function Restyle(filter: Option<string>, category: Option<string>, s: Style): (r: Style)
    ensures Shown(filter, category) ==> r == s.(display := "block")
    ensures !Shown(filter, category) ==> r == s.(opacity := "0", transform := "scale(0.8)")
  {
    if Shown(filter, category) then s.(display := "block") else s.(opacity := "0", transform := "scale(0.8)")
  }

  /** What a timer does to its item's style when it fires. */
  function Apply(t: Timer, s: Style): (r: Style)
    ensures t.Reveal? ==> r == s.(opacity := "1", transform := "scale(1)")
    ensures t.Collapse? ==> r == s.(display := "none")
  {
    match t
    case Reveal(_) => s.(opacity := "1", transform := "scale(1)")
    case Collapse(_) => s.(display := "none")
  }

  /** Item styles and pending timers agree with the filter `f`: a shown
      item is displayed and either visible or about to be revealed; a hidden
      item is faded out and either out of the layout or about to be
      collapsed; no item has a timer working against the filter. */
  ghost predicate ConsistentWith(f: Option<string>, categories: seq<Option<string>>, items: seq<Style>,
                                 pending: seq<Timer>)
    requires |items| == |categories|
  {
    forall i :: 0 <= i < |items| ==>
      if Shown(f, categories[i]) then
        items[i].display == "block" && Collapse(i) !in pending
        && (Reveal(i) in pending || (items[i].opacity == "1" && items[i].transform == "scale(1)"))
      else
        items[i].opacity == "0" && items[i].transform == "scale(0.8)" && Reveal(i) !in pending
        && (Collapse(i) in pending || items[i].display == "none")
  }

  /** No timer is pending twice. */
  predicate Distinct(pending: seq<Timer>)
  {
    forall a, b :: 0 <= a < b < |pending| ==> pending[a] != pending[b]
  }

  /** Right after a click that cleared the earlier timers, the styles and
      the click's own timers agree with its filter. */
  lemma ClickConsistent(f: Option<string>, categories: seq<Option<string>>, items: seq<Style>,
                        restyled: seq<Style>, timers: seq<Timer>)
    requires |items| == |categories| && |restyled| == |items| && |timers| == |items|
    requires forall i :: 0 <= i < |items| ==> restyled[i] == Restyle(f, categories[i], items[i])
    requires forall i :: 0 <= i < |items| ==> timers[i] == TimerFor(f, categories[i], i)
    ensures ConsistentWith(f, categories, restyled, timers)
    ensures Distinct(timers)
    ensures forall t :: t in timers ==> t.item < |categories|
  {
    forall i | 0 <= i < |restyled|
      ensures Shown(f, categories[i]) ==> Reveal(i) in timers && Collapse(i) !in timers
      ensures !Shown(f, categories[i]) ==> Collapse(i) in timers && Reveal(i) !in timers
    {
      assert timers[i] == TimerFor(f, categories[i], i);
    }
  }

  class PortfolioFilter {
    /** Whether a click clears the timers of earlier clicks. */
    const cancelsPending: bool
    /** `data-filter` of each button. */
    const filters: seq<Option<string>>
    /** `data-category` of each item. */
    const categories: seq<Option<string>>
    var buttons: seq<ButtonClasses>
    var items: seq<Style>
    var pending: seq<Timer>
    /** The filter of the last click; `None` before the first. */
    var current: Option<Option<string>>

    /** The styles agree with the filter `f`. */
    ghost predicate Consistent(f: Option<string>)
      reads this
      requires |items| == |categories|
    {
      ConsistentWith(f, categories, items, pending)
    }

    ghost predicate Valid()
      reads this
    {
      && |buttons| == |filters| && |items| == |categories|
      && (forall t :: t in pending ==> t.item < |items|)
      && (cancelsPending ==>
            && Distinct(pending)
            && (current.Some? ==> Consistent(current.value))
            && (current.None? ==> pending == []))
    }

    /** The page as loaded: no inline styles, buttons as in `buttons`. */
    constructor (cancelsPending: bool, filters: seq<Option<string>>, categories: seq<Option<string>>,
                 buttons: seq<ButtonClasses>)
      requires |buttons| == |filters|
      ensures Valid()
      ensures this.cancelsPending == cancelsPending && this.filters == filters && this.categories == categories
      ensures this.buttons == buttons && items == seq(|categories|, _ => Style("", "", ""))
      ensures pending == [] && current == None
    {
      this.cancelsPending := cancelsPending;
      this.filters := filters;
      this.categories := categories;
      this.buttons := buttons;
      items := seq(|categories|, _ => Style("", "", ""));
      pending := [];
      current := None;
    }

    /** A click on button `b`: it alone is highlighted, every item gets the
        immediate part of its restyling, and one timer per item is set
        (after the earlier ones are cleared, when `cancelsPending`). */
    method OnClick(b: nat)
      requires Valid() && b < |filters|
      modifies this
      ensures Valid()
      ensures current == Some(filters[b])
      ensures |buttons| == |filters| && forall j :: 0 <= j < |buttons| ==> buttons[j] == if j == b then Selected else Unselected
      ensures |items| == |categories|
      ensures forall i :: 0 <= i < |items| ==> items[i] == Restyle(filters[b], categories[i], old(items)[i])
      ensures pending == (if cancelsPending then [] else old(pending)) + ClickTimers(filters[b], categories)
    {
      var filter := filters[b];
      buttons := Highlight(|filters|, b);
      var restyled, timers := FilterItems(filter, categories, items);
      var kept := if cancelsPending then [] else pending;
      items := restyled;
      pending := kept + timers;
      current := Some(filter);
      ClickConsistent(filter, categories, old(items), restyled, timers);
    }

    /** The two `forEach` loops over the buttons. */
    static method Highlight(n: nat, b: nat) returns (bs: seq<ButtonClasses>)
      requires b < n
      ensures |bs| == n && forall j :: 0 <= j < n ==> bs[j] == if j == b then Selected else Unselected
    {
      bs := [];
      var j := 0;
      while j < n
        invariant 0 <= j <= n && |bs| == j && forall k :: 0 <= k < j ==> bs[k] == Unselected
      {
        bs := bs + [ButtonClasses(false, false, true)];
        j := j + 1;
      }
      bs := bs[b := ButtonClasses(true, true, false)];
    }

    /** The `forEach` over the items. */
    static method FilterItems(filter: Option<string>, categories: seq<Option<string>>, items: seq<Style>)
      returns (restyled: seq<Style>, timers: seq<Timer>)
      requires |items| == |categories|
      ensures |restyled| == |items| && |timers| == |items|
      ensures forall i :: 0 <= i < |items| ==> restyled[i] == Restyle(filter, categories[i], items[i])
      ensures timers == ClickTimers(filter, categories)
    {
      restyled := [];
      timers := [];
      var i := 0;
      while i < |items|
        invariant 0 <= i <= |items| && |restyled| == i && |timers| == i
        invariant forall k :: 0 <= k < i ==> restyled[k] == Restyle(filter, categories[k], items[k])
        invariant forall k :: 0 <= k < i ==> timers[k] == TimerFor(filter, categories[k], k)
      {
        var s := items[i];
        if filter == Some("all") || categories[i] == filter {
          restyled := restyled + [s.(display := "block")];
          timers := timers + [Reveal(i)];
        } else {
          restyled := restyled + [s.(opacity := "0", transform := "scale(0.8)")];
          timers := timers + [Collapse(i)];
        }
        i := i + 1;
      }
      assert timers == ClickTimers(filter, categories);
    }

    /** The `k`-th pending timer fires. */
    method Fire(k: nat)
      requires Valid() && k < |pending|
      modifies this
      ensures Valid()
      ensures pending == RemovedAt(old(pending), k)
      ensures var t := old(pending[k]);
        items == old(items[t.item := Apply(t, items[t.item])])
      ensures buttons == old(buttons) && current == old(current)
    {
      var t := pending[k];
      var rest := RemovedAt(pending, k);
      RemoveAt(pending, k);
      items := items[t.item := Apply(t, items[t.item])];
      pending := rest;
    }
  }

  /** `s` without its element at `k`. */
  function RemovedAt<T>(s: seq<T>, k: nat): (r: seq<T>)
    requires k < |s|
    ensures |r| == |s| - 1
    ensures forall a :: 0 <= a < |r| ==> r[a] == s[if a < k then a else a + 1]
  {
    s[..k] + s[k + 1..]
  }

  /** Removing the element at `k` keeps the others, and in a sequence
      without repetitions removes that element entirely. */
  lemma RemoveAt<T>(s: seq<T>, k: nat)
    requires k < |s|
    ensures forall u :: u in RemovedAt(s, k) ==> u in s
    ensures forall u :: u in s && u != s[k] ==> u in RemovedAt(s, k)
    ensures (forall a, b :: 0 <= a < b < |s| ==> s[a] != s[b]) ==>
      && s[k] !in RemovedAt(s, k)
      && (forall a, b :: 0 <= a < b < |s| - 1 ==> RemovedAt(s, k)[a] != RemovedAt(s, k)[b])
  {
    var rest := RemovedAt(s, k);
    forall u | u in s && u != s[k] ensures u in rest {
      var a :| 0 <= a < |s| && s[a] == u;
      if a < k { assert rest[a] == u; } else { assert rest[a - 1] == u; }
    }
  }

  /** With the corrected handler, once every timer has fired, each item is
      displayed and fully visible exactly when it matches the current
      filter, and out of the layout otherwise. */
  lemma SettledShowsExactlyMatches(p: PortfolioFilter)
    requires p.Valid() && p.cancelsPending && p.current.Some? && p.pending == []
    ensures forall i :: 0 <= i < |p.items| ==>
      (p.items[i] == Style("block", "1", "scale(1)") <==> Shown(p.current.value, p.categories[i]))
    ensures forall i :: 0 <= i < |p.items| ==>
      (p.items[i].display == "none" <==> !Shown(p.current.value, p.categories[i]))
  {
    var f := p.current.value;
    forall i | 0 <= i < |p.items|
      ensures p.items[i] == Style("block", "1", "scale(1)") <==> Shown(f, p.categories[i])
      ensures p.items[i].display == "none" <==> !Shown(f, p.categories[i])
    {
      if Shown(f, p.categories[i]) {
        assert Reveal(i) !in p.pending;
      } else {
        assert Collapse(i) !in p.pending;
        assert p.items[i].opacity != "1";
      }
    }
  }

  /** The corrected handler: firing the pending timers, in any order the
      environment picks, settles on the styles of the last filter. */
  method Settle(p: PortfolioFilter, order: seq<nat>)
    requires p.Valid() && p.cancelsPending && p.current.Some?
    requires |order| == |p.pending| && forall k :: 0 <= k < |order| ==> order[k] < |p.pending| - k
    modifies p
    ensures p.Valid() && p.pending == [] && p.current == old(p.current)
    ensures forall i :: 0 <= i < |p.items| ==>
      (p.items[i] == Style("block", "1", "scale(1)") <==> Shown(p.current.value, p.categories[i]))
  {
    var n := 0;
    while n < |order|
      invariant 0 <= n <= |order| && p.Valid() && |p.pending| == |order| - n && p.current == old(p.current)
    {
      p.Fire(order[n]);
      n := n + 1;
    }
    SettledShowsExactlyMatches(p);
  }

  /** The handler as written: click a filter that hides the only item,
      then "all" within 300 ms. The item is displayed again and revealed,
      but the first click's collapse timer still fires and takes it out of
      the layout although it matches the current filter. */
  method StaleCollapseHidesMatch() returns (p: PortfolioFilter)
    ensures p.current == Some(Some("all")) && p.pending == []
    ensures |p.items| == 1 && |p.categories| == 1 && Shown(p.current.value, p.categories[0])
    ensures p.items[0] == Style("none", "1", "scale(1)")
  {
    p := new PortfolioFilter(false, [Some("web"), Some("all")], [Some("brand")],
                             [ButtonClasses(true, true, false), ButtonClasses(false, false, true)]);
    assert !Shown(Some("web"), Some("brand")) by {
      assert "brand"[0] != "web"[0];
    }
    assert p.filters[0] == Some("web") && p.filters[1] == Some("all") && p.categories[0] == Some("brand");
    p.OnClick(0);
    assert |p.pending| == 1 && p.pending[0] == TimerFor(p.filters[0], p.categories[0], 0);
    assert p.pending[0] == Collapse(0);
    p.OnClick(1);
    assert |p.pending| == 2 && p.pending[1] == TimerFor(p.filters[1], p.categories[0], 0);
    assert p.pending[1] == Reveal(0);
    p.Fire(1);
    p.Fire(0);
  }

  /** The corrected handler on the same clicks leaves the item visible. */
  method CancelledCollapseKeepsMatch() returns (p: PortfolioFilter)
    ensures p.current == Some(Some("all")) && p.pending == []
    ensures |p.items| == 1 && p.items[0] == Style("block", "1", "scale(1)")
  {
    p := new PortfolioFilter(true, [Some("web"), Some("all")], [Some("brand")],
                             [ButtonClasses(true, true, false), ButtonClasses(false, false, true)]);
    p.OnClick(0);
    p.OnClick(1);
    assert p.pending[0] == TimerFor(Some("all"), Some("brand"), 0) == Reveal(0);
    p.Fire(0);
  }
}
