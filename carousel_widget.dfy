/**
 * The carousel widget itself: an object whose position, mobile flag and
 * callback list change in place, and whose sub-views are notified on every
 * committed move and on every mobile/desktop flip.
 */
module CarouselWidget {
  import opened Wrappers
  import opened CarouselNav
  import opened CarouselViews

  /** Viewports narrower than this many pixels get the mobile policy. */
  const MobileBreakpoint := 800

  /** The generated wrapper around one original child element (children are identified by number). */
  datatype Item = Item(child: nat)

  /** One wrapper per child, in the children's order. */
  function WrapChildren(children: seq<nat>): (r: seq<Item>)
    ensures |r| == |children|
    ensures forall k :: 0 <= k < |r| ==> r[k].child == children[k]
  {
    seq(|children|, k requires 0 <= k < |children| => Item(children[k]))
  }

  /** The observers the constructor registers: the arrows when navigating without looping, then the pagination marks. */
  function InitialCallbacks(o: Options): seq<Callback> {
    (if o.navigation && !o.loop then [NavigationArrows] else []) + (if o.pagination then [PaginationMarks] else [])
  }

  /** The callback list grows only at its end: the constructor's observers first, then outside handles. */
  predicate RegisteredFor(cbs: seq<Callback>, o: Options) {
    var init := InitialCallbacks(o);
    && |init| <= |cbs|
    && cbs[..|init|] == init
    && forall j :: |init| <= j < |cbs| ==> cbs[j].External?
  }

  /** Which concrete observers a well-formed callback list holds is fixed by the options. */
  lemma RegisteredObservers(cbs: seq<Callback>, o: Options)
    requires RegisteredFor(cbs, o)
    ensures NavigationArrows in cbs <==> o.navigation && !o.loop
    ensures PaginationMarks in cbs <==> o.pagination
  {
    var init := InitialCallbacks(o);
    assert forall j :: 0 <= j < |init| ==> cbs[j] == init[j];
    if NavigationArrows in cbs {
      var j :| 0 <= j < |cbs| && cbs[j] == NavigationArrows;
      assert j < |init|;
    }
    if PaginationMarks in cbs {
      var j :| 0 <= j < |cbs| && cbs[j] == PaginationMarks;
      assert j < |init|;
    }
    if o.navigation && !o.loop {
      assert cbs[0] == NavigationArrows;
    }
    if o.pagination {
      assert cbs[|init| - 1] == PaginationMarks;
    }
  }

  class Carousel {
    const items: seq<Item>
    const options: Options
    var pageStarts: seq<int>
    var currentItem: int
    var isMobile: bool
    var moveCallbacks: seq<Callback>
    /** Every callback invocation so far, in order, with the index it was given. */
    var notified: seq<(Callback, int)>
    /** What the navigation and pagination sub-views show. */
    var view: View
    /** How many times the layout pass (`setStyle`) has run. */
    var layoutPasses: nat

    function SlidesToScroll(): int
      reads this
    {
      EffectiveScroll(isMobile, options)
    }

    function SlidesVisible(): int
      reads this
    {
      EffectiveVisible(isMobile, options)
    }

    /** No item lies one window past the current position. */
    function AtLastWindow(): bool
      reads this
    {
      !ItemExists(|items|, currentItem + SlidesVisible())
    }

    /**
     * The object invariant: the buttons match the page starts, the callback
     * list is well formed, and the sub-views registered show the current
     * position (the active mark only when the position has a button).
     */
    ghost predicate Valid()
      reads this
    {
      && Mounted()
      && ShowsPosition(view, moveCallbacks, currentItem, AtLastWindow(), options.slidesToScroll, |pageStarts|)
    }

    /** The structural half of the invariant, which holds from the end of the building phase on. */
    ghost predicate Mounted()
      reads this
    {
      && PageStartsFor(pageStarts, if options.pagination then |items| else 0, options.slidesToScroll)
      && |view.active| == |pageStarts|
      && AtMostOneActive(view.active)
      && RegisteredFor(moveCallbacks, options)
    }

    /**
     * The effect of one move request on the state: a committed move sets the
     * position and fans out to every callback in order with the new index; a
     * rejected one changes nothing and notifies no one.
     */
    twostate predicate Moved(req: Request)
      reads this
    {
      var r := Outcome(|items|, options, isMobile, old(currentItem), req);
      if r.Some? then
        && currentItem == r.value
        && notified == old(notified) + Notifications(moveCallbacks, r.value)
        && view == Deliver(old(view), moveCallbacks, r.value, AtLastWindow(), options.slidesToScroll)
      else
        currentItem == old(currentItem) && notified == old(notified) && view == old(view)
    }

    constructor (children: seq<nat>, overrides: Overrides, width: int)
      requires MergeOptions(overrides).pagination && |children| > 0 ==> MergeOptions(overrides).slidesToScroll >= 1
      ensures Valid()
      ensures options == MergeOptions(overrides) && items == WrapChildren(children)
      ensures currentItem == 0 && isMobile == (width < MobileBreakpoint)
      ensures moveCallbacks == InitialCallbacks(options)
      ensures PageStartsFor(pageStarts, if options.pagination then |items| else 0, options.slidesToScroll)
      ensures layoutPasses == if isMobile then 2 else 1
      ensures notified == Notifications(moveCallbacks, 0) + (if isMobile then Notifications(moveCallbacks, 0) else [])
    {
      options := MergeOptions(overrides);
      items := WrapChildren(children);
      isMobile := false;
      currentItem := 0;
      moveCallbacks := [];
      notified := [];
      pageStarts := [];
      view := View(false, false, []);
      layoutPasses := 0;
      new;
      Mount();
      Announce(width);
    }

    /** The end of construction: notify index 0 to every observer, then run one resize check. */
    method Announce(width: int)
      requires Mounted() && currentItem == 0 && !isMobile
      modifies this`isMobile, this`layoutPasses, this`notified, this`view
      ensures Valid() && currentItem == 0
      ensures isMobile == (width < MobileBreakpoint)
      ensures layoutPasses == old(layoutPasses) + (if isMobile then 1 else 0)
      ensures notified == old(notified) + Notifications(moveCallbacks, 0)
        + (if isMobile then Notifications(moveCallbacks, 0) else [])
    {
      ghost var before := view;
      Notify(0);
      DeliverShows(before, moveCallbacks, 0, AtLastWindow(), options.slidesToScroll);
      OnWindowResize(width);
    }

    /**
     * The constructor's building phase on a fresh widget: one layout pass,
     * then the sub-views the options ask for, before any notification.
     */
    method Mount()
      requires moveCallbacks == [] && pageStarts == [] && view.active == []
      requires options.pagination && |items| > 0 ==> options.slidesToScroll >= 1
      modifies this`layoutPasses, this`moveCallbacks, this`pageStarts, this`view
      ensures layoutPasses == old(layoutPasses) + 1
      ensures moveCallbacks == InitialCallbacks(options)
      ensures PageStartsFor(pageStarts, if options.pagination then |items| else 0, options.slidesToScroll)
      ensures view.active == seq(|pageStarts|, _ => false)
      ensures Mounted()
    {
      SetStyle();
      if options.navigation {
        CreateNavigation();
      }
      if options.pagination {
        CreatePagination();
      }
    }

    /** The layout pass; its percentages are not modelled, only that it ran. */
    method SetStyle()
      modifies this`layoutPasses
      ensures layoutPasses == old(layoutPasses) + 1
    {
      layoutPasses := layoutPasses + 1;
    }

    /** Registers the arrows' observer, unless looping keeps both arrows visible for good. */
    method CreateNavigation()
      modifies this`moveCallbacks
      ensures moveCallbacks == old(moveCallbacks) + (if options.loop then [] else [NavigationArrows])
    {
      if options.loop {
        return;
      }
      Register(NavigationArrows);
    }

    /** Builds one button per page start, none of them active, and registers the marks' observer. */
    method CreatePagination()
      requires |items| > 0 ==> options.slidesToScroll >= 1
      modifies this`pageStarts, this`view, this`moveCallbacks
      ensures PageStartsFor(pageStarts, |items|, options.slidesToScroll)
      ensures view == old(view).(active := seq(|pageStarts|, _ => false))
      ensures moveCallbacks == old(moveCallbacks) + [PaginationMarks]
    {
      var starts := BuildPageStarts(|items|, options.slidesToScroll);
      pageStarts := starts;
      view := view.(active := seq(|starts|, _ => false));
      Register(PaginationMarks);
    }

    method Register(cb: Callback)
      modifies this`moveCallbacks
      ensures moveCallbacks == old(moveCallbacks) + [cb]
    {
      moveCallbacks := moveCallbacks + [cb];
    }

    /** `onMove` from outside: appends a callback at the end of the list, and nothing else changes. */
    method OnMove(handle: nat)
      requires Valid()
      modifies this`moveCallbacks
      ensures Valid()
      ensures moveCallbacks == old(moveCallbacks) + [External(handle)]
    {
      ghost var init := InitialCallbacks(options);
      Register(External(handle));
      assert moveCallbacks[..|init|] == old(moveCallbacks)[..|init|];
      RegisteredObservers(old(moveCallbacks), options);
      RegisteredObservers(moveCallbacks, options);
    }

    /** The arrows' observer: hide `prev` at index 0, hide `next` at the last full window. */
    method UpdateArrows(index: int)
      modifies this`view
      ensures view == Apply(old(view), NavigationArrows, index, AtLastWindow(), options.slidesToScroll)
    {
      if index == 0 {
        view := view.(prevHidden := true);
      } else {
        view := view.(prevHidden := false);
      }
      if !ItemExists(|items|, currentItem + SlidesVisible()) {
        view := view.(nextHidden := true);
      } else {
        view := view.(nextHidden := false);
      }
    }

    /** The marks' observer: if the index's button exists, clear every mark and set that one. */
    method UpdateMarks(index: int)
      modifies this`view
      ensures view == Apply(old(view), PaginationMarks, index, AtLastWindow(), options.slidesToScroll)
    {
      var step := options.slidesToScroll;
      if step >= 1 && 0 <= index / step < |view.active| {
        var page := index / step;
        var marks := view.active;
        var j := 0;
        while j < |marks|
          invariant 0 <= j <= |marks| == |view.active|
          invariant forall i :: 0 <= i < j ==> !marks[i]
        {
          marks := marks[j := false];
          j := j + 1;
        }
        marks := marks[page := true];
        assert marks == OnlyActive(|view.active|, page);
        view := view.(active := marks);
      }
    }

    /** The fan-out: every callback, in registration order, sees `index` exactly once. */
    method Notify(index: int)
      modifies this`notified, this`view
      ensures notified == old(notified) + Notifications(moveCallbacks, index)
      ensures view == Deliver(old(view), moveCallbacks, index, AtLastWindow(), options.slidesToScroll)
    {
      var i := 0;
      while i < |moveCallbacks|
        invariant 0 <= i <= |moveCallbacks|
        invariant notified == old(notified) + Notifications(moveCallbacks[..i], index)
        invariant view == Deliver(old(view), moveCallbacks[..i], index, AtLastWindow(), options.slidesToScroll)
      {
        var cb := moveCallbacks[i];
        assert moveCallbacks[..i + 1][..i] == moveCallbacks[..i];
        match cb {
          case NavigationArrows => UpdateArrows(index);
          case PaginationMarks => UpdateMarks(index);
          case External(_) =>
        }
        notified := notified + [(cb, index)];
        i := i + 1;
      }
      assert moveCallbacks[..i] == moveCallbacks;
    }

    /**
     * `gotoItem`: the single funnel of every move. The new state is the one
     * the resolution rule gives; without looping the position never leaves
     * the items, and with looping it stays among them when the window fits.
     */
    method GotoItem(index: int)
      requires Valid()
      modifies this`currentItem, this`notified, this`view
      ensures Valid()
      ensures Moved(Goto(index))
      ensures !options.loop && 0 <= old(currentItem) < |items| ==> 0 <= currentItem < |items|
      ensures options.loop && 1 <= SlidesVisible() <= |items| ==> 0 <= currentItem < |items|
    {
      ghost var outcome := Resolve(|items|, SlidesVisible(), options.loop, currentItem, index);
      assert outcome == Outcome(|items|, options, isMobile, currentItem, Goto(index));
      if !options.loop || 1 <= SlidesVisible() <= |items| {
        ResolveInRange(|items|, SlidesVisible(), options.loop, currentItem, index);
      }
      var target := index;
      if index < 0 {
        if options.loop {
          target := |items| - SlidesVisible();
        } else {
          return;
        }
      } else if index >= |items| || (!ItemExists(|items|, currentItem + SlidesVisible()) && index > currentItem) {
        if options.loop {
          target := 0;
        } else {
          return;
        }
      }
      assert outcome == Some(target);
      Commit(target);
    }

    /** The committing half of `gotoItem`: set the position, then fan out the new index. */
    method Commit(target: int)
      requires Valid()
      modifies this`currentItem, this`notified, this`view
      ensures Valid()
      ensures currentItem == target
      ensures notified == old(notified) + Notifications(moveCallbacks, target)
      ensures view == Deliver(old(view), moveCallbacks, target, AtLastWindow(), options.slidesToScroll)
    {
      currentItem := target;
      ghost var before := view;
      Notify(target);
      DeliverShows(before, moveCallbacks, target, AtLastWindow(), options.slidesToScroll);
    }

    /** `next`: a move forward by the effective step. */
    method Next()
      requires Valid()
      modifies this`currentItem, this`notified, this`view
      ensures Valid()
      ensures Moved(Request.Next)
    {
      GotoItem(currentItem + SlidesToScroll());
    }

    /** `prev`: a move back by the effective step. */
    method Prev()
      requires Valid()
      modifies this`currentItem, this`notified, this`view
      ensures Valid()
      ensures Moved(Request.Prev)
    {
      GotoItem(currentItem - SlidesToScroll());
    }

    /** A click on pagination button `k` jumps to its page start. */
    method ClickPage(k: nat)
      requires Valid() && k < |pageStarts|
      modifies this`currentItem, this`notified, this`view
      ensures Valid()
      ensures Moved(Goto(k * options.slidesToScroll))
    {
      GotoItem(pageStarts[k]);
    }

    /** The key-up handler: the right arrow moves next, the left arrow prev, other keys do nothing. */
    method KeyUp(key: string)
      requires Valid()
      modifies this`currentItem, this`notified, this`view
      ensures Valid()
      ensures KeyRequest(key).Some? ==> Moved(KeyRequest(key).value)
      ensures KeyRequest(key).None? ==>
        currentItem == old(currentItem) && notified == old(notified) && view == old(view)
    {
      if key == "ArrowRight" || key == "Right" {
        Next();
      } else if key == "ArrowLeft" || key == "Left" {
        Prev();
      }
    }

    /**
     * `onWindowResize` for a viewport `width` pixels wide: only a change of
     * the mobile classification reruns the layout and re-notifies every
     * callback with the unchanged position; otherwise nothing changes.
     */
    method OnWindowResize(width: int)
      requires Valid()
      modifies this`isMobile, this`layoutPasses, this`notified, this`view
      ensures Valid()
      ensures isMobile == (width < MobileBreakpoint)
      ensures if (width < MobileBreakpoint) != old(isMobile) then
          && layoutPasses == old(layoutPasses) + 1
          && notified == old(notified) + Notifications(moveCallbacks, currentItem)
          && view == Deliver(old(view), moveCallbacks, currentItem, AtLastWindow(), options.slidesToScroll)
        else
          layoutPasses == old(layoutPasses) && notified == old(notified) && view == old(view)
    {
      var mobile := width < MobileBreakpoint;
      if mobile != isMobile {
        isMobile := mobile;
        SetStyle();
        ghost var before := view;
        Notify(currentItem);
        DeliverShows(before, moveCallbacks, currentItem, AtLastWindow(), options.slidesToScroll);
      }
    }
  }

  /**
   * Nine items, pagination by three on a desktop viewport: three buttons
   * starting at 0, 3 and 6; the arrows start with `prev` hidden; a jump to
   * item 3 activates the middle button only and reveals `prev`.
   */
  method PaginationScenario()
  {
    var c := new Carousel([1, 2, 3, 4, 5, 6, 7, 8, 9], Overrides(Some(3), None, None, Some(true), None), 1024);
    assert |c.pageStarts| == 3;
    assert c.pageStarts == [0, 3, 6];
    assert c.moveCallbacks == [NavigationArrows, PaginationMarks];
    assert c.view.prevHidden && !c.view.nextHidden;
    c.GotoItem(3);
    assert c.currentItem == 3;
    assert c.view.active == [false, true, false];
    assert !c.view.prevHidden;
    assert |c.notified| == 4 && c.notified[2..] == [(NavigationArrows, 3), (PaginationMarks, 3)];
  }

  /**
   * The movie page's configuration on ten items: six `next` presses walk to
   * item 6, the seventh wraps to 0; with looping no arrow observer exists.
   */
  method LoopingScenario()
  {
    var c := new Carousel([0, 1, 2, 3, 4, 5, 6, 7, 8, 9], PageOverrides, 1280);
    assert c.moveCallbacks == [PaginationMarks];
    var presses := 0;
    while presses < 6
      invariant 0 <= presses <= 6
      invariant c.Valid() && c.currentItem == presses && !c.isMobile
      invariant c.options == Options(1, 4, true, true, true) && |c.items| == 10
    {
      c.KeyUp("ArrowRight");
      presses := presses + 1;
    }
    assert c.currentItem == 6;
    c.KeyUp("ArrowRight");
    assert c.currentItem == 0;
    c.KeyUp("Left");
    assert c.currentItem == 6;
  }
}
