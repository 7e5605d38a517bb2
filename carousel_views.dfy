/**
 * The two sub-views that observe the carousel's moves, as the visible state
 * they keep: the navigation arrows (hidden or not) and the pagination
 * buttons (which one is marked active), plus the page starts the pagination
 * buttons jump to.
 */
module CarouselViews {
  import opened Wrappers

  /**
   * A registered move callback. The two concrete observers of the widget are
   * named; a callback registered from outside is known only by a handle.
   */
  datatype Callback = NavigationArrows | PaginationMarks | External(handle: nat)

  /** The visible state of the sub-views: the two arrows and one mark per pagination button. */
  datatype View = View(prevHidden: bool, nextHidden: bool, active: seq<bool>)

  /** The marks after activating button `k` and clearing all the others. */
  function OnlyActive(count: nat, k: int): (r: seq<bool>)
    ensures |r| == count
    ensures forall j :: 0 <= j < count ==> (r[j] <==> j == k)
  {
    seq(count, j => j == k)
  }

  /** No two pagination buttons are marked active at once. */
  predicate AtMostOneActive(marks: seq<bool>) {
    forall i, j :: 0 <= i < |marks| && 0 <= j < |marks| && marks[i] && marks[j] ==> i == j
  }

  /** The button whose page holds `index`, if any: `Math.floor(index / step)` when that button exists. */
  function PageOf(index: int, step: int, count: nat): (r: Option<nat>)
    ensures r.Some? ==> step >= 1 && r.value < count && r.value * step <= index < r.value * step + step
    ensures step >= 1 && 0 <= index < count * step ==> r.Some?
  {
    if step >= 1 then
      DivBounds(index, step);
      if index / step >= count then
        MulMonotone(count, index / step, step);
        None
      else if index / step < 0 then None
      else Some(index / step)
    else
      None
  }

  lemma DivBounds(a: int, b: int)
    requires b >= 1
    ensures (a / b) * b <= a < (a / b) * b + b
  {
    assert a == (a / b) * b + a % b;
  }

  /**
   * One callback's effect on the view for a move to `index`; `atLastWindow`
   * says that no item lies one window past the current position.
   */
  function Apply(v: View, cb: Callback, index: int, atLastWindow: bool, step: int): View {
    match cb
    case NavigationArrows => v.(prevHidden := index == 0, nextHidden := atLastWindow)
    case PaginationMarks =>
      var page := PageOf(index, step, |v.active|);
      if page.Some? then v.(active := OnlyActive(|v.active|, page.value)) else v
    case External(_) => v
  }

  /** The view after every callback of `cbs`, in order, has seen the move to `index`. */
  function Deliver(v: View, cbs: seq<Callback>, index: int, atLastWindow: bool, step: int): (r: View)
    ensures |r.active| == |v.active|
    ensures AtMostOneActive(v.active) ==> AtMostOneActive(r.active)
    decreases |cbs|
  {
    if cbs == [] then v
    else Apply(Deliver(v, cbs[..|cbs| - 1], index, atLastWindow, step), cbs[|cbs| - 1], index, atLastWindow, step)
  }

  /**
   * What a notification leaves on screen: the arrows reflect the index when
   * the arrows observe and are untouched otherwise; the button of the index's
   * page is the only active one when pagination observes and that button
   * exists, and the marks are untouched otherwise.
   */
  lemma {:induction false} DeliverEffect(v: View, cbs: seq<Callback>, index: int, atLastWindow: bool, step: int)
    ensures var r := Deliver(v, cbs, index, atLastWindow, step);
      && (NavigationArrows in cbs ==> r.prevHidden == (index == 0) && r.nextHidden == atLastWindow)
      && (NavigationArrows !in cbs ==> r.prevHidden == v.prevHidden && r.nextHidden == v.nextHidden)
      && (PaginationMarks in cbs && PageOf(index, step, |v.active|).Some? ==>
            r.active == OnlyActive(|v.active|, PageOf(index, step, |v.active|).value))
      && (PaginationMarks !in cbs || PageOf(index, step, |v.active|).None? ==> r.active == v.active)
    decreases |cbs|
  {
    if cbs != [] {
      var init := cbs[..|cbs| - 1];
      var last := cbs[|cbs| - 1];
      assert cbs == init + [last];
      DeliverEffect(v, init, index, atLastWindow, step);
      assert NavigationArrows in cbs <==> NavigationArrows in init || last == NavigationArrows;
      assert PaginationMarks in cbs <==> PaginationMarks in init || last == PaginationMarks;
    }
  }

  /**
   * The sub-views show position `current`: the arrows (when they observe)
   * reflect it, and so does the active mark (when pagination observes and
   * the position has a button among `count`).
   */
  predicate ShowsPosition(v: View, cbs: seq<Callback>, current: int, atLastWindow: bool, step: int, count: nat) {
    && (NavigationArrows in cbs ==> v.prevHidden == (current == 0) && v.nextHidden == atLastWindow)
    && (PaginationMarks in cbs && PageOf(current, step, count).Some? ==>
          v.active == OnlyActive(count, PageOf(current, step, count).value))
  }

  /** After a fan-out of `index` the sub-views show that position, and at most one mark is active. */
  lemma DeliverShows(v: View, cbs: seq<Callback>, index: int, atLastWindow: bool, step: int)
    requires AtMostOneActive(v.active)
    ensures var r := Deliver(v, cbs, index, atLastWindow, step);
      && ShowsPosition(r, cbs, index, atLastWindow, step, |v.active|)
      && |r.active| == |v.active|
      && AtMostOneActive(r.active)
  {
    DeliverEffect(v, cbs, index, atLastWindow, step);
  }

  /** The notifications a fan-out performs: each callback once, in registration order, with the same index. */
  function Notifications(cbs: seq<Callback>, index: int): (r: seq<(Callback, int)>)
    ensures |r| == |cbs|
    ensures forall j :: 0 <= j < |cbs| ==> r[j] == (cbs[j], index)
  {
    seq(|cbs|, j requires 0 <= j < |cbs| => (cbs[j], index))
  }

  /** The page starts 0, step, 2*step, ... of the first `n` items, one per pagination button. */
  predicate PageStartsFor(starts: seq<int>, n: int, step: int) {
    && (n <= 0 ==> starts == [])
    && (n > 0 ==> step >= 1 && (|starts| - 1) * step < n <= |starts| * step)
    && forall k :: 0 <= k < |starts| ==> starts[k] == k * step
  }

  /** The number of pagination buttons is the ceiling of `n / step`. */
  lemma PageCount(starts: seq<int>, n: int, step: int)
    requires PageStartsFor(starts, n, step) && n > 0
    ensures |starts| == (n + step - 1) / step
  {
    var q := (n + step - 1) / step;
    var m := (n + step - 1) % step;
    assert q * step + m == n + step - 1;
    assert (q - 1) * step < n <= q * step;
    if |starts| > q {
      MulMonotone(q, |starts| - 1, step);
    } else if |starts| < q {
      MulMonotone(|starts|, q - 1, step);
    }
  }

  lemma MulMonotone(a: int, b: int, c: int)
    requires a <= b && c >= 1
    ensures a * c <= b * c
  {
    assert b * c - a * c == (b - a) * c;
  }

  /** Every item lies on exactly the page of the button `item / step`, counted from that button's start. */
  lemma ItemPage(starts: seq<int>, n: int, step: int, item: int)
    requires PageStartsFor(starts, n, step) && 0 <= item < n
    ensures PageOf(item, step, |starts|).Some?
    ensures var k := PageOf(item, step, |starts|).value; starts[k] <= item < starts[k] + step
  {
    var k := item / step;
    assert k * step <= item;
    if k >= |starts| {
      MulMonotone(|starts|, k, step);
    }
  }

  /**
   * The loop of `createPagination`: one page start per button, stepping by
   * the configured step while below the item count. It only terminates with
   * a positive step, so that is what it asks of a non-empty carousel.
   */
  method BuildPageStarts(n: int, step: int) returns (starts: seq<int>)
    requires n > 0 ==> step >= 1
    ensures PageStartsFor(starts, n, step)
  {
    starts := [];
    var i := 0;
    while i < n
      invariant i == |starts| * step
      invariant n <= 0 ==> starts == []
      invariant n > 0 ==> (|starts| > 0 ==> (|starts| - 1) * step < n)
      invariant forall k :: 0 <= k < |starts| ==> starts[k] == k * step
      decreases n - i
    {
      starts := starts + [i];
      i := i + step;
    }
  }
}
