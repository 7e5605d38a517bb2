/**
 * The navigation logic of the carousel as pure functions: the options and
 * their defaults, the effective (mobile-adjusted) step and window, the
 * resolution rule every move goes through, the key dispatch, and runs of
 * move requests.
 */
module CarouselNav {
  import opened Wrappers

  /** The recognised configuration after merging the overrides onto the defaults. */
  datatype Options = Options(
    slidesToScroll: int,
    slidesVisible: int,
    loop: bool,
    pagination: bool,
    navigation: bool)

  /** What a caller may pass; a missing key falls back to its default, unknown keys cannot be expressed. */
  datatype Overrides = Overrides(
    slidesToScroll: Option<int>,
    slidesVisible: Option<int>,
    loop: Option<bool>,
    pagination: Option<bool>,
    navigation: Option<bool>)

  function Pick<T>(o: Option<T>, default: T): T {
    if o.Some? then o.value else default
  }

  /** The defaults merge of the constructor: an override wins, otherwise the documented default. */
  function MergeOptions(o: Overrides): (r: Options)
    ensures r.slidesToScroll == (if o.slidesToScroll.Some? then o.slidesToScroll.value else 1)
    ensures r.slidesVisible == (if o.slidesVisible.Some? then o.slidesVisible.value else 1)
    ensures r.loop == (o.loop.Some? && o.loop.value)
    ensures r.pagination == (o.pagination.Some? && o.pagination.value)
    ensures r.navigation == (o.navigation.None? || o.navigation.value)
  {
    Options(
      Pick(o.slidesToScroll, 1),
      Pick(o.slidesVisible, 1),
      Pick(o.loop, false),
      Pick(o.pagination, false),
      Pick(o.navigation, true))
  }

  /** The `slidesToScroll` getter: one item per step on mobile. */
  function EffectiveScroll(mobile: bool, o: Options): (r: int)
    ensures mobile ==> r == 1
    ensures !mobile ==> r == o.slidesToScroll
  {
    if mobile then 1 else o.slidesToScroll
  }

  /** The `slidesVisible` getter: one visible item on mobile. */
  function EffectiveVisible(mobile: bool, o: Options): (r: int)
    ensures mobile ==> r == 1
    ensures !mobile ==> r == o.slidesVisible
  {
    if mobile then 1 else o.slidesVisible
  }

  /** `items[k]` is defined exactly for the indices of the item list. */
  predicate ItemExists(n: int, k: int) {
    0 <= k < n
  }

  /**
   * The resolution rule of `gotoItem` for a carousel of `n` items showing
   * `visible` of them from `current`: None is the silent rejection, Some(i)
   * the committed index.
   */
  function Resolve(n: int, visible: int, loop: bool, current: int, target: int): Option<int> {
    if target < 0 then
      if loop then Some(n - visible) else None
    else if target >= n || (!ItemExists(n, current + visible) && target > current) then
      if loop then Some(0) else None
    else
      Some(target)
  }

  /** Without looping a move is rejected exactly in the three cases, and otherwise commits its target. */
  lemma NoLoopResolution(n: int, visible: int, current: int, target: int)
    ensures Resolve(n, visible, false, current, target).None? <==>
      (target < 0 || target >= n || (current + visible >= n && target > current) || (current + visible < 0 && target > current))
    ensures Resolve(n, visible, false, current, target).Some? ==>
      Resolve(n, visible, false, current, target).value == target
  {
  }

  /** With looping every move commits: below 0 to the last window, past the end to 0, else the target. */
  lemma LoopResolution(n: int, visible: int, current: int, target: int)
    ensures Resolve(n, visible, true, current, target).Some?
    ensures target < 0 ==> Resolve(n, visible, true, current, target) == Some(n - visible)
    ensures target >= 0 && (target >= n || (!ItemExists(n, current + visible) && target > current)) ==>
      Resolve(n, visible, true, current, target) == Some(0)
    ensures 0 <= target < n && (ItemExists(n, current + visible) || target <= current) ==>
      Resolve(n, visible, true, current, target) == Some(target)
  {
  }

  /** A committed index stays among the items: always without looping, and with looping when the window fits. */
  lemma ResolveInRange(n: int, visible: int, loop: bool, current: int, target: int)
    requires loop ==> 1 <= visible <= n
    ensures var r := Resolve(n, visible, loop, current, target);
      r.Some? ==> 0 <= r.value < n
  {
  }

  /** A move request: the arrows and keys ask for `next`/`prev`, a pagination button for a fixed index. */
  datatype Request = Next | Prev | Goto(index: int)

  /** The index a request asks `gotoItem` for, stepping by the effective step. */
  function Target(o: Options, mobile: bool, current: int, req: Request): int {
    match req
    case Next => current + EffectiveScroll(mobile, o)
    case Prev => current - EffectiveScroll(mobile, o)
    case Goto(i) => i
  }

  /** What a request resolves to in a carousel of `n` items. */
  function Outcome(n: int, o: Options, mobile: bool, current: int, req: Request): Option<int> {
    Resolve(n, EffectiveVisible(mobile, o), o.loop, current, Target(o, mobile, current, req))
  }

  /** The position after a request: the committed index, or the old one after a rejection. */
  function After(n: int, o: Options, mobile: bool, current: int, req: Request): int {
    var r := Outcome(n, o, mobile, current, req);
    if r.Some? then r.value else current
  }

  /** The position after a sequence of requests, applied in order (no resize in between). */
  function Run(n: int, o: Options, mobile: bool, current: int, reqs: seq<Request>): int
    decreases |reqs|
  {
    if reqs == [] then current
    else Run(n, o, mobile, After(n, o, mobile, current, reqs[0]), reqs[1..])
  }

  /** Without looping, no sequence of next/prev/goto requests leaves the item range. */
  lemma {:induction false} NoLoopRunInRange(n: int, o: Options, mobile: bool, current: int, reqs: seq<Request>)
    requires !o.loop && 0 <= current < n
    ensures 0 <= Run(n, o, mobile, current, reqs) < n
    decreases |reqs|
  {
    if reqs != [] {
      var next := After(n, o, mobile, current, reqs[0]);
      ResolveInRange(n, EffectiveVisible(mobile, o), false, current, Target(o, mobile, current, reqs[0]));
      NoLoopRunInRange(n, o, mobile, next, reqs[1..]);
    }
  }

  /** With looping and a window that fits, every request after the first lands inside the item range. */
  lemma {:induction false} LoopRunInRange(n: int, o: Options, mobile: bool, current: int, reqs: seq<Request>)
    requires o.loop && 1 <= EffectiveVisible(mobile, o) <= n && 0 <= current < n
    ensures 0 <= Run(n, o, mobile, current, reqs) < n
    decreases |reqs|
  {
    if reqs != [] {
      var next := After(n, o, mobile, current, reqs[0]);
      ResolveInRange(n, EffectiveVisible(mobile, o), true, current, Target(o, mobile, current, reqs[0]));
      LoopRunInRange(n, o, mobile, next, reqs[1..]);
    }
  }

  /**
   * The boundary behaviour of next/prev (with a step of at least one): at the
   * last full window `next` is rejected without looping and wraps to 0 with
   * it; from 0 `prev` is rejected without looping and wraps to the last
   * window with it.
   */
  lemma BoundaryMoves(n: int, o: Options, mobile: bool, current: int)
    requires EffectiveScroll(mobile, o) >= 1
    ensures 0 <= current && !ItemExists(n, current + EffectiveVisible(mobile, o)) ==>
      Outcome(n, o, mobile, current, Next) == (if o.loop then Some(0) else None)
    ensures current == 0 ==>
      Outcome(n, o, mobile, current, Prev) == (if o.loop then Some(n - EffectiveVisible(mobile, o)) else None)
  {
  }

  /** What a key-up event asks for: the right arrow is `next`, the left arrow `prev`, any other key nothing. */
  function KeyRequest(key: string): (r: Option<Request>)
    ensures r == Some(Next) <==> key == "ArrowRight" || key == "Right"
    ensures r == Some(Prev) <==> key == "ArrowLeft" || key == "Left"
    ensures r.Some? ==> !r.value.Goto?
  {
    if key == "ArrowRight" || key == "Right" then Some(Next)
    else if key == "ArrowLeft" || key == "Left" then Some(Prev)
    else None
  }

  /** The configuration every carousel of the movie page is created with. */
  const PageOverrides := Overrides(Some(1), Some(4), Some(true), Some(true), None)

  /**
   * Ten items, four visible, step one, looping: six `next` requests walk
   * 1..6, the seventh wraps to 0. Three items with four visible and no
   * looping: `next` never leaves 0.
   */
  lemma Scenarios()
    ensures var o := MergeOptions(PageOverrides);
      o == Options(1, 4, true, true, true)
      && Run(10, o, false, 0, [Next]) == 1
      && Run(10, o, false, 0, [Next, Next, Next, Next, Next, Next]) == 6
      && Run(10, o, false, 0, [Next, Next, Next, Next, Next, Next, Next]) == 0
    ensures var o := MergeOptions(Overrides(None, Some(4), None, None, None));
      Run(3, o, false, 0, [Next]) == 0 && Run(3, o, false, 0, [Next, Next, Next]) == 0
  {
  }

  /** With three items, a window of four and no looping, any number of `next` requests leaves the position at 0. */
  lemma {:induction false} NeverLeavesZero(k: nat)
    ensures Run(3, MergeOptions(Overrides(None, Some(4), None, None, None)), false, 0, seq(k, _ => Next)) == 0
  {
    var o := MergeOptions(Overrides(None, Some(4), None, None, None));
    if k > 0 {
      var reqs: seq<Request> := seq(k, _ => Next);
      assert reqs[0] == Next && reqs[1..] == seq(k - 1, _ => Next);
      assert After(3, o, false, 0, Next) == 0;
      NeverLeavesZero(k - 1);
    }
  }
}
