# JustStreamIt carousel, modelled in Dafny

The movie page of JustStreamIt shows each genre row in a `Carousel`. The
widget turns the children of a container into a row of slides. It keeps a
current position and steps through the slides by a configured amount. It can
wrap around at either end, and it switches to a one-slide view on narrow
viewports. Two optional sub-views follow every move: the previous/next arrows
and a row of pagination buttons. This project models that widget. It also
models two small pure parts of the page script: the duration line of a movie
card and the API query URL of each genre row.

Modules, one per part of the script:

- `CarouselNav` (`carousel_nav.dfy`) covers the pure navigation rules. It has
  the options and their defaults merge, the effective (mobile-adjusted) step
  and window, and the three-way resolution rule `Resolve` that every move goes
  through. It also has the key dispatch and runs of move requests (`Run`),
  with lemmas about where the position can go.
- `CarouselViews` (`carousel_views.dfy`) covers the callbacks and what the
  two sub-views show. The arrows' hidden flags and the buttons' active marks
  are kept in a `View` value. `Deliver` is the ordered fan-out of one
  notification, and `BuildPageStarts` is the loop that lays out one button per
  page.
- `CarouselWidget` (`carousel_widget.dfy`) holds the `Carousel` class. Its
  fields are the position, the mobile flag, the callback list, a log of every
  callback invocation (`notified`), the sub-views' `View` and a count of
  layout passes. The methods change these fields in place, like the source's
  methods. Each method is specified by the pure rules above and keeps the
  object invariant `Valid()`: the callback list is well formed, and the
  registered sub-views show the current position. Two client methods,
  `PaginationScenario` and `LoopingScenario`, run the widget through two
  scenarios from its contracts alone: nine items paged by three,
  and the page's ten-item looping configuration.
- `MovieText` (`movie_text.dfy`) writes the duration line with JavaScript's
  operators made explicit: `~~` is truncation followed by the signed 32-bit
  wrap, and `%` is the truncated remainder. A parser reads the two numbers
  back.
- `QueryUrls` (`query_urls.dfy`) builds the query URL of each genre row. The
  "Meilleurs" row asks for no genre.
- `Wrappers` (`wrappers.dfy`) holds `Option`.

The viewport width is an integer parameter of `OnWindowResize` and of the
constructor. Callbacks added from outside through `onMove` are handles with
no modelled effect. Their invocations appear in the `notified` log.

Two behaviours of the code are easy to misread; the model follows the code:

- The position is not always in `[0, N)`. With `loop` and fewer items than
  the visible window, `prev` from 0 commits `N - slidesVisible`, which is
  negative. `ResolveInRange` and `LoopRunInRange` claim the range only when
  the window fits.
- A move to an index whose pagination button does not exist leaves the marks
  as they were. It does not clear them.

## Model

| member | source | states |
|---|---|---|
| `CarouselNav.MergeOptions` | js/juststreamit_js.js:21-27 | each option is the caller's value when given, otherwise its default: step 1, window 1, no loop, no pagination, navigation on |
| `CarouselNav.EffectiveScroll` | js/juststreamit_js.js:209-211 | the effective step is 1 on mobile and the configured `slidesToScroll` otherwise |
| `CarouselNav.EffectiveVisible` | js/juststreamit_js.js:216-218 | the effective window is 1 on mobile and the configured `slidesVisible` otherwise |
| `CarouselNav.Resolve` | js/juststreamit_js.js:143-156 | the resolution rule as written: a negative target wraps to `N - slidesVisible` or is rejected; a target at or past N, or a forward target while `items[currentItem + slidesVisible]` is missing, wraps to 0 or is rejected; any other target commits; its properties are `NoLoopResolution`, `LoopResolution` and `ResolveInRange` |
| `CarouselNav.NoLoopResolution` | js/juststreamit_js.js:143-156 | without loop a move is rejected if and only if the target is negative, or at or past N, or moves forward while no item lies one window past the position; otherwise it commits the target itself |
| `CarouselNav.LoopResolution` | js/juststreamit_js.js:144-156 | with loop every move commits: a negative target gives `N - slidesVisible`, a target past the end or past the last full window gives 0, any other target is kept |
| `CarouselNav.ResolveInRange` | js/juststreamit_js.js:143-159 | a committed index lies in `[0, N)` without loop, and with loop when `1 <= slidesVisible <= N` |
| `CarouselNav.Target` | js/juststreamit_js.js:131-137 | the index a request asks for: `next` adds the effective step, `prev` subtracts it, a button jump gives its page start |
| `CarouselNav.Outcome` | js/juststreamit_js.js:131-156 | a request resolved by `Resolve` with the effective window and the `loop` option |
| `CarouselNav.After` | js/juststreamit_js.js:143-159 | the position after a request: the committed index, or the unchanged position after a rejection |
| `CarouselNav.Run` | js/juststreamit_js.js:131-159 | the position after a sequence of requests applied in order; its range is stated by `NoLoopRunInRange` and `LoopRunInRange` |
| `CarouselNav.NoLoopRunInRange` | js/juststreamit_js.js:131-159 | without loop, no sequence of next/prev/goto requests from a position in `[0, N)` leaves `[0, N)` |
| `CarouselNav.LoopRunInRange` | js/juststreamit_js.js:131-159 | with loop and a window that fits, every sequence of requests from a position in `[0, N)` stays in `[0, N)` |
| `CarouselNav.BoundaryMoves` | js/juststreamit_js.js:131-156 | at the last full window `next` is rejected without loop and goes to 0 with it; at 0 `prev` is rejected without loop and goes to `N - slidesVisible` with it |
| `CarouselNav.KeyRequest` | js/juststreamit_js.js:61-67 | `ArrowRight`/`Right` and only they mean next, `ArrowLeft`/`Left` and only they mean prev, no key means a direct jump |
| `CarouselNav.Scenarios` | js/juststreamit_js.js:273-278 | the page's configuration merges to step 1, window 4, loop, pagination, navigation; on ten items six `next` reach 6 and the seventh wraps to 0; with three items and window 4 and no loop, one and three `next` requests stay at 0 |
| `CarouselNav.NeverLeavesZero` | js/juststreamit_js.js:131-156 | with three items, window 4 and no loop, any number of `next` requests from 0 leaves the position at 0 |
| `CarouselViews.OnlyActive` | js/juststreamit_js.js:122-123 | after clearing every mark and setting button k, exactly button k is active |
| `CarouselViews.PageOf` | js/juststreamit_js.js:120-121 | a button is found only for a positive step, among the existing buttons, and only one whose page holds the index (so it is `floor(index / step)`); every index in `[0, count * step)` has one |
| `CarouselViews.Apply` | js/juststreamit_js.js:92-103 | one observer's effect on the view: the arrows' observer sets `prev` hidden for index 0 and `next` hidden at the last window; the marks' observer (js 119-125) activates only the index's button when it exists; an outside callback changes nothing; stated by `DeliverEffect` |
| `CarouselViews.Deliver` | js/juststreamit_js.js:160 | a fan-out keeps the number of buttons and never leaves two marks active |
| `CarouselViews.DeliverEffect` | js/juststreamit_js.js:92-103 | after a fan-out of `index`: if the arrows observe, `prev` is hidden exactly at 0 and `next` exactly at the last window, otherwise they are untouched; if the marks observe and the index has a button, that button is the only active one, otherwise the marks are untouched |
| `CarouselViews.DeliverShows` | js/juststreamit_js.js:119-125 | after a fan-out of `index` the registered sub-views show that position, and at most one mark is active |
| `CarouselViews.Notifications` | js/juststreamit_js.js:160 | a fan-out invokes each callback exactly once, in registration order, with the same index |
| `CarouselViews.PageCount` | js/juststreamit_js.js:113-118 | the pagination loop creates `ceil(N / slidesToScroll)` buttons |
| `CarouselViews.ItemPage` | js/juststreamit_js.js:113-121 | every item has a button, and that button's page start is at most the item and less than one step below it |
| `CarouselViews.BuildPageStarts` | js/juststreamit_js.js:113-118 | the loop yields page starts `0, s, 2s, ...`, with button k at `k * s`, as many as needed to cover the N items, and none for an empty carousel |
| `CarouselWidget.WrapChildren` | js/juststreamit_js.js:43-48 | one wrapper per child, in the children's order |
| `CarouselWidget.InitialCallbacks` | js/juststreamit_js.js:50-55 | the constructor's registrations in order: the arrows' observer when navigating without loop, then the marks' observer when paginating |
| `CarouselWidget.RegisteredFor` | js/juststreamit_js.js:167-169 | a callback list that only grew at its end: the constructor's observers first, then only outside handles |
| `CarouselWidget.RegisteredObservers` | js/juststreamit_js.js:50-55 | in a well-formed callback list the arrows' observer is present exactly when navigating without loop, and the marks' observer exactly when paginating |
| `CarouselWidget.Carousel.constructor` | js/juststreamit_js.js:18-68 | the widget starts from the merged options and the children's wrappers in order, at position 0; it registers the enabled observers, makes one layout pass, notifies 0 once, then runs one resize check, which adds a second pass and a second notification of 0 exactly on a mobile viewport |
| `CarouselWidget.Carousel.Mount` | js/juststreamit_js.js:49-55 | the building phase makes one layout pass, then registers the arrows' observer (navigation without loop) and then the marks' observer (pagination), with every button inactive |
| `CarouselWidget.Carousel.Announce` | js/juststreamit_js.js:58-59 | the initial fan-out notifies 0 to every observer; the resize check that follows makes the invariant hold |
| `CarouselWidget.Carousel.SetStyle` | js/juststreamit_js.js:73-77 | each layout pass is counted once |
| `CarouselWidget.Carousel.CreateNavigation` | js/juststreamit_js.js:82-104 | the arrows' observer is appended unless the carousel loops |
| `CarouselWidget.Carousel.CreatePagination` | js/juststreamit_js.js:109-126 | one inactive button per page start, laid out by the loop, and the marks' observer appended |
| `CarouselWidget.Carousel.Register` | js/juststreamit_js.js:167-169 | a callback is appended at the end of the list |
| `CarouselWidget.Carousel.OnMove` | js/juststreamit_js.js:167-169 | an outside callback is appended at the end, nothing else changes, and the invariant is kept |
| `CarouselWidget.Carousel.UpdateArrows` | js/juststreamit_js.js:92-103 | the arrows' observer hides `prev` exactly for index 0 and `next` exactly when no item lies one window past the current position |
| `CarouselWidget.Carousel.UpdateMarks` | js/juststreamit_js.js:119-125 | if the index's button exists, the marks' observer clears every mark and sets that one; otherwise it changes nothing |
| `CarouselWidget.Carousel.Notify` | js/juststreamit_js.js:160 | the log gains each callback once, in order, with the index, and the view becomes the ordered fan-out's result |
| `CarouselWidget.Carousel.GotoItem` | js/juststreamit_js.js:143-161 | the new position is the one the resolution rule gives, with one fan-out of it; a rejection changes nothing and notifies nobody; without loop the position stays in `[0, N)`; with loop it stays there when the window fits; the invariant is kept |
| `CarouselWidget.Carousel.Commit` | js/juststreamit_js.js:157-160 | the position is set before the fan-out, so the observers see the new position, and the invariant is kept |
| `CarouselWidget.Carousel.Next` | js/juststreamit_js.js:131-133 | a move to the position plus the effective step, resolved as in `GotoItem` |
| `CarouselWidget.Carousel.Prev` | js/juststreamit_js.js:135-137 | a move to the position minus the effective step, resolved as in `GotoItem` |
| `CarouselWidget.Carousel.ClickPage` | js/juststreamit_js.js:115 | button k jumps to `k * slidesToScroll` |
| `CarouselWidget.Carousel.KeyUp` | js/juststreamit_js.js:61-67 | the right-arrow keys act as `next`, the left-arrow keys as `prev`, and any other key changes nothing |
| `CarouselWidget.Carousel.OnWindowResize` | js/juststreamit_js.js:174-181 | the mobile flag becomes `width < 800`; only when that flips are there one more layout pass and one fan-out of the unchanged position; otherwise nothing changes and nobody is notified |
| `MovieText.ToInt32` | js/juststreamit_js.js:345 | `~~`'s 32-bit wrap gives a value in the signed 32-bit range, congruent to its input modulo 2^32, and equal to it inside that range |
| `MovieText.TruncMod` | js/juststreamit_js.js:345 | `%` completes the truncating division, agrees with the mathematical remainder for non-negative durations, and lies in `(-60, 0]` for negative ones |
| `MovieText.TruncDiv` | js/juststreamit_js.js:345 | `duration / 60` truncated toward zero, before the 32-bit wrap of `~~` |
| `MovieText.DurationHours` | js/juststreamit_js.js:345 | the hours are `~~(duration / 60)`: the truncated quotient wrapped to 32 bits; stated by `DurationSplit` and `DurationHoursWrap` |
| `MovieText.DurationMinutes` | js/juststreamit_js.js:345 | the minutes are `duration % 60` with JavaScript's sign rule; stated by `TruncMod` and `DurationSplit` |
| `MovieText.DurationText` | js/juststreamit_js.js:345 | the line is `Durée : ` + hours + `h` + minutes + `min`; stated by `DurationTextRoundTrip` |
| `MovieText.DecimalText` | js/juststreamit_js.js:345 | `toString` of an integer: a minus sign for negatives, then the digits; stated by `DecimalRoundTrip` |
| `MovieText.DurationSplit` | js/juststreamit_js.js:345 | while the hour count fits 32 bits, `hours * 60 + minutes` is the duration; for a non-negative duration the hours are `d div 60` and the minutes lie in `[0, 60)` |
| `MovieText.DurationHoursWrap` | js/juststreamit_js.js:345 | at 2^31 hours the hour count wraps to -2^31, and the split no longer adds up |
| `MovieText.Digits` | js/juststreamit_js.js:345 | `toString` of a natural number is a non-empty string of decimal digits with no leading zero |
| `MovieText.DigitsRoundTrip` | js/juststreamit_js.js:345 | the decimal digits of n read back as n |
| `MovieText.DecimalRoundTrip` | js/juststreamit_js.js:345 | the decimal text of any integer, sign included, reads back as that integer and holds no `h` |
| `MovieText.DurationTextRoundTrip` | js/juststreamit_js.js:345 | the line `Durée : <hours>h<minutes>min` reads back as exactly the hours and minutes it was built from |
| `QueryUrls.GenreParam` | js/juststreamit_js.js:257-261 | the genre filter is empty exactly for "Meilleurs" (or an empty name) and is the row's name otherwise |
| `QueryUrls.QueryUrl` | js/juststreamit_js.js:262-263 | base URL, `/`, `?genre=`, the genre filter, `&sort_by=-imdb_score`; stated by `QueryUrlRoundTrip`, `QueryUrlInjective` and `BestRowUrl` |
| `QueryUrls.QueryUrlRoundTrip` | js/juststreamit_js.js:262-263 | the genre filter can be read back out of every query URL |
| `QueryUrls.QueryUrlInjective` | js/juststreamit_js.js:256-263 | two rows get the same URL if and only if they filter on the same genre |
| `QueryUrls.BestRowUrl` | js/juststreamit_js.js:244-263 | the "Meilleurs" row queries `http://localhost:8000/api/v1/titles/?genre=&sort_by=-imdb_score` |
| `QueryUrls.BuildQueryUrls` | js/juststreamit_js.js:256-263 | the loop yields one URL per row, in the rows' order, each the row's query URL, and its genre filter reads back |

## Left out

- DOM construction is browser I/O and is not modelled. That covers the root, title, track and item wrappers, class names, `createDivWithClass`, `createDivWithIdClass`, `tabindex`, `console.log` and the registration of the resize, key and click listeners. The listeners are modelled as the methods they call (`OnWindowResize`, `KeyUp`, `Next`, `Prev`, `ClickPage`).
- `CarouselWidget.Carousel.SetStyle`: the widths it writes are floating-point percentages, so only the fact that a layout pass ran is counted.
- The `translate3d` offset in `gotoItem` is a floating-point style string and is not modelled.
- Re-entrancy is not modelled: an outside callback could itself move the carousel during a fan-out, and the model gives outside callbacks no effect.
- JavaScript numbers are doubles, and options are not type-checked. The model takes integer options, integer durations, an integer width, and exact division in `Math.floor(index / slidesToScroll)` and `~~(duration / 60)`. Rounding of huge values and non-integer options are out of scope.
- `CarouselWidget.Carousel.constructor` requires `slidesToScroll >= 1` when pagination is on and there are items. Otherwise the source's button loop never terminates.
- `MovieText.DurationSplit` holds only while the hour count fits 32 bits, because `~~` wraps beyond it (`MovieText.DurationHoursWrap`).
- A missing `duration` field makes the source write 0 hours (`~~NaN` is 0) and `NaN` minutes, giving `Durée : 0hNaNmin`. The model takes the duration as an integer.
- The other fields of `movie_to_obj` and the `film` record are fixed labels joined to API values. `list_movies_to_obj` is unused.
- `re_fetch`, `display_juststream`, `displaymovie` and the network calls made for each query URL are asynchronous fetches and DOM templating.
- The gross-income formatting with `toFixed` is floating point.
- The modal open/close wiring and the `window.onclick` handler only toggle display styles.
- The commented-out `modal_events` class is dead code.
