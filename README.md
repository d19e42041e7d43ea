# lazyLoad.jquery.js — a verified model of the deferred-loading core

`lazyLoad.jquery.js` is a jQuery plug-in that runs a user callback on each
element carrying a marker class once the element comes within `foldDistance`
pixels of the bottom of the visible window. A `NodeLoader` keeps a pending list
`images` and sets a one-shot `riloaded` flag on each element when it collects
it. A scan does three things:

1. It collects newly marked elements, but only when the list is empty or
   `update` is true. Collecting also attaches the scroll, resize and
   orientation-change listeners.
2. It walks the list with an index loop. Every element not below the fold is
   passed to the callback and spliced out in place.
3. It detaches the listeners once the list is empty.

The scroll listener is throttled and the resize and orientation listeners are
debounced, each with a wait of `DELAY` = 250 ms. The orientation listener asks
for a scan only when the window's orientation has changed. A helper computes
the layout viewport width from three DOM measurements and a screen-width
fallback.

The Dafny project has six modules:

- `Wrappers` (`wrappers.dfy`): the `Option` type. `None` stands for
  `undefined` or NaN.
- `Timers` (`timers.dfy`): the events a rate-limited wrapper sees: a call at
  time `t`, or the host's timer queue running at time `t`. It also holds the
  record of one invocation of the wrapped function, and `Delay`.
- `Throttling` (`throttle.dfy`) and `Debouncing` (`debounce.dfy`): the closure
  state of `throttle` and `debounce`, in two forms.
  - `AfterCall` and `AfterTick` are step functions over a `State` value. The
    trace function `Replay` runs a sequence of events through them, and the
    lemmas about behaviour over time are stated on `Replay`.
  - The classes `Throttle` and `Debounce` hold the same state in fields and
    update it in place. Each method is proved equal to its step function.
- `ViewportWidth` (`viewport.dfy`): `getViewportWidthInCssPixels`. The
  NaN-removal loop is a method on the live list. It also holds the loop as
  written, with a fuel bound (see Findings).
- `LazyLoad` (`loader.dfy`): the `NodeLoader` class.
  - Its fields are `images`, the `riloaded` set, `imagesPendingLoad`,
    `listenersAttached`, `lastOrientation`, and a ghost log `dispatched` of
    every element the callback was called on.
  - `Collect`, `Due` and `Deferred` are functions that state what the
    collection and dispatch loops compute.
  - The invariant `Valid()` says that no element is both pending and
    dispatched, and none is dispatched twice. It also ties the counter to the
    flagged elements, and the listeners to a non-empty list. `Valid()` holds
    from construction on and every scan keeps it.

The code (lines 266-268 and 372) dispatches an element exactly when
`height + scrollTop > offsetTop - foldDistance`. With height 800, offset 1000
and fold distance 50, the element is loaded once scrollTop exceeds 150; at
scrollTop 150 it is still below the fold (`FoldScenario`).

Inputs that stand for I/O:

- The DOM query result is a `seq<ElemId>` in document order.
- The window height, the scroll offset and the element offsets form a
  `Viewport` value, read once per scan.
- `win.orientation` is an `int`.
- The clock is an integer `now`.
- The three width measurements are a `seq<Option<int>>`.
- The screen-width fallback is an `Option<int>`.

## Model

| member | source | states |
|---|---|---|
| `LazyLoad.ClassNameOf` | lazyLoad.jquery.js:129 | The marker class is the `name` option unless it is missing or empty, and then `"lazyload"`; it is never empty |
| `LazyLoad.FoldDistanceOf` | lazyLoad.jquery.js:139 | The fold distance is the option unless it is missing or 0 (falsy), and then 100; it is never 0 |
| `LazyLoad.DueIffNearViewport` | lazyLoad.jquery.js:371-373 | An element is not below the fold exactly when its top edge is less than `foldDistance` pixels below the bottom of the visible window |
| `LazyLoad.ScrollingDownKeepsDue` | lazyLoad.jquery.js:371-373 | Scrolling further down never moves an element back below the fold |
| `LazyLoad.FoldScenario` | lazyLoad.jquery.js:371-373 | With height 800, offset 1000 and fold distance 50, the element is loaded exactly when scrollTop > 150 |
| `LazyLoad.CollectFresh` | lazyLoad.jquery.js:249-259 | Collection appends exactly the queried elements not yet flagged, and each of them once |
| `LazyLoad.CollectInQueryOrder` | lazyLoad.jquery.js:249-259 | On a query without repetitions, collection appends exactly the unflagged queried elements, in query order (checked against the independent filter `Unflagged`) |
| `LazyLoad.CollectKeeps` | lazyLoad.jquery.js:249-259 | Collection keeps the bookkeeping: the new pending list and the dispatched log hold no element twice, the flagged set is their union, and the counter grows by the number appended |
| `LazyLoad.DispatchMembers` | lazyLoad.jquery.js:263-273 | The dispatch pass loads exactly the pending elements not below the fold, and keeps exactly those below it |
| `LazyLoad.DispatchPartitions` | lazyLoad.jquery.js:263-273 | What is loaded and what is kept together make up the pending list as a multiset: nothing is lost or duplicated |
| `LazyLoad.DispatchKeeps` | lazyLoad.jquery.js:263-273 | Dispatch moves the loaded elements from the pending list to the log and keeps the bookkeeping (no repeats, same flagged set, same counter) |
| `LazyLoad.NodeLoader.constructor` | lazyLoad.jquery.js:122-181 | A new loader has the defaulted name and fold distance, an empty list, no flags, a zero counter, detached listeners and an undefined orientation, and is `Valid()` |
| `LazyLoad.NodeLoader.AddBelowfoldListeners` | lazyLoad.jquery.js:191-201 | Attaching the listeners records the current orientation when the window supports orientation events, and leaves it unchanged otherwise |
| `LazyLoad.NodeLoader.RemoveBelowfoldListeners` | lazyLoad.jquery.js:207-213 | The listeners are detached |
| `LazyLoad.NodeLoader.LoadImage` | lazyLoad.jquery.js:219-226 | The callback is logged on `images[idx]`, and exactly that entry is spliced out of the list |
| `LazyLoad.NodeLoader.OrientationChange` | lazyLoad.jquery.js:168-173 | A scan is requested exactly when the orientation differs from the recorded one, and the current orientation is recorded; the invariant is kept |
| `LazyLoad.NodeLoader.CollectImages` | lazyLoad.jquery.js:249-259 | The loop appends `Collect(query, flags)`, flags every queried element, and adds to the counter exactly the number appended |
| `LazyLoad.NodeLoader.DispatchImages` | lazyLoad.jquery.js:263-273 | The in-place splice loop with `i--` leaves exactly `Deferred` of the list, in order, and logs exactly `Due` of it, in list order |
| `LazyLoad.NodeLoader.LoadImages` | lazyLoad.jquery.js:240-282 | One scan: collection (and listener attachment with the orientation record) only when the list is empty or `update` is true; then dispatch; listeners attached afterwards exactly when elements are still pending; flags only grow; `Valid()` is kept |
| `LazyLoad.NodeLoader.Lazyload` | lazyLoad.jquery.js:320-322 | `lazyload()` always collects: the list becomes `Deferred(old list + Collect(query))`, every queried element is flagged, the counter grows by the number collected, and the orientation is recorded when the window supports it |
| `LazyLoad.AtMostOnce` | lazyLoad.jquery.js:251-253 | On a valid loader, the log of callback calls has no repeats, holds only flagged elements and none still pending, and the pending list has no repeats |
| `Throttling.Initial` | lazyLoad.jquery.js:407-411 | A fresh throttle has `lastCalled = 0`, no pending timer and no arguments |
| `Throttling.AfterCall` | lazyLoad.jquery.js:419-433 | A call runs `func` now with its arguments iff `now - lastCalled >= wait`, and then records `now` and leaves the timer as it was; otherwise it schedules a timer at `lastCalled + wait` only if none is pending, and a pending timer is never moved; the arguments are always the latest |
| `Throttling.AfterTick` | lazyLoad.jquery.js:413-417 | A due timer runs `func` with the latest arguments, records `now` as `lastCalled` and clears the timer; otherwise nothing changes |
| `Throttling.FirstCallRuns` | lazyLoad.jquery.js:411-428 | The first call of a fresh throttle runs `func` at once once the clock has passed `wait` |
| `Throttling.NoLostCall` | lazyLoad.jquery.js:419-431 | A call that does not run `func` leaves a timer pending, and that timer later runs `func` with this call's arguments |
| `Throttling.StepKeepsGap` | lazyLoad.jquery.js:413-431 | Under a prompt host, each event keeps the timer at `lastCalled + wait`, and any run it causes comes at least `wait` after the previous one |
| `Throttling.Spacing` | lazyLoad.jquery.js:406-434 | Over any sequence of events delivered by a prompt host, successive runs of `func` are at least `wait` apart |
| `Throttling.RunsAtEvents` | lazyLoad.jquery.js:413-431 | Every run of `func` happens at the time of some event (a call or a timer run), never in between |
| `Throttling.RunsWithin` | lazyLoad.jquery.js:406-434 | When every event falls within `[lo, hi]`, so does every run of `func` |
| `Throttling.RateBound` | lazyLoad.jquery.js:401-434 | Within a window of length `hi - lo`, `func` runs at most `(hi - lo) / wait + 1` times |
| `Throttling.ScrollScansPerSecond` | lazyLoad.jquery.js:157-160 | The scroll listener `throttle(loadImages, DELAY)` starts at most five scans in any 1000 ms |
| `Throttling.LateTimerRunsTwice` | lazyLoad.jquery.js:426-431 | An immediate run leaves a pending timer in place: calls at 0 and 300 and a timer run at 301 make `func` run at 300 and again at 301 |
| `Throttling.Throttle.constructor` | lazyLoad.jquery.js:406-411 | The fields start in the initial state |
| `Throttling.Throttle.Call` | lazyLoad.jquery.js:419-433 | The in-place update of the closure fields equals `AfterCall` |
| `Throttling.Throttle.Tick` | lazyLoad.jquery.js:413-417 | The in-place firing of `trailingCall` equals `AfterTick` |
| `Debouncing.Initial` | lazyLoad.jquery.js:445-448 | A fresh debounce has no pending timer and no arguments |
| `Debouncing.AfterCall` | lazyLoad.jquery.js:457-469 | Every call replaces any pending timer with one at `now + wait` and keeps its arguments; `func` runs now iff `immediate` and no timer was pending |
| `Debouncing.AfterTick` | lazyLoad.jquery.js:450-455 | A due timer clears itself and, in trailing mode only, runs `func` with the latest arguments |
| `Debouncing.QuietDuringBurst` | lazyLoad.jquery.js:457-463 | While calls keep arriving less than `wait` apart, nothing runs, and the deadline is `wait` after the latest call, with its arguments |
| `Debouncing.TrailingRunsOnce` | lazyLoad.jquery.js:444-470 | In trailing mode (as the resize and orientation listeners use it), a burst followed by a timer run `wait` after its last call runs `func` exactly once, then, with the burst's latest arguments |
| `Debouncing.LeadingRunsOnce` | lazyLoad.jquery.js:444-470 | In leading mode, from an idle wrapper, the same burst runs `func` exactly once, at the first call and with its arguments |
| `Debouncing.IdleStaysIdle` | lazyLoad.jquery.js:450-455 | With no timer pending, timer runs do nothing |
| `Debouncing.Debounce.constructor` | lazyLoad.jquery.js:444-448 | The fields start in the initial state |
| `Debouncing.Debounce.Call` | lazyLoad.jquery.js:457-469 | The in-place update of the closure fields equals `AfterCall` |
| `Debouncing.Debounce.Tick` | lazyLoad.jquery.js:450-455 | The in-place firing of `delayed` equals `AfterTick` |
| `ViewportWidth.NumbersMembers` | lazyLoad.jquery.js:347-353 | The numbers kept are exactly the numeric measurements |
| `ViewportWidth.Max` | lazyLoad.jquery.js:356 | `Math.max` of a non-empty list is an element of it and bounds every element |
| `ViewportWidth.Min` | lazyLoad.jquery.js:360 | `Math.min` is one of its arguments and bounds both |
| `ViewportWidth.NumbersSkipNaN` | lazyLoad.jquery.js:349-351 | Splicing out a NaN entry leaves the numbers and their order unchanged |
| `ViewportWidth.RemoveNaNs` | lazyLoad.jquery.js:347-353 | The corrected splice loop leaves exactly the numeric measurements, in order, with no entry skipped |
| `ViewportWidth.ViewportWidthInCssPixels` | lazyLoad.jquery.js:339-365 | The result is `Width`: the widest measurement, capped by a numeric fallback, then the fallback when that is missing or 0, then 0 |
| `ViewportWidth.WidthAtMostScreen` | lazyLoad.jquery.js:358-361 | With a numeric fallback, the width never exceeds it |
| `ViewportWidth.WidthNonZero` | lazyLoad.jquery.js:364 | A non-zero fallback guarantees a non-zero width |
| `ViewportWidth.WidthOrigin` | lazyLoad.jquery.js:355-364 | The width is one of the measurements, the fallback, or 0 |
| `ViewportWidth.WidthIsWidest` | lazyLoad.jquery.js:355-357 | Without a fallback and with some numeric measurement, the width is the widest measurement |
| `ViewportWidth.AsWrittenHangsOnNaN` | lazyLoad.jquery.js:343-353 | The loop as written, bounded by the stale length `l`, never ends for any fuel once a measurement is NaN |
| `ViewportWidth.AsWrittenWithoutNaN` | lazyLoad.jquery.js:343-353 | With no NaN measurement the loop as written ends after `l` iterations with every entry kept |

## Left out

- The DOM query `$('.'+className, root)`, `$win.height()`, `$win.scrollTop()` and `$(img).offset().top` are inputs. An element without an offset reads as top 0. The offsets are read once per scan.
- `addEvent`/`removeEvent` and the w3c/attachEvent switch are the `listenersAttached` flag. Which of the three listeners are attached, and whether the orientation one is, is not tracked separately.
- `setTimeout`, `clearTimeout`, `new Date` and `defer`: timers are explicit deadlines on an integer clock. A deferred scan runs as one atomic step, so no event interleaves with a scan.
- `onDomReady`/`onWindowReady` bootstrapping is left out. The `'load'` defer mode is unreachable, because `deferMode` is fixed to `'belowfold'`.
- `hasLowBandwidth` is left out. It probes the navigator with floating-point comparisons, and its result is never used by the loader.
- The no-js class rewrite, the AMD/global wrapper, the unused `error` helper, and the inert options `base`, `ignoreLowBandwidth` and `retries` are left out.
- `ceil(screen.width / devicePixelRatio)` is floating-point, so it is taken as a given `Option<int>`.
- `LazyLoad.AtMostOnce`: assumes the user callback returns. If `lazyloadFn(img)` throws (line 222), the splice at line 225 does not happen, the exception leaves the dispatch loop and the deferred scan, and the listener removal at line 277 is skipped. The element then stays pending with its `riloaded` flag set, and the next scan that finds it above the fold calls the callback on it again. `LazyLoad.NodeLoader.LoadImage` and `LazyLoad.NodeLoader.DispatchImages` model only callbacks that return.
- The user callback is opaque and only logged. Its return value, and the `result` and `thisArg` that the throttle and debounce wrappers keep, are not modelled.
- The truthiness tests `elm &&` and `while (current = images[i])` are not modelled: element ids are always truthy values, so the loop stops only at the end of the list.
- `lastOrientation` is a variable shared by all loaders in the source, and `riloaded` is a property on the DOM element. The model keeps both per loader, so interference between two loaders over the same elements is not modelled.
- `imagesPendingLoad` is never decremented in the source. The model keeps it as the number of elements ever collected.
- `getViewportWidthInCssPixels` is modelled on values. It is called once at start-up, and its result is not consumed by the scan.
- `Throttling.Spacing`: holds only for a prompt host, i.e. one that fires a due timer before it delivers a later call (`Prompt`). `Throttling.RateBound` and `Throttling.ScrollScansPerSecond` rest on the same assumption. Without it the bound fails: the immediate branch (lines 426-428) runs `func` without clearing a pending `timeoutId`, so when the timer runs late `func` runs twice, 1 ms apart (`Throttling.LateTimerRunsTwice`: calls at 0 and 300, timer at 301).
- `Throttling.RateBound`: is stated as `(n - 1) * wait <= hi - lo`, which is the same bound as `n <= (hi - lo) / wait + 1` without the division.

## Findings

| source | as written | input that shows it | evidently intended | confidence | as-written member | corrected member |
|---|---|---|---|---|---|---|
| lazyLoad.jquery.js:343-353 | The loop bound `l` is the length read before the loop. After one NaN entry is spliced out, `i` reaches the live end; `widths[i]` is then `undefined`, `isNaN(undefined)` is true, `splice` removes nothing, and `i--; i++` leaves `i` where it is, forever | measurements `[NaN, 1024, 1024]` (any list holding a NaN) | bound the loop by the live length `widths.length`, so that every NaN entry is removed and the loop ends | not executed | `ViewportWidth.AsWrittenHangsOnNaN` | `ViewportWidth.RemoveNaNs` |
