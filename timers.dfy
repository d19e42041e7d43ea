/** What the two rate limiters (throttle and debounce) share: the events the
    host delivers to a wrapper and the record of one invocation of the wrapped
    function. The host's clock is an integer number of milliseconds. */
module Timers {
  import opened Wrappers

  /** `DELAY`: the wait, in milliseconds, of every listener wrapper the loader creates. */
  const Delay: int := 250

  /** An event delivered to a rate-limited wrapper: a call of the wrapper at
      `time` with arguments `args`, or the host's timer queue running at `time`
      (it fires the wrapper's pending timer if that timer is due). */
  datatype Event<A> = Call(time: int, args: A) | Tick(time: int)

  /** One invocation of the wrapped function, at `time`, with the argument list
      the wrapper held (None: the wrapper was never called, `args` undefined). */
  datatype Run<A> = Run(time: int, args: Option<A>)

  /** The invocations an optional invocation contributes to a log. */
  function Logged<A>(r: Option<Run<A>>): (log: seq<Run<A>>)
    ensures r.None? ==> log == []
    ensures r.Some? ==> log == [r.value]
  {
    if r.Some? then [r.value] else []
  }

  /** Every event happens within the closed interval [lo, hi]. */
  ghost predicate Within<A>(events: seq<Event<A>>, lo: int, hi: int) {
    forall i :: 0 <= i < |events| ==> lo <= events[i].time <= hi
  }
}
