/** The debounce wrapper (after underscore.js and lodash.js) that collapses a
    burst of resize or orientation events into one scan. Every call cancels
    the pending timer and sets a new one `wait` later; with `immediate` the
    wrapped function runs on the leading edge of a burst, otherwise when the
    timer fires. `setTimeout`/`clearTimeout` become an explicit deadline. */
module Debouncing {
  import opened Wrappers
  import opened Timers

  /** The closure state: the deadline of the pending timer (the `timeoutId`)
      and the latest argument list. */
  datatype State<A> = State(deadline: Option<int>, args: Option<A>)

  function Initial<A>(): (s: State<A>)
    ensures s.deadline.None? && s.args.None?
  {
    State(None, None)
  }

  /** One call of the wrapper at `now` with `a`: the pending timer, if any, is
      replaced by one due at `now + wait`; in leading-edge mode `func` runs now
      when no timer was pending. */
  function AfterCall<A>(s: State<A>, wait: int, immediate: bool, now: int, a: A): (r: (State<A>, Option<Run<A>>))
    ensures r.0 == State(Some(now + wait), Some(a))
    ensures r.1.Some? <==> immediate && s.deadline.None?
    ensures r.1.Some? ==> r.1.value == Run(now, Some(a))
  {
    var isImmediate := immediate && s.deadline.None?;
    (State(Some(now + wait), Some(a)), if isImmediate then Some(Run(now, Some(a))) else None)
  }

  /** The host's timer queue running at `now`: a due timer fires `delayed`,
      which clears the timer and, in trailing-edge mode, runs `func` with the
      latest arguments. */
  function AfterTick<A>(s: State<A>, immediate: bool, now: int): (r: (State<A>, Option<Run<A>>))
    ensures s.deadline.Some? && s.deadline.value <= now ==> r.0 == State(None, s.args)
    ensures !(s.deadline.Some? && s.deadline.value <= now) ==> r.0 == s
    ensures r.1.Some? <==> !immediate && s.deadline.Some? && s.deadline.value <= now
    ensures r.1.Some? ==> r.1.value == Run(now, s.args)
  {
    if s.deadline.Some? && s.deadline.value <= now then
      (State(None, s.args), if !immediate then Some(Run(now, s.args)) else None)
    else
      (s, None)
  }

  function Step<A>(s: State<A>, wait: int, immediate: bool, e: Event<A>): (State<A>, Option<Run<A>>) {
    match e
    case Call(t, a) => AfterCall(s, wait, immediate, t, a)
    case Tick(t) => AfterTick(s, immediate, t)
  }

  /** The state after a sequence of events, and the invocations of `func` they caused, in order. */
  function Replay<A>(s: State<A>, wait: int, immediate: bool, events: seq<Event<A>>): (State<A>, seq<Run<A>>)
    decreases |events|
  {
    if events == [] then (s, [])
    else
      var (s1, r) := Step(s, wait, immediate, events[0]);
      var (s2, rs) := Replay(s1, wait, immediate, events[1..]);
      (s2, Logged(r) + rs)
  }

  /** The rest of a burst whose latest call so far came at `last`: each run of
      the timer queue comes before `wait` has passed since the latest call. */
  ghost predicate Burst<A>(last: int, wait: int, events: seq<Event<A>>)
    decreases |events|
  {
    events == [] ||
    match events[0]
    case Call(t, _) => Burst(t, wait, events[1..])
    case Tick(t) => t < last + wait && Burst(last, wait, events[1..])
  }

  /** The time and arguments of the latest call in `events`, or (`t`, `a`) when there is none. */
  function LatestCall<A>(t: int, a: A, events: seq<Event<A>>): (int, A)
    decreases |events|
  {
    if events == [] then (t, a)
    else
      match events[0]
      case Call(t', a') => LatestCall(t', a', events[1..])
      case Tick(_) => LatestCall(t, a, events[1..])
  }

  lemma {:induction false} ReplayAppend<A>(s: State<A>, wait: int, immediate: bool, xs: seq<Event<A>>, ys: seq<Event<A>>)
    ensures Replay(s, wait, immediate, xs + ys) ==
      (Replay(Replay(s, wait, immediate, xs).0, wait, immediate, ys).0,
       Replay(s, wait, immediate, xs).1 + Replay(Replay(s, wait, immediate, xs).0, wait, immediate, ys).1)
    decreases |xs|
  {
    if xs == [] {
      assert xs + ys == ys;
      assert Replay(s, wait, immediate, xs).1 + Replay(s, wait, immediate, ys).1
        == Replay(s, wait, immediate, ys).1;
    } else {
      assert (xs + ys)[0] == xs[0];
      assert (xs + ys)[1..] == xs[1..] + ys;
      var s1, r := Step(s, wait, immediate, xs[0]).0, Step(s, wait, immediate, xs[0]).1;
      ReplayAppend(s1, wait, immediate, xs[1..], ys);
      assert Replay(s, wait, immediate, xs + ys) ==
        (Replay(s1, wait, immediate, xs[1..] + ys).0, Logged(r) + Replay(s1, wait, immediate, xs[1..] + ys).1);
      var mid := Replay(s1, wait, immediate, xs[1..]);
      var tail := Replay(mid.0, wait, immediate, ys);
      assert Replay(s, wait, immediate, xs) == (mid.0, Logged(r) + mid.1);
      assert Replay(s, wait, immediate, xs + ys) == (tail.0, Logged(r) + (mid.1 + tail.1));
      assert Logged(r) + (mid.1 + tail.1) == (Logged(r) + mid.1) + tail.1;
    }
  }

  /** While a burst lasts nothing runs: every call pushes the deadline to
      `wait` after itself and keeps its arguments, and no timer comes due. */
  lemma {:induction false} QuietDuringBurst<A>(s: State<A>, wait: int, immediate: bool, t: int, a: A, events: seq<Event<A>>)
    requires s == State(Some(t + wait), Some(a))
    requires Burst(t, wait, events)
    ensures Replay(s, wait, immediate, events) ==
      (State(Some(LatestCall(t, a, events).0 + wait), Some(LatestCall(t, a, events).1)), [])
    decreases |events|
  {
    if events != [] {
      match events[0]
      case Call(t', a') =>
        var s1 := State(Some(t' + wait), Some(a'));
        assert Step(s, wait, immediate, events[0]) == (s1, None);
        QuietDuringBurst(s1, wait, immediate, t', a', events[1..]);
        assert Logged<A>(None) + Replay(s1, wait, immediate, events[1..]).1 == [];
      case Tick(t') =>
        assert Step(s, wait, immediate, events[0]) == (s, None);
        QuietDuringBurst(s, wait, immediate, t, a, events[1..]);
        assert Logged<A>(None) + Replay(s, wait, immediate, events[1..]).1 == [];
    }
  }

  lemma ReplayOne<A>(s: State<A>, wait: int, immediate: bool, e: Event<A>)
    ensures Replay(s, wait, immediate, [e]) ==
      (Step(s, wait, immediate, e).0, Logged(Step(s, wait, immediate, e).1))
  {
    assert [e][1..] == [];
    assert Logged(Step(s, wait, immediate, e).1) + [] == Logged(Step(s, wait, immediate, e).1);
  }

  /** Trailing-edge debounce: a burst that starts with a call and is followed,
      `wait` or more after its last call, by a run of the timer queue makes
      `func` run exactly once, then, with the burst's latest arguments. */
  lemma TrailingRunsOnce<A>(s: State<A>, wait: int, t: int, a: A, events: seq<Event<A>>, fire: int)
    requires Burst(t, wait, events)
    requires fire >= LatestCall(t, a, events).0 + wait
    ensures Replay(s, wait, false, [Call(t, a)] + events + [Tick(fire)]) ==
      (State(None, Some(LatestCall(t, a, events).1)), [Run(fire, Some(LatestCall(t, a, events).1))])
  {
    var latest := LatestCall(t, a, events);
    var s1 := State(Some(t + wait), Some(a));
    var s2 := State(Some(latest.0 + wait), Some(latest.1));
    ReplayOne(s, wait, false, Call(t, a));
    QuietDuringBurst(s1, wait, false, t, a, events);
    ReplayAppend(s, wait, false, [Call(t, a)], events);
    assert Replay(s, wait, false, [Call(t, a)] + events) == (s2, []);
    ReplayOne(s2, wait, false, Tick(fire));
    ReplayAppend(s, wait, false, [Call(t, a)] + events, [Tick(fire)]);
    assert [] + [Run(fire, Some(latest.1))] == [Run(fire, Some(latest.1))];
  }

  /** Leading-edge debounce: from an idle wrapper the same burst makes `func`
      run exactly once, at the first call and with its arguments; the timer
      firing later only clears it. */
  lemma LeadingRunsOnce<A>(s: State<A>, wait: int, t: int, a: A, events: seq<Event<A>>, fire: int)
    requires s.deadline.None?
    requires Burst(t, wait, events)
    requires fire >= LatestCall(t, a, events).0 + wait
    ensures Replay(s, wait, true, [Call(t, a)] + events + [Tick(fire)]) ==
      (State(None, Some(LatestCall(t, a, events).1)), [Run(t, Some(a))])
  {
    var latest := LatestCall(t, a, events);
    var s1 := State(Some(t + wait), Some(a));
    var s2 := State(Some(latest.0 + wait), Some(latest.1));
    ReplayOne(s, wait, true, Call(t, a));
    QuietDuringBurst(s1, wait, true, t, a, events);
    ReplayAppend(s, wait, true, [Call(t, a)], events);
    assert [Run(t, Some(a))] + [] == [Run(t, Some(a))];
    assert Replay(s, wait, true, [Call(t, a)] + events) == (s2, [Run(t, Some(a))]);
    ReplayOne(s2, wait, true, Tick(fire));
    ReplayAppend(s, wait, true, [Call(t, a)] + events, [Tick(fire)]);
  }

  /** Once no timer is pending, runs of the timer queue do nothing. */
  lemma {:induction false} IdleStaysIdle<A>(s: State<A>, wait: int, immediate: bool, events: seq<Event<A>>)
    requires s.deadline.None?
    requires forall i :: 0 <= i < |events| ==> events[i].Tick?
    ensures Replay(s, wait, immediate, events) == (s, [])
    decreases |events|
  {
    if events != [] {
      assert Step(s, wait, immediate, events[0]) == (s, None);
      IdleStaysIdle(s, wait, immediate, events[1..]);
      assert Logged<A>(None) + Replay(s, wait, immediate, events[1..]).1 == [];
    }
  }

  /** The wrapper returned by `debounce(func, wait, immediate)`, with its closure state as fields. */
  class Debounce<A> {
    const wait: int
    const immediate: bool
    var deadline: Option<int>
    var args: Option<A>

    function Current(): (s: State<A>)
      reads this
    {
      State(deadline, args)
    }

    constructor (wait: int, immediate: bool)
      ensures this.wait == wait && this.immediate == immediate
      ensures Current() == Initial()
    {
      this.wait := wait;
      this.immediate := immediate;
      deadline := None;
      args := None;
    }

    /** The wrapper called at `now` with `a`; `ran` is the invocation of `func` it makes, if any. */
    method Call(now: int, a: A) returns (ran: Option<Run<A>>)
      modifies this
      ensures (Current(), ran) == AfterCall(old(Current()), wait, immediate, now, a)
    {
      var isImmediate := immediate && deadline.None?;
      args := Some(a);
      deadline := Some(now + wait);
      ran := None;
      if isImmediate {
        ran := Some(Run(now, args));
      }
    }

    /** The host's timer queue running at `now`: fires `delayed` if the timer is due. */
    method Tick(now: int) returns (ran: Option<Run<A>>)
      modifies this
      ensures (Current(), ran) == AfterTick(old(Current()), immediate, now)
    {
      ran := None;
      if deadline.Some? && deadline.value <= now {
        deadline := None;
        if !immediate {
          ran := Some(Run(now, args));
        }
      }
    }
  }
}
