/** The throttle wrapper (after underscore.js and lodash.js) that bounds how
    often a scroll event triggers a scan. The wrapper's closure state is a
    `State`; one call of the wrapper and one run of the host's timer queue are
    the functions `AfterCall` and `AfterTick`; the class `Throttle` holds the same state
    in fields and updates it in place. `setTimeout` and `new Date` become an
    explicit deadline and an explicit clock value `now`. */
module Throttling {
  import opened Wrappers
  import opened Timers

  /** The closure state: when `func` last ran, the deadline of the pending
      trailing timer (the `timeoutId`), and the latest argument list. */
  datatype State<A> = State(lastCalled: int, deadline: Option<int>, args: Option<A>)

  /** The state a fresh wrapper starts in: `lastCalled = 0`, no timer, no arguments. */
  function Initial<A>(): (s: State<A>)
    ensures s.deadline.None? && s.args.None? && s.lastCalled == 0
  {
    State(0, None, None)
  }

  /** One call of the wrapper at time `now` with arguments `a`: run `func` at
      once if `wait` has elapsed since it last ran, otherwise schedule a
      trailing call unless one is already pending. */
  function AfterCall<A>(s: State<A>, wait: int, now: int, a: A): (r: (State<A>, Option<Run<A>>))
    ensures r.0.args == Some(a)
    ensures r.1.Some? <==> now - s.lastCalled >= wait
    ensures r.1.Some? ==> r.1.value == Run(now, Some(a)) && r.0.lastCalled == now
    ensures r.1.None? ==> r.0.lastCalled == s.lastCalled
    ensures s.deadline.Some? || r.1.Some? ==> r.0.deadline == s.deadline
    ensures s.deadline.None? && r.1.None? ==> r.0.deadline == Some(s.lastCalled + wait)
  {
    var remain := wait - (now - s.lastCalled);
    if remain <= 0 then
      (State(now, s.deadline, Some(a)), Some(Run(now, Some(a))))
    else if s.deadline.None? then
      (State(s.lastCalled, Some(now + remain), Some(a)), None)
    else
      (s.(args := Some(a)), None)
  }

  /** The host's timer queue running at time `now`: a pending trailing timer
      that is due fires `trailingCall`, which records `now` as `lastCalled`,
      clears the timer and runs `func` with the latest arguments. */
  function AfterTick<A>(s: State<A>, now: int): (r: (State<A>, Option<Run<A>>))
    ensures r.1.Some? <==> s.deadline.Some? && s.deadline.value <= now
    ensures r.1.Some? ==> r.1.value == Run(now, s.args) && r.0 == State(now, None, s.args)
    ensures r.1.None? ==> r.0 == s
  {
    if s.deadline.Some? && s.deadline.value <= now then
      (State(now, None, s.args), Some(Run(now, s.args)))
    else
      (s, None)
  }

  function Step<A>(s: State<A>, wait: int, e: Event<A>): (State<A>, Option<Run<A>>) {
    match e
    case Call(t, a) => AfterCall(s, wait, t, a)
    case Tick(t) => AfterTick(s, t)
  }

  /** The state after a sequence of events, and the invocations of `func` they caused, in order. */
  function Replay<A>(s: State<A>, wait: int, events: seq<Event<A>>): (State<A>, seq<Run<A>>)
    decreases |events|
  {
    if events == [] then (s, [])
    else
      var (s1, r) := Step(s, wait, events[0]);
      var (s2, rs) := Replay(s1, wait, events[1..]);
      (s2, Logged(r) + rs)
  }

  /** A pending timer is due exactly `wait` after the last run of `func`. */
  ghost predicate TimerInv<A>(s: State<A>, wait: int) {
    s.deadline.Some? ==> s.deadline.value == s.lastCalled + wait
  }

  /** The host fires a due timer before it delivers any later call: no call
      arrives while the pending timer is overdue. */
  ghost predicate Prompt<A>(s: State<A>, wait: int, events: seq<Event<A>>)
    decreases |events|
  {
    events == [] ||
    ((events[0].Call? ==> !(s.deadline.Some? && s.deadline.value <= events[0].time))
     && Prompt(Step(s, wait, events[0]).0, wait, events[1..]))
  }

  /** Every invocation comes at least `wait` after the previous one, the first
      at least `wait` after `prev`. */
  ghost predicate Gapped<A>(prev: int, runs: seq<Run<A>>, wait: int)
    decreases |runs|
  {
    runs == [] || (runs[0].time >= prev + wait && Gapped(runs[0].time, runs[1..], wait))
  }

  /** A call of a fresh wrapper runs `func` at once (when the clock has passed `wait`). */
  lemma FirstCallRuns<A>(wait: int, now: int, a: A)
    requires now >= wait
    ensures AfterCall(Initial(), wait, now, a).1 == Some(Run(now, Some(a)))
  {
  }

  /** A call never loses its arguments: either `func` runs with them now, or a
      trailing timer is pending and will run `func` with them unless a later
      call supersedes them. */
  lemma NoLostCall<A>(s: State<A>, wait: int, now: int, a: A, later: int)
    requires TimerInv(s, wait)
    requires AfterCall(s, wait, now, a).1.None?
    requires later >= s.lastCalled + wait
    ensures AfterCall(s, wait, now, a).0.deadline.Some?
    ensures AfterTick(AfterCall(s, wait, now, a).0, later).1 == Some(Run(later, Some(a)))
  {
  }

  lemma StepKeepsGap<A>(s: State<A>, wait: int, e: Event<A>)
    requires TimerInv(s, wait)
    requires e.Call? ==> !(s.deadline.Some? && s.deadline.value <= e.time)
    ensures TimerInv(Step(s, wait, e).0, wait)
    ensures Step(s, wait, e).1.Some? ==>
      Step(s, wait, e).1.value.time >= s.lastCalled + wait &&
      Step(s, wait, e).0.lastCalled == Step(s, wait, e).1.value.time &&
      Step(s, wait, e).1.value.time == e.time
    ensures Step(s, wait, e).1.None? ==> Step(s, wait, e).0.lastCalled == s.lastCalled
  {
  }

  /** Under a prompt host, successive invocations of `func` are at least
      `wait` apart: throttling bounds the scan rate. */
  lemma {:induction false} Spacing<A>(s: State<A>, wait: int, events: seq<Event<A>>)
    requires TimerInv(s, wait)
    requires Prompt(s, wait, events)
    ensures Gapped(s.lastCalled, Replay(s, wait, events).1, wait)
    decreases |events|
  {
    if events != [] {
      StepKeepsGap(s, wait, events[0]);
      var s1, r := Step(s, wait, events[0]).0, Step(s, wait, events[0]).1;
      var rs := Replay(s1, wait, events[1..]).1;
      Spacing(s1, wait, events[1..]);
      assert Replay(s, wait, events).1 == Logged(r) + rs;
      if r.Some? {
        var runs := Logged(r) + rs;
        assert runs[0] == r.value && runs[1..] == rs;
        assert runs[0].time >= s.lastCalled + wait;
        assert Gapped(runs[0].time, runs[1..], wait);
      } else {
        assert Logged(r) + rs == rs;
      }
    }
  }

  /** Every invocation happens at the time of one of the events: the wrapper
      runs `func` only from a call or from the timer. */
  lemma {:induction false} RunsWithin<A>(s: State<A>, wait: int, events: seq<Event<A>>, lo: int, hi: int)
    requires Within(events, lo, hi)
    ensures forall i :: 0 <= i < |Replay(s, wait, events).1| ==>
      lo <= Replay(s, wait, events).1[i].time <= hi
    decreases |events|
  {
    RunsAtEvents(s, wait, events);
  }

  /** Every invocation happens at the time of one of the events: the wrapper
      runs `func` only from a call or from the timer, never in between. */
  lemma {:induction false} RunsAtEvents<A>(s: State<A>, wait: int, events: seq<Event<A>>)
    ensures forall i :: 0 <= i < |Replay(s, wait, events).1| ==>
      exists j :: 0 <= j < |events| && Replay(s, wait, events).1[i].time == events[j].time
    decreases |events|
  {
    if events != [] {
      var s1, r := Step(s, wait, events[0]).0, Step(s, wait, events[0]).1;
      var rs := Replay(s1, wait, events[1..]).1;
      RunsAtEvents(s1, wait, events[1..]);
      var runs := Replay(s, wait, events).1;
      assert runs == Logged(r) + rs;
      assert r.Some? ==> r.value.time == events[0].time;
      forall i | 0 <= i < |runs|
        ensures exists j :: 0 <= j < |events| && runs[i].time == events[j].time
      {
        if i < |Logged(r)| {
          assert runs[i] == r.value;
          assert runs[i].time == events[0].time;
        } else {
          var m := i - |Logged(r)|;
          assert runs[i] == rs[m];
          var j :| 0 <= j < |events[1..]| && rs[m].time == events[1..][j].time;
          assert events[1..][j] == events[j + 1];
          assert runs[i].time == events[j + 1].time;
        }
      }
    } else {
      assert Replay(s, wait, events).1 == [];
    }
  }

  lemma {:induction false} GappedSpan<A>(prev: int, runs: seq<Run<A>>, wait: int)
    requires Gapped(prev, runs, wait)
    requires runs != []
    ensures runs[|runs| - 1].time >= runs[0].time + (|runs| - 1) * wait
    decreases |runs|
  {
    if |runs| > 1 {
      GappedSpan(runs[0].time, runs[1..], wait);
      assert runs[1..][|runs[1..]| - 1] == runs[|runs| - 1];
      assert (|runs| - 1) * wait == (|runs| - 2) * wait + wait;
    }
  }

  /** The throttling rate bound: when every event falls within [lo, hi] and the
      host is prompt, `func` runs at most floor((hi - lo) / wait) + 1 times. */
  lemma RateBound<A>(s: State<A>, wait: int, events: seq<Event<A>>, lo: int, hi: int)
    requires wait > 0 && lo <= hi
    requires TimerInv(s, wait)
    requires Prompt(s, wait, events)
    requires Within(events, lo, hi)
    ensures |Replay(s, wait, events).1| > 0 ==> (|Replay(s, wait, events).1| - 1) * wait <= hi - lo
  {
    var runs := Replay(s, wait, events).1;
    if runs != [] {
      Spacing(s, wait, events);
      RunsWithin(s, wait, events, lo, hi);
      GappedSpan(s.lastCalled, runs, wait);
    }
  }

  /** The loader's scroll listener is `throttle(loadImages, DELAY)`: under a
      prompt host, scrolling starts at most five scans in any second. */
  lemma ScrollScansPerSecond<A>(s: State<A>, events: seq<Event<A>>, lo: int)
    requires TimerInv(s, Delay)
    requires Prompt(s, Delay, events)
    requires Within(events, lo, lo + 1000)
    ensures |Replay(s, Delay, events).1| <= 5
  {
    RateBound(s, Delay, events, lo, lo + 1000);
  }

  /** A call that finds `wait` elapsed runs `func` but leaves a pending
      timer in place; when the host fires that overdue timer afterwards,
      `func` runs a second time 1 ms later. */
  lemma LateTimerRunsTwice<A>(a: A, b: A)
    ensures Replay(Initial(), 250, [Call(0, a), Call(300, b), Tick(301)]).1
      == [Run(300, Some(b)), Run(301, Some(b))]
  {
    var e1, e2, e3: seq<Event<A>> := [Call(0, a), Call(300, b), Tick(301)], [Call(300, b), Tick(301)], [Tick(301)];
    var s1 := State(0, Some(250), Some(a));
    var s2 := State(300, Some(250), Some(b));
    var s3 := State(301, None, Some(b));
    assert e1[0] == Call(0, a) && e1[1..] == e2;
    assert e2[0] == Call(300, b) && e2[1..] == e3;
    assert e3[0] == Tick(301) && e3[1..] == [];
    assert Step(Initial(), 250, e1[0]) == (s1, None);
    assert Step(s1, 250, e2[0]) == (s2, Some(Run(300, Some(b))));
    assert Step(s2, 250, e3[0]) == (s3, Some(Run(301, Some(b))));
    assert Replay(s3, 250, e3[1..]) == (s3, []);
    assert Replay(s2, 250, e3).1 == [Run(301, Some(b))] + [];
    assert Replay(s1, 250, e2).1 == [Run(300, Some(b))] + [Run(301, Some(b))];
    assert Replay(Initial(), 250, e1).1 == [] + [Run(300, Some(b)), Run(301, Some(b))];
  }

  /** The wrapper returned by `throttle(func, wait)`, with its closure state as fields. */
  class Throttle<A> {
    const wait: int
    var lastCalled: int
    var deadline: Option<int>
    var args: Option<A>

    function Current(): (s: State<A>)
      reads this
    {
      State(lastCalled, deadline, args)
    }

    constructor (wait: int)
      ensures this.wait == wait
      ensures Current() == Initial()
    {
      this.wait := wait;
      lastCalled := 0;
      deadline := None;
      args := None;
    }

    /** The wrapper called at `now` with `a`; `ran` is the invocation of `func` it makes, if any. */
    method Call(now: int, a: A) returns (ran: Option<Run<A>>)
      modifies this
      ensures (Current(), ran) == AfterCall(old(Current()), wait, now, a)
    {
      var remain := wait - (now - lastCalled);
      args := Some(a);
      ran := None;
      if remain <= 0 {
        lastCalled := now;
        ran := Some(Run(now, args));
      } else if deadline.None? {
        deadline := Some(now + remain);
      }
    }

    /** The host's timer queue running at `now`: fires `trailingCall` if the timer is due. */
    method Tick(now: int) returns (ran: Option<Run<A>>)
      modifies this
      ensures (Current(), ran) == AfterTick(old(Current()), now)
    {
      ran := None;
      if deadline.Some? && deadline.value <= now {
        lastCalled := now;
        deadline := None;
        ran := Some(Run(now, args));
      }
    }
  }
}
