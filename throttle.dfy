/**
 * The throttle wrapper of `Navigation.throttle` (and its copy `ScrollAnimations.throttle`):
 * a call runs the wrapped function at once when more than `delay` milliseconds have
 * passed since the last run; otherwise it replaces the one pending trailing call, which
 * is due `delay - (now - lastExec)` milliseconds later.
 *
 * The clock is an integer parameter (`Date.now()`), and the timer of `setTimeout` and
 * `clearTimeout` is a single optional slot holding the due time and the arguments. The
 * host event loop decides when a due timer runs: the event `TimerDue(t)` runs the pending
 * call if one is pending and due at `t`, and does nothing otherwise. The trailing call
 * records `Date.now()` read after the wrapped function returns, while an immediate call
 * records the reading taken before it; `t` is that later reading, and the model takes the
 * wrapped function to return at the instant it is called.
 */
module Throttle {
  import opened Wrappers

  /** The trailing call scheduled with `setTimeout`. */
  datatype Pending<A> = Pending(fireAt: int, args: A)

  /** The closure state: `lastExecTime` and the pending timeout, if any. */
  datatype State<A> = State(lastExec: int, pending: Option<Pending<A>>)

  /** A call of the wrapped function at `time`, or the host running a due timer at `time`. */
  datatype Event<A> = Call(time: int, args: A) | TimerDue(time: int)

  /** One run of the wrapped function: when, with which arguments, and whether it ran at once or as the trailing call. */
  datatype Exec<A> = Exec(time: int, args: A, immediate: bool)

  /** The closure as `throttle` creates it: `lastExecTime = 0`, no timeout. */
  function Init<A>(): (r: State<A>)
    ensures r.pending.None?
    ensures forall delay, now :: RunsNow(delay, r.lastExec, now) <==> now > delay
  {
    State(0, None)
  }

  /** A call at `now` runs at once exactly when more than `delay` has passed since the last run. */
  predicate RunsNow(delay: int, lastExec: int, now: int)
  {
    now - lastExec > delay
  }

  /**
   * The timeout given to `setTimeout`: never negative, at most `delay` when the clock has not
   * gone back, and always ending `delay` after the last run.
   */
  function TrailingWait(delay: int, lastExec: int, now: int): (w: int)
    requires !RunsNow(delay, lastExec, now)
    ensures 0 <= w
    ensures lastExec <= now ==> w <= delay
    ensures now + w == lastExec + delay
  {
    delay - (now - lastExec)
  }

  /**
   * One event. A call that runs at once records its time and leaves a pending timeout
   * alone; a call that does not run replaces the pending timeout; a due timer runs the
   * pending call and records the time it ran.
   */
  function Step<A>(delay: int, s: State<A>, e: Event<A>): (r: (State<A>, seq<Exec<A>>))
    ensures |r.1| <= 1
    ensures e.Call? ==> (r.1 != [] <==> RunsNow(delay, s.lastExec, e.time))
    ensures e.Call? && !RunsNow(delay, s.lastExec, e.time) ==>
              r.0.pending == Some(Pending(s.lastExec + delay, e.args)) && r.0.lastExec == s.lastExec
    ensures r.1 != [] ==> r.0.lastExec == r.1[0].time == e.time && r.0.pending == (if e.Call? then s.pending else None)
    ensures r.1 == [] ==> r.0.lastExec == s.lastExec
    ensures e.TimerDue? ==> (r.1 != [] <==> s.pending.Some? && s.pending.value.fireAt <= e.time)
    ensures e.TimerDue? && r.1 == [] ==> r.0 == s
    ensures r.1 != [] ==> r.1[0].immediate == e.Call?
                          && r.1[0].args == (if e.Call? then e.args else s.pending.value.args)
  {
    match e
    case Call(now, args) =>
      if RunsNow(delay, s.lastExec, now) then
        (State(now, s.pending), [Exec(now, args, true)])
      else
        (State(s.lastExec, Some(Pending(now + TrailingWait(delay, s.lastExec, now), args))), [])
    case TimerDue(now) =>
      match s.pending
      case Some(p) =>
        if p.fireAt <= now then (State(now, None), [Exec(now, p.args, false)]) else (s, [])
      case None => (s, [])
  }

  /**
   * The first call of a fresh throttle runs at once whenever the clock reads more than
   * `delay` (`Date.now()` counts milliseconds since 1970), and schedules nothing.
   */
  lemma FirstCallRunsAtOnce<A>(delay: int, now: int, args: A)
    requires now > delay
    ensures Run(delay, Init(), [Call(now, args)]) == (State(now, None), [Exec(now, args, true)])
  {
    RunOne(delay, Init(), Call(now, args));
  }

  /** A sequence of events from state `s`: the final state and the runs of the wrapped function, in order. */
  function Run<A>(delay: int, s: State<A>, events: seq<Event<A>>): (r: (State<A>, seq<Exec<A>>))
    decreases |events|
  {
    if events == [] then (s, [])
    else
      var (s1, first) := Step(delay, s, events[0]);
      var (s2, rest) := Run(delay, s1, events[1..]);
      (s2, first + rest)
  }

  /** Running `a` and then `b` is running `a + b`. */
  lemma {:induction false} RunAppend<A>(delay: int, s: State<A>, a: seq<Event<A>>, b: seq<Event<A>>)
    ensures Run(delay, s, a + b) ==
            (Run(delay, Run(delay, s, a).0, b).0, Run(delay, s, a).1 + Run(delay, Run(delay, s, a).0, b).1)
    decreases |a|
  {
    if a == [] {
      assert a + b == b;
      var (sb, xb) := Run(delay, s, b);
      assert [] + xb == xb;
    } else {
      assert (a + b)[0] == a[0] && (a + b)[1..] == a[1..] + b;
      var (s1, first) := Step(delay, s, a[0]);
      RunAppend(delay, s1, a[1..], b);
      var (sa, xa) := Run(delay, s1, a[1..]);
      var (sb, xb) := Run(delay, sa, b);
      assert first + (xa + xb) == (first + xa) + xb;
    }
  }

  /** A single event is one step. */
  lemma RunOne<A>(delay: int, s: State<A>, e: Event<A>)
    ensures Run(delay, s, [e]) == (Step(delay, s, e).0, Step(delay, s, e).1)
  {
    assert [e][0] == e && [e][1..] == [];
    var (s1, first) := Step(delay, s, e);
    assert Run(delay, s1, []) == (s1, []);
    assert first + [] == first;
  }

  /** Event times never go back. */
  predicate Monotone<A>(events: seq<Event<A>>)
  {
    forall i, j :: 0 <= i < j < |events| ==> events[i].time <= events[j].time
  }

  /** No event happens before `t`. */
  predicate NotBefore<A>(t: int, events: seq<Event<A>>)
  {
    forall i :: 0 <= i < |events| ==> t <= events[i].time
  }

  /**
   * With a clock that never goes back, every immediate run happens more than `delay` after the
   * last run before the events, and any two immediate runs are more than `delay` apart: at most
   * one call runs at once in any window of `delay` milliseconds.
   */
  lemma {:induction false} ImmediateRunsSpaced<A>(delay: int, s: State<A>, events: seq<Event<A>>)
    requires Monotone(events) && NotBefore(s.lastExec, events)
    ensures var (r, out) := Run(delay, s, events);
            && s.lastExec <= r.lastExec
            && (forall k :: 0 <= k < |out| && out[k].immediate ==> out[k].time - s.lastExec > delay)
            && (forall i, j :: 0 <= i < j < |out| && out[i].immediate && out[j].immediate ==>
                  out[j].time - out[i].time > delay)
    decreases |events|
  {
    if events != [] {
      var (s1, first) := Step(delay, s, events[0]);
      var rest := events[1..];
      assert Monotone(rest);
      assert NotBefore(s1.lastExec, rest) by {
        forall i | 0 <= i < |rest| ensures s1.lastExec <= rest[i].time {
          assert rest[i] == events[i + 1];
        }
      }
      ImmediateRunsSpaced(delay, s1, rest);
      var (r, later) := Run(delay, s1, rest);
      var out := first + later;
      assert Run(delay, s, events) == (r, out);
      forall i, j | 0 <= i < j < |out| && out[i].immediate && out[j].immediate
        ensures out[j].time - out[i].time > delay
      {
        if i < |first| {
          assert out[i] == first[0] && out[j] == later[j - |first|];
        } else {
          assert out[i] == later[i - |first|] && out[j] == later[j - |first|];
        }
      }
      forall k | 0 <= k < |out| && out[k].immediate ensures out[k].time - s.lastExec > delay {
        if k >= |first| {
          assert out[k] == later[k - |first|];
        }
      }
    }
  }

  /** The calls of a burst, given by their times and arguments. */
  function Calls<A>(burst: seq<(int, A)>): (events: seq<Event<A>>)
    ensures |events| == |burst|
    ensures forall k :: 0 <= k < |burst| ==> events[k] == Call(burst[k].0, burst[k].1)
  {
    seq(|burst|, k requires 0 <= k < |burst| => Call(burst[k].0, burst[k].1))
  }

  /**
   * A burst of calls inside the window runs nothing and leaves exactly one pending call,
   * carrying the arguments of the last call of the burst and due `delay` after the last run.
   */
  lemma {:induction false} BurstKeepsLastCall<A>(delay: int, s: State<A>, burst: seq<(int, A)>)
    requires burst != []
    requires forall k :: 0 <= k < |burst| ==> !RunsNow(delay, s.lastExec, burst[k].0)
    ensures Run(delay, s, Calls(burst)) ==
            (State(s.lastExec, Some(Pending(s.lastExec + delay, burst[|burst| - 1].1))), [])
    decreases |burst|
  {
    var events := Calls(burst);
    var s1 := Step(delay, s, events[0]).0;
    assert Step(delay, s, events[0]).1 == [];
    assert s1 == State(s.lastExec, Some(Pending(s.lastExec + delay, burst[0].1)));
    if |burst| == 1 {
      RunOne(delay, s, events[0]);
      assert events == [events[0]];
    } else {
      BurstKeepsLastCall(delay, s1, burst[1..]);
      assert events[1..] == Calls(burst[1..]);
      assert burst[1..][|burst| - 2] == burst[|burst| - 1];
    }
  }

  /**
   * The trailing guarantee: after a burst of calls inside the window, the timer that comes due
   * runs the wrapped function once, with the arguments of the last call, and records its own time.
   */
  lemma {:induction false} LastCallOfBurstRuns<A>(delay: int, s: State<A>, burst: seq<(int, A)>, t: int)
    requires burst != []
    requires forall k :: 0 <= k < |burst| ==> !RunsNow(delay, s.lastExec, burst[k].0)
    requires s.lastExec + delay <= t
    ensures Run(delay, s, Calls(burst) + [TimerDue(t)]) ==
            (State(t, None), [Exec(t, burst[|burst| - 1].1, false)])
  {
    BurstKeepsLastCall(delay, s, burst);
    RunAppend(delay, s, Calls(burst), [TimerDue(t)]);
    var s1 := Run(delay, s, Calls(burst)).0;
    RunOne(delay, s1, TimerDue(t));
    var last := Run(delay, s1, [TimerDue(t)]).1;
    assert last == [Exec(t, burst[|burst| - 1].1, false)];
    assert [] + last == last;
  }

  /**
   * The throttled wrapper as an object. `history` is the sequence of events so far (a proof
   * device); `runs` are the runs of the wrapped function, in order.
   */
  class Throttled<A> {
    const delay: int
    var lastExecTime: int
    var pending: Option<Pending<A>>
    var runs: seq<Exec<A>>
    ghost var history: seq<Event<A>>

    function Current(): State<A>
      reads this
    {
      State(lastExecTime, pending)
    }

    /** The object is in the state, and has made the runs, that the events so far give from the initial closure. */
    ghost predicate Valid()
      reads this
    {
      Run(delay, Init(), history) == (Current(), runs)
    }

    constructor (delay: int)
      ensures Valid() && this.delay == delay
      ensures Current() == Init() && runs == [] && history == []
    {
      this.delay := delay;
      lastExecTime := 0;
      pending := None;
      runs := [];
      history := [];
    }

    /** The wrapper is called at time `now` with `args`. */
    method Call(now: int, args: A)
      requires Valid()
      modifies this
      ensures Valid() && history == old(history) + [Event.Call(now, args)]
      ensures (Current(), runs) ==
              (Step(delay, old(Current()), Event.Call(now, args)).0,
               old(runs) + Step(delay, old(Current()), Event.Call(now, args)).1)
    {
      RunAppend(delay, Init(), history, [Event.Call(now, args)]);
      RunOne(delay, Current(), Event.Call(now, args));
      ghost var next := Step(delay, Current(), Event.Call(now, args));
      if now - lastExecTime > delay {
        runs := runs + [Exec(now, args, true)];
        lastExecTime := now;
      } else {
        pending := Some(Pending(now + (delay - (now - lastExecTime)), args));
        assert runs + next.1 == runs;
      }
      history := history + [Event.Call(now, args)];
      assert (Current(), runs) == (next.0, old(runs) + next.1);
    }

    /** The host runs the pending timer at time `now`; nothing happens unless a call is pending and due. */
    method TimerDue(now: int)
      requires Valid()
      modifies this
      ensures Valid() && history == old(history) + [Event.TimerDue(now)]
      ensures (Current(), runs) ==
              (Step(delay, old(Current()), Event.TimerDue(now)).0,
               old(runs) + Step(delay, old(Current()), Event.TimerDue(now)).1)
    {
      RunAppend(delay, Init(), history, [Event.TimerDue(now)]);
      RunOne(delay, Current(), Event.TimerDue(now));
      ghost var next := Step(delay, Current(), Event.TimerDue(now));
      if pending.Some? && pending.value.fireAt <= now {
        runs := runs + [Exec(now, pending.value.args, false)];
        lastExecTime := now;
        pending := None;
      } else {
        assert runs + next.1 == runs;
      }
      history := history + [Event.TimerDue(now)];
      assert (Current(), runs) == (next.0, old(runs) + next.1);
    }
  }
}
