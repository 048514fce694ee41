/**
 * The observer calls of a countdown timer (ITimerCallback) and the order in
 * which a timer may make them.
 *
 * An observer that records every call can follow the timer's lifecycle with
 * the automaton below; `Replay` runs it over a recorded log and is None as
 * soon as the log breaks the contract:
 *  - `Started` only while idle, `Stopped` only while running;
 *  - `Update(n)` only while running, with `0 <= n < total`, and each update
 *    of a cycle exactly one below the previous one;
 *  - after `Update(0)` the only possible call is `Completed`, which ends the cycle.
 */
module TimerTrace {
  import opened Wrappers

  datatype Event = Started | Update(remaining: int) | Completed | Stopped

  /** What an observer knows: idle, or running with the last update of the current cycle. */
  datatype ObserverState = Idle | Running(last: Option<int>)

  function Step(total: int, o: ObserverState, e: Event): Option<ObserverState>
  {
    match (o, e)
    case (Idle, Started) => Some(Running(None))
    case (Running(Some(0)), Completed) => Some(Idle)
    case (Running(last), Update(n)) =>
      if 0 <= n < total && last != Some(0) && (last.Some? ==> n == last.value - 1)
      then Some(Running(Some(n))) else None
    case (Running(last), Stopped) => if last != Some(0) then Some(Idle) else None
    case _ => None
  }

  function Replay(total: int, log: seq<Event>): Option<ObserverState>
    decreases |log|
  {
    if log == [] then Some(Idle)
    else
      match Replay(total, log[..|log| - 1])
      case None => None
      case Some(o) => Step(total, o, log[|log| - 1])
  }

  predicate IsBoundary(e: Event) {
    !e.Update?
  }

  /** The last lifecycle call (anything but an update) in the log. */
  function LastBoundary(log: seq<Event>): Option<Event>
    decreases |log|
  {
    if log == [] then None
    else if IsBoundary(log[|log| - 1]) then Some(log[|log| - 1])
    else LastBoundary(log[..|log| - 1])
  }

  function Count(log: seq<Event>, e: Event): nat
    decreases |log|
  {
    if log == [] then 0
    else Count(log[..|log| - 1], e) + (if log[|log| - 1] == e then 1 else 0)
  }

  lemma ReplayAppend(total: int, log: seq<Event>, e: Event)
    ensures Replay(total, log + [e]) ==
      if Replay(total, log).Some? then Step(total, Replay(total, log).value, e) else None
  {
    assert (log + [e])[..|log|] == log;
  }

  lemma CountAppend(log: seq<Event>, e: Event, x: Event)
    ensures Count(log + [e], x) == Count(log, x) + (if e == x then 1 else 0)
  {
    assert (log + [e])[..|log|] == log;
  }

  lemma LastBoundaryAppend(log: seq<Event>, e: Event)
    ensures LastBoundary(log + [e]) == if IsBoundary(e) then Some(e) else LastBoundary(log)
  {
    assert (log + [e])[..|log|] == log;
  }

  /** Every prefix of an accepted log is accepted. */
  lemma {:induction false} ReplayPrefix(total: int, log: seq<Event>, k: nat)
    requires Replay(total, log).Some? && k <= |log|
    ensures Replay(total, log[..k]).Some?
    decreases |log|
  {
    if k < |log| {
      assert log[..|log| - 1][..k] == log[..k];
      ReplayPrefix(total, log[..|log| - 1], k);
    } else {
      assert log[..k] == log;
    }
  }

  /** The observer state after the first i + 1 calls, when call i is an update. */
  lemma AfterUpdate(total: int, log: seq<Event>, i: nat)
    requires Replay(total, log).Some? && i < |log| && log[i].Update?
    ensures Replay(total, log[..i + 1]) == Some(Running(Some(log[i].remaining)))
  {
    ReplayPrefix(total, log, i + 1);
    assert log[..i + 1][..i] == log[..i];
  }

  /** Consecutive updates count down by exactly one. */
  lemma UpdatesCountDown(total: int, log: seq<Event>, i: nat)
    requires Replay(total, log).Some?
    requires i + 1 < |log| && log[i].Update? && log[i + 1].Update?
    ensures log[i + 1].remaining == log[i].remaining - 1
  {
    AfterUpdate(total, log, i);
    AfterUpdate(total, log, i + 1);
    assert log[..i + 2][..i + 1] == log[..i + 1];
  }

  /** Every update reports a value in [0, total). */
  lemma UpdateInRange(total: int, log: seq<Event>, i: nat)
    requires Replay(total, log).Some? && i < |log| && log[i].Update?
    ensures 0 <= log[i].remaining < total
  {
    AfterUpdate(total, log, i);
    assert log[..i + 1][..i] == log[..i];
  }

  /** `Completed` comes straight after `Update(0)`, and `Update(0)` is followed by nothing else. */
  lemma CompletedFollowsZero(total: int, log: seq<Event>, i: nat)
    requires Replay(total, log).Some? && 0 < i < |log| && log[i - 1] == Update(0)
    ensures log[i] == Completed
  {
    AfterUpdate(total, log, i - 1);
    ReplayPrefix(total, log, i + 1);
    assert log[..i + 1][..i] == log[..i];
  }

  lemma CompletedOnlyAfterZero(total: int, log: seq<Event>, i: nat)
    requires Replay(total, log).Some? && i < |log| && log[i] == Completed
    ensures i > 0 && log[i - 1] == Update(0)
  {
    ReplayPrefix(total, log, i + 1);
    assert log[..i + 1][..i] == log[..i];
    if i > 0 {
      ReplayPrefix(total, log, i);
      assert log[..i][..i - 1] == log[..i - 1];
      var o := Replay(total, log[..i - 1]).value;
      assert Replay(total, log[..i]) == Step(total, o, log[i - 1]);
    }
  }

  /**
   * The observer is running exactly when the last lifecycle call was
   * `Started`: every update belongs to a cycle that a `Started` opened and
   * no `Stopped` or `Completed` has closed.
   */
  lemma {:induction false} RunningIffLastStarted(total: int, log: seq<Event>)
    requires Replay(total, log).Some?
    ensures Replay(total, log).value.Running? <==> LastBoundary(log) == Some(Started)
    decreases |log|
  {
    if log != [] {
      var init := log[..|log| - 1];
      assert log == init + [log[|log| - 1]];
      RunningIffLastStarted(total, init);
      LastBoundaryAppend(init, log[|log| - 1]);
    }
  }

  lemma UpdateInsideCycle(total: int, log: seq<Event>, i: nat)
    requires Replay(total, log).Some? && i < |log| && log[i].Update?
    ensures LastBoundary(log[..i]) == Some(Started)
  {
    ReplayPrefix(total, log, i + 1);
    assert log[..i + 1][..i] == log[..i];
    RunningIffLastStarted(total, log[..i]);
  }

  /**
   * Lifecycle calls alternate: `Started` only outside an open cycle,
   * `Stopped` and `Completed` only inside one.
   */
  lemma LifecycleAlternates(total: int, log: seq<Event>, i: nat)
    requires Replay(total, log).Some? && i < |log|
    ensures log[i] == Started ==> LastBoundary(log[..i]) != Some(Started)
    ensures log[i] == Stopped || log[i] == Completed ==> LastBoundary(log[..i]) == Some(Started)
  {
    ReplayPrefix(total, log, i + 1);
    assert log[..i + 1][..i] == log[..i];
    assert log[..i + 1] == log[..i] + [log[i]];
    ReplayAppend(total, log[..i], log[i]);
    ReplayPrefix(total, log, i);
    RunningIffLastStarted(total, log[..i]);
  }

  /**
   * Exactly-once accounting: every `Started` is matched by one `Stopped` or
   * one `Completed`, except the `Started` of a cycle still open.
   */
  lemma {:induction false} StartedBalance(total: int, log: seq<Event>)
    requires Replay(total, log).Some?
    ensures Count(log, Started) ==
      Count(log, Stopped) + Count(log, Completed) + (if Replay(total, log).value.Running? then 1 else 0)
    decreases |log|
  {
    if log != [] {
      var init := log[..|log| - 1];
      var e := log[|log| - 1];
      assert log == init + [e];
      StartedBalance(total, init);
      CountAppend(init, e, Started);
      CountAppend(init, e, Stopped);
      CountAppend(init, e, Completed);
    }
  }

  /** The updates of one uninterrupted countdown from `from`: Update(from - 1), ..., Update(to). */
  function Countdown(from: int, to: int): seq<Event>
    decreases from - to
  {
    if from <= to then [] else Countdown(from, to + 1) + [Update(to)]
  }

  lemma {:induction false} CountdownEntries(from: int, to: int)
    requires to <= from
    ensures |Countdown(from, to)| == from - to
    ensures forall k :: 0 <= k < from - to ==> Countdown(from, to)[k] == Update(from - 1 - k)
    decreases from - to
  {
    if to < from {
      CountdownEntries(from, to + 1);
    }
  }

  /** Starting and then counting down from `total` to `to` is a log the observer accepts. */
  lemma {:induction false} CountdownAccepted(total: int, to: int)
    requires 0 <= to <= total
    ensures Replay(total, [Started] + Countdown(total, to)) ==
      Some(Running(if to == total then None else Some(to)))
    decreases total - to
  {
    if to == total {
      assert [Started] + Countdown(total, to) == [] + [Started];
      ReplayAppend(total, [], Started);
    } else {
      CountdownAccepted(total, to + 1);
      assert [Started] + Countdown(total, to) == ([Started] + Countdown(total, to + 1)) + [Update(to)];
      ReplayAppend(total, [Started] + Countdown(total, to + 1), Update(to));
    }
  }

  /** A whole undisturbed cycle, from `Started` through every update to `Completed`, is accepted. */
  lemma FullCycleAccepted(total: int)
    requires total > 0
    ensures Replay(total, [Started] + Countdown(total, 0) + [Completed]) == Some(Idle)
  {
    CountdownAccepted(total, 0);
    ReplayAppend(total, [Started] + Countdown(total, 0), Completed);
  }

  /** One second counted down by a running timer whose last update was one above. */
  lemma TickAccepted(total: int, log: seq<Event>, r: int)
    requires Replay(total, log).Some? && Replay(total, log).value.Running?
    requires Replay(total, log).value.last.Some? ==> Replay(total, log).value.last.value == r + 1
    requires 0 <= r < total
    ensures Replay(total, log + [Update(r)]) == Some(Running(Some(r)))
    ensures r == 0 ==> Replay(total, log + [Update(r)] + [Completed]) == Some(Idle)
  {
    ReplayAppend(total, log, Update(r));
    ReplayAppend(total, log + [Update(r)], Completed);
  }
}
