/**
 * The countdown timer (CountdownTimer.h / CountdownTimer.cpp) as a
 * sequential transition system.
 *
 * The background thread is replaced by the step `Tick`, one pass of its loop
 * in which at least a second has elapsed, and by `LoopExit`, the thread
 * leaving its loop without ticking. `Stop` joins the thread, so it takes
 * effect between two ticks. The observer calls are recorded in `events`; a
 * call is made only while an observer is registered.
 */
module Timer {
  import opened Wrappers
  import opened TimeFormat
  import opened TimerTrace

  const DefaultDurationMinutes := 5

  predicate IsInt32(x: int) {
    -0x8000_0000 <= x < 0x8000_0000
  }

  /** Remaining time lies in [0, total]; a non-positive total can never be counted from. */
  predicate RemainingInRange(total: int, remaining: int) {
    if total >= 0 then 0 <= remaining <= total else remaining == total
  }

  class CountdownTimer {
    /** Total duration in seconds, fixed at construction. */
    const totalDuration: int
    var remaining: int
    var running: bool
    var shouldStop: bool
    /** The thread handle holds a thread that has not been joined. */
    var threadLive: bool
    /** An observer is registered. */
    var hasCallback: bool
    /** The observer calls made so far. */
    var events: seq<Event>
    /** No notification has been raised while no observer was registered. */
    ghost var logComplete: bool

    /**
     * Valid also records that a positive duration reaches zero only by
     * completing, which leaves the finished thread unjoined.
     *
     * What the log tells an observer agrees with the timer: the observer sees
     * a running timer while it runs, the last update it saw is the current
     * remaining time, and it is left believing the timer runs only if the
     * thread left its loop on a non-positive duration without saying so.
     */
    ghost predicate TraceAgrees()
      reads this
    {
      var o := Replay(totalDuration, events);
      && o.Some?
      && (running ==> o.value.Running?)
      && (o.value.Running? && o.value.last.Some? ==> o.value.last.value == remaining > 0)
      && (o.value.Running? && !running ==> threadLive && totalDuration <= 0 && o.value.last == None)
    }

    ghost predicate Valid()
      reads this
    {
      && RemainingInRange(totalDuration, remaining)
      && (running ==> !shouldStop && threadLive)
      && (remaining == 0 < totalDuration ==> !running && threadLive)
      && (logComplete ==> TraceAgrees())
    }

    /** What a notification appends to the log. */
    function Delivered(e: Event): seq<Event>
      reads this
    {
      if hasCallback then [e] else []
    }

    constructor (durationMinutes: int := DefaultDurationMinutes)
      requires IsInt32(durationMinutes * 60)
      ensures Valid() && logComplete
      ensures totalDuration == durationMinutes * 60 && remaining == totalDuration
      ensures durationMinutes == DefaultDurationMinutes ==> totalDuration == 300
      ensures !running && !shouldStop && !threadLive && !hasCallback && events == []
    {
      totalDuration := durationMinutes * 60;
      remaining := durationMinutes * 60;
      running := false;
      shouldStop := false;
      threadLive := false;
      hasCallback := false;
      events := [];
      logComplete := true;
    }

    method SetCallback(present: bool)
      requires Valid()
      modifies this`hasCallback
      ensures Valid() && hasCallback == present
    {
      hasCallback := present;
    }

    method Notify(e: Event)
      modifies this`events, this`logComplete
      ensures events == old(events) + Delivered(e)
      ensures logComplete == (old(logComplete) && hasCallback)
    {
      if hasCallback {
        events := events + [e];
      } else {
        logComplete := false;
      }
    }

    /**
     * Idempotent while running. From idle: clears the stop request, runs,
     * launches the thread and notifies `Started` once; the remaining time is
     * kept, so a stopped timer resumes. Launching over a handle that still
     * holds an unjoined thread would end the process, so the caller must not.
     */
    method Start()
      requires Valid()
      requires running || !threadLive
      modifies this
      ensures Valid()
      ensures old(running) ==> unchanged(this)
      ensures !old(running) ==>
        && running && !shouldStop && threadLive
        && remaining == old(remaining) && hasCallback == old(hasCallback)
        && events == old(events) + Delivered(Started)
      ensures logComplete == (old(logComplete) && (old(running) || hasCallback))
    {
      if running {
        return;
      }
      shouldStop := false;
      running := true;
      threadLive := true;
      ReplayAppend(totalDuration, events, Started);
      Notify(Started);
    }

    /**
     * Idempotent while idle. From running: requests the stop, goes idle, joins
     * the thread and notifies `Stopped` once; the remaining time is kept.
     */
    method Stop()
      requires Valid()
      modifies this
      ensures Valid()
      ensures !old(running) ==> unchanged(this)
      ensures old(running) ==>
        && !running && shouldStop && !threadLive
        && remaining == old(remaining) && hasCallback == old(hasCallback)
        && events == old(events) + Delivered(Stopped)
      ensures logComplete == (old(logComplete) && (!old(running) || hasCallback))
    {
      if !running {
        return;
      }
      shouldStop := true;
      running := false;
      if threadLive {
        threadLive := false;
      }
      ReplayAppend(totalDuration, events, Stopped);
      Notify(Stopped);
    }

    /**
     * Back to the full duration, running afterwards exactly when running
     * before; a running timer is stopped and started again around it.
     */
    method Reset()
      requires Valid()
      modifies this
      ensures Valid()
      ensures remaining == totalDuration && running == old(running)
      ensures hasCallback == old(hasCallback)
      ensures old(running) ==> !shouldStop && threadLive
      ensures !old(running) ==> shouldStop == old(shouldStop) && threadLive == old(threadLive)
      ensures events == old(events) + (if old(running) then Delivered(Stopped) + Delivered(Started) else [])
      ensures logComplete == (old(logComplete) && (!old(running) || hasCallback))
    {
      var wasRunning := running;
      if wasRunning {
        Stop();
      }
      remaining := totalDuration;
      if wasRunning {
        Start();
      }
    }

    /**
     * One pass of the thread's loop after at least a second: the remaining
     * time drops by one and is reported; on reaching zero the timer goes idle
     * and reports completion (and no `Stopped`).
     */
    method Tick()
      requires Valid()
      requires running && !shouldStop && remaining > 0
      modifies this
      ensures Valid()
      ensures remaining == old(remaining) - 1
      ensures running == (remaining > 0)
      ensures shouldStop == old(shouldStop) && threadLive == old(threadLive) && hasCallback == old(hasCallback)
      ensures events == old(events) + Delivered(Update(remaining)) + (if remaining == 0 then Delivered(Completed) else [])
      ensures logComplete == (old(logComplete) && hasCallback)
    {
      var r := remaining - 1;
      if logComplete && hasCallback {
        TickAccepted(totalDuration, events, r);
      }
      remaining := r;
      Notify(Update(r));
      if r <= 0 {
        running := false;
        Notify(Completed);
      }
    }

    /**
     * The thread finds nothing to count down (a non-positive duration) and
     * leaves its loop: the timer goes idle without any notification.
     */
    method LoopExit()
      requires Valid()
      requires running && !shouldStop && remaining <= 0
      modifies this`running
      ensures Valid() && !running
    {
      running := false;
    }

    /**
     * The thread's loop run to its end with no stop request arriving: one
     * tick per second until nothing remains, then idle. The observer hears
     * every second counted down and one `Completed`, or nothing at all when
     * there was nothing to count.
     */
    method RunUndisturbed()
      requires Valid()
      requires running && !shouldStop
      modifies this
      ensures Valid() && !running && !shouldStop
      ensures remaining == if old(remaining) > 0 then 0 else old(remaining)
      ensures threadLive == old(threadLive) && hasCallback == old(hasCallback)
      ensures events == old(events) +
        if hasCallback && old(remaining) > 0 then Countdown(old(remaining), 0) + [Completed] else []
      ensures logComplete == (old(logComplete) && (hasCallback || old(remaining) <= 0))
    {
      while !shouldStop && remaining > 0
        invariant Valid() && running && !shouldStop
        invariant threadLive == old(threadLive) && hasCallback == old(hasCallback)
        invariant remaining == old(remaining) || 0 < remaining < old(remaining)
        invariant events == old(events) + if hasCallback then Countdown(old(remaining), remaining) else []
        invariant logComplete == (old(logComplete) && (hasCallback || remaining == old(remaining)))
        decreases remaining
      {
        Tick();
        if remaining <= 0 {
          assert Countdown(old(remaining), 0) == Countdown(old(remaining), 1) + [Update(0)];
          break;
        }
      }
      if running {
        LoopExit();
      }
    }

    function RemainingSeconds(): (r: int)
      reads this
      requires Valid()
      ensures totalDuration >= 0 ==> 0 <= r <= totalDuration
    {
      remaining
    }

    function IsRunning(): (r: bool)
      reads this
      requires Valid()
      ensures r ==> !shouldStop && threadLive
    {
      running
    }

    /** The MM:SS rendering of the remaining time, which reads back as that time. */
    function FormattedTime(): (t: string)
      reads this
      requires Valid()
      ensures totalDuration >= 0 ==> DecodeTime(t) == Some(remaining)
    {
      var t := FormatTime(remaining);
      assert remaining >= 0 ==> DecodeTime(t) == Some(remaining) by {
        if remaining >= 0 {
          FormatTimeRoundTrip(remaining);
        }
      }
      t
    }
  }

  /**
   * A timer given an observer, started and left to run out: the observer
   * hears exactly one whole cycle, and the log obeys the observer contract.
   */
  method ObservedCycle(durationMinutes: int) returns (t: CountdownTimer)
    requires IsInt32(durationMinutes * 60)
    ensures t.Valid() && t.logComplete && !t.running
    ensures t.events ==
      if t.totalDuration > 0 then [Started] + Countdown(t.totalDuration, 0) + [Completed] else [Started]
  {
    t := new CountdownTimer(durationMinutes);
    t.SetCallback(true);
    t.Start();
    t.RunUndisturbed();
  }

  /** With a complete log, the observer calls obey the observer contract. */
  lemma LogObeysContract(t: CountdownTimer, i: nat)
    requires t.Valid() && t.logComplete && i < |t.events|
    ensures t.events[i].Update? ==> 0 <= t.events[i].remaining < t.totalDuration
    ensures t.events[i] == Completed ==> i > 0 && t.events[i - 1] == Update(0)
    ensures t.events[i] == Update(0) && i + 1 < |t.events| ==> t.events[i + 1] == Completed
    ensures i + 1 < |t.events| && t.events[i].Update? && t.events[i + 1].Update? ==>
      t.events[i + 1].remaining == t.events[i].remaining - 1
    ensures t.events[i].Update? ==> LastBoundary(t.events[..i]) == Some(Started)
    ensures t.events[i] == Started ==> LastBoundary(t.events[..i]) != Some(Started)
    ensures t.events[i] == Stopped || t.events[i] == Completed ==> LastBoundary(t.events[..i]) == Some(Started)
    ensures t.totalDuration > 0 ==>
      Count(t.events, Started) == Count(t.events, Stopped) + Count(t.events, Completed) + (if t.running then 1 else 0)
  {
    var total, log := t.totalDuration, t.events;
    if log[i].Update? {
      UpdateInRange(total, log, i);
      UpdateInsideCycle(total, log, i);
    }
    if log[i] == Completed {
      CompletedOnlyAfterZero(total, log, i);
    }
    if log[i] == Update(0) && i + 1 < |log| {
      CompletedFollowsZero(total, log, i + 1);
    }
    if i + 1 < |log| && log[i].Update? && log[i + 1].Update? {
      UpdatesCountDown(total, log, i);
    }
    LifecycleAlternates(total, log, i);
    StartedBalance(total, log);
  }
}
