/**
 * `Loop` and the operations of its `Timer`s, as a class whose methods update
 * its fields in place. A timer is a handle into the loop's table `timers`;
 * each `Timer` method of the source is a method of the loop taking that
 * handle. Every method is proved to leave the loop in the state the matching
 * `Scheduler` function computes, so the lemmas of `Properties` apply to it.
 */
module EventLoop {
  import opened Timers
  import opened PendingSet
  import Scheduler

  class Loop {
    /** The timers created on this loop, by handle: `_timeout`, `_id` and `_repeat` of each. */
    var timers: seq<Timer>
    /** `_timer_tasks`: the pending timers in `PtrOrd` order. */
    var pending: seq<nat>
    /** `_timer_count`: the source of timer ids. */
    var timerCount: u64
    /** `_timestamp`: the clock sample taken by the last `update_time`. */
    var now: u64
    /** The timers whose `_id` a `start` has assigned; a timer only created has no key yet. */
    var started: set<nat>
    /** The timers whose callbacks `run_timers` has invoked, in order. */
    ghost var fired: seq<nat>

    /** The loop's state as a `Scheduler.State` value. */
    function State(): Scheduler.State
      reads this
    {
      Scheduler.State(timers, pending, timerCount, now, started)
    }

    ghost predicate Valid()
      reads this
    {
      Scheduler.Valid(State())
    }

    constructor ()
      ensures Valid() && State() == Scheduler.Empty() && fired == []
    {
      timers, pending, timerCount, now, started := [], [], 0, 0, {};
      fired := [];
    }

    /** `Timer::expired`: the timer's deadline is strictly before the cached sample. */
    predicate Expired(h: nat)
      requires h < |timers|
      reads this
    {
      Timers.Expired(timers[h], now)
    }

    /** `Timer::stop`: erase the timer's key from the pending set, if it has one. */
    method Stop(h: nat)
      requires Valid() && h < |timers|
      modifies this
      ensures Valid() && State() == Scheduler.Stop(old(State()), h) && fired == old(fired)
    {
      if h in started {
        pending := Erase(pending, timers[h], timers);
      }
    }

    /**
     * `Timer::start`: stop, take `clock + timeout` with the wrap-around
     * check, set the repeat interval, draw the next id and insert.
     */
    method Start(h: nat, timeout: u64, repeat: u64, clock: u64)
      requires Valid() && h < |timers|
      modifies this
      ensures Valid() && State() == Scheduler.Start(old(State()), h, timeout, repeat, clock)
      ensures fired == old(fired)
    {
      Stop(h);
      var deadline := WrappingAdd(clock, timeout);
      if deadline < timeout {
        deadline := MAX;
      }
      assert deadline == Deadline(clock, timeout);
      ghost var stopped := State();
      var t := Timer(deadline, timerCount, repeat);
      SortedAfterUpdate(pending, timers, h, t);
      timers := timers[h := t];
      timerCount := NextCount(timerCount);
      started := started + {h};
      InsertOnlyAdds(pending, h, timers);
      pending := Insert(pending, h, timers);
      assert stopped == Scheduler.Stop(old(State()), h);
      assert forall i :: 0 <= i < |pending| ==> pending[i] in pending;
    }

    /** `Timer::again`: restart with the current repeat interval, unless it is zero. */
    method Again(h: nat, clock: u64)
      requires Valid() && h < |timers|
      modifies this
      ensures Valid() && State() == Scheduler.Again(old(State()), h, clock) && fired == old(fired)
    {
      if timers[h].repeat == 0 {
        return;
      }
      Stop(h);
      Start(h, timers[h].repeat, timers[h].repeat, clock);
    }

    /** `Timer::set_repeat`: overwrite the repeat interval only. */
    method SetRepeat(h: nat, repeat: u64)
      requires Valid() && h < |timers|
      modifies this
      ensures Valid() && State() == Scheduler.SetRepeat(old(State()), h, repeat) && fired == old(fired)
    {
      var t := timers[h].(repeat := repeat);
      SortedAfterUpdate(pending, timers, h, t);
      timers := timers[h := t];
    }

    /** `Loop::update_time`: cache the clock sample. */
    method UpdateTime(clock: u64)
      requires Valid()
      modifies this
      ensures Valid() && State() == Scheduler.UpdateTime(old(State()), clock) && fired == old(fired)
    {
      now := clock;
    }

    /**
     * `Loop::run_timers`: if the first pending timer has expired, stop it,
     * re-arm it (`clock` is what the re-arm reads from the clock) and invoke
     * its callback, recorded in `fired`; report which timer that was.
     */
    method RunTimers(clock: u64) returns (task: Scheduler.Option<nat>)
      requires Valid()
      modifies this
      ensures Valid() && (State(), task) == Scheduler.RunTimers(old(State()), clock)
      ensures fired == old(fired) + if task.Some? then [task.value] else []
    {
      if pending == [] {
        return Scheduler.None;
      }
      var first := pending[0];
      if !Expired(first) {
        return Scheduler.None;
      }
      Stop(first);
      Again(first, clock);
      fired := fired + [first];
      task := Scheduler.Some(first);
    }

    /** `Timer::create` on this loop: a new, not yet started timer; its handle is returned. */
    method Create() returns (h: nat)
      requires Valid()
      modifies this
      ensures Valid() && State() == Scheduler.Create(old(State())) && fired == old(fired)
      ensures h == old(|timers|)
    {
      h := |timers|;
      SortedAfterUpdate(pending, timers + [Timer(0, 0, 0)], h, Timer(0, 0, 0));
      timers := timers + [Timer(0, 0, 0)];
    }

    /** `Loop::set_timeout`: create a timer and start it one-shot. */
    method SetTimeout(timeout: u64, clock: u64) returns (h: nat)
      requires Valid()
      modifies this
      ensures Valid() && State() == Scheduler.SetTimeout(old(State()), timeout, clock) && fired == old(fired)
      ensures h == old(|timers|)
    {
      h := Create();
      Start(h, timeout, 0, clock);
    }

    /** `Loop::set_interval`: create a timer and start it repeating with the same interval. */
    method SetInterval(interval: u64, clock: u64) returns (h: nat)
      requires Valid()
      modifies this
      ensures Valid() && State() == Scheduler.SetInterval(old(State()), interval, clock) && fired == old(fired)
      ensures h == old(|timers|)
    {
      h := Create();
      Start(h, interval, interval, clock);
    }

    /**
     * One iteration of `Loop::run`: `update_time` with the clock reading
     * `sample`, then `run_timers`, whose re-arm reads the clock as `rearm`.
     */
    method Step(sample: u64, rearm: u64) returns (task: Scheduler.Option<nat>)
      requires Valid()
      modifies this
      ensures Valid() && (State(), task) == Scheduler.Step(old(State()), Scheduler.Poll(sample, rearm))
      ensures fired == old(fired) + if task.Some? then [task.value] else []
    {
      UpdateTime(sample);
      task := RunTimers(rearm);
    }
  }
}
