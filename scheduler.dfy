/**
 * The state of one `Loop` as a value, and each of its operations as a
 * function of that value. `EventLoop.Loop` carries out the same operations in
 * place and is proved to agree with these functions; the lemmas here state
 * what the operations promise.
 *
 * Timers live in a table owned by the loop and are named by handles (indices
 * into the table); `pending` is the ordered set of handles, `count` is
 * `_timer_count` and `now` is the cached sample `_timestamp`. `started` holds
 * the handles whose `_id` some `start` has assigned: a timer that was only
 * created has no key yet. The clock is not modelled: each operation that
 * reads it takes the value it reads as `clock`.
 */
module Scheduler {
  import opened Timers
  import opened PendingSet

  datatype Option<T> = None | Some(value: T)

  datatype State = State(timers: seq<Timer>, pending: seq<nat>, count: u64, now: u64, started: set<nat>)

  /**
   * The clock readings of one iteration of `Loop::run`: the sample
   * `update_time` caches, and the reading the re-arm inside `run_timers`
   * takes when it restarts a repeating timer.
   */
  datatype Poll = Poll(sample: u64, rearm: u64)

  /**
   * The `std::set` invariant: the pending handles ascend strictly by
   * `(deadline, id)`; and only a started timer, one with a key, is pending.
   */
  predicate Valid(st: State)
  {
    Sorted(st.pending, st.timers) &&
    forall i :: 0 <= i < |st.pending| ==> st.pending[i] in st.started
  }

  /**
   * Every started timer's id was drawn from the counter before its current
   * value, and no two started timers share an id. This holds until
   * `_timer_count` wraps around.
   */
  predicate FreshIds(st: State)
  {
    (forall g :: g in st.started ==> g < |st.timers|) &&
    (forall g :: g in st.started ==> st.timers[g].id < st.count) &&
    (forall g, h :: g in st.started && h in st.started && g != h ==> st.timers[g].id != st.timers[h].id)
  }

  /** `FreshIds` for every started timer except `x`, whose id is about to be overwritten. */
  predicate FreshIdsExcept(st: State, x: nat)
  {
    (forall g :: g in st.started ==> g < |st.timers|) &&
    (forall g :: g in st.started && g != x ==> st.timers[g].id < st.count) &&
    (forall g, h :: g in st.started && h in st.started && g != x && h != x && g != h ==>
      st.timers[g].id != st.timers[h].id)
  }

  /** A loop as constructed: no timers, nothing pending, counter and sample at zero. */
  function Empty(): (st: State)
    ensures Valid(st) && FreshIds(st) && st.pending == [] && st.timers == [] && st.started == {}
    ensures st.count == 0 && st.now == 0
  {
    State([], [], 0, 0, {})
  }

  /**
   * `Timer::stop`: erase the pending entry whose key equals this timer's key.
   * A timer never started has no key, and nothing is erased.
   */
  function Stop(st: State, h: nat): (r: State)
    requires Valid(st) && h < |st.timers|
    ensures Valid(r) && h !in r.pending
    ensures r.timers == st.timers && r.count == st.count && r.now == st.now && r.started == st.started
    ensures h !in st.started ==> r == st
  {
    if h !in st.started then st
    else st.(pending := Erase(st.pending, st.timers[h], st.timers))
  }

  /**
   * `Timer::start`: stop, compute the saturating deadline from the clock,
   * store the repeat interval, take the next id from the counter and insert.
   */
  function Start(st: State, h: nat, timeout: u64, repeat: u64, clock: u64): (r: State)
    requires Valid(st) && h < |st.timers|
    ensures Valid(r)
    ensures |r.timers| == |st.timers| && r.now == st.now && r.started == st.started + {h}
  {
    var stopped := Stop(st, h);
    var ts := stopped.timers[h := Timer(Deadline(clock, timeout), st.count, repeat)];
    SortedAfterUpdate(stopped.pending, stopped.timers, h, ts[h]);
    var r := State(ts, Insert(stopped.pending, h, ts), NextCount(st.count), st.now, st.started + {h});
    InsertOnlyAdds(stopped.pending, h, ts);
    assert forall i :: 0 <= i < |r.pending| ==> r.pending[i] in r.pending;
    r
  }

  /** `Timer::again`: a no-op for a one-shot timer, else a restart with the current repeat interval. */
  function Again(st: State, h: nat, clock: u64): (r: State)
    requires Valid(st) && h < |st.timers|
    ensures Valid(r)
    ensures |r.timers| == |st.timers| && r.now == st.now && st.started <= r.started <= st.started + {h}
  {
    var repeat := st.timers[h].repeat;
    if repeat == 0 then st else Start(Stop(st, h), h, repeat, repeat, clock)
  }

  /** `Timer::set_repeat`: overwrite the repeat interval and nothing else. */
  function SetRepeat(st: State, h: nat, repeat: u64): (r: State)
    requires Valid(st) && h < |st.timers|
    ensures Valid(r)
    ensures r.pending == st.pending && r.count == st.count && r.now == st.now && r.started == st.started
    ensures r.timers == st.timers[h := Timer(st.timers[h].deadline, st.timers[h].id, repeat)]
  {
    var ts := st.timers[h := st.timers[h].(repeat := repeat)];
    SortedAfterUpdate(st.pending, st.timers, h, ts[h]);
    st.(timers := ts)
  }

  /** `Loop::update_time`: replace the cached sample. */
  function UpdateTime(st: State, clock: u64): (r: State)
    ensures r.timers == st.timers && r.pending == st.pending && r.count == st.count
    ensures r.started == st.started && r.now == clock
  {
    st.(now := clock)
  }

  /**
   * `Timer::create`: a new table entry with deadline and repeat 0, not
   * started. The source leaves its `_id` uninitialised; the entry's id field
   * holds 0 here, and is never read while the timer is not in `started`.
   */
  function Create(st: State): (r: State)
    requires Valid(st)
    ensures Valid(r) && r.timers == st.timers + [Timer(0, 0, 0)]
    ensures r.pending == st.pending && r.count == st.count && r.now == st.now && r.started == st.started
  {
    SortedAfterUpdate(st.pending, st.timers + [Timer(0, 0, 0)], |st.timers|, Timer(0, 0, 0));
    st.(timers := st.timers + [Timer(0, 0, 0)])
  }

  /** `Loop::set_timeout`: a new one-shot timer; its handle is the old table size. */
  function SetTimeout(st: State, timeout: u64, clock: u64): (r: State)
    requires Valid(st)
    ensures Valid(r) && |r.timers| == |st.timers| + 1
  {
    Start(Create(st), |st.timers|, timeout, 0, clock)
  }

  /** `Loop::set_interval`: a new repeating timer whose first delay is its interval. */
  function SetInterval(st: State, interval: u64, clock: u64): (r: State)
    requires Valid(st)
    ensures Valid(r) && |r.timers| == |st.timers| + 1
  {
    Start(Create(st), |st.timers|, interval, interval, clock)
  }

  /**
   * `Loop::run_timers`: when the first pending timer has expired against the
   * cached sample, stop it, re-arm it (which reads the clock) and report it as
   * the timer whose callback runs; otherwise change nothing.
   */
  function RunTimers(st: State, clock: u64): (res: (State, Option<nat>))
    requires Valid(st)
    ensures Valid(res.0)
    ensures |res.0.timers| == |st.timers| && res.0.now == st.now && res.0.started == st.started
  {
    if st.pending == [] then (st, None)
    else
      var task := st.pending[0];
      if !Expired(st.timers[task], st.now) then (st, None)
      else (Again(Stop(st, task), task, clock), Some(task))
  }

  /** One iteration of `Loop::run`: `update_time` with the poll's sample, then `run_timers`. */
  function Step(st: State, poll: Poll): (res: (State, Option<nat>))
    requires Valid(st)
    ensures Valid(res.0) && res.0.now == poll.sample
  {
    RunTimers(UpdateTime(st, poll.sample), poll.rearm)
  }

  /**
   * A finite prefix of `Loop::run`, one iteration per poll, with the handles
   * whose callbacks were invoked in the order they were invoked.
   */
  function Run(st: State, polls: seq<Poll>): (res: (State, seq<nat>))
    requires Valid(st)
    ensures Valid(res.0) && |res.1| <= |polls|
    decreases |polls|
  {
    if polls == [] then (st, [])
    else
      var (next, fired) := Step(st, polls[0]);
      var (last, trace) := Run(next, polls[1..]);
      (last, (if fired.Some? then [fired.value] else []) + trace)
  }
}
