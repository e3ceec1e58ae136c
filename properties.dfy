/**
 * What the Loop's operations promise, stated over `Scheduler`'s functions:
 * where a started timer lands, what a stop removes, how `again` and
 * `set_repeat` combine, which timer `run_timers` fires and what it leaves.
 */
module Properties {
  import opened Timers
  import opened PendingSet
  import opened Scheduler

  /** With distinct ids, two started timers with the same key are the same timer. */
  lemma KeyIdentifiesTimer(st: State, x: nat, h: nat)
    requires FreshIds(st) && x in st.started && h in st.started
    ensures SameKey(st.timers[x], st.timers[h]) <==> x == h
  {
    if x != h {
      assert st.timers[x].id != st.timers[h].id;
    }
  }

  /**
   * `stop` removes the timer when it is pending, does nothing otherwise, and
   * leaves every other pending timer in place.
   */
  lemma StopRemovesOnlyItself(st: State, h: nat)
    requires Valid(st) && FreshIds(st) && h < |st.timers|
    ensures forall x :: x in Stop(st, h).pending <==> x in st.pending && x != h
    ensures h !in st.pending ==> Stop(st, h) == st
    ensures h in st.pending ==> |Stop(st, h).pending| == |st.pending| - 1
    ensures FreshIds(Stop(st, h))
  {
    if h in st.started {
      forall i | 0 <= i < |st.pending| && st.pending[i] != h
        ensures st.timers[st.pending[i]].id != st.timers[h].id
      {
        KeyIdentifiesTimer(st, st.pending[i], h);
      }
      EraseUniqueId(st.pending, st.timers, h);
    } else {
      assert h !in st.pending;
    }
  }

  /** Calling `stop` twice is the same as calling it once. */
  lemma StopIdempotent(st: State, h: nat)
    requires Valid(st) && h < |st.timers|
    ensures Stop(Stop(st, h), h) == Stop(st, h)
  {
    if h in st.started {
      EraseIdempotent(st.pending, st.timers[h], st.timers);
    }
  }

  /**
   * A created timer is not started and has no key: stopping it changes
   * nothing, and creating it keeps the ids fresh.
   */
  lemma CreateLeavesUnstarted(st: State)
    requires Valid(st) && FreshIds(st)
    ensures |st.timers| !in Create(st).started
    ensures Stop(Create(st), |st.timers|) == Create(st)
    ensures FreshIds(Create(st))
  {
  }

  /** The pending entries `stop` leaves: all but `h`, whether `h` was started or not. */
  lemma StopMembers(st: State, h: nat)
    requires Valid(st) && h < |st.timers| && FreshIdsExcept(st, h)
    requires h in st.started ==> forall g :: g in st.started && g != h ==> st.timers[g].id != st.timers[h].id
    ensures forall x :: x in Stop(st, h).pending <==> x in st.pending && x != h
  {
    if h in st.started {
      forall i | 0 <= i < |st.pending| && st.pending[i] != h
        ensures st.timers[st.pending[i]].id != st.timers[h].id
      {
        assert st.pending[i] in st.started;
      }
      EraseUniqueId(st.pending, st.timers, h);
    } else {
      assert h !in st.pending;
    }
  }

  /**
   * The heart of `start`: given that no other started timer has the id it is
   * about to take or the id it currently has, the timer ends up pending
   * exactly once with the saturating deadline, the given repeat and the old
   * counter as id; the counter advances, and no other timer or pending entry
   * changes.
   */
  lemma StartFromUniqueKey(st: State, h: nat, timeout: u64, repeat: u64, clock: u64)
    requires Valid(st) && h < |st.timers| && FreshIdsExcept(st, h)
    requires h in st.started ==> forall g :: g in st.started && g != h ==> st.timers[g].id != st.timers[h].id
    ensures Start(st, h, timeout, repeat, clock).timers ==
      st.timers[h := Timer(Deadline(clock, timeout), st.count, repeat)]
    ensures Start(st, h, timeout, repeat, clock).count == NextCount(st.count)
    ensures forall x :: x in Start(st, h, timeout, repeat, clock).pending <==> x in st.pending || x == h
    ensures multiset(Start(st, h, timeout, repeat, clock).pending)[h] == 1
    ensures st.count < MAX ==> FreshIds(Start(st, h, timeout, repeat, clock))
  {
    var stopped := Stop(st, h);
    StopMembers(st, h);
    var t := Timer(Deadline(clock, timeout), st.count, repeat);
    var ts := stopped.timers[h := t];
    SortedAfterUpdate(stopped.pending, stopped.timers, h, t);
    assert Start(st, h, timeout, repeat, clock).pending == Insert(stopped.pending, h, ts);
    forall i | 0 <= i < |stopped.pending| ensures ts[stopped.pending[i]].id != ts[h].id {
      assert stopped.pending[i] in stopped.pending && stopped.pending[i] in st.started;
    }
    InsertUniqueId(stopped.pending, ts, h);
    if st.count < MAX {
      StartKeepsFreshIds(st, h, timeout, repeat, clock);
    }
  }

  /**
   * The new id of a started timer is the old counter, which every other
   * started timer's id is below; so ids stay fresh while the counter is below MAX.
   */
  lemma StartKeepsFreshIds(st: State, h: nat, timeout: u64, repeat: u64, clock: u64)
    requires Valid(st) && h < |st.timers| && FreshIdsExcept(st, h) && st.count < MAX
    ensures Start(st, h, timeout, repeat, clock).timers[h].id == st.count
    ensures forall g :: g in st.started && g != h ==> Start(st, h, timeout, repeat, clock).timers[g].id < st.count
    ensures FreshIds(Start(st, h, timeout, repeat, clock))
  {
    var r := Start(st, h, timeout, repeat, clock);
    assert r.timers == st.timers[h := Timer(Deadline(clock, timeout), st.count, repeat)];
    assert r.count == st.count + 1 && r.started == st.started + {h};
  }

  /**
   * `start` on a timer of a loop with fresh ids: pending exactly once, with
   * deadline `Deadline(clock, timeout)`, the given repeat and the old counter
   * as id; every other timer and pending entry as before.
   */
  lemma StartSchedules(st: State, h: nat, timeout: u64, repeat: u64, clock: u64)
    requires Valid(st) && FreshIds(st) && h < |st.timers|
    ensures Start(st, h, timeout, repeat, clock).timers ==
      st.timers[h := Timer(Deadline(clock, timeout), st.count, repeat)]
    ensures Start(st, h, timeout, repeat, clock).count == NextCount(st.count)
    ensures forall x :: x in Start(st, h, timeout, repeat, clock).pending <==> x in st.pending || x == h
    ensures multiset(Start(st, h, timeout, repeat, clock).pending)[h] == 1
    ensures st.count < MAX ==> FreshIds(Start(st, h, timeout, repeat, clock))
  {
    StartFromUniqueKey(st, h, timeout, repeat, clock);
  }

  /**
   * `set_timeout` and `set_interval`: the new timer takes the next handle, is
   * pending exactly once with id the old counter, and nothing else changes.
   */
  lemma CreateAndStartSchedules(st: State, timeout: u64, repeat: u64, clock: u64)
    requires Valid(st) && FreshIds(st)
    ensures Start(Create(st), |st.timers|, timeout, repeat, clock).timers ==
      st.timers + [Timer(Deadline(clock, timeout), st.count, repeat)]
    ensures forall x :: x in Start(Create(st), |st.timers|, timeout, repeat, clock).pending <==>
      x in st.pending || x == |st.timers|
    ensures multiset(Start(Create(st), |st.timers|, timeout, repeat, clock).pending)[|st.timers|] == 1
    ensures Start(Create(st), |st.timers|, timeout, repeat, clock).count == NextCount(st.count)
    ensures st.count < MAX ==> FreshIds(Start(Create(st), |st.timers|, timeout, repeat, clock))
  {
    var c := Create(st);
    var n := |st.timers|;
    CreateLeavesUnstarted(st);
    StartSchedules(c, n, timeout, repeat, clock);
    assert c.timers[n := Timer(Deadline(clock, timeout), st.count, repeat)] ==
      st.timers + [Timer(Deadline(clock, timeout), st.count, repeat)];
  }

  /** `set_timeout`: a one-shot timer at the next handle, pending exactly once; the counter advances. */
  lemma SetTimeoutSchedules(st: State, timeout: u64, clock: u64)
    requires Valid(st) && FreshIds(st)
    ensures SetTimeout(st, timeout, clock).timers == st.timers + [Timer(Deadline(clock, timeout), st.count, 0)]
    ensures forall x :: x in SetTimeout(st, timeout, clock).pending <==> x in st.pending || x == |st.timers|
    ensures multiset(SetTimeout(st, timeout, clock).pending)[|st.timers|] == 1
    ensures SetTimeout(st, timeout, clock).count == NextCount(st.count)
    ensures st.count < MAX ==> FreshIds(SetTimeout(st, timeout, clock))
  {
    CreateAndStartSchedules(st, timeout, 0, clock);
  }

  /**
   * `set_interval`: a timer at the next handle repeating with its first
   * delay, pending exactly once; the counter advances.
   */
  lemma SetIntervalSchedules(st: State, interval: u64, clock: u64)
    requires Valid(st) && FreshIds(st)
    ensures SetInterval(st, interval, clock).timers ==
      st.timers + [Timer(Deadline(clock, interval), st.count, interval)]
    ensures forall x :: x in SetInterval(st, interval, clock).pending <==> x in st.pending || x == |st.timers|
    ensures multiset(SetInterval(st, interval, clock).pending)[|st.timers|] == 1
    ensures SetInterval(st, interval, clock).count == NextCount(st.count)
    ensures st.count < MAX ==> FreshIds(SetInterval(st, interval, clock))
  {
    CreateAndStartSchedules(st, interval, interval, clock);
  }

  /**
   * `again`: nothing for a one-shot timer; otherwise the timer is pending
   * exactly once with deadline `Deadline(clock, repeat)`, the same repeat and
   * a fresh id larger than its previous one, and the counter advances.
   */
  lemma AgainRearms(st: State, h: nat, clock: u64)
    requires Valid(st) && FreshIds(st) && h < |st.timers|
    ensures st.timers[h].repeat == 0 ==> Again(st, h, clock) == st
    ensures st.timers[h].repeat != 0 ==>
      Again(st, h, clock).timers ==
        st.timers[h := Timer(Deadline(clock, st.timers[h].repeat), st.count, st.timers[h].repeat)] &&
      Again(st, h, clock).count == NextCount(st.count) &&
      (h in st.started ==> st.timers[h].id < Again(st, h, clock).timers[h].id) &&
      (forall x :: x in Again(st, h, clock).pending <==> x in st.pending || x == h) &&
      multiset(Again(st, h, clock).pending)[h] == 1
    ensures st.count < MAX ==> FreshIds(Again(st, h, clock))
  {
    var repeat := st.timers[h].repeat;
    if repeat != 0 {
      StopRemovesOnlyItself(st, h);
      StartSchedules(Stop(st, h), h, repeat, repeat, clock);
    }
  }

  /**
   * `set_repeat(r)` touches neither the pending set nor the key, and a
   * following `again` re-arms with `r`, not with the previous interval.
   */
  lemma SetRepeatThenAgain(st: State, h: nat, repeat: u64, clock: u64)
    requires Valid(st) && FreshIds(st) && h < |st.timers|
    ensures FreshIds(SetRepeat(st, h, repeat))
    ensures repeat != 0 ==>
      Again(SetRepeat(st, h, repeat), h, clock).timers[h] == Timer(Deadline(clock, repeat), st.count, repeat)
    ensures repeat == 0 ==> Again(SetRepeat(st, h, repeat), h, clock) == SetRepeat(st, h, repeat)
  {
    AgainRearms(SetRepeat(st, h, repeat), h, clock);
  }

  /**
   * `run_timers` fires something exactly when some pending timer has expired;
   * the first pending timer decides it, so the rest need not be inspected.
   */
  lemma RunTimersFiresIffSomeExpired(st: State, clock: u64)
    requires Valid(st)
    ensures RunTimers(st, clock).1.Some? <==>
      exists i :: 0 <= i < |st.pending| && Expired(st.timers[st.pending[i]], st.now)
    ensures RunTimers(st, clock).1.None? ==> RunTimers(st, clock).0 == st
  {
    if st.pending != [] && !Expired(st.timers[st.pending[0]], st.now) {
      forall i | 0 < i < |st.pending| ensures !Expired(st.timers[st.pending[i]], st.now) {
        FirstIsMinimum(st.pending, st.timers, i);
      }
    }
  }

  /**
   * When `run_timers` fires, it fires the minimum pending timer under
   * `(deadline, id)` (so among equal deadlines the one started first). A
   * one-shot timer leaves the pending set and the counter stays; a repeating
   * one is re-inserted with deadline `Deadline(clock, repeat)` and the next
   * id, and the counter advances. Every other timer and pending entry is
   * unchanged.
   */
  lemma RunTimersFiresMinimum(st: State, clock: u64)
    requires Valid(st) && FreshIds(st)
    requires st.pending != [] && Expired(st.timers[st.pending[0]], st.now)
    ensures RunTimers(st, clock).1 == Some(st.pending[0])
    ensures forall x :: x in st.pending && x != st.pending[0] ==>
      Before(st.timers[st.pending[0]], st.timers[x])
    ensures forall x :: x in st.pending && st.timers[x].deadline == st.timers[st.pending[0]].deadline ==>
      st.timers[st.pending[0]].id <= st.timers[x].id
    ensures st.timers[st.pending[0]].repeat == 0 ==>
      RunTimers(st, clock).0.timers == st.timers && RunTimers(st, clock).0.count == st.count &&
      forall x :: x in RunTimers(st, clock).0.pending <==> x in st.pending && x != st.pending[0]
    ensures st.timers[st.pending[0]].repeat != 0 ==>
      RunTimers(st, clock).0.timers == st.timers[st.pending[0] := Timer(
        Deadline(clock, st.timers[st.pending[0]].repeat), st.count, st.timers[st.pending[0]].repeat)] &&
      RunTimers(st, clock).0.count == NextCount(st.count) &&
      (forall x :: x in RunTimers(st, clock).0.pending <==> x in st.pending) &&
      multiset(RunTimers(st, clock).0.pending)[st.pending[0]] == 1
    ensures st.count < MAX ==> FreshIds(RunTimers(st, clock).0)
  {
    var task := st.pending[0];
    forall x | x in st.pending && x != task ensures Before(st.timers[task], st.timers[x]) {
      var i :| 0 <= i < |st.pending| && st.pending[i] == x;
      FirstIsMinimum(st.pending, st.timers, i);
    }
    StopRemovesOnlyItself(st, task);
    AgainRearms(Stop(st, task), task, clock);
  }

  /** `run_timers` neither fires nor schedules a timer that is not pending. */
  lemma RunTimersLeavesIdleAlone(st: State, clock: u64, h: nat)
    requires Valid(st) && h !in st.pending
    ensures RunTimers(st, clock).1 != Some(h)
    ensures h !in RunTimers(st, clock).0.pending
  {
    if st.pending != [] && Expired(st.timers[st.pending[0]], st.now) {
      var task := st.pending[0];
      assert task in st.pending && task != h && task in st.started;
      var stopped := Stop(st, task);
      assert h !in stopped.pending;
      var repeat := stopped.timers[task].repeat;
      if repeat != 0 {
        var again := Stop(stopped, task);
        assert h !in again.pending;
        var t := Timer(Deadline(clock, repeat), again.count, repeat);
        var ts := again.timers[task := t];
        SortedAfterUpdate(again.pending, again.timers, task, t);
        var r := Insert(again.pending, task, ts);
        assert RunTimers(st, clock).0.pending == r;
        InsertOnlyAdds(again.pending, task, ts);
      }
    }
  }

  /**
   * A timer that is not pending is never fired by a run of the loop: in
   * particular a one-shot timer, once fired, does not fire again unless it is
   * started anew. This holds whatever the clock reads at each poll.
   */
  lemma {:induction false} IdleTimerNeverFires(st: State, polls: seq<Poll>, h: nat)
    requires Valid(st) && h !in st.pending
    ensures h !in Run(st, polls).1
    ensures h !in Run(st, polls).0.pending
    decreases |polls|
  {
    if polls != [] {
      var next := Step(st, polls[0]).0;
      RunTimersLeavesIdleAlone(UpdateTime(st, polls[0].sample), polls[0].rearm, h);
      IdleTimerNeverFires(next, polls[1..], h);
    }
  }

  /**
   * One poll of the scenario, with the re-arm reading the clock at the same
   * instant as the sample: the first pending timer has expired and is re-armed.
   */
  lemma ScenarioTick(st: State, tick: u64, first: nat, second: nat)
    requires Valid(st) && FreshIds(st) && st.count < MAX
    requires |st.timers| == 2 && st.pending == [first, second] && first < 2 && second < 2 && first != second
    requires st.timers[first].deadline < tick && st.timers[first].repeat != 0
    requires
      var t := Timer(Deadline(tick, st.timers[first].repeat), st.count, st.timers[first].repeat);
      Before(st.timers[second], t) || Before(t, st.timers[second])
    ensures Step(st, Poll(tick, tick)).1 == Some(first)
    ensures Step(st, Poll(tick, tick)).0.timers ==
      st.timers[first := Timer(Deadline(tick, st.timers[first].repeat), st.count, st.timers[first].repeat)]
    ensures Step(st, Poll(tick, tick)).0.pending ==
      if Before(st.timers[second], Timer(Deadline(tick, st.timers[first].repeat), st.count, st.timers[first].repeat))
      then [second, first] else [first, second]
    ensures Step(st, Poll(tick, tick)).0.count == NextCount(st.count)
    ensures Step(st, Poll(tick, tick)).0.started == st.started
  {
    var polled := UpdateTime(st, tick);
    var repeat := st.timers[first].repeat;
    var t := Timer(Deadline(tick, repeat), st.count, repeat);
    var ts := st.timers[first := t];
    assert st.pending[0] == first && first in st.started;
    var stopped := Stop(polled, first);
    assert HasKey(polled.pending, st.timers[first], st.timers) by {
      assert SameKey(st.timers[polled.pending[0]], st.timers[first]);
    }
    assert stopped.pending == [second] by {
      assert |stopped.pending| == 1 && second in stopped.pending;
    }
    assert RunTimers(polled, tick) == (Again(stopped, first, tick), Some(first));
    StopRemovesOnlyItself(stopped, first);
    assert Stop(stopped, first) == stopped;
    assert Again(stopped, first, tick) == Start(stopped, first, repeat, repeat, tick);
    SortedAfterUpdate(stopped.pending, stopped.timers, first, t);
    InsertIntoSingleton(second, first, ts);
    assert Start(stopped, first, repeat, repeat, tick).pending == Insert([second], first, ts);
  }

  /** Inserting into a one-element set puts the new handle on the side its key belongs. */
  lemma InsertIntoSingleton(x: nat, h: nat, ts: seq<Timer>)
    requires x < |ts| && h < |ts| && (Before(ts[x], ts[h]) || Before(ts[h], ts[x]))
    ensures Insert([x], h, ts) == if Before(ts[x], ts[h]) then [x, h] else [h, x]
  {
    if Before(ts[x], ts[h]) {
      assert [x][1..] == [];
    }
  }

  /**
   * The two-timer states the scenario passes through satisfy the invariants
   * `ScenarioTick` needs: timer `first` precedes timer `second`.
   */
  lemma ScenarioState(st: State, first: nat, second: nat)
    requires |st.timers| == 2 && {first, second} == {0, 1} && st.pending == [first, second]
    requires st.started == {0, 1}
    requires st.timers[0].id < st.count && st.timers[1].id < st.count && st.timers[0].id != st.timers[1].id
    requires Before(st.timers[first], st.timers[second]) && st.count < MAX
    ensures Valid(st) && FreshIds(st)
  {
  }

  /** `set_interval` on a loop whose pending set is empty or a single earlier timer. */
  lemma ScenarioInterval(st: State, interval: u64, clock: u64)
    requires Valid(st) && FreshIds(st) && st.count < MAX && |st.timers| == st.count <= 1
    requires st.pending == if st.timers == [] then [] else [0]
    requires st.started == if st.timers == [] then {} else {0}
    requires st.timers != [] ==> Before(st.timers[0], Timer(Deadline(clock, interval), st.count, interval))
    ensures SetInterval(st, interval, clock).timers == st.timers + [Timer(Deadline(clock, interval), st.count, interval)]
    ensures SetInterval(st, interval, clock).pending == st.pending + [|st.timers|]
    ensures SetInterval(st, interval, clock).count == st.count + 1
    ensures SetInterval(st, interval, clock).started == st.started + {|st.timers|}
  {
    var n := |st.timers|;
    var c := Create(st);
    var t := Timer(Deadline(clock, interval), st.count, interval);
    var ts := c.timers[n := t];
    assert ts == st.timers + [t];
    CreateLeavesUnstarted(st);
    assert Stop(c, n) == c;
    SortedAfterUpdate(c.pending, c.timers, n, t);
    var r := Start(c, n, interval, interval, clock);
    assert r.timers == ts && r.pending == Insert(st.pending, n, ts);
    if st.timers != [] {
      InsertIntoSingleton(0, n, ts);
    } else {
      assert Insert([], n, ts) == [n];
    }
  }

  /** The loop after `set_interval` of A (1000 ms) at time 0 on a fresh loop. */
  lemma ScenarioFirstInterval(s0: State, s1: State)
    requires s0.timers == [] && s0.pending == [] && s0.count == 0 && s0.started == {}
    requires s1 == SetInterval(s0, 1000, 0)
    ensures s1.timers == [Timer(1000, 0, 1000)] && s1.pending == [0] && s1.count == 1 && FreshIds(s1)
    ensures s1.started == {0}
  {
    ScenarioInterval(s0, 1000, 0);
    SetIntervalSchedules(s0, 1000, 0);
  }

  /** The loop after `set_interval` of B (2000 ms) at time 0, behind A. */
  lemma ScenarioSecondInterval(s1: State, s2: State)
    requires s1.timers == [Timer(1000, 0, 1000)] && s1.pending == [0] && s1.count == 1 && FreshIds(s1)
    requires s1.started == {0}
    requires s2 == SetInterval(s1, 2000, 0)
    ensures s2.timers == [Timer(1000, 0, 1000), Timer(2000, 1, 2000)] && s2.pending == [0, 1] && s2.count == 2
    ensures s2.started == {0, 1}
  {
    ScenarioInterval(s1, 2000, 0);
  }

  /** Poll at 1001: A (deadline 1000) fires and is re-armed for 2001. */
  lemma ScenarioPoll1(st: State)
    requires st.timers == [Timer(1000, 0, 1000), Timer(2000, 1, 2000)] && st.pending == [0, 1] && st.count == 2
    requires st.started == {0, 1}
    ensures Step(st, Poll(1001, 1001)).1 == Some(0) && Step(st, Poll(1001, 1001)).0.count == 3
    ensures Step(st, Poll(1001, 1001)).0.timers == [Timer(2001, 2, 1000), Timer(2000, 1, 2000)]
    ensures Step(st, Poll(1001, 1001)).0.pending == [1, 0] && Step(st, Poll(1001, 1001)).0.started == {0, 1}
  {
    ScenarioState(st, 0, 1);
    ScenarioTick(st, 1001, 0, 1);
    assert Deadline(1001, 1000) == 2001;
  }

  /** Poll at 2001: B (deadline 2000) comes before A (deadline 2001), fires and is re-armed for 4001. */
  lemma ScenarioPoll2(st: State)
    requires st.timers == [Timer(2001, 2, 1000), Timer(2000, 1, 2000)] && st.pending == [1, 0] && st.count == 3
    requires st.started == {0, 1}
    ensures Step(st, Poll(2001, 2001)).1 == Some(1) && Step(st, Poll(2001, 2001)).0.count == 4
    ensures Step(st, Poll(2001, 2001)).0.timers == [Timer(2001, 2, 1000), Timer(4001, 3, 2000)]
    ensures Step(st, Poll(2001, 2001)).0.pending == [0, 1] && Step(st, Poll(2001, 2001)).0.started == {0, 1}
  {
    ScenarioState(st, 1, 0);
    ScenarioTick(st, 2001, 1, 0);
    assert Deadline(2001, 2000) == 4001;
  }

  /** Poll at 2002: A (deadline 2001) fires again and is re-armed for 3002. */
  lemma ScenarioPoll3(st: State)
    requires st.timers == [Timer(2001, 2, 1000), Timer(4001, 3, 2000)] && st.pending == [0, 1] && st.count == 4
    requires st.started == {0, 1}
    ensures Step(st, Poll(2002, 2002)).1 == Some(0) && Step(st, Poll(2002, 2002)).0.count == 5
    ensures Step(st, Poll(2002, 2002)).0.timers == [Timer(3002, 4, 1000), Timer(4001, 3, 2000)]
    ensures Step(st, Poll(2002, 2002)).0.pending == [0, 1] && Step(st, Poll(2002, 2002)).0.started == {0, 1}
  {
    ScenarioState(st, 0, 1);
    ScenarioTick(st, 2002, 0, 1);
    assert Deadline(2002, 1000) == 3002;
  }

  /** Poll at 2500: A is due at 3002 and B at 4001, so nothing fires. */
  lemma ScenarioPoll4(st: State)
    requires st.timers == [Timer(3002, 4, 1000), Timer(4001, 3, 2000)] && st.pending == [0, 1] && st.count == 5
    requires st.started == {0, 1}
    ensures Step(st, Poll(2500, 2500)).1 == None
  {
    ScenarioState(st, 0, 1);
  }

  /** A run is its first iteration followed by the run over the remaining polls. */
  lemma RunUnfold(st: State, polls: seq<Poll>)
    requires Valid(st) && polls != []
    ensures
      var (next, fired) := Step(st, polls[0]);
      Run(st, polls).1 == (if fired.Some? then [fired.value] else []) + Run(next, polls[1..]).1
  {
  }

  /** The last poll, at 2500: nothing fires. */
  lemma ScenarioRunFrom2500(st: State, polls: seq<Poll>)
    requires st.timers == [Timer(3002, 4, 1000), Timer(4001, 3, 2000)] && st.pending == [0, 1] && st.count == 5
    requires st.started == {0, 1}
    requires |polls| == 1 && polls[0] == Poll(2500, 2500)
    ensures Valid(st) && Run(st, polls).1 == []
  {
    ScenarioState(st, 0, 1);
    ScenarioPoll4(st);
    RunUnfold(st, polls);
    assert polls[1..] == [];
  }

  /** The polls from 2002 on: A fires. */
  lemma ScenarioRunFrom2002(st: State, polls: seq<Poll>)
    requires st.timers == [Timer(2001, 2, 1000), Timer(4001, 3, 2000)] && st.pending == [0, 1] && st.count == 4
    requires st.started == {0, 1}
    requires |polls| == 2 && polls[0] == Poll(2002, 2002) && polls[1] == Poll(2500, 2500)
    ensures Valid(st) && Run(st, polls).1 == [0]
  {
    ScenarioState(st, 0, 1);
    ScenarioPoll3(st);
    ScenarioRunFrom2500(Step(st, polls[0]).0, polls[1..]);
    RunUnfold(st, polls);
  }

  /** The polls from 2001 on: B fires, then A. */
  lemma ScenarioRunFrom2001(st: State, polls: seq<Poll>)
    requires st.timers == [Timer(2001, 2, 1000), Timer(2000, 1, 2000)] && st.pending == [1, 0] && st.count == 3
    requires st.started == {0, 1}
    requires |polls| == 3 && polls[0] == Poll(2001, 2001) && polls[1] == Poll(2002, 2002)
    requires polls[2] == Poll(2500, 2500)
    ensures Valid(st) && Run(st, polls).1 == [1, 0]
  {
    ScenarioState(st, 1, 0);
    ScenarioPoll2(st);
    ScenarioRunFrom2002(Step(st, polls[0]).0, polls[1..]);
    RunUnfold(st, polls);
  }

  /** The four polls after both timers are set: the callbacks run for A, B, A. */
  lemma ScenarioRun(st: State, polls: seq<Poll>)
    requires st.timers == [Timer(1000, 0, 1000), Timer(2000, 1, 2000)] && st.pending == [0, 1] && st.count == 2
    requires st.started == {0, 1}
    requires |polls| == 4 && polls[0] == Poll(1001, 1001) && polls[1] == Poll(2001, 2001)
    requires polls[2] == Poll(2002, 2002) && polls[3] == Poll(2500, 2500)
    ensures Valid(st) && Run(st, polls).1 == [0, 1, 0]
  {
    ScenarioState(st, 0, 1);
    ScenarioPoll1(st);
    ScenarioRunFrom2001(Step(st, polls[0]).0, polls[1..]);
    RunUnfold(st, polls);
  }

  /**
   * Two interval timers started at time 0, A every 1000 ms and B every
   * 2000 ms, polled at 1001, 2001, 2002 and 2500 ms, each re-arm reading the
   * clock at the same instant as its poll's sample: A fires twice and B once,
   * in the order A, B, A.
   */
  lemma TwoIntervalsScenario(s0: State, s1: State, st: State, polls: seq<Poll>)
    requires s0.timers == [] && s0.pending == [] && s0.count == 0 && s0.started == {}
    requires s1 == SetInterval(s0, 1000, 0) && st == SetInterval(s1, 2000, 0)
    requires polls == [Poll(1001, 1001), Poll(2001, 2001), Poll(2002, 2002), Poll(2500, 2500)]
    ensures Run(st, polls).1 == [0, 1, 0]
  {
    ScenarioFirstInterval(s0, s1);
    ScenarioSecondInterval(s1, st);
    ScenarioRun(st, polls);
  }
}
