# Loop timer scheduler in Dafny

This project models the timer engine of a small single-threaded event loop, the class `Loop` and its nested `Timer` in `include/loop/loop.h`. Callers register a callback to run once after a delay (`set_timeout`) or repeatedly at a fixed interval (`set_interval`). The loop keeps its pending timers in a `std::set` ordered by `(deadline, id)`. `run` repeatedly takes a clock sample and lets `run_timers` fire the first pending timer once its deadline is strictly before the sample. A repeating timer is re-armed before its callback runs.

The model has five modules:

- `Timers` holds one timer's fields as a value, `Timer(deadline, id, repeat)`, all `uint64_t` (0 .. 2^64-1 here). It also has the wrapping addition and the saturating deadline of `start`, the wrap of `_timer_count++`, the `PtrOrd` comparator and the `expired` test.
- `PendingSet` models the ordered set `_timer_tasks` as an ascending sequence of timer handles, with `std::set`'s insert and erase. Both go by key: an insert whose key is already present does nothing, and an erase removes whichever element has an equal key.
- `Scheduler` holds a loop's state as a value: the timer table, the pending set, `_timer_count`, `_timestamp`, and the set of timers that some `start` has given an id. It has one function per operation. A timer is a handle, an index into the loop's table, and each `Timer` method is a function taking that handle.
- `Properties` proves what the operations promise:
  - where a started timer lands and what a stop removes;
  - how `again` and `set_repeat` combine;
  - which timer `run_timers` fires, and that an idle timer is never fired;
  - a two-interval run of the loop.
- `EventLoop.Loop` is a class whose methods update its fields in place. Each method is proved to produce exactly the state the matching `Scheduler` function computes, so every lemma of `Properties` applies to it. The class also records in a ghost field the timers whose callbacks were invoked.

The source's own clock (`timestamp()`) is not modelled. Every operation that reads it takes the value read as a parameter `clock`. `start` and `again` read the clock afresh, not the cached `_timestamp`. So one iteration of `run` reads the clock twice: once in `update_time`, and once more in the re-arm inside `run_timers`. It is modelled with both readings (`Scheduler.Poll`), which need not agree.

A timeout of MAX-5 gets the deadline MAX only when the clock reads 5 or more. At exactly 5 the plain sum is already MAX, and above 5 the sum overflows and saturates. At a clock of 1 to 4 the deadline is MAX-4 to MAX-1, and such a timer does expire once the sample passes it. `Timers.NearMaxTimeout` states these cases.

`Timer::create` leaves a timer's `_id` uninitialised until its first `start`. The model gives a timer that was only created no key at all: it is outside the `started` set, so `stop`, including the one at the head of `start`, erases nothing for it.

Id uniqueness among started timers (`Scheduler.FreshIds`) holds while `_timer_count` has not wrapped. Properties that rely on it say so: the ones about "exactly once" and "only this timer" take it as a precondition, and they preserve it while the counter is below its maximum. The ordering invariant (`Scheduler.Valid`) holds unconditionally.

## Model

| member | source | states |
|---|---|---|
| Timers.WrappingAdd | include/loop/loop.h:84 | the sum is the exact sum when it fits in 64 bits, and the exact sum minus 2^64 when it does not |
| Timers.Deadline | include/loop/loop.h:84-85 | the deadline is `clock + timeout` when that fits and MAX when it overflows; it is never below the timeout or the clock |
| Timers.NextCount | include/loop/loop.h:87 | the counter advances by one below MAX and wraps to 0 at MAX |
| Timers.Before | include/loop/loop.h:67-70 | `PtrOrd`: an earlier deadline comes first, and equal deadlines are ordered by id |
| Timers.Expired | include/loop/loop.h:104-105 | `expired`: the deadline is strictly before the loop's cached sample |
| Timers.BeforeIsStrictTotalOrder | include/loop/loop.h:67-70 | `PtrOrd` is irreflexive, asymmetric and transitive; two timers are incomparable exactly when deadline and id both agree |
| Timers.ExpiredIsStrict | include/loop/loop.h:104-105 | a timer is not expired at its own deadline; once expired it stays expired for later samples; a MAX deadline never expires |
| Timers.OverflowingStartNeverExpires | include/loop/loop.h:84-85 | a start whose `clock + timeout` overflows gives a timer that is not expired for any sample |
| Timers.NearMaxTimeout | include/loop/loop.h:84-85 | a timeout of MAX-5 gets the deadline MAX exactly when the clock is 5 or more, and then never expires; at a clock below 5 the deadline is the plain sum |
| PendingSet.Sorted | include/loop/loop.h:112 | the `std::set` ordering: every element is a timer handle, and the elements ascend strictly under `PtrOrd` |
| PendingSet.SortedDistinct | include/loop/loop.h:112 | the ordered set holds each timer at most once |
| PendingSet.FirstIsMinimum | include/loop/loop.h:124 | the first element comes before every other under `PtrOrd`, so its deadline is the smallest |
| PendingSet.Insert | include/loop/loop.h:88 | the set stays ordered; it is unchanged when the key is already present; otherwise it gains exactly the new handle |
| PendingSet.Erase | include/loop/loop.h:92 | the set stays ordered and no longer holds the key; it is unchanged if the key was absent and one shorter otherwise; it keeps exactly the elements with a different key |
| PendingSet.EraseIdempotent | include/loop/loop.h:92 | erasing a key twice leaves the same set as erasing it once |
| PendingSet.EraseUniqueId | include/loop/loop.h:91-92 | when no other element shares the timer's id, erasing its key removes exactly that timer, and the key is present exactly when the timer is |
| PendingSet.InsertOnlyAdds | include/loop/loop.h:88 | an insert brings in no handle other than the one inserted |
| PendingSet.InsertUniqueId | include/loop/loop.h:88 | when no element shares the new timer's id, inserting it keeps every element and adds it exactly once |
| Scheduler.Valid | include/loop/loop.h:112 | the pending set is ordered by `PtrOrd`, and only a started timer, one that has a key, is pending |
| Scheduler.Empty | include/loop/loop.h:112-114 | a fresh loop has no timers and nothing pending; it is ordered and has fresh ids |
| Scheduler.Stop | include/loop/loop.h:91-92 | after `stop` the set is still ordered and does not hold the timer; the table, counter, sample and started timers are unchanged; a timer never started is left alone entirely |
| Scheduler.Start | include/loop/loop.h:81-89 | `start` keeps the set ordered, the table size and the sample, and marks the timer as started |
| Scheduler.Again | include/loop/loop.h:94-99 | `again` keeps the set ordered, the table size and the sample |
| Scheduler.SetRepeat | include/loop/loop.h:101-102 | `set_repeat` changes only the timer's repeat; the deadline, id, pending set, counter and sample are unchanged |
| Scheduler.UpdateTime | include/loop/loop.h:117-118 | `update_time` replaces the sample and nothing else |
| Scheduler.Create | include/loop/loop.h:72-79 | a new timer with deadline and repeat 0 is appended to the table; the pending set, counter, sample and started timers are unchanged, so the new timer is not pending (that it is not started either needs `FreshIds`, see `Properties.CreateLeavesUnstarted`) |
| Scheduler.SetTimeout | include/loop/loop.h:132-138 | `set_timeout` keeps the set ordered and adds one timer to the table |
| Scheduler.SetInterval | include/loop/loop.h:140-146 | `set_interval` keeps the set ordered and adds one timer to the table |
| Scheduler.RunTimers | include/loop/loop.h:120-130 | `run_timers` keeps the set ordered, the table size, the sample and the started timers |
| Scheduler.Step | include/loop/loop.h:150-153 | one iteration of `run`, given both of its clock readings, keeps the set ordered and leaves the poll's sample as the cached time |
| Scheduler.Run | include/loop/loop.h:148-154 | any finite prefix of `run` keeps the set ordered, and its trace of fired timers is no longer than the number of polls |
| Properties.KeyIdentifiesTimer | include/loop/loop.h:67-70 | with distinct ids, two started timers have the same `PtrOrd` key exactly when they are the same timer |
| Properties.StopRemovesOnlyItself | include/loop/loop.h:91-92 | `stop` removes exactly this timer if it was pending, is a no-op otherwise, and preserves fresh ids |
| Properties.StopIdempotent | include/loop/loop.h:91-92 | stopping twice is stopping once |
| Properties.CreateLeavesUnstarted | include/loop/loop.h:72-79 | a created timer is not started, stopping it changes nothing, and creation keeps the ids fresh |
| Properties.StartFromUniqueKey | include/loop/loop.h:81-89 | if no other timer shares the old or the new id, `start` pends the timer exactly once with the saturating deadline, the given repeat and the old counter as id; the counter advances, and nothing else changes; fresh ids are kept while the counter is below MAX |
| Properties.StartKeepsFreshIds | include/loop/loop.h:87 | once started, the timer's id is the old counter, above every other started timer's id, so ids stay fresh while the counter is below MAX |
| Properties.StartSchedules | include/loop/loop.h:81-89 | the same as `StartFromUniqueKey`, for any loop with fresh ids; fresh ids are kept while the counter is below MAX |
| Properties.CreateAndStartSchedules | include/loop/loop.h:72-89 | creating and starting a timer appends it at the next handle with the computed record and pends it exactly once; the other pending timers stay |
| Properties.SetTimeoutSchedules | include/loop/loop.h:132-138 | `set_timeout` appends a one-shot timer with deadline `Deadline(clock, timeout)` and the old counter as id, pends it exactly once and advances the counter |
| Properties.SetIntervalSchedules | include/loop/loop.h:140-146 | `set_interval` appends a timer repeating with `interval`, first due at `Deadline(clock, interval)`, with the old counter as id; it is pending exactly once and the counter advances |
| Properties.AgainRearms | include/loop/loop.h:94-99 | `again` on a one-shot timer changes nothing; otherwise the timer is pending exactly once with deadline `Deadline(clock, repeat)`, the same repeat and the old counter as id, larger than its previous id; the counter advances |
| Properties.SetRepeatThenAgain | include/loop/loop.h:94-102 | after `set_repeat(r)`, `again` re-arms with `r` rather than the old interval, and does nothing when `r` is 0 |
| Properties.RunTimersFiresIffSomeExpired | include/loop/loop.h:120-130 | `run_timers` fires exactly when some pending timer has expired, and changes nothing when it fires nothing |
| Properties.RunTimersFiresMinimum | include/loop/loop.h:120-130 | the fired timer is the `PtrOrd`-minimum pending one, with the smallest id among equal deadlines. A one-shot timer leaves the set and the counter stays. A repeating one stays pending exactly once, with its new deadline and the old counter as id, and the counter advances. Every other timer and pending entry is unchanged |
| Properties.RunTimersLeavesIdleAlone | include/loop/loop.h:120-130 | `run_timers` neither fires nor makes pending a timer that is not pending |
| Properties.IdleTimerNeverFires | include/loop/loop.h:148-154 | over any run of the loop, whatever the clock reads, a timer that is not pending, such as a fired one-shot timer, is never fired and never becomes pending |
| Properties.TwoIntervalsScenario | include/loop/loop.h:140-154 | intervals of 1000 and 2000 set at time 0, polled at 1001, 2001, 2002 and 2500 with each re-arm reading the same instant as its poll, fire the first, the second, then the first again |
| EventLoop.Loop.constructor | include/loop/loop.h:111-114 | a new loop is in the empty state and has fired nothing |
| EventLoop.Loop.Expired | include/loop/loop.h:104-105 | `Timer::expired` on this loop: the timer's deadline is strictly before the cached sample |
| EventLoop.Loop.Stop | include/loop/loop.h:91-92 | the new state is `Scheduler.Stop` of the old one |
| EventLoop.Loop.Start | include/loop/loop.h:81-89 | the new state is `Scheduler.Start` of the old one, with the deadline computed by the wrapped sum and its overflow check |
| EventLoop.Loop.Again | include/loop/loop.h:94-99 | the new state is `Scheduler.Again` of the old one |
| EventLoop.Loop.SetRepeat | include/loop/loop.h:101-102 | the new state is `Scheduler.SetRepeat` of the old one |
| EventLoop.Loop.UpdateTime | include/loop/loop.h:117-118 | the new state is `Scheduler.UpdateTime` of the old one |
| EventLoop.Loop.RunTimers | include/loop/loop.h:120-130 | the new state and the fired timer are those of `Scheduler.RunTimers`; the fired timer is appended to the record of invoked callbacks |
| EventLoop.Loop.Create | include/loop/loop.h:72-79 | the new state is `Scheduler.Create` of the old one, and the handle returned is the new timer's |
| EventLoop.Loop.SetTimeout | include/loop/loop.h:132-138 | the new state is `Scheduler.SetTimeout` of the old one, and the handle returned is the new timer's |
| EventLoop.Loop.SetInterval | include/loop/loop.h:140-146 | the new state is `Scheduler.SetInterval` of the old one, and the handle returned is the new timer's |
| EventLoop.Loop.Step | include/loop/loop.h:150-153 | one iteration of `run`, with `update_time` reading `sample` and the re-arm reading `rearm`, yields the state and fired timer of `Scheduler.Step` |

## Left out

- The clock: `timestamp()` is an operating-system read. Each operation that reads it takes the value as a parameter `clock`.
- Callbacks: `Runnable` and the callback bodies are not modelled. A callback invocation is recorded as the timer's handle, in `Scheduler.Run`'s trace and in `EventLoop.Loop`'s ghost `fired`. Effects a callback might have on the loop are not modelled; that includes re-entrant calls to `start` or `stop`. A callback that throws ends the program through `noexcept` (`std::terminate`); this is not modelled.
- Scheduler.Run: `run` loops forever. The model covers every finite prefix, one iteration per poll. Each poll carries both clock readings of that iteration.
- `singleton`, the default-loop arguments, `NonCopyable`, `std::enable_shared_from_this` and `shared_ptr` ownership are not modelled. Timers are entries of a table owned by the loop and named by handle, so two handles never alias one timer and a timer is never freed.
- Scheduler.Create: `Timer::create` leaves `_id` uninitialised until the first `start`, and the `stop` at the head of that `start` erases by a key holding that uninitialised id. The model takes such a timer to have no key, so that `stop` erases nothing. The source could in principle erase a pending timer whose deadline is 0 and whose id happens to equal the garbage value; the model does not capture that.
- Properties.StartSchedules: id uniqueness, and with it "pending exactly once" and "removes only itself", is proved only while `_timer_count` is below its maximum. After the 64-bit counter wraps, two timers can share a key, and the model then follows `std::set` literally: the insert is dropped or the wrong entry is erased.
- `example.cpp`, the demonstration program, is not part of this model.

