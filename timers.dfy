/**
 * The per-timer state of `Loop::Timer` and its two pure pieces:
 * the `PtrOrd` comparator that orders the pending set and the `expired` test.
 * Deadlines, ids and repeat intervals are `uint64_t` in the source, so they
 * are kept in 0 .. 2^64-1 here and every wrap-around is written out.
 */
module Timers {

  /** Largest `uint64_t` value, `std::numeric_limits<uint64_t>::max()`. */
  const MAX: int := 0xFFFF_FFFF_FFFF_FFFF

  type u64 = x: int | 0 <= x <= MAX

  /** Unsigned 64-bit addition as C++ performs it: modulo 2^64. */
  function WrappingAdd(a: u64, b: u64): (r: u64)
    ensures a + b <= MAX ==> r == a + b
    ensures a + b > MAX ==> r == a + b - (MAX + 1)
  {
    (a + b) % (MAX + 1)
  }

  /**
   * The deadline `start` computes: the wrapped sum `clock + timeout`, replaced
   * by MAX when the wrap made it smaller than `timeout`. The result is the
   * saturating sum, so it is never below `timeout` nor below the clock.
   */
  function Deadline(clock: u64, timeout: u64): (d: u64)
    ensures clock + timeout <= MAX ==> d == clock + timeout
    ensures clock + timeout > MAX ==> d == MAX
    ensures timeout <= d && clock <= d
  {
    var sum := WrappingAdd(clock, timeout);
    if sum < timeout then MAX else sum
  }

  /** `_timer_count++` on a `uint64_t`: the counter wraps to 0 after MAX. */
  function NextCount(n: u64): (m: u64)
    ensures n < MAX ==> m == n + 1 && n < m
    ensures n == MAX ==> m == 0
  {
    WrappingAdd(n, 1)
  }

  /** The fields of one timer that the scheduler reads and writes. */
  datatype Timer = Timer(deadline: u64, id: u64, repeat: u64)

  /** `PtrOrd`: earlier deadline first; equal deadlines are ordered by id. */
  predicate Before(a: Timer, b: Timer)
  {
    if a.deadline != b.deadline then a.deadline < b.deadline else a.id < b.id
  }

  /** Two timers that `PtrOrd` cannot tell apart: the ordered set treats them as one key. */
  predicate SameKey(a: Timer, b: Timer)
  {
    a.deadline == b.deadline && a.id == b.id
  }

  /** `PtrOrd` is a strict total order on keys, as `std::set` demands of its comparator. */
  lemma BeforeIsStrictTotalOrder(a: Timer, b: Timer, c: Timer)
    ensures !Before(a, a)
    ensures Before(a, b) ==> !Before(b, a)
    ensures Before(a, b) && Before(b, c) ==> Before(a, c)
    ensures SameKey(a, b) <==> !Before(a, b) && !Before(b, a)
  {
  }

  /** `expired`: the deadline lies strictly before the loop's cached time sample. */
  predicate Expired(t: Timer, now: u64)
  {
    t.deadline < now
  }

  /**
   * A timer is not expired at its own deadline, once expired it stays expired
   * as the sample grows, and a saturated deadline never expires at all.
   */
  lemma ExpiredIsStrict(t: Timer, now: u64, later: u64)
    ensures !Expired(t, t.deadline)
    ensures Expired(t, now) && now <= later ==> Expired(t, later)
    ensures t.deadline == MAX ==> !Expired(t, now)
  {
  }

  /**
   * A start whose `clock + timeout` overflows yields a timer that never
   * expires, whatever sample the loop later takes.
   */
  lemma OverflowingStartNeverExpires(clock: u64, timeout: u64, id: u64, repeat: u64, now: u64)
    requires clock + timeout > MAX
    ensures !Expired(Timer(Deadline(clock, timeout), id, repeat), now)
  {
  }

  /**
   * A timeout five below MAX: the deadline is MAX, and the timer never
   * expires, exactly when the clock reads 5 or more (at 5 the sum is MAX
   * itself, above 5 it overflows and saturates); at a clock of 0 to 4 the
   * deadline is the plain sum, MAX-5 to MAX-1.
   */
  lemma NearMaxTimeout(clock: u64, id: u64, repeat: u64, now: u64)
    ensures Deadline(clock, MAX - 5) == MAX <==> clock >= 5
    ensures clock >= 5 ==> !Expired(Timer(Deadline(clock, MAX - 5), id, repeat), now)
    ensures clock < 5 ==> Deadline(clock, MAX - 5) == clock + MAX - 5
  {
  }
}
