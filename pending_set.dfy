/**
 * The Loop's `std::set<Timer::Ptr, Timer::PtrOrd>` of pending timers, as the
 * ascending sequence of its elements. Elements are handles into the loop's
 * timer table `ts`; their order is `PtrOrd` on the timers they designate.
 * `Insert` and `Erase` follow `std::set`: both go by key, so inserting a
 * timer whose key is already present does nothing, and erasing removes the
 * element whose key equals the given timer's key, whichever timer that is.
 */
module PendingSet {
  import opened Timers

  /** Every element is a handle into `ts`, and the elements ascend strictly under `PtrOrd`. */
  predicate Sorted(s: seq<nat>, ts: seq<Timer>)
  {
    (forall i :: 0 <= i < |s| ==> s[i] < |ts|) &&
    (forall i, j :: 0 <= i < j < |s| ==> Before(ts[s[i]], ts[s[j]]))
  }

  /** Some element has the same key as `t` (what `std::set::find` would locate). */
  predicate HasKey(s: seq<nat>, t: Timer, ts: seq<Timer>)
  {
    exists i :: 0 <= i < |s| && s[i] < |ts| && SameKey(ts[s[i]], t)
  }

  /** A strictly ascending sequence holds each handle at most once. */
  lemma SortedDistinct(s: seq<nat>, ts: seq<Timer>)
    requires Sorted(s, ts)
    ensures forall i, j :: 0 <= i < j < |s| ==> s[i] != s[j]
  {
  }

  /** The first element precedes every other one: it is the set's `begin()`. */
  lemma FirstIsMinimum(s: seq<nat>, ts: seq<Timer>, i: nat)
    requires Sorted(s, ts) && 0 < i < |s|
    ensures Before(ts[s[0]], ts[s[i]])
    ensures ts[s[0]].deadline <= ts[s[i]].deadline
  {
  }

  /**
   * Changing the timer behind a handle keeps the order when that handle is
   * not an element, or when the change leaves the key alone.
   */
  lemma SortedAfterUpdate(s: seq<nat>, ts: seq<Timer>, h: nat, t: Timer)
    requires Sorted(s, ts) && h < |ts|
    requires h !in s || SameKey(ts[h], t)
    ensures Sorted(s, ts[h := t])
  {
    var ts' := ts[h := t];
    forall i, j | 0 <= i < j < |s|
      ensures Before(ts'[s[i]], ts'[s[j]])
    {
      assert Before(ts[s[i]], ts[s[j]]);
    }
  }

  /** `std::set::insert`: place `h` by key, or leave the set alone when its key is taken. */
  function Insert(s: seq<nat>, h: nat, ts: seq<Timer>): (r: seq<nat>)
    requires Sorted(s, ts) && h < |ts|
    ensures Sorted(r, ts)
    ensures HasKey(s, ts[h], ts) ==> r == s
    ensures !HasKey(s, ts[h], ts) ==> multiset(r) == multiset(s) + multiset{h}
    decreases |s|
  {
    if s == [] then [h]
    else if Before(ts[h], ts[s[0]]) then
      PrependSorted(s, h, ts);
      [h] + s
    else if Before(ts[s[0]], ts[h]) then
      var rest := Insert(s[1..], h, ts);
      InsertBehindFirst(s, h, ts, rest);
      [s[0]] + rest
    else s
  }

  /** Insertion brings in no handle other than `h`. */
  lemma InsertOnlyAdds(s: seq<nat>, h: nat, ts: seq<Timer>)
    requires Sorted(s, ts) && h < |ts|
    ensures forall x :: x in Insert(s, h, ts) ==> x in s || x == h
  {
    var r := Insert(s, h, ts);
    forall x | x in r ensures x in s || x == h {
      assert x in multiset(r);
    }
  }

  /** A handle whose timer precedes the first element can go in front. */
  lemma PrependSorted(s: seq<nat>, h: nat, ts: seq<Timer>)
    requires Sorted(s, ts) && h < |ts| && s != [] && Before(ts[h], ts[s[0]])
    ensures Sorted([h] + s, ts)
    ensures !HasKey(s, ts[h], ts)
  {
    var r := [h] + s;
    forall i, j | 0 <= i < j < |r| ensures Before(ts[r[i]], ts[r[j]]) {
      if i == 0 && j > 1 {
        assert Before(ts[s[0]], ts[s[j - 1]]);
      }
    }
    forall i | 0 <= i < |s| ensures !SameKey(ts[s[i]], ts[h]) {
      if i > 0 {
        assert Before(ts[s[0]], ts[s[i]]);
      }
    }
  }

  /** The recursive case of `Insert`: the insertion into the tail goes behind the first element. */
  lemma InsertBehindFirst(s: seq<nat>, h: nat, ts: seq<Timer>, rest: seq<nat>)
    requires Sorted(s, ts) && h < |ts| && s != [] && Before(ts[s[0]], ts[h])
    requires Sorted(rest, ts)
    requires HasKey(s[1..], ts[h], ts) ==> rest == s[1..]
    requires !HasKey(s[1..], ts[h], ts) ==> multiset(rest) == multiset(s[1..]) + multiset{h}
    ensures Sorted([s[0]] + rest, ts)
    ensures HasKey(s, ts[h], ts) <==> HasKey(s[1..], ts[h], ts)
    ensures HasKey(s, ts[h], ts) ==> [s[0]] + rest == s
    ensures !HasKey(s, ts[h], ts) ==> multiset([s[0]] + rest) == multiset(s) + multiset{h}
  {
    assert s == [s[0]] + s[1..];
    forall k | 0 <= k < |rest| ensures Before(ts[s[0]], ts[rest[k]]) {
      assert rest[k] in multiset(rest);
      if rest[k] != h {
        assert rest[k] in multiset(s[1..]);
        TailFollowsHead(s, ts, rest[k]);
      }
    }
    ConsSorted(s[0], rest, ts);
    HasKeyOfTail(s, ts[h], ts);
  }

  /** Every element after the first comes after it in `PtrOrd`. */
  lemma TailFollowsHead(s: seq<nat>, ts: seq<Timer>, y: nat)
    requires Sorted(s, ts) && s != [] && y in s[1..]
    ensures Before(ts[s[0]], ts[y])
  {
    var m :| 0 <= m < |s[1..]| && s[1..][m] == y;
    assert s[m + 1] == y;
  }

  /** A handle preceding every element of a sorted sequence can go in front of it. */
  lemma ConsSorted(x: nat, rest: seq<nat>, ts: seq<Timer>)
    requires Sorted(rest, ts) && x < |ts|
    requires forall k :: 0 <= k < |rest| ==> Before(ts[x], ts[rest[k]])
    ensures Sorted([x] + rest, ts)
  {
    var r := [x] + rest;
    forall i, j | 0 <= i < j < |r| ensures Before(ts[r[i]], ts[r[j]]) {
      assert r[j] == rest[j - 1];
      if i > 0 {
        assert r[i] == rest[i - 1];
      }
    }
  }

  /** When the first element does not carry `t`'s key, the key is in the sequence iff it is in the tail. */
  lemma HasKeyOfTail(s: seq<nat>, t: Timer, ts: seq<Timer>)
    requires Sorted(s, ts) && s != [] && !SameKey(ts[s[0]], t)
    ensures HasKey(s, t, ts) <==> HasKey(s[1..], t, ts)
  {
    if HasKey(s, t, ts) {
      var i :| 0 <= i < |s| && s[i] < |ts| && SameKey(ts[s[i]], t);
      assert s[1..][i - 1] == s[i];
    }
    if HasKey(s[1..], t, ts) {
      var i :| 0 <= i < |s[1..]| && s[1..][i] < |ts| && SameKey(ts[s[1..][i]], t);
      assert s[i + 1] == s[1..][i];
    }
  }

  /** `std::set::erase(key)`: remove the element whose key equals `t`'s, if any. */
  function Erase(s: seq<nat>, t: Timer, ts: seq<Timer>): (r: seq<nat>)
    requires Sorted(s, ts)
    ensures Sorted(r, ts)
    ensures !HasKey(r, t, ts)
    ensures !HasKey(s, t, ts) ==> r == s
    ensures HasKey(s, t, ts) ==> |r| == |s| - 1
    ensures forall x :: x in r <==> x in s && !SameKey(ts[x], t)
    decreases |s|
  {
    if s == [] then []
    else if SameKey(ts[s[0]], t) then
      EraseFirst(s, t, ts);
      s[1..]
    else
      var rest := Erase(s[1..], t, ts);
      EraseBehindFirst(s, t, ts, rest);
      [s[0]] + rest
  }

  /** When the first element carries the key, no later element does. */
  lemma EraseFirst(s: seq<nat>, t: Timer, ts: seq<Timer>)
    requires Sorted(s, ts) && s != [] && SameKey(ts[s[0]], t)
    ensures Sorted(s[1..], ts) && !HasKey(s[1..], t, ts) && HasKey(s, t, ts)
    ensures forall x :: x in s[1..] <==> x in s && !SameKey(ts[x], t)
  {
    forall i | 0 <= i < |s[1..]| ensures !SameKey(ts[s[1..][i]], t) {
      assert Before(ts[s[0]], ts[s[i + 1]]);
    }
    assert s == [s[0]] + s[1..];
  }

  /** The recursive case of `Erase`: the first element stays in front of the erased tail. */
  lemma EraseBehindFirst(s: seq<nat>, t: Timer, ts: seq<Timer>, rest: seq<nat>)
    requires Sorted(s, ts) && s != [] && !SameKey(ts[s[0]], t)
    requires Sorted(rest, ts) && !HasKey(rest, t, ts)
    requires !HasKey(s[1..], t, ts) ==> rest == s[1..]
    requires HasKey(s[1..], t, ts) ==> |rest| == |s[1..]| - 1
    requires forall x :: x in rest <==> x in s[1..] && !SameKey(ts[x], t)
    ensures Sorted([s[0]] + rest, ts) && !HasKey([s[0]] + rest, t, ts)
    ensures HasKey(s, t, ts) <==> HasKey(s[1..], t, ts)
    ensures !HasKey(s, t, ts) ==> [s[0]] + rest == s
    ensures forall x :: x in [s[0]] + rest <==> x in s && !SameKey(ts[x], t)
  {
    assert s == [s[0]] + s[1..];
    forall k | 0 <= k < |rest| ensures Before(ts[s[0]], ts[rest[k]]) {
      assert rest[k] in rest;
      TailFollowsHead(s, ts, rest[k]);
    }
    ConsSorted(s[0], rest, ts);
    HasKeyOfTail(s, t, ts);
    HasKeyOfCons(s[0], rest, t, ts);
  }

  /** Putting an element without `t`'s key in front adds no occurrence of that key. */
  lemma HasKeyOfCons(x: nat, rest: seq<nat>, t: Timer, ts: seq<Timer>)
    requires x < |ts| && !SameKey(ts[x], t) && !HasKey(rest, t, ts)
    ensures !HasKey([x] + rest, t, ts)
  {
    var r := [x] + rest;
    forall k | 0 <= k < |r| && r[k] < |ts| ensures !SameKey(ts[r[k]], t) {
      if k > 0 {
        assert r[k] == rest[k - 1];
      }
    }
  }

  /** Erasing a key twice is erasing it once. */
  lemma EraseIdempotent(s: seq<nat>, t: Timer, ts: seq<Timer>)
    requires Sorted(s, ts)
    ensures Erase(Erase(s, t, ts), t, ts) == Erase(s, t, ts)
  {
  }

  /**
   * Erasing by the key of a handle whose id no other element shares removes
   * exactly that handle, if present.
   */
  lemma EraseUniqueId(s: seq<nat>, ts: seq<Timer>, h: nat)
    requires Sorted(s, ts) && h < |ts|
    requires forall i :: 0 <= i < |s| && s[i] != h ==> ts[s[i]].id != ts[h].id
    ensures forall x :: x in Erase(s, ts[h], ts) <==> x in s && x != h
    ensures HasKey(s, ts[h], ts) <==> h in s
  {
    if h in s {
      var i :| 0 <= i < |s| && s[i] == h;
      assert SameKey(ts[s[i]], ts[h]);
    }
    if HasKey(s, ts[h], ts) {
      var i :| 0 <= i < |s| && s[i] < |ts| && SameKey(ts[s[i]], ts[h]);
      assert s[i] == h;
    }
  }

  /**
   * Inserting a handle that is absent and whose id no element shares adds it,
   * exactly once, and keeps every element.
   */
  lemma InsertUniqueId(s: seq<nat>, ts: seq<Timer>, h: nat)
    requires Sorted(s, ts) && h < |ts| && h !in s
    requires forall i :: 0 <= i < |s| ==> ts[s[i]].id != ts[h].id
    ensures forall x :: x in Insert(s, h, ts) <==> x in s || x == h
    ensures multiset(Insert(s, h, ts))[h] == 1
  {
    assert !HasKey(s, ts[h], ts);
    var r := Insert(s, h, ts);
    forall x ensures x in r <==> x in s || x == h {
      assert x in multiset(r) <==> x in multiset(s) + multiset{h};
    }
    assert multiset(s)[h] == 0;
  }
}
