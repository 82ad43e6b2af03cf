/** Ring buffers addressed by a running write position, against the unbounded log they abridge. */
module Rings {
  import opened Basics

  /** `slots` grows to `capacity`, then slot `writePos % capacity` is overwritten. */
  datatype Ring<T> = Ring(capacity: nat, slots: seq<T>, writePos: nat)

  /** The slot a running position falls on. */
  function Slot(k: nat, capacity: nat): (i: nat)
    requires 0 < capacity
    ensures i < capacity
  {
    k % capacity
  }

  function Push<T>(r: Ring<T>, x: T): Ring<T> {
    var slots :=
      if |r.slots| < r.capacity then r.slots + [x]
      else if r.capacity > 0 && Slot(r.writePos, r.capacity) < |r.slots| then r.slots[Slot(r.writePos, r.capacity) := x]
      else r.slots;
    Ring(r.capacity, slots, r.writePos + 1)
  }

  function Empty<T>(capacity: nat): Ring<T> {
    Ring(capacity, [], 0)
  }

  /** The part of the log a ring of this size still remembers. */
  function Window<T>(capacity: nat, log: seq<T>): seq<T> {
    if |log| <= capacity then log else log[|log| - capacity..]
  }

  /** Entry k of the log sits at slot k modulo the number of slots, for every k still remembered. */
  ghost predicate InPlace<T>(slots: seq<T>, log: seq<T>)
    requires |slots| <= |log|
  {
    forall k :: |log| - |slots| <= k < |log| ==> slots[Slot(k, |slots|)] == log[k]
  }

  ghost predicate Holds<T>(r: Ring<T>, log: seq<T>) {
    && r.writePos == |log|
    && |r.slots| == |Window(r.capacity, log)|
    && InPlace(r.slots, log)
    && multiset(r.slots) == multiset(Window(r.capacity, log))
  }

  /** Quotient and remainder are unique. */
  lemma RemainderIs(x: nat, q: int, r: nat, c: nat)
    requires r < c && x == q * c + r
    ensures x % c == r
  {
    var d := x / c - q;
    assert d * c == r - x % c;
    assert d >= 1 ==> d * c >= c;
    assert d <= -1 ==> d * c + c <= 0;
  }

  lemma SameSlot(n: nat, k: nat, capacity: nat)
    requires 0 < capacity && n - capacity <= k < n
    ensures Slot(k, capacity) == Slot(n, capacity) <==> k == n - capacity
  {
    var q, r, back := n / capacity, n % capacity, n - k;
    assert n == q * capacity + r;
    if r >= back {
      RemainderIs(k, q, r - back, capacity);
    } else {
      assert k == (q - 1) * capacity + (capacity + r - back);
      RemainderIs(k, q - 1, capacity + r - back, capacity);
    }
  }

  lemma EarlySlot(k: nat, capacity: nat)
    requires k < capacity
    ensures Slot(k, capacity) == k
  {
    RemainderIs(k, 0, k, capacity);
  }

  lemma SlotHolds<T>(r: Ring<T>, log: seq<T>, k: nat)
    requires Holds(r, log) && |log| - |r.slots| <= k < |log|
    ensures 0 < |r.slots| <= |log| && r.writePos == |log| && r.slots[Slot(k, |r.slots|)] == log[k]
  {
    hide Slot;
  }

  lemma PushWhileFilling<T>(r: Ring<T>, log: seq<T>, x: T)
    requires Holds(r, log) && |log| < r.capacity
    ensures Holds(Push(r, x), log + [x])
  {
    hide Slot;
    var slots := Push(r, x).slots;
    forall k | 0 <= k < |log| + 1 ensures slots[Slot(k, |slots|)] == (log + [x])[k] {
      EarlySlot(k, |slots|);
      if k < |log| { EarlySlot(k, |r.slots|); }
    }
  }

  /** Full, the ring overwrites the slot of its oldest entry. */
  lemma PushedSlots<T>(r: Ring<T>, log: seq<T>, x: T)
    requires Holds(r, log) && 0 < r.capacity <= |log|
    ensures |r.slots| == r.capacity && Push(r, x) == Ring(r.capacity, r.slots[Slot(|log|, r.capacity) := x], |log| + 1)
  {
    hide Slot, InPlace;
  }

  lemma PushedInPlace<T>(r: Ring<T>, log: seq<T>, x: T)
    requires Holds(r, log) && 0 < r.capacity <= |log| && |r.slots| == r.capacity
    ensures InPlace(r.slots[Slot(|log|, r.capacity) := x], log + [x])
  {
    hide Slot;
    var n, c := |log|, r.capacity;
    var slots := r.slots[Slot(n, c) := x];
    forall k | n + 1 - c <= k < n + 1 ensures slots[Slot(k, c)] == (log + [x])[k] {
      if k < n {
        SlotHolds(r, log, k);
        SameSlot(n, k, c);
      }
    }
  }

  lemma PushWhenFull<T>(r: Ring<T>, log: seq<T>, x: T)
    requires Holds(r, log) && 0 < r.capacity <= |log|
    ensures Holds(Push(r, x), log + [x])
  {
    hide Slot, InPlace, Push;
    var n, c := |log|, r.capacity;
    PushedSlots(r, log, x);
    PushedInPlace(r, log, x);
    SameSlot(n, n - c, c);
    SlotHolds(r, log, n - c);
    WindowTurns(c, log, x);
    hide Window;
    TurnsTheWindow(r.slots, Slot(n, c), x, Window(c, log));
  }

  lemma WindowTurns<T>(c: nat, log: seq<T>, x: T)
    requires 0 < c <= |log|
    ensures |Window(c, log)| == c && Window(c, log)[0] == log[|log| - c]
    ensures Window(c, log + [x]) == Window(c, log)[1..] + [x]
  {
  }

  /** Overwriting the slot of the oldest entry turns the window by one. */
  lemma TurnsTheWindow<T>(slots: seq<T>, i: nat, x: T, w: seq<T>)
    requires i < |slots| && w != [] && slots[i] == w[0] && multiset(slots) == multiset(w)
    ensures multiset(slots[i := x]) == multiset(w[1..] + [x])
  {
    MultisetSplit(slots, i);
    assert w == [w[0]] + w[1..];
    assert slots[i := x] == slots[..i] + [x] + slots[i + 1..];
  }

  /** Logging one more entry keeps ring and log in step, through every wrap-around. */
  lemma PushKeeps<T>(r: Ring<T>, log: seq<T>, x: T)
    requires Holds(r, log)
    ensures Holds(Push(r, x), log + [x])
  {
    if r.capacity == 0 {
    } else if |log| < r.capacity {
      PushWhileFilling(r, log, x);
    } else {
      PushWhenFull(r, log, x);
    }
  }

  datatype Event<T> = Logged(entry: T) | Cleared

  function Play<T>(r: Ring<T>, e: Event<T>): Ring<T> {
    match e
    case Logged(x) => Push(r, x)
    case Cleared => Empty(r.capacity)
  }

  function PlayAll<T>(capacity: nat, events: seq<Event<T>>): Ring<T> {
    if events == [] then Empty(capacity)
    else Play(PlayAll(capacity, events[..|events| - 1]), events[|events| - 1])
  }

  /** The unbounded log: everything since the last clear. */
  function SinceClear<T>(events: seq<Event<T>>): seq<T> {
    if events == [] then []
    else
      match events[|events| - 1]
      case Logged(x) => SinceClear(events[..|events| - 1]) + [x]
      case Cleared => []
  }

  lemma {:induction false} EveryHistoryHolds<T>(capacity: nat, events: seq<Event<T>>)
    ensures PlayAll(capacity, events).capacity == capacity
    ensures Holds(PlayAll(capacity, events), SinceClear(events))
    decreases |events|
  {
    if events != [] {
      var n := |events| - 1;
      EveryHistoryHolds(capacity, events[..n]);
      if events[n].Logged? {
        PushKeeps(PlayAll(capacity, events[..n]), SinceClear(events[..n]), events[n].entry);
      }
    }
  }
}
