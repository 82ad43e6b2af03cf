/** The audit log: a ring of recent entries that answers like an unbounded log. */
module Audit {
  import opened Basics
  import opened Rings

  class AuditLog<T> {
    const capacity: nat
    var entries: seq<T>
    var writePos: nat
    var totalLogged: nat

    ghost function Model(): Ring<T>
      reads this
    {
      Ring(capacity, entries, writePos)
    }

    constructor (capacity: nat)
      ensures Model() == Empty(capacity) && totalLogged == 0
    {
      this.capacity := capacity;
      entries, writePos, totalLogged := [], 0, 0;
    }

    /** Capacity zero is excluded: the index would be taken modulo zero. */
    method Log(entry: T)
      requires 0 < capacity
      modifies this
      ensures Model() == Push(old(Model()), entry)
      ensures totalLogged == old(totalLogged) + 1
    {
      var pos := writePos;
      writePos := writePos + 1;
      if |entries| < capacity {
        entries := entries + [entry];
      } else {
        var idx := pos % capacity;
        if idx < |entries| {
          entries := entries[idx := entry];
        }
      }
      totalLogged := totalLogged + 1;
    }

    method Recent(limit: nat) returns (result: seq<T>)
      ensures result == Newest(Model(), limit)
    {
      var len := Min(|entries|, limit);
      var total := writePos;
      result := [];
      for i := 0 to len
        invariant result == Newest(Model(), limit)[..i]
      {
        var idx :=
          if total > 0 && total >= |entries| then (if total - 1 >= i then total - 1 - i else 0) % |entries|
          else |entries| - (1 + i);
        result := result + [entries[idx]];
      }
    }

    method Clear()
      modifies this
      ensures Model() == Empty(capacity) && totalLogged == old(totalLogged)
    {
      entries, writePos := [], 0;
    }
  }

  /** What the loop of `recent` reads, slot by slot. */
  function Newest<T>(r: Ring<T>, limit: nat): (result: seq<T>)
    ensures |result| == Min(|r.slots|, limit)
  {
    seq(Min(|r.slots|, limit), i requires 0 <= i < Min(|r.slots|, limit) =>
      if r.writePos > 0 && r.writePos >= |r.slots| then
        r.slots[(if r.writePos - 1 >= i then r.writePos - 1 - i else 0) % |r.slots|]
      else r.slots[|r.slots| - (1 + i)])
  }

  /** The last n entries of a log, newest first. */
  function LastReversed<T>(log: seq<T>, n: nat): seq<T>
    requires n <= |log|
  {
    seq(n, i requires 0 <= i < n => log[|log| - 1 - i])
  }

  /** Slot by slot, the loop walks the log backwards. */
  lemma NewestAt<T>(r: Ring<T>, log: seq<T>, limit: nat, i: nat)
    requires Holds(r, log) && i < Min(|r.slots|, limit)
    ensures Newest(r, limit)[i] == log[|log| - 1 - i]
  {
    SlotHolds(r, log, |log| - 1 - i);
    hide Holds;
  }

  /**
   After any history of logging and clearing, `recent(n)` is the newest-first list of the last
   min(n, capacity, entries since the last clear) entries.
   */
  lemma RecentIsTheLog<T>(capacity: nat, events: seq<Event<T>>, limit: nat)
    ensures var log := SinceClear(events);
            Newest(PlayAll(capacity, events), limit) == LastReversed(log, Min(limit, Min(capacity, |log|)))
  {
    EveryHistoryHolds(capacity, events);
    var r, log := PlayAll(capacity, events), SinceClear(events);
    var n := Min(limit, Min(capacity, |log|));
    assert Min(|r.slots|, limit) == n;
    forall i: nat | i < n ensures Newest(r, limit)[i] == LastReversed(log, n)[i] {
      NewestAt(r, log, limit, i);
    }
  }
}
