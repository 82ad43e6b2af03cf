/** The adaptive timeout: recent latencies, their nearest-rank percentile, and a clamped multiple of it. */
module Adaptive {
  import opened Basics
  import opened Rings

  datatype Config = Config(minTimeout: nat, maxTimeout: nat, multiplier: real, sampleSize: nat, initialTimeout: nat)

  // ----- sorting

  ghost predicate Sorted(s: seq<nat>) {
    forall i, j :: 0 <= i < j < |s| ==> s[i] <= s[j]
  }

  /** Put x before the first greater element. */
  method Place(s: seq<nat>, x: nat) returns (r: seq<nat>)
    requires Sorted(s)
    ensures Sorted(r) && multiset(r) == multiset(s) + multiset{x}
  {
    var k := 0;
    while k < |s| && s[k] <= x
      invariant k <= |s| && forall j :: 0 <= j < k ==> s[j] <= x
    {
      k := k + 1;
    }
    r := s[..k] + [x] + s[k..];
    PlacedIsSorted(s, k, x);
  }

  lemma PlacedIsSorted(s: seq<nat>, k: nat, x: nat)
    requires Sorted(s) && k <= |s| && (forall j :: 0 <= j < k ==> s[j] <= x) && (k < |s| ==> x <= s[k])
    ensures var r := s[..k] + [x] + s[k..]; Sorted(r) && multiset(r) == multiset(s) + multiset{x}
  {
    var r := s[..k] + [x] + s[k..];
    PlacedCounts(s, k, x);
    forall i, j | 0 <= i < j < |r| ensures r[i] <= r[j] {
      PlacedAt(s, k, x, i);
      PlacedAt(s, k, x, j);
    }
  }

  lemma PlacedAt(s: seq<nat>, k: nat, x: nat, i: nat)
    requires k <= |s| && i <= |s|
    ensures (s[..k] + [x] + s[k..])[i] == if i < k then s[i] else if i == k then x else s[i - 1]
  {
  }

  lemma PlacedCounts(s: seq<nat>, k: nat, x: nat)
    requires k <= |s|
    ensures multiset(s[..k] + [x] + s[k..]) == multiset(s) + multiset{x}
  {
    assert s == s[..k] + s[k..];
  }

  /** The library sort: some arrangement in order. */
  method Sort(s: seq<nat>) returns (r: seq<nat>)
    ensures Sorted(r) && multiset(r) == multiset(s)
  {
    r := [];
    assert s[..0] == [];
    for i := 0 to |s|
      invariant Sorted(r) && multiset(r) == multiset(s[..i])
    {
      assert s[..i + 1] == s[..i] + [s[i]];
      r := Place(r, s[i]);
    }
    assert s[..|s|] == s;
  }

  // ----- percentiles

  /** How many of the first elements are at most x (below x when strict). */
  ghost function Below(s: seq<nat>, x: nat, strict: bool): nat {
    if s == [] then 0
    else Below(s[..|s| - 1], x, strict) + (if s[|s| - 1] < x || (!strict && s[|s| - 1] == x) then 1 else 0)
  }

  lemma {:induction false} BelowDrop(s: seq<nat>, i: nat, x: nat, strict: bool)
    requires i < |s|
    ensures Below(s, x, strict) ==
            Below(s[..i] + s[i + 1..], x, strict) + (if s[i] < x || (!strict && s[i] == x) then 1 else 0)
    decreases |s|
  {
    var n := |s| - 1;
    if i < n {
      BelowDrop(s[..n], i, x, strict);
      var t := s[..i] + s[i + 1..];
      assert t[..|t| - 1] == s[..n][..i] + s[..n][i + 1..];
      assert t[|t| - 1] == s[n];
    } else {
      assert s[..i] + s[i + 1..] == s[..n];
    }
  }

  /** Counting does not depend on the order. */
  lemma {:induction false} BelowPermutes(a: seq<nat>, b: seq<nat>, x: nat, strict: bool)
    requires multiset(a) == multiset(b)
    ensures Below(a, x, strict) == Below(b, x, strict)
    decreases |a|
  {
    MultisetLength(a);
    MultisetLength(b);
    if a != [] {
      var v := a[|a| - 1];
      assert a == a[..|a| - 1] + [v];
      assert v in multiset(b);
      var i :| 0 <= i < |b| && b[i] == v;
      MultisetSplit(b, i);
      assert multiset(a) == multiset(a[..|a| - 1]) + multiset{v};
      assert multiset(b[..i] + b[i + 1..]) == multiset(b) - multiset{v};
      BelowPermutes(a[..|a| - 1], b[..i] + b[i + 1..], x, strict);
      BelowDrop(b, i, x, strict);
    }
  }

  lemma {:induction false} BelowAtLeast(s: seq<nat>, x: nat, n: nat)
    requires n <= |s| && forall i :: 0 <= i < n ==> s[i] <= x
    ensures Below(s, x, false) >= n
    decreases |s|
  {
    if n > 0 {
      BelowAtLeast(s[..|s| - 1], x, if n == |s| then n - 1 else n);
    }
  }

  lemma {:induction false} BelowAtMost(s: seq<nat>, x: nat, n: nat)
    requires n <= |s| && forall i :: n <= i < |s| ==> s[i] >= x
    ensures Below(s, x, true) <= n
    decreases |s|
  {
    if |s| > 0 {
      BelowAtMost(s[..|s| - 1], x, if n == |s| then n - 1 else n);
    }
  }

  /** ceil(len * percent / 100), then one less, kept inside the list. */
  function RankIndex(len: nat, percent: nat): nat
    requires len > 0
  {
    var ceiling := (len * percent + 99) / 100;
    Min(if ceiling > 0 then ceiling - 1 else 0, len - 1)
  }

  /** At least the given share of the samples is at most `value`, and less than that share is below it. */
  ghost predicate NearestRank(samples: seq<nat>, percent: nat, value: nat) {
    && 100 * Below(samples, value, false) >= percent * |samples|
    && 100 * Below(samples, value, true) < percent * |samples|
  }

  /** The element picked from any sorted arrangement is the nearest-rank percentile. */
  lemma PickedIsNearestRank(samples: seq<nat>, sorted: seq<nat>, percent: nat)
    requires samples != [] && Sorted(sorted) && multiset(sorted) == multiset(samples) && 1 <= percent <= 100
    ensures |sorted| == |samples| && RankIndex(|samples|, percent) < |sorted|
    ensures NearestRank(samples, percent, sorted[RankIndex(|samples|, percent)])
  {
    MultisetLength(samples);
    MultisetLength(sorted);
    var k := RankIndex(|samples|, percent);
    var value := sorted[k];
    RankBounds(|samples|, percent);
    BelowAtLeast(sorted, value, k + 1);
    BelowAtMost(sorted, value, k);
    BelowPermutes(sorted, samples, value, false);
    BelowPermutes(sorted, samples, value, true);
  }

  lemma RankBounds(len: nat, percent: nat)
    requires len > 0 && 1 <= percent <= 100
    ensures RankIndex(len, percent) < len
    ensures 100 * RankIndex(len, percent) < percent * len <= 100 * (RankIndex(len, percent) + 1)
  {
    var p := len * percent;
    assert p >= 1 && p <= 100 * len;
    var c := (p + 99) / 100;
    assert 100 * c <= p + 99 < 100 * c + 100;
  }

  /** Only one value can be the nearest-rank percentile of given samples. */
  lemma NearestRankUnique(samples: seq<nat>, percent: nat, a: nat, b: nat)
    requires NearestRank(samples, percent, a) && NearestRank(samples, percent, b)
    ensures a == b
  {
    if a < b {
      BelowMonotone(samples, a, b);
    } else if b < a {
      BelowMonotone(samples, b, a);
    }
  }

  lemma {:induction false} BelowMonotone(s: seq<nat>, a: nat, b: nat)
    requires a < b
    ensures Below(s, a, false) <= Below(s, b, true)
    decreases |s|
  {
    if s != [] {
      BelowMonotone(s[..|s| - 1], a, b);
    }
  }

  // ----- the timeout

  function Clamp(x: int, lo: nat, hi: nat): nat
    requires lo <= hi
  {
    if x < lo then lo else if x > hi then hi else x
  }

  /** The percentile times the multiplier, kept inside the bounds. */
  function TimeoutFor(cfg: Config, p99: nat): (timeout: nat)
    requires cfg.minTimeout <= cfg.maxTimeout
    ensures cfg.minTimeout <= timeout <= cfg.maxTimeout
  {
    Clamp((p99 as real * cfg.multiplier).Floor, cfg.minTimeout, cfg.maxTimeout)
  }

  /** The percentile times the multiplier, cut down to a whole number, or the bound it lies beyond. */
  ghost predicate Bounded(cfg: Config, p99: nat, timeout: nat)
    requires cfg.minTimeout <= cfg.maxTimeout
  {
    var product := p99 as real * cfg.multiplier;
    if product < cfg.minTimeout as real then timeout == cfg.minTimeout
    else if product > cfg.maxTimeout as real then timeout == cfg.maxTimeout
    else timeout as real <= product < (timeout + 1) as real
  }

  lemma TimeoutIsBounded(cfg: Config, p99: nat)
    requires cfg.minTimeout <= cfg.maxTimeout
    ensures Bounded(cfg, p99, TimeoutFor(cfg, p99))
  {
    FloorClamps(p99 as real * cfg.multiplier, cfg.minTimeout, cfg.maxTimeout);
  }

  lemma FloorClamps(product: real, lo: nat, hi: nat)
    requires lo <= hi
    ensures var t := Clamp(product.Floor, lo, hi);
            if product < lo as real then t == lo
            else if product > hi as real then t == hi
            else t as real <= product < (t + 1) as real
  {
    var whole := product.Floor;
    assert whole as real <= product < (whole + 1) as real;
  }

  /** The cached percentile and timeout that recalculation leaves, when there are samples. */
  ghost predicate Calculated(cfg: Config, samples: seq<nat>, p99: nat, timeout: nat)
    requires cfg.minTimeout <= cfg.maxTimeout
  {
    && NearestRank(samples, 99, p99)
    && Bounded(cfg, p99, timeout)
  }

  datatype State = State(ring: Ring<nat>, count: nat, p99: nat, timeout: nat)

  datatype Call = Record(latency: nat) | Recalculate | Reset

  function Initial(cfg: Config): State {
    State(Empty(cfg.sampleSize), 0, 0, cfg.initialTimeout)
  }

  /** Recalculated from the samples, or left alone when there are none. */
  ghost predicate Renewed(cfg: Config, a: State, b: State)
    requires cfg.minTimeout <= cfg.maxTimeout
  {
    if b.ring.slots == [] then b.p99 == a.p99 && b.timeout == a.timeout
    else Calculated(cfg, b.ring.slots, b.p99, b.timeout)
  }

  /** What one call does to the state. */
  ghost predicate Called(cfg: Config, a: State, call: Call, b: State)
    requires cfg.minTimeout <= cfg.maxTimeout
  {
    match call
    case Record(x) =>
      && b.ring == Push(a.ring, x) && b.count == a.count + 1
      && (if b.count % 10 == 0 then Renewed(cfg, a, b) else b.p99 == a.p99 && b.timeout == a.timeout)
    case Recalculate => b.ring == a.ring && b.count == a.count && Renewed(cfg, a, b)
    case Reset => b == Initial(cfg)
  }

  class AdaptiveTimeout {
    const cfg: Config
    var samples: seq<nat>
    var writePos: nat
    var sampleCount: nat
    var cachedP99: nat
    var currentTimeout: nat

    ghost function Model(): Ring<nat>
      reads this
    {
      Ring(cfg.sampleSize, samples, writePos)
    }

    ghost function Now(): State
      reads this
    {
      State(Model(), sampleCount, cachedP99, currentTimeout)
    }

    constructor (cfg: Config)
      ensures this.cfg == cfg && Now() == Initial(cfg)
    {
      this.cfg := cfg;
      samples, writePos, sampleCount, cachedP99, currentTimeout := [], 0, 0, 0, cfg.initialTimeout;
    }

    /** `clamp` panics unless the configured bounds are in order. */
    method Recalculate()
      requires cfg.minTimeout <= cfg.maxTimeout
      modifies this`cachedP99, this`currentTimeout
      ensures Called(cfg, old(Now()), Call.Recalculate, Now())
      ensures samples == [] ==> cachedP99 == old(cachedP99) && currentTimeout == old(currentTimeout)
      ensures samples != [] ==> Calculated(cfg, samples, cachedP99, currentTimeout)
      ensures samples != [] ==> cfg.minTimeout <= currentTimeout <= cfg.maxTimeout
    {
      hide NearestRank, TimeoutFor, Sorted, RankIndex, Bounded;
      if samples == [] {
        return;
      }
      var sorted := Sort(samples);
      PickedIsNearestRank(samples, sorted, 99);
      cachedP99 := sorted[RankIndex(|sorted|, 99)];
      currentTimeout := TimeoutFor(cfg, cachedP99);
      TimeoutIsBounded(cfg, cachedP99);
    }

    method Record(latency: nat)
      requires cfg.minTimeout <= cfg.maxTimeout
      modifies this
      ensures Called(cfg, old(Now()), Call.Record(latency), Now())
      ensures Model() == Push(old(Model()), latency) && sampleCount == old(sampleCount) + 1
      ensures sampleCount % 10 == 0 && samples != [] ==> Calculated(cfg, samples, cachedP99, currentTimeout)
      ensures sampleCount % 10 != 0 || samples == [] ==>
                cachedP99 == old(cachedP99) && currentTimeout == old(currentTimeout)
    {
      hide Calculated;
      var pos := writePos;
      writePos := writePos + 1;
      if |samples| < cfg.sampleSize {
        samples := samples + [latency];
      } else {
        var idx := if cfg.sampleSize == 0 then 0 else pos % cfg.sampleSize;
        if idx < |samples| && cfg.sampleSize > 0 {
          samples := samples[idx := latency];
        }
      }
      sampleCount := sampleCount + 1;
      if sampleCount % 10 == 0 {
        Recalculate();
      }
    }

    method Reset()
      modifies this
      ensures Now() == Initial(cfg)
    {
      samples, writePos, sampleCount, cachedP99, currentTimeout := [], 0, 0, 0, cfg.initialTimeout;
    }
  }

  /** The samples are, as a multiset, the last `sampleSize` latencies since the last reset. */
  lemma SamplesAreTheWindow(sampleSize: nat, events: seq<Event<nat>>)
    ensures multiset(PlayAll(sampleSize, events).slots) == multiset(Window(sampleSize, SinceClear(events)))
  {
    EveryHistoryHolds(sampleSize, events);
  }

  /** So the percentile depends on those latencies alone, whatever the ring's rotation. */
  lemma PercentileOfTheWindow(sampleSize: nat, events: seq<Event<nat>>, percent: nat, value: nat)
    ensures NearestRank(PlayAll(sampleSize, events).slots, percent, value) <==>
            NearestRank(Window(sampleSize, SinceClear(events)), percent, value)
  {
    EveryHistoryHolds(sampleSize, events);
    var a, b := PlayAll(sampleSize, events).slots, Window(sampleSize, SinceClear(events));
    BelowPermutes(a, b, value, false);
    BelowPermutes(a, b, value, true);
  }

  // ----- whole histories of calls

  /** The latencies recorded since the last reset. */
  ghost function Latencies(calls: seq<Call>): seq<nat> {
    if calls == [] then []
    else
      match calls[|calls| - 1]
      case Record(x) => Latencies(calls[..|calls| - 1]) + [x]
      case Recalculate => Latencies(calls[..|calls| - 1])
      case Reset => []
  }

  /** How many of them there were at the last recalculation, forced or by every tenth. */
  ghost function Marked(calls: seq<Call>): (m: nat)
    ensures m <= |Latencies(calls)|
  {
    if calls == [] then 0
    else
      match calls[|calls| - 1]
      case Record(_) => if |Latencies(calls)| % 10 == 0 then |Latencies(calls)| else Marked(calls[..|calls| - 1])
      case Recalculate => |Latencies(calls)|
      case Reset => 0
  }

  ghost predicate CachedFor(cfg: Config, w: seq<nat>, s: State)
    requires cfg.minTimeout <= cfg.maxTimeout
  {
    if w == [] then s.p99 == 0 && s.timeout == cfg.initialTimeout else Calculated(cfg, w, s.p99, s.timeout)
  }

  /** The ring holds the recent latencies; percentile and timeout are those of the window at the last recalculation. */
  ghost predicate Reflects(cfg: Config, calls: seq<Call>, s: State)
    requires cfg.minTimeout <= cfg.maxTimeout
  {
    var log := Latencies(calls);
    && s.ring.capacity == cfg.sampleSize && Holds(s.ring, log) && s.count == |log|
    && CachedFor(cfg, Window(cfg.sampleSize, log[..Marked(calls)]), s)
  }

  lemma CalculatedPermutes(cfg: Config, a: seq<nat>, b: seq<nat>, s: State)
    requires cfg.minTimeout <= cfg.maxTimeout && multiset(a) == multiset(b)
    ensures Calculated(cfg, a, s.p99, s.timeout) <==> Calculated(cfg, b, s.p99, s.timeout)
  {
    MultisetLength(a);
    MultisetLength(b);
    BelowPermutes(a, b, s.p99, false);
    BelowPermutes(a, b, s.p99, true);
  }

  /** Recalculating on a ring that holds the log caches its window's values. */
  lemma RenewedCaches(cfg: Config, a: State, b: State, log: seq<nat>, w: seq<nat>)
    requires cfg.minTimeout <= cfg.maxTimeout && Renewed(cfg, a, b)
    requires b.ring.capacity == cfg.sampleSize && Holds(b.ring, log)
    requires CachedFor(cfg, w, a) && (Window(cfg.sampleSize, log) == [] ==> w == [])
    ensures CachedFor(cfg, Window(cfg.sampleSize, log), b)
  {
    CalculatedPermutes(cfg, b.ring.slots, Window(cfg.sampleSize, log), b);
    hide Calculated;
  }

  lemma PushedCapacity(r: Ring<nat>, x: nat)
    ensures Push(r, x).capacity == r.capacity
  {
  }

  lemma CallReflects(cfg: Config, calls: seq<Call>, call: Call, a: State, b: State)
    requires cfg.minTimeout <= cfg.maxTimeout && Reflects(cfg, calls, a) && Called(cfg, a, call, b)
    ensures Reflects(cfg, calls + [call], b)
  {
    var log, next := Latencies(calls), Latencies(calls + [call]);
    var w := Window(cfg.sampleSize, log[..Marked(calls)]);
    assert (calls + [call])[..|calls|] == calls;
    assert next[..|next|] == next;
    hide Calculated, Push;
    match call
    case Record(x) =>
      PushKeeps(a.ring, log, x);
      PushedCapacity(a.ring, x);
      if b.count % 10 == 0 {
        RenewedCaches(cfg, a, b, next, w);
      } else {
        assert next[..Marked(calls)] == log[..Marked(calls)];
      }
    case Recalculate => RenewedCaches(cfg, a, b, next, w);
    case Reset =>
  }

  lemma InitialReflects(cfg: Config)
    requires cfg.minTimeout <= cfg.maxTimeout
    ensures Reflects(cfg, [], Initial(cfg))
  {
  }

  /**
   After any history of calls from construction on, whatever values the sorting produced on the way: the
   percentile and the timeout are those of the window at the last recalculation since the last reset.
   */
  lemma {:induction false} EveryHistoryReflected(cfg: Config, calls: seq<Call>, states: seq<State>, i: nat)
    requires cfg.minTimeout <= cfg.maxTimeout && |states| == |calls| + 1 && states[0] == Initial(cfg) && i <= |calls|
    requires forall k :: 0 <= k < |calls| ==> Called(cfg, states[k], calls[k], states[k + 1])
    ensures Reflects(cfg, calls[..i], states[i])
    decreases i
  {
    hide Called, Reflects;
    if i == 0 {
      InitialReflects(cfg);
      assert calls[..0] == [];
    } else {
      EveryHistoryReflected(cfg, calls, states, i - 1);
      CallReflects(cfg, calls[..i - 1], calls[i - 1], states[i - 1], states[i]);
      assert calls[..i] == calls[..i - 1] + [calls[i - 1]];
    }
  }
}
