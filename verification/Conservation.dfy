/** Every entry that leaves the store is accounted for, once. */
module Conservation {
  import opened Basics
  import opened Store
  import opened Eviction

  /** Live entries, evictions counted in `total`, and integrity evictions. */
  function Balance(s: Store): nat {
    |s.entries| + s.stats.total + s.stats.integrityFailures
  }

  /** How many hashes that were not live an operation stores. */
  ghost function Admitted(s: Store, op: Op): nat {
    match op
    case OpInsert(q, _, u, _, _, vs) => Fresh(LimitUpstream(s, u, vs), HashQuery(s.cfg, q))
    case OpInsertByHash(h, _, u, _, _, vs) => Fresh(LimitUpstream(s, u, vs), h)
    case OpWarmup(items, u, now) => WarmupAdmitted(s, items, u, now)
    case OpRestore(items) => RestoreAdmitted(s, items)
    case _ => 0
  }

  function Fresh(s: Store, h: QueryHash): nat {
    if h in s.entries then 0 else 1
  }

  ghost function WarmupAdmitted(s: Store, items: seq<(string, Option<Response>)>, upstream: string, now: int): nat
    decreases |items|
  {
    if items == [] then 0
    else if items[0].1.None? then WarmupAdmitted(s, items[1..], upstream, now)
    else if |s.entries| >= s.maxEntries then 0
    else
      var h := HashQuery(s.cfg, items[0].0);
      var e := NewEntry(items[0].1.value, upstream, "default", Some(items[0].0), now);
      Fresh(s, h) + WarmupAdmitted(Put(s, h, e, None), items[1..], upstream, now)
  }

  ghost function RestoreAdmitted(s: Store, items: seq<(QueryHash, Entry)>): nat
    decreases |items|
  {
    if items == [] || |s.entries| >= s.maxEntries then 0
    else Fresh(s, items[0].0) + RestoreAdmitted(RestoreOne(s, items[0].0, items[0].1), items[1..])
  }

  /** How many entries an operation removes without counting an eviction. */
  ghost function Uncounted(s: Store, op: Op): nat {
    match op
    case OpRemove(q) => if HashQuery(s.cfg, q) in s.entries then 1 else 0
    case OpEvict(hs, reason) => if reason == Corrupted then Lost(s, RemoveAll(s, hs)) else 0
    case _ => 0
  }

  /** Operations that empty the store wholesale. */
  ghost predicate Wipes(op: Op) {
    op.OpClear? || op.OpFingerprint?
  }

  // ----- evictions are counted exactly once

  ghost predicate SameCounts(a: Stats, b: Stats) {
    a.(promotions := 0) == b.(promotions := 0)
  }

  lemma EvictOneCounts(s: Store)
    ensures var r := EvictOne(s);
            && |r.store.entries| == |s.entries| - (if r.source.Some? then 1 else 0)
            && SameCounts(r.store.stats, s.stats)
  {
    ScanShrinks(s.entries, s.small, s.main);
    var o := Scan(s.entries, s.small, s.main);
    assert |o.entries| == |o.entries.Keys| && |s.entries| == |s.entries.Keys|;
  }

  lemma {:induction false} EvictWhileCounts(s: Store, p: Pressure)
    ensures var d := EvictWhile(s, p);
            |d.store.entries| + d.fromSmall + d.fromMain == |s.entries| && SameCounts(d.store.stats, s.stats)
    decreases Nodes(s)
  {
    hide EvictOne;
    if Over(s, p) {
      EvictOneCounts(s);
      if EvictOne(s).source.Some? {
        EvictWhileCounts(EvictOne(s).store, p);
      }
    }
  }

  lemma ShrinkCounts(s: Store)
    ensures var d := Shrink(s);
            |d.store.entries| + d.fromSmall + d.fromMain == |s.entries| && SameCounts(d.store.stats, s.stats)
  {
    EvictWhileCounts(s, Count);
    EvictWhileCounts(EvictWhile(s, Count).store, Memory);
  }

  lemma AdmitBalances(s: Store, h: QueryHash)
    ensures Balance(Admit(s, h)) == Balance(s)
  {
    ShrinkCounts(Enqueue(s, h));
  }

  lemma StoreGrows(s: Store, h: QueryHash, e: Entry)
    ensures Balance(TrackedInsert(s, h, e)) == Balance(s) + Fresh(s, h)
  {
    var m := s.entries[h := e];
    assert m.Keys == s.entries.Keys + {h};
    assert |m| == |m.Keys| && |s.entries| == |s.entries.Keys|;
  }

  lemma PutBalances(s: Store, h: QueryHash, e: Entry, exact: Option<QueryHash>)
    ensures Balance(Put(s, h, e, exact)) == Balance(s) + Fresh(s, h)
  {
    StoreGrows(s, h, e);
    AdmitBalances(Stored(s, h, e, exact), h);
  }

  lemma {:induction false} RemoveAllLoses(s: Store, hs: seq<QueryHash>)
    ensures |RemoveAll(s, hs).entries| <= |s.entries| && RemoveAll(s, hs).stats == s.stats
    decreases |hs|
  {
    if hs != [] {
      RemoveAllLoses(s, hs[..|hs| - 1]);
      RemoveOneLoses(RemoveAll(s, hs[..|hs| - 1]), hs[|hs| - 1]);
    }
  }

  lemma RemoveOneLoses(s: Store, h: QueryHash)
    ensures |TrackedRemove(s, h).entries| == |s.entries| - (if h in s.entries then 1 else 0)
  {
    if h in s.entries {
      var m := s.entries - {h};
      assert m.Keys == s.entries.Keys - {h};
      assert |m| == |m.Keys| && |s.entries| == |s.entries.Keys|;
    }
  }

  lemma EvictBalances(s: Store, hs: seq<QueryHash>, reason: Reason)
    ensures Balance(Evict(s, hs, reason)) + (if reason == Corrupted then Lost(s, RemoveAll(s, hs)) else 0) == Balance(s)
  {
    RemoveAllLoses(s, hs);
  }

  lemma {:induction false} WarmupBalances(s: Store, items: seq<(string, Option<Response>)>, upstream: string, now: int)
    ensures Balance(Warmup(s, items, upstream, now)) == Balance(s) + WarmupAdmitted(s, items, upstream, now)
    decreases |items|
  {
    if items != [] {
      if items[0].1.None? {
        WarmupBalances(s, items[1..], upstream, now);
      } else if |s.entries| < s.maxEntries {
        var h := HashQuery(s.cfg, items[0].0);
        var e := NewEntry(items[0].1.value, upstream, "default", Some(items[0].0), now);
        PutBalances(s, h, e, None);
        WarmupBalances(Put(s, h, e, None), items[1..], upstream, now);
      }
    }
  }

  lemma {:induction false} RestoreBalances(s: Store, items: seq<(QueryHash, Entry)>)
    ensures Balance(Restore(s, items)) == Balance(s) + RestoreAdmitted(s, items)
    decreases |items|
  {
    if items != [] && |s.entries| < s.maxEntries {
      var e := items[0].1.(freq := 0);
      StoreGrows(s, items[0].0, e);
      AdmitBalances(TrackedInsert(s, items[0].0, e), items[0].0);
      RestoreBalances(RestoreOne(s, items[0].0, items[0].1), items[1..]);
    }
  }

  lemma {:induction false} EvictTimesCounts(s: Store, n: nat)
    ensures |EvictTimes(s, n).entries| <= |s.entries| && SameCounts(EvictTimes(s, n).stats, s.stats)
    decreases n
  {
    hide EvictOne;
    if n != 0 && !(s.small == [] && s.main == []) {
      EvictOneCounts(s);
      EvictTimesCounts(EvictOne(s).store, n - 1);
    }
  }

  lemma EvictSmartBalances(s: Store, expired: seq<QueryHash>, target: nat)
    ensures Balance(EvictSmart(s, expired, target)) == Balance(s)
  {
    RemoveAllLoses(s, if |expired| <= target then expired else expired[..target]);
    var t := SmartExpired(s, expired, target);
    EvictTimesCounts(t, Remaining(target, Lost(s, t)));
  }

  lemma BumpSize(s: Store, h: QueryHash)
    ensures h in s.entries ==> |Bump(s, h).entries| == |s.entries|
  {
    if h in s.entries {
      var m := Bump(s, h).entries;
      assert m.Keys == s.entries.Keys && |m| == |m.Keys| && |s.entries| == |s.entries.Keys|;
    }
  }

  lemma GetVerifiedBalances(s: Store, query: string)
    ensures Balance(GetVerified(s, query)) == Balance(s)
  {
    var h := HashQuery(s.cfg, query);
    RemoveOneLoses(s, h);
    BumpSize(s, h);
  }

  lemma LookupsBalance(s: Store, op: Op)
    requires op.OpGet? || op.OpGetVerified? || op.OpGetByHash? || op.OpExtendTtl?
    ensures Balance(Step(s, op)) == Balance(s)
  {
    hide GetVerified;
    match op
    case OpGet(q) => if Found(s, q).Some? { BumpSize(s, Found(s, q).value); }
    case OpGetVerified(q) => GetVerifiedBalances(s, q);
    case OpGetByHash(h) => BumpSize(s, h);
    case OpExtendTtl(q, now) => assert ExtendTtl(s, q, now).entries.Keys == s.entries.Keys;
  }

  lemma InsertsBalance(s: Store, op: Op)
    requires op.OpInsert? || op.OpInsertByHash?
    ensures Balance(Step(s, op)) == Balance(s) + Admitted(s, op)
  {
    EvictBalances(s, op.victims, Oldest);
    var t := LimitUpstream(s, op.upstream, op.victims);
    match op
    case OpInsert(q, r, u, c, now, vs) =>
      PutBalances(t, HashQuery(s.cfg, q), NewEntry(r, u, c, Some(q), now), Some(HashExact(q)));
    case OpInsertByHash(h, r, u, k, now, vs) =>
      PutBalances(t, h, NewEntry(r, u, "default", k, now), None);
  }

  lemma RemoveBalances(s: Store, query: string)
    ensures Balance(Remove(s, query)) + (if HashQuery(s.cfg, query) in s.entries then 1 else 0) == Balance(s)
  {
    RemoveOneLoses(s, HashQuery(s.cfg, query));
  }

  lemma EnforceBalances(s: Store)
    ensures Balance(EnforceMemory(s)) == Balance(s)
  {
    hide EvictWhile;
    EvictWhileCounts(s, Memory);
  }

  lemma StepBalances(s: Store, op: Op)
    requires !Wipes(op)
    ensures Balance(Step(s, op)) + Uncounted(s, op) == Balance(s) + Admitted(s, op)
  {
    hide EvictSmart, Warmup, Restore, EnforceMemory, Evict, Remove, WarmupAdmitted, RestoreAdmitted;
    if op.OpGet? || op.OpGetVerified? || op.OpGetByHash? || op.OpExtendTtl? {
      LookupsBalance(s, op);
    } else if op.OpInsert? || op.OpInsertByHash? {
      InsertsBalance(s, op);
    } else {
      match op
      case OpWarmup(items, u, now) => WarmupBalances(s, items, u, now);
      case OpRestore(items) => RestoreBalances(s, items);
      case OpRemove(q) => RemoveBalances(s, q);
      case OpEnforceMemory => EnforceBalances(s);
      case OpEvictSmart(expired, target) => EvictSmartBalances(s, expired, target);
      case OpEvict(hs, reason) => EvictBalances(s, hs, reason);
      case _ =>
    }
  }

  ghost function RunAdmitted(s: Store, ops: seq<Op>): nat
    decreases |ops|
  {
    if ops == [] then 0 else Admitted(s, ops[0]) + RunAdmitted(Step(s, ops[0]), ops[1..])
  }

  ghost function RunUncounted(s: Store, ops: seq<Op>): nat
    decreases |ops|
  {
    if ops == [] then 0 else Uncounted(s, ops[0]) + RunUncounted(Step(s, ops[0]), ops[1..])
  }

  /**
   Between wipes: entries at the start plus new hashes stored equals live entries
   plus the growth of `total`, integrity evictions, and explicit and corrupted removals.
   */
  lemma {:induction false} RunConserves(s: Store, ops: seq<Op>)
    requires forall i :: 0 <= i < |ops| ==> !Wipes(ops[i])
    ensures Balance(Run(s, ops)) + RunUncounted(s, ops) == Balance(s) + RunAdmitted(s, ops)
    decreases |ops|
  {
    if ops != [] {
      StepBalances(s, ops[0]);
      RunConserves(Step(s, ops[0]), ops[1..]);
    }
  }
}
