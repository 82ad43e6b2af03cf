/** What the memory cap guarantees on admission, and over runs. */
module Memory {
  import opened Basics
  import opened Store
  import opened Invariants

  // ----- admission

  /** With `h` cold and everything else within the cap, the pressure loop cannot give up early. */
  lemma {:induction false} PressureLoopSucceeds(s: Store, h: QueryHash)
    requires Sound(s)
    requires h in s.entries ==> s.entries[h].freq == 0
    requires Total(Sizes(s.entries - {h})) <= s.maxMemory
    ensures EvictWhile(s, Memory).store.bytes <= s.maxMemory
    decreases Nodes(s)
  {
    hide EvictOne;
    if Over(s, Memory) {
      assert h in s.entries by {
        assert h !in s.entries ==> s.entries - {h} == s.entries;
      }
      ColdNodeYields(s, h);
      EvictOneKeeps(s);
      var t := EvictOne(s).store;
      TotalRestrict(Sizes(s.entries - {h}), Sizes(t.entries - {h}));
      PressureLoopSucceeds(t, h);
    }
  }

  lemma ShrinkWithinMemory(s: Store, h: QueryHash)
    requires Sound(s) && h in s.entries && s.entries[h].freq == 0
    requires s.maxMemory > 0
    requires Total(Sizes(s.entries - {h})) <= s.maxMemory
    ensures Shrink(s).store.bytes <= s.maxMemory
  {
    var a := EvictWhile(s, Count).store;
    EvictWhileKeeps(s, Count);
    TotalRestrict(Sizes(s.entries - {h}), Sizes(a.entries - {h}));
    PressureLoopSucceeds(a, h);
  }

  /** A new hash never leaves the store above the cap, if the store was within it. */
  lemma NewKeyWithinMemory(s: Store, h: QueryHash, e: Entry, exact: Option<QueryHash>)
    requires Inv(s) && e.freq == 0 && h !in s.entries
    requires 0 < s.maxMemory && s.bytes <= s.maxMemory
    ensures Put(s, h, e, exact).bytes <= s.maxMemory
  {
    var u := Stored(s, h, e, exact);
    StoredIsPending(s, h, e, exact);
    EnqueueKeeps(u, h);
    assert u.entries - {h} == s.entries;
    ShrinkWithinMemory(Enqueue(u, h), h);
  }

  /** Replacing a live hash moves the counter by exactly the growth of the entry, past the cap or not. */
  lemma UpdateMovesByGrowth(s: Store, h: QueryHash, e: Entry, exact: Option<QueryHash>)
    requires h in s.entries
    ensures Put(s, h, e, exact).bytes == s.bytes + e.size - s.entries[h].size
  {
  }

  /** Evicting the oldest entry of an upstream first can only help. */
  lemma LimitLowersBytes(s: Store, upstream: string, victims: seq<QueryHash>)
    requires Inv(s)
    ensures LimitUpstream(s, upstream, victims).bytes <= s.bytes
    ensures LimitUpstream(s, upstream, victims).maxMemory == s.maxMemory
  {
    RemoveAllLowersBytes(s, victims);
  }

  lemma {:induction false} RemoveAllLowersBytes(s: Store, hs: seq<QueryHash>)
    ensures RemoveAll(s, hs).bytes <= s.bytes && RemoveAll(s, hs).maxMemory == s.maxMemory
    decreases |hs|
  {
    if hs != [] {
      RemoveAllLowersBytes(s, hs[..|hs| - 1]);
    }
  }

  /** `insert`: within the cap before, and the key new, means within the cap after. */
  lemma InsertWithinMemory(s: Store, query: string, r: Response, upstream: string, context: string, now: int,
                           victims: seq<QueryHash>)
    requires Inv(s) && 0 < s.maxMemory && s.bytes <= s.maxMemory
    requires HashQuery(s.cfg, query) !in LimitUpstream(s, upstream, victims).entries
    ensures Insert(s, query, r, upstream, context, now, victims).bytes <= s.maxMemory
  {
    LimitUpstreamKeeps(s, upstream, victims);
    LimitLowersBytes(s, upstream, victims);
    NewKeyWithinMemory(LimitUpstream(s, upstream, victims), HashQuery(s.cfg, query),
                       NewEntry(r, upstream, context, Some(query), now), Some(HashExact(query)));
  }

  /**
   An insertion leaves the store above its cap exactly when its key is still live after the
   upstream limit and the entry grows by more than the room left. Nothing is evicted for an update.
   */
  lemma InsertExceedsCapIff(s: Store, query: string, r: Response, upstream: string, context: string, now: int,
                            victims: seq<QueryHash>)
    requires Inv(s) && 0 < s.maxMemory && s.bytes <= s.maxMemory
    ensures var t, h := LimitUpstream(s, upstream, victims), HashQuery(s.cfg, query);
            Insert(s, query, r, upstream, context, now, victims).bytes > s.maxMemory <==>
            h in t.entries && r.size - t.entries[h].size > s.maxMemory - t.bytes
  {
    var t, h := LimitUpstream(s, upstream, victims), HashQuery(s.cfg, query);
    if h in t.entries {
      LimitLowersBytes(s, upstream, victims);
      UpdateMovesByGrowth(t, h, NewEntry(r, upstream, context, Some(query), now), Some(HashExact(query)));
    } else {
      InsertWithinMemory(s, query, r, upstream, context, now, victims);
    }
  }

  lemma FirstInsertFits(normalize: string -> string, query: string)
    ensures var s := Step(NewStore(normalize, false, 10, 2), OpInsert(query, Response(0, 1), "u", "c", 0, []));
            && s.entries == map[HashQuery(s.cfg, query) := NewEntry(Response(0, 1), "u", "c", Some(query), 0)]
            && s.bytes == 1 && s.maxMemory == 2 && s.cfg.normalize == normalize && s.perUpstreamLimit == None
  {
    var s0 := NewStore(normalize, false, 10, 2);
    var h, e := HashQuery(s0.cfg, query), NewEntry(Response(0, 1), "u", "c", Some(query), 0);
    var w := Enqueue(Stored(s0, h, e, Some(HashExact(query))), h);
    assert EvictWhile(w, Count) == Drained(w, 0, 0) && EvictWhile(w, Memory) == Drained(w, 0, 0);
  }

  /** A run that ends above its cap: an entry of one byte under a cap of two, replaced by one of three. */
  lemma UpdateExceedsCapIsReachable(normalize: string -> string, query: string)
    ensures var ops := [OpInsert(query, Response(0, 1), "u", "c", 0, []),
                        OpInsert(query, Response(0, 3), "u", "c", 0, [])];
            var s := Run(NewStore(normalize, false, 10, 2), ops);
            Inv(s) && s.maxMemory == 2 && s.bytes > s.maxMemory
  {
    var a, b := OpInsert(query, Response(0, 1), "u", "c", 0, []), OpInsert(query, Response(0, 3), "u", "c", 0, []);
    var s0 := NewStore(normalize, false, 10, 2);
    NewStoreInv(normalize, false, 10, 2);
    RunKeepsInv(s0, [a, b]);
    hide Insert, Inv;
    var s1 := Step(s0, a);
    var s2 := Step(s1, b);
    assert Run(s0, [a, b]) == s2 by {
      assert [a, b][1..] == [b] && [b][1..] == [];
      assert Run(s2, []) == s2 && Run(s1, [b]) == s2;
    }
    StepKeepsInv(s0, a);
    StepKeepsInv(s1, b);
    FirstInsertFits(normalize, query);
    InsertExceedsCapIff(s1, query, Response(0, 3), "u", "c", 0, []);
  }

  // ----- bulk loads

  /** Restoring admits every hash it stores, live or not, and so never ends above the cap. */
  lemma {:induction false} RestoreWithinMemory(s: Store, items: seq<(QueryHash, Entry)>)
    requires Inv(s) && 0 < s.maxMemory && s.bytes <= s.maxMemory
    ensures Restore(s, items).bytes <= s.maxMemory
    decreases |items|
  {
    if items != [] && |s.entries| < s.maxEntries {
      hide RestoreOne, Inv;
      RestoreOneFits(s, items[0].0, items[0].1);
      RestoreWithinMemory(RestoreOne(s, items[0].0, items[0].1), items[1..]);
    }
  }

  lemma RestoreOneFits(s: Store, h: QueryHash, e: Entry)
    requires Inv(s) && 0 < s.maxMemory && s.bytes <= s.maxMemory
    ensures Kept(s, RestoreOne(s, h, e)) && RestoreOne(s, h, e).bytes <= s.maxMemory
  {
    var u := TrackedInsert(s, h, e.(freq := 0));
    StoredIsPending(s, h, e.(freq := 0), None);
    AdmitKeeps(u, h);
    OthersFit(s, h, e.(freq := 0));
    hide Shrink, Inv, Kept, Pending;
    PendingFits(u, h);
  }

  lemma OthersFit(s: Store, h: QueryHash, e: Entry)
    requires BytesExact(s)
    ensures Total(Sizes(TrackedInsert(s, h, e).entries - {h})) <= s.bytes
  {
    assert TrackedInsert(s, h, e).entries - {h} == s.entries - {h};
    TotalRestrict(Sizes(s.entries), Sizes(s.entries - {h}));
  }

  lemma PendingFits(u: Store, h: QueryHash)
    requires Pending(u, h) && 0 < u.maxMemory && Total(Sizes(u.entries - {h})) <= u.maxMemory
    ensures Admit(u, h).bytes <= u.maxMemory
  {
    EnqueueKeeps(u, h);
    hide Shrink, Pending, Sound;
    ShrinkWithinMemory(Enqueue(u, h), h);
  }

  /** No item that is stored replaces a live entry by a larger one. */
  ghost predicate ModestWarmup(s: Store, items: seq<(string, Option<Response>)>, upstream: string, now: int)
    decreases |items|
  {
    if items == [] then true
    else if items[0].1.None? then ModestWarmup(s, items[1..], upstream, now)
    else if |s.entries| >= s.maxEntries then true
    else
      var h, r := HashQuery(s.cfg, items[0].0), items[0].1.value;
      && FitsOver(s, h, r)
      && ModestWarmup(Put(s, h, NewEntry(r, upstream, "default", Some(items[0].0), now), None), items[1..],
           upstream, now)
  }

  lemma {:induction false} WarmupWithinMemory(s: Store, items: seq<(string, Option<Response>)>, upstream: string,
                                              now: int)
    requires Inv(s) && 0 < s.maxMemory && s.bytes <= s.maxMemory && ModestWarmup(s, items, upstream, now)
    ensures Warmup(s, items, upstream, now).bytes <= s.maxMemory
    decreases |items|
  {
    hide Put, Inv;
    if items != [] {
      if items[0].1.None? {
        WarmupWithinMemory(s, items[1..], upstream, now);
      } else if |s.entries| < s.maxEntries {
        var h, e := HashQuery(s.cfg, items[0].0),
            NewEntry(items[0].1.value, upstream, "default", Some(items[0].0), now);
        PutKeeps(s, h, e, None);
        PutFits(s, h, e, None);
        WarmupWithinMemory(Put(s, h, e, None), items[1..], upstream, now);
      }
    }
  }

  // ----- runs within the cap

  /** Anything but moving the cap or replacing a live entry by a larger one. */
  ghost predicate Modest(s: Store, op: Op) {
    match op
    case OpInsert(q, r, u, _, _, vs) => FitsOver(LimitUpstream(s, u, vs), HashQuery(s.cfg, q), r)
    case OpInsertByHash(h, r, u, _, _, vs) => FitsOver(LimitUpstream(s, u, vs), h, r)
    case OpWarmup(items, u, now) => ModestWarmup(s, items, u, now)
    case OpSetMaxMemory(_) => false
    case _ => true
  }

  ghost predicate FitsOver(s: Store, h: QueryHash, r: Response) {
    h in s.entries ==> r.size <= s.entries[h].size
  }

  lemma ModestInsertFits(s: Store, op: Op)
    requires Inv(s) && 0 < s.maxMemory && s.bytes <= s.maxMemory && Modest(s, op) &&
             (op.OpInsert? || op.OpInsertByHash?)
    ensures Step(s, op).bytes <= s.maxMemory
  {
    LimitUpstreamKeeps(s, op.upstream, op.victims);
    LimitLowersBytes(s, op.upstream, op.victims);
    var t := LimitUpstream(s, op.upstream, op.victims);
    match op
    case OpInsert(q, r, u, c, now, _) =>
      PutFits(t, HashQuery(s.cfg, q), NewEntry(r, u, c, Some(q), now), Some(HashExact(q)));
    case OpInsertByHash(h, r, u, k, now, _) =>
      PutFits(t, h, NewEntry(r, u, "default", k, now), None);
  }

  lemma PutFits(s: Store, h: QueryHash, e: Entry, exact: Option<QueryHash>)
    requires Inv(s) && e.freq == 0 && 0 < s.maxMemory && s.bytes <= s.maxMemory
    requires h in s.entries ==> e.size <= s.entries[h].size
    ensures Put(s, h, e, exact).bytes <= s.maxMemory
  {
    if h in s.entries {
      UpdateMovesByGrowth(s, h, e, exact);
    } else {
      NewKeyWithinMemory(s, h, e, exact);
    }
  }

  lemma FewerEntriesFewerBytes(s: Store, t: Store)
    requires BytesExact(s) && BytesExact(t) && Shrunk(s, t)
    ensures t.bytes <= s.bytes
  {
    TotalRestrict(Sizes(s.entries), Sizes(t.entries));
  }

  lemma SoundBytes(s: Store)
    requires Sound(s)
    ensures BytesExact(s)
  {
  }

  lemma {:induction false} EvictTimesLowersBytes(s: Store, n: nat)
    requires Sound(s)
    ensures EvictTimes(s, n).bytes <= s.bytes
    decreases n
  {
    hide EvictOne, Sound;
    if n != 0 && !(s.small == [] && s.main == []) {
      EvictOneKeeps(s);
      SoundBytes(s);
      SoundBytes(EvictOne(s).store);
      FewerEntriesFewerBytes(s, EvictOne(s).store);
      EvictTimesLowersBytes(EvictOne(s).store, n - 1);
    }
  }

  lemma EvictionsLowerBytes(s: Store, op: Op)
    requires Inv(s) && (op.OpEnforceMemory? || op.OpEvictSmart? || op.OpEvict?)
    ensures Step(s, op).bytes <= s.bytes
  {
    hide EvictSmart, EnforceMemory, RemoveAll, Inv;
    match op
    case OpEnforceMemory => EnforceLowersBytes(s);
    case OpEvictSmart(expired, target) => EvictSmartLowersBytes(s, expired, target);
    case OpEvict(hs, _) => RemoveAllLowersBytes(s, hs);
  }

  lemma EnforceLowersBytes(s: Store)
    requires Inv(s)
    ensures EnforceMemory(s).bytes <= s.bytes
  {
    hide EvictWhile;
    EvictWhileKeeps(s, Memory);
    FewerEntriesFewerBytes(s, EvictWhile(s, Memory).store);
  }

  lemma EvictSmartLowersBytes(s: Store, expired: seq<QueryHash>, target: nat)
    requires Inv(s)
    ensures EvictSmart(s, expired, target).bytes <= s.bytes
  {
    hide RemoveAll, EvictTimes;
    var hs := if |expired| <= target then expired else expired[..target];
    RemoveAllLowersBytes(s, hs);
    RemoveAllKeeps(s, hs);
    var t := SmartExpired(s, expired, target);
    EvictTimesLowersBytes(t, Remaining(target, Lost(s, t)));
  }

  lemma ModestStepFits(s: Store, op: Op)
    requires Inv(s) && 0 < s.maxMemory && s.bytes <= s.maxMemory && Modest(s, op)
    ensures Step(s, op).bytes <= s.maxMemory
  {
    if op.OpInsert? || op.OpInsertByHash? {
      ModestInsertFits(s, op);
    } else if op.OpEnforceMemory? || op.OpEvictSmart? || op.OpEvict? {
      EvictionsLowerBytes(s, op);
    } else if op.OpWarmup? {
      WarmupWithinMemory(s, op.items, op.upstream, op.now);
    } else if op.OpRestore? {
      RestoreWithinMemory(s, op.persisted);
    }
  }

  ghost predicate ModestRun(s: Store, ops: seq<Op>)
    decreases |ops|
  {
    ops == [] || (Modest(s, ops[0]) && ModestRun(Step(s, ops[0]), ops[1..]))
  }

  /** A store within its cap stays within it on every run that never replaces an entry by a larger one. */
  lemma {:induction false} ModestRunsFit(s: Store, ops: seq<Op>)
    requires Inv(s) && 0 < s.maxMemory && s.bytes <= s.maxMemory && ModestRun(s, ops)
    ensures Run(s, ops).bytes <= s.maxMemory
    decreases |ops|
  {
    if ops != [] {
      ModestStepFits(s, ops[0]);
      StepKeepsInv(s, ops[0]);
      MemoryCapStays(s, ops[0]);
      ModestRunsFit(Step(s, ops[0]), ops[1..]);
    }
  }

  lemma MemoryCapStays(s: Store, op: Op)
    requires Inv(s) && !op.OpSetMaxMemory?
    ensures Step(s, op).maxMemory == s.maxMemory
  {
    if !SetsLimit(op) {
      StepKeepsInv(s, op);
    }
  }
}
