/** Normalized matching changes how a lookup finds its entry, never which entry it finds. */
module TwoTier {
  import opened Basics
  import opened Store

  /** The same store without the spelling table: what it would be with normalized matching off. */
  ghost function Erase(s: Store): Store {
    s.(cfg := s.cfg.(normalizedMatching := false),
       exactToNormalized := map[],
       exactHits := s.exactHits + s.normalizedHits,
       normalizedHits := 0)
  }

  /** Every recorded spelling maps to the hash of its normal form. */
  ghost predicate MappingsExact(s: Store) {
    forall x :: x in s.exactToNormalized ==> s.exactToNormalized[x] == HashQuery(s.cfg, x.preimage)
  }

  ghost predicate SameHits(s: Store, t: Store) {
    t.exactHits == s.exactHits && t.normalizedHits == s.normalizedHits
  }

  /** The entry a lookup of `query` returns, as it stands after the lookup. */
  ghost function Answer(s: Store, query: string): Option<Entry> {
    var f := Found(s, query);
    if f.None? then None else Some(Bump(s, f.value).entries[f.value])
  }

  lemma GetSimulates(s: Store, query: string)
    requires MappingsExact(s)
    ensures Answer(s, query) == Answer(Erase(s), query)
    ensures Erase(Get(s, query)) == Get(Erase(s), query)
    ensures MappingsExact(Get(s, query))
    ensures var t := Get(s, query);
            t.exactHits + t.normalizedHits == s.exactHits + s.normalizedHits + (if Answer(s, query).Some? then 1 else 0)
  {
  }

  // ----- the rest of the store never reads the spelling table

  lemma RemoveErases(s: Store, h: QueryHash)
    ensures Erase(TrackedRemove(s, h)) == TrackedRemove(Erase(s), h)
    ensures MappingsExact(s) ==> MappingsExact(TrackedRemove(s, h))
    ensures SameHits(s, TrackedRemove(s, h))
  {
  }

  lemma EvictOneErases(s: Store)
    ensures Erase(EvictOne(s).store) == EvictOne(Erase(s)).store
    ensures EvictOne(s).source == EvictOne(Erase(s)).source
    ensures MappingsExact(s) ==> MappingsExact(EvictOne(s).store)
    ensures SameHits(s, EvictOne(s).store)
  {
  }

  lemma {:induction false} EvictWhileErases(s: Store, p: Pressure)
    ensures Erase(EvictWhile(s, p).store) == EvictWhile(Erase(s), p).store
    ensures EvictWhile(s, p).fromSmall == EvictWhile(Erase(s), p).fromSmall
    ensures EvictWhile(s, p).fromMain == EvictWhile(Erase(s), p).fromMain
    ensures MappingsExact(s) ==> MappingsExact(EvictWhile(s, p).store)
    ensures SameHits(s, EvictWhile(s, p).store)
    decreases Nodes(s)
  {
    hide EvictOne;
    if Over(s, p) {
      EvictOneErases(s);
      if EvictOne(s).source.Some? {
        EvictWhileErases(EvictOne(s).store, p);
      }
    }
  }

  lemma ShrinkErases(s: Store)
    ensures Erase(Shrink(s).store) == Shrink(Erase(s)).store
    ensures Shrink(s).fromSmall == Shrink(Erase(s)).fromSmall && Shrink(s).fromMain == Shrink(Erase(s)).fromMain
    ensures MappingsExact(s) ==> MappingsExact(Shrink(s).store)
    ensures SameHits(s, Shrink(s).store)
  {
    EvictWhileErases(s, Count);
    EvictWhileErases(EvictWhile(s, Count).store, Memory);
  }

  lemma AdmitErases(s: Store, h: QueryHash)
    ensures Erase(Admit(s, h)) == Admit(Erase(s), h)
    ensures MappingsExact(s) ==> MappingsExact(Admit(s, h))
    ensures SameHits(s, Admit(s, h))
  {
    hide Shrink;
    ShrinkErases(Enqueue(s, h));
    assert Erase(Enqueue(s, h)) == Enqueue(Erase(s), h);
  }

  lemma StoredErases(s: Store, h: QueryHash, e: Entry, exact: Option<QueryHash>)
    requires exact.Some? ==> h == HashQuery(s.cfg, exact.value.preimage)
    ensures Erase(Stored(s, h, e, exact)) == Stored(Erase(s), h, e, exact)
    ensures MappingsExact(s) ==> MappingsExact(Stored(s, h, e, exact))
    ensures SameHits(s, Stored(s, h, e, exact))
  {
  }

  lemma PutErases(s: Store, h: QueryHash, e: Entry, exact: Option<QueryHash>)
    requires exact.Some? ==> h == HashQuery(s.cfg, exact.value.preimage)
    ensures Erase(Put(s, h, e, exact)) == Put(Erase(s), h, e, exact)
    ensures MappingsExact(s) ==> MappingsExact(Put(s, h, e, exact))
    ensures SameHits(s, Put(s, h, e, exact))
  {
    StoredErases(s, h, e, exact);
    AdmitErases(Stored(s, h, e, exact), h);
  }

  lemma {:induction false} RemoveAllErases(s: Store, hs: seq<QueryHash>)
    ensures Erase(RemoveAll(s, hs)) == RemoveAll(Erase(s), hs)
    ensures MappingsExact(s) ==> MappingsExact(RemoveAll(s, hs))
    ensures SameHits(s, RemoveAll(s, hs))
    decreases |hs|
  {
    if hs != [] {
      RemoveAllErases(s, hs[..|hs| - 1]);
      RemoveErases(RemoveAll(s, hs[..|hs| - 1]), hs[|hs| - 1]);
    }
  }

  lemma LimitErases(s: Store, upstream: string, victims: seq<QueryHash>)
    ensures Erase(LimitUpstream(s, upstream, victims)) == LimitUpstream(Erase(s), upstream, victims)
    ensures MappingsExact(s) ==> MappingsExact(LimitUpstream(s, upstream, victims))
    ensures SameHits(s, LimitUpstream(s, upstream, victims))
    ensures LimitUpstream(s, upstream, victims).cfg == s.cfg
  {
    RemoveAllErases(s, victims);
    RemoveAllConfig(s, victims);
  }

  lemma {:induction false} RemoveAllConfig(s: Store, hs: seq<QueryHash>)
    ensures RemoveAll(s, hs).cfg == s.cfg
    decreases |hs|
  {
    if hs != [] { RemoveAllConfig(s, hs[..|hs| - 1]); }
  }

  lemma {:induction false} WarmupErases(s: Store, items: seq<(string, Option<Response>)>, upstream: string, now: int)
    ensures Erase(Warmup(s, items, upstream, now)) == Warmup(Erase(s), items, upstream, now)
    ensures MappingsExact(s) ==> MappingsExact(Warmup(s, items, upstream, now))
    ensures SameHits(s, Warmup(s, items, upstream, now))
    decreases |items|
  {
    if items != [] {
      if items[0].1.None? {
        WarmupErases(s, items[1..], upstream, now);
      } else if |s.entries| < s.maxEntries {
        var e := NewEntry(items[0].1.value, upstream, "default", Some(items[0].0), now);
        PutErases(s, HashQuery(s.cfg, items[0].0), e, None);
        WarmupErases(Put(s, HashQuery(s.cfg, items[0].0), e, None), items[1..], upstream, now);
      }
    }
  }

  lemma {:induction false} RestoreErases(s: Store, items: seq<(QueryHash, Entry)>)
    ensures Erase(Restore(s, items)) == Restore(Erase(s), items)
    ensures MappingsExact(s) ==> MappingsExact(Restore(s, items))
    ensures SameHits(s, Restore(s, items))
    decreases |items|
  {
    if items != [] && |s.entries| < s.maxEntries {
      var t := TrackedInsert(s, items[0].0, items[0].1.(freq := 0));
      assert Erase(t) == TrackedInsert(Erase(s), items[0].0, items[0].1.(freq := 0));
      AdmitErases(t, items[0].0);
      RestoreErases(RestoreOne(s, items[0].0, items[0].1), items[1..]);
    }
  }

  lemma {:induction false} EvictTimesErases(s: Store, n: nat)
    ensures Erase(EvictTimes(s, n)) == EvictTimes(Erase(s), n)
    ensures MappingsExact(s) ==> MappingsExact(EvictTimes(s, n))
    ensures SameHits(s, EvictTimes(s, n))
    decreases n
  {
    hide EvictOne, MappingsExact;
    if n != 0 && !(s.small == [] && s.main == []) {
      EvictOneErases(s);
      EvictTimesErases(EvictOne(s).store, n - 1);
    }
  }

  lemma EvictSmartErases(s: Store, expired: seq<QueryHash>, target: nat)
    ensures Erase(EvictSmart(s, expired, target)) == EvictSmart(Erase(s), expired, target)
    ensures MappingsExact(s) ==> MappingsExact(EvictSmart(s, expired, target))
    ensures SameHits(s, EvictSmart(s, expired, target))
  {
    hide RemoveAll, EvictTimes;
    RemoveAllErases(s, if |expired| <= target then expired else expired[..target]);
    var t := SmartExpired(s, expired, target);
    EvictTimesErases(t, Remaining(target, Lost(s, t)));
  }

  lemma InsertsSimulate(s: Store, op: Op)
    requires MappingsExact(s) && (op.OpInsert? || op.OpInsertByHash?)
    ensures Erase(Step(s, op)) == Step(Erase(s), op)
    ensures MappingsExact(Step(s, op)) && SameHits(s, Step(s, op))
  {
    LimitErases(s, op.upstream, op.victims);
    var t := LimitUpstream(s, op.upstream, op.victims);
    match op
    case OpInsert(q, r, u, c, now, vs) =>
      PutErases(t, HashQuery(s.cfg, q), NewEntry(r, u, c, Some(q), now), Some(HashExact(q)));
    case OpInsertByHash(h, r, u, k, now, vs) =>
      PutErases(t, h, NewEntry(r, u, "default", k, now), None);
  }

  lemma EvictionsSimulate(s: Store, op: Op)
    requires MappingsExact(s) && (op.OpEnforceMemory? || op.OpEvictSmart? || op.OpEvict?)
    ensures Erase(Step(s, op)) == Step(Erase(s), op)
    ensures MappingsExact(Step(s, op)) && SameHits(s, Step(s, op))
  {
    hide EvictWhile, EvictSmart, RemoveAll;
    match op
    case OpEnforceMemory => EvictWhileErases(s, Memory);
    case OpEvictSmart(expired, target) => EvictSmartErases(s, expired, target);
    case OpEvict(hs, _) => RemoveAllErases(s, hs);
  }

  lemma BulkLoadsSimulate(s: Store, op: Op)
    requires MappingsExact(s) && (op.OpWarmup? || op.OpRestore?)
    ensures Erase(Step(s, op)) == Step(Erase(s), op)
    ensures MappingsExact(Step(s, op)) && SameHits(s, Step(s, op))
  {
    match op
    case OpWarmup(items, u, now) => WarmupErases(s, items, u, now);
    case OpRestore(items) => RestoreErases(s, items);
  }

  ghost predicate Scalar(op: Op) {
    op.OpClear? || op.OpFingerprint? || op.OpSetMaxEntries? || op.OpSetMaxMemory? || op.OpSetUpstreamLimit?
  }

  lemma ClearErases(s: Store)
    ensures Erase(Clear(s)) == Clear(Erase(s)) && MappingsExact(Clear(s)) && SameHits(s, Clear(s))
  {
  }

  lemma FingerprintErases(s: Store, fingerprint: nat)
    requires MappingsExact(s)
    ensures Erase(UpdateFingerprint(s, fingerprint)) == UpdateFingerprint(Erase(s), fingerprint)
    ensures MappingsExact(UpdateFingerprint(s, fingerprint)) && SameHits(s, UpdateFingerprint(s, fingerprint))
  {
    ClearErases(s);
    hide Clear;
  }

  lemma ScalarsSimulate(s: Store, op: Op)
    requires MappingsExact(s) && Scalar(op)
    ensures Erase(Step(s, op)) == Step(Erase(s), op)
    ensures MappingsExact(Step(s, op)) && SameHits(s, Step(s, op))
  {
    hide Clear, UpdateFingerprint, MappingsExact, SameHits;
    match op
    case OpClear => ClearErases(s);
    case OpFingerprint(f) => FingerprintErases(s, f);
    case _ => SettersErase(s, op);
  }

  lemma SettersErase(s: Store, op: Op)
    requires MappingsExact(s) && (op.OpSetMaxEntries? || op.OpSetMaxMemory? || op.OpSetUpstreamLimit?)
    ensures Erase(Step(s, op)) == Step(Erase(s), op)
    ensures MappingsExact(Step(s, op)) && SameHits(s, Step(s, op))
  {
  }

  lemma GetVerifiedErases(s: Store, query: string)
    requires MappingsExact(s)
    ensures Erase(GetVerified(s, query)) == GetVerified(Erase(s), query)
    ensures MappingsExact(GetVerified(s, query)) && SameHits(s, GetVerified(s, query))
  {
    RemoveErases(s, HashQuery(s.cfg, query));
  }

  lemma GetByHashErases(s: Store, h: QueryHash)
    requires MappingsExact(s)
    ensures Erase(GetByHash(s, h)) == GetByHash(Erase(s), h)
    ensures MappingsExact(GetByHash(s, h)) && SameHits(s, GetByHash(s, h))
  {
  }

  lemma ExtendTtlErases(s: Store, query: string, now: int)
    requires MappingsExact(s)
    ensures Erase(ExtendTtl(s, query, now)) == ExtendTtl(Erase(s), query, now)
    ensures MappingsExact(ExtendTtl(s, query, now)) && SameHits(s, ExtendTtl(s, query, now))
  {
  }

  lemma RemovingErases(s: Store, query: string)
    requires MappingsExact(s)
    ensures Erase(Remove(s, query)) == Remove(Erase(s), query)
    ensures MappingsExact(Remove(s, query)) && SameHits(s, Remove(s, query))
  {
    RemoveErases(s, HashQuery(s.cfg, query));
  }

  lemma SinglesSimulate(s: Store, op: Op)
    requires MappingsExact(s)
    requires op.OpGetVerified? || op.OpGetByHash? || op.OpExtendTtl? || op.OpRemove?
    ensures Erase(Step(s, op)) == Step(Erase(s), op)
    ensures MappingsExact(Step(s, op)) && SameHits(s, Step(s, op))
  {
    hide GetVerified, GetByHash, ExtendTtl, Remove, MappingsExact, SameHits;
    match op
    case OpGetVerified(q) => GetVerifiedErases(s, q);
    case OpGetByHash(h) => GetByHashErases(s, h);
    case OpExtendTtl(q, now) => ExtendTtlErases(s, q, now);
    case OpRemove(q) => RemovingErases(s, q);
  }

  lemma StepSimulates(s: Store, op: Op)
    requires MappingsExact(s)
    ensures Erase(Step(s, op)) == Step(Erase(s), op)
    ensures MappingsExact(Step(s, op))
    ensures !op.OpGet? ==> SameHits(s, Step(s, op))
  {
    if op.OpGet? {
      GetSimulates(s, op.query);
    } else if op.OpInsert? || op.OpInsertByHash? {
      InsertsSimulate(s, op);
    } else if op.OpEnforceMemory? || op.OpEvictSmart? || op.OpEvict? {
      EvictionsSimulate(s, op);
    } else if op.OpWarmup? || op.OpRestore? {
      BulkLoadsSimulate(s, op);
    } else if Scalar(op) {
      ScalarsSimulate(s, op);
    } else {
      SinglesSimulate(s, op);
    }
  }

  /** How many `get` calls of a run return an entry. */
  ghost function Hits(s: Store, ops: seq<Op>): nat
    decreases |ops|
  {
    if ops == [] then 0
    else (if ops[0].OpGet? && Answer(s, ops[0].query).Some? then 1 else 0) + Hits(Step(s, ops[0]), ops[1..])
  }

  /** Simulation over whole runs: same map, queues, ghosts, counters and answers as with matching off. */
  lemma {:induction false} RunSimulates(s: Store, ops: seq<Op>)
    requires MappingsExact(s)
    ensures Erase(Run(s, ops)) == Run(Erase(s), ops)
    ensures MappingsExact(Run(s, ops))
    ensures Hits(s, ops) == Hits(Erase(s), ops)
    ensures Run(s, ops).exactHits + Run(s, ops).normalizedHits == s.exactHits + s.normalizedHits + Hits(s, ops)
    decreases |ops|
  {
    if ops != [] {
      StepSimulates(s, ops[0]);
      StepHits(s, ops[0]);
      RunSimulates(Step(s, ops[0]), ops[1..]);
    }
  }

  lemma StepHits(s: Store, op: Op)
    requires MappingsExact(s)
    ensures var t := Step(s, op);
            t.exactHits + t.normalizedHits == s.exactHits + s.normalizedHits
              + (if op.OpGet? && Answer(s, op.query).Some? then 1 else 0)
    ensures op.OpGet? ==> Answer(s, op.query) == Answer(Erase(s), op.query)
  {
    if op.OpGet? {
      GetSimulates(s, op.query);
    } else {
      StepSimulates(s, op);
    }
  }
}
