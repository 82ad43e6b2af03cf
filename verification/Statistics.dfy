/** What the counters count, which spellings are mapped, and what resets and bulk loads leave. */
module Statistics {
  import opened Basics
  import opened Store
  import opened Eviction
  import opened Invariants
  import opened Conservation
  import opened TwoTier
  import opened Targets
  import opened Warming
  import opened Documents

  // ----- hits by tier

  /** With one tier every answer is an exact hit. */
  lemma OneTierHitsAreExact(s: Store, query: string)
    requires !s.cfg.normalizedMatching
    ensures var t := Get(s, query);
            && t.normalizedHits == s.normalizedHits
            && t.exactHits == s.exactHits + (if HashQuery(s.cfg, query) in s.entries then 1 else 0)
  {
  }

  /**
   With two tiers, the first answer to an unmapped spelling is a normalized hit that maps it; every answer to it
   after that is an exact hit, until something unmaps it.
   */
  lemma SpellingIsLearnt(s: Store, query: string)
    requires MappingsExact(s) && s.cfg.normalizedMatching && HashQuery(s.cfg, query) in s.entries
    ensures var t, x := Get(s, query), HashExact(query);
            && x in t.exactToNormalized && t.exactToNormalized[x] == HashQuery(s.cfg, query)
            && (x !in s.exactToNormalized ==>
                  t.normalizedHits == s.normalizedHits + 1 && t.exactHits == s.exactHits)
            && (x in s.exactToNormalized ==>
                  t.exactHits == s.exactHits + 1 && t.normalizedHits == s.normalizedHits)
            && Get(t, query).exactHits == t.exactHits + 1 && Get(t, query).normalizedHits == t.normalizedHits
  {
  }

  /** A lookup that finds nothing counts and maps nothing. */
  lemma MissLeavesStore(s: Store, query: string)
    requires MappingsExact(s) && HashQuery(s.cfg, query) !in s.entries
    ensures Get(s, query) == s
  {
  }

  /** An update through `insert` maps its spelling, so that the next lookup under it is an exact hit. */
  lemma UpdateMapsSpelling(s: Store, query: string, r: Response, upstream: string, context: string, now: int)
    requires s.cfg.normalizedMatching && s.perUpstreamLimit == None && HashQuery(s.cfg, query) in s.entries
    ensures var t := Insert(s, query, r, upstream, context, now, []);
            && HashExact(query) in t.exactToNormalized
            && t.exactToNormalized[HashExact(query)] == HashQuery(s.cfg, query)
            && Get(t, query).exactHits == t.exactHits + 1
  {
    assert LimitUpstream(s, upstream, []) == s;
  }

  /** So does an insertion that evicts nothing. */
  lemma InsertMapsSpelling(s: Store, query: string, r: Response, upstream: string, context: string, now: int)
    requires Inv(s) && s.cfg.normalizedMatching && s.perUpstreamLimit == None && HashQuery(s.cfg, query) !in s.entries
    requires Nodes(s) < Capacity(s.cfg) && (s.maxMemory == 0 || s.bytes + r.size <= s.maxMemory)
    ensures var t := Insert(s, query, r, upstream, context, now, []);
            && HashExact(query) in t.exactToNormalized
            && t.exactToNormalized[HashExact(query)] == HashQuery(s.cfg, query)
            && Get(t, query).exactHits == t.exactHits + 1
  {
    var h, e := HashQuery(s.cfg, query), NewEntry(r, upstream, context, Some(query), now);
    var u := Stored(s, h, e, Some(HashExact(query)));
    assert LimitUpstream(s, upstream, []) == s;
    StoredIsPending(s, h, e, Some(HashExact(query)));
    EnqueueKeeps(u, h);
    ShrinkEvictsIff(Enqueue(u, h), h);
    hide Shrink, Inv, Sound, Pending;
  }

  // ----- spellings leave with their entries

  /** An entry that was stored under this spelling has left. */
  ghost predicate Departed(a: Entries, b: Entries, h: QueryHash, x: QueryHash) {
    h in a && h !in b && a[h].queryText == Some(x.preimage)
  }

  /** With two tiers, exactly the spellings of the entries that left are unmapped; with one tier none are. */
  ghost predicate Unmaps(s: Store, t: Store) {
    && t.cfg == s.cfg
    && (forall x :: x in t.exactToNormalized ==>
          x in s.exactToNormalized && t.exactToNormalized[x] == s.exactToNormalized[x])
    && (forall x :: x in s.exactToNormalized ==>
          (x !in t.exactToNormalized <==>
           s.cfg.normalizedMatching && exists h :: Departed(s.entries, t.entries, h, x)))
  }

  /** The remaining entries keep their text, and none joins. */
  ghost predicate SameTexts(a: Entries, b: Entries) {
    forall h :: h in b ==> h in a && b[h].queryText == a[h].queryText
  }

  lemma UnmapsOn(s: Store, t: Store, w: Store)
    requires Unmaps(s, t) && Unmaps(t, w) && SameTexts(s.entries, t.entries) && SameTexts(t.entries, w.entries)
    ensures Unmaps(s, w) && SameTexts(s.entries, w.entries)
  {
    forall x | x in s.exactToNormalized
      ensures x !in w.exactToNormalized <==>
              s.cfg.normalizedMatching && exists h :: Departed(s.entries, w.entries, h, x)
    {
      if x !in t.exactToNormalized {
        var h :| Departed(s.entries, t.entries, h, x);
        assert Departed(s.entries, w.entries, h, x);
      } else {
        if h :| Departed(t.entries, w.entries, h, x) {
          assert Departed(s.entries, w.entries, h, x);
        }
        if h :| Departed(s.entries, w.entries, h, x) {
          assert Departed(s.entries, t.entries, h, x) || Departed(t.entries, w.entries, h, x);
        }
      }
    }
  }

  lemma UnmapsNothing(s: Store, t: Store)
    requires t.cfg == s.cfg && t.exactToNormalized == s.exactToNormalized && t.entries.Keys == s.entries.Keys
    requires SameTexts(s.entries, t.entries)
    ensures Unmaps(s, t)
  {
  }

  lemma OneLeaves(s: Store, t: Store, v: QueryHash)
    requires v in s.entries && t.cfg == s.cfg && t.entries.Keys == s.entries.Keys - {v}
    requires t.exactToNormalized == Unmap(s.cfg, s.exactToNormalized, s.entries[v])
    ensures Unmaps(s, t)
  {
    forall x | x in s.exactToNormalized
      ensures x !in t.exactToNormalized <==>
              s.cfg.normalizedMatching && exists h :: Departed(s.entries, t.entries, h, x)
    {
      assert x == Blake3(x.preimage);
      if x !in t.exactToNormalized {
        assert Departed(s.entries, t.entries, v, x);
      }
      if h :| Departed(s.entries, t.entries, h, x) {
        assert h == v;
      }
    }
  }

  lemma RemoveUnmaps(s: Store, h: QueryHash)
    ensures Unmaps(s, TrackedRemove(s, h)) && SameTexts(s.entries, TrackedRemove(s, h).entries)
  {
    if h in s.entries {
      OneLeaves(s, TrackedRemove(s, h), h);
    } else {
      UnmapsNothing(s, s);
    }
  }

  lemma EvictOneUnmaps(s: Store)
    ensures Unmaps(s, EvictOne(s).store) && SameTexts(s.entries, EvictOne(s).store.entries)
  {
    var o, t := Scan(s.entries, s.small, s.main), EvictOne(s).store;
    ScanShrinks(s.entries, s.small, s.main);
    EvictOneThins(s);
    hide Scan;
    if o.victim.Some? {
      OneLeaves(s, t, o.victim.value);
    } else {
      UnmapsNothing(s, t);
    }
  }

  lemma {:induction false} EvictWhileUnmaps(s: Store, p: Pressure)
    ensures Unmaps(s, EvictWhile(s, p).store) && SameTexts(s.entries, EvictWhile(s, p).store.entries)
    decreases Nodes(s)
  {
    hide EvictOne, Unmaps, SameTexts;
    if !Over(s, p) {
      Unmoved(s);
    } else {
      EvictOneUnmaps(s);
      if EvictOne(s).source.Some? {
        EvictWhileUnmaps(EvictOne(s).store, p);
        UnmapsOn(s, EvictOne(s).store, EvictWhile(s, p).store);
      }
    }
  }

  lemma Unmoved(s: Store)
    ensures Unmaps(s, s) && SameTexts(s.entries, s.entries)
  {
    UnmapsNothing(s, s);
  }

  lemma {:induction false} EvictTimesUnmaps(s: Store, n: nat)
    ensures Unmaps(s, EvictTimes(s, n)) && SameTexts(s.entries, EvictTimes(s, n).entries)
    decreases n
  {
    hide EvictOne, Unmaps, SameTexts;
    if n == 0 || (s.small == [] && s.main == []) {
      Unmoved(s);
    } else {
      EvictOneUnmaps(s);
      EvictTimesUnmaps(EvictOne(s).store, n - 1);
      UnmapsOn(s, EvictOne(s).store, EvictTimes(s, n));
    }
  }

  lemma {:induction false} RemoveAllUnmaps(s: Store, hs: seq<QueryHash>)
    ensures Unmaps(s, RemoveAll(s, hs)) && SameTexts(s.entries, RemoveAll(s, hs).entries)
    decreases |hs|
  {
    hide TrackedRemove, Unmaps, SameTexts;
    if hs == [] {
      Unmoved(s);
    } else {
      var t := RemoveAll(s, hs[..|hs| - 1]);
      RemoveAllUnmaps(s, hs[..|hs| - 1]);
      RemoveUnmaps(t, hs[|hs| - 1]);
      UnmapsOn(s, t, RemoveAll(s, hs));
    }
  }

  lemma RestatUnmaps(s: Store, t: Store, stats: Stats)
    requires Unmaps(s, t)
    ensures Unmaps(s, t.(stats := stats))
  {
  }

  /** Every way of evicting unmaps exactly the spellings its victims were stored under. */
  lemma EvictionsUnmap(s: Store, op: Op)
    requires op.OpEnforceMemory? || op.OpEvictSmart? || op.OpEvict?
    ensures Unmaps(s, Step(s, op))
  {
    hide EvictWhile, EvictTimes, RemoveAll, Unmaps, SameTexts;
    match op
    case OpEnforceMemory =>
      EvictWhileUnmaps(s, Memory);
      Unmoved(s);
      RestatUnmaps(s, EvictWhile(s, Memory).store, Step(s, op).stats);
    case OpEvictSmart(expired, target) =>
      var t := SmartExpired(s, expired, target);
      var u := EvictTimes(t, Remaining(target, Lost(s, t)));
      RemoveAllUnmaps(s, if |expired| <= target then expired else expired[..target]);
      EvictTimesUnmaps(t, Remaining(target, Lost(s, t)));
      UnmapsOn(s, t, u);
      RestatUnmaps(s, u, Step(s, op).stats);
    case OpEvict(hs, _) =>
      RemoveAllUnmaps(s, hs);
      RestatUnmaps(s, RemoveAll(s, hs), Step(s, op).stats);
  }

  /** `remove` unmaps the spelling it is given besides, and leaves no trace of the key in the map. */
  lemma RemoveForgets(s: Store, query: string)
    ensures var t, h := Remove(s, query), HashQuery(s.cfg, query);
            && t.entries == s.entries - {h}
            && HashExact(query) !in t.exactToNormalized
            && (MappingsExact(s) ==> Answer(t, query) == None)
            && t.small == s.small && t.main == s.main && t.ghosts == s.ghosts && t.stats == s.stats
  {
  }

  // ----- what is charged to what

  /** The statistics an eviction loop leaves to its caller. */
  lemma AdmissionCharges(s: Store, h: QueryHash)
    ensures var t := Admit(s, h);
            && t.stats.ghostHits == s.stats.ghostHits + (if h in s.ghosts.members then 1 else 0)
            && t.stats.smallEvictions + t.stats.mainEvictions + |t.entries| ==
                 s.stats.smallEvictions + s.stats.mainEvictions + |s.entries|
            && t.stats.total + |t.entries| == s.stats.total + |s.entries|
            && t.stats.expired == s.stats.expired && t.stats.oldest == s.stats.oldest
            && t.stats.perUpstream == s.stats.perUpstream && t.stats.integrityFailures == s.stats.integrityFailures
  {
    ShrinkCounts(Enqueue(s, h));
    hide Shrink;
  }

  /**
   An insertion charges one to `per_upstream` exactly when the limit is reached and what then left to `oldest`;
   everything else that left to the queues; and one ghost hit exactly when a new key was remembered.
   */
  lemma InsertCharges(s: Store, h: QueryHash, e: Entry, exact: Option<QueryHash>, upstream: string,
                      victims: seq<QueryHash>)
    requires e.upstream == upstream
    ensures var l := LimitUpstream(s, upstream, victims);
            var t := Put(l, h, e, exact);
            && t.stats.perUpstream == s.stats.perUpstream + (if LimitReached(s, upstream) then 1 else 0)
            && t.stats.oldest == s.stats.oldest + |s.entries| - |l.entries|
            && t.stats.ghostHits ==
                 s.stats.ghostHits + (if h !in l.entries && h in s.ghosts.members then 1 else 0)
            && t.stats.smallEvictions + t.stats.mainEvictions - s.stats.smallEvictions - s.stats.mainEvictions ==
                 |l.entries| + (if h in l.entries then 0 else 1) - |t.entries|
            && t.stats.expired == s.stats.expired && t.stats.integrityFailures == s.stats.integrityFailures
  {
    var l := LimitUpstream(s, upstream, victims);
    var u := Stored(l, h, e, exact);
    RemoveAllLoses(s, victims);
    LimitGhosts(s, victims);
    hide RemoveAll, Admit;
    StoredSize(l, h, e);
    if h !in l.entries {
      AdmissionCharges(u, h);
    }
  }

  lemma StoredSize(s: Store, h: QueryHash, e: Entry)
    ensures |s.entries[h := e]| == |s.entries| + (if h in s.entries then 0 else 1)
  {
    assert s.entries[h := e].Keys == s.entries.Keys + {h};
    assert |s.entries[h := e]| == |s.entries[h := e].Keys| && |s.entries| == |s.entries.Keys|;
  }

  lemma {:induction false} LimitGhosts(s: Store, hs: seq<QueryHash>)
    ensures RemoveAll(s, hs).ghosts == s.ghosts && RemoveAll(s, hs).cfg == s.cfg
    decreases |hs|
  {
    if hs != [] {
      LimitGhosts(s, hs[..|hs| - 1]);
    }
  }

  /** Removals are charged to what caused them: expiry, age, a filter, or, for corrupt entries, to nothing. */
  lemma EvictCharges(s: Store, hs: seq<QueryHash>, reason: Reason)
    ensures var t := Evict(s, hs, reason); var lost := |s.entries| - |t.entries|;
            && lost >= 0
            && t.stats.expired == s.stats.expired + (if reason == Expired then lost else 0)
            && t.stats.oldest == s.stats.oldest + (if reason == Oldest then lost else 0)
            && t.stats.total == s.stats.total + (if reason == Corrupted then 0 else lost)
            && t.stats.(expired := 0, oldest := 0, total := 0) == s.stats.(expired := 0, oldest := 0, total := 0)
  {
    RemoveAllLoses(s, hs);
    hide RemoveAll;
  }

  /** `evict_smart` charges its first phase to expiry and everything to the total. */
  lemma SmartCharges(s: Store, expired: seq<QueryHash>, target: nat)
    requires Inv(s) && Distinct(expired) && forall h :: h in expired ==> h in s.entries
    ensures var t := EvictSmart(s, expired, target);
            && t.stats.expired == s.stats.expired + Min(|expired|, target)
            && t.stats.total == s.stats.total + |s.entries| - |t.entries|
            && t.stats.smallEvictions == s.stats.smallEvictions && t.stats.mainEvictions == s.stats.mainEvictions
  {
    hide RemoveAll, EvictTimes, Distinct, Inv;
    var t := SmartExpired(s, expired, target);
    FirstPhaseLeaves(s, expired, target);
    RemoveAllLoses(s, FirstPhase(expired, target));
    EvictTimesCounts(t, Remaining(target, Lost(s, t)));
  }

  /** A verified lookup counts one integrity failure exactly when it finds a corrupt entry, and then removes it. */
  lemma VerifiedCharges(s: Store, query: string)
    ensures var t, h := GetVerified(s, query), HashQuery(s.cfg, query);
            var bad := h in s.entries && s.entries[h].corrupt;
            && t.stats == s.stats.(integrityFailures := s.stats.integrityFailures + (if bad then 1 else 0))
            && t.entries.Keys == (if bad then s.entries.Keys - {h} else s.entries.Keys)
  {
  }

  // ----- resets and setters

  /** A cleared store is a new one with its limits and counters kept. */
  lemma ClearedIsNew(normalize: string -> string, matching: bool, maxEntries: nat, maxMemory: nat, s: Store)
    requires s.cfg == NewConfig(normalize, matching, maxEntries)
    ensures Clear(s) == NewStore(normalize, matching, maxEntries, maxMemory).(
                          maxEntries := s.maxEntries, maxMemory := s.maxMemory, perUpstreamLimit := s.perUpstreamLimit,
                          exactHits := s.exactHits, normalizedHits := s.normalizedHits, fingerprint := s.fingerprint,
                          stats := s.stats)
  {
  }

  /** The fingerprint is always taken over; it clears the store exactly when it replaces another one. */
  lemma FingerprintClearsIff(s: Store, f: nat)
    ensures var t := UpdateFingerprint(s, f);
            && t.fingerprint == f
            && (t == s.(fingerprint := f) || t == Clear(s).(fingerprint := f))
            && (f != 0 ==> UpdateFingerprint(t, f) == t)
            && (f != 0 && s.entries != map[] ==> (t.entries == map[] <==> s.fingerprint !in {0, f}))
  {
  }

  /** A limit of zero entries is refused, so that no run from a store built for one or more ends with one. */
  lemma {:induction false} EntryLimitStaysPositive(s: Store, ops: seq<Op>)
    requires Inv(s) && s.maxEntries >= 1
    ensures Run(s, ops).maxEntries >= 1
    decreases |ops|
  {
    hide Inv;
    if ops != [] {
      StepKeepsInv(s, ops[0]);
      LimitStaysPositive(s, ops[0]);
      EntryLimitStaysPositive(Step(s, ops[0]), ops[1..]);
    }
  }

  lemma LimitStaysPositive(s: Store, op: Op)
    requires Inv(s) && s.maxEntries >= 1
    ensures Step(s, op).maxEntries >= 1
    ensures op.OpSetMaxEntries? ==>
              Step(s, op).maxEntries == (if op.maxEntries == 0 then s.maxEntries else op.maxEntries)
  {
    if !SetsLimit(op) {
      StepKeepsInv(s, op);
      hide Step, Inv;
    }
  }

  /** Each setter sets its limit and nothing else. */
  lemma SettersSet(s: Store, bytes: nat, limit: Option<nat>)
    ensures Step(s, OpSetMaxMemory(bytes)).maxMemory == bytes
    ensures Step(s, OpSetMaxMemory(bytes)).(maxMemory := s.maxMemory) == s
    ensures Step(s, OpSetUpstreamLimit(limit)).perUpstreamLimit == limit
    ensures Step(s, OpSetUpstreamLimit(limit)).(perUpstreamLimit := s.perUpstreamLimit) == s
  {
  }

  // ----- bulk loads

  /** A store at its entry limit takes nothing more. */
  lemma {:induction false} FullTakesNothing(s: Store, items: seq<(string, Option<Response>)>, upstream: string,
                                            now: int, persisted: seq<(QueryHash, Entry)>)
    requires |s.entries| >= s.maxEntries
    ensures Warmup(s, items, upstream, now) == s && WarmupStored(s, items, upstream, now) == 0
    ensures Restore(s, persisted) == s && RestoreStored(s, persisted) == 0
    decreases |items|
  {
    if items != [] {
      FullTakesNothing(s, items[1..], upstream, now, persisted);
    }
  }

  /** Warming in two calls is warming in one: the limit is looked at before every item. */
  lemma {:induction false} WarmupConcat(s: Store, a: seq<(string, Option<Response>)>,
                                        b: seq<(string, Option<Response>)>, upstream: string, now: int)
    ensures Warmup(s, a + b, upstream, now) == Warmup(Warmup(s, a, upstream, now), b, upstream, now)
    ensures WarmupStored(s, a + b, upstream, now) ==
            WarmupStored(s, a, upstream, now) + WarmupStored(Warmup(s, a, upstream, now), b, upstream, now)
    decreases |a|
  {
    hide Put;
    if a == [] {
      assert a + b == b;
    } else {
      assert (a + b)[0] == a[0] && (a + b)[1..] == a[1..] + b;
      if a[0].1.None? {
        WarmupConcat(s, a[1..], b, upstream, now);
      } else if |s.entries| >= s.maxEntries {
        FullTakesNothing(s, b, upstream, now, []);
      } else {
        var e := NewEntry(a[0].1.value, upstream, "default", Some(a[0].0), now);
        WarmupConcat(Put(s, HashQuery(s.cfg, a[0].0), e, None), a[1..], b, upstream, now);
      }
    }
  }

  /** Below the limit one item with a response is stored as `insert` would store it, and one without is passed over. */
  lemma WarmupOne(s: Store, query: string, r: Option<Response>, upstream: string, now: int)
    requires |s.entries| < s.maxEntries
    ensures var t := Warmup(s, [(query, r)], upstream, now);
            && WarmupStored(s, [(query, r)], upstream, now) == (if r.Some? then 1 else 0)
            && t == if r.None? then s
                    else InsertByHash(s.(perUpstreamLimit := None), HashQuery(s.cfg, query), r.value, upstream,
                                      Some(query), now, []).(perUpstreamLimit := s.perUpstreamLimit)
  {
    assert [(query, r)][1..] == [];
    if r.Some? {
      var h, e := HashQuery(s.cfg, query), NewEntry(r.value, upstream, "default", Some(query), now);
      assert Warmup(Put(s, h, e, None), [], upstream, now) == Put(s, h, e, None);
      assert WarmupStored(Put(s, h, e, None), [], upstream, now) == 0;
      PutIgnoresLimit(s, h, e);
      hide Put;
    }
  }

  lemma {:induction false} EvictWhileIgnoresLimit(s: Store, p: Pressure)
    ensures var d, c := EvictWhile(s, p), EvictWhile(s.(perUpstreamLimit := None), p);
            && c.store == d.store.(perUpstreamLimit := None) && c.fromSmall == d.fromSmall && c.fromMain == d.fromMain
            && d.store.perUpstreamLimit == s.perUpstreamLimit
    decreases Nodes(s)
  {
    hide EvictOne;
    if Over(s, p) {
      EvictOneIgnoresLimit(s);
      if EvictOne(s).source.Some? {
        EvictWhileIgnoresLimit(EvictOne(s).store, p);
      }
    }
  }

  lemma EvictOneIgnoresLimit(s: Store)
    ensures var r := EvictOne(s);
            && EvictOne(s.(perUpstreamLimit := None)) == Evicted(r.store.(perUpstreamLimit := None), r.source)
            && r.store.perUpstreamLimit == s.perUpstreamLimit
  {
    hide Scan, AddGhosts;
  }

  lemma AdmitIgnoresLimit(s: Store, h: QueryHash)
    ensures Admit(s.(perUpstreamLimit := None), h) == Admit(s, h).(perUpstreamLimit := None)
    ensures Admit(s, h).perUpstreamLimit == s.perUpstreamLimit
  {
    hide EvictWhile;
    var w, v := Enqueue(s, h), Enqueue(s.(perUpstreamLimit := None), h);
    assert v == w.(perUpstreamLimit := None);
    EvictWhileIgnoresLimit(w, Count);
    EvictWhileIgnoresLimit(EvictWhile(w, Count).store, Memory);
    hide Enqueue;
  }

  lemma PutIgnoresLimit(s: Store, h: QueryHash, e: Entry)
    ensures Put(s, h, e, None) ==
            Put(s.(perUpstreamLimit := None), h, e, None).(perUpstreamLimit := s.perUpstreamLimit)
  {
    hide Admit;
    AdmitIgnoresLimit(Stored(s, h, e, None), h);
  }

  /** Restoring in two calls is restoring in one. */
  lemma {:induction false} RestoreConcat(s: Store, a: seq<(QueryHash, Entry)>, b: seq<(QueryHash, Entry)>)
    ensures Restore(s, a + b) == Restore(Restore(s, a), b)
    ensures RestoreStored(s, a + b) == RestoreStored(s, a) + RestoreStored(Restore(s, a), b)
    decreases |a|
  {
    hide RestoreOne;
    if a == [] {
      assert a + b == b;
    } else {
      assert (a + b)[0] == a[0] && (a + b)[1..] == a[1..] + b;
      if |s.entries| < s.maxEntries {
        RestoreConcat(RestoreOne(s, a[0].0, a[0].1), a[1..], b);
      }
    }
  }
}
