/** What every public operation keeps, and so what every run keeps. */
module Invariants {
  import opened Basics
  import opened Store
  import opened Eviction

  ghost predicate Covered(s: Store) {
    forall h :: h in s.entries ==> h in s.small || h in s.main
  }

  /** The running byte counter is what summing the live entries would give. */
  ghost predicate BytesExact(s: Store) {
    s.bytes == Total(Sizes(s.entries))
  }

  ghost predicate GhostsBounded(g: Ghosts, capacity: nat) {
    |g.queue| <= capacity && forall h :: h in g.members ==> h in g.queue
  }

  ghost predicate NoLiveGhost(e: Entries, g: Ghosts) {
    forall h :: h in g.members ==> h !in e
  }

  ghost predicate FreqCapped(e: Entries) {
    forall h :: h in e ==> e[h].freq <= 3
  }

  ghost predicate Sound(s: Store) {
    && Covered(s)
    && BytesExact(s)
    && GhostsBounded(s.ghosts, s.cfg.ghostCapacity)
    && NoLiveGhost(s.entries, s.ghosts)
    && FreqCapped(s.entries)
  }

  ghost predicate Inv(s: Store) {
    Sound(s) && Nodes(s) <= Capacity(s.cfg)
  }

  ghost predicate Kept(s: Store, t: Store) {
    && Inv(t)
    && t.cfg == s.cfg && t.maxEntries == s.maxEntries && t.maxMemory == s.maxMemory
    && t.perUpstreamLimit == s.perUpstreamLimit
  }

  ghost predicate SetsLimit(op: Op) {
    op.OpSetMaxEntries? || op.OpSetMaxMemory? || op.OpSetUpstreamLimit?
  }

  /** `b` is `a` after some evictions: fewer entries, some counters reset, bookkeeping otherwise unchanged. */
  ghost predicate Shrunk(a: Store, b: Store) {
    && b.entries.Keys <= a.entries.Keys
    && (forall h :: h in b.entries ==> b.entries[h] == a.entries[h] || b.entries[h] == a.entries[h].(freq := 0))
    && b.cfg == a.cfg && b.maxEntries == a.maxEntries && b.maxMemory == a.maxMemory
    && b.perUpstreamLimit == a.perUpstreamLimit && b.fingerprint == a.fingerprint
    && b.exactHits == a.exactHits && b.normalizedHits == a.normalizedHits
    && b.stats.(promotions := 0) == a.stats.(promotions := 0)
  }

  // ----- one scan

  lemma ScanEntries(e: Entries, small: seq<QueryHash>, main: seq<QueryHash>)
    ensures var o := Scan(e, small, main);
            && (forall h :: h in o.entries ==> h in e && (o.entries[h] == e[h] || o.entries[h] == e[h].(freq := 0)))
            && (forall h :: h in o.entries && (h in small || h in main) ==> h in o.small || h in o.main)
  {
    VictimIsFirstOnTour(e, small, main);
    ScanCovers(e, small, main);
  }

  /** No live hash loses its last node. */
  lemma ScanCovers(e: Entries, small: seq<QueryHash>, main: seq<QueryHash>)
    ensures var o := Scan(e, small, main);
            forall h :: h in o.entries && (h in small || h in main) ==> h in o.small || h in o.main
  {
    var o := Scan(e, small, main);
    var a := ScanSmall(e, small, main);
    forall h | h in a.entries && (h in small || h in main) ensures h in a.small || h in a.main {
      Split(small, FirstStop(e, small), h);
    }
    if a.victim.None? {
      forall h | h in o.entries && (h in a.small || h in a.main) ensures h in o.small || h in o.main {
        Split(a.main, FirstStop(a.entries, a.main), h);
      }
    }
  }

  lemma Split(q: seq<QueryHash>, i: nat, h: QueryHash)
    requires i <= |q|
    ensures i == |q| ==> (h in q <==> h in q[..i])
    ensures i < |q| ==> (h in q <==> h in q[..i] || h == q[i] || h in q[i + 1..])
  {
    if i == |q| {
      assert q[..i] == q;
    } else {
      assert q == q[..i] + [q[i]] + q[i + 1..];
    }
  }

  lemma ScanBytes(e: Entries, small: seq<QueryHash>, main: seq<QueryHash>)
    ensures var o := Scan(e, small, main);
            Total(Sizes(o.entries)) ==
                Total(Sizes(e)) - (if o.victim.Some? && o.victim.value in e then e[o.victim.value].size else 0)
  {
    var o := Scan(e, small, main);
    ScanShrinks(e, small, main);
    ScanEntries(e, small, main);
    hide Scan;
    if o.victim.Some? {
      assert Sizes(o.entries) == Sizes(e) - {o.victim.value};
      TotalRemove(Sizes(e), o.victim.value);
    } else {
      assert Sizes(o.entries) == Sizes(e);
    }
  }

  lemma AddGhostBounded(g: Ghosts, capacity: pos, h: QueryHash)
    requires GhostsBounded(g, capacity)
    ensures GhostsBounded(AddGhost(g, capacity, h), capacity)
    ensures forall k :: k in AddGhost(g, capacity, h).members ==> k in g.members || k == h
  {
    var n := if |g.queue| >= capacity then |g.queue| - capacity + 1 else 0;
    assert g.queue == g.queue[..n] + g.queue[n..];
  }

  lemma {:induction false} AddGhostsBounded(g: Ghosts, capacity: pos, hs: seq<QueryHash>)
    requires GhostsBounded(g, capacity)
    ensures GhostsBounded(AddGhosts(g, capacity, hs), capacity)
    ensures forall k :: k in AddGhosts(g, capacity, hs).members ==> k in g.members || k in hs
    decreases |hs|
  {
    if hs != [] {
      AddGhostsBounded(g, capacity, hs[..|hs| - 1]);
      AddGhostBounded(AddGhosts(g, capacity, hs[..|hs| - 1]), capacity, hs[|hs| - 1]);
    }
  }

  lemma ScanGhostsAreDead(e: Entries, small: seq<QueryHash>, main: seq<QueryHash>)
    ensures var o := Scan(e, small, main); forall h :: h in o.ghosted ==> h !in o.entries
  {
    ScanShrinks(e, small, main);
  }

  ghost predicate Resets(a: Entries, b: Entries) {
    forall h :: h in b ==> h in a && (b[h] == a[h] || b[h] == a[h].(freq := 0))
  }

  lemma EvictOneKeeps(s: Store)
    requires Sound(s)
    ensures Sound(EvictOne(s).store)
    ensures Shrunk(s, EvictOne(s).store)
  {
    hide Scan, AddGhosts, GhostsBounded, Sizes;
    var o := Scan(s.entries, s.small, s.main);
    ScanShrinks(s.entries, s.small, s.main);
    ScanEntries(s.entries, s.small, s.main);
    ScanBytes(s.entries, s.small, s.main);
    ScanGhostsAreDead(s.entries, s.small, s.main);
    AddGhostsBounded(s.ghosts, s.cfg.ghostCapacity, o.ghosted);
    ApplyKeeps(s, o);
  }

  /** A scan's outcome that only drops the victim and resets counters, once applied. */
  lemma ApplyKeeps(s: Store, o: Outcome)
    requires Sound(s) && Resets(s.entries, o.entries)
    requires forall h :: h in o.entries && (h in s.small || h in s.main) ==> h in o.small || h in o.main
    requires Total(Sizes(o.entries)) ==
             Total(Sizes(s.entries))
             - (if o.victim.Some? && o.victim.value in s.entries then s.entries[o.victim.value].size else 0)
    requires var g := AddGhosts(s.ghosts, s.cfg.ghostCapacity, o.ghosted);
             && GhostsBounded(g, s.cfg.ghostCapacity)
             && (forall h :: h in g.members ==> h in s.ghosts.members || h in o.ghosted)
    requires forall h :: h in o.ghosted ==> h !in o.entries
    ensures Sound(Apply(s, o)) && Shrunk(s, Apply(s, o))
  {
    hide AddGhosts, GhostsBounded, Sizes;
  }

  /** A live cold hash guarantees that the next eviction takes something. */
  lemma ColdNodeYields(s: Store, h: QueryHash)
    requires Covered(s) && h in s.entries && s.entries[h].freq == 0
    ensures EvictOne(s).source.Some?
  {
    EvictsNothingIff(s);
  }

  // ----- eviction loops

  lemma ShrunkTransitive(a: Store, b: Store, c: Store)
    requires Shrunk(a, b) && Shrunk(b, c)
    ensures Shrunk(a, c)
  {
  }

  lemma {:induction false} EvictWhileKeeps(s: Store, p: Pressure)
    requires Sound(s)
    ensures Sound(EvictWhile(s, p).store)
    ensures Shrunk(s, EvictWhile(s, p).store)
    ensures Nodes(EvictWhile(s, p).store) <= Nodes(s)
    decreases Nodes(s)
  {
    hide EvictOne, Sound;
    if Over(s, p) {
      var r := EvictOne(s);
      EvictOneKeeps(s);
      if r.source.Some? {
        EvictWhileKeeps(r.store, p);
        ShrunkTransitive(s, r.store, EvictWhile(r.store, p).store);
      }
    }
  }

  /** One node too many and a live cold hash: the capacity loop needs exactly one eviction, and gets it. */
  lemma CountLoopSucceeds(s: Store, h: QueryHash)
    requires Sound(s) && h in s.entries && s.entries[h].freq == 0
    requires Nodes(s) <= Capacity(s.cfg) + 1
    ensures Nodes(EvictWhile(s, Count).store) <= Capacity(s.cfg)
  {
    if Over(s, Count) {
      ColdNodeYields(s, h);
      EvictOneKeeps(s);
    }
  }

  // ----- admission

  /** Stored but not yet admitted: `h` is live and cold, may lack a node and may still be a ghost. */
  ghost predicate Pending(s: Store, h: QueryHash) {
    && h in s.entries && s.entries[h].freq == 0
    && (forall k :: k in s.entries && k != h ==> k in s.small || k in s.main)
    && BytesExact(s)
    && GhostsBounded(s.ghosts, s.cfg.ghostCapacity)
    && (forall k :: k in s.ghosts.members && k != h ==> k !in s.entries)
    && FreqCapped(s.entries)
  }

  lemma StoredIsPending(s: Store, h: QueryHash, e: Entry, exact: Option<QueryHash>)
    requires Sound(s) && e.freq == 0
    ensures Pending(Stored(s, h, e, exact), h)
  {
    InsertBytes(s, h, e);
  }

  lemma InsertBytes(s: Store, h: QueryHash, e: Entry)
    requires BytesExact(s)
    ensures BytesExact(TrackedInsert(s, h, e))
  {
    TotalUpdate(Sizes(s.entries), h, e.size);
    assert Sizes(s.entries[h := e]) == Sizes(s.entries)[h := e.size];
  }

  lemma EnqueueKeeps(s: Store, h: QueryHash)
    requires Pending(s, h)
    ensures var t := Enqueue(s, h);
            && Sound(t) && t.entries == s.entries && t.bytes == s.bytes && t.cfg == s.cfg
            && t.maxEntries == s.maxEntries && t.maxMemory == s.maxMemory && t.perUpstreamLimit == s.perUpstreamLimit
            && t.stats == s.stats && Nodes(t) == Nodes(s) + 1
  {
  }

  lemma ShrinkKeeps(s: Store, h: QueryHash)
    requires Sound(s) && h in s.entries && s.entries[h].freq == 0
    requires Nodes(s) <= Capacity(s.cfg) + 1
    ensures Inv(Shrink(s).store) && Shrunk(s, Shrink(s).store)
  {
    var a := EvictWhile(s, Count).store;
    CountLoopSucceeds(s, h);
    EvictWhileKeeps(s, Count);
    if a.maxMemory != 0 {
      EvictWhileKeeps(a, Memory);
      ShrunkTransitive(s, a, EvictWhile(a, Memory).store);
    }
  }

  /** Admission restores the whole invariant, whatever the queues held. */
  lemma AdmitKeeps(s: Store, h: QueryHash)
    requires Pending(s, h) && Nodes(s) <= Capacity(s.cfg)
    ensures Kept(s, Admit(s, h))
  {
    EnqueueKeeps(s, h);
    ShrinkKeeps(Enqueue(s, h), h);
  }

  lemma PutKeeps(s: Store, h: QueryHash, e: Entry, exact: Option<QueryHash>)
    requires Inv(s) && e.freq == 0
    ensures Kept(s, Put(s, h, e, exact))
  {
    StoredIsPending(s, h, e, exact);
    if h !in s.entries {
      AdmitKeeps(Stored(s, h, e, exact), h);
    }
  }

  // ----- removals

  lemma RemoveKeeps(s: Store, h: QueryHash)
    requires Inv(s)
    ensures Kept(s, TrackedRemove(s, h))
  {
    if h in s.entries {
      assert Sizes(s.entries - {h}) == Sizes(s.entries) - {h};
      TotalRemove(Sizes(s.entries), h);
    }
  }

  lemma {:induction false} RemoveAllKeeps(s: Store, hs: seq<QueryHash>)
    requires Inv(s)
    ensures Kept(s, RemoveAll(s, hs))
    decreases |hs|
  {
    if hs != [] {
      RemoveAllKeeps(s, hs[..|hs| - 1]);
      RemoveKeeps(RemoveAll(s, hs[..|hs| - 1]), hs[|hs| - 1]);
    }
  }

  lemma LimitUpstreamKeeps(s: Store, upstream: string, victims: seq<QueryHash>)
    requires Inv(s)
    ensures Kept(s, LimitUpstream(s, upstream, victims))
  {
    RemoveAllKeeps(s, victims);
  }

  // ----- every operation, every run

  lemma BumpKeeps(s: Store, h: QueryHash)
    requires Inv(s) && h in s.entries
    ensures Kept(s, Bump(s, h))
  {
    assert Sizes(Bump(s, h).entries) == Sizes(s.entries);
  }

  lemma {:induction false} WarmupKeeps(s: Store, items: seq<(string, Option<Response>)>, upstream: string, now: int)
    requires Inv(s)
    ensures Kept(s, Warmup(s, items, upstream, now))
    decreases |items|
  {
    if items != [] {
      if items[0].1.None? {
        WarmupKeeps(s, items[1..], upstream, now);
      } else if |s.entries| < s.maxEntries {
        var e := NewEntry(items[0].1.value, upstream, "default", Some(items[0].0), now);
        PutKeeps(s, HashQuery(s.cfg, items[0].0), e, None);
        WarmupKeeps(Put(s, HashQuery(s.cfg, items[0].0), e, None), items[1..], upstream, now);
      }
    }
  }

  lemma {:induction false} RestoreKeeps(s: Store, items: seq<(QueryHash, Entry)>)
    requires Inv(s)
    ensures Kept(s, Restore(s, items))
    decreases |items|
  {
    if items != [] && |s.entries| < s.maxEntries {
      StoredIsPending(s, items[0].0, items[0].1.(freq := 0), None);
      AdmitKeeps(TrackedInsert(s, items[0].0, items[0].1.(freq := 0)), items[0].0);
      RestoreKeeps(RestoreOne(s, items[0].0, items[0].1), items[1..]);
    }
  }

  lemma {:induction false} EvictTimesKeeps(s: Store, n: nat)
    requires Inv(s)
    ensures Kept(s, EvictTimes(s, n))
    decreases n
  {
    hide EvictOne, Sound;
    if n != 0 && !(s.small == [] && s.main == []) {
      EvictOneKeeps(s);
      EvictTimesKeeps(EvictOne(s).store, n - 1);
    }
  }

  lemma RestatKeeps(s: Store, stats: Stats)
    requires Inv(s)
    ensures Kept(s, s.(stats := stats))
  {
  }

  lemma EvictSmartKeeps(s: Store, expired: seq<QueryHash>, target: nat)
    requires Inv(s)
    ensures Kept(s, EvictSmart(s, expired, target))
  {
    var t := SmartExpired(s, expired, target);
    RemoveAllKeeps(s, if |expired| <= target then expired else expired[..target]);
    EvictTimesKeeps(t, Remaining(target, Lost(s, t)));
    var u := EvictTimes(t, Remaining(target, Lost(s, t)));
    RestatKeeps(u, EvictSmart(s, expired, target).stats);
  }

  lemma ExtendTtlKeeps(s: Store, query: string, now: int)
    requires Inv(s)
    ensures Kept(s, ExtendTtl(s, query, now))
  {
    var h := HashQuery(s.cfg, query);
    if h in s.entries {
      var prev := s.entries[h];
      InsertBytes(s, h, prev.(cachedAt := now, extendedCount := prev.extendedCount + 1, freq := 1));
    }
  }

  lemma GetKeeps(s: Store, query: string)
    requires Inv(s)
    ensures Kept(s, Get(s, query))
  {
    var f := Found(s, query);
    if f.Some? {
      BumpKeeps(s, f.value);
    }
  }

  lemma GetVerifiedKeeps(s: Store, query: string)
    requires Inv(s)
    ensures Kept(s, GetVerified(s, query))
  {
    var h := HashQuery(s.cfg, query);
    RemoveKeeps(s, h);
    if h in s.entries {
      BumpKeeps(s, h);
    }
  }

  lemma EnforceKeeps(s: Store)
    requires Inv(s)
    ensures Kept(s, EnforceMemory(s))
  {
    EvictWhileKeeps(s, Memory);
  }

  lemma InsertsKeep(s: Store, op: Op)
    requires Inv(s) && (op.OpInsert? || op.OpInsertByHash?)
    ensures Kept(s, Step(s, op))
  {
    LimitUpstreamKeeps(s, op.upstream, op.victims);
    var t := LimitUpstream(s, op.upstream, op.victims);
    match op
    case OpInsert(q, r, u, c, now, _) =>
      PutKeeps(t, HashQuery(s.cfg, q), NewEntry(r, u, c, Some(q), now), Some(HashExact(q)));
    case OpInsertByHash(h, r, u, k, now, _) =>
      PutKeeps(t, h, NewEntry(r, u, "default", k, now), None);
  }

  lemma GetByHashKeeps(s: Store, h: QueryHash)
    requires Inv(s)
    ensures Kept(s, GetByHash(s, h))
  {
    if h in s.entries {
      BumpKeeps(s, h);
    }
  }

  lemma RemovingKeeps(s: Store, query: string)
    requires Inv(s)
    ensures Kept(s, Remove(s, query))
  {
    RemoveKeeps(s, HashQuery(s.cfg, query));
  }

  lemma ClearKeeps(s: Store)
    requires Inv(s)
    ensures Kept(s, Clear(s))
  {
    assert Sizes(Clear(s).entries) == map[];
  }

  lemma FingerprintKeeps(s: Store, fingerprint: nat)
    requires Inv(s)
    ensures Kept(s, UpdateFingerprint(s, fingerprint))
  {
    ClearKeeps(s);
  }

  lemma LimitsKeep(s: Store, op: Op)
    requires Inv(s) && SetsLimit(op)
    ensures Inv(Step(s, op)) && Step(s, op).cfg == s.cfg
  {
  }

  lemma EvictKeeps(s: Store, hs: seq<QueryHash>, reason: Reason)
    requires Inv(s)
    ensures Kept(s, Evict(s, hs, reason))
  {
    RemoveAllKeeps(s, hs);
  }

  lemma StepKeepsInv(s: Store, op: Op)
    requires Inv(s)
    ensures Inv(Step(s, op)) && Step(s, op).cfg == s.cfg
    ensures !SetsLimit(op) ==> Kept(s, Step(s, op))
  {
    hide Get, GetVerified, GetByHash, Warmup, Restore, ExtendTtl, Remove, Clear, UpdateFingerprint, EnforceMemory,
         EvictSmart, Evict, Insert, InsertByHash, SetMaxEntries, Inv;
    match op
    case OpGet(q) => GetKeeps(s, q);
    case OpGetVerified(q) => GetVerifiedKeeps(s, q);
    case OpGetByHash(h) => GetByHashKeeps(s, h);
    case OpInsert(_, _, _, _, _, _) => InsertsKeep(s, op);
    case OpInsertByHash(_, _, _, _, _, _) => InsertsKeep(s, op);
    case OpWarmup(items, u, now) => WarmupKeeps(s, items, u, now);
    case OpRestore(items) => RestoreKeeps(s, items);
    case OpExtendTtl(q, now) => ExtendTtlKeeps(s, q, now);
    case OpRemove(q) => RemovingKeeps(s, q);
    case OpClear => ClearKeeps(s);
    case OpFingerprint(f) => FingerprintKeeps(s, f);
    case OpSetMaxEntries(_) => LimitsKeep(s, op);
    case OpSetMaxMemory(_) => LimitsKeep(s, op);
    case OpSetUpstreamLimit(_) => LimitsKeep(s, op);
    case OpEnforceMemory => EnforceKeeps(s);
    case OpEvictSmart(expired, target) => EvictSmartKeeps(s, expired, target);
    case OpEvict(hs, reason) => EvictKeeps(s, hs, reason);
  }

  lemma {:induction false} RunKeepsInv(s: Store, ops: seq<Op>)
    requires Inv(s)
    ensures Inv(Run(s, ops)) && Run(s, ops).cfg == s.cfg
    decreases |ops|
  {
    if ops != [] {
      StepKeepsInv(s, ops[0]);
      RunKeepsInv(Step(s, ops[0]), ops[1..]);
    }
  }

  lemma NewStoreInv(normalize: string -> string, matching: bool, maxEntries: nat, maxMemory: nat)
    ensures Inv(NewStore(normalize, matching, maxEntries, maxMemory))
    ensures Capacity(NewConfig(normalize, matching, maxEntries)) == if maxEntries >= 1 then maxEntries else 1
    ensures NewConfig(normalize, matching, maxEntries).ghostCapacity == if maxEntries >= 1 then maxEntries else 1
  {
    assert Sizes(map[]) == map[];
  }

  /** Fewer live entries than nodes: every live hash has a node of its own. */
  lemma LiveWithinNodes(s: Store)
    requires Covered(s)
    ensures |s.entries| <= Nodes(s)
  {
    var q := s.small + s.main;
    ElemsBounded(q);
    assert s.entries.Keys <= Elems(q);
    SubsetSize(s.entries.Keys, Elems(q));
  }

  lemma {:induction false} ElemsBounded(q: seq<QueryHash>)
    ensures |Elems(q)| <= |q|
    decreases |q|
  {
    if q != [] {
      ElemsBounded(q[1..]);
      assert Elems(q) == {q[0]} + Elems(q[1..]);
    }
  }

  lemma SubsetSize(a: set<QueryHash>, b: set<QueryHash>)
    requires a <= b
    ensures |a| <= |b|
  {
    assert b == a + (b - a);
  }

  /**
   A store built for `maxEntries` never holds more than max(1, maxEntries) nodes or entries, whatever
   operations it sees and however `set_max_entries` is used; its byte counter is exact and covers each entry.
   */
  lemma {:induction false} EveryRunWithinCapacity(normalize: string -> string, matching: bool, maxEntries: nat,
                                                  maxMemory: nat, ops: seq<Op>)
    ensures var s := Run(NewStore(normalize, matching, maxEntries, maxMemory), ops);
            && Nodes(s) <= (if maxEntries >= 1 then maxEntries else 1)
            && |s.entries| <= (if maxEntries >= 1 then maxEntries else 1)
            && s.bytes == Total(Sizes(s.entries))
            && (forall h :: h in s.entries ==> s.entries[h].size <= s.bytes)
  {
    var s0 := NewStore(normalize, matching, maxEntries, maxMemory);
    NewStoreInv(normalize, matching, maxEntries, maxMemory);
    RunKeepsInv(s0, ops);
    var s := Run(s0, ops);
    LiveWithinNodes(s);
    forall h | h in s.entries ensures s.entries[h].size <= s.bytes {
      TotalRemove(Sizes(s.entries), h);
    }
  }
}
