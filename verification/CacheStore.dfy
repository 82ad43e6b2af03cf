/** The cache store with its fields updated in place; every method refines a function of module Store. */
module CacheStores {
  import opened Basics
  import opened Store
  import Spec = Store
  import opened Eviction

  class CacheStore {
    const cfg: Config
    var entries: Entries
    var exactToNormalized: map<QueryHash, QueryHash>
    var small: seq<QueryHash>
    var main: seq<QueryHash>
    var ghostQueue: seq<QueryHash>
    var ghostSet: set<QueryHash>
    var totalBytes: int
    var maxEntries: nat
    var maxMemory: nat
    var perUpstreamLimit: Option<nat>
    var exactHits: nat
    var normalizedHits: nat
    var fingerprint: nat
    var stats: Stats

    ghost function Model(): Store
      reads this
    {
      Store(cfg, entries, exactToNormalized, small, main, Ghosts(ghostQueue, ghostSet), totalBytes,
            maxEntries, maxMemory, perUpstreamLimit, exactHits, normalizedHits, fingerprint, stats)
    }

    constructor (normalize: string -> string, matching: bool, maxEntries: nat, maxMemory: nat)
      ensures Model() == NewStore(normalize, matching, maxEntries, maxMemory)
    {
      cfg := NewConfig(normalize, matching, maxEntries);
      entries, exactToNormalized := map[], map[];
      small, main, ghostQueue, ghostSet := [], [], [], {};
      totalBytes := 0;
      this.maxEntries, this.maxMemory, perUpstreamLimit := maxEntries, maxMemory, None;
      exactHits, normalizedHits, fingerprint := 0, 0, 0;
      stats := NO_STATS;
    }

    // ----- tracked map updates

    method TrackedInsert(h: QueryHash, e: Entry)
      modifies this`entries, this`totalBytes
      ensures Model() == Spec.TrackedInsert(old(Model()), h, e)
    {
      if h in entries {
        var before := entries[h].size;
        if e.size >= before {
          totalBytes := totalBytes + (e.size - before);
        } else {
          totalBytes := totalBytes - (before - e.size);
        }
      } else {
        totalBytes := totalBytes + e.size;
      }
      entries := entries[h := e];
    }

    method TrackedRemove(h: QueryHash) returns (removed: bool)
      modifies this`entries, this`totalBytes, this`exactToNormalized
      ensures Model() == Spec.TrackedRemove(old(Model()), h)
      ensures removed <==> h in old(entries)
    {
      removed := h in entries;
      if removed {
        var prev := entries[h];
        entries := entries - {h};
        totalBytes := totalBytes - prev.size;
        if cfg.normalizedMatching && prev.queryText.Some? {
          exactToNormalized := exactToNormalized - {HashExact(prev.queryText.value)};
        }
      }
    }

    // ----- eviction

    method AddGhost(h: QueryHash)
      modifies this`ghostQueue, this`ghostSet
      ensures Ghosts(ghostQueue, ghostSet) == Spec.AddGhost(old(Ghosts(ghostQueue, ghostSet)), cfg.ghostCapacity, h)
    {
      ghost var q := ghostQueue;
      ghost var n := 0;
      while |ghostQueue| >= cfg.ghostCapacity
        invariant n <= |q| && ghostQueue == q[n..]
        invariant n > 0 ==> |ghostQueue| >= cfg.ghostCapacity - 1
        invariant ghostSet == old(ghostSet) - Elems(q[..n])
      {
        assert Elems(q[..n + 1]) == Elems(q[..n]) + {q[n]} by { assert q[..n + 1] == q[..n] + [q[n]]; }
        ghostSet := ghostSet - {ghostQueue[0]};
        ghostQueue := ghostQueue[1..];
        n := n + 1;
      }
      ghostQueue := ghostQueue + [h];
      ghostSet := ghostSet + {h};
    }

    method ReadAndResetFreq(h: QueryHash) returns (freq: nat)
      modifies this`entries
      ensures entries == Cool(old(entries), [h])
      ensures freq == if h in old(entries) then old(entries)[h].freq else 0
    {
      freq := 0;
      if h in entries {
        freq := entries[h].freq;
        entries := entries[h := entries[h].(freq := 0)];
      }
    }

    method PopSmall() returns (h: QueryHash, freq: nat)
      requires small != []
      modifies this`small, this`entries
      ensures h == old(small)[0] && freq == (if h in old(entries) then old(entries)[h].freq else 0)
      ensures Model() == old(Model()).(small := old(small)[1..], entries := Cool(old(entries), [h]))
    {
      h := small[0];
      small := small[1..];
      freq := ReadAndResetFreq(h);
    }

    method PopMain() returns (h: QueryHash, freq: nat)
      requires main != []
      modifies this`main, this`entries
      ensures h == old(main)[0] && freq == (if h in old(entries) then old(entries)[h].freq else 0)
      ensures Model() == old(Model()).(main := old(main)[1..], entries := Cool(old(entries), [h]))
    {
      h := main[0];
      main := main[1..];
      freq := ReadAndResetFreq(h);
    }

    /** Drop the entry, if it is still there, and remember its hash. */
    method Bury(h: QueryHash) returns (removed: bool)
      modifies this`entries, this`totalBytes, this`exactToNormalized, this`ghostQueue, this`ghostSet
      ensures removed <==> h in old(entries)
      ensures Model() == Spec.TrackedRemove(old(Model()), h).(
                           ghosts := Spec.AddGhost(old(Model()).ghosts, cfg.ghostCapacity, h))
    {
      removed := TrackedRemove(h);
      AddGhost(h);
    }

    /** One round of the Small scan: evict, promote, or turn a stale node into a ghost. */
    method MeetSmallHead() returns (evicted: bool, promoted: bool)
      requires small != []
      modifies this`small, this`main, this`entries, this`totalBytes, this`exactToNormalized, this`ghostQueue,
               this`ghostSet
      ensures var s, h := old(Model()), old(small)[0];
              var t := s.(small := s.small[1..], entries := Cool(s.entries, [h]));
              var g := Spec.AddGhost(s.ghosts, cfg.ghostCapacity, h);
              && evicted == (h in s.entries && s.entries[h].freq == 0)
              && promoted == (h in s.entries && s.entries[h].freq != 0)
              && Model() == (if promoted then t.(main := s.main + [h])
                             else if evicted then Spec.TrackedRemove(t, h).(ghosts := g)
                             else t.(ghosts := g))
    {
      var h, freq := PopSmall();
      evicted, promoted := false, freq != 0;
      if promoted {
        main := main + [h];
      } else {
        evicted := Bury(h);
      }
    }

    method ScanSmallQueue() returns (evicted: bool, promotions: nat)
      modifies this`small, this`main, this`entries, this`totalBytes, this`exactToNormalized, this`ghostQueue,
               this`ghostSet
      ensures evicted <==> FirstStop(old(entries), old(small)) < |old(small)|
      ensures promotions == |Keep(old(entries), old(small)[..FirstStop(old(entries), old(small))])|
      ensures Model() == Spec.EvictFromSmall(old(Model())).store.(stats := old(stats))
    {
      hide FirstStop, Keep, Drop, Cool, AddGhosts, Spec.AddGhost, Spec.TrackedRemove, Spec.EvictFromSmall;
      ghost var s, e, q, g := Model(), entries, small, Ghosts(ghostQueue, ghostSet);
      var attempts, k := |small|, 0;
      evicted, promotions := false, 0;
      ScanStart(e, q);
      NoGhosts(g, cfg.ghostCapacity);
      while k < attempts
        invariant k <= attempts == |q|
        invariant k <= FirstStop(e, q)
        invariant Model() == s.(entries := Cool(e, q[..k]), small := q[k..], main := s.main + Keep(e, q[..k]),
                                ghosts := AddGhosts(g, cfg.ghostCapacity, Drop(e, q[..k])))
        invariant promotions == |Keep(e, q[..k])| && !evicted
      {
        MeetNode(e, q, k);
        FileNode(e, q, k, g, cfg.ghostCapacity);
        PromoteNode(e, q, k, s.main);
        assert small[0] == q[k] && entries == Cool(e, q[..k]);
        var promoted;
        evicted, promoted := MeetSmallHead();
        assert evicted <==> k == FirstStop(e, q);
        if evicted {
          BuriedVictim(s, k);
          return;
        }
        if promoted {
          promotions := promotions + 1;
        }
        assert entries == Cool(e, q[..k + 1]) && small == q[k + 1..];
        assert main == s.main + Keep(e, q[..k + 1]);
        assert Ghosts(ghostQueue, ghostSet) == AddGhosts(g, cfg.ghostCapacity, Drop(e, q[..k + 1]));
        k := k + 1;
      }
      SmallExhausted(s);
    }

    method EvictFromSmall() returns (source: Option<Source>)
      modifies this
      ensures Evicted(Model(), source) == Spec.EvictFromSmall(old(Model()))
    {
      var evicted, promotions := ScanSmallQueue();
      stats := stats.(promotions := stats.promotions + promotions);
      source := if evicted then Some(Small) else None;
    }

    /** One round of the Main scan: evict, requeue, or drop a stale node. */
    method MeetMainHead() returns (evicted: bool)
      requires main != []
      modifies this`main, this`entries, this`totalBytes, this`exactToNormalized
      ensures var s, h := old(Model()), old(main)[0];
              var t := s.(main := s.main[1..], entries := Cool(s.entries, [h]));
              && evicted == (h in s.entries && s.entries[h].freq == 0)
              && Model() == (if evicted then Spec.TrackedRemove(t, h)
                             else if h in s.entries then t.(main := t.main + [h])
                             else t)
    {
      var h, freq := PopMain();
      evicted := false;
      if freq == 0 {
        evicted := TrackedRemove(h);
      } else {
        main := main + [h];
      }
    }

    method EvictFromMain() returns (source: Option<Source>)
      modifies this
      ensures Evicted(Model(), source) == Spec.EvictFromMain(old(Model()))
    {
      hide FirstStop, Keep, Drop, Cool, AddGhosts, Spec.TrackedRemove, Spec.EvictFromMain;
      ghost var s, e, q := Model(), entries, main;
      var attempts, k := |main|, 0;
      ScanStart(e, q);
      while k < attempts
        invariant k <= attempts == |q|
        invariant k <= FirstStop(e, q)
        invariant Model() == s.(entries := Cool(e, q[..k]), main := main)
        invariant main == q[k..] + Keep(e, q[..k])
      {
        MeetNode(e, q, k);
        FileNode(e, q, k, s.ghosts, cfg.ghostCapacity);
        TailOf(q, k, Keep(e, q[..k]));
        assert main[0] == q[k] && entries == Cool(e, q[..k]);
        var evicted := MeetMainHead();
        assert evicted <==> k == FirstStop(e, q);
        if evicted {
          RemovedVictim(s, k);
          return Some(Main);
        }
        assert entries == Cool(e, q[..k + 1]);
        k := k + 1;
      }
      MainExhausted(s);
      return None;
    }

    /** Both `s3fifo_evict_one` and `s3fifo_evict_one_memory`: their bodies are the same. */
    method EvictOne() returns (source: Option<Source>)
      modifies this
      ensures Evicted(Model(), source) == Spec.EvictOne(old(Model()))
    {
      ghost var s := Model();
      EmptyScans(s);
      if small != [] {
        source := EvictFromSmall();
        if source.Some? {
          return;
        }
      }
      assert Model() == Spec.EvictFromSmall(s).store;
      EvictOneSplits(s);
      EmptyScans(Model());
      if main != [] {
        source := EvictFromMain();
        return;
      }
      source := None;
    }

    /** Evict until the pressure is off or a scan evicts nothing. */
    method Drain(p: Pressure) returns (fromSmall: nat, fromMain: nat)
      modifies this
      ensures Drained(Model(), fromSmall, fromMain) == EvictWhile(old(Model()), p)
    {
      ghost var goal := EvictWhile(Model(), p);
      fromSmall, fromMain := 0, 0;
      while if p == Count then |small| + |main| > cfg.smallCapacity + cfg.mainCapacity else totalBytes > maxMemory
        invariant goal.store == EvictWhile(Model(), p).store
        invariant goal.fromSmall == fromSmall + EvictWhile(Model(), p).fromSmall
        invariant goal.fromMain == fromMain + EvictWhile(Model(), p).fromMain
        decreases |small| + |main|
      {
        var source := EvictOne();
        match source
        case None => return;
        case Some(Small) => fromSmall := fromSmall + 1;
        case Some(Main) => fromMain := fromMain + 1;
      }
    }

    /** A remembered hash goes to Main, any other to Small. */
    method EnqueueHash(h: QueryHash) returns (wasGhost: bool)
      modifies this`small, this`main, this`ghostQueue, this`ghostSet
      ensures Model() == Enqueue(old(Model()), h)
      ensures wasGhost <==> h in old(ghostSet)
    {
      wasGhost := h in ghostSet;
      if wasGhost {
        ghostSet := ghostSet - {h};
        ghostQueue := Without(ghostQueue, h);
        main := main + [h];
      } else {
        small := small + [h];
      }
    }

    method ShrinkQueues() returns (fromSmall: nat, fromMain: nat)
      modifies this
      ensures Drained(Model(), fromSmall, fromMain) == Shrink(old(Model()))
    {
      fromSmall, fromMain := Drain(Count);
      if maxMemory > 0 {
        var a, b := Drain(Memory);
        fromSmall, fromMain := fromSmall + a, fromMain + b;
      }
    }

    method Admit(h: QueryHash)
      modifies this
      ensures Model() == Spec.Admit(old(Model()), h)
    {
      var wasGhost := EnqueueHash(h);
      var fromSmall, fromMain := ShrinkQueues();
      stats := ChargeAdmission(stats, wasGhost, fromSmall, fromMain);
    }

    method EnforceMemoryLimit() returns (evicted: nat)
      modifies this
      ensures Model() == EnforceMemory(old(Model()))
      ensures evicted == stats.total - old(stats.total)
    {
      if maxMemory == 0 {
        return 0;
      }
      DrainKeepsTotal(Model(), Memory);
      var fromSmall, fromMain := Drain(Memory);
      evicted := fromSmall + fromMain;
      stats := stats.(total := stats.total + evicted);
    }

    // ----- lookups

    method BumpEntry(h: QueryHash)
      requires h in entries
      modifies this`entries
      ensures Model() == Bump(old(Model()), h)
    {
      var f := entries[h].freq + 1;
      entries := entries[h := entries[h].(freq := if f < 3 then f else 3)];
    }

    method Get(query: string) returns (entry: Option<Entry>)
      modifies this`entries, this`exactToNormalized, this`exactHits, this`normalizedHits
      ensures Model() == Spec.Get(old(Model()), query)
      ensures var f := Found(old(Model()), query);
              if f.None? then entry == None else entry == Some(Model().entries[f.value])
    {
      if cfg.normalizedMatching {
        entry := GetTwoTier(query);
        return;
      }
      var h := HashQuery(cfg, query);
      if h !in entries {
        return None;
      }
      BumpEntry(h);
      exactHits := exactHits + 1;
      return Some(entries[h]);
    }

    method GetTwoTier(query: string) returns (entry: Option<Entry>)
      requires cfg.normalizedMatching
      modifies this`entries, this`exactToNormalized, this`exactHits, this`normalizedHits
      ensures Model() == Spec.Get(old(Model()), query)
      ensures var f := Found(old(Model()), query);
              if f.None? then entry == None else entry == Some(Model().entries[f.value])
    {
      var exact := HashExact(query);
      if exact in exactToNormalized && exactToNormalized[exact] in entries {
        var n := exactToNormalized[exact];
        BumpEntry(n);
        exactHits := exactHits + 1;
        return Some(entries[n]);
      }
      var h := HashQuery(cfg, query);
      if h !in entries {
        return None;
      }
      exactToNormalized := exactToNormalized[exact := h];
      BumpEntry(h);
      normalizedHits := normalizedHits + 1;
      return Some(entries[h]);
    }

    method GetVerified(query: string) returns (entry: Option<Entry>)
      modifies this
      ensures Model() == Spec.GetVerified(old(Model()), query)
      ensures var h := HashQuery(cfg, query);
              && (entry.Some? <==> h in old(entries) && !old(entries)[h].corrupt)
              && (entry.Some? ==> h in entries && entry.value == entries[h])
    {
      var h := HashQuery(cfg, query);
      if h !in entries {
        return None;
      }
      if entries[h].corrupt {
        var _ := TrackedRemove(h);
        stats := stats.(integrityFailures := stats.integrityFailures + 1);
        return None;
      }
      BumpEntry(h);
      return Some(entries[h]);
    }

    method GetByHash(h: QueryHash) returns (entry: Option<Entry>)
      modifies this`entries
      ensures Model() == Spec.GetByHash(old(Model()), h)
      ensures entry == if h in old(entries) then Some(entries[h]) else None
    {
      if h !in entries {
        return None;
      }
      BumpEntry(h);
      return Some(entries[h]);
    }

    // ----- limits

    /** Zero is refused and changes nothing. */
    method SetMaxEntries(n: nat) returns (ok: bool)
      modifies this`maxEntries
      ensures Model() == Spec.SetMaxEntries(old(Model()), n)
      ensures ok <==> n > 0
    {
      ok := n > 0;
      if ok {
        maxEntries := n;
      }
    }

    method SetMaxMemory(bytes: nat)
      modifies this`maxMemory
      ensures Model() == Step(old(Model()), OpSetMaxMemory(bytes))
    {
      maxMemory := bytes;
    }

    method SetUpstreamLimit(limit: Option<nat>)
      modifies this`perUpstreamLimit
      ensures Model() == Step(old(Model()), OpSetUpstreamLimit(limit))
    {
      perUpstreamLimit := limit;
    }

    // ----- insertion

    method OldestAmong(left: set<QueryHash>) returns (h: QueryHash)
      requires left != {} && left <= entries.Keys
      ensures h in left && forall k :: k in left ==> entries[h].cachedAt <= entries[k].cachedAt
    {
      OldestExists(entries, left);
      h :| h in left && forall k :: k in left ==> entries[h].cachedAt <= entries[k].cachedAt;
    }

    /** The oldest `count` entries of an upstream, oldest first. */
    method OldestOf(upstream: string, count: nat) returns (picked: seq<QueryHash>)
      ensures OldestFirst(entries, upstream, count, picked)
    {
      picked := [];
      var left := OfUpstream(entries, upstream);
      while |picked| < count && left != {}
        invariant |picked| <= count && PickedFrom(entries, OfUpstream(entries, upstream), left, picked)
      {
        var h := OldestAmong(left);
        PickNext(entries, OfUpstream(entries, upstream), left, picked, h);
        picked := picked + [h];
        left := left - {h};
      }
    }

    method RemoveEach(hashes: seq<QueryHash>) returns (count: nat)
      modifies this`entries, this`totalBytes, this`exactToNormalized
      ensures Model() == RemoveAll(old(Model()), hashes)
      ensures count == |old(entries)| - |entries|
    {
      count := 0;
      assert hashes[..0] == [];
      for i := 0 to |hashes|
        invariant Model() == RemoveAll(old(Model()), hashes[..i])
        invariant count == |old(entries)| - |entries|
      {
        assert hashes[..i + 1][..i] == hashes[..i];
        RemovalSize(entries, hashes[i]);
        var removed := TrackedRemove(hashes[i]);
        if removed {
          count := count + 1;
        }
      }
      assert hashes[..|hashes|] == hashes;
    }

    /** Remove the listed entries and charge the removals to `reason`. */
    method RemoveListed(hashes: seq<QueryHash>, reason: Reason) returns (count: nat)
      modifies this
      ensures Model() == Evict(old(Model()), hashes, reason)
      ensures count == |old(entries)| - |entries|
    {
      count := RemoveEach(hashes);
      stats := Charge(stats, reason, count);
    }

    method EvictFromUpstream(upstream: string, count: nat) returns (victims: seq<QueryHash>, evicted: nat)
      modifies this
      ensures OldestFirst(old(entries), upstream, count, victims)
      ensures Model() == Evict(old(Model()), victims, Oldest)
      ensures evicted == |old(entries)| - |entries|
    {
      victims := OldestOf(upstream, count);
      evicted := RemoveListed(victims, Oldest);
    }

    method EnforceUpstreamLimit(upstream: string) returns (victims: seq<QueryHash>)
      modifies this
      ensures Model() == LimitUpstream(old(Model()), upstream, victims)
      ensures if LimitReached(old(Model()), upstream) then OldestFirst(old(entries), upstream, 1, victims)
              else victims == []
    {
      victims := [];
      if perUpstreamLimit.Some? && |OfUpstream(entries, upstream)| >= perUpstreamLimit.value {
        var evicted;
        victims, evicted := EvictFromUpstream(upstream, 1);
        stats := stats.(perUpstream := stats.perUpstream + 1);
      }
    }

    method PutEntry(h: QueryHash, e: Entry, exact: Option<QueryHash>)
      modifies this
      ensures Model() == Put(old(Model()), h, e, exact)
    {
      var isNew := h !in entries;
      TrackedInsert(h, e);
      if exact.Some? && cfg.normalizedMatching {
        exactToNormalized := exactToNormalized[exact.value := h];
      }
      if isNew {
        Admit(h);
      }
    }

    method Insert(query: string, response: Response, upstream: string, context: string, now: int)
      returns (victims: seq<QueryHash>)
      modifies this
      ensures Model() == Spec.Insert(old(Model()), query, response, upstream, context, now, victims)
      ensures if LimitReached(old(Model()), upstream) then OldestFirst(old(entries), upstream, 1, victims)
              else victims == []
    {
      victims := EnforceUpstreamLimit(upstream);
      PutEntry(HashQuery(cfg, query), NewEntry(response, upstream, context, Some(query), now), Some(HashExact(query)));
    }

    method InsertByHash(h: QueryHash, response: Response, upstream: string, key: Option<string>, now: int)
      returns (victims: seq<QueryHash>)
      modifies this
      ensures Model() == Spec.InsertByHash(old(Model()), h, response, upstream, key, now, victims)
      ensures if LimitReached(old(Model()), upstream) then OldestFirst(old(entries), upstream, 1, victims)
              else victims == []
    {
      victims := EnforceUpstreamLimit(upstream);
      PutEntry(h, NewEntry(response, upstream, "default", key, now), None);
    }

    method Warmup(items: seq<(string, Option<Response>)>, upstream: string, now: int) returns (inserted: nat)
      modifies this
      ensures Model() == Spec.Warmup(old(Model()), items, upstream, now)
      ensures inserted == WarmupStored(old(Model()), items, upstream, now)
    {
      hide Put;
      ghost var goal, count := Spec.Warmup(Model(), items, upstream, now), WarmupStored(Model(), items, upstream, now);
      inserted := 0;
      assert items[0..] == items;
      for i := 0 to |items|
        invariant goal == Spec.Warmup(Model(), items[i..], upstream, now)
        invariant count == inserted + WarmupStored(Model(), items[i..], upstream, now)
      {
        assert items[i..][1..] == items[i + 1..];
        var (query, response) := items[i];
        if response.None? {
          continue;
        }
        if |entries| >= maxEntries {
          return;
        }
        PutEntry(HashQuery(cfg, query), NewEntry(response.value, upstream, "default", Some(query), now), None);
        inserted := inserted + 1;
      }
      assert items[|items|..] == [];
    }

    method Restore(items: seq<(QueryHash, Entry)>) returns (restored: nat)
      modifies this
      ensures Model() == Spec.Restore(old(Model()), items)
      ensures restored == RestoreStored(old(Model()), items)
    {
      hide Spec.Admit;
      ghost var goal, count := Spec.Restore(Model(), items), RestoreStored(Model(), items);
      restored := 0;
      assert items[0..] == items;
      for i := 0 to |items|
        invariant goal == Spec.Restore(Model(), items[i..])
        invariant count == restored + RestoreStored(Model(), items[i..])
      {
        assert items[i..][1..] == items[i + 1..];
        if |entries| >= maxEntries {
          return;
        }
        TrackedInsert(items[i].0, items[i].1.(freq := 0));
        Admit(items[i].0);
        restored := restored + 1;
      }
      assert items[|items|..] == [];
    }

    // ----- expiry, removal, clearing

    method ExtendTtl(query: string, now: int)
      modifies this`entries, this`totalBytes
      ensures Model() == Spec.ExtendTtl(old(Model()), query, now)
    {
      var h := HashQuery(cfg, query);
      if h in entries {
        var prev := entries[h];
        TrackedInsert(h, prev.(cachedAt := now, extendedCount := prev.extendedCount + 1, freq := 1));
      }
    }

    method Remove(query: string)
      modifies this
      ensures Model() == Spec.Remove(old(Model()), query)
    {
      var _ := TrackedRemove(HashQuery(cfg, query));
      exactToNormalized := exactToNormalized - {HashExact(query)};
    }

    method Clear()
      modifies this
      ensures Model() == Spec.Clear(old(Model()))
    {
      entries, exactToNormalized, totalBytes := map[], map[], 0;
      small, main, ghostQueue, ghostSet := [], [], [], {};
    }

    method UpdateFingerprint(next: nat) returns (invalidated: bool)
      modifies this
      ensures Model() == Spec.UpdateFingerprint(old(Model()), next)
      ensures invalidated <==> old(fingerprint) != 0 && old(fingerprint) != next
    {
      invalidated := fingerprint != 0 && fingerprint != next;
      fingerprint := next;
      if invalidated {
        Clear();
      }
    }

    /** Some enumeration of the hashes whose entries satisfy `p`. */
    method Select(p: Entry -> bool) returns (hashes: seq<QueryHash>)
      ensures Enumerates(entries, p, hashes)
    {
      hashes := [];
      var left := set h | h in entries && p(entries[h]);
      while left != {}
        invariant left + Elems(hashes) == (set h | h in entries && p(entries[h])) && left !! Elems(hashes)
        invariant Distinct(hashes)
        decreases left
      {
        var h :| h in left;
        assert Elems(hashes + [h]) == Elems(hashes) + {h};
        hashes := hashes + [h];
        left := left - {h};
      }
      forall h ensures h in hashes <==> h in entries && p(entries[h]) {
        assert h in Elems(hashes) <==> h in set h | h in entries && p(entries[h]);
      }
    }

    /** `evict_truly_expired`, `remove_corrupted` and `evict_filter`: select, truncate, remove. */
    method EvictWhere(p: Entry -> bool, limit: Option<nat>, reason: Reason)
      returns (hashes: seq<QueryHash>, removed: nat)
      modifies this
      ensures exists all :: Enumerates(old(entries), p, all) && hashes <= all &&
                |hashes| == (if limit.Some? then Min(|all|, limit.value) else |all|)
      ensures Model() == Evict(old(Model()), hashes, reason)
      ensures removed == |old(entries)| - |entries|
    {
      hashes := Select(p);
      if limit.Some? && |hashes| > limit.value {
        hashes := hashes[..limit.value];
      }
      removed := RemoveListed(hashes, reason);
    }

    /** Up to n scans; a scan that evicts nothing does not end the loop. */
    method ScanTimes(n: nat) returns (evicted: nat)
      modifies this
      ensures Model() == EvictTimes(old(Model()), n)
      ensures evicted == |old(entries)| - |entries|
    {
      hide Spec.EvictOne;
      ghost var goal := EvictTimes(Model(), n);
      var scans := 0;
      evicted := 0;
      while scans < n && !(small == [] && main == [])
        invariant scans <= n
        invariant goal == EvictTimes(Model(), n - scans)
        invariant evicted == |old(entries)| - |entries|
      {
        ScanLoses(Model());
        var source := EvictOne();
        if source.Some? {
          evicted := evicted + 1;
        }
        scans := scans + 1;
      }
    }

    method EvictSmart(now: int, ttl: int, target: nat) returns (expired: seq<QueryHash>)
      modifies this
      ensures Enumerates(old(entries), (e: Entry) => now - e.cachedAt > ttl, expired)
      ensures Model() == Spec.EvictSmart(old(Model()), expired, target)
    {
      expired := Select((e: Entry) => now - e.cachedAt > ttl);
      var evicted := RemoveExpired(expired, target);
      var scanned := ScanTimes(Remaining(target, evicted));
      stats := stats.(expired := stats.expired + evicted, total := stats.total + evicted + scanned);
    }

    /** The first phase: at most `target` of the listed entries, all of which are live. */
    method RemoveExpired(expired: seq<QueryHash>, target: nat) returns (evicted: nat)
      requires Distinct(expired) && forall h :: h in expired ==> h in entries
      modifies this
      ensures Model() == SmartExpired(old(Model()), expired, target)
      ensures evicted == Lost(old(Model()), Model()) && |entries| <= |old(entries)|
    {
      evicted := 0;
      assert expired[..0] == [];
      while evicted < |expired| && evicted < target
        invariant evicted <= |expired| && evicted <= target
        invariant Model() == RemoveAll(old(Model()), expired[..evicted])
        invariant evicted == |old(entries)| - |entries|
        invariant forall j :: evicted <= j < |expired| ==> expired[j] in entries
      {
        assert expired[..evicted + 1][..evicted] == expired[..evicted];
        RemovalSize(entries, expired[evicted]);
        var _ := TrackedRemove(expired[evicted]);
        evicted := evicted + 1;
      }
      assert evicted == |expired| ==> expired[..evicted] == expired;
    }

    /** What summing the live entries one by one gives. */
    method MemoryUsage() returns (total: nat)
      ensures total == Total(Sizes(entries))
    {
      total := 0;
      var left := Sizes(entries);
      while left != map[]
        invariant total + Total(left) == Total(Sizes(entries))
        decreases left.Keys
      {
        var h :| h in left;
        TotalRemove(left, h);
        total := total + left[h];
        left := left - {h};
      }
    }
  }

  // ----- selection

  ghost predicate OldestFirst(e: Entries, upstream: string, count: nat, picked: seq<QueryHash>) {
    && |picked| == Min(count, |OfUpstream(e, upstream)|)
    && Distinct(picked)
    && (forall h :: h in picked ==> h in OfUpstream(e, upstream))
    && (forall i, j :: 0 <= i < j < |picked| ==>
          picked[i] in e && picked[j] in e && e[picked[i]].cachedAt <= e[picked[j]].cachedAt)
    && (forall p, h :: p in picked && h in OfUpstream(e, upstream) && h !in picked ==>
          p in e && e[p].cachedAt <= e[h].cachedAt)
  }

  ghost predicate Enumerates(e: Entries, p: Entry -> bool, hashes: seq<QueryHash>) {
    Distinct(hashes) && forall h :: h in hashes <==> h in e && p(e[h])
  }

  /** `picked` took the oldest of `all` in order and left `left`. */
  ghost predicate PickedFrom(e: Entries, all: set<QueryHash>, left: set<QueryHash>, picked: seq<QueryHash>) {
    && all <= e.Keys && left <= all && |picked| + |left| == |all|
    && (forall h :: h in all ==> (h in picked <==> h !in left))
    && (forall h :: h in picked ==> h in all)
    && Distinct(picked)
    && (forall i, j :: 0 <= i < j < |picked| ==>
          picked[i] in e && picked[j] in e && e[picked[i]].cachedAt <= e[picked[j]].cachedAt)
    && (forall p, h :: p in picked && h in left ==> p in e && h in e && e[p].cachedAt <= e[h].cachedAt)
  }

  lemma PickNext(e: Entries, all: set<QueryHash>, left: set<QueryHash>, picked: seq<QueryHash>, h: QueryHash)
    requires PickedFrom(e, all, left, picked)
    requires h in left && forall k :: k in left ==> k in e && e[h].cachedAt <= e[k].cachedAt
    ensures PickedFrom(e, all, left - {h}, picked + [h])
  {
    var next := picked + [h];
    forall i | 0 <= i < |picked| ensures picked[i] != h && e[picked[i]].cachedAt <= e[h].cachedAt {
      assert picked[i] in picked;
    }
  }

  lemma {:induction false} OldestExists(e: Entries, left: set<QueryHash>)
    requires left != {} && left <= e.Keys
    ensures exists h :: h in left && forall k :: k in left ==> e[h].cachedAt <= e[k].cachedAt
    decreases |left|
  {
    var h :| h in left;
    if left != {h} {
      OldestExists(e, left - {h});
      var m :| m in left - {h} && forall k :: k in left - {h} ==> e[m].cachedAt <= e[k].cachedAt;
      var best := if e[h].cachedAt <= e[m].cachedAt then h else m;
      forall k | k in left ensures e[best].cachedAt <= e[k].cachedAt {
        if k != h { assert k in left - {h}; }
      }
    }
  }

  lemma RemovalSize(e: Entries, h: QueryHash)
    ensures |e - {h}| == |e| - (if h in e then 1 else 0)
  {
    var m := e - {h};
    assert m.Keys == e.Keys - {h};
    assert |m| == |m.Keys| && |e| == |e.Keys|;
  }

  lemma ScanLoses(s: Store)
    ensures |EvictOne(s).store.entries| == |s.entries| - (if EvictOne(s).source.Some? then 1 else 0)
  {
    ScanShrinks(s.entries, s.small, s.main);
    var o := Scan(s.entries, s.small, s.main);
    assert |o.entries| == |o.entries.Keys| && |s.entries| == |s.entries.Keys|;
  }

  lemma {:induction false} DrainKeepsTotal(s: Store, p: Pressure)
    ensures EvictWhile(s, p).store.stats.total == s.stats.total
    decreases Nodes(s)
  {
    if Over(s, p) && EvictOne(s).source.Some? {
      DrainKeepsTotal(EvictOne(s).store, p);
    }
  }

  // ----- scans, one node at a time

  /** Meeting node k: what becomes of the counters, the live nodes and the stale ones. */
  lemma MeetNode(e: Entries, q: seq<QueryHash>, k: nat)
    requires k < |q|
    ensures var h, c := q[k], Cool(e, q[..k]);
            && Cool(c, [h]) == Cool(e, q[..k + 1])
            && (h in c <==> h in e)
            && (k <= FirstStop(e, q) ==> (k == FirstStop(e, q) <==> h in c && c[h].freq == 0))
            && Cool(e, q[..k + 1]) - {h} == c - {h}
  {
    assert q[..k + 1] == q[..k] + [q[k]];
    CoolTwice(e, q[..k], [q[k]], q[..k + 1]);
    assert StopsAt(e, q, k) <==> q[k] in e && Cool(e, q[..k])[q[k]].freq == 0;
  }

  lemma FileNode(e: Entries, q: seq<QueryHash>, k: nat, g: Ghosts, capacity: pos)
    requires k < |q|
    ensures q[k] in e ==>
              && Keep(e, q[..k + 1]) == Keep(e, q[..k]) + [q[k]]
              && AddGhosts(g, capacity, Drop(e, q[..k + 1])) == AddGhosts(g, capacity, Drop(e, q[..k]))
    ensures q[k] !in e ==>
              && Keep(e, q[..k + 1]) == Keep(e, q[..k])
              && AddGhosts(g, capacity, Drop(e, q[..k + 1])) ==
                   AddGhost(AddGhosts(g, capacity, Drop(e, q[..k])), capacity, q[k])
  {
    assert q[..k + 1] == q[..k] + [q[k]];
    KeepAppend(e, q[..k], q[k]);
    GhostLast(g, capacity, Drop(e, q[..k]), q[k]);
  }

  lemma PromoteNode(e: Entries, q: seq<QueryHash>, k: nat, main: seq<QueryHash>)
    requires k < |q|
    ensures q[k] in e ==> main + Keep(e, q[..k + 1]) == (main + Keep(e, q[..k])) + [q[k]]
    ensures |Keep(e, q[..k + 1])| == |Keep(e, q[..k])| + (if q[k] in e then 1 else 0)
  {
    assert q[..k + 1] == q[..k] + [q[k]];
    KeepAppend(e, q[..k], q[k]);
  }

  lemma TailOf(q: seq<QueryHash>, k: nat, kept: seq<QueryHash>)
    requires k < |q|
    ensures (q[k..] + kept)[0] == q[k]
    ensures (q[k..] + kept)[1..] == q[k + 1..] + kept
    ensures (q[k + 1..] + kept) + [q[k]] == q[k + 1..] + (kept + [q[k]])
  {
  }

  lemma NoGhosts(g: Ghosts, capacity: pos)
    ensures AddGhosts(g, capacity, []) == g
  {
  }

  lemma ScanStart(e: Entries, q: seq<QueryHash>)
    ensures Cool(e, q[..0]) == e && Keep(e, q[..0]) == [] && Drop(e, q[..0]) == [] && q[0..] == q && q + [] == q
  {
  }

  lemma ScanSmallStop(e: Entries, q: seq<QueryHash>, main: seq<QueryHash>, k: nat)
    requires k == FirstStop(e, q) < |q|
    ensures ScanSmall(e, q, main) ==
            Outcome(Cool(e, q[..k]) - {q[k]}, q[k + 1..], main + Keep(e, q[..k]), Some(q[k]), Some(Small),
                    Drop(e, q[..k]) + [q[k]], |Keep(e, q[..k])|)
  {
  }

  lemma ScanSmallExhausted(e: Entries, q: seq<QueryHash>, main: seq<QueryHash>)
    requires FirstStop(e, q) == |q|
    ensures ScanSmall(e, q, main) ==
            Outcome(Cool(e, q[..|q|]), [], main + Keep(e, q[..|q|]), None, None, Drop(e, q[..|q|]), |Keep(e, q[..|q|])|)
  {
  }

  /** The Small scan stops at node k: the whole effect, field by field. */
  lemma SmallStop(s: Store, k: nat)
    requires k == FirstStop(s.entries, s.small) < |s.small|
    ensures var e, q := s.entries, s.small; var met := q[..k];
            Spec.EvictFromSmall(s) == Evicted(
              s.(entries := Cool(e, met) - {q[k]},
                 small := q[k + 1..],
                 main := s.main + Keep(e, met),
                 ghosts := AddGhost(AddGhosts(s.ghosts, s.cfg.ghostCapacity, Drop(e, met)), s.cfg.ghostCapacity, q[k]),
                 bytes := s.bytes - e[q[k]].size,
                 exactToNormalized := Unmap(s.cfg, s.exactToNormalized, e[q[k]]),
                 stats := s.stats.(promotions := s.stats.promotions + |Keep(e, met)|)),
              Some(Small))
  {
    ScanSmallStop(s.entries, s.small, s.main, k);
    GhostLast(s.ghosts, s.cfg.ghostCapacity, Drop(s.entries, s.small[..k]), s.small[k]);
  }

  /** Removing a met entry is removing the entry: resetting its counter changed neither size nor text. */
  lemma RemoveMet(s: Store, met: seq<QueryHash>, h: QueryHash)
    requires h in s.entries
    ensures Spec.TrackedRemove(s.(entries := Cool(s.entries, met)), h) ==
            s.(entries := Cool(s.entries, met) - {h},
               bytes := s.bytes - s.entries[h].size,
               exactToNormalized := Unmap(s.cfg, s.exactToNormalized, s.entries[h]))
  {
  }

  lemma BuriedVictim(s: Store, k: nat)
    requires k == FirstStop(s.entries, s.small) < |s.small|
    ensures var e, q, cap := s.entries, s.small, s.cfg.ghostCapacity;
            var g := AddGhosts(s.ghosts, cap, Drop(e, q[..k]));
            var p := s.(entries := Cool(e, q[..k + 1]), small := q[k..][1..], main := s.main + Keep(e, q[..k]),
                        ghosts := g);
            Spec.EvictFromSmall(s).store.(stats := s.stats) ==
              Spec.TrackedRemove(p, q[k]).(ghosts := AddGhost(g, cap, q[k]))
  {
    var e, q := s.entries, s.small;
    SmallStop(s, k);
    MeetNode(e, q, k);
    RemoveMet(s.(small := q[k + 1..], main := s.main + Keep(e, q[..k]),
                 ghosts := AddGhosts(s.ghosts, s.cfg.ghostCapacity, Drop(e, q[..k]))), q[..k + 1], q[k]);
    assert q[k..][1..] == q[k + 1..];
  }

  lemma RemovedVictim(s: Store, k: nat)
    requires k == FirstStop(s.entries, s.main) < |s.main|
    ensures var e, q := s.entries, s.main;
            var p := s.(entries := Cool(e, q[..k + 1]), main := q[k + 1..] + Keep(e, q[..k]));
            Spec.EvictFromMain(s) == Evicted(Spec.TrackedRemove(p, q[k]), Some(Main))
  {
    var e, q := s.entries, s.main;
    MainStop(s, k);
    MeetNode(e, q, k);
    RemoveMet(s.(main := q[k + 1..] + Keep(e, q[..k])), q[..k + 1], q[k]);
  }

  lemma SmallExhausted(s: Store)
    requires FirstStop(s.entries, s.small) == |s.small|
    ensures var e := s.entries; var met := s.small[..|s.small|];
            Spec.EvictFromSmall(s) == Evicted(
              s.(entries := Cool(e, met),
                 small := [],
                 main := s.main + Keep(e, met),
                 ghosts := AddGhosts(s.ghosts, s.cfg.ghostCapacity, Drop(e, met)),
                 stats := s.stats.(promotions := s.stats.promotions + |Keep(e, met)|)),
              None)
  {
    ScanSmallExhausted(s.entries, s.small, s.main);
  }

  lemma MainStop(s: Store, k: nat)
    requires k == FirstStop(s.entries, s.main) < |s.main|
    ensures var e, q := s.entries, s.main;
            Spec.EvictFromMain(s) == Evicted(
              s.(entries := Cool(e, q[..k]) - {q[k]},
                 main := q[k + 1..] + Keep(e, q[..k]),
                 bytes := s.bytes - e[q[k]].size,
                 exactToNormalized := Unmap(s.cfg, s.exactToNormalized, e[q[k]])),
              Some(Main))
  {
  }

  lemma MainExhausted(s: Store)
    requires FirstStop(s.entries, s.main) == |s.main|
    ensures var met := s.main[..|s.main|];
            Spec.EvictFromMain(s) == Evicted(s.(entries := Cool(s.entries, met), main := Keep(s.entries, met)), None)
  {
  }

  lemma GhostLast(g: Ghosts, capacity: pos, hs: seq<QueryHash>, h: QueryHash)
    ensures AddGhosts(g, capacity, hs + [h]) == AddGhost(AddGhosts(g, capacity, hs), capacity, h)
  {
    assert (hs + [h])[..|hs|] == hs;
  }

  /** Scanning an empty queue changes nothing. */
  lemma EmptyScans(s: Store)
    ensures s.small == [] ==> Spec.EvictFromSmall(s) == Evicted(s, None)
    ensures s.main == [] ==> Spec.EvictFromMain(s) == Evicted(s, None)
  {
    assert Cool(s.entries, []) == s.entries;
    assert s.small == [] ==> s.small[..0] == [];
    assert s.main == [] ==> s.main[..0] == [];
  }

  lemma EvictOneSplits(s: Store)
    ensures var a := Spec.EvictFromSmall(s);
            Spec.EvictOne(s) == if a.source.Some? then a else Spec.EvictFromMain(a.store)
  {
    var a := ScanSmall(s.entries, s.small, s.main);
    if a.victim.None? {
      var b := ScanMain(a.entries, a.small, a.main);
      assert b.victim.Some? ==> b.victim.value in s.entries;
      ApplyTwice(s, a, b);
    }
  }

  /** A scan without a victim, then one that ghosts nothing, is one scan. */
  lemma ApplyTwice(s: Store, a: Outcome, b: Outcome)
    requires a.victim.None? && b.ghosted == [] && b.promoted == 0
    requires a.entries.Keys == s.entries.Keys
    requires forall h :: h in a.entries ==>
             a.entries[h].size == s.entries[h].size && a.entries[h].queryText == s.entries[h].queryText
    ensures Apply(Apply(s, a), b) == Apply(s, b.(ghosted := a.ghosted, promoted := a.promoted))
  {
  }
}
