/** When loading a cache in bulk evicts nothing, and when it evicts what it has just stored. */
module Warming {
  import opened Basics
  import opened Store
  import opened Invariants
  import opened Enforcement
  import opened Scans
  import opened Conservation

  lemma FirstEviction(s: Store, h: QueryHash, p: Pressure)
    requires Sound(s) && h in s.entries && s.entries[h].freq == 0
    ensures var d := EvictWhile(s, p); d.fromSmall + d.fromMain > 0 <==> Over(s, p)
  {
    ColdNodeYields(s, h);
    hide EvictOne, Sound;
  }

  lemma ShrinkEvictsIff(s: Store, h: QueryHash)
    requires Sound(s) && h in s.entries && s.entries[h].freq == 0
    ensures var d := Shrink(s);
            d.fromSmall + d.fromMain == 0 <==>
                Nodes(s) <= Capacity(s.cfg) && (s.maxMemory == 0 || s.bytes <= s.maxMemory)
    ensures var d := Shrink(s); d.fromSmall + d.fromMain == 0 ==> d.store == s
  {
    FirstEviction(s, h, Count);
    if !Over(s, Count) {
      assert EvictWhile(s, Count) == Drained(s, 0, 0);
      FirstEviction(s, h, Memory);
      if !Over(s, Memory) {
        assert EvictWhile(s, Memory) == Drained(s, 0, 0);
      }
    }
  }

  /** Storing a new hash evicts nothing exactly when there is a node to spare and, under a cap, room for its bytes. */
  lemma NewKeyEvictsNothingIff(s: Store, h: QueryHash, e: Entry, exact: Option<QueryHash>)
    requires Inv(s) && e.freq == 0 && h !in s.entries
    ensures var t := Put(s, h, e, exact);
            && (t.stats.total == s.stats.total <==>
                Nodes(s) < Capacity(s.cfg) && (s.maxMemory == 0 || s.bytes + e.size <= s.maxMemory))
            && (t.stats.total == s.stats.total ==>
                  Nodes(t) == Nodes(s) + 1 && t.entries == s.entries[h := e] && t.bytes == s.bytes + e.size)
            && t.stats.total >= s.stats.total
  {
    var u := Stored(s, h, e, exact);
    StoredIsPending(s, h, e, exact);
    EnqueueKeeps(u, h);
    var w := Enqueue(u, h);
    ShrinkEvictsIff(w, h);
    ShrinkCounts(w);
    hide Shrink, Enqueue, Sound, Pending;
  }

  lemma {:induction false} WarmupTotalGrows(s: Store, items: seq<(string, Option<Response>)>, upstream: string,
                                            now: int)
    requires Inv(s)
    ensures Warmup(s, items, upstream, now).stats.total >= s.stats.total
    decreases |items|
  {
    hide Put, Inv;
    if items != [] {
      if items[0].1.None? {
        WarmupTotalGrows(s, items[1..], upstream, now);
      } else if |s.entries| < s.maxEntries {
        var h, e := HashQuery(s.cfg, items[0].0),
            NewEntry(items[0].1.value, upstream, "default", Some(items[0].0), now);
        PutKeeps(s, h, e, None);
        PutCosts(s, h, e);
        WarmupTotalGrows(Put(s, h, e, None), items[1..], upstream, now);
      }
    }
  }

  /** What storing one item costs, live or not. */
  lemma PutCosts(s: Store, h: QueryHash, e: Entry)
    requires Inv(s) && e.freq == 0
    ensures var t := Put(s, h, e, None);
            && t.stats.total >= s.stats.total
            && (t.stats.total == s.stats.total ==> Nodes(t) == Nodes(s) + Fresh(s, h))
            && (s.maxMemory == 0 ==> (t.stats.total == s.stats.total <==> Nodes(s) + Fresh(s, h) <= Capacity(s.cfg)))
  {
    if h !in s.entries {
      NewKeyEvictsNothingIff(s, h, e, None);
    }
  }

  /** Without a cap, warming evicts nothing exactly when a node is to spare for every hash it adds. */
  lemma {:induction false} UncappedWarmupEvictsNothingIff(s: Store, items: seq<(string, Option<Response>)>,
                                                          upstream: string, now: int)
    requires Inv(s) && s.maxMemory == 0
    ensures Warmup(s, items, upstream, now).stats.total == s.stats.total <==>
            Nodes(s) + WarmupAdmitted(s, items, upstream, now) <= Capacity(s.cfg)
    decreases |items|
  {
    if items != [] {
      if items[0].1.None? {
        UncappedWarmupEvictsNothingIff(s, items[1..], upstream, now);
      } else if |s.entries| < s.maxEntries {
        hide Put;
        var h, e := HashQuery(s.cfg, items[0].0),
            NewEntry(items[0].1.value, upstream, "default", Some(items[0].0), now);
        var t := Put(s, h, e, None);
        PutKeeps(s, h, e, None);
        PutCosts(s, h, e);
        WarmupTotalGrows(t, items[1..], upstream, now);
        UncappedWarmupEvictsNothingIff(t, items[1..], upstream, now);
      }
    }
  }

  /** Storing the items one after the other in a plain map finds a node and room for each new hash. */
  ghost predicate Roomy(s: Store, e: Entries, nodes: nat, bytes: int, items: seq<(string, Option<Response>)>,
                        upstream: string, now: int)
    decreases |items|
  {
    if items == [] then true
    else if items[0].1.None? then Roomy(s, e, nodes, bytes, items[1..], upstream, now)
    else if |e| >= s.maxEntries then true
    else
      var h, x := HashQuery(s.cfg, items[0].0), NewEntry(items[0].1.value, upstream, "default", Some(items[0].0), now);
      if h in e then Roomy(s, e[h := x], nodes, bytes + x.size - e[h].size, items[1..], upstream, now)
      else
        && nodes < Capacity(s.cfg) && (s.maxMemory == 0 || bytes + x.size <= s.maxMemory)
        && Roomy(s, e[h := x], nodes + 1, bytes + x.size, items[1..], upstream, now)
  }

  /** Only the limits of the store matter to that. */
  lemma {:induction false} RoomySame(s: Store, t: Store, e: Entries, nodes: nat, bytes: int,
                                     items: seq<(string, Option<Response>)>,
                                     upstream: string, now: int)
    requires t.cfg == s.cfg && t.maxEntries == s.maxEntries && t.maxMemory == s.maxMemory
    ensures Roomy(s, e, nodes, bytes, items, upstream, now) == Roomy(t, e, nodes, bytes, items, upstream, now)
    decreases |items|
  {
    if items != [] {
      RoomySame(s, t, e, nodes, bytes, items[1..], upstream, now);
      if items[0].1.Some? {
        var h, x := HashQuery(s.cfg, items[0].0),
            NewEntry(items[0].1.value, upstream, "default", Some(items[0].0), now);
        if h in e {
          RoomySame(s, t, e[h := x], nodes, bytes + x.size - e[h].size, items[1..], upstream, now);
        } else {
          RoomySame(s, t, e[h := x], nodes + 1, bytes + x.size, items[1..], upstream, now);
        }
      }
    }
  }

  /** Storing one item without evicting is storing it in a plain map. */
  lemma PutIsPlain(s: Store, h: QueryHash, e: Entry)
    requires Inv(s) && e.freq == 0
    ensures var t := Put(s, h, e, None);
            && t.stats.total >= s.stats.total
            && (h in s.entries ==>
                  t.stats.total == s.stats.total && Nodes(t) == Nodes(s) && t.entries == s.entries[h := e] &&
                  t.bytes == s.bytes + e.size - s.entries[h].size)
            && (h !in s.entries ==>
                  (t.stats.total == s.stats.total <==>
                   Nodes(s) < Capacity(s.cfg) && (s.maxMemory == 0 || s.bytes + e.size <= s.maxMemory)) &&
                  (t.stats.total == s.stats.total ==>
                   Nodes(t) == Nodes(s) + 1 && t.entries == s.entries[h := e] && t.bytes == s.bytes + e.size))
  {
    if h !in s.entries {
      NewKeyEvictsNothingIff(s, h, e, None);
    }
  }

  /** Warming evicts nothing exactly when the items, stored in a plain map, find a node and room each. */
  lemma {:induction false} WarmupEvictsNothingIff(s: Store, items: seq<(string, Option<Response>)>, upstream: string,
                                                  now: int)
    requires Inv(s)
    ensures Warmup(s, items, upstream, now).stats.total == s.stats.total <==>
            Roomy(s, s.entries, Nodes(s), s.bytes, items, upstream, now)
    decreases |items|
  {
    hide Put, Inv, Capacity;
    if items != [] {
      if items[0].1.None? {
        WarmupEvictsNothingIff(s, items[1..], upstream, now);
      } else if |s.entries| < s.maxEntries {
        var h, e := HashQuery(s.cfg, items[0].0),
            NewEntry(items[0].1.value, upstream, "default", Some(items[0].0), now);
        var t := Put(s, h, e, None);
        PutKeeps(s, h, e, None);
        PutIsPlain(s, h, e);
        WarmupTotalGrows(t, items[1..], upstream, now);
        WarmupEvictsNothingIff(t, items[1..], upstream, now);
        RoomySame(s, t, t.entries, Nodes(t), t.bytes, items[1..], upstream, now);
      }
    }
  }

  lemma CleanNodeCount(s: Store)
    requires Clean(s)
    ensures Nodes(s) == |s.entries|
  {
    MultisetLength(s.small);
    MultisetLength(s.main);
    assert |multiset(s.small) + multiset(s.main)| == |multiset(s.small)| + |multiset(s.main)|;
    assert |multiset(s.entries.Keys)| == |s.entries.Keys|;
  }

  /** Where every node is live, the entry limit does keep warming from evicting. */
  lemma {:induction false} CleanWarmupEvictsNothing(s: Store, items: seq<(string, Option<Response>)>, upstream: string,
                                                    now: int)
    requires Clean(s) && Inv(s) && s.maxMemory == 0 && s.maxEntries <= Capacity(s.cfg)
    ensures Warmup(s, items, upstream, now).stats.total == s.stats.total
    decreases |items|
  {
    hide Put, Inv, Clean;
    if items != [] {
      if items[0].1.None? {
        CleanWarmupEvictsNothing(s, items[1..], upstream, now);
      } else if |s.entries| < s.maxEntries {
        var h, e := HashQuery(s.cfg, items[0].0),
            NewEntry(items[0].1.value, upstream, "default", Some(items[0].0), now);
        CleanNodeCount(s);
        PutKeeps(s, h, e, None);
        PutClean(s, h, e, None);
        PutCosts(s, h, e);
        CleanWarmupEvictsNothing(Put(s, h, e, None), items[1..], upstream, now);
      }
    }
  }

  // ----- stale nodes defeat the entry limit

  lemma InsertAndRemove(normalize: string -> string, query: string)
    ensures var s := Run(NewStore(normalize, false, 1, 0), [InsertOf(query)] + [OpRemove(query)]);
            && s.entries == map[] && Nodes(s) == 1 && Capacity(s.cfg) == 1 && s.maxEntries == 1 && s.maxMemory == 0
  {
    var s0 := NewStore(normalize, false, 1, 0);
    var h, e := HashQuery(s0.cfg, query), NewEntry(BIG, "u", "c", Some(query), 0);
    RunAppend(s0, [], InsertOf(query));
    assert [] + [InsertOf(query)] == [InsertOf(query)];
    RunAppend(s0, [InsertOf(query)], OpRemove(query));
    var w := Enqueue(Stored(s0, h, e, Some(HashExact(query))), h);
    assert EvictWhile(w, Count) == Drained(w, 0, 0);
    assert map[h := e] - {h} == map[];
  }

  /** Insert and remove one entry in a store for one; a warmed entry is then evicted as soon as it is stored. */
  lemma WarmupCycleIsReachable(normalize: string -> string, query: string, other: string)
    ensures var s := Run(NewStore(normalize, false, 1, 0), [InsertOf(query)] + [OpRemove(query)]);
            && |s.entries| < s.maxEntries
            && var t := Warmup(s, [(other, Some(BIG))], "u", 0);
               t.entries == map[] && t.stats.total > s.stats.total
  {
    var s0 := NewStore(normalize, false, 1, 0);
    var ops := [InsertOf(query)] + [OpRemove(query)];
    var s, items := Run(s0, ops), [(other, Some(BIG))];
    InsertAndRemove(normalize, query);
    NewStoreInv(normalize, false, 1, 0);
    RunKeepsInv(s0, ops);
    hide Run, Warmup;
    assert WarmupAdmitted(s, items, "u", 0) == 1 by { OneItemAdmitted(s, other); }
    UncappedWarmupEvictsNothingIff(s, items, "u", 0);
    WarmupTotalGrows(s, items, "u", 0);
    WarmupBalances(s, items, "u", 0);
    WarmupKeepsFailures(s, items, "u", 0);
    assert |Warmup(s, items, "u", 0).entries| == 0;
  }

  lemma OneItemAdmitted(s: Store, query: string)
    requires s.entries == map[] && s.maxEntries == 1
    ensures WarmupAdmitted(s, [(query, Some(BIG))], "u", 0) == 1
  {
    var h, e := HashQuery(s.cfg, query), NewEntry(BIG, "u", "default", Some(query), 0);
    assert [(query, Some(BIG))][1..] == [];
    assert WarmupAdmitted(Put(s, h, e, None), [], "u", 0) == 0;
  }

  lemma {:induction false} WarmupKeepsFailures(s: Store, items: seq<(string, Option<Response>)>, upstream: string,
                                               now: int)
    ensures Warmup(s, items, upstream, now).stats.integrityFailures == s.stats.integrityFailures
    decreases |items|
  {
    if items != [] {
      if items[0].1.None? {
        WarmupKeepsFailures(s, items[1..], upstream, now);
      } else if |s.entries| < s.maxEntries {
        var h, e := HashQuery(s.cfg, items[0].0),
            NewEntry(items[0].1.value, upstream, "default", Some(items[0].0), now);
        ShrinkCounts(Enqueue(Stored(s, h, e, None), h));
        WarmupKeepsFailures(Put(s, h, e, None), items[1..], upstream, now);
      }
    }
  }
}
