/** Runs without lazy removals: exact queues and ghosts, and resistance to scans. */
module Scans {
  import opened Basics
  import opened Store
  import opened Eviction
  import opened Invariants
  import opened Enforcement

  /** One node per live hash and no other nodes; the ghost queue lists the ghost set once. */
  ghost predicate Clean(s: Store) {
    && multiset(s.small) + multiset(s.main) == multiset(s.entries.Keys)
    && CleanGhosts(s.ghosts)
  }

  ghost predicate CleanGhosts(g: Ghosts) {
    multiset(g.queue) == multiset(g.members)
  }

  ghost predicate AllLive(e: Entries, q: seq<QueryHash>) {
    forall h :: h in q ==> h in e
  }

  lemma {:induction false} KeepAll(e: Entries, q: seq<QueryHash>)
    requires AllLive(e, q)
    ensures Keep(e, q) == q
    decreases |q|
  {
    if q != [] {
      var init, last := q[..|q| - 1], q[|q| - 1];
      assert q == init + [last];
      assert last in q;
      KeepAll(e, init);
      assert Keep(e, q) == Keep(e, init) + [last];
    }
  }

  lemma DropNone(e: Entries, q: seq<QueryHash>)
    requires AllLive(e, q)
    ensures Drop(e, q) == []
  {
    assert forall h :: h in q ==> h in e;
  }

  lemma CleanNodesLive(s: Store)
    requires Clean(s)
    ensures AllLive(s.entries, s.small) && AllLive(s.entries, s.main)
    ensures Covered(s)
  {
    var nodes := multiset(s.small) + multiset(s.main);
    forall h | h in s.small || h in s.main ensures h in s.entries {
      assert h in multiset(s.small) || h in multiset(s.main);
      assert nodes[h] > 0;
    }
    forall h | h in s.entries ensures h in s.small || h in s.main {
      assert nodes[h] > 0;
    }
  }

  lemma CleanOneNode(s: Store)
    requires Clean(s)
    ensures OneNode(s.entries, s.small, s.main)
  {
    forall h | h in s.entries ensures multiset(s.small + s.main)[h] <= 1 {
      assert multiset(s.small + s.main) == multiset(s.small) + multiset(s.main);
    }
  }

  lemma CleanApart(s: Store, h: QueryHash)
    requires Clean(s) && h in s.small
    ensures h !in s.main
  {
    assert (multiset(s.small) + multiset(s.main))[h] == multiset(s.entries.Keys)[h] <= 1;
    assert h in multiset(s.small);
    assert h in s.main <==> h in multiset(s.main);
  }

  lemma {:induction false} AddGhostClean(g: Ghosts, capacity: pos, h: QueryHash)
    requires CleanGhosts(g) && h !in g.members
    ensures CleanGhosts(AddGhost(g, capacity, h))
  {
    var n := if |g.queue| >= capacity then |g.queue| - capacity + 1 else 0;
    var popped, rest := g.queue[..n], g.queue[n..];
    assert g.queue == popped + rest;
    PoppedLeave(popped, rest, g.members);
    assert h !in g.members - Elems(popped);
  }

  /** A list that names a set once still does when a prefix and its members go. */
  lemma PoppedLeave(popped: seq<QueryHash>, rest: seq<QueryHash>, members: set<QueryHash>)
    requires multiset(popped + rest) == multiset(members)
    ensures multiset(rest) == multiset(members - Elems(popped))
  {
    forall k ensures multiset(rest)[k] == multiset(members - Elems(popped))[k] {
      assert multiset(popped + rest)[k] == multiset(popped)[k] + multiset(rest)[k];
      assert k in popped <==> multiset(popped)[k] > 0;
    }
  }

  /** Taking one node and one key away together. */
  lemma DropBoth(keys: set<QueryHash>, nodes: multiset<QueryHash>, rest: multiset<QueryHash>, v: QueryHash)
    requires nodes == multiset(keys) && rest + multiset{v} == nodes
    ensures v in keys && rest == multiset(keys - {v})
  {
    assert nodes[v] > 0;
    forall h ensures rest[h] == multiset(keys - {v})[h] {
      assert (rest + multiset{v})[h] == multiset(keys)[h];
    }
  }

  /** Nodes before i change queues, node i goes, the rest stay. */
  lemma NodesMove(q: seq<QueryHash>, other: seq<QueryHash>, i: nat)
    requires i < |q|
    ensures multiset(q[i + 1..]) + multiset(other + q[..i]) + multiset{q[i]} == multiset(q) + multiset(other)
  {
    MultisetSplit(q, i);
  }

  lemma ScanSmallClean(e: Entries, small: seq<QueryHash>, main: seq<QueryHash>)
    requires multiset(small) + multiset(main) == multiset(e.Keys)
    requires AllLive(e, small)
    ensures var o := ScanSmall(e, small, main);
            multiset(o.small) + multiset(o.main) == multiset(o.entries.Keys)
  {
    var i := FirstStop(e, small);
    var met, o := small[..i], ScanSmall(e, small, main);
    KeepAll(e, met);
    hide Keep, Drop, FirstStop;
    assert o.main == main + met;
    if i < |small| {
      NodesMove(small, main, i);
      assert o.entries.Keys == e.Keys - {small[i]};
      DropBoth(e.Keys, multiset(small) + multiset(main), multiset(o.small) + multiset(o.main), small[i]);
    } else {
      assert met == small;
      assert o.entries.Keys == e.Keys;
    }
  }

  /** With no stale nodes, the only new ghost is the victim. */
  lemma ScanSmallGhosts(e: Entries, small: seq<QueryHash>, main: seq<QueryHash>)
    requires AllLive(e, small)
    ensures var o := ScanSmall(e, small, main);
            o.ghosted == [] || (|o.ghosted| == 1 && o.ghosted[0] in e)
  {
    DropNone(e, small[..FirstStop(e, small)]);
  }

  lemma NodesTurn(q: seq<QueryHash>, other: seq<QueryHash>, i: nat)
    requires i < |q|
    ensures multiset(other) + multiset(q[i + 1..] + q[..i]) + multiset{q[i]} == multiset(other) + multiset(q)
  {
    MultisetSplit(q, i);
  }

  lemma ScanMainClean(e: Entries, small: seq<QueryHash>, main: seq<QueryHash>)
    requires multiset(small) + multiset(main) == multiset(e.Keys)
    requires AllLive(e, main)
    ensures var o := ScanMain(e, small, main);
            multiset(o.small) + multiset(o.main) == multiset(o.entries.Keys)
  {
    var i := FirstStop(e, main);
    var met, o := main[..i], ScanMain(e, small, main);
    KeepAll(e, met);
    hide Keep, FirstStop;
    if i < |main| {
      NodesTurn(main, small, i);
      assert o.entries.Keys == e.Keys - {main[i]};
      DropBoth(e.Keys, multiset(small) + multiset(main), multiset(o.small) + multiset(o.main), main[i]);
    } else {
      assert met == main;
      assert o.entries.Keys == e.Keys;
    }
  }

  lemma NodesLive(e: Entries, small: seq<QueryHash>, main: seq<QueryHash>)
    requires multiset(small) + multiset(main) == multiset(e.Keys)
    ensures AllLive(e, small) && AllLive(e, main)
  {
    forall h | h in small || h in main ensures h in e {
      assert h in multiset(small) || h in multiset(main);
      assert (multiset(small) + multiset(main))[h] > 0;
    }
  }

  lemma ScanClean(e: Entries, small: seq<QueryHash>, main: seq<QueryHash>)
    requires multiset(small) + multiset(main) == multiset(e.Keys)
    ensures var o := Scan(e, small, main);
            && multiset(o.small) + multiset(o.main) == multiset(o.entries.Keys)
            && (o.ghosted == [] || (|o.ghosted| == 1 && o.ghosted[0] in e))
  {
    NodesLive(e, small, main);
    ScanSmallClean(e, small, main);
    ScanSmallGhosts(e, small, main);
    var a := ScanSmall(e, small, main);
    if a.victim.None? {
      NodesLive(a.entries, a.small, a.main);
      ScanMainClean(a.entries, a.small, a.main);
    }
  }

  lemma AddGhostsClean(g: Ghosts, capacity: pos, hs: seq<QueryHash>)
    requires CleanGhosts(g) && (hs == [] || (|hs| == 1 && hs[0] !in g.members))
    ensures CleanGhosts(AddGhosts(g, capacity, hs))
  {
    if hs != [] {
      assert hs[..0] == [];
      assert AddGhosts(g, capacity, hs) == AddGhost(AddGhosts(g, capacity, []), capacity, hs[0]);
      AddGhostClean(g, capacity, hs[0]);
    }
  }

  lemma EvictOneClean(s: Store)
    requires Clean(s) && NoLiveGhost(s.entries, s.ghosts)
    ensures Clean(EvictOne(s).store)
  {
    var o := Scan(s.entries, s.small, s.main);
    ScanClean(s.entries, s.small, s.main);
    AddGhostsClean(s.ghosts, s.cfg.ghostCapacity, o.ghosted);
  }

  lemma {:induction false} EvictWhileClean(s: Store, p: Pressure)
    requires Clean(s) && Sound(s)
    ensures Clean(EvictWhile(s, p).store)
    decreases Nodes(s)
  {
    hide EvictOne, Clean;
    if Over(s, p) {
      EvictOneClean(s);
      EvictOneKeeps(s);
      if EvictOne(s).source.Some? {
        EvictWhileClean(EvictOne(s).store, p);
      }
    }
  }

  lemma {:induction false} WithoutCountsOne(q: seq<QueryHash>, h: QueryHash, k: QueryHash)
    ensures multiset(Without(q, h))[k] == if k == h then 0 else multiset(q)[k]
    decreases |q|
  {
    if q != [] {
      WithoutCountsOne(q[..|q| - 1], h, k);
      assert q == q[..|q| - 1] + [q[|q| - 1]];
    }
  }

  lemma WithoutCounts(q: seq<QueryHash>, h: QueryHash)
    ensures multiset(Without(q, h)) == multiset(q)[h := 0]
  {
    hide Without;
    forall k ensures multiset(Without(q, h))[k] == multiset(q)[h := 0][k] {
      WithoutCountsOne(q, h, k);
    }
  }

  /** Stored but without a node yet; otherwise clean. */
  ghost predicate CleanBut(s: Store, h: QueryHash) {
    && h in s.entries
    && multiset(s.small) + multiset(s.main) == multiset(s.entries.Keys - {h})
    && CleanGhosts(s.ghosts)
  }

  lemma EnqueueClean(s: Store, h: QueryHash)
    requires CleanBut(s, h)
    ensures Clean(Enqueue(s, h))
  {
    assert s.entries.Keys == (s.entries.Keys - {h}) + {h};
    assert multiset(s.entries.Keys) == multiset(s.entries.Keys - {h}) + multiset{h};
    if h in s.ghosts.members {
      WithoutCounts(s.ghosts.queue, h);
      assert multiset(s.ghosts.members - {h}) == multiset(s.ghosts.members)[h := 0];
    }
  }

  lemma ShrinkClean(s: Store)
    requires Clean(s) && Sound(s)
    ensures Clean(Shrink(s).store)
  {
    EvictWhileClean(s, Count);
    EvictWhileKeeps(s, Count);
    EvictWhileClean(EvictWhile(s, Count).store, Memory);
  }

  lemma PutClean(s: Store, h: QueryHash, e: Entry, exact: Option<QueryHash>)
    requires Clean(s) && Inv(s) && e.freq == 0
    ensures Clean(Put(s, h, e, exact))
  {
    var u := Stored(s, h, e, exact);
    if h in s.entries {
      assert u.entries.Keys == s.entries.Keys;
    } else {
      assert u.entries.Keys - {h} == s.entries.Keys;
      StoredIsPending(s, h, e, exact);
      EnqueueKeeps(u, h);
      EnqueueClean(u, h);
      ShrinkClean(Enqueue(u, h));
    }
  }

  // ----- runs

  /** Operations that never drop an entry behind the queues' back. */
  ghost predicate Eager(op: Op) {
    || op.OpGet? || op.OpGetByHash? || op.OpInsert? || op.OpInsertByHash? || op.OpWarmup? || op.OpExtendTtl?
    || op.OpClear? || op.OpFingerprint? || op.OpSetMaxEntries? || op.OpSetMaxMemory? || op.OpEnforceMemory?
  }

  lemma {:induction false} WarmupClean(s: Store, items: seq<(string, Option<Response>)>, upstream: string, now: int)
    requires Clean(s) && Inv(s)
    ensures Clean(Warmup(s, items, upstream, now))
    decreases |items|
  {
    if items != [] {
      if items[0].1.None? {
        WarmupClean(s, items[1..], upstream, now);
      } else if |s.entries| < s.maxEntries {
        var e := NewEntry(items[0].1.value, upstream, "default", Some(items[0].0), now);
        PutKeeps(s, HashQuery(s.cfg, items[0].0), e, None);
        PutClean(s, HashQuery(s.cfg, items[0].0), e, None);
        WarmupClean(Put(s, HashQuery(s.cfg, items[0].0), e, None), items[1..], upstream, now);
      }
    }
  }

  lemma EagerStepClean(s: Store, op: Op)
    requires Clean(s) && Inv(s) && Eager(op) && s.perUpstreamLimit == None
    ensures Clean(Step(s, op))
  {
    hide Put, Warmup, EvictWhile, Get, GetByHash, ExtendTtl, Clean;
    match op
    case OpInsert(q, r, u, c, now, _) =>
      PutClean(s, HashQuery(s.cfg, q), NewEntry(r, u, c, Some(q), now), Some(HashExact(q)));
    case OpInsertByHash(h, r, u, k, now, _) =>
      PutClean(s, h, NewEntry(r, u, "default", k, now), None);
    case OpWarmup(items, u, now) => WarmupClean(s, items, u, now);
    case OpEnforceMemory => EnforceClean(s);
    case OpGet(q) => LookupsClean(s, op);
    case OpGetByHash(h) => LookupsClean(s, op);
    case OpExtendTtl(q, now) => LookupsClean(s, op);
    case _ => SettersClean(s, op);
  }

  lemma EnforceClean(s: Store)
    requires Clean(s) && Inv(s)
    ensures Clean(EnforceMemory(s))
  {
    hide EvictWhile;
    EvictWhileClean(s, Memory);
  }

  lemma LookupsClean(s: Store, op: Op)
    requires Clean(s) && (op.OpGet? || op.OpGetByHash? || op.OpExtendTtl?)
    ensures Clean(Step(s, op))
  {
    hide Clean;
    SameKeysClean(s, Step(s, op));
  }

  lemma SettersClean(s: Store, op: Op)
    requires Clean(s) && (op.OpClear? || op.OpFingerprint? || op.OpSetMaxEntries? || op.OpSetMaxMemory?)
    ensures Clean(Step(s, op))
  {
  }

  lemma SameKeysClean(s: Store, t: Store)
    requires Clean(s) && t.entries.Keys == s.entries.Keys && t.small == s.small && t.main == s.main &&
             t.ghosts == s.ghosts
    ensures Clean(t)
  {
  }

  ghost predicate EagerRun(ops: seq<Op>) {
    forall i :: 0 <= i < |ops| ==> Eager(ops[i])
  }

  /** On every run of eager operations each live hash has exactly one node and ghosts are listed once. */
  lemma {:induction false} EagerRunStaysClean(s: Store, ops: seq<Op>)
    requires Clean(s) && Inv(s) && EagerRun(ops) && s.perUpstreamLimit == None
    ensures Clean(Run(s, ops))
    decreases |ops|
  {
    if ops != [] {
      StepKeepsInv(s, ops[0]);
      EagerStepClean(s, ops[0]);
      EagerRunStaysClean(Step(s, ops[0]), ops[1..]);
    }
  }

  /** From a new store: one node per live hash, no stale nodes, and a ghost queue that lists the ghost set once. */
  lemma FreshEagerRunIsExact(normalize: string -> string, matching: bool, maxEntries: nat, maxMemory: nat, ops: seq<Op>)
    requires EagerRun(ops)
    ensures var s := Run(NewStore(normalize, matching, maxEntries, maxMemory), ops);
            && (forall h :: h in s.entries ==> multiset(s.small)[h] + multiset(s.main)[h] == 1)
            && (forall h :: h in s.small || h in s.main ==> h in s.entries)
            && (forall h :: h in s.ghosts.queue <==> h in s.ghosts.members)
            && Distinct(s.ghosts.queue)
            && |s.ghosts.queue| <= s.cfg.ghostCapacity
  {
    var s0 := NewStore(normalize, matching, maxEntries, maxMemory);
    var s := Run(s0, ops);
    NewStoreInv(normalize, matching, maxEntries, maxMemory);
    EagerRunStaysClean(s0, ops);
    RunKeepsInv(s0, ops);
    CleanNodesLive(s);
    GhostsListedOnce(s.ghosts);
    forall h | h in s.entries ensures multiset(s.small)[h] + multiset(s.main)[h] == 1 {
      assert (multiset(s.small) + multiset(s.main))[h] == multiset(s.entries.Keys)[h];
    }
  }

  /** On such runs the condition under which one enforcement call is not enough is exact. */
  lemma EagerRunFallsShortIff(normalize: string -> string, matching: bool, maxEntries: nat, maxMemory: nat,
                              ops: seq<Op>)
    requires EagerRun(ops)
    ensures var s := Run(NewStore(normalize, matching, maxEntries, maxMemory), ops);
            0 < s.maxMemory ==>
              (EnforceMemory(s).bytes > s.maxMemory <==>
               Stuck(s.entries, s.small, s.main) && Total(SizesOf(s.entries, HotKeys(s.entries))) > s.maxMemory)
  {
    var s0 := NewStore(normalize, matching, maxEntries, maxMemory);
    var s := Run(s0, ops);
    NewStoreInv(normalize, matching, maxEntries, maxMemory);
    EagerRunStaysClean(s0, ops);
    RunKeepsInv(s0, ops);
    CleanOneNode(s);
    if 0 < s.maxMemory {
      OneNodeFallsShortIff(s);
    }
  }

  lemma GhostsListedOnce(g: Ghosts)
    requires CleanGhosts(g)
    ensures (forall h :: h in g.queue <==> h in g.members) && Distinct(g.queue)
  {
    forall h ensures h in g.queue <==> h in g.members {
      assert h in g.queue <==> h in multiset(g.queue);
    }
    forall i, j | 0 <= i < j < |g.queue| ensures g.queue[i] != g.queue[j] {
      TwiceCounts(g.queue, i, j);
    }
  }

  // ----- scan resistance

  /** The hash an insertion stores under. */
  ghost function Target(s: Store, op: Op): QueryHash
    requires op.OpInsert? || op.OpInsertByHash?
  {
    if op.OpInsert? then HashQuery(s.cfg, op.query) else op.hash
  }

  /** A lookup, or an insertion of a hash the ghost set does not remember. */
  ghost predicate ScanOp(s: Store, op: Op) {
    || op.OpGet? || op.OpGetByHash?
    || ((op.OpInsert? || op.OpInsertByHash?) && Target(s, op) !in s.ghosts.members)
  }

  ghost predicate ScanTraffic(s: Store, ops: seq<Op>)
    decreases |ops|
  {
    ops == [] || (ScanOp(s, ops[0]) && ScanTraffic(Step(s, ops[0]), ops[1..]))
  }

  /** Main is only appended to, keeps all its entries alive, and no eviction is charged to it. */
  ghost predicate MainUntouched(s: Store, t: Store) {
    && s.main <= t.main
    && (forall h :: h in s.main ==> h in t.entries)
    && t.stats.mainEvictions == s.stats.mainEvictions
  }

  /** A Small queue that ends in a cold node absorbs the eviction. */
  lemma SmallAbsorbs(s: Store, h: QueryHash)
    requires Clean(s) && s.small != [] && s.small[|s.small| - 1] == h && h in s.entries && s.entries[h].freq == 0
    ensures EvictOne(s).source == Some(Small) && MainUntouched(s, EvictOne(s).store)
  {
    var i := FirstStop(s.entries, s.small);
    assert StopsAt(s.entries, s.small, |s.small| - 1);
    CleanNodesLive(s);
    CleanApart(s, s.small[i]);
    assert s.small[i] in s.small;
  }

  lemma NewcomerEvictsFromSmall(s: Store, h: QueryHash)
    requires Clean(s) && Sound(s) && s.maxMemory == 0 && Nodes(s) <= Capacity(s.cfg) + 1
    requires s.small != [] && s.small[|s.small| - 1] == h && h in s.entries && s.entries[h].freq == 0
    ensures Shrink(s).fromMain == 0 && MainUntouched(s, Shrink(s).store)
  {
    CleanNodesLive(s);
    if Over(s, Count) {
      SmallAbsorbs(s, h);
      EvictOneKeeps(s);
      var t := EvictOne(s).store;
      assert EvictWhile(t, Count) == Drained(t, 0, 0);
    }
  }

  lemma PutOutsideGhosts(s: Store, h: QueryHash, e: Entry, exact: Option<QueryHash>)
    requires Clean(s) && Inv(s) && e.freq == 0 && s.maxMemory == 0 && h !in s.ghosts.members
    ensures MainUntouched(s, Put(s, h, e, exact))
  {
    var u := Stored(s, h, e, exact);
    CleanNodesLive(s);
    if h !in s.entries {
      assert u.entries.Keys - {h} == s.entries.Keys;
      StoredIsPending(s, h, e, exact);
      EnqueueKeeps(u, h);
      EnqueueClean(u, h);
      var w := Enqueue(u, h);
      NewcomerEvictsFromSmall(w, h);
      ShrinkKeeps(w, h);
    }
  }

  lemma ScanStep(s: Store, op: Op)
    requires Clean(s) && Inv(s) && s.maxMemory == 0 && s.perUpstreamLimit == None && ScanOp(s, op)
    ensures MainUntouched(s, Step(s, op))
  {
    CleanNodesLive(s);
    match op
    case OpInsert(q, r, u, c, now, _) =>
      PutOutsideGhosts(s, HashQuery(s.cfg, q), NewEntry(r, u, c, Some(q), now), Some(HashExact(q)));
    case OpInsertByHash(h, r, u, k, now, _) =>
      PutOutsideGhosts(s, h, NewEntry(r, u, "default", k, now), None);
    case _ =>
  }

  /** No scan, however long and however interleaved with lookups, displaces anything from Main. */
  lemma {:induction false} ScanResistance(s: Store, ops: seq<Op>)
    requires Clean(s) && Inv(s) && s.maxMemory == 0 && s.perUpstreamLimit == None && ScanTraffic(s, ops)
    ensures MainUntouched(s, Run(s, ops))
    decreases |ops|
  {
    hide Step, Clean, Inv;
    if ops != [] {
      var t := Step(s, ops[0]);
      ScanStep(s, ops[0]);
      StepKeepsInv(s, ops[0]);
      EagerStepClean(s, ops[0]);
      ScanResistance(t, ops[1..]);
      var z := Run(t, ops[1..]);
      assert z == Run(s, ops);
      forall h | h in s.main ensures h in z.entries {
        var i :| 0 <= i < |s.main| && s.main[i] == h;
        assert t.main[i] == h;
      }
    } else {
      CleanNodesLive(s);
    }
  }
}
