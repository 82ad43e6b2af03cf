/**
 The ghost queue: what an eviction adds to it, that it is always the newest part of
 what was added and not taken back, and exactly how long a victim is remembered.
 */
module Ghosting {
  import opened Basics
  import opened Store
  import opened Eviction
  import opened Invariants
  import opened Scans
  import opened Rings
  import opened Warming

  // ----- a full queue forgets its oldest

  lemma WindowOfWindow(c: nat, a: seq<QueryHash>, h: QueryHash)
    requires 0 < c
    ensures Window(c, Window(c, a) + [h]) == Window(c, a + [h])
  {
  }

  lemma AddGhostWindow(g: Ghosts, capacity: pos, h: QueryHash)
    requires |g.queue| <= capacity
    ensures AddGhost(g, capacity, h).queue == Window(capacity, g.queue + [h])
  {
  }

  /** After any list of hashes the queue is the last `capacity` of what it held and what was added. */
  lemma {:induction false} AddGhostsWindow(g: Ghosts, capacity: pos, hs: seq<QueryHash>)
    requires |g.queue| <= capacity
    ensures AddGhosts(g, capacity, hs).queue == Window(capacity, g.queue + hs)
    decreases |hs|
  {
    if hs == [] {
      assert g.queue + hs == g.queue;
    } else {
      var init, h := hs[..|hs| - 1], hs[|hs| - 1];
      AddGhostsWindow(g, capacity, init);
      AddGhostWindow(AddGhosts(g, capacity, init), capacity, h);
      WindowOfWindow(capacity, g.queue + init, h);
      assert g.queue + hs == g.queue + init + [h];
    }
  }

  // ----- what an eviction adds

  /** Walk Small from its head: stale nodes and the victim are buried, live ones that are hot and new are passed. */
  ghost function Buried(e: Entries, q: seq<QueryHash>, met: set<QueryHash>): seq<QueryHash> {
    if q == [] then []
    else if q[0] !in e then [q[0]] + Buried(e, q[1..], met)
    else if e[q[0]].freq == 0 || q[0] in met then [q[0]]
    else Buried(e, q[1..], met + {q[0]})
  }

  /** How many live nodes that walk passes. */
  ghost function Passed(e: Entries, q: seq<QueryHash>, met: set<QueryHash>): nat {
    if q == [] then 0
    else if q[0] !in e then Passed(e, q[1..], met)
    else if e[q[0]].freq == 0 || q[0] in met then 0
    else 1 + Passed(e, q[1..], met + {q[0]})
  }

  lemma ElemsNext(q: seq<QueryHash>, k: nat)
    requires k < |q|
    ensures q[..k + 1] == q[..k] + [q[k]] && Elems(q[..k + 1]) == Elems(q[..k]) + {q[k]}
    ensures q[k..] == [q[k]] + q[k + 1..]
  {
    assert q[..k + 1] == q[..k] + [q[k]];
  }

  lemma StaleChangesNothing(e: Entries, q: seq<QueryHash>, a: set<QueryHash>, b: set<QueryHash>)
    requires forall h :: h in e ==> (h in a <==> h in b)
    ensures Buried(e, q, a) == Buried(e, q, b) && Passed(e, q, a) == Passed(e, q, b)
    decreases |q|
  {
    if q != [] && q[0] in e {
      StaleChangesNothing(e, q[1..], a + {q[0]}, b + {q[0]});
    } else if q != [] {
      StaleChangesNothing(e, q[1..], a, b);
    }
  }

  /** Passing node k: nothing so far changes. */
  lemma WalkOn(e: Entries, q: seq<QueryHash>, k: nat)
    requires k < FirstStop(e, q)
    ensures Drop(e, q[..k]) + Buried(e, q[k..], Elems(q[..k])) ==
            Drop(e, q[..k + 1]) + Buried(e, q[k + 1..], Elems(q[..k + 1]))
    ensures |Keep(e, q[..k])| + Passed(e, q[k..], Elems(q[..k])) ==
            |Keep(e, q[..k + 1])| + Passed(e, q[k + 1..], Elems(q[..k + 1]))
  {
    var met := Elems(q[..k]);
    assert !StopsAt(e, q, k);
    assert q[k] in met <==> q[k] in q[..k];
    ElemsNext(q, k);
    KeepAppend(e, q[..k], q[k]);
    hide FirstStop, Keep, Drop, Elems, StopsAt;
    assert q[k..][0] == q[k] && q[k..][1..] == q[k + 1..];
    if q[k] !in e {
      StaleChangesNothing(e, q[k + 1..], met, Elems(q[..k + 1]));
      hide Buried, Passed;
      Rejoin(Drop(e, q[..k]), q[k], Buried(e, q[k + 1..], met));
    }
  }

  lemma Rejoin(a: seq<QueryHash>, h: QueryHash, b: seq<QueryHash>)
    ensures a + ([h] + b) == (a + [h]) + b
  {
  }

  lemma WalkEnds(e: Entries, q: seq<QueryHash>)
    ensures var i := FirstStop(e, q);
            && Buried(e, q[i..], Elems(q[..i])) == (if i < |q| then [q[i]] else [])
            && Passed(e, q[i..], Elems(q[..i])) == 0
  {
    var i := FirstStop(e, q);
    if i < |q| {
      assert StopsAt(e, q, i);
      assert q[i..][0] == q[i];
    }
  }

  lemma {:induction false} WalkFrom(e: Entries, q: seq<QueryHash>, k: nat)
    requires k <= FirstStop(e, q)
    ensures var i := FirstStop(e, q);
            && Drop(e, q[..k]) + Buried(e, q[k..], Elems(q[..k])) == Drop(e, q[..i]) + (if i < |q| then [q[i]] else [])
            && |Keep(e, q[..k])| + Passed(e, q[k..], Elems(q[..k])) == |Keep(e, q[..i])|
    decreases |q| - k
  {
    hide FirstStop, Keep, Drop, Elems, Buried, Passed;
    if k == FirstStop(e, q) {
      WalkEnds(e, q);
    } else {
      WalkOn(e, q, k);
      WalkFrom(e, q, k + 1);
    }
  }

  lemma ScanBuries(e: Entries, small: seq<QueryHash>, main: seq<QueryHash>)
    ensures Scan(e, small, main).ghosted == Buried(e, small, {})
    ensures Scan(e, small, main).promoted == Passed(e, small, {})
  {
    WalkFrom(e, small, 0);
    assert small[..0] == [] && small[0..] == small && Elems([]) == {};
    assert [] + Buried(e, small, {}) == Buried(e, small, {});
    hide FirstStop, Keep, Cool, Buried, Passed;
  }

  /**
   An eviction buries the stale nodes it meets in Small and its victim if that came from Small, in the order
   it meets them, and forgets the oldest ghosts beyond capacity. It counts as promoted what it passed alive.
   */
  lemma EvictionBuries(s: Store)
    requires |s.ghosts.queue| <= s.cfg.ghostCapacity
    ensures var t := EvictOne(s).store;
            && t.ghosts.queue == Window(s.cfg.ghostCapacity, s.ghosts.queue + Buried(s.entries, s.small, {}))
            && t.stats.promotions == s.stats.promotions + Passed(s.entries, s.small, {})
  {
    ScanBuries(s.entries, s.small, s.main);
    AddGhostsWindow(s.ghosts, s.cfg.ghostCapacity, Buried(s.entries, s.small, {}));
    hide Scan, AddGhosts, Buried, Passed, Window;
  }

  // ----- the queue over runs

  datatype Rite = Buries(hashes: seq<QueryHash>) | Raises(hash: QueryHash) | Wipes

  /** What one rite does to a queue of bounded length. */
  ghost function Perform(capacity: nat, q: seq<QueryHash>, rite: Rite): seq<QueryHash> {
    match rite
    case Buries(hs) => Window(capacity, q + hs)
    case Raises(h) => Without(q, h)
    case Wipes => []
  }

  ghost function Performed(capacity: nat, q: seq<QueryHash>, rites: seq<Rite>): seq<QueryHash>
    decreases |rites|
  {
    if rites == [] then q else Performed(capacity, Perform(capacity, q, rites[0]), rites[1..])
  }

  lemma {:induction false} PerformedConcat(capacity: nat, q: seq<QueryHash>, a: seq<Rite>, b: seq<Rite>)
    ensures Performed(capacity, q, a + b) == Performed(capacity, Performed(capacity, q, a), b)
    decreases |a|
  {
    if a == [] {
      assert a + b == b;
    } else {
      assert (a + b)[0] == a[0] && (a + b)[1..] == a[1..] + b;
      PerformedConcat(capacity, Perform(capacity, q, a[0]), a[1..], b);
    }
  }

  lemma PerformOne(capacity: nat, q: seq<QueryHash>, rite: Rite)
    ensures Performed(capacity, q, [rite]) == Perform(capacity, q, rite)
  {
    assert [rite][1..] == [];
    assert Performed(capacity, Perform(capacity, q, rite), []) == Perform(capacity, q, rite);
  }

  ghost function WhileRites(s: Store, p: Pressure): seq<Rite>
    decreases Nodes(s)
  {
    if !Over(s, p) then []
    else
      [Buries(Buried(s.entries, s.small, {}))] +
      (if EvictOne(s).source.None? then [] else WhileRites(EvictOne(s).store, p))
  }

  ghost function TimesRites(s: Store, n: nat): seq<Rite>
    decreases n
  {
    if n == 0 || (s.small == [] && s.main == []) then []
    else [Buries(Buried(s.entries, s.small, {}))] + TimesRites(EvictOne(s).store, n - 1)
  }

  ghost function AdmitRites(s: Store, h: QueryHash): seq<Rite> {
    var w := Enqueue(s, h);
    var a := EvictWhile(w, Count).store;
    (if h in s.ghosts.members then [Raises(h)] else [])
    + WhileRites(w, Count) + (if a.maxMemory == 0 then [] else WhileRites(a, Memory))
  }

  ghost function PutRites(s: Store, h: QueryHash, e: Entry, exact: Option<QueryHash>): seq<Rite> {
    if h in s.entries then [] else AdmitRites(Stored(s, h, e, exact), h)
  }

  ghost function WarmupRites(s: Store, items: seq<(string, Option<Response>)>, upstream: string, now: int): seq<Rite>
    decreases |items|
  {
    if items == [] then []
    else if items[0].1.None? then WarmupRites(s, items[1..], upstream, now)
    else if |s.entries| >= s.maxEntries then []
    else
      var h, e := HashQuery(s.cfg, items[0].0),
        NewEntry(items[0].1.value, upstream, "default", Some(items[0].0), now);
      PutRites(s, h, e, None) + WarmupRites(Put(s, h, e, None), items[1..], upstream, now)
  }

  ghost function RestoreRites(s: Store, items: seq<(QueryHash, Entry)>): seq<Rite>
    decreases |items|
  {
    if items == [] || |s.entries| >= s.maxEntries then []
    else
      AdmitRites(TrackedInsert(s, items[0].0, items[0].1.(freq := 0)), items[0].0)
      + RestoreRites(RestoreOne(s, items[0].0, items[0].1), items[1..])
  }

  /** What an operation does to the ghosts, in order. */
  ghost function Rites(s: Store, op: Op): seq<Rite> {
    match op
    case OpInsert(q, r, u, c, now, vs) =>
      PutRites(LimitUpstream(s, u, vs), HashQuery(s.cfg, q), NewEntry(r, u, c, Some(q), now), Some(HashExact(q)))
    case OpInsertByHash(h, r, u, k, now, vs) =>
      PutRites(LimitUpstream(s, u, vs), h, NewEntry(r, u, "default", k, now), None)
    case OpWarmup(items, u, now) => WarmupRites(s, items, u, now)
    case OpRestore(items) => RestoreRites(s, items)
    case OpClear => [Wipes]
    case OpFingerprint(f) => if s.fingerprint != 0 && s.fingerprint != f then [Wipes] else []
    case OpEnforceMemory => if s.maxMemory == 0 then [] else WhileRites(s, Memory)
    case OpEvictSmart(expired, target) =>
      var t := SmartExpired(s, expired, target);
      TimesRites(t, Remaining(target, Lost(s, t)))
    case _ => []
  }

  ghost function RunRites(s: Store, ops: seq<Op>): seq<Rite>
    decreases |ops|
  {
    if ops == [] then [] else Rites(s, ops[0]) + RunRites(Step(s, ops[0]), ops[1..])
  }

  /** The queue is within its capacity, and after the rites it is what they make of it. */
  ghost predicate Follows(s: Store, t: Store, rites: seq<Rite>) {
    && t.cfg == s.cfg && |t.ghosts.queue| <= t.cfg.ghostCapacity
    && t.ghosts.queue == Performed(s.cfg.ghostCapacity, s.ghosts.queue, rites)
  }

  ghost predicate Bounded(s: Store) {
    |s.ghosts.queue| <= s.cfg.ghostCapacity
  }

  lemma FollowsOn(s: Store, t: Store, w: Store, a: seq<Rite>, b: seq<Rite>)
    requires Follows(s, t, a) && Follows(t, w, b)
    ensures Follows(s, w, a + b)
  {
    PerformedConcat(s.cfg.ghostCapacity, s.ghosts.queue, a, b);
  }

  lemma FollowsNothing(s: Store, t: Store)
    requires Bounded(s) && t.cfg == s.cfg && t.ghosts == s.ghosts
    ensures Follows(s, t, [])
  {
  }

  lemma EvictOneFollows(s: Store)
    requires Bounded(s)
    ensures Follows(s, EvictOne(s).store, [Buries(Buried(s.entries, s.small, {}))])
  {
    EvictionBuries(s);
    PerformOne(s.cfg.ghostCapacity, s.ghosts.queue, Buries(Buried(s.entries, s.small, {})));
    hide Scan, AddGhosts, Buried, Passed, Performed;
  }

  lemma {:induction false} EvictWhileFollows(s: Store, p: Pressure)
    requires Bounded(s)
    ensures Follows(s, EvictWhile(s, p).store, WhileRites(s, p))
    decreases Nodes(s)
  {
    if !Over(s, p) {
      FollowsNothing(s, s);
    } else {
      hide EvictOne, Buried;
      var first := [Buries(Buried(s.entries, s.small, {}))];
      EvictOneFollows(s);
      if EvictOne(s).source.None? {
        assert first + [] == first;
      } else {
        EvictWhileFollows(EvictOne(s).store, p);
        FollowsOn(s, EvictOne(s).store, EvictWhile(s, p).store, first, WhileRites(EvictOne(s).store, p));
      }
    }
  }

  lemma {:induction false} EvictTimesFollows(s: Store, n: nat)
    requires Bounded(s)
    ensures Follows(s, EvictTimes(s, n), TimesRites(s, n))
    decreases n
  {
    hide EvictOne, Buried;
    if n == 0 || (s.small == [] && s.main == []) {
      FollowsNothing(s, s);
    } else {
      var first := [Buries(Buried(s.entries, s.small, {}))];
      EvictOneFollows(s);
      EvictTimesFollows(EvictOne(s).store, n - 1);
      FollowsOn(s, EvictOne(s).store, EvictTimes(s, n), first, TimesRites(EvictOne(s).store, n - 1));
    }
  }

  lemma EnqueueFollows(s: Store, h: QueryHash)
    requires Bounded(s)
    ensures Follows(s, Enqueue(s, h), if h in s.ghosts.members then [Raises(h)] else [])
  {
    PerformOne(s.cfg.ghostCapacity, s.ghosts.queue, Raises(h));
    hide Performed;
    if h !in s.ghosts.members {
      FollowsNothing(s, Enqueue(s, h));
    }
  }

  lemma AdmitFollows(s: Store, h: QueryHash)
    requires Bounded(s)
    ensures Follows(s, Admit(s, h), AdmitRites(s, h))
  {
    hide EvictWhile, WhileRites, Enqueue;
    var w := Enqueue(s, h);
    var a := EvictWhile(w, Count).store;
    var raise := if h in s.ghosts.members then [Raises(h)] else [];
    EnqueueFollows(s, h);
    EvictWhileFollows(w, Count);
    FollowsOn(s, w, a, raise, WhileRites(w, Count));
    if a.maxMemory == 0 {
      assert raise + WhileRites(w, Count) + [] == raise + WhileRites(w, Count);
    } else {
      EvictWhileFollows(a, Memory);
      FollowsOn(s, a, EvictWhile(a, Memory).store, raise + WhileRites(w, Count), WhileRites(a, Memory));
    }
  }

  lemma PutFollows(s: Store, h: QueryHash, e: Entry, exact: Option<QueryHash>)
    requires Bounded(s)
    ensures Follows(s, Put(s, h, e, exact), PutRites(s, h, e, exact))
  {
    hide Admit, AdmitRites, Performed;
    if h in s.entries {
      FollowsNothing(s, Put(s, h, e, exact));
    } else {
      AdmitFollows(Stored(s, h, e, exact), h);
    }
  }

  lemma {:induction false} WarmupFollows(s: Store, items: seq<(string, Option<Response>)>, upstream: string, now: int)
    requires Bounded(s)
    ensures Follows(s, Warmup(s, items, upstream, now), WarmupRites(s, items, upstream, now))
    decreases |items|
  {
    hide Put, PutRites, Follows;
    if items == [] || (items[0].1.Some? && |s.entries| >= s.maxEntries) {
      FollowsNothing(s, s);
    } else if items[0].1.None? {
      WarmupFollows(s, items[1..], upstream, now);
    } else {
      var h, e := HashQuery(s.cfg, items[0].0),
        NewEntry(items[0].1.value, upstream, "default", Some(items[0].0), now);
      var t := Put(s, h, e, None);
      PutFollows(s, h, e, None);
      FollowsIsBounded(s, t, PutRites(s, h, e, None));
      WarmupFollows(t, items[1..], upstream, now);
      FollowsOn(s, t, Warmup(s, items, upstream, now), PutRites(s, h, e, None),
                WarmupRites(t, items[1..], upstream, now));
    }
  }

  lemma FollowsIsBounded(s: Store, t: Store, rites: seq<Rite>)
    requires Follows(s, t, rites)
    ensures Bounded(t)
  {
  }

  lemma RestoreOneFollows(s: Store, h: QueryHash, e: Entry)
    requires Bounded(s)
    ensures Follows(s, RestoreOne(s, h, e), AdmitRites(TrackedInsert(s, h, e.(freq := 0)), h))
  {
    hide Admit, AdmitRites, Performed;
    AdmitFollows(TrackedInsert(s, h, e.(freq := 0)), h);
  }

  lemma {:induction false} RestoreFollows(s: Store, items: seq<(QueryHash, Entry)>)
    requires Bounded(s)
    ensures Follows(s, Restore(s, items), RestoreRites(s, items))
    decreases |items|
  {
    hide RestoreOne, AdmitRites, Follows;
    if items == [] || |s.entries| >= s.maxEntries {
      FollowsNothing(s, s);
    } else {
      var h, e := items[0].0, items[0].1;
      var t, first := RestoreOne(s, h, e), AdmitRites(TrackedInsert(s, h, e.(freq := 0)), h);
      RestoreOneFollows(s, h, e);
      FollowsIsBounded(s, t, first);
      RestoreFollows(t, items[1..]);
      FollowsOn(s, t, Restore(s, items), first, RestoreRites(t, items[1..]));
    }
  }

  lemma {:induction false} RemoveAllGhosts(s: Store, hs: seq<QueryHash>)
    ensures RemoveAll(s, hs).ghosts == s.ghosts && RemoveAll(s, hs).cfg == s.cfg
    decreases |hs|
  {
    if hs != [] {
      RemoveAllGhosts(s, hs[..|hs| - 1]);
    }
  }

  lemma InsertsFollow(s: Store, op: Op)
    requires Bounded(s) && (op.OpInsert? || op.OpInsertByHash?)
    ensures Follows(s, Step(s, op), Rites(s, op))
  {
    RemoveAllGhosts(s, op.victims);
    hide RemoveAll, Put, PutRites, Performed;
    var t := LimitUpstream(s, op.upstream, op.victims);
    match op
    case OpInsert(q, r, u, c, now, _) =>
      PutFollows(t, HashQuery(s.cfg, q), NewEntry(r, u, c, Some(q), now), Some(HashExact(q)));
    case OpInsertByHash(h, r, u, k, now, _) =>
      PutFollows(t, h, NewEntry(r, u, "default", k, now), None);
  }

  lemma EvictionsFollow(s: Store, op: Op)
    requires Bounded(s) && (op.OpEnforceMemory? || op.OpEvictSmart? || op.OpEvict?)
    ensures Follows(s, Step(s, op), Rites(s, op))
  {
    hide EvictWhile, EvictTimes, RemoveAll, WhileRites, TimesRites, Performed;
    match op
    case OpEnforceMemory =>
      EvictWhileFollows(s, Memory);
      FollowsNothing(s, s);
    case OpEvictSmart(expired, target) =>
      var t := SmartExpired(s, expired, target);
      RemoveAllGhosts(s, if |expired| <= target then expired else expired[..target]);
      EvictTimesFollows(t, Remaining(target, Lost(s, t)));
    case OpEvict(hs, reason) =>
      RemoveAllGhosts(s, hs);
      FollowsNothing(s, Step(s, op));
  }

  lemma OthersFollow(s: Store, op: Op)
    requires Bounded(s) && Rites(s, op) == [] && !op.OpInsert? && !op.OpInsertByHash? && !op.OpWarmup? && !op.OpRestore?
    requires !op.OpEnforceMemory? && !op.OpEvictSmart? && !op.OpEvict?
    ensures Follows(s, Step(s, op), [])
  {
    hide Performed;
    FollowsNothing(s, Step(s, op));
  }

  /** Every operation does to the ghost queue exactly what its rites say, whatever nodes the queues hold. */
  lemma StepFollows(s: Store, op: Op)
    requires Bounded(s)
    ensures Follows(s, Step(s, op), Rites(s, op))
  {
    if op.OpInsert? || op.OpInsertByHash? {
      InsertsFollow(s, op);
    } else if op.OpWarmup? {
      WarmupFollows(s, op.items, op.upstream, op.now);
    } else if op.OpRestore? {
      RestoreFollows(s, op.persisted);
    } else if op.OpEnforceMemory? || op.OpEvictSmart? || op.OpEvict? {
      EvictionsFollow(s, op);
    } else if Rites(s, op) == [] {
      OthersFollow(s, op);
    } else {
      PerformOne(s.cfg.ghostCapacity, s.ghosts.queue, Wipes);
      hide Performed;
    }
  }

  lemma {:induction false} RunFollows(s: Store, ops: seq<Op>)
    requires Bounded(s)
    ensures Follows(s, Run(s, ops), RunRites(s, ops))
    decreases |ops|
  {
    hide Step, Rites, Follows;
    if ops == [] {
      FollowsNothing(s, s);
    } else {
      var t := Step(s, ops[0]);
      StepFollows(s, ops[0]);
      FollowsIsBounded(s, t, Rites(s, ops[0]));
      RunFollows(t, ops[1..]);
      FollowsOn(s, t, Run(s, ops), Rites(s, ops[0]), RunRites(t, ops[1..]));
    }
  }

  // ----- how long a victim is remembered

  /** The rites do not bury, raise or wipe `v`. */
  ghost predicate Spares(rite: Rite, v: QueryHash) {
    match rite
    case Buries(hs) => v !in hs
    case Raises(h) => h != v
    case Wipes => false
  }

  ghost predicate SparesAll(rites: seq<Rite>, v: QueryHash) {
    forall i :: 0 <= i < |rites| ==> Spares(rites[i], v)
  }

  /** The hashes buried after some point and not raised since, with nothing ever forgotten. */
  ghost function Followers(y: seq<QueryHash>, rites: seq<Rite>): seq<QueryHash>
    decreases |rites|
  {
    if rites == [] then y
    else
      match rites[0]
      case Buries(hs) => Followers(y + hs, rites[1..])
      case Raises(h) => Followers(Without(y, h), rites[1..])
      case Wipes => Followers([], rites[1..])
  }

  lemma {:induction false} WithoutConcat(a: seq<QueryHash>, b: seq<QueryHash>, h: QueryHash)
    ensures Without(a + b, h) == Without(a, h) + Without(b, h)
    decreases |b|
  {
    if b == [] {
      assert a + b == a;
    } else {
      var init, last := b[..|b| - 1], b[|b| - 1];
      assert (a + b)[..|a + b| - 1] == a + init;
      WithoutConcat(a, init, h);
    }
  }

  lemma WithoutOne(v: QueryHash, h: QueryHash)
    requires v != h
    ensures Without([v], h) == [v]
  {
    assert [v][..0] == [];
    assert Without([], h) == [];
  }

  lemma {:induction false} ForgottenStays(capacity: nat, q: seq<QueryHash>, rites: seq<Rite>, v: QueryHash)
    requires v !in q && SparesAll(rites, v)
    ensures v !in Performed(capacity, q, rites)
    decreases |rites|
  {
    if rites != [] {
      assert Spares(rites[0], v);
      assert forall i :: 0 <= i < |rites[1..]| ==> rites[1..][i] == rites[i + 1];
      ForgottenStays(capacity, Perform(capacity, q, rites[0]), rites[1..], v);
    }
  }

  /** After one rite the hash is still there, with its new followers behind it, or they alone fill the queue. */
  lemma OneRite(capacity: nat, x: seq<QueryHash>, v: QueryHash, y: seq<QueryHash>, rite: Rite)
    returns (x': seq<QueryHash>)
    requires 0 < capacity && |x + [v] + y| <= capacity && Spares(rite, v) && v !in x && v !in y
    ensures var y' := Followers(y, [rite]); var q := Perform(capacity, x + [v] + y, rite);
            && v !in y' && v !in x' && |q| <= capacity
            && (|y'| < capacity ==> q == x' + [v] + y')
            && (|y'| >= capacity ==> v !in q)
  {
    assert [rite][1..] == [];
    match rite
    case Buries(hs) =>
      var all := x + [v] + y + hs;
      assert Followers(y + hs, []) == y + hs;
      x' := if |all| <= capacity then x else if |y + hs| < capacity then x[|all| - capacity..] else [];
      assert all == x + [v] + (y + hs);
    case Raises(h) =>
      assert Followers(Without(y, h), []) == Without(y, h);
      WithoutConcat(x + [v], y, h);
      WithoutConcat(x, [v], h);
      WithoutOne(v, h);
      x' := Without(x, h);
  }

  lemma FollowersStep(y: seq<QueryHash>, rites: seq<Rite>, i: nat)
    requires 0 < i <= |rites|
    ensures Followers(y, rites[..i]) == Followers(Followers(y, [rites[0]]), rites[1..][..i - 1])
  {
    assert rites[..i][0] == rites[0] && rites[..i][1..] == rites[1..][..i - 1];
    assert [rites[0]][1..] == [];
    assert forall z: seq<QueryHash> :: Followers(z, []) == z;
  }

  /** At no point have `capacity` or more followers been unraised. */
  ghost predicate NeverCrowded(capacity: nat, y: seq<QueryHash>, rites: seq<Rite>) {
    forall i :: 0 <= i <= |rites| ==> |Followers(y, rites[..i])| < capacity
  }

  lemma CrowdedNext(capacity: nat, y: seq<QueryHash>, rites: seq<Rite>)
    requires rites != [] && |y| < capacity
    ensures NeverCrowded(capacity, y, rites) <==> NeverCrowded(capacity, Followers(y, [rites[0]]), rites[1..])
    ensures NeverCrowded(capacity, y, rites) ==> |Followers(y, [rites[0]])| < capacity
  {
    hide Followers;
    var y', rest := Followers(y, [rites[0]]), rites[1..];
    if NeverCrowded(capacity, y, rites) {
      forall i | 0 <= i <= |rest| ensures |Followers(y', rest[..i])| < capacity {
        FollowersStep(y, rites, i + 1);
        assert |Followers(y, rites[..i + 1])| < capacity;
      }
      assert rites[..1] == [rites[0]];
    }
    if NeverCrowded(capacity, y', rest) {
      forall i | 0 <= i <= |rites| ensures |Followers(y, rites[..i])| < capacity {
        if i == 0 {
          assert rites[..0] == [];
          NoFollowers(y);
        } else {
          FollowersStep(y, rites, i);
          assert |Followers(y', rest[..i - 1])| < capacity;
        }
      }
    }
  }

  lemma NoFollowers(y: seq<QueryHash>)
    ensures Followers(y, []) == y
  {
  }

  /** A hash in the queue stays in it exactly as long as its followers never fill the queue by themselves. */
  lemma {:induction false} StaysIff(capacity: nat, x: seq<QueryHash>, v: QueryHash, y: seq<QueryHash>, rites: seq<Rite>)
    requires 0 < capacity && |x + [v] + y| <= capacity && SparesAll(rites, v) && v !in x && v !in y
    ensures v in Performed(capacity, x + [v] + y, rites) <==> NeverCrowded(capacity, y, rites)
    decreases |rites|
  {
    if rites == [] {
      assert v in x + [v] + y;
      assert rites[..0] == [];
    } else {
      assert Spares(rites[0], v);
      assert forall i :: 0 <= i < |rites[1..]| ==> rites[1..][i] == rites[i + 1];
      var x' := OneRite(capacity, x, v, y, rites[0]);
      CrowdedNext(capacity, y, rites);
      var y' := Followers(y, [rites[0]]);
      hide Followers, Perform, NeverCrowded;
      if |y'| < capacity {
        StaysIff(capacity, x', v, y', rites[1..]);
      } else {
        ForgottenStays(capacity, Perform(capacity, x + [v] + y, rites[0]), rites[1..], v);
        CrowdedNow(capacity, y', rites[1..]);
      }
    }
  }

  lemma CrowdedNow(capacity: nat, y: seq<QueryHash>, rites: seq<Rite>)
    requires |y| >= capacity
    ensures !NeverCrowded(capacity, y, rites)
  {
    assert rites[..0] == [];
    assert |Followers(y, rites[..0])| >= capacity;
  }

  ghost predicate OnlyBuries(rites: seq<Rite>) {
    forall i :: 0 <= i < |rites| ==> rites[i].Buries?
  }

  ghost function BuriedIn(rites: seq<Rite>): seq<QueryHash>
    decreases |rites|
  {
    if rites == [] then []
    else (if rites[0].Buries? then rites[0].hashes else []) + BuriedIn(rites[1..])
  }

  /** Without raising, the followers are simply all that was buried. */
  lemma {:induction false} FollowersAreBuried(y: seq<QueryHash>, rites: seq<Rite>)
    requires OnlyBuries(rites)
    ensures Followers(y, rites) == y + BuriedIn(rites)
    decreases |rites|
  {
    if rites != [] {
      assert rites[0].Buries?;
      assert forall i :: 0 <= i < |rites[1..]| ==> rites[1..][i] == rites[i + 1];
      FollowersAreBuried(y + rites[0].hashes, rites[1..]);
      assert y + (rites[0].hashes + BuriedIn(rites[1..])) == (y + rites[0].hashes) + BuriedIn(rites[1..]);
    }
  }

  lemma {:induction false} BuriedPrefix(rites: seq<Rite>, i: nat)
    requires i <= |rites|
    ensures |BuriedIn(rites[..i])| <= |BuriedIn(rites)|
    decreases i
  {
    if i > 0 {
      assert rites[..i][1..] == rites[1..][..i - 1];
      BuriedPrefix(rites[1..], i - 1);
    }
  }

  /** When no ghost is taken back, a hash is remembered exactly while fewer than `capacity` others follow it. */
  lemma NeverCrowdedIff(capacity: nat, y: seq<QueryHash>, rites: seq<Rite>)
    requires OnlyBuries(rites)
    ensures NeverCrowded(capacity, y, rites) <==> |y| + |BuriedIn(rites)| < capacity
  {
    forall i | 0 <= i <= |rites| ensures |Followers(y, rites[..i])| <= |y| + |BuriedIn(rites)| {
      FollowersAreBuried(y, rites[..i]);
      BuriedPrefix(rites, i);
    }
    FollowersAreBuried(y, rites);
    assert rites[..|rites|] == rites;
    hide Followers, BuriedIn;
    if NeverCrowded(capacity, y, rites) {
      assert |Followers(y, rites[..|rites|])| < capacity;
    }
  }

  /** With ghosts taken back in between the plain count is not enough: two follow in a queue of two, and `v` stays. */
  lemma RaisedMakeRoom(v: QueryHash, b: QueryHash, c: QueryHash)
    requires v != b && v != c
    ensures var rites := [Buries([b])] + [Raises(b)] + [Buries([c])];
            |BuriedIn(rites)| == 2 && v in Performed(2, [v], rites)
  {
    var r1, r2, r3 := [Buries([b])], [Raises(b)], [Buries([c])];
    PerformedConcat(2, [v], r1 + r2, r3);
    PerformedConcat(2, [v], r1, r2);
    PerformOne(2, [v], Buries([b]));
    assert [v] + [b] == [v, b];
    PerformOne(2, [v, b], Raises(b));
    WithoutConcat([v], [b], b);
    WithoutOne(v, b);
    assert [b][..0] == [] && Without([], b) == [] && Without([b], b) == [];
    PerformOne(2, [v], Buries([c]));
    assert v in [v] + [c];
    assert (r1 + r2 + r3)[1..] == r2 + r3 && (r2 + r3)[1..] == r3 && r3[1..] == [];
    assert BuriedIn(r3) == [c] + BuriedIn([]) && BuriedIn(r2 + r3) == [] + BuriedIn(r3);
  }

  // ----- runs without lazy removals

  /**
   On every run without lazy removals, a hash in the ghost set that the run neither takes back nor wipes is
   still in it at the end exactly when its followers never filled the queue by themselves.
   */
  lemma GhostRememberedIff(s: Store, ops: seq<Op>, v: QueryHash, x: seq<QueryHash>, y: seq<QueryHash>)
    requires Clean(s) && Inv(s) && EagerRun(ops) && s.perUpstreamLimit == None
    requires s.ghosts.queue == x + [v] + y && SparesAll(RunRites(s, ops), v)
    ensures v in Run(s, ops).ghosts.members <==> NeverCrowded(s.cfg.ghostCapacity, y, RunRites(s, ops))
  {
    GhostsListedOnce(s.ghosts);
    assert forall i :: 0 <= i < |x| ==> s.ghosts.queue[i] == x[i];
    assert s.ghosts.queue[|x|] == v;
    assert forall i :: 0 <= i < |y| ==> s.ghosts.queue[|x| + 1 + i] == y[i];
    RunFollows(s, ops);
    EagerRunStaysClean(s, ops);
    GhostsListedOnce(Run(s, ops).ghosts);
    hide Run, RunRites, NeverCrowded, EagerRun, Performed, SparesAll;
    StaysIff(s.cfg.ghostCapacity, x, v, y, RunRites(s, ops));
  }

  /** The last victim of Small, in a run that takes no ghost back: remembered while fewer than `capacity` follow it. */
  lemma VictimRememberedIff(s: Store, ops: seq<Op>, v: QueryHash, x: seq<QueryHash>)
    requires Clean(s) && Inv(s) && EagerRun(ops) && s.perUpstreamLimit == None
    requires s.ghosts.queue == x + [v] && SparesAll(RunRites(s, ops), v) && OnlyBuries(RunRites(s, ops))
    ensures v in Run(s, ops).ghosts.members <==> |BuriedIn(RunRites(s, ops))| < s.cfg.ghostCapacity
  {
    assert x + [v] == x + [v] + [];
    GhostRememberedIff(s, ops, v, x, []);
    NeverCrowdedIff(s.cfg.ghostCapacity, [], RunRites(s, ops));
  }

  /** A remembered hash stored again, with a node and room to spare, goes to the tail of Main; any other to Small's. */
  lemma RememberedEntersMain(s: Store, h: QueryHash, e: Entry, exact: Option<QueryHash>)
    requires Inv(s) && e.freq == 0 && h !in s.entries
    requires Nodes(s) < Capacity(s.cfg) && (s.maxMemory == 0 || s.bytes + e.size <= s.maxMemory)
    ensures var t := Put(s, h, e, exact);
            if h in s.ghosts.members
            then t.main == s.main + [h] && t.small == s.small && h !in t.ghosts.members && h !in t.ghosts.queue
                 && t.stats.ghostHits == s.stats.ghostHits + 1
            else t.small == s.small + [h] && t.main == s.main && t.ghosts == s.ghosts
                 && t.stats.ghostHits == s.stats.ghostHits
  {
    var u := Stored(s, h, e, exact);
    StoredIsPending(s, h, e, exact);
    EnqueueKeeps(u, h);
    ShrinkEvictsIff(Enqueue(u, h), h);
    hide Shrink, Inv, Sound, Pending;
  }
}
