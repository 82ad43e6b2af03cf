/** What the two adjustable limits do and do not bound: entries in all, and entries per upstream. */
module Limits {
  import opened Basics
  import opened Store
  import opened Invariants
  import opened CacheStores
  import opened Enforcement
  import opened Targets
  import opened Warming

  // ----- the entry limit

  /** Distinct hashes, as many as wanted. */
  function Unary(i: nat): QueryHash {
    Blake3(seq(i, _ => 'a'))
  }

  lemma UnaryApart(i: nat, j: nat)
    requires i != j
    ensures Unary(i) != Unary(j)
  {
    assert |Unary(i).preimage| == i && |Unary(j).preimage| == j;
  }

  function FillOp(i: nat): Op {
    OpInsertByHash(Unary(i), Response(0, 0), "u", None, 0, [])
  }

  function Fill(k: nat): seq<Op> {
    if k == 0 then [] else Fill(k - 1) + [FillOp(k - 1)]
  }

  /** k entries of no size, stored under the first k hashes, nothing evicted. */
  ghost predicate Filled(s: Store, k: nat) {
    && Nodes(s) == |s.entries| == k && s.bytes == 0 && s.perUpstreamLimit == None
    && forall j: nat :: j >= k ==> Unary(j) !in s.entries
  }

  const NOTHING := NewEntry(Response(0, 0), "u", "default", None, 0)

  lemma FillOpPuts(s: Store, k: nat)
    requires s.perUpstreamLimit == None
    ensures Step(s, FillOp(k)) == Put(s, Unary(k), NOTHING, None)
  {
    hide Put, Unary;
    assert LimitUpstream(s, "u", []) == s;
  }

  lemma FillStep(s: Store, k: nat)
    requires Inv(s) && Filled(s, k) && k < Capacity(s.cfg)
    ensures Filled(Step(s, FillOp(k)), k + 1)
  {
    hide Step, Put, Inv, Unary;
    var h := Unary(k);
    FillOpPuts(s, k);
    NewKeyEvictsNothingIff(s, h, NOTHING, None);
    PutKeeps(s, h, NOTHING, None);
    var t := Put(s, h, NOTHING, None);
    assert t.entries == s.entries[h := NOTHING];
    assert t.entries.Keys == s.entries.Keys + {h};
    assert |t.entries| == |t.entries.Keys|;
    forall j: nat | j >= k + 1 ensures Unary(j) !in t.entries {
      UnaryApart(j, k);
    }
  }

  lemma NewIsFilled(normalize: string -> string, matching: bool, maxEntries: nat, maxMemory: nat)
    ensures Filled(Run(NewStore(normalize, matching, maxEntries, maxMemory), Fill(0)), 0)
  {
  }

  lemma {:induction false} FillRuns(normalize: string -> string, matching: bool, maxEntries: nat, maxMemory: nat,
                                    k: nat)
    requires k <= if maxEntries >= 1 then maxEntries else 1
    ensures var s := Run(NewStore(normalize, matching, maxEntries, maxMemory), Fill(k)); Inv(s) && Filled(s, k)
    decreases k
  {
    hide Run, Inv, Filled, Step, Unary, NewStore, FillOp, Capacity;
    var s0 := NewStore(normalize, matching, maxEntries, maxMemory);
    NewCapacity(normalize, matching, maxEntries, maxMemory);
    RunKeepsInv(s0, Fill(k));
    if k == 0 {
      NewIsFilled(normalize, matching, maxEntries, maxMemory);
    } else {
      RunKeepsInv(s0, Fill(k - 1));
      FillRuns(normalize, matching, maxEntries, maxMemory, k - 1);
      RunAppend(s0, Fill(k - 1), FillOp(k - 1));
      FillStep(Run(s0, Fill(k - 1)), k - 1);
    }
  }

  lemma NewCapacity(normalize: string -> string, matching: bool, maxEntries: nat, maxMemory: nat)
    ensures var s := NewStore(normalize, matching, maxEntries, maxMemory);
            Inv(s) && Capacity(s.cfg) == if maxEntries >= 1 then maxEntries else 1
  {
    NewStoreInv(normalize, matching, maxEntries, maxMemory);
  }

  /** A run from a store built for `built` entries that ends with the limit at n and more than n entries. */
  ghost predicate Exceeds(normalize: string -> string, matching: bool, built: nat, maxMemory: nat, ops: seq<Op>,
                          n: nat) {
    var s := Run(NewStore(normalize, matching, built, maxMemory), ops);
    s.maxEntries == n && |s.entries| > n
  }

  /**
   `set_max_entries` bounds the entries on every run exactly when it does not go below what the
   store was built for.
   */
  lemma EntryLimitHoldsIff(normalize: string -> string, matching: bool, built: nat, maxMemory: nat, n: nat)
    requires n >= 1
    ensures (forall ops :: !Exceeds(normalize, matching, built, maxMemory, ops, n)) <==> n >= built
  {
    if n >= built {
      forall ops ensures !Exceeds(normalize, matching, built, maxMemory, ops, n) {
        EveryRunWithinCapacity(normalize, matching, built, maxMemory, ops);
      }
    } else {
      var s0, set_ := NewStore(normalize, matching, built, maxMemory), OpSetMaxEntries(n);
      FillRuns(normalize, matching, built, maxMemory, built);
      RunAppend(s0, Fill(built), set_);
      assert Exceeds(normalize, matching, built, maxMemory, Fill(built) + [set_], n);
    }
  }

  // ----- the per-upstream limit

  ghost predicate WithinLimit(e: Entries, n: nat) {
    forall u :: |OfUpstream(e, u)| <= n
  }

  /** All these hashes are live, with entries of one upstream. */
  ghost predicate AllFrom(e: Entries, x: set<QueryHash>, upstream: string) {
    x <= e.Keys && forall h :: h in x ==> e[h].upstream == upstream
  }

  lemma WithinLimitMeans(e: Entries, n: nat, x: set<QueryHash>, upstream: string)
    requires WithinLimit(e, n) && AllFrom(e, x, upstream)
    ensures |x| <= n
  {
    SubsetSize(x, OfUpstream(e, upstream));
  }

  /** Entries may leave and counters may move; nothing joins and nothing changes its upstream. */
  ghost predicate Tame(a: Entries, b: Entries) {
    b.Keys <= a.Keys && forall h :: h in b ==> b[h].upstream == a[h].upstream
  }

  lemma TameStaysWithin(a: Entries, b: Entries, n: nat)
    requires Tame(a, b) && WithinLimit(a, n)
    ensures WithinLimit(b, n)
  {
    forall u ensures |OfUpstream(b, u)| <= n {
      SubsetSize(OfUpstream(b, u), OfUpstream(a, u));
    }
  }

  lemma {:induction false} EvictTimesTame(s: Store, n: nat)
    requires Sound(s)
    ensures Tame(s.entries, EvictTimes(s, n).entries)
    decreases n
  {
    hide EvictOne, Sound;
    if n != 0 && !(s.small == [] && s.main == []) {
      EvictOneKeeps(s);
      EvictTimesTame(EvictOne(s).store, n - 1);
    }
  }

  lemma EvictSmartTame(s: Store, expired: seq<QueryHash>, target: nat)
    requires Inv(s)
    ensures Tame(s.entries, EvictSmart(s, expired, target).entries)
  {
    hide RemoveAll, EvictTimes, Elems;
    RemoveAllEntries(s, FirstPhase(expired, target));
    RemoveAllKeeps(s, FirstPhase(expired, target));
    var t := SmartExpired(s, expired, target);
    EvictTimesTame(t, Remaining(target, Lost(s, t)));
  }

  lemma EvictionsTame(s: Store, op: Op)
    requires Inv(s) && (op.OpEnforceMemory? || op.OpEvictSmart? || op.OpEvict?)
    ensures Tame(s.entries, Step(s, op).entries)
  {
    hide EvictSmart, EnforceMemory, Evict, Inv, Tame;
    match op
    case OpEnforceMemory => EnforceTame(s);
    case OpEvictSmart(expired, target) => EvictSmartTame(s, expired, target);
    case OpEvict(hs, reason) => EvictTame(s, hs, reason);
  }

  lemma EnforceTame(s: Store)
    requires Inv(s)
    ensures Tame(s.entries, EnforceMemory(s).entries)
  {
    hide EvictWhile;
    EvictWhileKeeps(s, Memory);
  }

  lemma EvictTame(s: Store, hs: seq<QueryHash>, reason: Reason)
    ensures Tame(s.entries, Evict(s, hs, reason).entries)
  {
    hide RemoveAll;
    RemoveAllEntries(s, hs);
  }

  /** Anything but storing and changing the limit. */
  ghost predicate Quiet(op: Op) {
    !(op.OpInsert? || op.OpInsertByHash? || op.OpWarmup? || op.OpRestore? || op.OpSetUpstreamLimit?)
  }

  lemma QuietStepTame(s: Store, op: Op)
    requires Inv(s) && Quiet(op)
    ensures Tame(s.entries, Step(s, op).entries)
  {
    hide Inv, Get, GetVerified, GetByHash, ExtendTtl, Remove, EnforceMemory, EvictSmart, Evict;
    if op.OpEnforceMemory? || op.OpEvictSmart? || op.OpEvict? {
      EvictionsTame(s, op);
    } else if op.OpGet? || op.OpGetVerified? || op.OpGetByHash? || op.OpExtendTtl? || op.OpRemove? {
      LookupsTame(s, op);
    }
  }

  lemma LookupsTame(s: Store, op: Op)
    requires op.OpGet? || op.OpGetVerified? || op.OpGetByHash? || op.OpExtendTtl? || op.OpRemove?
    ensures Tame(s.entries, Step(s, op).entries)
  {
    hide Get;
    match op
    case OpGet(q) => GetTame(s, q);
    case _ =>
  }

  lemma GetTame(s: Store, query: string)
    ensures Tame(s.entries, Get(s, query).entries)
  {
  }

  lemma OneJoins(e: Entries, h: QueryHash, x: Entry, n: nat)
    requires WithinLimit(e, n) && |OfUpstream(e, x.upstream)| < n
    ensures WithinLimit(e[h := x], n)
  {
    var next := e[h := x];
    forall u ensures |OfUpstream(next, u)| <= n {
      SubsetSize(OfUpstream(next, u), if u == x.upstream then OfUpstream(e, u) + {h} else OfUpstream(e, u));
    }
  }

  lemma PutWithin(s: Store, h: QueryHash, e: Entry, exact: Option<QueryHash>, n: nat)
    requires Inv(s) && e.freq == 0 && WithinLimit(s.entries, n) && |OfUpstream(s.entries, e.upstream)| < n
    ensures WithinLimit(Put(s, h, e, exact).entries, n)
  {
    var u := Stored(s, h, e, exact);
    OneJoins(s.entries, h, e, n);
    if h !in s.entries {
      StoredIsPending(s, h, e, exact);
      EnqueueKeeps(u, h);
      ShrinkKeeps(Enqueue(u, h), h);
      hide Shrink, Enqueue, Inv, Sound, Pending, WithinLimit;
      TameStaysWithin(u.entries, Put(s, h, e, exact).entries, n);
    }
  }

  /** Making room for one entry of an upstream: the oldest one leaves if the limit is reached. */
  lemma RoomForOne(s: Store, upstream: string, victims: seq<QueryHash>, limit: nat, n: nat)
    requires s.perUpstreamLimit == Some(limit) && n == (if limit >= 1 then limit else 1) && WithinLimit(s.entries, n)
    requires LimitReached(s, upstream) ==> OldestFirst(s.entries, upstream, 1, victims)
    ensures var t := LimitUpstream(s, upstream, victims);
            WithinLimit(t.entries, n) && |OfUpstream(t.entries, upstream)| < n
  {
    var t := LimitUpstream(s, upstream, victims);
    if LimitReached(s, upstream) {
      RemoveAllEntries(s, victims);
      hide RemoveAll;
      var before, after := OfUpstream(s.entries, upstream), OfUpstream(t.entries, upstream);
      TameStaysWithin(s.entries, t.entries, n);
      if before == {} {
        assert |before| == 0;
        SubsetSize(after, before);
      } else {
        assert |before| > 0;
        assert |victims| == 1 && victims[0] in victims;
        SubsetSize(after, before - {victims[0]});
      }
    }
  }

  /** Insertions take the victims the code would take; no bulk load, and the limit stays. */
  ghost predicate Respectful(s: Store, op: Op) {
    match op
    case OpInsert(_, _, u, _, _, vs) => LimitReached(s, u) ==> OldestFirst(s.entries, u, 1, vs)
    case OpInsertByHash(_, _, u, _, _, vs) => LimitReached(s, u) ==> OldestFirst(s.entries, u, 1, vs)
    case _ => Quiet(op)
  }

  ghost predicate RespectfulRun(s: Store, ops: seq<Op>)
    decreases |ops|
  {
    ops == [] || (Respectful(s, ops[0]) && RespectfulRun(Step(s, ops[0]), ops[1..]))
  }

  function AtLeastOne(limit: nat): nat {
    if limit >= 1 then limit else 1
  }

  lemma RespectfulStep(s: Store, op: Op, limit: nat)
    requires Inv(s) && s.perUpstreamLimit == Some(limit) && WithinLimit(s.entries, AtLeastOne(limit)) &&
             Respectful(s, op)
    ensures WithinLimit(Step(s, op).entries, AtLeastOne(limit)) && Step(s, op).perUpstreamLimit == Some(limit)
  {
    StepKeepsLimit(s, op);
    hide Inv, Put, WithinLimit, LimitUpstream, OldestFirst;
    if op.OpInsert? || op.OpInsertByHash? {
      var t := LimitUpstream(s, op.upstream, op.victims);
      LimitUpstreamKeeps(s, op.upstream, op.victims);
      RoomForOne(s, op.upstream, op.victims, limit, AtLeastOne(limit));
      match op
      case OpInsert(q, r, u, c, now, _) =>
        PutWithin(t, HashQuery(s.cfg, q), NewEntry(r, u, c, Some(q), now), Some(HashExact(q)), AtLeastOne(limit));
      case OpInsertByHash(h, r, u, k, now, _) =>
        PutWithin(t, h, NewEntry(r, u, "default", k, now), None, AtLeastOne(limit));
    } else {
      hide Step;
      QuietStepTame(s, op);
      TameStaysWithin(s.entries, Step(s, op).entries, AtLeastOne(limit));
    }
  }

  lemma StepKeepsLimit(s: Store, op: Op)
    requires Inv(s) && !op.OpSetUpstreamLimit?
    ensures Inv(Step(s, op)) && Step(s, op).perUpstreamLimit == s.perUpstreamLimit
  {
    StepKeepsInv(s, op);
    hide Inv;
  }

  /** On every respectful run each upstream stays within the limit, or at one entry if the limit is zero. */
  lemma {:induction false} UpstreamsStayWithin(s: Store, ops: seq<Op>, limit: nat)
    requires Inv(s) && s.perUpstreamLimit == Some(limit) && WithinLimit(s.entries, AtLeastOne(limit)) &&
             RespectfulRun(s, ops)
    ensures WithinLimit(Run(s, ops).entries, AtLeastOne(limit))
    ensures forall x, u :: AllFrom(Run(s, ops).entries, x, u) ==> |x| <= AtLeastOne(limit)
    decreases |ops|
  {
    hide Inv, WithinLimit, Step, Respectful;
    if ops == [] {
      forall x, u | AllFrom(s.entries, x, u) ensures |x| <= AtLeastOne(limit) {
        WithinLimitMeans(s.entries, AtLeastOne(limit), x, u);
      }
    } else {
      RespectfulStep(s, ops[0], limit);
      StepKeepsInv(s, ops[0]);
      UpstreamsStayWithin(Step(s, ops[0]), ops[1..], limit);
    }
  }

  /** A new store with a limit set, before it stores anything. */
  ghost function Limited(normalize: string -> string, limit: nat): Store {
    NewStore(normalize, false, 10, 0).(perUpstreamLimit := Some(limit))
  }

  ghost predicate Breaks(normalize: string -> string, limit: nat, ops: seq<Op>) {
    RespectfulRun(Limited(normalize, limit), ops) && !WithinLimit(Run(Limited(normalize, limit), ops).entries, limit)
  }

  lemma LimitedInv(normalize: string -> string, limit: nat)
    ensures Inv(Limited(normalize, limit)) && WithinLimit(Limited(normalize, limit).entries, 0)
  {
    NewStoreInv(normalize, false, 10, 0);
    var e: Entries := map[];
    forall u ensures |OfUpstream(e, u)| <= 0 {
      assert OfUpstream(e, u) == {};
    }
  }

  lemma FirstPut(normalize: string -> string, limit: nat, h: QueryHash, e: Entry, exact: Option<QueryHash>)
    requires e.freq == 0
    ensures var t := Put(Limited(normalize, limit), h, e, exact);
            Inv(t) && t.entries == map[h := e] && Nodes(t) == 1 && t.cfg == Limited(normalize, limit).cfg &&
            t.maxEntries == 10 && t.maxMemory == 0
  {
    var s := Limited(normalize, limit);
    LimitedInv(normalize, limit);
    NewKeyEvictsNothingIff(s, h, e, exact);
    PutKeeps(s, h, e, exact);
    hide Put, Inv;
  }

  /** Limit zero still lets one entry in. */
  lemma ZeroLimitAdmitsOne(normalize: string -> string, query: string)
    ensures Breaks(normalize, 0, [OpInsert(query, Response(0, 0), "u", "c", 0, [])])
  {
    var s, op := Limited(normalize, 0), OpInsert(query, Response(0, 0), "u", "c", 0, []);
    var h, e := HashQuery(s.cfg, query), NewEntry(Response(0, 0), "u", "c", Some(query), 0);
    assert OfUpstream(s.entries, "u") == {};
    assert LimitUpstream(s, "u", []) == s.(stats := LimitUpstream(s, "u", []).stats);
    OnePutSameEntries(normalize, LimitUpstream(s, "u", []), h, e, Some(HashExact(query)));
    var t := Step(s, op);
    assert [op][1..] == [] && Run(s, [op]) == t by { assert Run(t, []) == t; }
    assert OfUpstream(t.entries, "u") == {h};
  }

  lemma OnePutSameEntries(normalize: string -> string, s: Store, h: QueryHash, e: Entry, exact: Option<QueryHash>)
    requires e.freq == 0 && s == Limited(normalize, 0).(stats := s.stats)
    ensures Put(s, h, e, exact).entries == map[h := e]
  {
    LimitedInv(normalize, 0);
    RestatKeeps(Limited(normalize, 0), s.stats);
    NewKeyEvictsNothingIff(s, h, e, exact);
  }

  lemma NothingBreaks(normalize: string -> string, limit: nat, ops: seq<Op>)
    requires limit >= 1
    ensures !Breaks(normalize, limit, ops)
  {
    LimitedInv(normalize, limit);
    var s := Limited(normalize, limit);
    assert s.perUpstreamLimit == Some(limit) && WithinLimit(s.entries, AtLeastOne(limit));
    hide Run, RespectfulRun, Limited, Inv, WithinLimit;
    if RespectfulRun(s, ops) {
      UpstreamsStayWithin(s, ops, limit);
    }
  }

  /** With the limit set, respectful runs from a new store keep every upstream within it exactly when it is not zero. */
  lemma UpstreamLimitHoldsIff(normalize: string -> string, limit: nat)
    ensures (forall ops :: !Breaks(normalize, limit, ops)) <==> limit >= 1
  {
    hide Breaks;
    if limit >= 1 {
      forall ops ensures !Breaks(normalize, limit, ops) {
        NothingBreaks(normalize, limit, ops);
      }
    } else {
      ZeroLimitAdmitsOne(normalize, "");
    }
  }

  /** `warmup` does not look at the limit: two entries of one upstream under a limit of one. */
  lemma WarmupIgnoresLimit(normalize: string -> string, a: string, b: string)
    requires normalize(a) != normalize(b)
    ensures var items := [(a, Some(Response(0, 0))), (b, Some(Response(0, 0)))];
            |OfUpstream(Warmup(Limited(normalize, 1), items, "u", 0).entries, "u")| == 2
  {
    var s, r := Limited(normalize, 1), Response(0, 0);
    var h, k := HashQuery(s.cfg, a), HashQuery(s.cfg, b);
    var x, y := NewEntry(r, "u", "default", Some(a), 0), NewEntry(r, "u", "default", Some(b), 0);
    var items := [(a, Some(r)), (b, Some(r))];
    FirstPut(normalize, 1, h, x, None);
    var t := Put(s, h, x, None);
    NewKeyEvictsNothingIff(t, k, y, None);
    var w := Put(t, k, y, None);
    hide Put, Inv;
    assert items[1..] == [(b, Some(r))] && items[1..][1..] == [];
    assert Warmup(w, [], "u", 0) == w;
    assert Warmup(t, [(b, Some(r))], "u", 0) == w by { assert [(b, Some(r))][1..] == []; }
    assert Warmup(s, items, "u", 0) == w;
    assert OfUpstream(w.entries, "u") == {h, k};
  }
}
