/**
 The first law of the cache: what a lookup returns is what was last stored. It is
 stated against a plain map, the book, that every operation writes into and
 nothing ever leaves.
 */
module Documents {
  import opened Basics
  import opened Store
  import opened Eviction
  import opened Invariants
  import opened TwoTier
  import opened Warming

  /** An entry without its counter. */
  datatype Document = Document(
    body: nat,
    size: nat,
    upstream: string,
    context: string,
    text: Option<string>,
    time: int,
    wall: Option<int>,
    extensions: nat,
    corrupt: bool)

  function DocumentOf(e: Entry): Document {
    Document(e.body, e.size, e.upstream, e.context, e.queryText, e.cachedAt, e.cachedAtWall, e.extendedCount, e.corrupt)
  }

  type Book = map<QueryHash, Document>

  // ----- the book

  /** A response as it is first stored: unextended, sound, stamped with one time. */
  function Fresh(body: nat, size: nat, upstream: string, context: string, text: Option<string>, now: int): Document {
    Document(body, size, upstream, context, text, now, Some(now), 0, false)
  }

  /** The first `stored` items that have a response. */
  ghost function Warmed(normalize: string -> string, b: Book, items: seq<(string, Option<Response>)>, stored: nat,
                        upstream: string, now: int): Book
    decreases |items|
  {
    if items == [] || stored == 0 then b
    else
      match items[0].1
      case None => Warmed(normalize, b, items[1..], stored, upstream, now)
      case Some(r) =>
        var d := Fresh(r.body, r.size, upstream, "default", Some(items[0].0), now);
        Warmed(normalize, b[Blake3(normalize(items[0].0)) := d], items[1..], stored - 1, upstream, now)
  }

  /** The first `stored` loaded entries. */
  ghost function Loaded(b: Book, items: seq<(QueryHash, Entry)>, stored: nat): Book
    decreases |items|
  {
    if items == [] || stored == 0 then b
    else Loaded(b[items[0].0 := DocumentOf(items[0].1)], items[1..], stored - 1)
  }

  /** What an operation writes; `stored` is the count that a bulk load returns. */
  ghost function Written(normalize: string -> string, b: Book, op: Op, stored: nat): Book {
    match op
    case OpInsert(q, r, u, c, now, _) => b[Blake3(normalize(q)) := Fresh(r.body, r.size, u, c, Some(q), now)]
    case OpInsertByHash(h, r, u, k, now, _) => b[h := Fresh(r.body, r.size, u, "default", k, now)]
    case OpWarmup(items, u, now) => Warmed(normalize, b, items, stored, u, now)
    case OpRestore(items) => Loaded(b, items, stored)
    case OpExtendTtl(q, now) =>
      var h := Blake3(normalize(q));
      if h in b then b[h := b[h].(time := now, extensions := b[h].extensions + 1)] else b
    case _ => b
  }

  ghost function StoredBy(s: Store, op: Op): nat {
    match op
    case OpWarmup(items, u, now) => WarmupStored(s, items, u, now)
    case OpRestore(items) => RestoreStored(s, items)
    case _ => 0
  }

  /** The book after a run. */
  ghost function BookAfter(s: Store, b: Book, ops: seq<Op>): Book
    decreases |ops|
  {
    if ops == [] then b
    else BookAfter(Step(s, ops[0]), Written(s.cfg.normalize, b, ops[0], StoredBy(s, ops[0])), ops[1..])
  }

  /** Every live entry is as the book has it. */
  ghost predicate Faithful(e: Entries, b: Book) {
    forall h :: h in e ==> h in b && DocumentOf(e[h]) == b[h]
  }

  // ----- entries that only leave

  ghost predicate Thins(a: Entries, b: Entries) {
    forall h :: h in b ==> h in a && DocumentOf(b[h]) == DocumentOf(a[h])
  }

  lemma EvictOneThins(s: Store)
    ensures Thins(s.entries, EvictOne(s).store.entries)
  {
    VictimIsFirstOnTour(s.entries, s.small, s.main);
    hide Scan, FirstStop;
  }

  lemma {:induction false} EvictWhileThins(s: Store, p: Pressure)
    ensures Thins(s.entries, EvictWhile(s, p).store.entries)
    decreases Nodes(s)
  {
    hide EvictOne;
    if Over(s, p) {
      EvictOneThins(s);
      if EvictOne(s).source.Some? {
        EvictWhileThins(EvictOne(s).store, p);
      }
    }
  }

  lemma {:induction false} EvictTimesThins(s: Store, n: nat)
    ensures Thins(s.entries, EvictTimes(s, n).entries)
    decreases n
  {
    hide EvictOne;
    if n != 0 && !(s.small == [] && s.main == []) {
      EvictOneThins(s);
      EvictTimesThins(EvictOne(s).store, n - 1);
    }
  }

  lemma AdmitThins(s: Store, h: QueryHash)
    ensures Thins(s.entries, Admit(s, h).entries)
  {
    hide EvictWhile;
    var w := Enqueue(s, h);
    EvictWhileThins(w, Count);
    EvictWhileThins(EvictWhile(w, Count).store, Memory);
  }

  lemma {:induction false} RemoveAllThins(s: Store, hs: seq<QueryHash>)
    ensures Thins(s.entries, RemoveAll(s, hs).entries)
    decreases |hs|
  {
    if hs != [] {
      RemoveAllThins(s, hs[..|hs| - 1]);
    }
  }

  lemma LimitThins(s: Store, upstream: string, victims: seq<QueryHash>)
    ensures Thins(s.entries, LimitUpstream(s, upstream, victims).entries)
    ensures LimitUpstream(s, upstream, victims).cfg == s.cfg
  {
    RemoveAllThins(s, victims);
    RemoveAllConfig(s, victims);
    hide RemoveAll;
  }

  lemma ThinsStaysFaithful(a: Entries, c: Entries, b: Book)
    requires Thins(a, c) && Faithful(a, b)
    ensures Faithful(c, b)
  {
  }

  // ----- every operation

  /** Storing writes the new document and leaves every other one as it was. */
  lemma PutWrites(s: Store, h: QueryHash, e: Entry, exact: Option<QueryHash>, b: Book)
    requires Faithful(s.entries, b)
    ensures Faithful(Put(s, h, e, exact).entries, b[h := DocumentOf(e)])
  {
    var u := Stored(s, h, e, exact);
    assert u.entries == s.entries[h := e];
    AdmitThins(u, h);
    hide Admit;
    if h !in s.entries {
      ThinsStaysFaithful(u.entries, Admit(u, h).entries, b[h := DocumentOf(e)]);
    }
  }

  lemma {:induction false} WarmupWrites(s: Store, items: seq<(string, Option<Response>)>, upstream: string, now: int,
                                        b: Book)
    requires Faithful(s.entries, b)
    ensures Faithful(Warmup(s, items, upstream, now).entries,
                     Warmed(s.cfg.normalize, b, items, WarmupStored(s, items, upstream, now), upstream, now))
    decreases |items|
  {
    hide Put, Faithful;
    if items != [] {
      if items[0].1.None? {
        WarmupWrites(s, items[1..], upstream, now, b);
        NothingWarmed(s.cfg.normalize, b, items[1..], upstream, now);
      } else if |s.entries| < s.maxEntries {
        var q, r := items[0].0, items[0].1.value;
        var h, e := HashQuery(s.cfg, q), NewEntry(r, upstream, "default", Some(q), now);
        assert DocumentOf(e) == Fresh(r.body, r.size, upstream, "default", Some(q), now);
        PutWrites(s, h, e, None, b);
        PutConfig(s, h, e, None);
        WarmupWrites(Put(s, h, e, None), items[1..], upstream, now, b[h := DocumentOf(e)]);
      }
    }
  }

  lemma NothingWarmed(normalize: string -> string, b: Book, items: seq<(string, Option<Response>)>, upstream: string,
                      now: int)
    ensures Warmed(normalize, b, items, 0, upstream, now) == b
  {
  }

  lemma {:induction false} EvictWhileConfig(s: Store, p: Pressure)
    ensures EvictWhile(s, p).store.cfg == s.cfg
    decreases Nodes(s)
  {
    hide Scan;
    if Over(s, p) && EvictOne(s).source.Some? {
      EvictWhileConfig(EvictOne(s).store, p);
    }
  }

  lemma AdmitConfig(s: Store, h: QueryHash)
    ensures Admit(s, h).cfg == s.cfg
  {
    hide EvictWhile;
    var w := Enqueue(s, h);
    EvictWhileConfig(w, Count);
    EvictWhileConfig(EvictWhile(w, Count).store, Memory);
  }

  lemma PutConfig(s: Store, h: QueryHash, e: Entry, exact: Option<QueryHash>)
    ensures Put(s, h, e, exact).cfg == s.cfg
  {
    AdmitConfig(Stored(s, h, e, exact), h);
    hide Admit;
  }

  lemma {:induction false} RestoreWrites(s: Store, items: seq<(QueryHash, Entry)>, b: Book)
    requires Faithful(s.entries, b)
    ensures Faithful(Restore(s, items).entries, Loaded(b, items, RestoreStored(s, items)))
    decreases |items|
  {
    hide RestoreOne, Faithful;
    if items != [] && |s.entries| < s.maxEntries {
      RestoreOneWrites(s, items[0].0, items[0].1, b);
      RestoreWrites(RestoreOne(s, items[0].0, items[0].1), items[1..], b[items[0].0 := DocumentOf(items[0].1)]);
    }
  }

  lemma RestoreOneWrites(s: Store, h: QueryHash, e: Entry, b: Book)
    requires Faithful(s.entries, b)
    ensures Faithful(RestoreOne(s, h, e).entries, b[h := DocumentOf(e)])
  {
    hide Admit;
    var u, next := TrackedInsert(s, h, e.(freq := 0)), b[h := DocumentOf(e)];
    assert Faithful(u.entries, next);
    AdmitThins(u, h);
    ThinsStaysFaithful(u.entries, RestoreOne(s, h, e).entries, next);
  }

  lemma InsertsWrite(s: Store, op: Op, b: Book)
    requires Faithful(s.entries, b) && (op.OpInsert? || op.OpInsertByHash?)
    ensures Faithful(Step(s, op).entries, Written(s.cfg.normalize, b, op, 0))
  {
    hide Put, LimitUpstream;
    LimitThins(s, op.upstream, op.victims);
    var t := LimitUpstream(s, op.upstream, op.victims);
    ThinsStaysFaithful(s.entries, t.entries, b);
    match op
    case OpInsert(q, r, u, c, now, _) =>
      PutWrites(t, HashQuery(s.cfg, q), NewEntry(r, u, c, Some(q), now), Some(HashExact(q)), b);
    case OpInsertByHash(h, r, u, k, now, _) =>
      PutWrites(t, h, NewEntry(r, u, "default", k, now), None, b);
  }

  lemma EvictionsThin(s: Store, op: Op)
    requires op.OpEnforceMemory? || op.OpEvictSmart? || op.OpEvict?
    ensures Thins(s.entries, Step(s, op).entries)
  {
    hide EvictWhile, EvictTimes, RemoveAll;
    match op
    case OpEnforceMemory => EvictWhileThins(s, Memory);
    case OpEvictSmart(expired, target) =>
      var t := SmartExpired(s, expired, target);
      RemoveAllThins(s, if |expired| <= target then expired else expired[..target]);
      EvictTimesThins(t, Remaining(target, Lost(s, t)));
    case OpEvict(hs, _) => RemoveAllThins(s, hs);
  }

  lemma QuietThins(s: Store, op: Op)
    requires op.OpGet? || op.OpGetVerified? || op.OpGetByHash? || op.OpRemove? || op.OpClear? || op.OpFingerprint?
             || op.OpSetMaxEntries? || op.OpSetMaxMemory? || op.OpSetUpstreamLimit?
    ensures Thins(s.entries, Step(s, op).entries)
  {
    hide Get;
    match op
    case OpGet(q) => GetThins(s, q);
    case _ =>
  }

  lemma GetThins(s: Store, query: string)
    ensures Thins(s.entries, Get(s, query).entries)
  {
  }

  lemma ExtendWrites(s: Store, query: string, now: int, b: Book)
    requires Faithful(s.entries, b)
    ensures Faithful(ExtendTtl(s, query, now).entries, Written(s.cfg.normalize, b, OpExtendTtl(query, now), 0))
  {
  }

  lemma StepWrites(s: Store, op: Op, b: Book)
    requires Faithful(s.entries, b)
    ensures Faithful(Step(s, op).entries, Written(s.cfg.normalize, b, op, StoredBy(s, op)))
  {
    hide Faithful, ExtendTtl, Warmup, Restore, Warmed, Loaded, Insert, InsertByHash, WarmupStored, RestoreStored;
    if op.OpInsert? || op.OpInsertByHash? {
      InsertsWrite(s, op, b);
    } else if op.OpWarmup? {
      WarmupWrites(s, op.items, op.upstream, op.now, b);
    } else if op.OpRestore? {
      RestoreWrites(s, op.persisted, b);
    } else if op.OpExtendTtl? {
      ExtendWrites(s, op.query, op.now, b);
    } else {
      hide Step;
      if op.OpEnforceMemory? || op.OpEvictSmart? || op.OpEvict? {
        EvictionsThin(s, op);
      } else {
        QuietThins(s, op);
      }
      ThinsStaysFaithful(s.entries, Step(s, op).entries, b);
    }
  }

  // ----- whole runs

  /** After every run each live entry is the document last written under its hash. */
  lemma {:induction false} LastWriterWins(s: Store, b: Book, ops: seq<Op>)
    requires Faithful(s.entries, b)
    ensures Faithful(Run(s, ops).entries, BookAfter(s, b, ops))
    decreases |ops|
  {
    hide Step, Written, StoredBy, Faithful;
    if ops != [] {
      StepWrites(s, ops[0], b);
      LastWriterWins(Step(s, ops[0]), Written(s.cfg.normalize, b, ops[0], StoredBy(s, ops[0])), ops[1..]);
    }
  }

  /**
   From a new store, after every run: a lookup answers exactly when the key of its query is live, and with
   the document last written under that key, under whatever spelling, with one tier or two.
   */
  lemma LookupReturnsLastWritten(normalize: string -> string, matching: bool, maxEntries: nat, maxMemory: nat,
                                 ops: seq<Op>, query: string)
    ensures var s0 := NewStore(normalize, matching, maxEntries, maxMemory);
            var s, book, h := Run(s0, ops), BookAfter(s0, map[], ops), Blake3(normalize(query));
            && (Answer(s, query).Some? <==> h in s.entries)
            && (Answer(s, query).Some? ==> h in book && DocumentOf(Answer(s, query).value) == book[h])
  {
    var s0 := NewStore(normalize, matching, maxEntries, maxMemory);
    RunSimulates(s0, ops);
    LastWriterWins(s0, map[], ops);
    NewStoreInv(normalize, matching, maxEntries, maxMemory);
    RunKeepsInv(s0, ops);
    var s := Run(s0, ops);
    assert s.cfg == s0.cfg;
    hide Run, BookAfter, Inv;
    FoundIsTheKey(s, query);
  }

  lemma FoundIsTheKey(s: Store, query: string)
    requires MappingsExact(s)
    ensures var h := HashQuery(s.cfg, query); Found(s, query) == if h in s.entries then Some(h) else None
  {
  }

  // ----- reading what was just written

  /** An insertion into a store with a node and room to spare is there to be read. */
  lemma InsertIsRead(s: Store, query: string, r: Response, upstream: string, context: string, now: int)
    requires Inv(s) && MappingsExact(s) && s.perUpstreamLimit == None
    requires HashQuery(s.cfg, query) in s.entries ||
             (Nodes(s) < Capacity(s.cfg) && (s.maxMemory == 0 || s.bytes + r.size <= s.maxMemory))
    ensures var t := Insert(s, query, r, upstream, context, now, []);
            && Answer(t, query).Some?
            && DocumentOf(Answer(t, query).value) == Fresh(r.body, r.size, upstream, context, Some(query), now)
  {
    var h, e := HashQuery(s.cfg, query), NewEntry(r, upstream, context, Some(query), now);
    var t := Put(s, h, e, Some(HashExact(query)));
    assert LimitUpstream(s, upstream, []) == s;
    if h !in s.entries {
      NewKeyEvictsNothingIff(s, h, e, Some(HashExact(query)));
    }
    PutErases(s, h, e, Some(HashExact(query)));
    PutConfig(s, h, e, Some(HashExact(query)));
    hide Admit, Inv;
    FoundIsTheKey(t, query);
  }

  // ----- counters

  ghost function Gets(s: Store, query: string, n: nat): Store {
    if n == 0 then s else Get(Gets(s, query, n - 1), query)
  }

  /** n lookups raise the counter of an entry by n, up to three, and touch no other. */
  lemma {:induction false} LookupsCount(s: Store, query: string, n: nat)
    requires MappingsExact(s) && HashQuery(s.cfg, query) in s.entries && FreqCapped(s.entries)
    ensures var t, h := Gets(s, query, n), HashQuery(s.cfg, query);
            && MappingsExact(t) && t.cfg == s.cfg && t.entries.Keys == s.entries.Keys
            && t.entries[h].freq == Min(s.entries[h].freq + n, 3)
            && forall k :: k in s.entries && k != h ==> t.entries[k] == s.entries[k]
    decreases n
  {
    if n > 0 {
      LookupsCount(s, query, n - 1);
      OneLookup(Gets(s, query, n - 1), query);
    }
    hide Get, MappingsExact, HashQuery;
  }

  lemma OneLookup(s: Store, query: string)
    requires MappingsExact(s) && HashQuery(s.cfg, query) in s.entries
    ensures var t, h := Get(s, query), HashQuery(s.cfg, query);
            && MappingsExact(t) && t.cfg == s.cfg
            && t.entries == s.entries[h := s.entries[h].(freq := Min(s.entries[h].freq + 1, 3))]
  {
    GetSimulates(s, query);
    FoundIsTheKey(s, query);
  }

  /** The other lookups count in the same way, if the entry is sound where that is looked at. */
  lemma OtherLookupsCount(s: Store, query: string, h: QueryHash)
    requires FreqCapped(s.entries)
    ensures h in s.entries ==> GetByHash(s, h).entries[h].freq == Min(s.entries[h].freq + 1, 3)
    ensures var k := HashQuery(s.cfg, query);
            k in s.entries && !s.entries[k].corrupt ==>
              var t := GetVerified(s, query);
              k in t.entries && t.entries[k].freq == Min(s.entries[k].freq + 1, 3)
  {
  }

  /** An extension marks the entry as read once, whatever its counter was; a fresh store leaves it unread. */
  lemma CountersStart(s: Store, query: string, now: int, h: QueryHash, e: Entry)
    requires Inv(s) && e.freq == 0
    ensures var k := HashQuery(s.cfg, query);
            k in s.entries ==> k in ExtendTtl(s, query, now).entries && ExtendTtl(s, query, now).entries[k].freq == 1
    ensures h in Put(s, h, e, None).entries ==> Put(s, h, e, None).entries[h].freq == 0
  {
    if h !in s.entries {
      StoredIsPending(s, h, e, None);
      EnqueueKeeps(Stored(s, h, e, None), h);
      ShrinkKeeps(Enqueue(Stored(s, h, e, None), h), h);
      hide Shrink, Inv, Sound, Pending;
    }
  }
}
