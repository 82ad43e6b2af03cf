/**
 The cache store as a value, and every operation on it as a function from
 value to value. The eviction functions are closed forms: they say which node
 ends a queue scan and what the scan leaves behind, not how the scan runs.
 `CacheStore` holds the loops and is proved against these functions.
 */
module Store {
  import opened Basics

  /** A digest, identified with the text it digests: hashing is injective. */
  datatype QueryHash = Blake3(preimage: string)

  type pos = n: nat | 1 <= n witness 1

  datatype Entry = Entry(
    body: nat,
    size: nat,
    upstream: string,
    cachedAt: int,
    cachedAtWall: Option<int>,
    extendedCount: nat,
    corrupt: bool,
    queryText: Option<string>,
    context: string,
    freq: nat)

  type Entries = map<QueryHash, Entry>

  /** What construction fixes. `normalize` is left open. */
  datatype Config = Config(
    normalize: string -> string,
    normalizedMatching: bool,
    smallCapacity: nat,
    mainCapacity: nat,
    ghostCapacity: pos)

  datatype Ghosts = Ghosts(queue: seq<QueryHash>, members: set<QueryHash>)

  datatype Stats = Stats(
    total: nat,
    expired: nat,
    oldest: nat,
    integrityFailures: nat,
    perUpstream: nat,
    ghostHits: nat,
    smallEvictions: nat,
    mainEvictions: nat,
    promotions: nat)

  datatype Store = Store(
    cfg: Config,
    entries: Entries,
    exactToNormalized: map<QueryHash, QueryHash>,
    small: seq<QueryHash>,
    main: seq<QueryHash>,
    ghosts: Ghosts,
    bytes: int,
    maxEntries: nat,
    maxMemory: nat,
    perUpstreamLimit: Option<nat>,
    exactHits: nat,
    normalizedHits: nat,
    fingerprint: nat,
    stats: Stats)

  datatype Source = Small | Main
  datatype Evicted = Evicted(store: Store, source: Option<Source>)

  const NO_STATS := Stats(0, 0, 0, 0, 0, 0, 0, 0, 0)

  // ----- construction

  function NewConfig(normalize: string -> string, matching: bool, maxEntries: nat): Config {
    var small := if maxEntries / 10 >= 1 then maxEntries / 10 else 1;
    Config(normalize, matching, small,
           if maxEntries >= small then maxEntries - small else 0,
           if maxEntries >= 1 then maxEntries else 1)
  }

  function NewStore(normalize: string -> string, matching: bool, maxEntries: nat, maxMemory: nat): Store {
    Store(NewConfig(normalize, matching, maxEntries), map[], map[], [], [], Ghosts([], {}), 0,
          maxEntries, maxMemory, None, 0, 0, 0, NO_STATS)
  }

  function Capacity(cfg: Config): nat {
    cfg.smallCapacity + cfg.mainCapacity
  }

  function Nodes(s: Store): nat {
    |s.small| + |s.main|
  }

  function HashQuery(cfg: Config, query: string): QueryHash {
    Blake3(cfg.normalize(query))
  }

  function HashExact(query: string): QueryHash {
    Blake3(query)
  }

  // ----- tracked map updates

  function Sizes(entries: Entries): map<QueryHash, nat> {
    map h | h in entries :: entries[h].size
  }

  function TrackedInsert(s: Store, h: QueryHash, e: Entry): Store {
    s.(entries := s.entries[h := e],
       bytes := s.bytes + e.size - (if h in s.entries then s.entries[h].size else 0))
  }

  function TrackedRemove(s: Store, h: QueryHash): Store {
    if h !in s.entries then s
    else
      var prev := s.entries[h];
      s.(entries := s.entries - {h},
         bytes := s.bytes - prev.size,
         exactToNormalized := Unmap(s.cfg, s.exactToNormalized, prev))
  }

  function Unmap(cfg: Config, e2n: map<QueryHash, QueryHash>, prev: Entry): map<QueryHash, QueryHash> {
    if cfg.normalizedMatching && prev.queryText.Some? then e2n - {HashExact(prev.queryText.value)} else e2n
  }

  // ----- queue scans

  /** A scan of `q` ends at node i: the node is live, and cold or met before (meeting a node cools it). */
  ghost predicate StopsAt(entries: Entries, q: seq<QueryHash>, i: nat)
    requires i < |q|
  {
    q[i] in entries && (entries[q[i]].freq == 0 || q[i] in q[..i])
  }

  ghost function FirstStop(entries: Entries, q: seq<QueryHash>): (i: nat)
    ensures i <= |q|
    ensures forall j: nat :: j < i ==> !StopsAt(entries, q, j)
    ensures i < |q| ==> StopsAt(entries, q, i)
  {
    FirstStopFrom(entries, q, 0)
  }

  ghost function FirstStopFrom(entries: Entries, q: seq<QueryHash>, k: nat): (i: nat)
    requires k <= |q|
    requires forall j: nat :: j < k ==> !StopsAt(entries, q, j)
    ensures i <= |q|
    ensures forall j: nat :: j < i ==> !StopsAt(entries, q, j)
    ensures i < |q| ==> StopsAt(entries, q, i)
    decreases |q| - k
  {
    if k == |q| || StopsAt(entries, q, k) then k else FirstStopFrom(entries, q, k + 1)
  }

  /** The live nodes of `q`, in order. */
  ghost function Keep(entries: Entries, q: seq<QueryHash>): (r: seq<QueryHash>)
    ensures forall h :: h in r <==> h in q && h in entries
    ensures |r| <= |q|
  {
    if q == [] then []
    else Keep(entries, q[..|q| - 1]) + (if q[|q| - 1] in entries then [q[|q| - 1]] else [])
  }

  /** The stale nodes of `q`, in order. */
  ghost function Drop(entries: Entries, q: seq<QueryHash>): (r: seq<QueryHash>)
    ensures forall h :: h in r <==> h in q && h !in entries
  {
    if q == [] then []
    else Drop(entries, q[..|q| - 1]) + (if q[|q| - 1] in entries then [] else [q[|q| - 1]])
  }

  /** Reading a node's counter resets it. */
  ghost function Cool(entries: Entries, q: seq<QueryHash>): Entries {
    map h | h in entries :: if h in q then entries[h].(freq := 0) else entries[h]
  }

  ghost function Elems(q: seq<QueryHash>): set<QueryHash> {
    set h | h in q
  }

  ghost function AddGhost(g: Ghosts, capacity: pos, h: QueryHash): Ghosts {
    var n := if |g.queue| >= capacity then |g.queue| - capacity + 1 else 0;
    Ghosts(g.queue[n..] + [h], g.members - Elems(g.queue[..n]) + {h})
  }

  ghost function AddGhosts(g: Ghosts, capacity: pos, hs: seq<QueryHash>): Ghosts {
    if hs == [] then g
    else AddGhost(AddGhosts(g, capacity, hs[..|hs| - 1]), capacity, hs[|hs| - 1])
  }

  /** What one scan leaves: the map and queues, the victim and its queue, the hashes to remember as ghosts. */
  datatype Outcome = Outcome(
    entries: Entries,
    small: seq<QueryHash>,
    main: seq<QueryHash>,
    victim: Option<QueryHash>,
    source: Option<Source>,
    ghosted: seq<QueryHash>,
    promoted: nat)

  /** Live nodes passed over move to Main, stale ones become ghosts; a victim becomes a ghost too. */
  ghost function ScanSmall(e: Entries, small: seq<QueryHash>, main: seq<QueryHash>): Outcome {
    var i := FirstStop(e, small);
    var met := small[..i];
    var kept := Keep(e, met);
    if i == |small| then
      Outcome(Cool(e, met), [], main + kept, None, None, Drop(e, met), |kept|)
    else
      Outcome(Cool(e, met) - {small[i]}, small[i + 1..], main + kept, Some(small[i]), Some(Small),
              Drop(e, met) + [small[i]], |kept|)
  }

  /** Live nodes passed over go to the tail, stale ones are forgotten, and so is a victim. */
  ghost function ScanMain(e: Entries, small: seq<QueryHash>, main: seq<QueryHash>): Outcome {
    var i := FirstStop(e, main);
    var met := main[..i];
    if i == |main| then
      Outcome(Cool(e, met), small, Keep(e, met), None, None, [], 0)
    else
      Outcome(Cool(e, met) - {main[i]}, small, main[i + 1..] + Keep(e, met), Some(main[i]), Some(Main), [], 0)
  }

  /** Small first; Main when Small yields no victim. */
  ghost function Scan(e: Entries, small: seq<QueryHash>, main: seq<QueryHash>): Outcome {
    var a := ScanSmall(e, small, main);
    if a.victim.Some? then a
    else ScanMain(a.entries, a.small, a.main).(ghosted := a.ghosted, promoted := a.promoted)
  }

  ghost function Apply(s: Store, o: Outcome): Store {
    var removed := o.victim.Some? && o.victim.value in s.entries;
    s.(entries := o.entries,
       small := o.small,
       main := o.main,
       ghosts := AddGhosts(s.ghosts, s.cfg.ghostCapacity, o.ghosted),
       bytes := if removed then s.bytes - s.entries[o.victim.value].size else s.bytes,
       exactToNormalized := if removed then Unmap(s.cfg, s.exactToNormalized, s.entries[o.victim.value])
                            else s.exactToNormalized,
       stats := s.stats.(promotions := s.stats.promotions + o.promoted))
  }

  ghost function EvictFromSmall(s: Store): Evicted {
    var o := ScanSmall(s.entries, s.small, s.main);
    Evicted(Apply(s, o), o.source)
  }

  ghost function EvictFromMain(s: Store): Evicted {
    var o := ScanMain(s.entries, s.small, s.main);
    Evicted(Apply(s, o), o.source)
  }

  ghost function EvictOne(s: Store): (r: Evicted)
    ensures r.source.Some? ==> Nodes(r.store) < Nodes(s)
    ensures r.source.None? ==> Nodes(r.store) <= Nodes(s)
  {
    var o := Scan(s.entries, s.small, s.main);
    Evicted(Apply(s, o), o.source)
  }

  // ----- eviction loops

  datatype Pressure = Count | Memory
  datatype Drained = Drained(store: Store, fromSmall: nat, fromMain: nat)

  predicate Over(s: Store, p: Pressure) {
    match p
    case Count => Nodes(s) > Capacity(s.cfg)
    case Memory => s.bytes > s.maxMemory
  }

  ghost function Tally(d: Drained, source: Source): Drained {
    match source
    case Small => d.(fromSmall := d.fromSmall + 1)
    case Main => d.(fromMain := d.fromMain + 1)
  }

  /** Evict while over the limit, giving up at the first scan that evicts nothing. */
  ghost function EvictWhile(s: Store, p: Pressure): Drained
    decreases Nodes(s)
  {
    if !Over(s, p) then Drained(s, 0, 0)
    else
      var r := EvictOne(s);
      if r.source.None? then Drained(r.store, 0, 0)
      else Tally(EvictWhile(r.store, p), r.source.value)
  }

  /** Up to n scans, whether or not each evicts; stops when both queues are empty. */
  ghost function EvictTimes(s: Store, n: nat): Store
    decreases n
  {
    if n == 0 || (s.small == [] && s.main == []) then s
    else EvictTimes(EvictOne(s).store, n - 1)
  }

  // ----- admission

  function Without(q: seq<QueryHash>, h: QueryHash): (r: seq<QueryHash>)
    ensures forall k :: k in r <==> k in q && k != h
    ensures |r| <= |q|
  {
    if q == [] then []
    else Without(q[..|q| - 1], h) + (if q[|q| - 1] == h then [] else [q[|q| - 1]])
  }

  ghost function Enqueue(s: Store, h: QueryHash): Store {
    if h in s.ghosts.members then
      s.(ghosts := Ghosts(Without(s.ghosts.queue, h), s.ghosts.members - {h}), main := s.main + [h])
    else
      s.(small := s.small + [h])
  }

  ghost function Shrink(s: Store): Drained {
    var a := EvictWhile(s, Count);
    if a.store.maxMemory == 0 then a
    else
      var b := EvictWhile(a.store, Memory);
      Drained(b.store, a.fromSmall + b.fromSmall, a.fromMain + b.fromMain)
  }

  function ChargeAdmission(stats: Stats, ghostHit: bool, fromSmall: nat, fromMain: nat): Stats {
    stats.(ghostHits := stats.ghostHits + (if ghostHit then 1 else 0),
           smallEvictions := stats.smallEvictions + fromSmall,
           mainEvictions := stats.mainEvictions + fromMain,
           total := stats.total + fromSmall + fromMain)
  }

  ghost function Admit(s: Store, h: QueryHash): Store {
    var d := Shrink(Enqueue(s, h));
    d.store.(stats := ChargeAdmission(d.store.stats, h in s.ghosts.members, d.fromSmall, d.fromMain))
  }

  ghost function MapExact(s: Store, exact: QueryHash, h: QueryHash): Store {
    if s.cfg.normalizedMatching then s.(exactToNormalized := s.exactToNormalized[exact := h]) else s
  }

  /** The entry stored, and the spelling recorded if there is one. */
  ghost function Stored(s: Store, h: QueryHash, e: Entry, exact: Option<QueryHash>): Store {
    var t := TrackedInsert(s, h, e);
    if exact.Some? then MapExact(t, exact.value, h) else t
  }

  /** Only a hash that was not live is admitted. */
  ghost function Put(s: Store, h: QueryHash, e: Entry, exact: Option<QueryHash>): Store {
    if h in s.entries then Stored(s, h, e, exact) else Admit(Stored(s, h, e, exact), h)
  }

  // ----- removals of listed hashes

  datatype Reason = Expired | Oldest | Filtered | Corrupted

  ghost function RemoveAll(s: Store, hs: seq<QueryHash>): Store {
    if hs == [] then s else TrackedRemove(RemoveAll(s, hs[..|hs| - 1]), hs[|hs| - 1])
  }

  function Charge(stats: Stats, reason: Reason, n: nat): Stats {
    match reason
    case Expired => stats.(expired := stats.expired + n, total := stats.total + n)
    case Oldest => stats.(oldest := stats.oldest + n, total := stats.total + n)
    case Filtered => stats.(total := stats.total + n)
    case Corrupted => stats
  }

  /** How many entries `t` lost since `s`. */
  function Lost(s: Store, t: Store): nat {
    if |s.entries| >= |t.entries| then |s.entries| - |t.entries| else 0
  }

  ghost function Evict(s: Store, hs: seq<QueryHash>, reason: Reason): Store {
    var t := RemoveAll(s, hs);
    t.(stats := Charge(t.stats, reason, Lost(s, t)))
  }

  function OfUpstream(entries: Entries, upstream: string): set<QueryHash> {
    set h | h in entries && entries[h].upstream == upstream
  }

  /** The upstream has as many entries as it may have. */
  predicate LimitReached(s: Store, upstream: string) {
    s.perUpstreamLimit.Some? && |OfUpstream(s.entries, upstream)| >= s.perUpstreamLimit.value
  }

  /** The per-upstream check before an insert; `victims` is the oldest entry of the upstream, if any. */
  ghost function LimitUpstream(s: Store, upstream: string, victims: seq<QueryHash>): Store {
    if LimitReached(s, upstream) then
      var t := Evict(s, victims, Oldest);
      t.(stats := t.stats.(perUpstream := t.stats.perUpstream + 1))
    else s
  }

  // ----- lookups

  function BumpFreq(freq: nat): nat {
    if freq + 1 < 3 then freq + 1 else 3
  }

  function Bump(s: Store, h: QueryHash): Store
    requires h in s.entries
  {
    s.(entries := s.entries[h := s.entries[h].(freq := BumpFreq(s.entries[h].freq))])
  }

  function Get(s: Store, query: string): Store {
    var exact, h := HashExact(query), HashQuery(s.cfg, query);
    if s.cfg.normalizedMatching then
      if exact in s.exactToNormalized && s.exactToNormalized[exact] in s.entries then
        Bump(s, s.exactToNormalized[exact]).(exactHits := s.exactHits + 1)
      else if h in s.entries then
        Bump(s, h).(exactToNormalized := s.exactToNormalized[exact := h], normalizedHits := s.normalizedHits + 1)
      else s
    else if h in s.entries then Bump(s, h).(exactHits := s.exactHits + 1)
    else s
  }

  /** The hash whose entry `get` returns, if it returns one. */
  function Found(s: Store, query: string): Option<QueryHash> {
    var exact, h := HashExact(query), HashQuery(s.cfg, query);
    if s.cfg.normalizedMatching && exact in s.exactToNormalized && s.exactToNormalized[exact] in s.entries then
      Some(s.exactToNormalized[exact])
    else if h in s.entries then Some(h)
    else None
  }

  function GetVerified(s: Store, query: string): Store {
    var h := HashQuery(s.cfg, query);
    if h !in s.entries then s
    else if s.entries[h].corrupt then
      var t := TrackedRemove(s, h);
      t.(stats := t.stats.(integrityFailures := t.stats.integrityFailures + 1))
    else Bump(s, h)
  }

  function GetByHash(s: Store, h: QueryHash): Store {
    if h in s.entries then Bump(s, h) else s
  }

  // ----- the public operations as one alphabet

  datatype Response = Response(body: nat, size: nat)

  datatype Op =
    | OpGet(query: string)
    | OpGetVerified(query: string)
    | OpGetByHash(hash: QueryHash)
    | OpInsert(query: string, response: Response, upstream: string, context: string, now: int, victims: seq<QueryHash>)
    | OpInsertByHash(hash: QueryHash, response: Response, upstream: string, key: Option<string>, now: int,
                     victims: seq<QueryHash>)
    | OpWarmup(items: seq<(string, Option<Response>)>, upstream: string, now: int)
    | OpRestore(persisted: seq<(QueryHash, Entry)>)
    | OpExtendTtl(query: string, now: int)
    | OpRemove(query: string)
    | OpClear
    | OpFingerprint(fingerprint: nat)
    | OpSetMaxEntries(maxEntries: nat)
    | OpSetMaxMemory(bytes: nat)
    | OpSetUpstreamLimit(limit: Option<nat>)
    | OpEnforceMemory
    | OpEvictSmart(expired: seq<QueryHash>, target: nat)
    | OpEvict(hashes: seq<QueryHash>, reason: Reason)

  function NewEntry(r: Response, upstream: string, context: string, key: Option<string>, now: int): Entry {
    Entry(r.body, r.size, upstream, now, Some(now), 0, false, key, context, 0)
  }

  ghost function Insert(s: Store, query: string, r: Response, upstream: string, context: string, now: int,
                        victims: seq<QueryHash>): Store {
    Put(LimitUpstream(s, upstream, victims), HashQuery(s.cfg, query),
        NewEntry(r, upstream, context, Some(query), now), Some(HashExact(query)))
  }

  ghost function InsertByHash(s: Store, h: QueryHash, r: Response, upstream: string, key: Option<string>, now: int,
                              victims: seq<QueryHash>): Store {
    Put(LimitUpstream(s, upstream, victims), h, NewEntry(r, upstream, "default", key, now), None)
  }

  /** Invalid responses (None) are skipped; the loop ends once `maxEntries` entries are live. */
  ghost function Warmup(s: Store, items: seq<(string, Option<Response>)>, upstream: string, now: int): Store
    decreases |items|
  {
    if items == [] then s
    else if items[0].1.None? then Warmup(s, items[1..], upstream, now)
    else if |s.entries| >= s.maxEntries then s
    else
      var e := NewEntry(items[0].1.value, upstream, "default", Some(items[0].0), now);
      Warmup(Put(s, HashQuery(s.cfg, items[0].0), e, None), items[1..], upstream, now)
  }

  /** How many items that stores. */
  ghost function WarmupStored(s: Store, items: seq<(string, Option<Response>)>, upstream: string, now: int): nat
    decreases |items|
  {
    if items == [] then 0
    else if items[0].1.None? then WarmupStored(s, items[1..], upstream, now)
    else if |s.entries| >= s.maxEntries then 0
    else
      var e := NewEntry(items[0].1.value, upstream, "default", Some(items[0].0), now);
      1 + WarmupStored(Put(s, HashQuery(s.cfg, items[0].0), e, None), items[1..], upstream, now)
  }

  /** Restored hashes are admitted even when they are live already. */
  ghost function RestoreOne(s: Store, h: QueryHash, e: Entry): Store {
    Admit(TrackedInsert(s, h, e.(freq := 0)), h)
  }

  ghost function Restore(s: Store, items: seq<(QueryHash, Entry)>): Store
    decreases |items|
  {
    if items == [] || |s.entries| >= s.maxEntries then s
    else Restore(RestoreOne(s, items[0].0, items[0].1), items[1..])
  }

  ghost function RestoreStored(s: Store, items: seq<(QueryHash, Entry)>): nat
    decreases |items|
  {
    if items == [] || |s.entries| >= s.maxEntries then 0
    else 1 + RestoreStored(RestoreOne(s, items[0].0, items[0].1), items[1..])
  }

  ghost function ExtendTtl(s: Store, query: string, now: int): Store {
    var h := HashQuery(s.cfg, query);
    if h !in s.entries then s
    else
      var prev := s.entries[h];
      TrackedInsert(s, h, prev.(cachedAt := now, extendedCount := prev.extendedCount + 1, freq := 1))
  }

  ghost function Remove(s: Store, query: string): Store {
    var t := TrackedRemove(s, HashQuery(s.cfg, query));
    t.(exactToNormalized := t.exactToNormalized - {HashExact(query)})
  }

  function Clear(s: Store): Store {
    s.(entries := map[], exactToNormalized := map[], bytes := 0, small := [], main := [], ghosts := Ghosts([], {}))
  }

  function UpdateFingerprint(s: Store, fingerprint: nat): Store {
    (if s.fingerprint != 0 && s.fingerprint != fingerprint then Clear(s) else s).(fingerprint := fingerprint)
  }

  function SetMaxEntries(s: Store, maxEntries: nat): Store {
    if maxEntries == 0 then s else s.(maxEntries := maxEntries)
  }

  ghost function EnforceMemory(s: Store): Store {
    if s.maxMemory == 0 then s
    else
      var d := EvictWhile(s, Memory);
      d.store.(stats := d.store.stats.(total := d.store.stats.total + d.fromSmall + d.fromMain))
  }

  /** Expired entries first, at most `target` of them, then scans for the remainder. */
  ghost function SmartExpired(s: Store, expired: seq<QueryHash>, target: nat): Store {
    RemoveAll(s, if |expired| <= target then expired else expired[..target])
  }

  function Remaining(target: nat, done: nat): nat {
    if done < target then target - done else 0
  }

  ghost function EvictSmart(s: Store, expired: seq<QueryHash>, target: nat): Store {
    var t := SmartExpired(s, expired, target);
    var u := EvictTimes(t, Remaining(target, Lost(s, t)));
    u.(stats := u.stats.(expired := u.stats.expired + Lost(s, t), total := u.stats.total + Lost(s, u)))
  }

  ghost function Step(s: Store, op: Op): Store {
    match op
    case OpGet(q) => Get(s, q)
    case OpGetVerified(q) => GetVerified(s, q)
    case OpGetByHash(h) => GetByHash(s, h)
    case OpInsert(q, r, u, c, now, vs) => Insert(s, q, r, u, c, now, vs)
    case OpInsertByHash(h, r, u, k, now, vs) => InsertByHash(s, h, r, u, k, now, vs)
    case OpWarmup(items, u, now) => Warmup(s, items, u, now)
    case OpRestore(items) => Restore(s, items)
    case OpExtendTtl(q, now) => ExtendTtl(s, q, now)
    case OpRemove(q) => Remove(s, q)
    case OpClear => Clear(s)
    case OpFingerprint(f) => UpdateFingerprint(s, f)
    case OpSetMaxEntries(n) => SetMaxEntries(s, n)
    case OpSetMaxMemory(b) => s.(maxMemory := b)
    case OpSetUpstreamLimit(l) => s.(perUpstreamLimit := l)
    case OpEnforceMemory => EnforceMemory(s)
    case OpEvictSmart(expired, target) => EvictSmart(s, expired, target)
    case OpEvict(hs, reason) => Evict(s, hs, reason)
  }

  ghost function Run(s: Store, ops: seq<Op>): Store
    decreases |ops|
  {
    if ops == [] then s else Run(Step(s, ops[0]), ops[1..])
  }
}
