/**
 The virtual-clock replay: TTL expiry, cluster mutations and delayed
 invalidations over a real cache store, and what its counters mean.
 */
module Sweep {
  import opened Basics
  import opened Store
  import Eviction
  import CacheStores

  /** One trace event; `draw` is the random number of a mutation, if one is drawn. */
  datatype Event = Event(query: string, cluster: nat, response: Response, draw: Option<nat>)

  datatype Params = Params(ttl: Option<real>, dt: real, mutations: bool, delay: Option<real>)

  datatype Counters = Counters(exact: nat, expired: nat, stale: nat, healed: nat, ceiling: nat)

  /** The harness's own variables, beside the store. */
  datatype Ledger = Ledger(
    vnow: real,
    insertTime: map<QueryHash, real>,
    insertVersion: map<QueryHash, nat>,
    clusterVersion: map<nat, nat>,
    healedVersion: map<nat, nat>,
    pending: seq<(real, nat)>,
    seen: seq<nat>,
    cachedClusters: set<nat>,
    counters: Counters)

  datatype Replay = Replay(store: Store, ledger: Ledger)

  datatype Verdict = Missed | ExpiredMiss | HealedMiss | Hit(stale: bool)

  function Version(m: map<nat, nat>, c: nat): nat {
    if c in m then m[c] else 0
  }

  function Max(a: nat, b: nat): nat {
    if a > b then a else b
  }

  function Tracked(p: Params): bool {
    p.ttl.Some? || p.mutations
  }

  // ----- one event

  datatype Fired = Fired(pending: seq<(real, nat)>, healed: map<nat, nat>)

  /** Invalidations due by `now` heal their clusters up to the current version. */
  function Fire(pending: seq<(real, nat)>, versions: map<nat, nat>, healed: map<nat, nat>, now: real): Fired {
    if pending == [] || pending[0].0 > now then Fired(pending, healed)
    else
      var c := pending[0].1;
      Fire(pending[1..], versions, healed[c := Max(Version(versions, c), Version(healed, c))], now)
  }

  function Tick(p: Params, r: Ledger): Ledger {
    var now := r.vnow + p.dt;
    var f := Fire(r.pending, r.clusterVersion, r.healedVersion, now);
    r.(vnow := now, pending := f.pending, healedVersion := f.healed)
  }

  /** How the event counts, judged after the clock has ticked; `found` is whether the lookup hits. */
  function Judge(p: Params, r: Ledger, found: bool, ev: Event): Verdict {
    var h := HashExact(ev.query);
    if !found then Missed
    else if p.ttl.Some? && h in r.insertTime && r.vnow - r.insertTime[h] > p.ttl.value then ExpiredMiss
    else if Tracked(p) && h in r.insertVersion then
      var version := r.insertVersion[h];
      if p.delay.Some? && ev.cluster in r.healedVersion && version < r.healedVersion[ev.cluster] then HealedMiss
      else Hit(p.mutations && ev.cluster in r.clusterVersion && version < r.clusterVersion[ev.cluster])
    else Hit(false)
  }

  /** The store after the lookup and, unless it was a hit, the fetch. */
  ghost function StoreAfter(s: Store, ev: Event, v: Verdict): Store {
    if v.Hit? then Get(s, ev.query) else Insert(Get(s, ev.query), ev.query, ev.response, "bench", "default", 0, [])
  }

  /** Time and version stamps of a fetch, where they are kept. */
  function Restamp(p: Params, r: Ledger, ev: Event, v: Verdict): Ledger {
    var h := HashExact(ev.query);
    if v.Hit? || !Tracked(p) then r
    else
      r.(insertTime := r.insertTime[h := r.vnow],
         insertVersion := if p.mutations || v.HealedMiss?
                          then r.insertVersion[h := Version(r.clusterVersion, ev.cluster)] else r.insertVersion)
  }

  function Settle(r: Ledger, ev: Event, v: Verdict): Ledger {
    var n := r.counters;
    match v
    case Missed =>
      r.(cachedClusters := r.cachedClusters + {ev.cluster},
         counters := if ev.cluster in r.cachedClusters then n.(ceiling := n.ceiling + 1) else n)
    case ExpiredMiss => r.(counters := n.(expired := n.expired + 1))
    case HealedMiss => r.(counters := n.(healed := n.healed + 1))
    case Hit(stale) => r.(counters := n.(exact := n.exact + 1, stale := if stale then n.stale + 1 else n.stale))
  }

  /** The cluster an event mutates, if any. */
  function Mutated(p: Params, r: Ledger, ev: Event): Option<nat> {
    if p.mutations && ev.draw.Some? then
      var seen := r.seen + [ev.cluster];
      Some(seen[ev.draw.value % |seen|])
    else None
  }

  function Mutate(p: Params, r: Ledger, ev: Event): Ledger {
    if !p.mutations then r
    else
      var t := r.(seen := r.seen + [ev.cluster]);
      var c := Mutated(p, r, ev);
      if c.None? then t
      else
        t.(clusterVersion := r.clusterVersion[c.value := Version(r.clusterVersion, c.value) + 1],
           pending := if p.delay.Some? then r.pending + [(r.vnow + p.delay.value, c.value)] else r.pending)
  }

  /** Everything the verdict does to the ledger. */
  function Answer(p: Params, t: Ledger, ev: Event, v: Verdict): Ledger {
    Mutate(p, Settle(Restamp(p, t, ev, v), ev, v), ev)
  }

  /** The verdict on an event, from the state before it. */
  function VerdictOn(p: Params, r: Replay, ev: Event): Verdict {
    Judge(p, Tick(p, r.ledger), Found(r.store, ev.query).Some?, ev)
  }

  ghost function Advance(p: Params, r: Replay, ev: Event): Replay {
    var v := VerdictOn(p, r, ev);
    Replay(StoreAfter(r.store, ev, v), Answer(p, Tick(p, r.ledger), ev, v))
  }

  ghost function Sweep(p: Params, r: Replay, events: seq<Event>): Replay {
    if events == [] then r
    else Advance(p, Sweep(p, r, events[..|events| - 1]), events[|events| - 1])
  }

  const EMPTY := Ledger(0.0, map[], map[], map[], map[], [], [], {}, Counters(0, 0, 0, 0, 0))

  function Start(normalize: string -> string, cacheSize: nat, maxMemory: nat): Replay {
    Replay(NewStore(normalize, false, cacheSize, maxMemory), EMPTY)
  }

  // ----- the history the verdicts are judged against

  /** A fetch: for which query and cluster, what it got, after how many mutations, and when. */
  datatype Fetch = Fetch(query: string, cluster: nat, response: Response, seen: nat, at: real)

  /**
   Every mutation so far with its time, and for those that have fired how many there were by
   then; the last fetch under each spelling, and the last fetch that stored each key.
   */
  datatype History = History(
    log: seq<(real, nat)>,
    fired: seq<nat>,
    own: map<QueryHash, Fetch>,
    last: map<QueryHash, Fetch>)

  const NO_HISTORY := History([], [], map[], map[])

  ghost function Key(normalize: string -> string, query: string): QueryHash {
    Blake3(normalize(query))
  }

  /** Mutations fire in order, at the first event that is `delay` or more after them. */
  ghost function Due(log: seq<(real, nat)>, fired: seq<nat>, delay: real, now: real): seq<nat>
    decreases |log| - |fired|
  {
    if |fired| >= |log| || log[|fired|].0 + delay > now then fired
    else Due(log, fired + [|log|], delay, now)
  }

  ghost function Fires(p: Params, hist: History, now: real): History {
    if p.delay.None? then hist else hist.(fired := Due(hist.log, hist.fired, p.delay.value, now))
  }

  ghost function Refetched(hist: History, normalize: string -> string, ev: Event, v: Verdict, now: real): History {
    var f := Fetch(ev.query, ev.cluster, ev.response, |hist.log|, now);
    if v.Hit? then hist
    else hist.(own := hist.own[HashExact(ev.query) := f], last := hist.last[Key(normalize, ev.query) := f])
  }

  ghost function Logged(hist: History, c: Option<nat>, now: real): History {
    if c.None? then hist else hist.(log := hist.log + [(now, c.value)])
  }

  /** The history an event is judged against, and the one it leaves. */
  ghost function Before(p: Params, r: Replay, hist: History): History {
    Fires(p, hist, Tick(p, r.ledger).vnow)
  }

  ghost function Record(p: Params, r: Replay, hist: History, ev: Event): History {
    var t := Tick(p, r.ledger);
    Logged(Refetched(Before(p, r, hist), r.store.cfg.normalize, ev, VerdictOn(p, r, ev), t.vnow),
           Mutated(p, t, ev), t.vnow)
  }

  ghost function Histories(p: Params, r: Replay, hist: History, events: seq<Event>): History {
    if events == [] then hist
    else
      var n := |events| - 1;
      Record(p, Sweep(p, r, events[..n]), Histories(p, r, hist, events[..n]), events[n])
  }

  /** Mutation j came after the fetch and hit its cluster. */
  ghost predicate Supersedes(log: seq<(real, nat)>, f: Fetch, j: int) {
    f.seen <= j < |log| && log[j].1 == f.cluster
  }

  ghost predicate Outdated(log: seq<(real, nat)>, f: Fetch) {
    exists j :: Supersedes(log, f, j)
  }

  /** When mutation i of the cluster fired, mutation j of it had already superseded the fetch. */
  ghost predicate HealedBy(log: seq<(real, nat)>, fired: seq<nat>, c: nat, seen: nat, i: int, j: int) {
    0 <= i < |fired| <= |log| && log[i].1 == c && seen <= j < fired[i] && j < |log| && log[j].1 == c
  }

  ghost predicate Healed(hist: History, f: Fetch) {
    exists i, j :: HealedBy(hist.log, hist.fired, f.cluster, f.seen, i, j)
  }

  ghost predicate Expired(p: Params, f: Fetch, now: real) {
    p.ttl.Some? && now - f.at > p.ttl.value
  }

  /** The verdict that the fetch deserves, and the bound on how long it can be served outdated. */
  ghost predicate JudgedBy(p: Params, hist: History, now: real, f: Fetch, v: Verdict) {
    && v != Missed
    && (v == ExpiredMiss <==> Expired(p, f, now))
    && (v == HealedMiss <==> !Expired(p, f, now) && Healed(hist, f))
    && (v.Hit? ==> (v.stale <==> Outdated(hist.log, f)))
    && (v.Hit? && p.delay.Some? ==> forall j :: Supersedes(hist.log, f, j) ==> now < hist.log[j].0 + p.delay.value)
  }

  // ----- counting mutations

  ghost function Tally(log: seq<(real, nat)>, c: nat): nat {
    if log == [] then 0 else Tally(log[..|log| - 1], c) + (if log[|log| - 1].1 == c then 1 else 0)
  }

  lemma TallyAppend(log: seq<(real, nat)>, m: (real, nat), c: nat)
    ensures Tally(log + [m], c) == Tally(log, c) + (if m.1 == c then 1 else 0)
  {
    assert (log + [m])[..|log|] == log;
  }

  lemma {:induction false} TallyGrows(log: seq<(real, nat)>, i: nat, j: nat, c: nat)
    requires i <= j <= |log|
    ensures Tally(log[..i], c) <= Tally(log[..j], c)
    decreases j - i
  {
    if i < j {
      TallyGrows(log, i, j - 1, c);
      assert log[..j][..j - 1] == log[..j - 1];
    }
  }

  /** The tally moves between i and j exactly when a mutation of c lies between them. */
  lemma {:induction false} TallyMoves(log: seq<(real, nat)>, i: nat, j: nat, c: nat)
    requires i <= j <= |log|
    ensures Tally(log[..i], c) < Tally(log[..j], c) <==> exists k :: i <= k < j && log[k].1 == c
    decreases j - i
  {
    if i < j {
      TallyMoves(log, i, j - 1, c);
      TallyGrows(log, i, j - 1, c);
      assert log[..j][..j - 1] == log[..j - 1] && log[..j][j - 1] == log[j - 1];
    }
  }

  // ----- what has been healed

  ghost predicate FiredInOrder(log: seq<(real, nat)>, fired: seq<nat>) {
    && |fired| <= |log|
    && (forall i :: 0 <= i < |fired| ==> i < fired[i] <= |log|)
    && (forall i, j :: 0 <= i <= j < |fired| ==> fired[i] <= fired[j])
  }

  /** The version up to which a cluster is healed: its tally when it last fired. */
  ghost function HealedTally(log: seq<(real, nat)>, fired: seq<nat>, c: nat): nat
    requires FiredInOrder(log, fired)
    decreases |fired|
  {
    if fired == [] then 0
    else
      var n := |fired| - 1;
      if log[n].1 == c then Tally(log[..fired[n]], c) else HealedTally(log, fired[..n], c)
  }

  lemma {:induction false} HealedTallyBounded(log: seq<(real, nat)>, fired: seq<nat>, c: nat)
    requires FiredInOrder(log, fired)
    ensures HealedTally(log, fired, c) <= Tally(log, c)
    decreases |fired|
  {
    if fired != [] {
      var n := |fired| - 1;
      HealedTallyBounded(log, fired[..n], c);
      TallyGrows(log, fired[n], |log|, c);
      assert log[..|log|] == log;
    }
  }

  /** A fetch is behind the healed version exactly when a firing came after a mutation that superseded it. */
  lemma {:induction false} HealedMoves(log: seq<(real, nat)>, fired: seq<nat>, c: nat, seen: nat)
    requires FiredInOrder(log, fired) && seen <= |log|
    ensures Tally(log[..seen], c) < HealedTally(log, fired, c) <==> exists i, j :: HealedBy(log, fired, c, seen, i, j)
    decreases |fired|
  {
    if fired != [] {
      var n := |fired| - 1;
      if log[n].1 == c {
        LastFiringMoves(log, fired, c, seen);
      } else {
        HealedMoves(log, fired[..n], c, seen);
        if i, j :| HealedBy(log, fired, c, seen, i, j) {
          assert HealedBy(log, fired[..n], c, seen, i, j);
        }
        if i, j :| HealedBy(log, fired[..n], c, seen, i, j) {
          assert HealedBy(log, fired, c, seen, i, j);
        }
      }
    }
  }

  lemma LastFiringMoves(log: seq<(real, nat)>, fired: seq<nat>, c: nat, seen: nat)
    requires FiredInOrder(log, fired) && seen <= |log| && fired != [] && log[|fired| - 1].1 == c
    ensures Tally(log[..seen], c) < Tally(log[..fired[|fired| - 1]], c) <==>
            exists i, j :: HealedBy(log, fired, c, seen, i, j)
  {
    var n := |fired| - 1;
    if seen <= fired[n] {
      TallyMoves(log, seen, fired[n], c);
      if j :| seen <= j < fired[n] && log[j].1 == c {
        assert HealedBy(log, fired, c, seen, n, j);
      }
      if i, j :| HealedBy(log, fired, c, seen, i, j) {
        assert seen <= j < fired[n] && log[j].1 == c;
      }
    } else {
      TallyGrows(log, fired[n], seen, c);
    }
  }

  // ----- the invariant

  ghost predicate InOrder(log: seq<(real, nat)>, vnow: real) {
    && (forall i, j :: 0 <= i <= j < |log| ==> log[i].0 <= log[j].0)
    && (forall i :: 0 <= i < |log| ==> log[i].0 <= vnow)
  }

  /** The queue holds the mutations not yet fired, each due `delay` after it happened. */
  ghost predicate QueueIs(pending: seq<(real, nat)>, log: seq<(real, nat)>, delay: real) {
    && |pending| <= |log|
    && forall i :: 0 <= i < |pending| ==>
         pending[i].0 == log[|log| - |pending| + i].0 + delay && pending[i].1 == log[|log| - |pending| + i].1
  }

  ghost predicate HealedIs(healed: map<nat, nat>, log: seq<(real, nat)>, fired: seq<nat>) {
    FiredInOrder(log, fired) && forall c: nat :: Version(healed, c) == HealedTally(log, fired, c)
  }

  ghost predicate VersionsMatch(versions: map<nat, nat>, log: seq<(real, nat)>) {
    forall c: nat :: Version(versions, c) == Tally(log, c)
  }

  /** Each spelling's stamps are those of its own last fetch. */
  ghost predicate StampsMatch(p: Params, r: Ledger, hist: History) {
    && (forall x :: x in hist.own ==> hist.own[x].seen <= |hist.log| && HashExact(hist.own[x].query) == x)
    && r.insertTime.Keys == (if Tracked(p) then hist.own.Keys else {})
    && r.insertVersion.Keys == (if p.mutations then hist.own.Keys else {})
    && (forall x :: x in r.insertTime ==> r.insertTime[x] == hist.own[x].at)
    && (forall x :: x in r.insertVersion ==>
          hist.own[x].seen <= |hist.log| &&
              r.insertVersion[x] == Tally(hist.log[..hist.own[x].seen], hist.own[x].cluster))
  }

  ghost predicate FetchedBy(hist: History, vnow: real) {
    forall x :: x in hist.own ==> hist.own[x].at <= vnow
  }

  /** The last fetch of a key is the last under its spelling. */
  ghost predicate LastIsOwn(normalize: string -> string, hist: History) {
    forall k :: k in hist.last ==>
      && HashExact(hist.last[k].query) in hist.own && hist.own[HashExact(hist.last[k].query)] == hist.last[k]
      && Key(normalize, hist.last[k].query) == k
  }

  ghost predicate NotLater(f: Fetch, g: Fetch) {
    f.seen <= g.seen && f.at <= g.at
  }

  /** No spelling's last fetch is later than its key's. */
  ghost predicate OwnIsOlder(normalize: string -> string, hist: History) {
    forall x :: x in hist.own ==>
      Key(normalize, x.preimage) in hist.last && NotLater(hist.own[x], hist.last[Key(normalize, x.preimage)])
  }

  ghost predicate FetchesMatch(normalize: string -> string, live: set<QueryHash>, hist: History) {
    live <= hist.last.Keys && LastIsOwn(normalize, hist) && OwnIsOlder(normalize, hist)
  }

  ghost predicate CdcMatches(p: Params, r: Ledger, hist: History) {
    match p.delay
    case None => r.pending == [] && r.healedVersion == map[] && hist.fired == []
    case Some(d) =>
      && QueueIs(r.pending, hist.log, d) && |hist.fired| == |hist.log| - |r.pending|
      && HealedIs(r.healedVersion, hist.log, hist.fired)
  }

  ghost predicate Consistent(p: Params, normalize: string -> string, live: set<QueryHash>, r: Ledger, hist: History) {
    && InOrder(hist.log, r.vnow)
    && VersionsMatch(r.clusterVersion, hist.log)
    && StampsMatch(p, r, hist)
    && FetchesMatch(normalize, live, hist)
    && FetchedBy(hist, r.vnow)
    && CdcMatches(p, r, hist)
    && (!p.mutations ==> hist.log == [])
  }

  ghost predicate Plain(s: Store) {
    s.perUpstreamLimit == None && !s.cfg.normalizedMatching
  }

  // ----- firing

  ghost predicate NoneDue(pending: seq<(real, nat)>, now: real) {
    pending == [] || pending[0].0 > now
  }

  lemma FiringHeals(healed: map<nat, nat>, versions: map<nat, nat>, log: seq<(real, nat)>, fired: seq<nat>, c: nat)
    requires HealedIs(healed, log, fired) && VersionsMatch(versions, log) && |fired| < |log| && log[|fired|].1 == c
    ensures HealedIs(healed[c := Max(Version(versions, c), Version(healed, c))], log, fired + [|log|])
  {
    var next, more := healed[c := Max(Version(versions, c), Version(healed, c))], fired + [|log|];
    assert FiredInOrder(log, more);
    forall b: nat ensures Version(next, b) == HealedTally(log, more, b) {
      assert more[..|fired|] == fired && log[..|log|] == log;
      assert Version(healed, b) == HealedTally(log, fired, b) && Version(versions, b) == Tally(log, b);
      HealedTallyBounded(log, fired, b);
    }
  }

  /** After firing nothing is due, the queue is the unfired rest of the log, and exactly what fired is healed. */
  lemma {:induction false} FireKeeps(pending: seq<(real, nat)>, versions: map<nat, nat>, healed: map<nat, nat>,
                                     now: real, log: seq<(real, nat)>, fired: seq<nat>, delay: real)
    requires QueueIs(pending, log, delay) && VersionsMatch(versions, log)
    requires |fired| == |log| - |pending| && HealedIs(healed, log, fired)
    ensures var f, g := Fire(pending, versions, healed, now), Due(log, fired, delay, now);
            && NoneDue(f.pending, now) && QueueIs(f.pending, log, delay)
            && |g| == |log| - |f.pending| && HealedIs(f.healed, log, g)
    decreases |pending|
  {
    if pending != [] && pending[0].0 <= now {
      hide HealedIs, VersionsMatch;
      var c := pending[0].1;
      assert log[|fired|].1 == c && log[|fired|].0 + delay <= now;
      FiringHeals(healed, versions, log, fired, c);
      assert forall i :: 0 <= i < |pending[1..]| ==> pending[1..][i] == pending[i + 1];
      FireKeeps(pending[1..], versions, healed[c := Max(Version(versions, c), Version(healed, c))], now, log,
          fired + [|log|], delay);
    }
  }

  lemma TickKeeps(p: Params, normalize: string -> string, live: set<QueryHash>, r: Ledger, hist: History)
    requires p.dt >= 0.0 && Consistent(p, normalize, live, r, hist)
    ensures var t := Tick(p, r);
            && Consistent(p, normalize, live, t, Fires(p, hist, t.vnow))
            && (p.delay.Some? ==> NoneDue(t.pending, t.vnow))
  {
    hide StampsMatch, FetchesMatch, CdcMatches, VersionsMatch, Fires, NoneDue, Fire;
    var t := Tick(p, r);
    var h := Fires(p, hist, t.vnow);
    CdcTicks(p, r, hist);
    FiresKeepsFetches(p, hist, t.vnow);
    StampsSame(p, r, hist, t, h);
    FetchesSame(normalize, live, hist, h);
  }

  lemma CdcTicks(p: Params, r: Ledger, hist: History)
    requires CdcMatches(p, r, hist) && VersionsMatch(r.clusterVersion, hist.log)
    ensures var t := Tick(p, r);
            CdcMatches(p, t, Fires(p, hist, t.vnow)) && (p.delay.Some? ==> NoneDue(t.pending, t.vnow))
  {
    hide HealedIs, VersionsMatch, Fire, Due;
    if p.delay.Some? {
      FireKeeps(r.pending, r.clusterVersion, r.healedVersion, r.vnow + p.dt, hist.log, hist.fired, p.delay.value);
    } else {
      FireNothing(r.clusterVersion, r.vnow + p.dt);
    }
  }

  lemma FiresKeepsFetches(p: Params, hist: History, now: real)
    ensures Fires(p, hist, now).own == hist.own && Fires(p, hist, now).last == hist.last &&
            Fires(p, hist, now).log == hist.log
  {
  }

  lemma StampsSame(p: Params, r: Ledger, hist: History, r': Ledger, hist': History)
    requires StampsMatch(p, r, hist) && r'.insertTime == r.insertTime && r'.insertVersion == r.insertVersion
    requires hist'.own == hist.own && hist'.log == hist.log
    ensures StampsMatch(p, r', hist')
  {
  }

  lemma FetchesSame(normalize: string -> string, live: set<QueryHash>, hist: History, hist': History)
    requires FetchesMatch(normalize, live, hist) && hist'.own == hist.own && hist'.last == hist.last
    ensures FetchesMatch(normalize, live, hist')
  {
  }

  lemma FireNothing(versions: map<nat, nat>, now: real)
    ensures Fire([], versions, map[], now) == Fired([], map[])
  {
  }

  // ----- what the verdicts mean

  /** A stamp is behind its cluster exactly when a mutation has superseded the fetch. */
  lemma VersionsTellOutdated(t: Ledger, log: seq<(real, nat)>, f: Fetch)
    requires VersionsMatch(t.clusterVersion, log) && f.seen <= |log|
    ensures Tally(log[..f.seen], f.cluster) < Version(t.clusterVersion, f.cluster) <==> Outdated(log, f)
  {
    assert log[..|log|] == log;
    assert Version(t.clusterVersion, f.cluster) == Tally(log, f.cluster);
    TallyMoves(log, f.seen, |log|, f.cluster);
    if k :| f.seen <= k < |log| && log[k].1 == f.cluster {
      assert Supersedes(log, f, k);
    }
  }

  lemma HealedTells(t: Ledger, hist: History, f: Fetch)
    requires HealedIs(t.healedVersion, hist.log, hist.fired) && f.seen <= |hist.log|
    ensures Tally(hist.log[..f.seen], f.cluster) < Version(t.healedVersion, f.cluster) <==> Healed(hist, f)
  {
    HealedMoves(hist.log, hist.fired, f.cluster, f.seen);
    assert Version(t.healedVersion, f.cluster) == HealedTally(hist.log, hist.fired, f.cluster);
  }

  /** Bounded staleness: what is not healed has been superseded only by mutations younger than the delay. */
  lemma UnhealedIsYoung(t: Ledger, hist: History, delay: real, f: Fetch, j: int)
    requires QueueIs(t.pending, hist.log, delay) && |hist.fired| == |hist.log| - |t.pending|
    requires InOrder(hist.log, t.vnow) && FiredInOrder(hist.log, hist.fired) && NoneDue(t.pending, t.vnow)
    requires !Healed(hist, f) && Supersedes(hist.log, f, j)
    ensures t.vnow < hist.log[j].0 + delay
  {
    var n := |hist.fired|;
    assert !HealedBy(hist.log, hist.fired, f.cluster, f.seen, j, j);
    assert j >= n;
    assert t.pending[0].0 == hist.log[n].0 + delay;
  }

  /** What fires had been superseded: a healed fetch is outdated. */
  lemma HealedWasOutdated(hist: History, f: Fetch)
    requires Healed(hist, f)
    ensures Outdated(hist.log, f)
  {
    var i, j :| HealedBy(hist.log, hist.fired, f.cluster, f.seen, i, j);
    assert Supersedes(hist.log, f, j);
  }

  lemma NothingLoggedNothingHealed(hist: History, f: Fetch)
    requires hist.log == [] || hist.fired == []
    ensures !Healed(hist, f)
  {
  }

  /** A lookup that finds something is judged by the last fetch under its own spelling. */
  lemma JudgedByOwnFetch(p: Params, normalize: string -> string, live: set<QueryHash>, t: Ledger, hist: History,
                         ev: Event)
    requires Consistent(p, normalize, live, t, hist) && (p.delay.Some? ==> NoneDue(t.pending, t.vnow))
    requires HashExact(ev.query) in hist.own && hist.own[HashExact(ev.query)].cluster == ev.cluster
    ensures JudgedBy(p, hist, t.vnow, hist.own[HashExact(ev.query)], Judge(p, t, true, ev))
  {
    var f, v := hist.own[HashExact(ev.query)], Judge(p, t, true, ev);
    if p.delay.Some? {
      HealedTells(t, hist, f);
      if v.Hit? && !Healed(hist, f) {
        forall j | Supersedes(hist.log, f, j) ensures t.vnow < hist.log[j].0 + p.delay.value {
          UnhealedIsYoung(t, hist, p.delay.value, f, j);
        }
      }
    } else {
      NothingLoggedNothingHealed(hist, f);
    }
    VersionsTellOutdated(t, hist.log, f);
    hide HealedIs, VersionsMatch, Healed, Outdated, QueueIs, InOrder, FetchesMatch, Supersedes;
    JudgeReads(p, t, hist, ev, f);
  }

  /** The verdict, read off the stamps of the fetch. */
  lemma JudgeReads(p: Params, t: Ledger, hist: History, ev: Event, f: Fetch)
    requires StampsMatch(p, t, hist) && f.seen <= |hist.log| && f.cluster == ev.cluster
    requires HashExact(ev.query) in hist.own && hist.own[HashExact(ev.query)] == f
    requires !p.mutations ==> hist.log == []
    ensures var v := Judge(p, t, true, ev); var stamp := Tally(hist.log[..f.seen], f.cluster);
            && v != Missed
            && (v == ExpiredMiss <==> Expired(p, f, t.vnow))
            && (v == HealedMiss <==>
                !Expired(p, f, t.vnow) && p.mutations && p.delay.Some? && stamp < Version(t.healedVersion, f.cluster))
            && (v.Hit? ==> (v.stale <==> p.mutations && stamp < Version(t.clusterVersion, f.cluster)))
  {
  }

  /** A spelling that never fetched is never found expired, healed or stale, whatever happened to the entry. */
  lemma UnfetchedSpellingLooksFresh(p: Params, normalize: string -> string, live: set<QueryHash>, t: Ledger,
                                    hist: History, ev: Event)
    requires Consistent(p, normalize, live, t, hist) && HashExact(ev.query) !in hist.own
    ensures Judge(p, t, true, ev) == Hit(false)
  {
  }

  /** The entry was last fetched for this query and cluster. */
  ghost predicate Attributed(hist: History, k: QueryHash, ev: Event) {
    k in hist.last && hist.last[k].query == ev.query && hist.last[k].cluster == ev.cluster
  }

  /** What a fetch deserves. */
  ghost function Deserved(p: Params, hist: History, now: real, f: Fetch): Verdict {
    if Expired(p, f, now) then ExpiredMiss
    else if Healed(hist, f) then HealedMiss
    else Hit(Outdated(hist.log, f))
  }

  lemma JudgedAsDeserved(p: Params, hist: History, now: real, f: Fetch, v: Verdict)
    requires JudgedBy(p, hist, now, f, v)
    ensures v == Deserved(p, hist, now, f)
  {
  }

  /** An older fetch of the same cluster is expired, healed or outdated if a newer one is. */
  lemma OlderIsStricter(p: Params, hist: History, now: real, own: Fetch, last: Fetch)
    requires own.cluster == last.cluster && own.seen <= last.seen && own.at <= last.at
    ensures Expired(p, last, now) ==> Expired(p, own, now)
    ensures Healed(hist, last) ==> Healed(hist, own)
    ensures Outdated(hist.log, last) ==> Outdated(hist.log, own)
  {
    if i, j :| HealedBy(hist.log, hist.fired, last.cluster, last.seen, i, j) {
      assert HealedBy(hist.log, hist.fired, own.cluster, own.seen, i, j);
    }
    if j :| Supersedes(hist.log, last, j) {
      assert Supersedes(hist.log, own, j);
    }
  }

  ghost predicate Faultless(p: Params, hist: History, now: real, f: Fetch) {
    !Expired(p, f, now) && !Healed(hist, f) && !Outdated(hist.log, f)
  }

  /** The first thing wrong with the older fetch is wrong with the newer one too. */
  ghost predicate SameFault(p: Params, hist: History, now: real, own: Fetch, last: Fetch) {
    if Expired(p, own, now) then Expired(p, last, now)
    else if Healed(hist, own) then Healed(hist, last)
    else Outdated(hist.log, own) ==> Outdated(hist.log, last)
  }

  /**
   A verdict is what the entry deserves exactly in these cases. If its spelling has fetched, the first
   thing wrong with that fetch is wrong with the entry's; it can only err on the strict side. If its
   spelling has not, nothing is wrong with the entry.
   */
  lemma VerdictRightIff(p: Params, normalize: string -> string, live: set<QueryHash>, t: Ledger, hist: History,
                        ev: Event)
    requires Consistent(p, normalize, live, t, hist) && (p.delay.Some? ==> NoneDue(t.pending, t.vnow))
    requires Key(normalize, ev.query) in hist.last && hist.last[Key(normalize, ev.query)].cluster == ev.cluster
    requires HashExact(ev.query) in hist.own ==> hist.own[HashExact(ev.query)].cluster == ev.cluster
    ensures var last, x := hist.last[Key(normalize, ev.query)], HashExact(ev.query);
            Judge(p, t, true, ev) == Deserved(p, hist, t.vnow, last) <==>
            if x in hist.own then SameFault(p, hist, t.vnow, hist.own[x], last)
            else Faultless(p, hist, t.vnow, last)
  {
    var last, x := hist.last[Key(normalize, ev.query)], HashExact(ev.query);
    if x in hist.own {
      var own := hist.own[x];
      assert NotLater(own, last);
      hide Consistent, Healed, Outdated, Expired, JudgedBy;
      JudgedByOwnFetch(p, normalize, live, t, hist, ev);
      JudgedAsDeserved(p, hist, t.vnow, own, Judge(p, t, true, ev));
      OlderIsStricter(p, hist, t.vnow, own, last);
    } else {
      UnfetchedSpellingLooksFresh(p, normalize, live, t, hist, ev);
    }
  }

  // ----- the store under the replay

  ghost predicate Within(s: Store, t: Store) {
    t.entries.Keys <= s.entries.Keys && t.cfg == s.cfg && t.perUpstreamLimit == s.perUpstreamLimit
  }

  lemma {:induction false} EvictWhileWithin(s: Store, p: Pressure)
    ensures Within(s, EvictWhile(s, p).store)
    decreases Nodes(s)
  {
    if Over(s, p) {
      Eviction.ScanShrinks(s.entries, s.small, s.main);
      if EvictOne(s).source.Some? {
        EvictWhileWithin(EvictOne(s).store, p);
      }
    }
  }

  lemma AdmitWithin(s: Store, h: QueryHash)
    ensures Within(s, Admit(s, h))
  {
    var w := Enqueue(s, h);
    EvictWhileWithin(w, Count);
    EvictWhileWithin(EvictWhile(w, Count).store, Memory);
  }

  /** Inserting makes at most its own hash live. */
  lemma InsertAddsOneKey(s: Store, query: string, r: Response, upstream: string, context: string, now: int)
    requires s.perUpstreamLimit == None
    ensures var t := Insert(s, query, r, upstream, context, now, []);
            && t.entries.Keys <= s.entries.Keys + {HashQuery(s.cfg, query)}
            && t.cfg == s.cfg && t.perUpstreamLimit == None
  {
    var h, e := HashQuery(s.cfg, query), NewEntry(r, upstream, context, Some(query), now);
    AdmitWithin(Stored(s, h, e, Some(HashExact(query))), h);
  }

  // ----- every event keeps the invariant

  lemma StoreAfterWithin(s: Store, ev: Event, v: Verdict)
    requires Plain(s)
    ensures var t := StoreAfter(s, ev, v);
            && Plain(t) && t.cfg == s.cfg
            && t.entries.Keys <= (if v.Hit? then s.entries.Keys else s.entries.Keys + {HashQuery(s.cfg, ev.query)})
  {
    var g := Get(s, ev.query);
    assert g.entries.Keys == s.entries.Keys && g.cfg == s.cfg && g.perUpstreamLimit == None;
    if !v.Hit? {
      InsertAddsOneKey(g, ev.query, ev.response, "bench", "default", 0);
    }
  }

  lemma StampsKeep(p: Params, t: Ledger, hist: History, normalize: string -> string, ev: Event, v: Verdict)
    requires VersionsMatch(t.clusterVersion, hist.log) && StampsMatch(p, t, hist) && (v.HealedMiss? ==> p.mutations)
    ensures StampsMatch(p, Restamp(p, t, ev, v), Refetched(hist, normalize, ev, v, t.vnow))
  {
    assert hist.log[..|hist.log|] == hist.log;
    assert Version(t.clusterVersion, ev.cluster) == Tally(hist.log, ev.cluster);
    if !v.Hit? {
      FetchStamps(p, t, hist, HashExact(ev.query), Fetch(ev.query, ev.cluster, ev.response, |hist.log|, t.vnow),
                  Restamp(p, t, ev, v), Refetched(hist, normalize, ev, v, t.vnow));
    }
  }

  lemma FetchStamps(p: Params, t: Ledger, hist: History, x: QueryHash, f: Fetch, t': Ledger, hist': History)
    requires StampsMatch(p, t, hist) && x == HashExact(f.query) && f.seen == |hist.log|
    requires hist'.own == hist.own[x := f] && hist'.log == hist.log
    requires t'.insertTime == if Tracked(p) then t.insertTime[x := f.at] else t.insertTime
    requires t'.insertVersion ==
             if p.mutations then t.insertVersion[x := Tally(hist.log, f.cluster)] else t.insertVersion
    ensures StampsMatch(p, t', hist')
  {
    hide Tally;
    assert hist.log[..|hist.log|] == hist.log;
  }

  lemma FetchesKeep(p: Params, t: Ledger, hist: History, normalize: string -> string, live: set<QueryHash>, ev: Event,
                    v: Verdict, next: set<QueryHash>)
    requires StampsMatch(p, t, hist) && FetchesMatch(normalize, live, hist) && FetchedBy(hist, t.vnow)
    requires next <= (if v.Hit? then live else live + {Key(normalize, ev.query)})
    ensures FetchesMatch(normalize, next, Refetched(hist, normalize, ev, v, t.vnow))
    ensures FetchedBy(Refetched(hist, normalize, ev, v, t.vnow), t.vnow)
  {
    if !v.Hit? {
      var next' := Refetched(hist, normalize, ev, v, t.vnow);
      LastStaysOwn(hist, normalize, ev, v, t.vnow);
      forall x | x in next'.own
        ensures Key(normalize, x.preimage) in next'.last &&
                NotLater(next'.own[x], next'.last[Key(normalize, x.preimage)])
      {
        OwnStaysOlder(hist, normalize, ev, v, t.vnow, x);
      }
      hide LastIsOwn;
    }
  }

  lemma LastStaysOwn(hist: History, normalize: string -> string, ev: Event, v: Verdict, now: real)
    requires LastIsOwn(normalize, hist) && !v.Hit?
    ensures LastIsOwn(normalize, Refetched(hist, normalize, ev, v, now))
  {
  }

  lemma OwnStaysOlder(hist: History, normalize: string -> string, ev: Event, v: Verdict, now: real, x: QueryHash)
    requires OwnIsOlder(normalize, hist) && !v.Hit? && FetchedBy(hist, now)
    requires forall x :: x in hist.own ==> hist.own[x].seen <= |hist.log|
    requires x in Refetched(hist, normalize, ev, v, now).own
    ensures var next := Refetched(hist, normalize, ev, v, now);
            Key(normalize, x.preimage) in next.last && NotLater(next.own[x], next.last[Key(normalize, x.preimage)])
  {
  }

  lemma RestampKeeps(p: Params, normalize: string -> string, live: set<QueryHash>, t: Ledger, hist: History, ev: Event,
                     v: Verdict, next: set<QueryHash>)
    requires Consistent(p, normalize, live, t, hist)
    requires next <= (if v.Hit? then live else live + {Key(normalize, ev.query)})
    requires v.HealedMiss? ==> p.mutations
    ensures Consistent(p, normalize, next, Restamp(p, t, ev, v), Refetched(hist, normalize, ev, v, t.vnow))
  {
    StampsKeep(p, t, hist, normalize, ev, v);
    FetchesKeep(p, t, hist, normalize, live, ev, v, next);
    hide StampsMatch, FetchesMatch, InOrder, VersionsMatch;
  }

  lemma SettleKeeps(p: Params, normalize: string -> string, live: set<QueryHash>, r: Ledger, hist: History, ev: Event,
                    v: Verdict)
    requires Consistent(p, normalize, live, r, hist)
    ensures Consistent(p, normalize, live, Settle(r, ev, v), hist)
  {
    hide StampsMatch, FetchesMatch, InOrder, VersionsMatch;
    StampsSame(p, r, hist, Settle(r, ev, v), hist);
  }

  lemma TalliesGrow(log: seq<(real, nat)>, m: (real, nat))
    ensures forall b: nat :: Tally(log + [m], b) == Tally(log, b) + (if m.1 == b then 1 else 0)
  {
    forall b: nat ensures Tally(log + [m], b) == Tally(log, b) + (if m.1 == b then 1 else 0) {
      TallyAppend(log, m, b);
    }
  }

  lemma VersionsGrow(versions: map<nat, nat>, log: seq<(real, nat)>, m: (real, nat))
    requires VersionsMatch(versions, log)
    ensures VersionsMatch(versions[m.1 := Version(versions, m.1) + 1], log + [m])
  {
    TalliesGrow(log, m);
  }

  lemma StampsSurvive(p: Params, r: Ledger, hist: History, m: (real, nat), r': Ledger)
    requires StampsMatch(p, r, hist) && r'.insertVersion == r.insertVersion && r'.insertTime == r.insertTime
    ensures StampsMatch(p, r', hist.(log := hist.log + [m]))
  {
    forall x | x in r.insertVersion ensures (hist.log + [m])[..hist.own[x].seen] == hist.log[..hist.own[x].seen] {
    }
  }

  lemma QueueGrows(pending: seq<(real, nat)>, log: seq<(real, nat)>, delay: real, m: (real, nat))
    requires QueueIs(pending, log, delay)
    ensures QueueIs(pending + [(m.0 + delay, m.1)], log + [m], delay)
  {
    var q, next := pending + [(m.0 + delay, m.1)], log + [m];
    forall i | 0 <= i < |q|
      ensures q[i].0 == next[|next| - |q| + i].0 + delay && q[i].1 == next[|next| - |q| + i].1
    {
      if i < |pending| {
        assert next[|log| - |pending| + i] == log[|log| - |pending| + i];
      }
    }
  }

  lemma {:induction false} HealedTallySurvives(log: seq<(real, nat)>, fired: seq<nat>, m: (real, nat), c: nat)
    requires FiredInOrder(log, fired)
    ensures FiredInOrder(log + [m], fired) && HealedTally(log + [m], fired, c) == HealedTally(log, fired, c)
    decreases |fired|
  {
    if fired != [] {
      var n := |fired| - 1;
      HealedTallySurvives(log, fired[..n], m, c);
      assert (log + [m])[n] == log[n] && (log + [m])[..fired[n]] == log[..fired[n]];
    }
  }

  lemma HealingSurvives(healed: map<nat, nat>, log: seq<(real, nat)>, fired: seq<nat>, m: (real, nat))
    requires HealedIs(healed, log, fired)
    ensures HealedIs(healed, log + [m], fired)
  {
    assert FiredInOrder(log + [m], fired);
    forall c: nat ensures Version(healed, c) == HealedTally(log + [m], fired, c) {
      HealedTallySurvives(log, fired, m, c);
      assert Version(healed, c) == HealedTally(log, fired, c);
    }
  }

  lemma CdcGrows(p: Params, r: Ledger, hist: History, m: (real, nat), r': Ledger)
    requires CdcMatches(p, r, hist) && r'.healedVersion == r.healedVersion
    requires r'.pending == if p.delay.Some? then r.pending + [(m.0 + p.delay.value, m.1)] else r.pending
    ensures CdcMatches(p, r', hist.(log := hist.log + [m]))
  {
    hide QueueIs, HealedIs;
    if p.delay.Some? {
      QueueGrows(r.pending, hist.log, p.delay.value, m);
      HealingSurvives(r.healedVersion, hist.log, hist.fired, m);
    }
  }

  lemma OrderGrows(log: seq<(real, nat)>, m: (real, nat))
    requires InOrder(log, m.0)
    ensures InOrder(log + [m], m.0)
  {
  }

  lemma MutateKeeps(p: Params, normalize: string -> string, live: set<QueryHash>, r: Ledger, hist: History, ev: Event)
    requires Consistent(p, normalize, live, r, hist)
    ensures Consistent(p, normalize, live, Mutate(p, r, ev), Logged(hist, Mutated(p, r, ev), r.vnow))
  {
    hide Consistent;
    var c, r' := Mutated(p, r, ev), Mutate(p, r, ev);
    if c.Some? {
      MutationKeeps(p, normalize, live, r, hist, c.value, r');
    } else {
      NoMutationKeeps(p, normalize, live, r, hist, r');
    }
  }

  lemma NoMutationKeeps(p: Params, normalize: string -> string, live: set<QueryHash>, r: Ledger, hist: History,
                        r': Ledger)
    requires Consistent(p, normalize, live, r, hist)
    requires r'.clusterVersion == r.clusterVersion && r'.pending == r.pending && r'.healedVersion == r.healedVersion
    requires r'.insertTime == r.insertTime && r'.insertVersion == r.insertVersion && r'.vnow == r.vnow
    ensures Consistent(p, normalize, live, r', hist)
  {
    hide InOrder, VersionsMatch, StampsMatch, CdcMatches, FetchesMatch;
    StampsSame(p, r, hist, r', hist);
    CdcSame(p, r, hist, r');
  }

  lemma MutationKeeps(p: Params, normalize: string -> string, live: set<QueryHash>, r: Ledger, hist: History, c: nat,
                      r': Ledger)
    requires Consistent(p, normalize, live, r, hist) && p.mutations
    requires r'.clusterVersion == r.clusterVersion[c := Version(r.clusterVersion, c) + 1]
    requires r'.pending == if p.delay.Some? then r.pending + [(r.vnow + p.delay.value, c)] else r.pending
    requires r'.insertTime == r.insertTime && r'.insertVersion == r.insertVersion
    requires r'.healedVersion == r.healedVersion && r'.vnow == r.vnow
    ensures Consistent(p, normalize, live, r', Logged(hist, Some(c), r.vnow))
  {
    hide InOrder, VersionsMatch, StampsMatch, CdcMatches, FetchesMatch;
    var m := (r.vnow, c);
    OrderGrows(hist.log, m);
    VersionsGrow(r.clusterVersion, hist.log, m);
    StampsSurvive(p, r, hist, m, r');
    CdcGrows(p, r, hist, m, r');
    FetchesSame(normalize, live, hist, Logged(hist, Some(c), r.vnow));
  }

  lemma CdcSame(p: Params, r: Ledger, hist: History, r': Ledger)
    requires CdcMatches(p, r, hist) && r'.pending == r.pending && r'.healedVersion == r.healedVersion
    ensures CdcMatches(p, r', hist)
  {
  }

  lemma AnswerKeeps(p: Params, normalize: string -> string, live: set<QueryHash>, t: Ledger, hist: History, ev: Event,
                    v: Verdict, next: set<QueryHash>)
    requires Consistent(p, normalize, live, t, hist)
    requires next <= (if v.Hit? then live else live + {Key(normalize, ev.query)})
    requires v.HealedMiss? ==> p.mutations
    ensures Consistent(p, normalize, next, Answer(p, t, ev, v),
                       Logged(Refetched(hist, normalize, ev, v, t.vnow), Mutated(p, t, ev), t.vnow))
  {
    hide Consistent;
    RestampKeeps(p, normalize, live, t, hist, ev, v, next);
    var a := Restamp(p, t, ev, v);
    SettleKeeps(p, normalize, next, a, Refetched(hist, normalize, ev, v, t.vnow), ev, v);
    MutateKeeps(p, normalize, next, Settle(a, ev, v), Refetched(hist, normalize, ev, v, t.vnow), ev);
  }

  ghost predicate Good(p: Params, r: Replay, hist: History) {
    Plain(r.store) && Consistent(p, r.store.cfg.normalize, r.store.entries.Keys, r.ledger, hist)
  }

  lemma AdvanceKeeps(p: Params, r: Replay, hist: History, ev: Event)
    requires p.dt >= 0.0 && Good(p, r, hist)
    ensures Good(p, Advance(p, r, ev), Record(p, r, hist, ev))
    ensures Advance(p, r, ev).store.cfg == r.store.cfg
  {
    var v, t := VerdictOn(p, r, ev), Tick(p, r.ledger);
    TickKeeps(p, r.store.cfg.normalize, r.store.entries.Keys, r.ledger, hist);
    StoreAfterWithin(r.store, ev, v);
    HealedNeedsMutations(p, r.store.cfg.normalize, r.store.entries.Keys, t, Before(p, r, hist), ev,
        Found(r.store, ev.query).Some?);
    hide Consistent, StoreAfter, Tick, Judge, Answer;
    AnswerKeeps(p, r.store.cfg.normalize, r.store.entries.Keys, t, Before(p, r, hist), ev, v,
                StoreAfter(r.store, ev, v).entries.Keys);
  }

  lemma HealedNeedsMutations(p: Params, normalize: string -> string, live: set<QueryHash>, t: Ledger, hist: History,
                             ev: Event, found: bool)
    requires Consistent(p, normalize, live, t, hist)
    ensures Judge(p, t, found, ev).HealedMiss? ==> p.mutations
  {
  }

  /** Stamps, versions, queue and healing agree with the true history after every event of any trace. */
  lemma {:induction false} SweepKeeps(p: Params, r: Replay, hist: History, events: seq<Event>)
    requires p.dt >= 0.0 && Good(p, r, hist)
    ensures Good(p, Sweep(p, r, events), Histories(p, r, hist, events))
    ensures Sweep(p, r, events).store.cfg == r.store.cfg
    decreases |events|
  {
    if events != [] {
      hide Good, Advance, Record;
      var n := |events| - 1;
      SweepKeeps(p, r, hist, events[..n]);
      AdvanceKeeps(p, Sweep(p, r, events[..n]), Histories(p, r, hist, events[..n]), events[n]);
    }
  }

  lemma StartGood(p: Params, normalize: string -> string, cacheSize: nat, maxMemory: nat)
    ensures Good(p, Start(normalize, cacheSize, maxMemory), NO_HISTORY)
  {
    var log: seq<(real, nat)> := [];
    assert forall c: nat :: Tally(log, c) == 0 && Version(map[], c) == 0 && HealedTally(log, [], c) == 0;
  }

  /**
   On every replay of every trace, an event is a miss exactly when its key is not in the store, and
   otherwise was fetched before. An event whose entry was last fetched for its own query and
   cluster is judged by what really happened to that entry: expired exactly when fetched longer
   ago than the TTL, healed exactly when an invalidation fired after a mutation of its cluster,
   stale exactly when outdated, and then only by mutations younger than the delay.
   */
  lemma EveryEventJudgedTruly(p: Params, normalize: string -> string, cacheSize: nat, maxMemory: nat,
                              events: seq<Event>, i: nat)
    requires p.dt >= 0.0 && i < |events|
    ensures var r0 := Start(normalize, cacheSize, maxMemory);
            var r := Sweep(p, r0, events[..i]);
            var hist := Before(p, r, Histories(p, r0, NO_HISTORY, events[..i]));
            var v, k := VerdictOn(p, r, events[i]), Key(normalize, events[i].query);
            && (v == Missed <==> k !in r.store.entries)
            && (v != Missed ==> k in hist.last)
            && (v != Missed && Attributed(hist, k, events[i]) ==>
                  JudgedBy(p, hist, Tick(p, r.ledger).vnow, hist.last[k], v))
  {
    var r0 := Start(normalize, cacheSize, maxMemory);
    StartGood(p, normalize, cacheSize, maxMemory);
    SweepKeeps(p, r0, NO_HISTORY, events[..i]);
    hide Sweep, Histories, JudgedBy, Good;
    JudgementIsTrue(p, Sweep(p, r0, events[..i]), Histories(p, r0, NO_HISTORY, events[..i]), events[i]);
  }

  lemma FoundIsNotMissed(p: Params, t: Ledger, ev: Event, found: bool)
    ensures Judge(p, t, found, ev) == Missed <==> !found
  {
  }

  lemma JudgementIsTrue(p: Params, r: Replay, hist: History, ev: Event)
    requires p.dt >= 0.0 && Good(p, r, hist)
    ensures var h, v, k := Before(p, r, hist), VerdictOn(p, r, ev), Key(r.store.cfg.normalize, ev.query);
            && (v == Missed <==> k !in r.store.entries)
            && (v != Missed ==> k in h.last)
            && (v != Missed && Attributed(h, k, ev) ==> JudgedBy(p, h, Tick(p, r.ledger).vnow, h.last[k], v))
  {
    var normalize, live, t := r.store.cfg.normalize, r.store.entries.Keys, Tick(p, r.ledger);
    var h, k := Before(p, r, hist), Key(normalize, ev.query);
    TickKeeps(p, normalize, live, r.ledger, hist);
    hide JudgedBy, CdcMatches, StampsMatch, InOrder, VersionsMatch, Tick, Fires, NoneDue;
    assert Found(r.store, ev.query).Some? <==> k in live;
    FoundIsNotMissed(p, t, ev, Found(r.store, ev.query).Some?);
    if Found(r.store, ev.query).Some? && Attributed(h, k, ev) {
      JudgedByOwnFetch(p, normalize, live, t, h, ev);
    }
  }

  /** The entry's last fetch, and the spelling's if it has one, were for the event's cluster. */
  ghost predicate OneCluster(hist: History, k: QueryHash, ev: Event) {
    && (k in hist.last ==> hist.last[k].cluster == ev.cluster)
    && (HashExact(ev.query) in hist.own ==> hist.own[HashExact(ev.query)].cluster == ev.cluster)
  }

  /** When an event of any replay, under whatever spelling, is judged as its entry deserves. */
  lemma EveryVerdictRightIff(p: Params, normalize: string -> string, cacheSize: nat, maxMemory: nat, events: seq<Event>,
                             i: nat)
    requires p.dt >= 0.0 && i < |events|
    ensures var r0, ev := Start(normalize, cacheSize, maxMemory), events[i];
            var r := Sweep(p, r0, events[..i]);
            var hist, now := Before(p, r, Histories(p, r0, NO_HISTORY, events[..i])), Tick(p, r.ledger).vnow;
            var v, k, x := VerdictOn(p, r, ev), Key(normalize, ev.query), HashExact(ev.query);
            v != Missed && OneCluster(hist, k, ev) ==>
              && k in hist.last
              && (v == Deserved(p, hist, now, hist.last[k]) <==>
                  if x in hist.own then SameFault(p, hist, now, hist.own[x], hist.last[k])
                  else Faultless(p, hist, now, hist.last[k]))
  {
    var r0 := Start(normalize, cacheSize, maxMemory);
    StartGood(p, normalize, cacheSize, maxMemory);
    SweepKeeps(p, r0, NO_HISTORY, events[..i]);
    hide Sweep, Histories, Good, Deserved, SameFault, Faultless, Before, Tick;
    VerdictOnRightIff(p, Sweep(p, r0, events[..i]), Histories(p, r0, NO_HISTORY, events[..i]), events[i]);
  }

  lemma VerdictOnRightIff(p: Params, r: Replay, hist: History, ev: Event)
    requires p.dt >= 0.0 && Good(p, r, hist)
    ensures var h, now := Before(p, r, hist), Tick(p, r.ledger).vnow;
            var v, k, x := VerdictOn(p, r, ev), Key(r.store.cfg.normalize, ev.query), HashExact(ev.query);
            v != Missed && OneCluster(h, k, ev) ==>
              && k in h.last
              && (v == Deserved(p, h, now, h.last[k]) <==>
                  if x in h.own then SameFault(p, h, now, h.own[x], h.last[k])
                  else Faultless(p, h, now, h.last[k]))
  {
    var normalize, live, t := r.store.cfg.normalize, r.store.entries.Keys, Tick(p, r.ledger);
    var h, k := Before(p, r, hist), Key(normalize, ev.query);
    TickKeeps(p, normalize, live, r.ledger, hist);
    JudgementIsTrue(p, r, hist, ev);
    hide Consistent, Deserved, SameFault, Faultless, Tick, Fires, NoneDue, JudgedBy;
    if VerdictOn(p, r, ev) != Missed && OneCluster(h, k, ev) {
      VerdictRightIff(p, normalize, live, t, h, ev);
    }
  }

  // ----- traces with one spelling per key

  /** Queries that share a key are the same query, of the same cluster. Queries in normal form always are. */
  ghost predicate OneSpelling(normalize: string -> string, events: seq<Event>) {
    forall i, j | 0 <= i < |events| && 0 <= j < |events| ::
      normalize(events[i].query) == normalize(events[j].query) ==>
        events[i].query == events[j].query && events[i].cluster == events[j].cluster
  }

  /** Every fetch on record was made by an event. */
  ghost predicate MadeBy(events: seq<Event>, f: Fetch) {
    exists i :: 0 <= i < |events| && events[i].query == f.query && events[i].cluster == f.cluster
  }

  ghost predicate AllMadeBy(events: seq<Event>, hist: History) {
    (forall k :: k in hist.last ==> MadeBy(events, hist.last[k])) &&
        (forall x :: x in hist.own ==> MadeBy(events, hist.own[x]))
  }

  lemma MadeByMore(events: seq<Event>, more: seq<Event>, f: Fetch)
    requires MadeBy(events, f) && events <= more
    ensures MadeBy(more, f)
  {
    var i :| 0 <= i < |events| && events[i].query == f.query && events[i].cluster == f.cluster;
    assert more[i] == events[i];
  }

  lemma RecordMadeBy(p: Params, r: Replay, hist: History, events: seq<Event>, ev: Event)
    requires AllMadeBy(events, hist)
    ensures AllMadeBy(events + [ev], Record(p, r, hist, ev))
  {
    var next, more := Record(p, r, hist, ev), events + [ev];
    hide VerdictOn, Tick, Mutated, MadeBy, Fires;
    var f := Fetch(ev.query, ev.cluster, ev.response, |hist.log|, Tick(p, r.ledger).vnow);
    assert MadeBy(more, f) by { OwnEvent(events, ev, f); }
    FiresKeepsFetches(p, hist, Tick(p, r.ledger).vnow);
    forall k | k in next.last ensures MadeBy(more, next.last[k]) {
      if k in hist.last && next.last[k] == hist.last[k] { MadeByMore(events, more, hist.last[k]); }
    }
    forall x | x in next.own ensures MadeBy(more, next.own[x]) {
      if x in hist.own && next.own[x] == hist.own[x] { MadeByMore(events, more, hist.own[x]); }
    }
  }

  lemma OwnEvent(events: seq<Event>, ev: Event, f: Fetch)
    requires f.query == ev.query && f.cluster == ev.cluster
    ensures MadeBy(events + [ev], f)
  {
    assert (events + [ev])[|events|] == ev;
  }

  lemma HistoriesLast(p: Params, r: Replay, hist: History, events: seq<Event>)
    requires events != []
    ensures var n := |events| - 1;
            Histories(p, r, hist, events) ==
            Record(p, Sweep(p, r, events[..n]), Histories(p, r, hist, events[..n]), events[n])
  {
    hide Record, Sweep;
  }

  lemma NoHistoryMadeBy(p: Params, r: Replay)
    ensures AllMadeBy([], Histories(p, r, NO_HISTORY, []))
  {
  }

  lemma {:induction false} HistoryMadeBy(p: Params, r: Replay, events: seq<Event>)
    ensures AllMadeBy(events, Histories(p, r, NO_HISTORY, events))
    decreases |events|
  {
    hide Histories, Record, Sweep, AllMadeBy;
    if events == [] {
      NoHistoryMadeBy(p, r);
    } else {
      var n := |events| - 1;
      HistoriesLast(p, r, NO_HISTORY, events);
      HistoryMadeBy(p, r, events[..n]);
      RecordMadeBy(p, Sweep(p, r, events[..n]), Histories(p, r, NO_HISTORY, events[..n]), events[..n], events[n]);
      assert events == events[..n] + [events[n]];
    }
  }

  /** On a trace with one spelling per key, every lookup that finds something is judged truly. */
  lemma OneSpellingJudgedTruly(p: Params, normalize: string -> string, cacheSize: nat, maxMemory: nat,
                               events: seq<Event>, i: nat)
    requires p.dt >= 0.0 && i < |events| && OneSpelling(normalize, events)
    ensures var r0 := Start(normalize, cacheSize, maxMemory);
            var r := Sweep(p, r0, events[..i]);
            var hist := Before(p, r, Histories(p, r0, NO_HISTORY, events[..i]));
            var v, k := VerdictOn(p, r, events[i]), Key(normalize, events[i].query);
            v != Missed ==> k in hist.last && JudgedBy(p, hist, Tick(p, r.ledger).vnow, hist.last[k], v)
  {
    var r0 := Start(normalize, cacheSize, maxMemory);
    hide Sweep, Histories, JudgedBy, VerdictOn, Tick, Fires, AllMadeBy, OneSpelling, Consistent;
    var r, past := Sweep(p, r0, events[..i]), Histories(p, r0, NO_HISTORY, events[..i]);
    EveryEventJudgedTruly(p, normalize, cacheSize, maxMemory, events, i);
    HistoryMadeBy(p, r0, events[..i]);
    StartGood(p, normalize, cacheSize, maxMemory);
    SweepKeeps(p, r0, NO_HISTORY, events[..i]);
    FiresKeepsFetches(p, past, Tick(p, r.ledger).vnow);
    if Key(normalize, events[i].query) in past.last {
      OneSpellingAttributes(p, normalize, r, events, i, past);
    }
  }

  lemma OneSpellingAttributes(p: Params, normalize: string -> string, r: Replay, events: seq<Event>, i: nat,
                              hist: History)
    requires i < |events| && OneSpelling(normalize, events) && AllMadeBy(events[..i], hist)
    requires Good(p, r, hist) && r.store.cfg.normalize == normalize && Key(normalize, events[i].query) in hist.last
    ensures Attributed(hist, Key(normalize, events[i].query), events[i])
  {
    var f := hist.last[Key(normalize, events[i].query)];
    hide StampsMatch, CdcMatches, InOrder, VersionsMatch;
    assert MadeBy(events[..i], f);
    var j :| 0 <= j < i && events[..i][j].query == f.query && events[..i][j].cluster == f.cluster;
    assert events[j] == events[..i][j];
  }

  // ----- healing again

  /** Later history only adds to the log, and later fetches under a spelling come later in it. */
  ghost predicate Continues(a: History, b: History) {
    && a.log <= b.log
    && forall x :: x in a.own && a.own[x].seen <= |a.log| ==> x in b.own && a.own[x].seen <= b.own[x].seen <= |b.log|
  }

  lemma RecordContinues(p: Params, r: Replay, hist: History, ev: Event)
    ensures Continues(hist, Record(p, r, hist, ev))
  {
    FiresKeepsFetches(p, hist, Tick(p, r.ledger).vnow);
    hide Tick, VerdictOn, Mutated, Fires;
  }

  lemma {:induction false} HistoryContinues(p: Params, r: Replay, events: seq<Event>, i: nat, k: nat)
    requires i <= k <= |events|
    ensures Continues(Histories(p, r, NO_HISTORY, events[..i]), Histories(p, r, NO_HISTORY, events[..k]))
    decreases k - i
  {
    hide Record, Sweep;
    if i < k {
      HistoryContinues(p, r, events, i, k - 1);
      assert events[..k][..k - 1] == events[..k - 1];
      RecordContinues(p, Sweep(p, r, events[..k - 1]), Histories(p, r, NO_HISTORY, events[..k - 1]), events[k - 1]);
    }
  }

  lemma FetchIsRecorded(p: Params, r: Replay, events: seq<Event>, i: nat)
    requires i < |events| && !VerdictOn(p, Sweep(p, r, events[..i]), events[i]).Hit?
    ensures var a, b := Histories(p, r, NO_HISTORY, events[..i]), Histories(p, r, NO_HISTORY, events[..i + 1]);
            HashExact(events[i].query) in b.own && b.own[HashExact(events[i].query)].seen == |a.log| <= |b.log|
  {
    FiresKeepsFetches(p, Histories(p, r, NO_HISTORY, events[..i]), Tick(p, Sweep(p, r, events[..i]).ledger).vnow);
    hide VerdictOn, Sweep, Tick, Fires;
    assert events[..i + 1][..i] == events[..i];
  }

  /** Two healed misses of one query, the later one on a fetch for its own cluster: the cluster mutated in between. */
  lemma HealedAgainNeedsMutation(p: Params, normalize: string -> string, cacheSize: nat, maxMemory: nat,
                                 events: seq<Event>, i: nat, k: nat)
    requires p.dt >= 0.0 && i < k < |events| && events[i].query == events[k].query
    requires var r0 := Start(normalize, cacheSize, maxMemory);
             && VerdictOn(p, Sweep(p, r0, events[..i]), events[i]).HealedMiss?
             && VerdictOn(p, Sweep(p, r0, events[..k]), events[k]).HealedMiss?
    ensures var r0, x := Start(normalize, cacheSize, maxMemory), HashExact(events[k].query);
            var a, b := Histories(p, r0, NO_HISTORY, events[..i]), Histories(p, r0, NO_HISTORY, events[..k]);
            && a.log <= b.log && x in b.own
            && (b.own[x].cluster == events[k].cluster ==>
                  exists j :: |a.log| <= j < |b.log| && b.log[j].1 == events[k].cluster)
  {
    hide Histories, Sweep, VerdictOn;
    var r0, x := Start(normalize, cacheSize, maxMemory), HashExact(events[k].query);
    var a, b := Histories(p, r0, NO_HISTORY, events[..i]), Histories(p, r0, NO_HISTORY, events[..k]);
    FetchIsRecorded(p, r0, events, i);
    HistoryContinues(p, r0, events, i, i + 1);
    HistoryContinues(p, r0, events, i + 1, k);
    assert x in b.own && |a.log| <= b.own[x].seen;
    StartGood(p, normalize, cacheSize, maxMemory);
    SweepKeeps(p, r0, NO_HISTORY, events[..k]);
    if b.own[x].cluster == events[k].cluster {
      HealedOwnIsOutdated(p, Sweep(p, r0, events[..k]), b, events[k]);
      var j :| Supersedes(b.log, b.own[x], j);
    }
  }

  lemma HealedOwnIsOutdated(p: Params, r: Replay, hist: History, ev: Event)
    requires p.dt >= 0.0 && Good(p, r, hist) && VerdictOn(p, r, ev).HealedMiss?
    requires HashExact(ev.query) in hist.own && hist.own[HashExact(ev.query)].cluster == ev.cluster
    ensures Outdated(hist.log, hist.own[HashExact(ev.query)])
  {
    var normalize, live, t := r.store.cfg.normalize, r.store.entries.Keys, Tick(p, r.ledger);
    TickKeeps(p, normalize, live, r.ledger, hist);
    FiresKeepsFetches(p, hist, t.vnow);
    hide Tick, Fires, Consistent, Outdated, Healed;
    JudgedByOwnFetch(p, normalize, live, t, Before(p, r, hist), ev);
    HealedWasOutdated(Before(p, r, hist), hist.own[HashExact(ev.query)]);
  }

  // ----- the counters

  ghost function Verdicts(p: Params, r: Replay, events: seq<Event>): (vs: seq<Verdict>)
    ensures |vs| == |events|
  {
    if events == [] then []
    else
      var n := |events| - 1;
      Verdicts(p, r, events[..n]) + [VerdictOn(p, Sweep(p, r, events[..n]), events[n])]
  }

  ghost predicate Counted(n: Counters, m: Counters, v: Verdict) {
    && m.exact == n.exact + (if v.Hit? then 1 else 0)
    && m.stale == n.stale + (if v == Hit(true) then 1 else 0)
    && m.expired == n.expired + (if v == ExpiredMiss then 1 else 0)
    && m.healed == n.healed + (if v == HealedMiss then 1 else 0)
  }

  lemma AnswerCounts(p: Params, t: Ledger, ev: Event, v: Verdict)
    ensures Counted(t.counters, Answer(p, t, ev, v).counters, v)
  {
  }

  ghost predicate TracksMiss(a: Ledger, b: Ledger, ev: Event, v: Verdict) {
    && b.cachedClusters == (if v == Missed then a.cachedClusters + {ev.cluster} else a.cachedClusters)
    && b.counters.ceiling == a.counters.ceiling + (if v == Missed && ev.cluster in a.cachedClusters then 1 else 0)
  }

  lemma AnswerTracksMisses(p: Params, t: Ledger, ev: Event, v: Verdict)
    ensures TracksMiss(t, Answer(p, t, ev, v), ev, v)
  {
  }

  /** Counters that agree with a list of verdicts. */
  ghost predicate Reads(n: Counters, vs: seq<Verdict>) {
    && n.exact == multiset(vs)[Hit(true)] + multiset(vs)[Hit(false)]
    && n.stale == multiset(vs)[Hit(true)]
    && n.expired == multiset(vs)[ExpiredMiss]
    && n.healed == multiset(vs)[HealedMiss]
    && n.exact + n.expired + n.healed + multiset(vs)[Missed] == |vs|
  }

  lemma ReadsNext(n: Counters, m: Counters, vs: seq<Verdict>, v: Verdict)
    requires Reads(n, vs) && Counted(n, m, v)
    ensures Reads(m, vs + [v])
  {
  }

  /** What the last event of a replay does to the counters. */
  lemma SweepLast(p: Params, r: Replay, events: seq<Event>)
    requires events != []
    ensures var n := |events| - 1; var b, t := Sweep(p, r, events[..n]), Sweep(p, r, events).ledger;
            var v := VerdictOn(p, b, events[n]);
            && Verdicts(p, r, events) == Verdicts(p, r, events[..n]) + [v]
            && Counted(b.ledger.counters, t.counters, v)
            && TracksMiss(b.ledger, t, events[n], v)
  {
    hide VerdictOn, Answer, StoreAfter;
    var n := |events| - 1;
    var b := Sweep(p, r, events[..n]);
    AnswerCounts(p, Tick(p, b.ledger), events[n], VerdictOn(p, b, events[n]));
    AnswerTracksMisses(p, Tick(p, b.ledger), events[n], VerdictOn(p, b, events[n]));
  }

  /** Each counter is the number of verdicts of its kind, and the verdicts cover the events. */
  lemma {:induction false} CountersCountVerdicts(p: Params, r: Replay, events: seq<Event>)
    requires r.ledger.counters == Counters(0, 0, 0, 0, 0)
    ensures Reads(Sweep(p, r, events).ledger.counters, Verdicts(p, r, events))
    decreases |events|
  {
    if events != [] {
      hide Sweep, Verdicts, VerdictOn, Reads, Counted;
      var n := |events| - 1;
      CountersCountVerdicts(p, r, events[..n]);
      SweepLast(p, r, events);
      var b := Sweep(p, r, events[..n]);
      ReadsNext(b.ledger.counters, Sweep(p, r, events).ledger.counters, Verdicts(p, r, events[..n]),
          VerdictOn(p, b, events[n]));
    }
  }

  /** The clusters that a lookup missed on, each once. */
  ghost predicate MissedClusters(clusters: set<nat>, events: seq<Event>, vs: seq<Verdict>)
    requires |events| == |vs|
  {
    forall c :: c in clusters <==> exists k :: 0 <= k < |vs| && vs[k] == Missed && events[k].cluster == c
  }

  lemma MissedNext(clusters: set<nat>, next: set<nat>, events: seq<Event>, vs: seq<Verdict>, ev: Event, v: Verdict)
    requires |events| == |vs| && MissedClusters(clusters, events, vs)
    requires next == if v == Missed then clusters + {ev.cluster} else clusters
    ensures MissedClusters(next, events + [ev], vs + [v])
  {
    forall c ensures c in next <==>
        exists k :: 0 <= k < |vs + [v]| && (vs + [v])[k] == Missed && (events + [ev])[k].cluster == c {
      if c in clusters {
        var k :| 0 <= k < |vs| && vs[k] == Missed && events[k].cluster == c;
        assert (vs + [v])[k] == Missed && (events + [ev])[k].cluster == c;
      } else if c in next {
        assert (vs + [v])[|vs|] == Missed && (events + [ev])[|vs|].cluster == c;
      }
    }
  }

  ghost predicate CeilingReads(t: Ledger, events: seq<Event>, vs: seq<Verdict>)
    requires |events| == |vs|
  {
    && t.counters.ceiling + |t.cachedClusters| == multiset(vs)[Missed]
    && MissedClusters(t.cachedClusters, events, vs)
  }

  lemma CeilingNext(a: Ledger, b: Ledger, events: seq<Event>, vs: seq<Verdict>, ev: Event, v: Verdict)
    requires |events| == |vs| && CeilingReads(a, events, vs) && TracksMiss(a, b, ev, v)
    ensures CeilingReads(b, events + [ev], vs + [v])
  {
    MissedNext(a.cachedClusters, b.cachedClusters, events, vs, ev, v);
    assert ev.cluster in a.cachedClusters ==> a.cachedClusters + {ev.cluster} == a.cachedClusters;
    assert multiset(vs + [v]) == multiset(vs) + multiset{v};
  }

  lemma NoneYet()
    ensures CeilingReads(EMPTY, [], [])
  {
  }

  /** Each miss either meets its cluster for the first time or counts toward the semantic ceiling. */
  lemma {:induction false} CeilingCountsRepeats(p: Params, r: Replay, events: seq<Event>)
    requires r.ledger == EMPTY
    ensures CeilingReads(Sweep(p, r, events).ledger, events, Verdicts(p, r, events))
    decreases |events|
  {
    hide CeilingReads, TracksMiss, VerdictOn, Advance;
    if events == [] {
      NoneYet();
    } else {
      hide Sweep, Verdicts;
      var n := |events| - 1;
      CeilingCountsRepeats(p, r, events[..n]);
      SweepLast(p, r, events);
      var b := Sweep(p, r, events[..n]);
      CeilingNext(b.ledger, Sweep(p, r, events).ledger, events[..n], Verdicts(p, r, events[..n]), events[n],
                  VerdictOn(p, b, events[n]));
      assert events == events[..n] + [events[n]];
    }
  }

  // ----- the event loop itself

  method FireDue(queue: seq<(real, nat)>, versions: map<nat, nat>, healed0: map<nat, nat>, now: real)
    returns (pending: seq<(real, nat)>, healed: map<nat, nat>)
    ensures Fired(pending, healed) == Fire(queue, versions, healed0, now)
  {
    pending, healed := queue, healed0;
    while pending != [] && pending[0].0 <= now
      invariant Fire(pending, versions, healed, now) == Fire(queue, versions, healed0, now)
      decreases |pending|
    {
      var c := pending[0].1;
      pending := pending[1..];
      healed := healed[c := Max(Version(versions, c), Version(healed, c))];
    }
  }

  lemma {:induction false} SweepPlain(p: Params, r: Replay, events: seq<Event>)
    requires Plain(r.store)
    ensures Plain(Sweep(p, r, events).store)
    decreases |events|
  {
    if events != [] {
      var n := |events| - 1;
      SweepPlain(p, r, events[..n]);
      var s := Sweep(p, r, events[..n]).store;
      InsertAddsOneKey(Get(s, events[n].query), events[n].query, events[n].response, "bench", "default", 0);
    }
  }

  /** The lookup, the verdict by the branches of the loop body, and the fetch unless it was a hit. */
  method Serve(store: CacheStores.CacheStore, p: Params, t: Ledger, ev: Event) returns (v: Verdict)
    requires Plain(store.Model())
    modifies store
    ensures v == Judge(p, t, Found(old(store.Model()), ev.query).Some?, ev)
    ensures store.Model() == StoreAfter(old(store.Model()), ev, v)
  {
    var entry := store.Get(ev.query);
    var h := HashExact(ev.query);
    if entry.None? {
      v := Missed;
    } else if p.ttl.Some? && h in t.insertTime && t.vnow - t.insertTime[h] > p.ttl.value {
      v := ExpiredMiss;
    } else if !((p.ttl.Some? || p.mutations) && h in t.insertVersion) {
      v := Hit(false);
    } else if p.delay.Some? && ev.cluster in t.healedVersion && t.insertVersion[h] < t.healedVersion[ev.cluster] {
      v := HealedMiss;
    } else {
      v := Hit(p.mutations && ev.cluster in t.clusterVersion && t.insertVersion[h] < t.clusterVersion[ev.cluster]);
    }
    if !v.Hit? {
      var _ := store.Insert(ev.query, ev.response, "bench", "default", 0);
    }
  }

  /** One event: clock, invalidations, lookup, fetch, bookkeeping. */
  method Play(store: CacheStores.CacheStore, p: Params, before: Ledger, ev: Event) returns (after: Ledger)
    requires Plain(store.Model())
    modifies store
    ensures Replay(store.Model(), after) == Advance(p, Replay(old(store.Model()), before), ev)
  {
    var now := before.vnow + p.dt;
    var pending, healed := FireDue(before.pending, before.clusterVersion, before.healedVersion, now);
    var t := before.(vnow := now, pending := pending, healedVersion := healed);
    assert t == Tick(p, before);
    ghost var r := Replay(store.Model(), before);
    var v := Serve(store, p, t, ev);
    assert v == VerdictOn(p, r, ev) && store.Model() == StoreAfter(r.store, ev, v);
    after := Answer(p, t, ev, v);
  }

  /** The replay as the loop runs it, over a store updated in place. */
  method RunSweep(events: seq<Event>, p: Params, normalize: string -> string, cacheSize: nat, maxMemory: nat)
    returns (counters: Counters)
    ensures counters == Sweep(p, Start(normalize, cacheSize, maxMemory), events).ledger.counters
  {
    ghost var r0 := Start(normalize, cacheSize, maxMemory);
    var store := new CacheStores.CacheStore(normalize, false, cacheSize, maxMemory);
    var ledger := EMPTY;
    assert events[..0] == [];
    for i := 0 to |events|
      invariant Replay(store.Model(), ledger) == Sweep(p, r0, events[..i])
      invariant fresh(store)
    {
      assert events[..i + 1][..i] == events[..i];
      SweepPlain(p, r0, events[..i]);
      ledger := Play(store, p, ledger, events[i]);
    }
    assert events[..|events|] == events;
    counters := ledger.counters;
  }
}
