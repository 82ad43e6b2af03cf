/** Traces on which the replay's verdicts go wrong: two spellings of a key, two clusters of a query. */
module Traces {
  import opened Basics
  import opened Store
  import opened Replaying = Sweep
  import Normalize

  // ----- one key under two spellings

  /**
   Two spellings of one key: the second never fetched, so it is served an outdated entry that is
   not counted stale.
   */
  lemma SpellingsHideStaleness(normalize: string -> string, first: string, second: string, response: Response)
    requires normalize(first) == normalize(second) && first != second
    ensures var p := Params(None, 1.0, true, None);
            var events := [Event(first, 0, response, Some(0)), Event(second, 0, response, None)];
            var r0 := Start(normalize, 10, 0);
            var r, hist := Sweep(p, r0, events[..1]), Histories(p, r0, NO_HISTORY, events[..1]);
            var k := Key(normalize, second);
            && VerdictOn(p, r, events[1]) == Hit(false)
            && k in hist.last && Outdated(hist.log, hist.last[k])
  {
    var p, r0 := Params(None, 1.0, true, None), Start(normalize, 10, 0);
    var ev, ev2 := Event(first, 0, response, Some(0)), Event(second, 0, response, None);
    var events := [ev, ev2];
    assert events[..1] == [ev] && [ev][..0] == [];
    assert Sweep(p, r0, []) == r0 && Histories(p, r0, NO_HISTORY, []) == NO_HISTORY;
    assert Sweep(p, r0, [ev]) == Advance(p, r0, ev);
    assert Histories(p, r0, NO_HISTORY, [ev]) == Record(p, r0, NO_HISTORY, ev);
    assert VerdictOn(p, r0, ev) == Missed;
    FirstFetchLives(r0.store, ev);
    var hist := Record(p, r0, NO_HISTORY, ev);
    assert hist.log == [(1.0, 0)];
    assert Supersedes(hist.log, hist.last[Key(normalize, second)], 0);
  }

  /** Such spellings exist under the normalizer itself: with and without a leading space. */
  lemma RealSpellingsHideStaleness(lower: string -> string, response: Response)
    requires Normalize.LowersWords(lower)
    ensures var p := Params(None, 1.0, true, None);
            var events := [Event("login", 0, response, Some(0)), Event(" login", 0, response, None)];
            var r0 := Start(q => Normalize.Normal(lower, q), 10, 0);
            var r, hist := Sweep(p, r0, events[..1]), Histories(p, r0, NO_HISTORY, events[..1]);
            var k := Key(q => Normalize.Normal(lower, q), " login");
            VerdictOn(p, r, events[1]) == Hit(false) && k in hist.last && Outdated(hist.log, hist.last[k])
  {
    hide Sweep, Histories, VerdictOn, Outdated;
    assert Normalize.TrimStart(" login") == Normalize.TrimStart("login") by {
      assert " login"[1..] == "login";
    }
    SpellingsHideStaleness(q => Normalize.Normal(lower, q), "login", " login", response);
  }

  lemma FirstFetchLives(s: Store, ev: Event)
    requires s.entries == map[] && s.small == [] && s.main == [] && s.ghosts == Ghosts([], {}) && s.maxMemory == 0
    requires Plain(s) && Capacity(s.cfg) == 10
    ensures var t := StoreAfter(s, ev, Missed); HashQuery(s.cfg, ev.query) in t.entries && t.cfg == s.cfg && Plain(t)
  {
    var h, e := HashQuery(s.cfg, ev.query), NewEntry(ev.response, "bench", "default", Some(ev.query), 0);
    assert Get(s, ev.query) == s;
    var w := Enqueue(Stored(s, h, e, Some(HashExact(ev.query))), h);
    assert EvictWhile(w, Count) == Drained(w, 0, 0);
  }

  // ----- one query under two clusters

  const AT_ONCE := Params(None, 1.0, true, Some(0.0))

  /** The parts of the ledger that decide the verdicts on one query. */
  ghost predicate LedgerIs(t: Ledger, vnow: real, x: QueryHash, stamp: nat, versions: map<nat, nat>,
                           healed: map<nat, nat>, pending: seq<(real, nat)>, seen: seq<nat>) {
    && t.vnow == vnow && t.insertVersion == map[x := stamp] && t.clusterVersion == versions
    && t.healedVersion == healed && t.pending == pending && t.seen == seen
  }

  ghost function Ahead(t: Ledger, ev: Event, found: bool): Ledger {
    var u := Tick(AT_ONCE, t);
    Answer(AT_ONCE, u, ev, Judge(AT_ONCE, u, found, ev))
  }

  ghost function VerdictAhead(t: Ledger, ev: Event, found: bool): Verdict {
    Judge(AT_ONCE, Tick(AT_ONCE, t), found, ev)
  }

  lemma FireOne(at: real, c: nat, versions: map<nat, nat>, healed: map<nat, nat>, now: real)
    requires at <= now
    ensures Fire([(at, c)], versions, healed, now) ==
            Fired([], healed[c := Max(Version(versions, c), Version(healed, c))])
  {
    var next := healed[c := Max(Version(versions, c), Version(healed, c))];
    assert [(at, c)][1..] == [];
    assert Fire([], versions, next, now) == Fired([], next);
  }

  /** Two mutations of cluster 3 fire, then one of cluster 2, all while the query's stamp stays at zero. */
  lemma TwoClustersStart(query: string, response: Response, x: QueryHash)
    requires x == HashExact(query)
    ensures LedgerIs(Ahead(EMPTY, Event(query, 3, response, Some(0)), false),
                     1.0, x, 0, map[3 := 1], map[], [(1.0, 3)], [3])
  {
    assert Fire([], map[], map[], 1.0) == Fired([], map[]);
    assert [] + [3] == [3];
  }

  lemma TwoClustersSecond(t: Ledger, query: string, response: Response, x: QueryHash)
    requires x == HashExact(query) && LedgerIs(t, 1.0, x, 0, map[3 := 1], map[], [(1.0, 3)], [3])
    ensures LedgerIs(Ahead(t, Event(query, 2, response, Some(0)), true),
                     2.0, x, 0, map[3 := 2], map[3 := 1], [(2.0, 3)], [3, 2])
  {
    FireOne(1.0, 3, map[3 := 1], map[], 2.0);
    hide Fire;
    assert [3] + [2] == [3, 2];
  }

  lemma TwoClustersThird(t: Ledger, query: string, response: Response, x: QueryHash)
    requires x == HashExact(query) && LedgerIs(t, 2.0, x, 0, map[3 := 2], map[3 := 1], [(2.0, 3)], [3, 2])
    ensures LedgerIs(Ahead(t, Event(query, 2, response, Some(1)), true),
                     3.0, x, 0, map[3 := 2, 2 := 1], map[3 := 2], [(3.0, 2)], [3, 2, 2])
  {
    hide Fire;
    FireOne(2.0, 3, map[3 := 2], map[3 := 1], 3.0);
    assert [3, 2] + [2] == [3, 2, 2] && [3, 2, 2][1 % 3] == 2;
  }

  lemma TwoClustersHealed(t: Ledger, query: string, response: Response, x: QueryHash)
    requires x == HashExact(query) && LedgerIs(t, 3.0, x, 0, map[3 := 2, 2 := 1], map[3 := 2], [(3.0, 2)], [3, 2, 2])
    ensures VerdictAhead(t, Event(query, 2, response, None), true) == HealedMiss
    ensures LedgerIs(Ahead(t, Event(query, 2, response, None), true),
                     4.0, x, 1, map[3 := 2, 2 := 1], map[3 := 2, 2 := 1], [], [3, 2, 2, 2])
  {
    FireOne(3.0, 2, map[3 := 2, 2 := 1], map[3 := 2], 4.0);
    hide Fire;
    assert [3, 2, 2] + [2] == [3, 2, 2, 2];
  }

  lemma TwoClustersHealedAgain(t: Ledger, query: string, response: Response, x: QueryHash)
    requires x == HashExact(query)
    requires LedgerIs(t, 4.0, x, 1, map[3 := 2, 2 := 1], map[3 := 2, 2 := 1], [], [3, 2, 2, 2])
    ensures VerdictAhead(t, Event(query, 3, response, None), true) == HealedMiss
  {
  }

  /** A live key stays live under lookups and refetches of its own query. */
  lemma KeyStaysLive(s: Store, ev: Event, v: Verdict)
    requires Plain(s) && HashQuery(s.cfg, ev.query) in s.entries
    ensures var t := StoreAfter(s, ev, v); HashQuery(t.cfg, ev.query) in t.entries && t.cfg == s.cfg && Plain(t)
  {
  }

  ghost predicate Live(r: Replay, query: string) {
    Plain(r.store) && HashQuery(r.store.cfg, query) in r.store.entries
  }

  lemma LiveAdvances(r: Replay, ev: Event)
    requires Live(r, ev.query)
    ensures var a := Advance(AT_ONCE, r, ev);
            Live(a, ev.query) && a.ledger == Ahead(r.ledger, ev, true) &&
                VerdictOn(AT_ONCE, r, ev) == VerdictAhead(r.ledger, ev, true)
  {
    hide Tick, Judge, Answer, StoreAfter;
    KeyStaysLive(r.store, ev, VerdictOn(AT_ONCE, r, ev));
  }

  lemma FirstAdvance(normalize: string -> string, ev: Event)
    ensures var r0 := Start(normalize, 10, 0);
            Live(Advance(AT_ONCE, r0, ev), ev.query) && Advance(AT_ONCE, r0, ev).ledger == Ahead(EMPTY, ev, false)
  {
    var r0 := Start(normalize, 10, 0);
    assert VerdictOn(AT_ONCE, r0, ev) == Missed;
    FirstFetchLives(r0.store, ev);
  }

  lemma SweepNext(p: Params, r: Replay, events: seq<Event>, ev: Event)
    ensures Sweep(p, r, events + [ev]) == Advance(p, Sweep(p, r, events), ev)
    ensures Histories(p, r, NO_HISTORY, events + [ev]) ==
            Record(p, Sweep(p, r, events), Histories(p, r, NO_HISTORY, events), ev)
  {
    hide Advance, Record;
    assert (events + [ev])[..|events|] == events;
  }

  lemma UndrawnLeavesLog(p: Params, r: Replay, hist: History, ev: Event)
    requires ev.draw == None
    ensures Record(p, r, hist, ev).log == hist.log
  {
    FiresKeepsFetches(p, hist, Tick(p, r.ledger).vnow);
    hide Tick, VerdictOn, Fires;
  }

  /** Under two clusters one query can be healed twice with no mutation in between. */
  lemma TwoClustersHealTwice(normalize: string -> string, query: string, response: Response)
    ensures var past := [Event(query, 3, response, Some(0))] + [Event(query, 2, response, Some(0))]
                        + [Event(query, 2, response, Some(1))];
            var healed, again := Event(query, 2, response, None), Event(query, 3, response, None);
            var r0 := Start(normalize, 10, 0);
            && VerdictOn(AT_ONCE, Sweep(AT_ONCE, r0, past), healed) == HealedMiss
            && VerdictOn(AT_ONCE, Sweep(AT_ONCE, r0, past + [healed]), again) == HealedMiss
            && Histories(AT_ONCE, r0, NO_HISTORY, past + [healed]).log == Histories(AT_ONCE, r0, NO_HISTORY, past).log
  {
    hide Sweep, Histories, Advance, Ahead, VerdictAhead, Live, LedgerIs, VerdictOn, Start, Record;
    var r0, x := Start(normalize, 10, 0), HashExact(query);
    var e0, e1 := Event(query, 3, response, Some(0)), Event(query, 2, response, Some(0));
    var e2, e3, e4 := Event(query, 2, response, Some(1)), Event(query, 2, response, None),
        Event(query, 3, response, None);
    var one := [e0];
    var two := one + [e1];
    var three := two + [e2];
    SweepNone(AT_ONCE, r0);
    SweepNext(AT_ONCE, r0, [], e0);
    assert [] + [e0] == one;
    var r1 := Sweep(AT_ONCE, r0, one);
    FirstAdvance(normalize, e0);
    TwoClustersStart(query, response, x);
    SweepNext(AT_ONCE, r0, one, e1);
    var r2 := Sweep(AT_ONCE, r0, two);
    LiveAdvances(r1, e1);
    TwoClustersSecond(r1.ledger, query, response, x);
    SweepNext(AT_ONCE, r0, two, e2);
    var r3 := Sweep(AT_ONCE, r0, three);
    LiveAdvances(r2, e2);
    TwoClustersThird(r2.ledger, query, response, x);
    SweepNext(AT_ONCE, r0, three, e3);
    LiveAdvances(r3, e3);
    TwoClustersHealed(r3.ledger, query, response, x);
    var r4 := Sweep(AT_ONCE, r0, three + [e3]);
    LiveAdvances(r4, e4);
    TwoClustersHealedAgain(r4.ledger, query, response, x);
    UndrawnLeavesLog(AT_ONCE, r3, Histories(AT_ONCE, r0, NO_HISTORY, three), e3);
  }

  lemma SweepNone(p: Params, r: Replay)
    ensures Sweep(p, r, []) == r
  {
  }
}
