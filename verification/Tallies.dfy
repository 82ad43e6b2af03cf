/** What a replay counts, when, which clusters it mutates, and what its store serves. */
module Tallies {
  import opened Basics
  import opened Store
  import opened Enforcement
  import opened Documents
  import opened Replaying = Sweep

  lemma LedgerLast(p: Params, r: Replay, events: seq<Event>)
    requires events != []
    ensures var n := |events| - 1; var b := Sweep(p, r, events[..n]);
            Sweep(p, r, events).ledger == Answer(p, Tick(p, b.ledger), events[n], VerdictOn(p, b, events[n]))
  {
    hide Answer, Tick, VerdictOn, StoreAfter;
  }

  lemma NoEvents(p: Params, r: Replay)
    ensures Sweep(p, r, []) == r
  {
  }

  // ----- the clock

  lemma TickIs(p: Params, t: Ledger)
    ensures Tick(p, t).vnow == t.vnow + p.dt && Tick(p, t).seen == t.seen
  {
  }

  lemma OneStepMore(n: nat, dt: real)
    ensures n as real * dt + dt == (n + 1) as real * dt
  {
  }

  lemma AnswerKeepsClock(p: Params, t: Ledger, ev: Event, v: Verdict)
    ensures Answer(p, t, ev, v).vnow == t.vnow
  {
  }

  /** Event i happens at (i + 1) times the step. */
  lemma {:induction false} ClockCountsEvents(p: Params, r: Replay, events: seq<Event>)
    requires r.ledger.vnow == 0.0
    ensures Sweep(p, r, events).ledger.vnow == |events| as real * p.dt
    ensures Tick(p, Sweep(p, r, events).ledger).vnow == (|events| + 1) as real * p.dt
    decreases |events|
  {
    hide Sweep, Answer, VerdictOn, Tick;
    TickIs(p, Sweep(p, r, events).ledger);
    OneStepMore(|events|, p.dt);
    if events == [] {
      NoEvents(p, r);
    } else {
      var n := |events| - 1;
      ClockCountsEvents(p, r, events[..n]);
      LedgerLast(p, r, events);
      var b := Sweep(p, r, events[..n]);
      AnswerKeepsClock(p, Tick(p, b.ledger), events[n], VerdictOn(p, b, events[n]));
    }
  }

  // ----- lookups that find something

  ghost predicate KeyLive(r: Replay, ev: Event) {
    HashQuery(r.store.cfg, ev.query) in r.store.entries
  }

  /** The events whose key was in the store when they came. */
  ghost function FoundAt(p: Params, r: Replay, events: seq<Event>): set<nat> {
    Where(|events|, (i: nat) => i < |events| && KeyLive(Sweep(p, r, events[..i]), events[i]))
  }

  lemma OneMoreFound(p: Params, r: Replay, events: seq<Event>)
    requires events != []
    ensures var n := |events| - 1;
            |FoundAt(p, r, events)| ==
            |FoundAt(p, r, events[..n])| + (if KeyLive(Sweep(p, r, events[..n]), events[n]) then 1 else 0)
  {
    hide Sweep;
    var n := |events| - 1;
    var here := (i: nat) => i < |events| && KeyLive(Sweep(p, r, events[..i]), events[i]);
    var before := (i: nat) => i < n && KeyLive(Sweep(p, r, events[..n][..i]), events[..n][i]);
    WhereNext(n, here);
    forall i: nat | i < n ensures here(i) == before(i) {
      assert events[..n][..i] == events[..i];
    }
    WhereSame(n, here, before);
  }

  lemma VerdictCounts(p: Params, r: Replay, ev: Event)
    requires Plain(r.store)
    ensures VerdictOn(p, r, ev) == Missed <==> !KeyLive(r, ev)
  {
    hide Tick;
    FoundIsNotMissed(p, Tick(p, r.ledger), ev, Found(r.store, ev.query).Some?);
  }

  /** Hits, expired misses and healed misses together are the lookups that found their key; the rest missed. */
  lemma {:induction false} CountersCountFound(p: Params, r: Replay, events: seq<Event>)
    requires Plain(r.store) && r.ledger.counters == Counters(0, 0, 0, 0, 0)
    ensures var n := Sweep(p, r, events).ledger.counters;
            n.exact + n.expired + n.healed == |FoundAt(p, r, events)|
    decreases |events|
  {
    if events == [] {
      assert FoundAt(p, r, events) == {};
    } else {
      hide FoundAt, VerdictOn, KeyLive, Sweep, Verdicts;
      var n := |events| - 1;
      CountersCountFound(p, r, events[..n]);
      OneMoreFound(p, r, events);
      SweepPlain(p, r, events[..n]);
      VerdictCounts(p, Sweep(p, r, events[..n]), events[n]);
      SweepLast(p, r, events);
    }
  }

  // ----- which cluster mutates

  ghost function Clusters(events: seq<Event>): seq<nat> {
    seq(|events|, i requires 0 <= i < |events| => events[i].cluster)
  }

  lemma AnswerSees(p: Params, t: Ledger, ev: Event, v: Verdict)
    ensures Answer(p, t, ev, v).seen == if p.mutations then t.seen + [ev.cluster] else t.seen
  {
  }

  lemma {:induction false} SeenIsTheTrace(p: Params, r: Replay, events: seq<Event>)
    requires p.mutations && r.ledger.seen == []
    ensures Sweep(p, r, events).ledger.seen == Clusters(events)
    decreases |events|
  {
    hide Sweep, Answer, VerdictOn, Tick;
    if events == [] {
      NoEvents(p, r);
    } else {
      var n := |events| - 1;
      SeenIsTheTrace(p, r, events[..n]);
      LedgerLast(p, r, events);
      var b := Sweep(p, r, events[..n]);
      TickIs(p, b.ledger);
      AnswerSees(p, Tick(p, b.ledger), events[n], VerdictOn(p, b, events[n]));
      assert Clusters(events) == Clusters(events[..n]) + [events[n].cluster];
    }
  }

  /**
   The cluster an event mutates is that of an earlier event or its own, picked by the draw among all
   events so far, each counted as often as it came; without a draw, or with mutations off, none.
   */
  lemma MutationPicksFromTrace(p: Params, r: Replay, events: seq<Event>, i: nat)
    requires i < |events| && r.ledger.seen == []
    ensures var c := Mutated(p, Tick(p, Sweep(p, r, events[..i]).ledger), events[i]);
            && (c.Some? <==> p.mutations && events[i].draw.Some?)
            && (c.Some? ==> c.value == events[events[i].draw.value % (i + 1)].cluster)
  {
    hide Sweep, Tick;
    if p.mutations && events[i].draw.Some? {
      SeenIsTheTrace(p, r, events[..i]);
      var t := Tick(p, Sweep(p, r, events[..i]).ledger);
      TickIs(p, Sweep(p, r, events[..i]).ledger);
      assert t.seen == Clusters(events[..i]);
      var j := events[i].draw.value % (i + 1);
      assert (t.seen + [events[i].cluster])[j] == events[j].cluster;
    }
  }

  // ----- the store's own run

  /** What an event asks of the store: a lookup, and an insertion unless the verdict is a hit. */
  ghost function Asks(ev: Event, v: Verdict): seq<Op> {
    [OpGet(ev.query)] + (if v.Hit? then [] else [OpInsert(ev.query, ev.response, "bench", "default", 0, [])])
  }

  ghost function AllAsked(p: Params, r: Replay, events: seq<Event>): seq<Op> {
    if events == [] then []
    else
      var n := |events| - 1;
      AllAsked(p, r, events[..n]) + Asks(events[n], VerdictOn(p, Sweep(p, r, events[..n]), events[n]))
  }

  lemma AsksStep(s: Store, ops: seq<Op>, ev: Event, v: Verdict)
    ensures Run(s, ops + Asks(ev, v)) == StoreAfter(Run(s, ops), ev, v)
  {
    hide Run, Get, Insert;
    var get, put := OpGet(ev.query), OpInsert(ev.query, ev.response, "bench", "default", 0, []);
    RunAppend(s, ops, get);
    RunAppend(s, ops + [get], put);
    assert [get] + [] == [get];
    assert ops + ([get] + [put]) == ops + [get] + [put];
  }

  lemma StoreLast(p: Params, r: Replay, events: seq<Event>)
    requires events != []
    ensures var n := |events| - 1; var b := Sweep(p, r, events[..n]);
            Sweep(p, r, events).store == StoreAfter(b.store, events[n], VerdictOn(p, b, events[n]))
  {
    hide Answer, Tick, VerdictOn, StoreAfter;
  }

  /** The store of a replay is that of a run: one lookup per event, and one insertion unless it was a hit. */
  lemma {:induction false} ReplayIsRun(p: Params, r: Replay, events: seq<Event>)
    ensures Sweep(p, r, events).store == Run(r.store, AllAsked(p, r, events))
    decreases |events|
  {
    hide Sweep, VerdictOn, StoreAfter, Asks;
    if events == [] {
      NoEvents(p, r);
    } else {
      hide Run;
      var n := |events| - 1;
      var v := VerdictOn(p, Sweep(p, r, events[..n]), events[n]);
      ReplayIsRun(p, r, events[..n]);
      StoreLast(p, r, events);
      AsksStep(r.store, AllAsked(p, r, events[..n]), events[n], v);
    }
  }

  // ----- what the store serves

  /** After an event the key of a fetch holds its response; every other entry is as it was. */
  lemma StoreAfterServes(s: Store, ev: Event, v: Verdict, k: QueryHash)
    requires Plain(s) && k in StoreAfter(s, ev, v).entries
    ensures var e := StoreAfter(s, ev, v).entries[k];
            if !v.Hit? && k == Key(s.cfg.normalize, ev.query)
            then e.body == ev.response.body && e.size == ev.response.size && e.upstream == "bench"
            else k in s.entries && DocumentOf(e) == DocumentOf(s.entries[k])
  {
    if !v.Hit? {
      var g, h := Get(s, ev.query), HashQuery(s.cfg, ev.query);
      var e := NewEntry(ev.response, "bench", "default", Some(ev.query), 0);
      assert g.perUpstreamLimit == None && g.cfg == s.cfg;
      AdmitThins(Stored(g, h, e, Some(HashExact(ev.query))), h);
      hide Admit;
    }
  }

  ghost predicate Serves(e: Entries, hist: History) {
    forall k :: k in e ==>
      k in hist.last && e[k].body == hist.last[k].response.body && e[k].size == hist.last[k].response.size
  }

  lemma AdvanceServes(p: Params, r: Replay, hist: History, ev: Event)
    requires Plain(r.store) && Serves(r.store.entries, hist)
    ensures Serves(Advance(p, r, ev).store.entries, Record(p, r, hist, ev))
  {
    var v, t := VerdictOn(p, r, ev), StoreAfter(r.store, ev, VerdictOn(p, r, ev));
    FiresKeepsFetches(p, hist, Tick(p, r.ledger).vnow);
    hide Tick, VerdictOn, StoreAfter, Mutated, Fires;
    forall k | k in t.entries
      ensures var last := Record(p, r, hist, ev).last;
              k in last && t.entries[k].body == last[k].response.body && t.entries[k].size == last[k].response.size
    {
      StoreAfterServes(r.store, ev, v, k);
    }
  }

  /** On every replay the store serves, for each key it holds, the response of that key's last fetch. */
  lemma {:induction false} StoreServesLastFetch(p: Params, normalize: string -> string, cacheSize: nat, maxMemory: nat,
                                                events: seq<Event>)
    ensures var r0 := Start(normalize, cacheSize, maxMemory);
            Serves(Sweep(p, r0, events).store.entries, Histories(p, r0, NO_HISTORY, events))
    decreases |events|
  {
    if events != [] {
      hide Advance, Record, Serves;
      var r0, n := Start(normalize, cacheSize, maxMemory), |events| - 1;
      StoreServesLastFetch(p, normalize, cacheSize, maxMemory, events[..n]);
      SweepPlain(p, r0, events[..n]);
      AdvanceServes(p, Sweep(p, r0, events[..n]), Histories(p, r0, NO_HISTORY, events[..n]), events[n]);
    }
  }
}
