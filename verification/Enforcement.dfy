/** Enforcing a lowered memory cap: when one call is enough, and that two always are. */
module Enforcement {
  import opened Basics
  import opened Store
  import opened Eviction
  import opened Invariants
  import opened Residue

  /** The loop ends under the cap, or at a scan that evicted nothing and so cooled everything. */
  lemma {:induction false} LoopEndsUnderOrCold(s: Store)
    requires Sound(s)
    ensures var t := EvictWhile(s, Memory).store; t.bytes <= t.maxMemory || AllCold(t)
    decreases Nodes(s)
  {
    hide EvictOne;
    if Over(s, Memory) {
      EvictOneKeeps(s);
      if EvictOne(s).source.None? {
        NothingEvictedLeavesCold(s);
      } else {
        LoopEndsUnderOrCold(EvictOne(s).store);
      }
    }
  }

  lemma AllColdStep(s: Store)
    requires AllCold(s) && s.main != []
    ensures EvictOne(s).source == Some(Main) && AllCold(EvictOne(s).store)
  {
    assert s.main[0] in s.main;
    assert s.small[..0] == [] && s.main[..0] == [];
    assert StopsAt(s.entries, s.main, 0);
    assert ScanSmall(s.entries, s.small, s.main) == Outcome(Cool(s.entries, []), [], s.main, None, None, [], 0);
    assert Cool(s.entries, []) == s.entries;
    var t := EvictOne(s).store;
    assert t.main == s.main[1..] + [] == s.main[1..];
    assert t.entries == s.entries - {s.main[0]};
  }

  lemma {:induction false} AllColdDrains(s: Store)
    requires Sound(s) && AllCold(s)
    ensures EvictWhile(s, Memory).store.bytes <= s.maxMemory
    decreases Nodes(s)
  {
    if Over(s, Memory) {
      assert s.main != [] by {
        assert s.entries == map[] ==> Sizes(s.entries) == map[];
        assert s.main == [] ==> s.entries == map[];
      }
      EvictOneKeeps(s);
      AllColdStep(s);
      AllColdDrains(EvictOne(s).store);
    }
  }

  /** One call may stop short of the cap; the call after it cannot. */
  lemma EnforcingTwiceSuffices(s: Store)
    requires Inv(s) && 0 < s.maxMemory
    ensures EnforceMemory(EnforceMemory(s)).bytes <= s.maxMemory
  {
    var t := EnforceMemory(s);
    EvictWhileKeeps(s, Memory);
    EnforceKeeps(s);
    LoopEndsUnderOrCold(s);
    if t.bytes > t.maxMemory {
      AllColdDrains(t);
    }
  }

  // ----- exactly when one call is not enough

  ghost function SizesOf(e: Entries, rest: set<QueryHash>): map<QueryHash, nat> {
    map h | h in e && h in rest :: e[h].size
  }

  /** Draining strands `rest`, and `rest` alone exceeds the cap. */
  ghost predicate Overfull(s: Store, rest: set<QueryHash>) {
    Strands(s.entries, s.small, s.main, rest) && Total(SizesOf(s.entries, rest)) > s.maxMemory
  }

  lemma StrandedAreLive(e: Entries, small: seq<QueryHash>, main: seq<QueryHash>, rest: set<QueryHash>)
    requires Strands(e, small, main, rest)
    ensures rest <= e.Keys
  {
    var p :| Cut(e, small + main, |small|, p, rest);
    forall h | h in rest ensures h in e { assert CutAt(e, small + main, |small|, p, rest, h); }
  }

  /** An eviction changes nothing about whether and how the loop will end above the cap. */
  lemma OverfullStep(s: Store, rest: set<QueryHash>)
    requires Sound(s) && EvictOne(s).source.Some?
    ensures Overfull(s, rest) <==> Overfull(EvictOne(s).store, rest)
  {
    hide EvictOne, Strands;
    var t := EvictOne(s).store;
    EvictionKeepsStranded(s, rest);
    EvictOneKeeps(s);
    if Strands(t.entries, t.small, t.main, rest) {
      StrandedAreLive(t.entries, t.small, t.main, rest);
      assert SizesOf(t.entries, rest) == SizesOf(s.entries, rest);
    }
  }

  lemma FitsIsNotOverfull(s: Store, rest: set<QueryHash>)
    requires BytesExact(s) && s.bytes <= s.maxMemory
    ensures !Overfull(s, rest)
  {
    TotalRestrict(Sizes(s.entries), SizesOf(s.entries, rest));
  }

  lemma NothingTakenIsOverfull(s: Store, rest: set<QueryHash>)
    requires Sound(s) && s.bytes > s.maxMemory && EvictOne(s).source.None?
    ensures Overfull(s, rest) <==> rest == s.entries.Keys
    ensures EvictOne(s).store.bytes == s.bytes && EvictOne(s).store.entries.Keys == s.entries.Keys
  {
    EvictsNothingIff(s);
    ScanShrinks(s.entries, s.small, s.main);
    NothingTakenStrandsAll(s.entries, s.small, s.main, rest);
    hide Scan, Strands;
    assert SizesOf(s.entries, s.entries.Keys) == Sizes(s.entries);
    assert s.entries.Keys == {} ==> Sizes(s.entries) == map[];
  }

  /** The loop ends above the cap iff it strands more than the cap, and what it strands is then all that is left. */
  lemma {:induction false} LoopEndsOverIff(s: Store)
    requires Sound(s)
    ensures EvictWhile(s, Memory).store.bytes > s.maxMemory <==> exists rest :: Overfull(s, rest)
    ensures forall rest :: Overfull(s, rest) ==> EvictWhile(s, Memory).store.entries.Keys == rest
    decreases Nodes(s)
  {
    hide EvictOne, Overfull, Sound;
    if !Over(s, Memory) {
      forall rest ensures !Overfull(s, rest) { NowFits(s, rest); }
    } else if EvictOne(s).source.Some? {
      var t := EvictOne(s).store;
      EvictOneKeeps(s);
      forall rest ensures Overfull(s, rest) <==> Overfull(t, rest) { OverfullStep(s, rest); }
      LoopEndsOverIff(t);
    } else {
      forall rest ensures Overfull(s, rest) <==> rest == s.entries.Keys { NothingTakenIsOverfull(s, rest); }
      NothingTakenIsOverfull(s, {});
      assert Overfull(s, s.entries.Keys);
    }
  }

  lemma NowFits(s: Store, rest: set<QueryHash>)
    requires Sound(s) && !Over(s, Memory)
    ensures !Overfull(s, rest)
  {
    FitsIsNotOverfull(s, rest);
  }

  /**
   `enforce_memory_limit` fails to reach its cap in exactly these states, whatever
   stale and repeated nodes they hold: the nodes can be cut so that every live hash
   before the cut is cold or repeated there, every other one is hot with a single
   node, in Main, and those others alone exceed the cap. They are what it leaves.
   */
  lemma EnforcementFallsShortIff(s: Store)
    requires Inv(s) && 0 < s.maxMemory
    ensures EnforceMemory(s).bytes > s.maxMemory <==> exists rest :: Overfull(s, rest)
    ensures forall rest :: Overfull(s, rest) ==> EnforceMemory(s).entries.Keys == rest
  {
    LoopEndsOverIff(s);
  }

  // ----- the same with one node per live hash

  /** Every live hash has at most one node. */
  ghost predicate OneNode(e: Entries, small: seq<QueryHash>, main: seq<QueryHash>) {
    forall h :: h in e ==> multiset(small + main)[h] <= 1
  }

  /** Small holds nothing hot, and no cold Main node stands behind a hot one. */
  ghost predicate Stuck(e: Entries, small: seq<QueryHash>, main: seq<QueryHash>) {
    && (forall h :: h in small && h in e ==> e[h].freq == 0)
    && (forall i, j :: 0 <= i < j < |main| && main[i] in e && main[j] in e && e[main[i]].freq > 0 ==>
         e[main[j]].freq > 0)
  }

  ghost function HotKeys(e: Entries): set<QueryHash> {
    set h | h in e && e[h].freq > 0
  }

  lemma TwiceCounts(q: seq<QueryHash>, i: nat, j: nat)
    requires i < j < |q|
    ensures q[i] == q[j] ==> multiset(q)[q[i]] >= 2
  {
    MultisetSplit(q, i);
    assert q[i + 1..][j - i - 1] == q[j];
    assert q[j] in multiset(q[i + 1..]);
  }

  /** A hash with one node is on one side of a cut. */
  lemma OneSide(q: seq<QueryHash>, p: nat, j: nat)
    requires p <= |q| && j < |q| && multiset(q)[q[j]] <= 1
    ensures q[j] in q[..p] <==> j < p
  {
    assert q == q[..p] + q[p..];
    assert q[j] in q[..p] <==> multiset(q[..p])[q[j]] > 0;
    if j < p {
      assert q[..p][j] == q[j];
    } else {
      assert q[p..][j - p] == q[j];
      assert q[j] in multiset(q[p..]);
    }
  }

  /** With one node each, only the hot entries can be stranded. */
  lemma StrandedAreHot(e: Entries, small: seq<QueryHash>, main: seq<QueryHash>, p: nat, rest: set<QueryHash>)
    requires OneNode(e, small, main) && Cut(e, small + main, |small|, p, rest)
    ensures rest == HotKeys(e)
  {
    var q := small + main;
    forall h ensures h in rest <==> h in HotKeys(e) {
      assert CutAt(e, q, |small|, p, rest, h);
      assert q == q[..p] + q[p..];
    }
  }

  lemma StrandedAreStuck(e: Entries, small: seq<QueryHash>, main: seq<QueryHash>, p: nat)
    requires OneNode(e, small, main) && Cut(e, small + main, |small|, p, HotKeys(e))
    ensures Stuck(e, small, main)
  {
    var q, k := small + main, |small|;
    assert q[..k] == small;
    forall h | h in small && h in e ensures e[h].freq == 0 { assert CutAt(e, q, k, p, HotKeys(e), h); }
    forall i, j | 0 <= i < j < |main| && main[i] in e && main[j] in e && e[main[i]].freq > 0
      ensures e[main[j]].freq > 0
    {
      assert q[k + i] == main[i] && q[k + j] == main[j];
      assert CutAt(e, q, k, p, HotKeys(e), main[i]) && CutAt(e, q, k, p, HotKeys(e), main[j]);
      OneSide(q, p, k + i);
      OneSide(q, p, k + j);
    }
  }

  /** The cut falls at the first hot node of Main. */
  lemma {:induction false} FirstHot(e: Entries, main: seq<QueryHash>) returns (m: nat)
    ensures m <= |main| && (m < |main| ==> main[m] in e && e[main[m]].freq > 0)
    ensures forall j :: 0 <= j < m && main[j] in e ==> e[main[j]].freq == 0
  {
    if main == [] {
      m := 0;
    } else {
      m := FirstHot(e, main[..|main| - 1]);
      if m == |main| - 1 && !(main[m] in e && e[main[m]].freq > 0) {
        m := |main|;
      }
    }
  }

  lemma StuckAreStranded(e: Entries, small: seq<QueryHash>, main: seq<QueryHash>) returns (p: nat)
    requires CoveredBy(e, small, main) && OneNode(e, small, main) && Stuck(e, small, main)
    ensures Cut(e, small + main, |small|, p, HotKeys(e))
  {
    var q, k := small + main, |small|;
    var m := FirstHot(e, main);
    p := k + m;
    forall h ensures CutAt(e, q, k, p, HotKeys(e), h) {
      if h in e {
        StuckCutAt(e, small, main, m, h);
      }
    }
  }

  lemma CoveredIs(e: Entries, small: seq<QueryHash>, main: seq<QueryHash>, h: QueryHash)
    requires CoveredBy(e, small, main) && h in e
    ensures h in small || h in main
  {
  }

  lemma PastCut(q: seq<QueryHash>, k: nat, p: nat, h: QueryHash)
    requires k <= p <= |q| && h in q && h !in q[..p]
    ensures h !in q[..k] && h in q[p..] && multiset(q)[h] > 0
  {
    assert q == q[..p] + q[p..] && q[..p] == q[..k] + q[k..p];
  }

  lemma StuckBeforeCut(e: Entries, small: seq<QueryHash>, main: seq<QueryHash>, m: nat, h: QueryHash)
    requires Stuck(e, small, main) && h in e && m <= |main| && (h in small || h in main[..m])
    requires forall j :: 0 <= j < m && main[j] in e ==> e[main[j]].freq == 0
    ensures e[h].freq == 0
  {
  }

  lemma StuckAfterCut(e: Entries, small: seq<QueryHash>, main: seq<QueryHash>, m: nat, h: QueryHash)
    requires Stuck(e, small, main) && h in e && m <= |main| && h in main[m..]
    requires m < |main| ==> main[m] in e && e[main[m]].freq > 0
    ensures e[h].freq > 0
  {
    var j :| 0 <= j < |main[m..]| && main[m..][j] == h;
    assert main[m + j] == h;
  }

  lemma StuckCutAt(e: Entries, small: seq<QueryHash>, main: seq<QueryHash>, m: nat, h: QueryHash)
    requires CoveredBy(e, small, main) && OneNode(e, small, main) && Stuck(e, small, main) && h in e
    requires m <= |main| && (m < |main| ==> main[m] in e && e[main[m]].freq > 0)
    requires forall j :: 0 <= j < m && main[j] in e ==> e[main[j]].freq == 0
    ensures CutAt(e, small + main, |small|, |small| + m, HotKeys(e), h)
  {
    hide CoveredBy, Stuck;
    var q, k := small + main, |small|;
    assert q[..k + m] == small + main[..m];
    if h in q[..k + m] {
      StuckBeforeCut(e, small, main, m, h);
    } else {
      CoveredIs(e, small, main, h);
      PastCut(q, k, k + m, h);
      assert q[k + m..] == main[m..];
      StuckAfterCut(e, small, main, m, h);
    }
  }

  /** With at most one node per live hash the states are simpler to tell. */
  lemma OneNodeFallsShortIff(s: Store)
    requires Inv(s) && OneNode(s.entries, s.small, s.main) && 0 < s.maxMemory
    ensures EnforceMemory(s).bytes > s.maxMemory <==>
            Stuck(s.entries, s.small, s.main) && Total(SizesOf(s.entries, HotKeys(s.entries))) > s.maxMemory
  {
    hide EnforceMemory, OneNode, Stuck, Overfull, HotKeys, SizesOf, Inv;
    EnforcementFallsShortIff(s);
    var hot := HotKeys(s.entries);
    if rest :| Overfull(s, rest) {
      OverfullIsStuck(s, rest);
    }
    if Stuck(s.entries, s.small, s.main) && Total(SizesOf(s.entries, hot)) > s.maxMemory {
      StuckIsOverfull(s);
    }
  }

  lemma OverfullIsStuck(s: Store, rest: set<QueryHash>)
    requires OneNode(s.entries, s.small, s.main) && Overfull(s, rest)
    ensures rest == HotKeys(s.entries) && Stuck(s.entries, s.small, s.main)
    ensures Total(SizesOf(s.entries, HotKeys(s.entries))) > s.maxMemory
  {
    hide OneNode, Stuck, Cut, HotKeys;
    var p :| Cut(s.entries, s.small + s.main, |s.small|, p, rest);
    StrandedAreHot(s.entries, s.small, s.main, p, rest);
    StrandedAreStuck(s.entries, s.small, s.main, p);
  }

  lemma StuckIsOverfull(s: Store)
    requires Inv(s) && OneNode(s.entries, s.small, s.main) && Stuck(s.entries, s.small, s.main)
    requires Total(SizesOf(s.entries, HotKeys(s.entries))) > s.maxMemory
    ensures Overfull(s, HotKeys(s.entries))
  {
    hide OneNode, Stuck, Cut, HotKeys;
    var p := StuckAreStranded(s.entries, s.small, s.main);
    assert SizesOf(s.entries, {}) == map[];
  }

  // ----- such states are reached

  const BIG := Response(0, 2)

  ghost predicate Only(s: Store, h: QueryHash, e: Entry, small: seq<QueryHash>, main: seq<QueryHash>) {
    && s.entries == map[h := e] && s.small == small && s.main == main
    && s.cfg.smallCapacity + s.cfg.mainCapacity == 10 && !s.cfg.normalizedMatching
    && s.perUpstreamLimit == None && s.maxMemory == 0
  }

  ghost predicate Vacant(s: Store) {
    && s.entries == map[] && s.small == [] && s.main == []
    && s.cfg.smallCapacity + s.cfg.mainCapacity == 10 && !s.cfg.normalizedMatching
    && s.perUpstreamLimit == None && s.maxMemory == 0
  }

  /** Into an empty store: Main if the hash is remembered, else Small. */
  lemma FirstInsert(s: Store, query: string)
    requires Vacant(s)
    ensures var h, e := HashQuery(s.cfg, query), NewEntry(BIG, "u", "c", Some(query), 0);
            var t := Insert(s, query, BIG, "u", "c", 0, []);
            && Only(t, h, e, if h in s.ghosts.members then [] else [h], if h in s.ghosts.members then [h] else [])
            && t.ghosts == (if h in s.ghosts.members
                            then Ghosts(Without(s.ghosts.queue, h), s.ghosts.members - {h}) else s.ghosts)
            && t.cfg == s.cfg
  {
    var h, e := HashQuery(s.cfg, query), NewEntry(BIG, "u", "c", Some(query), 0);
    var w := Enqueue(Stored(s, h, e, Some(HashExact(query))), h);
    assert EvictWhile(w, Count) == Drained(w, 0, 0);
  }

  /** The only entry, cold and in Small, is evicted and remembered. */
  lemma EvictOnly(s: Store, h: QueryHash, e: Entry)
    requires Only(s, h, e, [h], []) && e.freq == 0 && s.ghosts == Ghosts([], {})
    ensures var t := EvictSmart(s, [], 1); Vacant(t) && t.ghosts.members == {h} && t.cfg == s.cfg
  {
    ScanOnly(s.entries, h);
    OneGhost(s.cfg.ghostCapacity, h);
    var t := EvictOne(s).store;
    assert EvictTimes(t, 0) == t;
    assert EvictTimes(s, 1) == t;
  }

  lemma ScanOnly(e: Entries, h: QueryHash)
    requires e.Keys == {h} && e[h].freq == 0
    ensures Scan(e, [h], []) == Outcome(map[], [], [], Some(h), Some(Small), [h], 0)
  {
    assert StopsAt(e, [h], 0);
    assert [h][..0] == [] && [h][1..] == [];
    assert Cool(e, []) - {h} == map[];
  }

  lemma OneGhost(capacity: pos, h: QueryHash)
    ensures AddGhosts(Ghosts([], {}), capacity, [h]) == Ghosts([h], {h})
  {
    assert [h][..0] == [];
    assert AddGhosts(Ghosts([], {}), capacity, []) == Ghosts([], {});
  }

  lemma {:induction false} RunAppend(s: Store, ops: seq<Op>, op: Op)
    ensures Run(s, ops + [op]) == Step(Run(s, ops), op)
    decreases |ops|
  {
    if ops == [] {
      assert ([] + [op])[1..] == [];
    } else {
      RunAppend(Step(s, ops[0]), ops[1..], op);
      assert (ops + [op])[0] == ops[0] && (ops + [op])[1..] == ops[1..] + [op];
    }
  }

  ghost function InsertOf(query: string): Op {
    OpInsert(query, BIG, "u", "c", 0, [])
  }

  /** Insert, evict, insert again, look up. */
  ghost function Route(query: string): seq<Op> {
    [InsertOf(query)] + [OpEvictSmart([], 1)] + [InsertOf(query)] + [OpGet(query)]
  }

  lemma RouteLeadsToMain(normalize: string -> string, query: string)
    ensures var s0 := NewStore(normalize, false, 10, 0);
            var s := Run(s0, [InsertOf(query)] + [OpEvictSmart([], 1)] + [InsertOf(query)]);
            s.cfg == s0.cfg &&
            Only(s, HashQuery(s.cfg, query), NewEntry(BIG, "u", "c", Some(query), 0), [], [HashQuery(s.cfg, query)])
  {
    hide Insert, EvictSmart;
    var s0 := NewStore(normalize, false, 10, 0);
    var h, e := HashQuery(s0.cfg, query), NewEntry(BIG, "u", "c", Some(query), 0);
    var first, second := [InsertOf(query)], [InsertOf(query)] + [OpEvictSmart([], 1)];
    RunAppend(s0, [], InsertOf(query));
    assert [] + first == first;
    FirstInsert(s0, query);
    RunAppend(s0, first, OpEvictSmart([], 1));
    EvictOnly(Run(s0, first), h, e);
    RunAppend(s0, second, InsertOf(query));
    FirstInsert(Run(s0, second), query);
  }

  /** One hot entry of size 2, and its node alone in Main. */
  ghost predicate HotAndAlone(s: Store, h: QueryHash) {
    && s.entries.Keys == {h} && s.entries[h].freq > 0 && s.entries[h].size == 2
    && s.small == [] && s.main == [h]
  }

  lemma RouteEndsHot(normalize: string -> string, query: string)
    ensures var s := Run(NewStore(normalize, false, 10, 0), Route(query));
            Inv(s) && HotAndAlone(s, Blake3(normalize(query)))
  {
    var s0 := NewStore(normalize, false, 10, 0);
    var three := [InsertOf(query)] + [OpEvictSmart([], 1)] + [InsertOf(query)];
    RouteLeadsToMain(normalize, query);
    RunAppend(s0, three, OpGet(query));
    NewStoreInv(normalize, false, 10, 0);
    RunKeepsInv(s0, Route(query));
    hide Run;
  }

  lemma HotAndAloneYieldsNothing(s: Store, h: QueryHash)
    requires HotAndAlone(s, h)
    ensures EvictOne(s).source == None && EvictOne(s).store.entries.Keys == s.entries.Keys
  {
    EvictsNothingIff(s);
    NothingEvictedLeavesCold(s);
  }

  lemma HotAndAloneBytes(s: Store, h: QueryHash)
    requires HotAndAlone(s, h) && BytesExact(s)
    ensures s.bytes == 2
  {
    assert Sizes(s.entries) == map[h := 2];
    TotalRemove(Sizes(s.entries), h);
    assert Sizes(s.entries) - {h} == map[];
  }

  /** From there, shrinking the cap to one byte evicts nothing. */
  lemma ShortfallIsReachable(normalize: string -> string, query: string)
    ensures var s := Run(NewStore(normalize, false, 10, 0), Route(query) + [OpSetMaxMemory(1)]);
            Inv(s) && s.maxMemory == 1 && EnforceMemory(s).bytes > s.maxMemory
  {
    var s0 := NewStore(normalize, false, 10, 0);
    var h := Blake3(normalize(query));
    RouteEndsHot(normalize, query);
    RunAppend(s0, Route(query), OpSetMaxMemory(1));
    hide Run, Route, EvictOne;
    var s := Run(s0, Route(query)).(maxMemory := 1);
    HotAndAloneYieldsNothing(s, h);
    HotAndAloneBytes(s, h);
    NothingTakenIsOverfull(s, {});
  }
}
