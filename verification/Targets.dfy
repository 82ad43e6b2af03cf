/** How many entries `evict_smart` removes: its target, or one less, and exactly when. */
module Targets {
  import opened Basics
  import opened Store
  import opened Eviction
  import opened Invariants
  import opened Residue
  import opened Enforcement
  import opened Conservation

  /** One scan of n will be wasted: draining strands some entries, n reaches into them, and n are there. */
  ghost predicate WastedOn(e: Entries, small: seq<QueryHash>, main: seq<QueryHash>, n: nat, rest: set<QueryHash>) {
    Strands(e, small, main, rest) && |e| - |rest| < n <= |e|
  }

  ghost predicate Wasteful(e: Entries, small: seq<QueryHash>, main: seq<QueryHash>, n: nat) {
    exists rest :: WastedOn(e, small, main, n, rest)
  }

  lemma {:induction false} AllColdTimes(s: Store, n: nat)
    requires Sound(s) && AllCold(s)
    ensures |EvictTimes(s, n).entries| == |s.entries| - Min(n, |s.entries|)
    decreases n
  {
    hide EvictOne, AllCold, BytesExact, GhostsBounded, NoLiveGhost, FreqCapped;
    if s.small == [] && s.main == [] {
      NoNodesNoEntries(s);
    } else if n != 0 {
      assert s.main != [] by { ColdSmallIsEmpty(s); }
      AllColdStep(s);
      EvictOneKeeps(s);
      EvictOneCounts(s);
      AllColdTimes(EvictOne(s).store, n - 1);
    }
  }

  lemma ColdSmallIsEmpty(s: Store)
    requires AllCold(s)
    ensures s.small == []
  {
  }

  lemma NoNodesNoEntries(s: Store)
    requires Covered(s) && s.small == [] && s.main == []
    ensures s.entries == map[]
  {
  }

  lemma WasteStep(s: Store, n: nat)
    requires Sound(s) && EvictOne(s).source.Some? && 0 < n
    ensures var t := EvictOne(s).store;
            Wasteful(t.entries, t.small, t.main, n - 1) <==> Wasteful(s.entries, s.small, s.main, n)
  {
    hide EvictOne, Strands;
    var t, m := EvictOne(s).store, n - 1;
    EvictOneCounts(s);
    forall rest ensures WastedOn(t.entries, t.small, t.main, m, rest) <==>
        WastedOn(s.entries, s.small, s.main, n, rest) {
      EvictionKeepsStranded(s, rest);
    }
    hide WastedOn;
    if rest :| WastedOn(s.entries, s.small, s.main, n, rest) {
      assert WastedOn(t.entries, t.small, t.main, m, rest);
    }
  }

  lemma NothingTakenWastes(s: Store, n: nat)
    requires Sound(s) && EvictOne(s).source.None? && 0 < n
    ensures Wasteful(s.entries, s.small, s.main, n) <==> n <= |s.entries|
  {
    EvictsNothingIff(s);
    hide EvictOne, Strands;
    if n <= |s.entries| {
      var rest := s.entries.Keys;
      assert |rest| == |s.entries|;
      NothingTakenStrandsAll(s.entries, s.small, s.main, rest);
      assert WastedOn(s.entries, s.small, s.main, n, rest);
    }
  }

  /** n scans remove n entries, or all there are; one less exactly when a scan is wasted. */
  lemma {:induction false} TimesDeliverExactly(s: Store, n: nat)
    requires Sound(s)
    ensures |EvictTimes(s, n).entries| ==
            |s.entries| - Min(n, |s.entries|) + (if Wasteful(s.entries, s.small, s.main, n) then 1 else 0)
    decreases n
  {
    hide EvictOne, AllCold, BytesExact, GhostsBounded, NoLiveGhost, FreqCapped, Strands;
    if n == 0 {
      NoTargetNoWaste(s.entries, s.small, s.main);
    } else if s.small == [] && s.main == [] {
      NoNodesNoEntries(s);
    } else {
      hide Wasteful;
      EvictOneKeeps(s);
      EvictOneCounts(s);
      if EvictOne(s).source.Some? {
        WasteStep(s, n);
        TimesDeliverExactly(EvictOne(s).store, n - 1);
      } else {
        StuckTimesDeliver(s, n);
      }
    }
  }

  /** A first scan that takes nothing costs one entry of the n, if there are as many; the scans after it do not fail. */
  lemma StuckTimesDeliver(s: Store, n: nat)
    requires Sound(s) && EvictOne(s).source.None? && 0 < n && !(s.small == [] && s.main == [])
    ensures |EvictTimes(s, n).entries| ==
            |s.entries| - Min(n, |s.entries|) + (if Wasteful(s.entries, s.small, s.main, n) then 1 else 0)
  {
    hide EvictOne, AllCold, Sound, Wasteful;
    EvictOneKeeps(s);
    EvictOneCounts(s);
    NothingTakenWastes(s, n);
    NothingEvictedLeavesCold(s);
    AllColdTimes(EvictOne(s).store, n - 1);
  }

  lemma NoTargetNoWaste(e: Entries, small: seq<QueryHash>, main: seq<QueryHash>)
    ensures !Wasteful(e, small, main, 0)
  {
    forall rest ensures !WastedOn(e, small, main, 0, rest) {
      if Strands(e, small, main, rest) {
        StrandedAreLive(e, small, main, rest);
        SubsetSize(rest, e.Keys);
      }
    }
  }

  /** Whatever its stale and repeated nodes, at most one scan of the loop is wasted. */
  lemma TimesDeliver(s: Store, n: nat)
    requires Sound(s)
    ensures |s.entries| - Min(n, |s.entries|) <= |EvictTimes(s, n).entries| <= |s.entries| - Min(n, |s.entries|) + 1
  {
    TimesDeliverExactly(s, n);
  }

  lemma LastIsNew(hs: seq<QueryHash>)
    requires Distinct(hs)
    ensures hs == [] ==> Elems(hs) == {}
    ensures hs != [] ==>
              var init, h := hs[..|hs| - 1], hs[|hs| - 1];
              Distinct(init) && h in hs && h !in Elems(init) && Elems(hs) == Elems(init) + {h} &&
                  forall k :: k in init ==> k in hs
  {
    if hs != [] {
      assert hs == hs[..|hs| - 1] + [hs[|hs| - 1]];
    }
  }

  lemma RemoveOneKeys(s: Store, h: QueryHash)
    ensures TrackedRemove(s, h).entries.Keys == s.entries.Keys - {h}
  {
  }

  lemma {:induction false} RemoveAllExact(s: Store, hs: seq<QueryHash>)
    requires Distinct(hs) && forall h :: h in hs ==> h in s.entries
    ensures |RemoveAll(s, hs).entries| == |s.entries| - |hs|
    ensures RemoveAll(s, hs).entries.Keys == s.entries.Keys - Elems(hs)
    decreases |hs|
  {
    hide Elems, Distinct, TrackedRemove;
    if hs == [] {
      assert Elems(hs) == {} by { LastIsNew(hs); }
    } else {
      var init, h := hs[..|hs| - 1], hs[|hs| - 1];
      LastIsNew(hs);
      RemoveAllExact(s, init);
      RemoveOneLoses(RemoveAll(s, init), h);
      RemoveOneKeys(RemoveAll(s, init), h);
    }
  }

  /** The expired entries that the first phase removes. */
  ghost function FirstPhase(expired: seq<QueryHash>, target: nat): seq<QueryHash> {
    if |expired| <= target then expired else expired[..target]
  }

  ghost function Unexpired(e: Entries, expired: seq<QueryHash>, target: nat): Entries {
    e - Elems(FirstPhase(expired, target))
  }

  lemma {:induction false} RemoveAllEntries(s: Store, hs: seq<QueryHash>)
    ensures var t := RemoveAll(s, hs); t.entries == s.entries - Elems(hs) && t.small == s.small && t.main == s.main
    decreases |hs|
  {
    if hs != [] {
      var init, h := hs[..|hs| - 1], hs[|hs| - 1];
      RemoveAllEntries(s, init);
      assert hs == init + [h];
      assert Elems(hs) == Elems(init) + {h};
    } else {
      assert Elems(hs) == {};
    }
  }

  lemma FirstPhaseLeaves(s: Store, expired: seq<QueryHash>, target: nat)
    requires Inv(s) && Distinct(expired) && forall h :: h in expired ==> h in s.entries
    ensures var first, t := FirstPhase(expired, target), SmartExpired(s, expired, target);
            && t.entries == Unexpired(s.entries, expired, target) && t.small == s.small && t.main == s.main
            && |t.entries| == |s.entries| - |first| && Sound(t)
  {
    var first := FirstPhase(expired, target);
    RemoveAllExact(s, first);
    RemoveAllEntries(s, first);
    RemoveAllKeeps(s, first);
  }

  lemma SecondPhase(s: Store, expired: seq<QueryHash>, target: nat)
    requires |SmartExpired(s, expired, target).entries| == |s.entries| - |FirstPhase(expired, target)|
    ensures EvictSmart(s, expired, target).entries ==
            EvictTimes(SmartExpired(s, expired, target), target - |FirstPhase(expired, target)|).entries
  {
    hide SmartExpired, EvictTimes;
  }

  /**
   `evict_smart` removes its target, or all there is; one less exactly when its
   second phase wastes a scan on what the first phase leaves. With enough expired
   entries there is no second phase and nothing is missed.
   */
  lemma EvictSmartDelivers(s: Store, expired: seq<QueryHash>, target: nat)
    requires Inv(s) && Distinct(expired) && forall h :: h in expired ==> h in s.entries
    ensures var first := FirstPhase(expired, target);
            Lost(s, EvictSmart(s, expired, target)) ==
              Min(target, |s.entries|) -
              (if Wasteful(Unexpired(s.entries, expired, target), s.small, s.main, target - |first|) then 1 else 0)
    ensures target <= |expired| ==> Lost(s, EvictSmart(s, expired, target)) == target
  {
    hide EvictSmart, SmartExpired, EvictTimes, Wasteful, Distinct, Inv, Sound, Unexpired, SameCounts;
    var t := SmartExpired(s, expired, target);
    var n := target - |FirstPhase(expired, target)|;
    FirstPhaseLeaves(s, expired, target);
    SecondPhase(s, expired, target);
    TimesDeliverExactly(t, n);
    EvictTimesCounts(t, n);
    NoTargetNoWaste(t.entries, s.small, s.main);
  }

  /** A run after which `evict_smart`, asked for one entry, finds one and removes none. */
  lemma TargetMissIsReachable(normalize: string -> string, query: string)
    ensures var s := Run(NewStore(normalize, false, 10, 0), Route(query));
            && Inv(s) && |s.entries| == 1
            && EvictSmart(s, [], 1).entries.Keys == s.entries.Keys
            && Lost(s, EvictSmart(s, [], 1)) == 0
  {
    var s := Run(NewStore(normalize, false, 10, 0), Route(query));
    var h := Blake3(normalize(query));
    RouteEndsHot(normalize, query);
    hide Run, Route, EvictOne;
    HotAndAloneYieldsNothing(s, h);
    assert |s.entries| == |s.entries.Keys| == 1;
    var t := EvictOne(s).store;
    assert EvictTimes(s, 1) == t by { assert EvictTimes(t, 0) == t; }
    assert |t.entries| == |t.entries.Keys|;
  }
}
