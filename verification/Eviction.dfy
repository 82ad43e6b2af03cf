/** Which entry an eviction takes, and when it takes none. */
module Eviction {
  import opened Basics
  import opened Store

  /** The order in which one eviction meets nodes: Small, then Main, then what Small promoted. */
  ghost function Tour(small: seq<QueryHash>, main: seq<QueryHash>): seq<QueryHash> {
    small + main + small
  }

  lemma ScanShrinks(e: Entries, small: seq<QueryHash>, main: seq<QueryHash>)
    ensures var o := Scan(e, small, main);
            && (o.victim.Some? <==> o.source.Some?)
            && (o.victim.Some? ==> o.victim.value in e && o.entries.Keys == e.Keys - {o.victim.value})
            && (o.victim.None? ==> o.entries.Keys == e.Keys)
  {
  }

  lemma {:induction false} KeepAppend(entries: Entries, q: seq<QueryHash>, h: QueryHash)
    ensures h in entries ==>
            Keep(entries, q + [h]) == Keep(entries, q) + [h] && Drop(entries, q + [h]) == Drop(entries, q)
    ensures h !in entries ==>
            Keep(entries, q + [h]) == Keep(entries, q) && Drop(entries, q + [h]) == Drop(entries, q) + [h]
  {
    assert (q + [h])[..|q|] == q;
  }

  /** The first live node of `q` heads `Keep`. */
  lemma {:induction false} KeepHead(entries: Entries, q: seq<QueryHash>) returns (k: nat)
    requires Keep(entries, q) != []
    ensures k < |q| && q[k] == Keep(entries, q)[0] && q[k] in entries
    ensures forall j :: 0 <= j < k ==> q[j] !in entries
  {
    var init := q[..|q| - 1];
    if Keep(entries, init) != [] {
      k := KeepHead(entries, init);
    } else {
      k := |q| - 1;
      forall j | 0 <= j < k ensures q[j] !in entries {
        assert q[j] == init[j] && init[j] in init;
        assert init[j] !in Keep(entries, init);
      }
    }
  }

  lemma StopIs(entries: Entries, q: seq<QueryHash>, i: nat)
    requires i <= |q|
    requires forall j: nat :: j < i ==> !StopsAt(entries, q, j)
    requires i < |q| ==> StopsAt(entries, q, i)
    ensures FirstStop(entries, q) == i
  {
  }

  /** A stop inside a prefix of the tour is a stop of the prefix. */
  lemma StopInPrefix(entries: Entries, p: seq<QueryHash>, q: seq<QueryHash>)
    requires p <= q
    ensures forall j: nat :: j < |p| ==> StopsAt(entries, q, j) == StopsAt(entries, p, j)
  {
    forall j: nat | j < |p| ensures StopsAt(entries, q, j) == StopsAt(entries, p, j) {
      assert q[..j] == p[..j];
    }
  }

  /** With Small met and cooled, a Main scan stops where the tour does. */
  lemma StopAfterCooling(entries: Entries, small: seq<QueryHash>, q: seq<QueryHash>)
    ensures forall j: nat :: j < |q| ==> StopsAt(Cool(entries, small), q, j) == StopsAt(entries, small + q, |small| + j)
  {
    forall j: nat | j < |q|
      ensures StopsAt(Cool(entries, small), q, j) == StopsAt(entries, small + q, |small| + j)
    {
      assert (small + q)[..|small| + j] == small + q[..j];
    }
  }

  /** The third leg of the tour, over what Small promoted, stops at its first live node or not at all. */
  lemma ThirdLeg(entries: Entries, small: seq<QueryHash>, before: seq<QueryHash>) returns (k: nat)
    requires small <= before
    ensures k <= |small|
    ensures k == |small| <==> Keep(entries, small) == []
    ensures k < |small| ==> small[k] == Keep(entries, small)[0] && StopsAt(entries, before + small, |before| + k)
    ensures forall j: nat :: j < k ==> small[j] !in entries && !StopsAt(entries, before + small, |before| + j)
  {
    if Keep(entries, small) == [] {
      k := |small|;
      forall j: nat | j < k ensures small[j] !in entries {
        assert small[j] !in Keep(entries, small);
      }
    } else {
      k := KeepHead(entries, small);
      var q := before + small;
      assert q[..|before| + k][k] == small[k];
    }
  }

  /** Small yields nothing and the scan of Main stops at m, inside the old Main. */
  lemma TourEndsInMain(e: Entries, small: seq<QueryHash>, main: seq<QueryHash>, m: nat)
    requires FirstStop(e, small) == |small|
    requires m == FirstStop(Cool(e, small), main + Keep(e, small)) < |main|
    ensures FirstStop(e, Tour(small, main)) == |small| + m
  {
    var c, tour, scanned := Cool(e, small), Tour(small, main), main + Keep(e, small);
    StopInPrefix(e, small, tour);
    StopInPrefix(e, small + main, tour);
    StopInPrefix(c, main, scanned);
    StopAfterCooling(e, small, main);
    forall j: nat | j < |small| + m ensures !StopsAt(e, tour, j) {
      if j < |small| {
        assert !StopsAt(e, small, j);
      } else {
        assert !StopsAt(c, scanned, j - |small|);
        assert StopsAt(c, main, j - |small|) == StopsAt(e, small + main, |small| + (j - |small|));
      }
    }
    assert StopsAt(c, scanned, m);
    StopIs(e, tour, |small| + m);
  }

  /** Small and the old Main yield nothing: the tour ends at Small's first live node, if it has one. */
  lemma TourEndsInThirdLeg(e: Entries, small: seq<QueryHash>, main: seq<QueryHash>) returns (k: nat)
    requires FirstStop(e, small) == |small|
    requires FirstStop(Cool(e, small), main + Keep(e, small)) >= |main|
    ensures k <= |small| && FirstStop(e, Tour(small, main)) == |small| + |main| + k
    ensures k == |small| <==> Keep(e, small) == []
    ensures k < |small| ==> small[k] == Keep(e, small)[0]
  {
    var c, tour, scanned := Cool(e, small), Tour(small, main), main + Keep(e, small);
    StopInPrefix(e, small, tour);
    StopInPrefix(e, small + main, tour);
    StopInPrefix(c, main, scanned);
    StopAfterCooling(e, small, main);
    k := ThirdLeg(e, small, small + main);
    forall j: nat | j < |small| + |main| + k ensures !StopsAt(e, tour, j) {
      if j < |small| {
        assert !StopsAt(e, small, j);
      } else if j < |small| + |main| {
        assert !StopsAt(c, scanned, j - |small|);
        assert StopsAt(c, main, j - |small|) == StopsAt(e, small + main, |small| + (j - |small|));
      } else {
        assert !StopsAt(e, small + main + small, |small + main| + (j - |small| - |main|));
      }
    }
    StopIs(e, tour, |small| + |main| + k);
  }

  /** The promoted part of Main starts with a cold node, so a scan stops there or before. */
  lemma PromotedStops(e: Entries, small: seq<QueryHash>, main: seq<QueryHash>)
    requires Keep(e, small) != []
    ensures FirstStop(Cool(e, small), main + Keep(e, small)) <= |main|
  {
    var scanned := main + Keep(e, small);
    assert scanned[|main|] == Keep(e, small)[0];
    assert scanned[|main|] in Keep(e, small);
    assert StopsAt(Cool(e, small), scanned, |main|);
  }

  /** Where the tour ends once Small yields nothing, in terms of the Main scan that follows. */
  lemma TourAfterSmall(e: Entries, small: seq<QueryHash>, main: seq<QueryHash>)
    requires FirstStop(e, small) == |small|
    ensures var tour := Tour(small, main); var i := FirstStop(e, tour);
            var scanned := main + Keep(e, small);
            var m := FirstStop(Cool(e, small), scanned);
            && |small| <= i
            && (m == |scanned| <==> i == |tour|)
            && (m < |scanned| ==> i < |tour| && tour[i] == scanned[m])
            && forall h :: h in e ==> (h in tour[..i] <==> h in small || h in scanned[..m])
  {
    hide FirstStop, Keep, Cool;
    var tour, scanned := Tour(small, main), main + Keep(e, small);
    var i, m := FirstStop(e, tour), FirstStop(Cool(e, small), scanned);
    if m < |main| {
      TourEndsInMain(e, small, main, m);
      assert tour[..i] == small + scanned[..m];
    } else {
      var k := TourEndsInThirdLeg(e, small, main);
      if Keep(e, small) != [] { PromotedStops(e, small, main); }
      assert scanned[..m] == main;
      assert tour[..i] == small + main + small[..k];
    }
  }

  lemma CoolTwice(entries: Entries, a: seq<QueryHash>, b: seq<QueryHash>, c: seq<QueryHash>)
    requires forall h :: h in entries ==> (h in c <==> h in a || h in b)
    ensures Cool(Cool(entries, a), b) == Cool(entries, c)
  {
  }

  /**
   The victim of every eviction, in any state: the first node on the tour that
   is live and is cold or was met before. It is charged to Small when the tour
   ends inside Small. Every live entry met on the way is cooled, and nothing
   else in the map changes.
   */
  lemma VictimIsFirstOnTour(e: Entries, small: seq<QueryHash>, main: seq<QueryHash>)
    ensures var tour := Tour(small, main); var i := FirstStop(e, tour); var o := Scan(e, small, main);
            && (i == |tour| ==> o.victim == None && o.source == None && o.entries == Cool(e, tour))
            && (i < |tour| ==>
                  && o.victim == Some(tour[i])
                  && o.source == Some(if i < |small| then Small else Main)
                  && o.entries == Cool(e, tour[..i]) - {tour[i]})
  {
    var tour := Tour(small, main);
    var i0 := FirstStop(e, small);
    if i0 < |small| {
      StopInPrefix(e, small, tour);
      StopIs(e, tour, i0);
      assert tour[..i0] == small[..i0];
    } else {
      assert small[..|small|] == small && tour[..|tour|] == tour;
      TourAfterSmall(e, small, main);
      var scanned := main + Keep(e, small);
      var m := FirstStop(Cool(e, small), scanned);
      CoolTwice(e, small, scanned[..m], tour[..FirstStop(e, tour)]);
    }
  }

  /** Live nodes of `q` are hot, and no live hash occurs twice. */
  ghost predicate HotAndUnique(entries: Entries, q: seq<QueryHash>) {
    forall j :: 0 <= j < |q| && q[j] in entries ==> entries[q[j]].freq > 0 && q[j] !in q[..j]
  }

  ghost predicate NoneLive(entries: Entries, q: seq<QueryHash>) {
    forall h :: h in q ==> h !in entries
  }

  lemma NoStopIff(e: Entries, q: seq<QueryHash>)
    ensures FirstStop(e, q) == |q| <==> HotAndUnique(e, q)
  {
    if HotAndUnique(e, q) {
      forall j: nat | j < |q| ensures !StopsAt(e, q, j) {}
      StopIs(e, q, |q|);
    } else {
      var j :| 0 <= j < |q| && q[j] in e && !(e[q[j]].freq > 0 && q[j] !in q[..j]);
      assert StopsAt(e, q, j);
    }
  }

  lemma TourUniqueIff(e: Entries, small: seq<QueryHash>, main: seq<QueryHash>)
    ensures HotAndUnique(e, Tour(small, main)) <==> NoneLive(e, small) && HotAndUnique(e, main)
  {
    var tour, base := Tour(small, main), |small| + |main|;
    forall j | 0 <= j < |main| ensures tour[|small| + j] == main[j] && tour[..|small| + j] == small + main[..j] {}
    forall k | 0 <= k < |small|
      ensures tour[base + k] == small[k] && small[k] in tour[..base + k] && tour[k] == small[k]
    {
      assert tour[..base + k][k] == small[k];
    }
    if NoneLive(e, small) && HotAndUnique(e, main) {
      assert forall k :: 0 <= k < |small| ==> small[k] !in e;
      assert forall j :: base <= j < |tour| ==> tour[j] == small[j - base];
      forall j | 0 <= j < |tour| && tour[j] in e ensures e[tour[j]].freq > 0 && tour[j] !in tour[..j] {
        assert |small| <= j < base;
        assert tour[j] == main[j - |small|];
        assert tour[|small| + (j - |small|)] == main[j - |small|];
      }
    }
    if HotAndUnique(e, tour) {
      forall h | h in small ensures h !in e {
        var k :| 0 <= k < |small| && small[k] == h;
        assert tour[base + k] == small[k];
      }
      forall j | 0 <= j < |main| && main[j] in e ensures e[main[j]].freq > 0 && main[j] !in main[..j] {
        assert tour[|small| + j] == main[j];
      }
    }
  }

  /** Exactly when an eviction takes nothing. */
  lemma EvictsNothingIff(s: Store)
    ensures EvictOne(s).source.None? <==> NoneLive(s.entries, s.small) && HotAndUnique(s.entries, s.main)
  {
    VictimIsFirstOnTour(s.entries, s.small, s.main);
    NoStopIff(s.entries, Tour(s.small, s.main));
    TourUniqueIff(s.entries, s.small, s.main);
  }

  ghost predicate Distinct(q: seq<QueryHash>) {
    forall i, j :: 0 <= i < j < |q| ==> q[i] != q[j]
  }

  /** Small is empty; Main holds live, distinct, cold nodes. */
  ghost predicate AllCold(s: Store) {
    && s.small == []
    && Distinct(s.main)
    && forall h :: h in s.main ==> h in s.entries && s.entries[h].freq == 0
  }

  lemma {:induction false} KeepDistinct(entries: Entries, q: seq<QueryHash>)
    requires forall j :: 0 <= j < |q| && q[j] in entries ==> q[j] !in q[..j]
    ensures Distinct(Keep(entries, q))
  {
    if q != [] {
      var init := q[..|q| - 1];
      forall j | 0 <= j < |init| && init[j] in entries ensures init[j] !in init[..j] {
        assert init[..j] == q[..j];
      }
      KeepDistinct(entries, init);
    }
  }

  lemma KeepNone(e: Entries, q: seq<QueryHash>)
    requires NoneLive(e, q)
    ensures Keep(e, q) == [] && Cool(e, q) == e
  {
    assert forall h :: h in Keep(e, q) ==> h in q;
    assert |Keep(e, q)| > 0 ==> Keep(e, q)[0] in Keep(e, q);
  }

  lemma NothingToTake(e: Entries, small: seq<QueryHash>, main: seq<QueryHash>)
    requires NoneLive(e, small) && HotAndUnique(e, main)
    ensures var o := Scan(e, small, main); o.small == [] && o.main == Keep(e, main) && o.entries == Cool(e, main)
  {
    KeepNone(e, small);
    NoStopIff(e, small);
    NoStopIff(e, main);
    hide FirstStop, Keep, Drop, Cool;
    assert small[..|small|] == small && main[..|main|] == main;
    assert ScanSmall(e, small, main).main == main;
  }

  /** A scan that takes nothing leaves a state in which the next one cannot fail for heat. */
  lemma NothingEvictedLeavesCold(s: Store)
    requires EvictOne(s).source.None?
    ensures AllCold(EvictOne(s).store)
    ensures EvictOne(s).store.main == Keep(s.entries, s.main)
    ensures EvictOne(s).store.entries.Keys == s.entries.Keys
  {
    EvictsNothingIff(s);
    NothingToTake(s.entries, s.small, s.main);
    KeepDistinct(s.entries, s.main);
    hide Scan, Keep, AddGhosts;
  }

  ghost predicate ColdAt(entries: Entries, q: seq<QueryHash>, k: int) {
    0 <= k < |q| && q[k] in entries && entries[q[k]].freq == 0
  }

  ghost predicate FirstCold(entries: Entries, q: seq<QueryHash>, k: int) {
    ColdAt(entries, q, k) && forall j :: 0 <= j < k ==> !ColdAt(entries, q, j)
  }

  ghost predicate NoCold(entries: Entries, q: seq<QueryHash>) {
    forall k :: 0 <= k < |q| ==> !ColdAt(entries, q, k)
  }

  lemma DistinctStops(e: Entries, q: seq<QueryHash>)
    requires Distinct(q)
    ensures forall j: nat :: j < |q| ==> StopsAt(e, q, j) == ColdAt(e, q, j)
  {
  }

  /** The tour over distinct nodes: first cold Small node, else first cold Main node, else first live Small node. */
  lemma DistinctTour(e: Entries, small: seq<QueryHash>, main: seq<QueryHash>)
    requires Distinct(small + main)
    ensures var tour := Tour(small, main); var i := FirstStop(e, tour);
            && (!NoCold(e, small) ==> i < |small| && FirstCold(e, small, i))
            && (NoCold(e, small) && !NoCold(e, main) ==>
                  |small| <= i < |small| + |main| && FirstCold(e, main, i - |small|))
            && (NoCold(e, small) && NoCold(e, main) && Keep(e, small) != [] ==>
                  |small| + |main| <= i < |tour| && tour[i] == Keep(e, small)[0])
  {
    var nodes, tour := small + main, Tour(small, main);
    var i := FirstStop(e, tour);
    StopInPrefix(e, nodes, tour);
    DistinctStops(e, nodes);
    assert forall j: nat :: j < |nodes| ==> StopsAt(e, tour, j) == ColdAt(e, nodes, j);
    forall k | 0 <= k < |small| ensures ColdAt(e, nodes, k) == ColdAt(e, small, k) {}
    forall k | 0 <= k < |main| ensures ColdAt(e, nodes, |small| + k) == ColdAt(e, main, k) {}
    if !NoCold(e, small) {
      var k :| 0 <= k < |small| && ColdAt(e, small, k);
      assert StopsAt(e, tour, k);
    } else if !NoCold(e, main) {
      var k :| 0 <= k < |main| && ColdAt(e, main, k);
      assert StopsAt(e, tour, |small| + k);
      assert forall j: nat :: j < |small| ==> !StopsAt(e, tour, j);
      forall j | 0 <= j < i - |small| ensures !ColdAt(e, main, j) {
        assert !StopsAt(e, tour, |small| + j);
      }
    } else if Keep(e, small) != [] {
      forall j: nat | j < |nodes| ensures !StopsAt(e, tour, j) {
        if j < |small| { assert !ColdAt(e, small, j); } else { assert !ColdAt(e, main, j - |small|); }
      }
      TourGoesRound(e, small, main);
    }
  }

  /** Nothing stops the tour in its first two legs, and Small holds something live. */
  lemma TourGoesRound(e: Entries, small: seq<QueryHash>, main: seq<QueryHash>)
    requires Keep(e, small) != [] && forall j: nat :: j < |small + main| ==> !StopsAt(e, Tour(small, main), j)
    ensures var tour := Tour(small, main); var i := FirstStop(e, tour);
            |small| + |main| <= i < |tour| && tour[i] == Keep(e, small)[0]
  {
    var nodes, tour := small + main, Tour(small, main);
    var k := ThirdLeg(e, small, nodes);
    hide Keep, FirstStop;
    forall j: nat | j < |nodes| + k ensures !StopsAt(e, tour, j) {
      if j >= |nodes| { assert !StopsAt(e, nodes + small, |nodes| + (j - |nodes|)); }
    }
    StopIs(e, tour, |nodes| + k);
  }

  lemma NothingWhenNoCold(e: Entries, small: seq<QueryHash>, main: seq<QueryHash>)
    requires Distinct(small + main) && NoCold(e, main) && Keep(e, small) == []
    ensures NoneLive(e, small) && HotAndUnique(e, main)
  {
    forall h | h in small ensures h !in e { assert h !in Keep(e, small); }
    forall j | 0 <= j < |main| && main[j] in e ensures e[main[j]].freq > 0 && main[j] !in main[..j] {
      assert !ColdAt(e, main, j);
      assert (small + main)[|small| + j] == main[j];
      assert forall l :: 0 <= l < j ==> (small + main)[|small| + l] == main[l];
    }
  }

  /** Victim choice when nodes are distinct: which hash goes, and to which queue it is charged. */
  lemma VictimWhenDistinct(e: Entries, small: seq<QueryHash>, main: seq<QueryHash>)
    requires Distinct(small + main)
    ensures var o := Scan(e, small, main);
      && (!NoCold(e, small) ==>
            exists k :: FirstCold(e, small, k) && o.source == Some(Small) && o.victim == Some(small[k]))
      && (NoCold(e, small) && !NoCold(e, main) ==>
            exists k :: FirstCold(e, main, k) && o.source == Some(Main) && o.victim == Some(main[k]))
      && (NoCold(e, small) && NoCold(e, main) && Keep(e, small) != [] ==>
            o.source == Some(Main) && o.victim == Some(Keep(e, small)[0]))
      && (NoCold(e, small) && NoCold(e, main) && Keep(e, small) == [] ==> o.victim == None)
  {
    VictimIsFirstOnTour(e, small, main);
    DistinctTour(e, small, main);
    var i := FirstStop(e, Tour(small, main));
    if !NoCold(e, small) {
      assert FirstCold(e, small, i);
    } else if !NoCold(e, main) {
      assert FirstCold(e, main, i - |small|);
    } else if Keep(e, small) == [] {
      NothingWhenNoCold(e, small, main);
      TourUniqueIff(e, small, main);
      NoStopIff(e, Tour(small, main));
    }
  }
}
