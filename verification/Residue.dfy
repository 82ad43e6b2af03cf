/**
 What a draining loop cannot take. Small and Main together form one list of
 nodes. Every eviction uses up a prefix of it, and the entries that the loop is
 left with, all of them hot, can be told in advance from where that prefix ends.
 */
module Residue {
  import opened Basics
  import opened Store
  import opened Eviction
  import opened Invariants

  /**
   One hash under a cut at p of the nodes q, of which the first k are Small. Before
   the cut a live hash is cold or repeated, so that it will be taken; one that is
   not there is hot, has a single node, and that node is in Main.
   */
  ghost predicate CutAt(e: Entries, q: seq<QueryHash>, k: nat, p: nat, rest: set<QueryHash>, h: QueryHash)
    requires p <= |q| && k <= |q|
  {
    if h !in e then h !in rest
    else if h in q[..p] then h !in rest && (e[h].freq == 0 || multiset(q[..p])[h] >= 2)
    else h in rest && e[h].freq > 0 && multiset(q)[h] == 1 && h !in q[..k]
  }

  ghost predicate Cut(e: Entries, q: seq<QueryHash>, k: nat, p: nat, rest: set<QueryHash>) {
    p <= |q| && k <= |q| && forall h :: CutAt(e, q, k, p, rest, h)
  }

  /** Draining these queues strands `rest`, if it goes on for long enough. */
  ghost predicate Strands(e: Entries, small: seq<QueryHash>, main: seq<QueryHash>, rest: set<QueryHash>) {
    rest != {} && exists p :: Cut(e, small + main, |small|, p, rest)
  }

  ghost predicate CoveredBy(e: Entries, small: seq<QueryHash>, main: seq<QueryHash>) {
    forall h :: h in e ==> h in small || h in main
  }

  // ----- counting nodes

  lemma {:induction false} KeepCounts(e: Entries, q: seq<QueryHash>, h: QueryHash)
    ensures multiset(Keep(e, q))[h] == if h in e then multiset(q)[h] else 0
    decreases |q|
  {
    if q != [] {
      KeepCounts(e, q[..|q| - 1], h);
      assert q == q[..|q| - 1] + [q[|q| - 1]];
    }
  }

  lemma Regroup(a: seq<QueryHash>, b: seq<QueryHash>, c: seq<QueryHash>)
    ensures a + b + c == a + (b + c)
  {
  }

  lemma {:induction false} KeepConcat(e: Entries, a: seq<QueryHash>, b: seq<QueryHash>)
    ensures Keep(e, a + b) == Keep(e, a) + Keep(e, b)
    decreases |b|
  {
    if b == [] {
      assert a + b == a && Keep(e, b) == [];
    } else {
      hide Keep;
      var init, h := b[..|b| - 1], b[|b| - 1];
      assert b == init + [h] && a + b == a + init + [h];
      KeepConcat(e, a, init);
      KeepAppend(e, a + init, h);
      KeepAppend(e, init, h);
      Regroup(Keep(e, a), Keep(e, init), if h in e then [h] else []);
    }
  }

  lemma {:induction false} KeepSameKeys(e: Entries, c: Entries, q: seq<QueryHash>)
    requires c.Keys == e.Keys
    ensures Keep(c, q) == Keep(e, q)
    decreases |q|
  {
    if q != [] {
      KeepSameKeys(e, c, q[..|q| - 1]);
    }
  }

  /** Where no scan stops, a live hash is hot and has one node. */
  lemma {:induction false} NoStopCounts(e: Entries, q: seq<QueryHash>, i: nat, h: QueryHash)
    requires i <= |q| && h in e && forall j: nat :: j < i ==> !StopsAt(e, q, j)
    ensures multiset(q[..i])[h] <= 1 && (h in q[..i] ==> e[h].freq > 0)
    decreases i
  {
    if i > 0 {
      NoStopCounts(e, q, i - 1, h);
      assert q[..i] == q[..i - 1] + [q[i - 1]];
      assert !StopsAt(e, q, i - 1);
      assert h in q[..i - 1] <==> multiset(q[..i - 1])[h] > 0;
    }
  }

  // ----- one scan, on the list of nodes

  /** The map and the nodes after a scan that stops at node i. */
  ghost function EntriesAfter(e: Entries, q: seq<QueryHash>, i: nat): Entries
    requires i < |q|
  {
    Cool(e, q[..i]) - {q[i]}
  }

  ghost function NodesAfter(e: Entries, q: seq<QueryHash>, i: nat): seq<QueryHash>
    requires i < |q|
  {
    q[i + 1..] + Keep(e, q[..i])
  }

  function SmallAfter(k: nat, i: nat): nat {
    if k > i then k - i - 1 else 0
  }

  lemma ScanStopsInSmall(e: Entries, small: seq<QueryHash>, main: seq<QueryHash>)
    requires FirstStop(e, small + main) < |small|
    ensures var q := small + main; var i := FirstStop(e, q); var o := Scan(e, small, main);
            && o.entries == EntriesAfter(e, q, i) && o.small + o.main == NodesAfter(e, q, i)
            && |o.small| == SmallAfter(|small|, i)
  {
    var q := small + main;
    var i := FirstStop(e, q);
    StopInPrefix(e, small, q);
    StopIs(e, small, i);
    hide FirstStop, Keep, Cool, Drop;
    assert q[..i] == small[..i];
    assert q[i + 1..] == small[i + 1..] + main;
  }

  lemma MainStopIs(e: Entries, small: seq<QueryHash>, main: seq<QueryHash>)
    requires |small| <= FirstStop(e, small + main) < |small + main|
    ensures FirstStop(e, small) == |small|
    ensures FirstStop(Cool(e, small), main + Keep(e, small)) == FirstStop(e, small + main) - |small|
  {
    var q, tour := small + main, Tour(small, main);
    var i := FirstStop(e, q);
    StopInPrefix(e, small, q);
    StopIs(e, small, |small|);
    StopInPrefix(e, q, tour);
    StopIs(e, tour, i);
    var m := FirstStop(Cool(e, small), main + Keep(e, small));
    hide FirstStop, Keep, Cool;
    if m < |main| {
      TourEndsInMain(e, small, main, m);
    } else {
      var k := TourEndsInThirdLeg(e, small, main);
    }
  }

  lemma ScanOfMain(e: Entries, small: seq<QueryHash>, main: seq<QueryHash>, m: nat)
    requires FirstStop(e, small) == |small|
    requires m == FirstStop(Cool(e, small), main + Keep(e, small)) < |main|
    ensures var c, kept, o := Cool(e, small), Keep(e, small), Scan(e, small, main);
            && o.small == [] && o.main == main[m + 1..] + kept + Keep(c, main[..m])
            && o.entries == Cool(c, main[..m]) - {main[m]}
  {
    var kept := Keep(e, small);
    hide FirstStop, Keep, Cool, Drop;
    assert small[..|small|] == small;
    assert (main + kept)[..m] == main[..m];
    assert (main + kept)[m + 1..] == main[m + 1..] + kept;
  }

  lemma NodesPastMain(e: Entries, small: seq<QueryHash>, main: seq<QueryHash>, m: nat)
    requires m < |main|
    ensures main[m + 1..] + Keep(e, small) + Keep(Cool(e, small), main[..m]) == NodesAfter(e, small + main, |small| + m)
  {
    var q := small + main;
    assert q[..|small| + m] == small + main[..m];
    assert q[|small| + m + 1..] == main[m + 1..];
    KeepSameKeys(e, Cool(e, small), main[..m]);
    KeepConcat(e, small, main[..m]);
    hide Keep, Cool;
    Regroup(main[m + 1..], Keep(e, small), Keep(e, main[..m]));
  }

  lemma EntriesPastMain(e: Entries, small: seq<QueryHash>, main: seq<QueryHash>, m: nat)
    requires m < |main|
    ensures Cool(Cool(e, small), main[..m]) - {main[m]} == EntriesAfter(e, small + main, |small| + m)
  {
    assert (small + main)[..|small| + m] == small + main[..m];
    CoolTwice(e, small, main[..m], small + main[..m]);
  }

  lemma ScanStopsInMain(e: Entries, small: seq<QueryHash>, main: seq<QueryHash>)
    requires |small| <= FirstStop(e, small + main) < |small + main|
    ensures var q := small + main; var i := FirstStop(e, q); var o := Scan(e, small, main);
            && o.entries == EntriesAfter(e, q, i) && o.small + o.main == NodesAfter(e, q, i)
            && |o.small| == SmallAfter(|small|, i)
  {
    hide FirstStop, Scan, EntriesAfter, NodesAfter;
    var m := FirstStop(e, small + main) - |small|;
    MainStopIs(e, small, main);
    ScanOfMain(e, small, main, m);
    NodesPastMain(e, small, main, m);
    EntriesPastMain(e, small, main, m);
  }

  // ----- the cut moves with the scan

  /** Where a hash's nodes are, around a stop at i and a cut at p. */
  lemma NodesAround(q: seq<QueryHash>, i: nat, p: nat, h: QueryHash)
    requires i < p <= |q|
    ensures var met, mid, end := multiset(q[..i])[h], multiset(q[i + 1..p])[h], multiset(q[p..])[h];
            && multiset(q[..p])[h] == met + (if h == q[i] then 1 else 0) + mid
            && multiset(q)[h] == multiset(q[..p])[h] + end
            && multiset(q[i + 1..])[h] == mid + end
    ensures h in q[..i] <==> multiset(q[..i])[h] > 0
    ensures h in q[..p] <==> multiset(q[..p])[h] > 0
    ensures h in q[i + 1..p] <==> multiset(q[i + 1..p])[h] > 0
  {
    assert q[..p] == q[..i] + [q[i]] + q[i + 1..p];
    assert q == q[..p] + q[p..];
    assert q[i + 1..] == q[i + 1..p] + q[p..];
  }

  lemma NodesAfterAround(e: Entries, q: seq<QueryHash>, i: nat, p: nat, h: QueryHash)
    requires i == FirstStop(e, q) < p <= |q|
    ensures var met := multiset(q[..i])[h];
            && multiset(NodesAfter(e, q, i))[h] == multiset(q[i + 1..])[h] + (if h in e then met else 0)
            && (h in e ==> met <= 1 && (met == 1 ==> e[h].freq > 0))
    ensures NodesAfter(e, q, i)[..p - i - 1] == q[i + 1..p]
  {
    if h in e {
      NoStopCounts(e, q, i, h);
    }
    KeepCounts(e, q[..i], h);
    hide FirstStop, Keep;
  }

  lemma SmallAround(e: Entries, q: seq<QueryHash>, i: nat, k: nat, h: QueryHash)
    requires i < |q| && k <= |q|
    ensures SmallAfter(k, i) <= |NodesAfter(e, q, i)|
    ensures h in NodesAfter(e, q, i)[..SmallAfter(k, i)] ==> h in q[..k]
    ensures h in q[..k] ==> h in q[..i] || h == q[i] || h in NodesAfter(e, q, i)[..SmallAfter(k, i)]
  {
    if k > i {
      assert q[..k] == q[..i] + [q[i]] + q[i + 1..k];
      assert NodesAfter(e, q, i)[..SmallAfter(k, i)] == q[i + 1..k];
    } else {
      assert q[..i] == q[..k] + q[k..i];
    }
  }

  /** The stop lies before every cut. */
  lemma NoCutBeforeStop(e: Entries, q: seq<QueryHash>, k: nat, p: nat, rest: set<QueryHash>, i: nat)
    requires p <= i == FirstStop(e, q) < |q| && k <= |q|
    ensures !CutAt(e, q, k, p, rest, q[i])
  {
    var v := q[i];
    assert StopsAt(e, q, i);
    NoStopCounts(e, q, i, v);
    assert q == q[..i] + [v] + q[i + 1..];
    assert q[..i] == q[..p] + q[p..i];
    assert v in q[..i] ==> multiset(q[..i])[v] > 0;
    assert v in q[..p] ==> v in q[..i];
    assert multiset(q[..p])[v] <= multiset(q[..i])[v];
  }

  lemma CutForwardAt(e: Entries, q: seq<QueryHash>, k: nat, p: nat, rest: set<QueryHash>, i: nat, h: QueryHash)
    requires i == FirstStop(e, q) < p <= |q| && k <= |q| && CutAt(e, q, k, p, rest, h)
    ensures p - i - 1 <= |NodesAfter(e, q, i)| && SmallAfter(k, i) <= |NodesAfter(e, q, i)|
    ensures CutAt(EntriesAfter(e, q, i), NodesAfter(e, q, i), SmallAfter(k, i), p - i - 1, rest, h)
  {
    NodesAround(q, i, p, h);
    NodesAfterAround(e, q, i, p, h);
    SmallAround(e, q, i, k, h);
    hide FirstStop, NodesAfter, SmallAfter;
  }

  lemma CutBackwardAt(e: Entries, q: seq<QueryHash>, k: nat, p: nat, rest: set<QueryHash>, i: nat, h: QueryHash)
    requires i == FirstStop(e, q) < p <= |q| && k <= |q|
    requires p - i - 1 <= |NodesAfter(e, q, i)| && SmallAfter(k, i) <= |NodesAfter(e, q, i)|
    requires CutAt(EntriesAfter(e, q, i), NodesAfter(e, q, i), SmallAfter(k, i), p - i - 1, rest, h)
    ensures CutAt(e, q, k, p, rest, h)
  {
    NodesAround(q, i, p, h);
    NodesAfterAround(e, q, i, p, h);
    SmallAround(e, q, i, k, h);
    assert StopsAt(e, q, i);
    hide FirstStop, NodesAfter, SmallAfter;
  }

  /** A cut among the nodes the scan sent to the back, which are cold, strands nothing. */
  lemma CutAmongKept(e: Entries, q: seq<QueryHash>, k: nat, p: nat, rest: set<QueryHash>, i: nat, h: QueryHash)
    requires i < |q| && k <= |NodesAfter(e, q, i)| && |q| - i - 1 < p <= |NodesAfter(e, q, i)|
    requires CutAt(EntriesAfter(e, q, i), NodesAfter(e, q, i), k, p, rest, h)
    ensures h !in rest
  {
    var n, back := NodesAfter(e, q, i), |q| - i - 1;
    assert n == n[..p] + n[p..];
    assert h in n <==> multiset(n)[h] > 0;
    assert n[p..] == Keep(e, q[..i])[p - back..];
    assert h in n[p..] ==> h in Keep(e, q[..i]);
  }

  lemma CutForward(e: Entries, q: seq<QueryHash>, k: nat, p: nat, rest: set<QueryHash>, i: nat)
    requires i == FirstStop(e, q) < |q| && Cut(e, q, k, p, rest)
    ensures i < p && Cut(EntriesAfter(e, q, i), NodesAfter(e, q, i), SmallAfter(k, i), p - i - 1, rest)
  {
    hide CutAt, FirstStop, EntriesAfter;
    var c, n, j, x := EntriesAfter(e, q, i), NodesAfter(e, q, i), SmallAfter(k, i), p - i - 1;
    if p <= i {
      NoCutBeforeStop(e, q, k, p, rest, i);
    }
    forall h ensures CutAt(c, n, j, x, rest, h) {
      assert CutAt(e, q, k, p, rest, h);
      CutForwardAt(e, q, k, p, rest, i, h);
    }
  }

  lemma CutBackward(e: Entries, q: seq<QueryHash>, k: nat, p: nat, rest: set<QueryHash>, i: nat)
    requires i == FirstStop(e, q) < |q| && k <= |q| && rest != {}
    requires Cut(EntriesAfter(e, q, i), NodesAfter(e, q, i), SmallAfter(k, i), p, rest)
    ensures Cut(e, q, k, p + i + 1, rest)
  {
    hide CutAt, FirstStop, EntriesAfter;
    var c, n, j, x := EntriesAfter(e, q, i), NodesAfter(e, q, i), SmallAfter(k, i), p + i + 1;
    if x > |q| {
      var h :| h in rest;
      assert CutAt(c, n, j, p, rest, h);
      CutAmongKept(e, q, j, p, rest, i, h);
    }
    forall h ensures CutAt(e, q, k, x, rest, h) {
      assert CutAt(c, n, j, p, rest, h);
      CutBackwardAt(e, q, k, x, rest, i, h);
    }
  }

  lemma CutStep(e: Entries, q: seq<QueryHash>, k: nat, rest: set<QueryHash>)
    requires FirstStop(e, q) < |q| && k <= |q| && rest != {}
    ensures var i := FirstStop(e, q);
            (exists p :: Cut(e, q, k, p, rest)) <==>
            (exists p :: Cut(EntriesAfter(e, q, i), NodesAfter(e, q, i), SmallAfter(k, i), p, rest))
  {
    hide Cut, FirstStop, EntriesAfter, NodesAfter, SmallAfter;
    var i := FirstStop(e, q);
    if p: nat :| Cut(e, q, k, p, rest) {
      CutForward(e, q, k, p, rest, i);
    }
    if p: nat :| Cut(EntriesAfter(e, q, i), NodesAfter(e, q, i), SmallAfter(k, i), p, rest) {
      CutBackward(e, q, k, p, rest, i);
    }
  }

  /** A hot hash with one node, in Small, fits no cut. */
  lemma HotInSmallFitsNoCut(e: Entries, q: seq<QueryHash>, k: nat, p: nat, rest: set<QueryHash>, h: QueryHash)
    requires p <= |q| && k <= |q| && h in e && e[h].freq > 0 && multiset(q)[h] == 1 && h in q[..k]
    ensures !CutAt(e, q, k, p, rest, h)
  {
    assert q == q[..p] + q[p..];
  }

  /** Nothing hot, nothing stranded. */
  lemma AllColdStrandsNothing(e: Entries, small: seq<QueryHash>, main: seq<QueryHash>, rest: set<QueryHash>)
    requires forall h :: h in e ==> e[h].freq == 0
    ensures !Strands(e, small, main, rest)
  {
    var q := small + main;
    forall p: nat, h | h in rest ensures !Cut(e, q, |small|, p, rest) {
      if p <= |q| {
        assert !CutAt(e, q, |small|, p, rest, h);
      }
    }
  }

  /** A scan that goes through all nodes and then takes one it promoted itself has cooled everything. */
  lemma ThirdLegStrandsNothing(e: Entries, small: seq<QueryHash>, main: seq<QueryHash>, rest: set<QueryHash>)
    requires CoveredBy(e, small, main) && FirstStop(e, small + main) == |small + main|
    requires Scan(e, small, main).victim.Some?
    ensures !Strands(e, small, main, rest)
    ensures var o := Scan(e, small, main); !Strands(o.entries, o.small, o.main, rest)
  {
    var q, tour, o := small + main, Tour(small, main), Scan(e, small, main);
    VictimIsFirstOnTour(e, small, main);
    StopInPrefix(e, q, tour);
    var t := FirstStop(e, tour);
    hide FirstStop, Scan;
    assert |q| <= t < |tour|;
    HotSmallStrandsNothing(e, small, main, t, rest);
    forall h | h in o.entries ensures o.entries[h].freq == 0 {
      assert h in q;
      assert tour[..t] == q + tour[|q|..t];
    }
    AllColdStrandsNothing(o.entries, o.small, o.main, rest);
  }

  lemma HotSmallStrandsNothing(e: Entries, small: seq<QueryHash>, main: seq<QueryHash>, t: nat, rest: set<QueryHash>)
    requires FirstStop(e, small + main) == |small + main| <= t < |Tour(small, main)|
    requires Tour(small, main)[t] in e
    ensures !Strands(e, small, main, rest)
  {
    var q, h := small + main, Tour(small, main)[t];
    assert h == small[t - |q|];
    NoStopCounts(e, q, |q|, h);
    hide FirstStop;
    assert q[..|q|] == q && q[..|small|] == small;
    assert h in q && multiset(q)[h] > 0;
    forall p: nat ensures !Cut(e, q, |small|, p, rest) {
      if p <= |q| {
        HotInSmallFitsNoCut(e, q, |small|, p, rest, h);
      }
    }
  }

  /** An eviction changes nothing about what is stranded. */
  lemma ScanKeepsStranded(e: Entries, small: seq<QueryHash>, main: seq<QueryHash>, rest: set<QueryHash>)
    requires CoveredBy(e, small, main) && Scan(e, small, main).victim.Some?
    ensures var o := Scan(e, small, main);
            Strands(e, small, main, rest) <==> Strands(o.entries, o.small, o.main, rest)
  {
    var q := small + main;
    var i := FirstStop(e, q);
    if i == |q| {
      ThirdLegStrandsNothing(e, small, main, rest);
    } else if rest != {} {
      if i < |small| {
        ScanStopsInSmall(e, small, main);
      } else {
        ScanStopsInMain(e, small, main);
      }
      CutStep(e, q, |small|, rest);
    }
  }

  lemma EvictionKeepsStranded(s: Store, rest: set<QueryHash>)
    requires Covered(s) && EvictOne(s).source.Some?
    ensures var t := EvictOne(s).store;
            Strands(s.entries, s.small, s.main, rest) <==> Strands(t.entries, t.small, t.main, rest)
  {
    ScanShrinks(s.entries, s.small, s.main);
    hide Scan, Strands;
    ScanKeepsStranded(s.entries, s.small, s.main, rest);
  }

  lemma NothingTakenNodes(e: Entries, small: seq<QueryHash>, main: seq<QueryHash>, h: QueryHash)
    requires CoveredBy(e, small, main) && NoneLive(e, small) && HotAndUnique(e, main) && h in e
    ensures h !in small && h in main && e[h].freq > 0 && multiset(small + main)[h] == 1
  {
    NoStopIff(e, main);
    NoStopCounts(e, main, |main|, h);
    hide FirstStop;
    assert main[..|main|] == main;
    assert multiset(small + main) == multiset(small) + multiset(main);
    assert h in main && multiset(main)[h] > 0;
    assert h !in small && multiset(small)[h] == 0;
  }

  /** When nothing can be taken, everything is stranded. */
  lemma NothingTakenStrandsAll(e: Entries, small: seq<QueryHash>, main: seq<QueryHash>, rest: set<QueryHash>)
    requires CoveredBy(e, small, main) && NoneLive(e, small) && HotAndUnique(e, main)
    ensures Strands(e, small, main, rest) <==> rest == e.Keys && rest != {}
  {
    hide HotAndUnique, NoneLive, CoveredBy;
    var q := small + main;
    if p: nat :| Cut(e, q, |small|, p, rest) {
      forall h ensures h in rest <==> h in e {
        assert CutAt(e, q, |small|, p, rest, h);
        if h in e {
          NothingTakenNodes(e, small, main, h);
          assert q == q[..p] + q[p..];
        }
      }
    }
    if rest == e.Keys {
      assert q[..0] == [] && q[..|small|] == small;
      forall h ensures CutAt(e, q, |small|, 0, rest, h) {
        if h in e {
          NothingTakenNodes(e, small, main, h);
        }
      }
      assert Cut(e, q, |small|, 0, rest);
    }
  }
}
