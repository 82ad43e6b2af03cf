/** Request coalescing: one leader per query in flight, and waiters that hear exactly their own flight. */
module Coalesce {
  import opened Basics
  import opened Store

  type Client = nat
  type Result = nat

  /** Broadcast channels hold one message. */
  const CAPACITY := 1

  /** A broadcast channel: what was sent, and whether the sender still exists. */
  datatype Channel = Channel(hash: QueryHash, sent: seq<Result>, open: bool)

  /** The in-flight map, and every channel ever made; a channel is known by its index. */
  datatype Core = Core(inFlight: map<QueryHash, nat>, channels: seq<Channel>)

  datatype Ticket = Leader(flight: nat) | Waiter(flight: nat, position: nat)

  datatype Joined = Joined(core: Core, ticket: Ticket)

  ghost predicate Wired(s: Core) {
    forall h :: h in s.inFlight ==> s.inFlight[h] < |s.channels|
  }

  /** Messages already on a channel when a receiver subscribes. */
  function SentOn(s: Core, flight: nat): nat {
    if flight < |s.channels| then |s.channels[flight].sent| else 0
  }

  function Join(s: Core, h: QueryHash): Joined {
    if h in s.inFlight then
      Joined(s, Waiter(s.inFlight[h], SentOn(s, s.inFlight[h])))
    else
      Joined(Core(s.inFlight[h := |s.channels|], s.channels + [Channel(h, [], true)]), Leader(|s.channels|))
  }

  /** First half of `complete` and of `remove`: take the sender out of the map. */
  function TakeOut(s: Core, h: QueryHash): Core {
    s.(inFlight := s.inFlight - {h})
  }

  /** Second half of `complete`: broadcast, and the sender is dropped. */
  function Send(s: Core, flight: nat, r: Result): Core {
    if flight >= |s.channels| then s
    else
      var c := s.channels[flight];
      s.(channels := s.channels[flight := c.(sent := c.sent + [r], open := false)])
  }

  /** Second half of `remove`: the sender is dropped unused, and its channel closes. */
  function Close(s: Core, flight: nat): Core {
    if flight >= |s.channels| then s
    else s.(channels := s.channels[flight := s.channels[flight].(open := false)])
  }

  class RequestCoalescer {
    var inFlight: map<QueryHash, nat>
    var channels: seq<Channel>

    ghost function Model(): Core
      reads this
    {
      Core(inFlight, channels)
    }

    constructor ()
      ensures Model() == Core(map[], []) && Wired(Model())
    {
      inFlight, channels := map[], [];
    }

    method GetOrInsert(h: QueryHash) returns (ticket: Ticket)
      requires Wired(Model())
      modifies this
      ensures Joined(Model(), ticket) == Join(old(Model()), h) && Wired(Model())
    {
      if h in inFlight {
        ticket := Waiter(inFlight[h], |channels[inFlight[h]].sent|);
      } else {
        ticket := Leader(|channels|);
        inFlight := inFlight[h := |channels|];
        channels := channels + [Channel(h, [], true)];
      }
    }

    method Complete(h: QueryHash, r: Result)
      requires Wired(Model())
      modifies this
      ensures Wired(Model())
      ensures Model() ==
              if h in old(inFlight) then Send(TakeOut(old(Model()), h), old(inFlight)[h], r) else old(Model())
    {
      if h in inFlight {
        var flight := inFlight[h];
        inFlight := inFlight - {h};
        var c := channels[flight];
        channels := channels[flight := c.(sent := c.sent + [r], open := false)];
      }
    }

    method Remove(h: QueryHash)
      requires Wired(Model())
      modifies this
      ensures Wired(Model())
      ensures Model() == if h in old(inFlight) then Close(TakeOut(old(Model()), h), old(inFlight)[h]) else old(Model())
    {
      if h in inFlight {
        var flight := inFlight[h];
        inFlight := inFlight - {h};
        channels := channels[flight := channels[flight].(open := false)];
      }
    }
  }

  // ----- the protocol, any interleaving

  /** A leader works, then holds the sender it took out with its result, then is done; or it takes the
   sender out to give up, and then drops it. A leader that finds no sender under its hash is lost. */
  datatype Phase =
    | Working(flight: nat)
    | Holding(flight: nat, result: Result)
    | Completed(flight: nat, result: Result)
    | Leaving(flight: nat)
    | GaveUp(flight: nat)
    | Lost(flight: nat)

  datatype Observation = Got(result: Result) | Closed | Lagged

  /** `leaders[f]` is the client that opened flight f. */
  datatype World = World(
    core: Core,
    leaders: seq<Client>,
    leads: map<Client, Phase>,
    waits: map<Client, Ticket>,
    heard: map<Client, Observation>)

  datatype Action =
    | Arrive(client: Client, hash: QueryHash)
    | Take(client: Client, result: Result)
    | Broadcast(client: Client)
    | GiveUp(client: Client)
    | Drop(client: Client)
    | Receive(client: Client)

  ghost predicate Enabled(w: World, a: Action) {
    match a
    case Arrive(c, _) => c !in w.leads && c !in w.waits
    case Take(c, _) => c in w.leads && w.leads[c].Working?
    case Broadcast(c) => c in w.leads && w.leads[c].Holding?
    case GiveUp(c) => c in w.leads && w.leads[c].Working?
    case Drop(c) => c in w.leads && w.leads[c].Leaving?
    case Receive(c) => c in w.waits && c !in w.heard && Heard(w, c).Some?
  }

  /** What a receiver would read now. */
  ghost function Heard(w: World, c: Client): Option<Observation>
    requires c in w.waits
  {
    var t := w.waits[c];
    if t.flight >= |w.core.channels| then None
    else
      var ch := w.core.channels[t.flight];
      var from := if t.Waiter? then t.position else 0;
      if from < |ch.sent| then Some(if |ch.sent| - from > CAPACITY then Lagged else Got(ch.sent[from]))
      else if !ch.open then Some(Closed)
      else None
  }

  function HashOf(s: Core, flight: nat): QueryHash {
    if flight < |s.channels| then s.channels[flight].hash else Blake3("")
  }

  /** A leader finishes by its own hash: whatever sender the map holds under it is the one it gets. */
  ghost function Step(w: World, a: Action): World
    requires Enabled(w, a)
  {
    match a
    case Arrive(c, h) =>
      var j := Join(w.core, h);
      if j.ticket.Leader? then
        w.(core := j.core, leaders := w.leaders + [c], leads := w.leads[c := Working(j.ticket.flight)])
      else w.(core := j.core, waits := w.waits[c := j.ticket])
    case Take(c, r) =>
      var h := HashOf(w.core, w.leads[c].flight);
      if h in w.core.inFlight then
        w.(core := TakeOut(w.core, h), leads := w.leads[c := Holding(w.core.inFlight[h], r)])
      else w.(leads := w.leads[c := Lost(w.leads[c].flight)])
    case Broadcast(c) =>
      var p := w.leads[c];
      w.(core := Send(w.core, p.flight, p.result), leads := w.leads[c := Completed(p.flight, p.result)])
    case GiveUp(c) =>
      var h := HashOf(w.core, w.leads[c].flight);
      if h in w.core.inFlight then
        w.(core := TakeOut(w.core, h), leads := w.leads[c := Leaving(w.core.inFlight[h])])
      else w.(leads := w.leads[c := Lost(w.leads[c].flight)])
    case Drop(c) =>
      w.(core := Close(w.core, w.leads[c].flight), leads := w.leads[c := GaveUp(w.leads[c].flight)])
    case Receive(c) =>
      w.(heard := w.heard[c := Heard(w, c).value])
  }

  /** Each phase pins down the flight's channel and whether the map still points at it. */
  ghost predicate PhaseOk(core: Core, p: Phase) {
    p.flight < |core.channels| &&
    var ch := core.channels[p.flight];
    match p
    case Working(f) => ch.open && ch.sent == [] && ch.hash in core.inFlight && core.inFlight[ch.hash] == f
    case Holding(f, _) => ch.open && ch.sent == [] && !(ch.hash in core.inFlight && core.inFlight[ch.hash] == f)
    case Completed(f, r) => !ch.open && ch.sent == [r] && !(ch.hash in core.inFlight && core.inFlight[ch.hash] == f)
    case Leaving(f) => ch.open && ch.sent == [] && !(ch.hash in core.inFlight && core.inFlight[ch.hash] == f)
    case GaveUp(f) => !ch.open && ch.sent == [] && !(ch.hash in core.inFlight && core.inFlight[ch.hash] == f)
    case Lost(_) => false
  }

  ghost predicate MapOk(core: Core) {
    forall h :: h in core.inFlight ==>
      core.inFlight[h] < |core.channels| && core.channels[core.inFlight[h]].hash == h
  }

  ghost predicate LeadersOk(w: World) {
    && |w.leaders| == |w.core.channels|
    && (forall f :: 0 <= f < |w.leaders| ==> w.leaders[f] in w.leads && w.leads[w.leaders[f]].flight == f)
    && (forall c :: c in w.leads ==> PhaseOk(w.core, w.leads[c]) && w.leaders[w.leads[c].flight] == c)
  }

  ghost predicate WaitersOk(w: World) {
    && (forall c :: c in w.waits ==>
         w.waits[c].Waiter? && w.waits[c].position == 0 && w.waits[c].flight < |w.core.channels|)
    && (forall c :: c in w.heard ==> c in w.waits && Heard(w, c) == Some(w.heard[c]))
  }

  ghost predicate Inv(w: World) {
    MapOk(w.core) && LeadersOk(w) && WaitersOk(w)
  }

  const NOBODY := World(Core(map[], []), [], map[], map[], map[])

  lemma StartInv()
    ensures Inv(NOBODY)
  {
  }

  /** A flight in the map has a working leader, so its channel is open and silent. */
  lemma InFlightIsWorking(w: World, h: QueryHash)
    requires Inv(w) && h in w.core.inFlight
    ensures var f := w.core.inFlight[h]; w.leads[w.leaders[f]] == Working(f)
    ensures w.core.channels[w.core.inFlight[h]].sent == [] && w.core.channels[w.core.inFlight[h]].open
  {
    var f := w.core.inFlight[h];
    assert PhaseOk(w.core, w.leads[w.leaders[f]]);
  }

  lemma JoinKeeps(w: World, a: Action)
    requires Inv(w) && Enabled(w, a) && a.Arrive? && a.hash in w.core.inFlight
    ensures Inv(Step(w, a))
  {
    InFlightIsWorking(w, a.hash);
  }

  lemma LeadKeeps(w: World, a: Action)
    requires Inv(w) && Enabled(w, a) && a.Arrive? && a.hash !in w.core.inFlight
    ensures Inv(Step(w, a))
  {
    var w' := Step(w, a);
    forall c | c in w'.leads ensures PhaseOk(w'.core, w'.leads[c]) && w'.leaders[w'.leads[c].flight] == c {
      if c != a.client { assert PhaseOk(w.core, w.leads[c]); }
    }
  }

  /** The sender a finishing leader takes out is the one it put in. */
  lemma TakesOwnSender(w: World, c: Client)
    requires Inv(w) && c in w.leads && w.leads[c].Working?
    ensures var h := w.core.channels[w.leads[c].flight].hash;
            h in w.core.inFlight && w.core.inFlight[h] == w.leads[c].flight
  {
    assert PhaseOk(w.core, w.leads[c]);
  }

  /** Finishing one flight leaves every other leader's flight as it was. */
  lemma OthersUntouched(w: World, w': World, c: Client)
    requires Inv(w) && c in w.leads && w'.leads.Keys == w.leads.Keys && w'.leaders == w.leaders
    requires |w'.core.channels| == |w.core.channels|
    requires forall d :: d in w.leads && d != c ==> w'.leads[d] == w.leads[d]
    requires forall f :: 0 <= f < |w.core.channels| && f != w.leads[c].flight ==>
             w'.core.channels[f] == w.core.channels[f]
    requires w'.core.inFlight == w.core.inFlight ||
             (w.leads[c].Working? && w'.core.inFlight == w.core.inFlight - {w.core.channels[w.leads[c].flight].hash})
    requires w'.leads[c].flight == w.leads[c].flight && PhaseOk(w'.core, w'.leads[c])
    ensures LeadersOk(w')
  {
    forall d | d in w'.leads ensures PhaseOk(w'.core, w'.leads[d]) && w'.leaders[w'.leads[d].flight] == d {
      assert PhaseOk(w.core, w.leads[d]) && PhaseOk(w.core, w.leads[c]);
    }
  }

  /** Nothing has been heard on a flight that is open and silent, so finishing it contradicts no one. */
  lemma HeardStays(w: World, w': World, flight: nat)
    requires WaitersOk(w) && flight < |w.core.channels| && w.core.channels[flight].open &&
             w.core.channels[flight].sent == []
    requires w'.waits == w.waits && w'.heard == w.heard && |w'.core.channels| == |w.core.channels|
    requires forall f :: 0 <= f < |w.core.channels| && f != flight ==> w'.core.channels[f] == w.core.channels[f]
    ensures WaitersOk(w')
  {
    forall c | c in w'.heard ensures c in w'.waits && Heard(w', c) == Some(w'.heard[c]) {
      assert c in w.waits && Heard(w, c) == Some(w.heard[c]);
    }
  }

  lemma TakeKeeps(w: World, a: Action)
    requires Inv(w) && Enabled(w, a) && a.Take?
    ensures Inv(Step(w, a))
  {
    TakesOwnSender(w, a.client);
    assert PhaseOk(w.core, w.leads[a.client]);
    OthersUntouched(w, Step(w, a), a.client);
    HeardStays(w, Step(w, a), w.leads[a.client].flight);
  }

  lemma DropKeeps(w: World, a: Action)
    requires Inv(w) && Enabled(w, a) && a.Drop?
    ensures Inv(Step(w, a))
  {
    assert PhaseOk(w.core, w.leads[a.client]);
    OthersUntouched(w, Step(w, a), a.client);
    HeardStays(w, Step(w, a), w.leads[a.client].flight);
  }

  lemma BroadcastKeeps(w: World, a: Action)
    requires Inv(w) && Enabled(w, a) && a.Broadcast?
    ensures Inv(Step(w, a))
  {
    assert PhaseOk(w.core, w.leads[a.client]);
    OthersUntouched(w, Step(w, a), a.client);
    HeardStays(w, Step(w, a), w.leads[a.client].flight);
  }

  lemma GiveUpKeeps(w: World, a: Action)
    requires Inv(w) && Enabled(w, a) && a.GiveUp?
    ensures Inv(Step(w, a))
  {
    TakesOwnSender(w, a.client);
    assert PhaseOk(w.core, w.leads[a.client]);
    OthersUntouched(w, Step(w, a), a.client);
    HeardStays(w, Step(w, a), w.leads[a.client].flight);
  }

  lemma ReceiveKeeps(w: World, a: Action)
    requires Inv(w) && Enabled(w, a) && a.Receive?
    ensures Inv(Step(w, a))
  {
    var w' := Step(w, a);
    forall c | c in w'.heard ensures c in w'.waits && Heard(w', c) == Some(w'.heard[c]) {
      if c != a.client { assert c in w.waits && Heard(w, c) == Some(w.heard[c]); }
    }
  }

  lemma StepKeeps(w: World, a: Action)
    requires Inv(w) && Enabled(w, a)
    ensures Inv(Step(w, a))
  {
    match a
    case Arrive(_, h) => if h in w.core.inFlight { JoinKeeps(w, a); } else { LeadKeeps(w, a); }
    case Take(_, _) => TakeKeeps(w, a);
    case Broadcast(_) => BroadcastKeeps(w, a);
    case GiveUp(_) => GiveUpKeeps(w, a);
    case Drop(_) => DropKeeps(w, a);
    case Receive(_) => ReceiveKeeps(w, a);
  }

  /** The world after an interleaving of disciplined clients; None when some action was not enabled. */
  ghost function After(run: seq<Action>): Option<World>
    decreases |run|
  {
    if run == [] then Some(NOBODY)
    else
      var w := After(run[..|run| - 1]);
      if w.Some? && Enabled(w.value, run[|run| - 1]) then Some(Step(w.value, run[|run| - 1])) else None
  }

  ghost predicate Reachable(w: World, run: seq<Action>) {
    After(run) == Some(w)
  }

  lemma {:induction false} ReachableInv(w: World, run: seq<Action>)
    requires Reachable(w, run)
    ensures Inv(w)
    decreases |run|
  {
    if run == [] {
      StartInv();
    } else {
      var v := After(run[..|run| - 1]).value;
      ReachableInv(v, run[..|run| - 1]);
      StepKeeps(v, run[|run| - 1]);
    }
  }

  // ----- what it is for

  /** At most one leader per hash is still working. */
  lemma OneLeaderPerHash(w: World, run: seq<Action>, c: Client, d: Client)
    requires Reachable(w, run)
    requires c in w.leads && d in w.leads && w.leads[c].Working? && w.leads[d].Working?
    requires w.leads[c].flight < |w.core.channels| && w.leads[d].flight < |w.core.channels|
    requires w.core.channels[w.leads[c].flight].hash == w.core.channels[w.leads[d].flight].hash
    ensures c == d
  {
    ReachableInv(w, run);
    TakesOwnSender(w, c);
    TakesOwnSender(w, d);
  }

  /**
   Every waiter has exactly one leader, hears nothing while that leader is unfinished, and then hears
   exactly that leader's result, or the closure of its channel; never a lag, never another flight.
   */
  lemma WaiterHearsItsLeader(w: World, run: seq<Action>, c: Client)
    requires Reachable(w, run) && c in w.waits
    ensures w.waits[c].flight < |w.leaders|
    ensures var leader := w.leaders[w.waits[c].flight];
            && leader in w.leads && w.leads[leader].flight == w.waits[c].flight
            && (forall d :: d in w.leads && w.leads[d].flight == w.waits[c].flight ==> d == leader)
            && (w.leads[leader].Working? || w.leads[leader].Holding? || w.leads[leader].Leaving? ==>
                  Heard(w, c) == None && c !in w.heard)
            && (w.leads[leader].Completed? ==> Heard(w, c) == Some(Got(w.leads[leader].result)))
            && (w.leads[leader].GaveUp? ==> Heard(w, c) == Some(Closed))
            && !w.leads[leader].Lost?
            && (c in w.heard ==> Heard(w, c) == Some(w.heard[c]))
  {
    ReachableInv(w, run);
    assert PhaseOk(w.core, w.leads[w.leaders[w.waits[c].flight]]);
  }

  /** The flight a client leads or waits on. */
  ghost function FlightOf(w: World, c: Client): nat
    requires c in w.leads || c in w.waits
  {
    if c in w.leads then w.leads[c].flight else w.waits[c].flight
  }

  /** The client takes part, on a flight that carries the hash. */
  ghost predicate Boards(w: World, c: Client, h: QueryHash) {
    && (c in w.leads || c in w.waits)
    && FlightOf(w, c) < |w.core.channels| && w.core.channels[FlightOf(w, c)].hash == h
  }

  lemma ArrivalBoards(w: World, c: Client, h: QueryHash)
    requires Inv(w) && Enabled(w, Arrive(c, h))
    ensures Boards(Step(w, Arrive(c, h)), c, h)
  {
  }

  /** Nothing that happens later moves a client to another flight or a flight to another hash. */
  lemma StepKeepsBoard(w: World, a: Action, c: Client, h: QueryHash)
    requires Inv(w) && Enabled(w, a) && Boards(w, c, h)
    ensures Boards(Step(w, a), c, h)
  {
    if (a.Take? || a.GiveUp?) && a.client in w.leads {
      TakesOwnSender(w, a.client);
    }
  }

  /** Whoever asked for a hash is on a flight that carries it, from its arrival on. */
  lemma {:induction false} ClientBoardsItsHash(w: World, run: seq<Action>, i: nat, c: Client, h: QueryHash)
    requires Reachable(w, run) && i < |run| && run[i] == Arrive(c, h)
    ensures Boards(w, c, h)
    decreases |run|
  {
    hide Inv, Enabled, Step, Boards;
    var init, last := run[..|run| - 1], run[|run| - 1];
    var v := After(init).value;
    ReachableInv(v, init);
    if i == |run| - 1 {
      ArrivalBoards(v, c, h);
    } else {
      assert init[i] == run[i];
      ClientBoardsItsHash(v, init, i, c, h);
      StepKeepsBoard(v, last, c, h);
    }
  }

  ghost predicate WorksOn(w: World, d: Client, h: QueryHash) {
    d in w.leads && w.leads[d].Working? && w.leads[d].flight < |w.core.channels| &&
    w.core.channels[w.leads[d].flight].hash == h
  }

  /** A client leads, on a flight of its own, exactly when nobody works on its hash; else it waits for whoever does. */
  lemma LeadsIffNobodyWorks(w: World, run: seq<Action>, c: Client, h: QueryHash)
    requires Reachable(w, run) && Enabled(w, Arrive(c, h))
    ensures var w' := Step(w, Arrive(c, h));
            && (c in w'.leads <==> !exists d :: WorksOn(w, d, h))
            && (c in w'.leads ==> c !in w'.waits && w'.leads[c] == Working(|w.core.channels|))
            && (forall d :: WorksOn(w, d, h) ==> c in w'.waits && w'.waits[c].flight == w.leads[d].flight)
  {
    ReachableInv(w, run);
    if h in w.core.inFlight {
      InFlightIsWorking(w, h);
      assert WorksOn(w, w.leaders[w.core.inFlight[h]], h);
    }
    forall d | WorksOn(w, d, h) ensures h in w.core.inFlight && w.core.inFlight[h] == w.leads[d].flight {
      TakesOwnSender(w, d);
    }
  }

  /** What a waiter hears is an answer to its own question: its leader worked on the hash it asked for. */
  lemma WaiterHearsItsQuestion(w: World, run: seq<Action>, i: nat, c: Client, h: QueryHash)
    requires Reachable(w, run) && i < |run| && run[i] == Arrive(c, h) && c in w.heard
    ensures c in w.waits && w.waits[c].flight < |w.leaders|
    ensures var leader := w.leaders[w.waits[c].flight];
            && leader in w.leads && w.leads[leader].flight < |w.core.channels|
            && w.core.channels[w.leads[leader].flight].hash == h
            && (w.leads[leader].Completed? || w.leads[leader].GaveUp?)
            && (w.heard[c].Got? ==> w.leads[leader].Completed? && w.heard[c].result == w.leads[leader].result)
  {
    ReachableInv(w, run);
    assert c in w.waits;
    ClientBoardsItsHash(w, run, i, c, h);
    WaiterHearsItsLeader(w, run, c);
    WaiterDoesNotLead(w, run, c);
  }

  lemma {:induction false} WaiterDoesNotLead(w: World, run: seq<Action>, c: Client)
    requires Reachable(w, run)
    ensures c in w.leads ==> c !in w.waits
    decreases |run|
  {
    if run != [] {
      var v := After(run[..|run| - 1]).value;
      WaiterDoesNotLead(v, run[..|run| - 1], c);
    }
  }

  /**
   The discipline is needed: a `complete` by anyone else reaches the waiters of a flight whose
   leader is still working.
   */
  lemma ForeignCompletionMisleads(w: World, run: seq<Action>, c: Client, r: Result)
    requires Reachable(w, run) && c in w.waits && c !in w.heard
    requires w.waits[c].flight < |w.core.channels|
    requires HashOf(w.core, w.waits[c].flight) in w.core.inFlight
    requires w.core.inFlight[HashOf(w.core, w.waits[c].flight)] == w.waits[c].flight
    ensures var h, f := HashOf(w.core, w.waits[c].flight), w.waits[c].flight;
            var v := w.(core := Send(TakeOut(w.core, h), f, r));
            && f < |v.leaders| && v.leaders[f] in v.leads && v.leads[v.leaders[f]] == Working(f)
            && Heard(v, c) == Some(Got(r))
  {
    ReachableInv(w, run);
    InFlightIsWorking(w, HashOf(w.core, w.waits[c].flight));
  }
}
