/** Batch processing: validation, the sequential loop, and the parallel branch under every schedule. */
module Batch {
  import opened Basics

  datatype Query = Query(id: string, text: string)

  /** A query's result with its timing left aside. */
  datatype Outcome = Ok(response: nat) | Err(message: string)

  datatype BatchError = EmptyBatch | TooManyQueries(count: nat, max: nat) | DuplicateId(id: string)

  datatype Response = Response(results: map<string, Outcome>, successes: nat, errors: nat, complete: bool)

  const NOTHING := Response(map[], 0, 0, true)
  const SKIPPED := Err("Skipped due to fail-fast")

  // ----- validation

  ghost predicate UniqueIds(qs: seq<Query>) {
    forall i, j :: 0 <= i < j < |qs| ==> qs[i].id != qs[j].id
  }

  ghost predicate FirstRepeat(qs: seq<Query>, k: int) {
    && 0 <= k < |qs| && UniqueIds(qs[..k])
    && exists j :: 0 <= j < k && qs[j].id == qs[k].id
  }

  /** Nothing wrong exactly when the batch is non-empty, small enough and free of repeated ids; else the first fault. */
  method Validate(qs: seq<Query>, maxQueries: nat) returns (fault: Option<BatchError>)
    ensures fault == None <==> qs != [] && |qs| <= maxQueries && UniqueIds(qs)
    ensures qs == [] ==> fault == Some(EmptyBatch)
    ensures |qs| > maxQueries && qs != [] ==> fault == Some(TooManyQueries(|qs|, maxQueries))
    ensures fault.Some? && fault.value.DuplicateId? ==> exists k :: FirstRepeat(qs, k) && qs[k].id == fault.value.id
  {
    if qs == [] {
      return Some(EmptyBatch);
    }
    if |qs| > maxQueries {
      return Some(TooManyQueries(|qs|, maxQueries));
    }
    var seen: set<string> := {};
    for i := 0 to |qs|
      invariant UniqueIds(qs[..i])
      invariant forall id :: id in seen <==> exists j :: 0 <= j < i && qs[j].id == id
    {
      if qs[i].id in seen {
        assert FirstRepeat(qs, i);
        return Some(DuplicateId(qs[i].id));
      }
      assert qs[..i + 1] == qs[..i] + [qs[i]];
      seen := seen + {qs[i].id};
    }
    assert qs[..|qs|] == qs;
    return None;
  }

  // ----- gathering results

  function Gather(r: Response, q: Query, out: Outcome): Response {
    r.(results := r.results[q.id := out],
       successes := if out.Ok? then r.successes + 1 else r.successes,
       errors := if out.Ok? then r.errors else r.errors + 1)
  }

  ghost function GatherAll(qs: seq<Query>, outs: seq<Outcome>): Response
    requires |qs| == |outs|
  {
    if qs == [] then NOTHING
    else Gather(GatherAll(qs[..|qs| - 1], outs[..|qs| - 1]), qs[|qs| - 1], outs[|qs| - 1])
  }

  lemma {:induction false} GatherAllIds(qs: seq<Query>, outs: seq<Outcome>, id: string)
    requires |qs| == |outs|
    ensures id in GatherAll(qs, outs).results <==> exists j :: 0 <= j < |qs| && qs[j].id == id
    decreases |qs|
  {
    if qs != [] {
      var n := |qs| - 1;
      GatherAllIds(qs[..n], outs[..n], id);
      assert qs == qs[..n] + [qs[n]];
      if j :| 0 <= j < n && qs[..n][j].id == id {
        assert qs[j].id == id;
      }
      if j :| 0 <= j < n && qs[j].id == id {
        assert qs[..n][j].id == id;
      }
    }
  }

  lemma {:induction false} GatherAllOutcomes(qs: seq<Query>, outs: seq<Outcome>, i: nat)
    requires |qs| == |outs| && UniqueIds(qs) && i < |qs|
    ensures qs[i].id in GatherAll(qs, outs).results && GatherAll(qs, outs).results[qs[i].id] == outs[i]
    decreases |qs|
  {
    var n := |qs| - 1;
    if i < n {
      assert UniqueIds(qs[..n]);
      GatherAllOutcomes(qs[..n], outs[..n], i);
      assert qs[i].id != qs[n].id;
    }
  }

  /** The positions answered with a response, and with an error. */
  ghost function OkAt(outs: seq<Outcome>): set<nat> {
    Where(|outs|, (i: nat) => i < |outs| && outs[i].Ok?)
  }

  ghost function ErrAt(outs: seq<Outcome>): set<nat> {
    Where(|outs|, (i: nat) => i < |outs| && outs[i].Err?)
  }

  lemma OneMorePosition(outs: seq<Outcome>)
    requires outs != []
    ensures var n := |outs| - 1;
            && |OkAt(outs)| == |OkAt(outs[..n])| + (if outs[n].Ok? then 1 else 0)
            && |ErrAt(outs)| == |ErrAt(outs[..n])| + (if outs[n].Err? then 1 else 0)
  {
    var n := |outs| - 1;
    var oks, errs := (i: nat) => i < |outs| && outs[i].Ok?, (i: nat) => i < |outs| && outs[i].Err?;
    WhereNext(n, oks);
    WhereNext(n, errs);
    WhereSame(n, oks, (i: nat) => i < n && outs[..n][i].Ok?);
    WhereSame(n, errs, (i: nat) => i < n && outs[..n][i].Err?);
    hide Where;
  }

  lemma {:induction false} GatherAllCounts(qs: seq<Query>, outs: seq<Outcome>)
    requires |qs| == |outs|
    ensures var r := GatherAll(qs, outs);
            && r.successes == |OkAt(outs)| && r.errors == |ErrAt(outs)|
            && r.successes + r.errors == |qs| && r.complete
    decreases |qs|
  {
    if qs != [] {
      hide OkAt, ErrAt;
      GatherAllCounts(qs[..|qs| - 1], outs[..|qs| - 1]);
      OneMorePosition(outs);
    }
  }

  /** Every id is answered, with its own outcome when ids are unique, and the counts add up. */
  lemma GatherAllAnswers(qs: seq<Query>, outs: seq<Outcome>)
    requires |qs| == |outs|
    ensures var r := GatherAll(qs, outs);
            && r.successes == |OkAt(outs)| && r.errors == |ErrAt(outs)|
            && r.successes + r.errors == |qs| && r.complete
            && (forall id :: id in r.results <==> exists j :: 0 <= j < |qs| && qs[j].id == id)
            && (UniqueIds(qs) ==> forall i :: 0 <= i < |qs| ==> qs[i].id in r.results && r.results[qs[i].id] == outs[i])
  {
    hide GatherAll;
    var r := GatherAll(qs, outs);
    GatherAllCounts(qs, outs);
    forall id ensures id in r.results <==> exists j :: 0 <= j < |qs| && qs[j].id == id {
      GatherAllIds(qs, outs, id);
    }
    if UniqueIds(qs) {
      forall i | 0 <= i < |qs| ensures qs[i].id in r.results && r.results[qs[i].id] == outs[i] {
        GatherAllOutcomes(qs, outs, i);
      }
    }
  }

  // ----- the sequential branch

  datatype Progress = Progress(response: Response, stopped: bool)

  /** After the first n queries; `late(i)` says the deadline has passed when query i is about to start. */
  ghost function Sequential(qs: seq<Query>, n: nat, f: Query -> Outcome, failFast: bool, late: nat -> bool): Progress
    requires n <= |qs|
  {
    if n == 0 then Progress(NOTHING, false)
    else
      var p := Sequential(qs, n - 1, f, failFast, late);
      if p.stopped then p
      else if late(n - 1) then Progress(p.response.(complete := false), true)
      else
        var out := f(qs[n - 1]);
        var r := Gather(p.response, qs[n - 1], out);
        if out.Err? && failFast then Progress(r.(complete := false), true) else Progress(r, false)
  }

  method ProcessSequentially(qs: seq<Query>, f: Query -> Outcome, failFast: bool, late: nat -> bool)
    returns (r: Response)
    ensures r == Sequential(qs, |qs|, f, failFast, late).response
  {
    r := NOTHING;
    for i := 0 to |qs|
      invariant Sequential(qs, i, f, failFast, late) == Progress(r, false)
    {
      if late(i) {
        r := r.(complete := false);
        StoppedStays(qs, i + 1, |qs|, f, failFast, late);
        return;
      }
      var out := f(qs[i]);
      r := Gather(r, qs[i], out);
      if out.Err? && failFast {
        r := r.(complete := false);
        StoppedStays(qs, i + 1, |qs|, f, failFast, late);
        return;
      }
    }
  }

  lemma {:induction false} StoppedStays(qs: seq<Query>, m: nat, n: nat, f: Query -> Outcome, failFast: bool,
                                        late: nat -> bool)
    requires m <= n <= |qs| && Sequential(qs, m, f, failFast, late).stopped
    ensures Sequential(qs, n, f, failFast, late) == Sequential(qs, m, f, failFast, late)
    decreases n
  {
    if m < n {
      StoppedStays(qs, m, n - 1, f, failFast, late);
    }
  }

  ghost function Outcomes(qs: seq<Query>, f: Query -> Outcome): seq<Outcome> {
    seq(|qs|, i requires 0 <= i < |qs| => f(qs[i]))
  }

  /** Without fail-fast and deadline the loop answers every query with its own outcome. */
  lemma {:induction false} SequentialAnswersAll(qs: seq<Query>, n: nat, f: Query -> Outcome, late: nat -> bool)
    requires n <= |qs| && forall i :: 0 <= i < |qs| ==> !late(i)
    ensures Sequential(qs, n, f, false, late) == Progress(GatherAll(qs[..n], Outcomes(qs[..n], f)), false)
    decreases n
  {
    if n > 0 {
      SequentialAnswersAll(qs, n - 1, f, late);
      assert qs[..n][..n - 1] == qs[..n - 1];
      assert Outcomes(qs[..n], f)[..n - 1] == Outcomes(qs[..n - 1], f);
    }
  }

  /** Query i is run: the deadline has not passed by then, and under fail-fast nothing before it has failed. */
  ghost predicate Ran(qs: seq<Query>, f: Query -> Outcome, failFast: bool, late: nat -> bool, i: nat) {
    && i < |qs|
    && (forall j: nat :: j <= i ==> !late(j))
    && (failFast ==> forall j: nat :: j < i ==> f(qs[j]).Ok?)
  }

  /** Every one of the first n queries is run, and under fail-fast succeeds. */
  ghost predicate AllRan(qs: seq<Query>, n: nat, f: Query -> Outcome, failFast: bool, late: nat -> bool) {
    forall i: nat :: i < n ==> Ran(qs, f, failFast, late, i) && (failFast ==> f(qs[i]).Ok?)
  }

  ghost function RanOk(qs: seq<Query>, n: nat, f: Query -> Outcome, failFast: bool, late: nat -> bool): set<nat> {
    Where(n, (i: nat) => Ran(qs, f, failFast, late, i) && f(qs[i]).Ok?)
  }

  ghost function RanErr(qs: seq<Query>, n: nat, f: Query -> Outcome, failFast: bool, late: nat -> bool): set<nat> {
    Where(n, (i: nat) => Ran(qs, f, failFast, late, i) && f(qs[i]).Err?)
  }

  lemma OneMoreRan(qs: seq<Query>, n: nat, f: Query -> Outcome, failFast: bool, late: nat -> bool)
    requires n < |qs|
    ensures var ran := Ran(qs, f, failFast, late, n);
            && |RanOk(qs, n + 1, f, failFast, late)| ==
                 |RanOk(qs, n, f, failFast, late)| + (if ran && f(qs[n]).Ok? then 1 else 0)
            && |RanErr(qs, n + 1, f, failFast, late)| ==
                 |RanErr(qs, n, f, failFast, late)| + (if ran && f(qs[n]).Err? then 1 else 0)
  {
    WhereNext(n, (i: nat) => Ran(qs, f, failFast, late, i) && f(qs[i]).Ok?);
    WhereNext(n, (i: nat) => Ran(qs, f, failFast, late, i) && f(qs[i]).Err?);
    hide Where;
  }

  /** The loop goes on while everything so far ran, and then query n runs unless it is late. */
  lemma RanNext(qs: seq<Query>, n: nat, f: Query -> Outcome, failFast: bool, late: nat -> bool)
    requires n < |qs|
    ensures Ran(qs, f, failFast, late, n) <==> AllRan(qs, n, f, failFast, late) && !late(n)
    ensures AllRan(qs, n + 1, f, failFast, late) <==>
            AllRan(qs, n, f, failFast, late) && !late(n) && (failFast ==> f(qs[n]).Ok?)
  {
    if Ran(qs, f, failFast, late, n) {
      forall i: nat | i < n ensures Ran(qs, f, failFast, late, i) && (failFast ==> f(qs[i]).Ok?) {
      }
    }
    if AllRan(qs, n, f, failFast, late) && !late(n) {
      forall j: nat | j < n ensures !late(j) && (failFast ==> f(qs[j]).Ok?) {
        assert Ran(qs, f, failFast, late, j);
      }
    }
    if AllRan(qs, n + 1, f, failFast, late) {
      assert Ran(qs, f, failFast, late, n);
    }
  }

  /**
   The sequential loop exactly, with and without fail-fast, through any pattern of lateness: it goes on while
   everything has run; it counts the responses and the errors of the queries it ran; it is complete exactly
   when it ran them all.
   */
  lemma {:induction false} SequentialExactly(qs: seq<Query>, n: nat, f: Query -> Outcome, failFast: bool,
                                             late: nat -> bool)
    requires n <= |qs|
    ensures var p := Sequential(qs, n, f, failFast, late);
            && (p.stopped <==> !AllRan(qs, n, f, failFast, late))
            && (p.response.complete <==> AllRan(qs, n, f, failFast, late))
            && p.response.successes == |RanOk(qs, n, f, failFast, late)|
            && p.response.errors == |RanErr(qs, n, f, failFast, late)|
    decreases n
  {
    if n == 0 {
      assert RanOk(qs, 0, f, failFast, late) == {} && RanErr(qs, 0, f, failFast, late) == {};
    } else {
      hide Ran, AllRan, RanOk, RanErr;
      SequentialExactly(qs, n - 1, f, failFast, late);
      OneMoreRan(qs, n - 1, f, failFast, late);
      RanNext(qs, n - 1, f, failFast, late);
    }
  }

  lemma ApartIds(qs: seq<Query>, i: nat, j: nat)
    requires UniqueIds(qs) && i < |qs| && j < |qs| && i != j
    ensures qs[i].id != qs[j].id
  {
  }

  /** With unique ids the loop answers exactly the queries it ran, each with its own outcome. */
  lemma {:induction false} SequentialAnswersRan(qs: seq<Query>, n: nat, f: Query -> Outcome, failFast: bool,
                                                late: nat -> bool, i: nat)
    requires n <= |qs| && i < |qs| && UniqueIds(qs)
    ensures var r := Sequential(qs, n, f, failFast, late).response.results;
            && (qs[i].id in r <==> i < n && Ran(qs, f, failFast, late, i))
            && (qs[i].id in r ==> r[qs[i].id] == f(qs[i]))
    decreases n
  {
    if n > 0 {
      hide Ran, AllRan, RanOk, RanErr, UniqueIds;
      SequentialAnswersRan(qs, n - 1, f, failFast, late, i);
      SequentialExactly(qs, n - 1, f, failFast, late);
      RanNext(qs, n - 1, f, failFast, late);
      if i != n - 1 {
        ApartIds(qs, i, n - 1);
      }
    }
  }

  // ----- the parallel branch

  /**
   A spawned task checks the flag, queues for a permit, runs its query, and ends, giving the
   permit back; or it ends at the check. The flag is raised when the query has been answered,
   before the permit is given back.
   */
  datatype Task = Spawned | Queued | Running | Answered(outcome: Outcome) | Skipped | Ended(outcome: Outcome)

  datatype Pool = Pool(tasks: seq<Task>, failed: bool, permits: nat)

  datatype Move = Check(task: nat) | Acquire(task: nat) | Answer(task: nat) | Finish(task: nat)

  function Fresh(n: nat, maxParallel: nat): Pool {
    Pool(seq(n, _ => Spawned), false, maxParallel)
  }

  predicate CanMove(p: Pool, m: Move) {
    m.task < |p.tasks| &&
    match m
    case Check(i) => p.tasks[i] == Spawned
    case Acquire(i) => p.tasks[i] == Queued && p.permits > 0
    case Answer(i) => p.tasks[i] == Running
    case Finish(i) => p.tasks[i].Answered?
  }

  function Step(p: Pool, m: Move, qs: seq<Query>, f: Query -> Outcome, failFast: bool): Pool
    requires |p.tasks| == |qs| && CanMove(p, m)
  {
    match m
    case Check(i) => p.(tasks := p.tasks[i := if failFast && p.failed then Skipped else Queued])
    case Acquire(i) => p.(tasks := p.tasks[i := Running], permits := p.permits - 1)
    case Answer(i) =>
      var out := f(qs[i]);
      p.(tasks := p.tasks[i := Answered(out)], failed := p.failed || (failFast && out.Err?))
    case Finish(i) =>
      p.(tasks := p.tasks[i := Ended(p.tasks[i].outcome)], permits := p.permits + 1)
  }

  /** The pool after a schedule; None when some move was not possible. */
  ghost function After(moves: seq<Move>, qs: seq<Query>, f: Query -> Outcome, failFast: bool,
                       maxParallel: nat): (p: Option<Pool>)
    ensures p.Some? ==> |p.value.tasks| == |qs|
    decreases |moves|
  {
    if moves == [] then Some(Fresh(|qs|, maxParallel))
    else
      var p := After(moves[..|moves| - 1], qs, f, failFast, maxParallel);
      var m := moves[|moves| - 1];
      if p.Some? && CanMove(p.value, m) then Some(Step(p.value, m, qs, f, failFast)) else None
  }

  /** From the start of its query to the end of the task. */
  predicate HoldsPermit(t: Task) {
    t == Running || t.Answered?
  }

  lemma AfterNone(qs: seq<Query>, f: Query -> Outcome, failFast: bool, maxParallel: nat)
    ensures After([], qs, f, failFast, maxParallel) == Some(Fresh(|qs|, maxParallel))
  {
  }

  lemma AfterNext(moves: seq<Move>, m: Move, qs: seq<Query>, f: Query -> Outcome, failFast: bool, maxParallel: nat,
                  p: Pool, next: Pool)
    requires After(moves, qs, f, failFast, maxParallel) == Some(p) && |p.tasks| == |qs|
    requires CanMove(p, m) && next == Step(p, m, qs, f, failFast)
    ensures After(moves + [m], qs, f, failFast, maxParallel) == Some(next)
  {
    assert (moves + [m])[..|moves|] == moves;
  }

  ghost function RunningCount(tasks: seq<Task>): nat {
    if tasks == [] then 0
    else RunningCount(tasks[..|tasks| - 1]) + (if HoldsPermit(tasks[|tasks| - 1]) then 1 else 0)
  }

  lemma {:induction false} RunningUpdate(tasks: seq<Task>, i: nat, t: Task)
    requires i < |tasks|
    ensures RunningCount(tasks[i := t]) ==
            RunningCount(tasks) - (if HoldsPermit(tasks[i]) then 1 else 0) + (if HoldsPermit(t) then 1 else 0)
    decreases |tasks|
  {
    var n := |tasks| - 1;
    if i < n {
      RunningUpdate(tasks[..n], i, t);
      assert tasks[i := t][..n] == tasks[..n][i := t];
    } else {
      assert tasks[i := t][..n] == tasks[..n];
    }
  }

  /** A task whose own query was answered with an error. */
  ghost predicate FailedAt(p: Pool, j: int) {
    0 <= j < |p.tasks| && (p.tasks[j].Answered? || p.tasks[j].Ended?) && p.tasks[j].outcome.Err?
  }

  ghost predicate Inv(p: Pool, qs: seq<Query>, f: Query -> Outcome, failFast: bool, maxParallel: nat) {
    && |p.tasks| == |qs|
    && p.permits + RunningCount(p.tasks) == maxParallel
    && (forall i :: 0 <= i < |qs| && (p.tasks[i].Answered? || p.tasks[i].Ended?) ==> p.tasks[i].outcome == f(qs[i]))
    && (p.failed ==> failFast && exists j :: FailedAt(p, j))
    && (forall i :: 0 <= i < |qs| && p.tasks[i].Skipped? ==> p.failed)
  }

  lemma {:induction false} NoneRunning(n: nat)
    ensures RunningCount(seq(n, _ => Spawned)) == 0
    decreases n
  {
    if n > 0 {
      NoneRunning(n - 1);
      assert seq(n, _ => Spawned)[..n - 1] == seq(n - 1, _ => Spawned);
    }
  }

  lemma StepKeeps(p: Pool, m: Move, qs: seq<Query>, f: Query -> Outcome, failFast: bool, maxParallel: nat)
    requires Inv(p, qs, f, failFast, maxParallel) && CanMove(p, m)
    ensures Inv(Step(p, m, qs, f, failFast), qs, f, failFast, maxParallel)
  {
    var p' := Step(p, m, qs, f, failFast);
    RunningUpdate(p.tasks, m.task, p'.tasks[m.task]);
    if p.failed {
      var j :| FailedAt(p, j);
      assert FailedAt(p', j);
    } else if p'.failed {
      assert FailedAt(p', m.task);
    }
  }

  lemma {:induction false} EveryScheduleKeepsInv(moves: seq<Move>, qs: seq<Query>, f: Query -> Outcome, failFast: bool,
                                                 maxParallel: nat)
    requires After(moves, qs, f, failFast, maxParallel).Some?
    ensures Inv(After(moves, qs, f, failFast, maxParallel).value, qs, f, failFast, maxParallel)
    decreases |moves|
  {
    if moves == [] {
      NoneRunning(|qs|);
    } else {
      EveryScheduleKeepsInv(moves[..|moves| - 1], qs, f, failFast, maxParallel);
      var p := After(moves[..|moves| - 1], qs, f, failFast, maxParallel).value;
      StepKeeps(p, moves[|moves| - 1], qs, f, failFast, maxParallel);
    }
  }

  /** Never more than `maxParallel` queries run at once. */
  lemma ConcurrencyBounded(moves: seq<Move>, qs: seq<Query>, f: Query -> Outcome, failFast: bool, maxParallel: nat)
    requires After(moves, qs, f, failFast, maxParallel).Some?
    ensures RunningCount(After(moves, qs, f, failFast, maxParallel).value.tasks) <= maxParallel
  {
    EveryScheduleKeepsInv(moves, qs, f, failFast, maxParallel);
  }

  // ----- joining the tasks

  predicate Over(p: Pool) {
    forall i :: 0 <= i < |p.tasks| ==> p.tasks[i].Skipped? || p.tasks[i].Ended?
  }

  function Result(t: Task): Outcome {
    if t.Ended? then t.outcome else SKIPPED
  }

  /** What awaiting a handle up to the deadline yields. */
  datatype Fate = Arrived(outcome: Outcome) | Panicked | TimedOut

  /** After the first n handles: a panic is an unattributed error, a timeout ends the loop. */
  ghost function Collect(qs: seq<Query>, fates: seq<Fate>, n: nat): Progress
    requires n <= |qs| == |fates|
  {
    if n == 0 then Progress(NOTHING, false)
    else
      var p := Collect(qs, fates, n - 1);
      if p.stopped then p
      else
        match fates[n - 1]
        case Arrived(out) => Progress(Gather(p.response, qs[n - 1], out), false)
        case Panicked => Progress(p.response.(errors := p.response.errors + 1, complete := false), false)
        case TimedOut => Progress(p.response.(complete := false), true)
  }

  /** The loop over the handles. */
  method JoinHandles(qs: seq<Query>, fates: seq<Fate>) returns (r: Response)
    requires |qs| == |fates|
    ensures r == Collect(qs, fates, |qs|).response
  {
    r := NOTHING;
    for i := 0 to |qs|
      invariant Collect(qs, fates, i) == Progress(r, false)
    {
      match fates[i]
      case Arrived(out) => r := Gather(r, qs[i], out);
      case Panicked => r := r.(errors := r.errors + 1, complete := false);
      case TimedOut =>
        r := r.(complete := false);
        CollectStays(qs, fates, i + 1, |qs|);
        return;
    }
  }

  lemma {:induction false} CollectStays(qs: seq<Query>, fates: seq<Fate>, m: nat, n: nat)
    requires m <= n <= |qs| == |fates| && Collect(qs, fates, m).stopped
    ensures Collect(qs, fates, n) == Collect(qs, fates, m)
    decreases n
  {
    if m < n {
      CollectStays(qs, fates, m, n - 1);
    }
  }

  /** Handle i was awaited and arrived: nothing up to it timed out. */
  ghost predicate Reached(fates: seq<Fate>, i: int) {
    0 <= i < |fates| && fates[i].Arrived? && forall j :: 0 <= j < i ==> !fates[j].TimedOut?
  }

  ghost predicate TimeoutBefore(fates: seq<Fate>, n: nat)
    requires n <= |fates|
  {
    exists j :: 0 <= j < n && fates[j].TimedOut?
  }

  /**
   With unique ids, a query is answered exactly when its handle arrived before any timeout, and
   with its own outcome.
   */
  lemma {:induction false} AnsweredIffReached(qs: seq<Query>, fates: seq<Fate>, n: nat)
    requires n <= |qs| == |fates| && UniqueIds(qs)
    ensures var p := Collect(qs, fates, n);
            && (p.stopped <==> TimeoutBefore(fates, n))
            && (forall i :: 0 <= i < n ==> (qs[i].id in p.response.results <==> Reached(fates, i)))
            && (forall i :: 0 <= i < n && Reached(fates, i) ==> p.response.results[qs[i].id] == fates[i].outcome)
            && (forall i :: n <= i < |qs| ==> qs[i].id !in p.response.results)
    decreases n
  {
    if n > 0 {
      AnsweredIffReached(qs, fates, n - 1);
    }
  }

  /** Handle i was awaited: nothing up to it timed out. */
  ghost predicate Awaited(fates: seq<Fate>, i: nat) {
    i < |fates| && forall j: nat :: j <= i ==> !fates[j].TimedOut?
  }

  ghost function CollectedOk(fates: seq<Fate>, n: nat): set<nat> {
    Where(n, (i: nat) => Awaited(fates, i) && fates[i].Arrived? && fates[i].outcome.Ok?)
  }

  ghost function CollectedErr(fates: seq<Fate>, n: nat): set<nat> {
    Where(n, (i: nat) => Awaited(fates, i) && (fates[i].Panicked? || (fates[i].Arrived? && fates[i].outcome.Err?)))
  }

  lemma OneMoreCollected(fates: seq<Fate>, n: nat)
    requires n < |fates|
    ensures |CollectedOk(fates, n + 1)| ==
            |CollectedOk(fates, n)| +
            (if Awaited(fates, n) && fates[n].Arrived? && fates[n].outcome.Ok? then 1 else 0)
    ensures |CollectedErr(fates, n + 1)| ==
            |CollectedErr(fates, n)| +
            (if Awaited(fates, n) && (fates[n].Panicked? || (fates[n].Arrived? && fates[n].outcome.Err?)) then 1 else 0)
  {
    WhereNext(n, (i: nat) => Awaited(fates, i) && fates[i].Arrived? && fates[i].outcome.Ok?);
    WhereNext(n, (i: nat) => Awaited(fates, i) && (fates[i].Panicked? || (fates[i].Arrived? && fates[i].outcome.Err?)));
    hide Where;
  }

  lemma AwaitedNext(fates: seq<Fate>, n: nat)
    requires n < |fates|
    ensures Awaited(fates, n) <==> !TimeoutBefore(fates, n) && !fates[n].TimedOut?
    ensures TimeoutBefore(fates, n + 1) <==> TimeoutBefore(fates, n) || fates[n].TimedOut?
  {
  }

  /** Joining counts the responses, and the errors and panics, of the handles it awaited. */
  lemma {:induction false} CollectCounts(qs: seq<Query>, fates: seq<Fate>, n: nat)
    requires n <= |qs| == |fates|
    ensures var p := Collect(qs, fates, n);
            && (p.stopped <==> TimeoutBefore(fates, n))
            && p.response.successes == |CollectedOk(fates, n)|
            && p.response.errors == |CollectedErr(fates, n)|
    decreases n
  {
    if n == 0 {
      assert CollectedOk(fates, 0) == {} && CollectedErr(fates, 0) == {};
    } else {
      hide Awaited, TimeoutBefore, CollectedOk, CollectedErr;
      CollectCounts(qs, fates, n - 1);
      OneMoreCollected(fates, n - 1);
      AwaitedNext(fates, n - 1);
    }
  }

  /** The response claims to be complete exactly when every handle arrived; then the counts cover the batch. */
  lemma {:induction false} CompleteIffAllArrived(qs: seq<Query>, fates: seq<Fate>, n: nat)
    requires n <= |qs| == |fates|
    ensures var r := Collect(qs, fates, n).response;
            && (r.complete <==> forall i :: 0 <= i < n ==> fates[i].Arrived?)
            && (r.complete ==> !Collect(qs, fates, n).stopped)
            && (!TimeoutBefore(fates, n) ==> r.successes + r.errors == n)
    decreases n
  {
    if n > 0 {
      CompleteIffAllArrived(qs, fates, n - 1);
      if !TimeoutBefore(fates, n) {
        assert !TimeoutBefore(fates, n - 1);
        NoTimeoutGoesOn(qs, fates, n - 1);
      }
    }
  }

  lemma {:induction false} NoTimeoutGoesOn(qs: seq<Query>, fates: seq<Fate>, n: nat)
    requires n <= |qs| == |fates| && !TimeoutBefore(fates, n)
    ensures !Collect(qs, fates, n).stopped
    decreases n
  {
    if n > 0 {
      NoTimeoutGoesOn(qs, fates, n - 1);
    }
  }

  /** When every handle arrives, joining is gathering. */
  lemma {:induction false} AllArrivedGathers(qs: seq<Query>, outs: seq<Outcome>, n: nat)
    requires n <= |qs| == |outs|
    ensures Collect(qs, Arrivals(outs), n) == Progress(GatherAll(qs[..n], outs[..n]), false)
    decreases n
  {
    if n > 0 {
      AllArrivedGathers(qs, outs, n - 1);
      assert qs[..n][..n - 1] == qs[..n - 1] && outs[..n][..n - 1] == outs[..n - 1];
    }
  }

  ghost function Arrivals(outs: seq<Outcome>): (fates: seq<Fate>)
    ensures |fates| == |outs|
  {
    seq(|outs|, i requires 0 <= i < |outs| => Arrived(outs[i]))
  }

  ghost function Results(p: Pool): (outs: seq<Outcome>)
    ensures |outs| == |p.tasks|
  {
    seq(|p.tasks|, i requires 0 <= i < |p.tasks| => Result(p.tasks[i]))
  }

  /** The response to a pool whose handles all arrive in time. */
  ghost function Joined(qs: seq<Query>, p: Pool): Response
    requires |p.tasks| == |qs|
  {
    Collect(qs, Arrivals(Results(p)), |qs|).response
  }

  lemma JoinedGathers(qs: seq<Query>, p: Pool)
    requires |p.tasks| == |qs|
    ensures Joined(qs, p) == GatherAll(qs, Results(p))
  {
    AllArrivedGathers(qs, Results(p), |qs|);
    assert qs[..|qs|] == qs && Results(p)[..|qs|] == Results(p);
  }

  /** Without fail-fast, every schedule that runs to the end gives the sequential response. */
  lemma ScheduleIndependence(moves: seq<Move>, qs: seq<Query>, f: Query -> Outcome, maxParallel: nat, late: nat -> bool)
    requires After(moves, qs, f, false, maxParallel).Some? && Over(After(moves, qs, f, false, maxParallel).value)
    requires forall i :: 0 <= i < |qs| ==> !late(i)
    ensures Joined(qs, After(moves, qs, f, false, maxParallel).value) == Sequential(qs, |qs|, f, false, late).response
  {
    var p := After(moves, qs, f, false, maxParallel).value;
    EveryScheduleKeepsInv(moves, qs, f, false, maxParallel);
    SequentialAnswersAll(qs, |qs|, f, late);
    assert qs[..|qs|] == qs;
    assert Results(p) == Outcomes(qs, f);
    JoinedGathers(qs, p);
  }

  /**
   With fail-fast, a skipped query proves that another one ran and failed; every id is still answered,
   the counts cover the batch, and the response claims to be complete.
   */
  lemma FailFastInParallel(moves: seq<Move>, qs: seq<Query>, f: Query -> Outcome, maxParallel: nat)
    requires After(moves, qs, f, true, maxParallel).Some? && Over(After(moves, qs, f, true, maxParallel).value)
    ensures var p := After(moves, qs, f, true, maxParallel).value; var r := Joined(qs, p);
            && (forall i :: 0 <= i < |qs| && p.tasks[i].Skipped? ==> exists j :: FailedAt(p, j) && f(qs[j]).Err?)
            && (forall i :: 0 <= i < |qs| ==> qs[i].id in r.results)
            && r.successes + r.errors == |qs|
            && r.complete
  {
    var p := After(moves, qs, f, true, maxParallel).value;
    EveryScheduleKeepsInv(moves, qs, f, true, maxParallel);
    GatherAllAnswers(qs, Results(p));
    JoinedGathers(qs, p);
    forall i | 0 <= i < |qs| && p.tasks[i].Skipped? ensures exists j :: FailedAt(p, j) && f(qs[j]).Err? {
      var j :| FailedAt(p, j);
    }
  }

  /** A first query that fails, the second checking the flag after it: the batch is aborted and says it is complete. */
  lemma AbortedBatchClaimsComplete(first: Query, second: Query, f: Query -> Outcome, maxParallel: nat)
    requires first.id != second.id && f(first).Err? && maxParallel >= 1
    ensures var moves, qs := [Check(0), Acquire(0), Answer(0), Finish(0), Check(1)], [first, second];
            var p := After(moves, qs, f, true, maxParallel);
            && p.Some? && Over(p.value) && p.value.tasks == [Ended(f(first)), Skipped]
            && Joined(qs, p.value).complete && Joined(qs, p.value).errors == 2
            && Joined(qs, p.value).results == map[first.id := f(first), second.id := SKIPPED]
  {
    hide After, Joined;
    var qs, n := [first, second], maxParallel;
    assert Fresh(2, n).tasks == [Spawned, Spawned];
    AfterNone(qs, f, true, n);
    var p0, p1 := Pool([Spawned, Spawned], false, n), Pool([Queued, Spawned], false, n);
    var p2, p3 := Pool([Running, Spawned], false, n - 1), Pool([Answered(f(first)), Spawned], true, n - 1);
    var p4, p := Pool([Ended(f(first)), Spawned], true, n), Pool([Ended(f(first)), Skipped], true, n);
    var m1 := [] + [Check(0)];
    var m2 := m1 + [Acquire(0)];
    var m3 := m2 + [Answer(0)];
    var m4 := m3 + [Finish(0)];
    AfterNext([], Check(0), qs, f, true, n, p0, p1);
    AfterNext(m1, Acquire(0), qs, f, true, n, p1, p2);
    AfterNext(m2, Answer(0), qs, f, true, n, p2, p3);
    AfterNext(m3, Finish(0), qs, f, true, n, p3, p4);
    AfterNext(m4, Check(1), qs, f, true, n, p4, p);
    assert m4 + [Check(1)] == [Check(0), Acquire(0), Answer(0), Finish(0), Check(1)];
    JoinedGathers(qs, p);
    assert Results(p) == [f(first), SKIPPED];
    TwoGathered(first, second, f(first), SKIPPED);
  }

  lemma TwoGathered(first: Query, second: Query, a: Outcome, b: Outcome)
    ensures GatherAll([first, second], [a, b]) == Gather(Gather(NOTHING, first, a), second, b)
  {
    assert [first, second][..1] == [first] && [a, b][..1] == [a];
    assert [first][..0] == [] && [a][..0] == [];
    assert GatherAll([], []) == NOTHING;
    assert GatherAll([first], [a]) == Gather(NOTHING, first, a);
  }

  /** The sequential loop under fail-fast reports the abort that the parallel branch does not. */
  lemma {:induction false} SequentialFailFastIncomplete(qs: seq<Query>, n: nat, f: Query -> Outcome, late: nat -> bool)
    requires n <= |qs| && forall i :: 0 <= i < |qs| ==> !late(i)
    ensures var p := Sequential(qs, n, f, true, late);
            && (p.response.complete <==> forall i :: 0 <= i < n ==> f(qs[i]).Ok?)
            && (p.stopped <==> !p.response.complete)
    decreases n
  {
    if n > 0 {
      SequentialFailFastIncomplete(qs, n - 1, f, late);
    }
  }

  // ----- progress

  function MovesLeft(t: Task): nat {
    match t
    case Spawned => 4
    case Queued => 3
    case Running => 2
    case Answered(_) => 1
    case _ => 0
  }

  /** Moves the tasks still have before them, at most. */
  ghost function Work(tasks: seq<Task>): nat {
    if tasks == [] then 0
    else Work(tasks[..|tasks| - 1]) + MovesLeft(tasks[|tasks| - 1])
  }

  lemma {:induction false} WorkUpdate(tasks: seq<Task>, i: nat, t: Task)
    requires i < |tasks|
    ensures Work(tasks[i := t]) == Work(tasks) - MovesLeft(tasks[i]) + MovesLeft(t)
    decreases |tasks|
  {
    var n := |tasks| - 1;
    if i < n {
      WorkUpdate(tasks[..n], i, t);
      assert tasks[i := t][..n] == tasks[..n][i := t];
    } else {
      assert tasks[i := t][..n] == tasks[..n];
    }
  }

  lemma MovesUseWork(p: Pool, m: Move, qs: seq<Query>, f: Query -> Outcome, failFast: bool)
    requires |p.tasks| == |qs| && CanMove(p, m)
    ensures Work(Step(p, m, qs, f, failFast).tasks) < Work(p.tasks)
  {
    WorkUpdate(p.tasks, m.task, Step(p, m, qs, f, failFast).tasks[m.task]);
  }

  lemma {:induction false} FreshWork(n: nat)
    ensures Work(seq(n, _ => Spawned)) == 4 * n
    decreases n
  {
    if n > 0 {
      FreshWork(n - 1);
      assert seq(n, _ => Spawned)[..n - 1] == seq(n - 1, _ => Spawned);
    }
  }

  /** No schedule is longer than four moves per query. */
  lemma {:induction false} SchedulesAreShort(moves: seq<Move>, qs: seq<Query>, f: Query -> Outcome, failFast: bool,
                                             maxParallel: nat)
    requires After(moves, qs, f, failFast, maxParallel).Some?
    ensures |moves| + Work(After(moves, qs, f, failFast, maxParallel).value.tasks) <= 4 * |qs|
    decreases |moves|
  {
    if moves == [] {
      FreshWork(|qs|);
    } else {
      var init, m := moves[..|moves| - 1], moves[|moves| - 1];
      SchedulesAreShort(init, qs, f, failFast, maxParallel);
      MovesUseWork(After(init, qs, f, failFast, maxParallel).value, m, qs, f, failFast);
    }
  }

  lemma SomeMove(p: Pool, qs: seq<Query>, f: Query -> Outcome, failFast: bool, maxParallel: nat) returns (m: Move)
    requires Inv(p, qs, f, failFast, maxParallel) && maxParallel >= 1 && !Over(p)
    ensures CanMove(p, m)
  {
    var i :| 0 <= i < |p.tasks| && !(p.tasks[i].Skipped? || p.tasks[i].Ended?);
    if p.tasks[i] == Spawned {
      m := Check(i);
    } else if p.tasks[i] == Running {
      m := Answer(i);
    } else if p.tasks[i].Answered? {
      m := Finish(i);
    } else if p.permits > 0 {
      m := Acquire(i);
    } else {
      var j := SomeRunning(p.tasks);
      m := if p.tasks[j] == Running then Answer(j) else Finish(j);
    }
  }

  lemma {:induction false} SomeRunning(tasks: seq<Task>) returns (j: nat)
    requires RunningCount(tasks) > 0
    ensures j < |tasks| && HoldsPermit(tasks[j])
    decreases |tasks|
  {
    if HoldsPermit(tasks[|tasks| - 1]) {
      j := |tasks| - 1;
    } else {
      j := SomeRunning(tasks[..|tasks| - 1]);
    }
  }

  /** The schedule is possible and every task is over after it. */
  ghost predicate RunsOut(moves: seq<Move>, qs: seq<Query>, f: Query -> Outcome, failFast: bool, maxParallel: nat) {
    var p := After(moves, qs, f, failFast, maxParallel);
    p.Some? && Over(p.value)
  }

  /** With at least one permit, every schedule can be continued until every task is over. */
  lemma {:induction false} NeverStuck(moves: seq<Move>, qs: seq<Query>, f: Query -> Outcome, failFast: bool,
                                      maxParallel: nat)
    requires After(moves, qs, f, failFast, maxParallel).Some? && maxParallel >= 1
    ensures exists more: seq<Move> :: RunsOut(moves + more, qs, f, failFast, maxParallel)
    decreases Work(After(moves, qs, f, failFast, maxParallel).value.tasks)
  {
    hide After, Over, Inv, CanMove, Step;
    var p := After(moves, qs, f, failFast, maxParallel).value;
    if Over(p) {
      assert moves + [] == moves;
    } else {
      EveryScheduleKeepsInv(moves, qs, f, failFast, maxParallel);
      var m := SomeMove(p, qs, f, failFast, maxParallel);
      var next := moves + [m];
      AfterNext(moves, m, qs, f, failFast, maxParallel, p, Step(p, m, qs, f, failFast));
      MovesUseWork(p, m, qs, f, failFast);
      NeverStuck(next, qs, f, failFast, maxParallel);
      var more: seq<Move> :| RunsOut(next + more, qs, f, failFast, maxParallel);
      assert next + more == moves + ([m] + more);
    }
  }

  /** With `max_parallel` zero nothing ever runs, so a batch can only time out. */
  lemma {:induction false} NoPermitsNoResults(moves: seq<Move>, qs: seq<Query>, f: Query -> Outcome, failFast: bool,
                                              i: nat)
    requires After(moves, qs, f, failFast, 0).Some? && i < |qs|
    ensures var p := After(moves, qs, f, failFast, 0).value; p.tasks[i] == Spawned || p.tasks[i] == Queued
    ensures !After(moves, qs, f, failFast, 0).value.failed && After(moves, qs, f, failFast, 0).value.permits == 0
    decreases |moves|
  {
    if moves != [] {
      NoPermitsNoResults(moves[..|moves| - 1], qs, f, failFast, i);
      var m := moves[|moves| - 1];
      NoPermitsNoResults(moves[..|moves| - 1], qs, f, failFast, m.task);
    }
  }

  // ----- when a batch can be aborted

  /** The schedule runs out and query i has been skipped. */
  ghost predicate Skips(moves: seq<Move>, qs: seq<Query>, f: Query -> Outcome, maxParallel: nat, i: nat) {
    var p := After(moves, qs, f, true, maxParallel);
    p.Some? && Over(p.value) && i < |qs| && p.value.tasks[i].Skipped?
  }

  /** The schedule aborts the batch: it runs out with some query skipped. */
  ghost predicate Aborts(moves: seq<Move>, qs: seq<Query>, f: Query -> Outcome, maxParallel: nat) {
    exists i: nat :: Skips(moves, qs, f, maxParallel, i)
  }

  lemma {:induction false} SkippedStays(moves: seq<Move>, more: seq<Move>, qs: seq<Query>, f: Query -> Outcome,
                                        maxParallel: nat, i: nat)
    requires i < |qs| && After(moves, qs, f, true, maxParallel).Some?
    requires After(moves, qs, f, true, maxParallel).value.tasks[i].Skipped?
    requires After(moves + more, qs, f, true, maxParallel).Some?
    ensures After(moves + more, qs, f, true, maxParallel).value.tasks[i].Skipped?
    decreases |more|
  {
    if more == [] {
      assert moves + more == moves;
    } else {
      var init, all := more[..|more| - 1], moves + more;
      assert all[..|all| - 1] == moves + init;
      SkippedStays(moves, init, qs, f, maxParallel, i);
    }
  }

  /** Let query j fail before query i looks at the flag. */
  lemma FailThenCheck(qs: seq<Query>, f: Query -> Outcome, maxParallel: nat, j: nat, i: nat)
    requires j < |qs| && i < |qs| && i != j && f(qs[j]).Err? && maxParallel >= 1
    ensures var p := After([] + [Check(j)] + [Acquire(j)] + [Answer(j)] + [Check(i)], qs, f, true, maxParallel);
            p.Some? && p.value.tasks[i].Skipped?
  {
    hide After;
    var m1 := [] + [Check(j)];
    var m2 := m1 + [Acquire(j)];
    var m3 := m2 + [Answer(j)];
    var p0 := Fresh(|qs|, maxParallel);
    AfterNone(qs, f, true, maxParallel);
    var p1 := Step(p0, Check(j), qs, f, true);
    AfterNext([], Check(j), qs, f, true, maxParallel, p0, p1);
    var p2 := Step(p1, Acquire(j), qs, f, true);
    AfterNext(m1, Acquire(j), qs, f, true, maxParallel, p1, p2);
    var p3 := Step(p2, Answer(j), qs, f, true);
    AfterNext(m2, Answer(j), qs, f, true, maxParallel, p2, p3);
    AfterNext(m3, Check(i), qs, f, true, maxParallel, p3, Step(p3, Check(i), qs, f, true));
  }

  lemma FailureCanAbort(qs: seq<Query>, f: Query -> Outcome, maxParallel: nat, j: nat, i: nat)
    requires j < |qs| && i < |qs| && i != j && f(qs[j]).Err? && maxParallel >= 1
    ensures exists moves :: Skips(moves, qs, f, maxParallel, i)
  {
    hide After, Over;
    var moves := [] + [Check(j)] + [Acquire(j)] + [Answer(j)] + [Check(i)];
    FailThenCheck(qs, f, maxParallel, j, i);
    NeverStuck(moves, qs, f, true, maxParallel);
    var more: seq<Move> :| RunsOut(moves + more, qs, f, true, maxParallel);
    SkippedStays(moves, more, qs, f, maxParallel, i);
    assert Skips(moves + more, qs, f, maxParallel, i);
  }

  lemma SkipNeedsFailure(moves: seq<Move>, qs: seq<Query>, f: Query -> Outcome, maxParallel: nat, i: nat)
    requires Skips(moves, qs, f, maxParallel, i)
    ensures maxParallel >= 1 && |qs| >= 2 && exists j :: 0 <= j < |qs| && f(qs[j]).Err?
  {
    var p := After(moves, qs, f, true, maxParallel).value;
    FailFastInParallel(moves, qs, f, maxParallel);
    var j :| FailedAt(p, j) && f(qs[j]).Err?;
    assert 0 <= j < |qs| && j != i;
    if maxParallel == 0 {
      NoPermitsNoResults(moves, qs, f, true, i);
    }
  }

  /**
   Some schedule aborts the batch exactly when a query can run, another can fail, and there are two.
   Every such schedule still answers with a response that says it is complete.
   */
  lemma BatchCanAbortIff(qs: seq<Query>, f: Query -> Outcome, maxParallel: nat)
    ensures (exists moves :: Aborts(moves, qs, f, maxParallel)) <==>
            maxParallel >= 1 && |qs| >= 2 && exists j :: 0 <= j < |qs| && f(qs[j]).Err?
    ensures forall moves :: Aborts(moves, qs, f, maxParallel) ==>
              Joined(qs, After(moves, qs, f, true, maxParallel).value).complete
  {
    hide Joined;
    forall moves | Aborts(moves, qs, f, maxParallel)
      ensures Joined(qs, After(moves, qs, f, true, maxParallel).value).complete
      ensures maxParallel >= 1 && |qs| >= 2 && exists j :: 0 <= j < |qs| && f(qs[j]).Err?
    {
      var i: nat :| Skips(moves, qs, f, maxParallel, i);
      SkipNeedsFailure(moves, qs, f, maxParallel, i);
      FailFastInParallel(moves, qs, f, maxParallel);
    }
    if maxParallel >= 1 && |qs| >= 2 {
      if j :| 0 <= j < |qs| && f(qs[j]).Err? {
        var i := if j == 0 then 1 else 0;
        FailureCanAbort(qs, f, maxParallel, j, i);
        var moves :| Skips(moves, qs, f, maxParallel, i);
        assert Aborts(moves, qs, f, maxParallel);
      }
    }
  }
}
