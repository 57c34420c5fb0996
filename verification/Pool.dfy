/** A pool of cooperative workers that share a cursor: its steps, what every step keeps, and
    what any finished run has done (airdrop-gate/src/index.ts, runWithConcurrency). */
module Pool {
  import opened Text

  /** Between two awaits a worker is about to take an index, waits on the call for one, or has returned. */
  datatype Worker = Ready | Busy(i: nat) | Done

  /** `slots[i]` holds what the call for index `i` returned; `calls` lists the indices handed out. */
  datatype State<U> = State(cursor: nat, workers: seq<Worker>, slots: seq<Option<U>>, calls: seq<nat>)

  function WorkerCount(workers: int): nat { if workers < 1 then 1 else workers }

  function Init<U>(n: nat, workers: int): State<U> {
    State(0, seq(WorkerCount(workers), _ => Ready), seq(n, _ => None), [])
  }

  // ----- steps -----

  /** Worker `k` reads and advances the cursor, then calls or returns. */
  function Take<U>(s: State<U>, k: nat): State<U>
    requires k < |s.workers|
  {
    if s.cursor < |s.slots| then
      State(s.cursor + 1, s.workers[k := Busy(s.cursor)], s.slots, s.calls + [s.cursor])
    else
      State(s.cursor + 1, s.workers[k := Done], s.slots, s.calls)
  }

  /** The call worker `k` waits on returns `v`. */
  function Finish<U>(s: State<U>, k: nat, v: U): State<U>
    requires k < |s.workers| && s.workers[k].Busy? && s.workers[k].i < |s.slots|
  {
    State(s.cursor, s.workers[k := Ready], s.slots[s.workers[k].i := Some(v)], s.calls)
  }

  /** The step worker `k` can make, `fn(i)` being what the call for index `i` returns. */
  ghost predicate StepOf<U>(fn: nat -> U, s: State<U>, t: State<U>, k: nat) {
    && k < |s.workers|
    && match s.workers[k]
       case Ready => t == Take(s, k)
       case Busy(i) => i < |s.slots| && t == Finish(s, k, fn(i))
       case Done => false
  }

  ghost predicate Step<U>(fn: nat -> U, s: State<U>, t: State<U>) { exists k: nat :: StepOf(fn, s, t, k) }

  // ----- what every step keeps -----

  predicate HandsOut(calls: seq<nat>, n: nat) { |calls| == n && forall i | 0 <= i < n :: calls[i] == i }

  predicate BusyWith<U>(s: State<U>, k: nat, i: nat) { k < |s.workers| && s.workers[k] == Busy(i) }

  ghost predicate Inv<U>(fn: nat -> U, n: nat, s: State<U>) {
    && |s.slots| == n && s.workers != []
    && HandsOut(s.calls, if s.cursor < n then s.cursor else n)
    && (forall k: nat, i: nat | BusyWith(s, k, i) :: i < s.cursor && i < n && s.slots[i].None?)
    && (forall k: nat, l: nat, i: nat | BusyWith(s, k, i) && BusyWith(s, l, i) :: k == l)
    && (forall i | 0 <= i < n :: s.slots[i].Some? ==> i < s.cursor && s.slots[i].value == fn(i))
    && (forall i | 0 <= i < n && i < s.cursor && s.slots[i].None? :: exists k: nat :: BusyWith(s, k, i))
    && (forall k | 0 <= k < |s.workers| && s.workers[k].Done? :: n <= s.cursor)
  }

  lemma InitKeeps<U>(fn: nat -> U, n: nat, workers: int)
    ensures Inv(fn, n, Init(n, workers))
  {
  }

  lemma TakeKeeps<U>(fn: nat -> U, n: nat, s: State<U>, k: nat)
    requires Inv(fn, n, s) && k < |s.workers| && s.workers[k].Ready?
    ensures Inv(fn, n, Take(s, k))
  {
    var t := Take(s, k);
    forall l: nat, i: nat
      ensures BusyWith(t, l, i) <==> (if l == k then s.cursor < n && i == s.cursor else BusyWith(s, l, i))
    {
    }
    forall i | 0 <= i < n && i < t.cursor && t.slots[i].None? ensures exists l: nat :: BusyWith(t, l, i) {
      if i < s.cursor {
        var l: nat :| BusyWith(s, l, i);
        assert BusyWith(t, l, i);
      } else {
        assert BusyWith(t, k, i);
      }
    }
  }

  lemma FinishKeeps<U>(fn: nat -> U, n: nat, s: State<U>, k: nat)
    requires Inv(fn, n, s) && k < |s.workers| && s.workers[k].Busy?
    ensures BusyWith(s, k, s.workers[k].i) && s.workers[k].i < |s.slots|
    ensures Inv(fn, n, Finish(s, k, fn(s.workers[k].i)))
  {
    var i0 := s.workers[k].i;
    assert BusyWith(s, k, i0);
    var t := Finish(s, k, fn(i0));
    forall l: nat, i: nat ensures BusyWith(t, l, i) <==> l != k && BusyWith(s, l, i) {}
    forall i | 0 <= i < n && i < t.cursor && t.slots[i].None? ensures exists l: nat :: BusyWith(t, l, i) {
      var l: nat :| BusyWith(s, l, i);
      assert BusyWith(t, l, i);
    }
  }

  lemma StepKeeps<U>(fn: nat -> U, n: nat, s: State<U>, t: State<U>)
    requires Inv(fn, n, s) && Step(fn, s, t)
    ensures Inv(fn, n, t) && |t.workers| == |s.workers|
  {
    var k: nat :| StepOf(fn, s, t, k);
    if s.workers[k].Ready? {
      TakeKeeps(fn, n, s, k);
    } else {
      FinishKeeps(fn, n, s, k);
    }
  }

  // ----- termination -----

  function Weight(worker: Worker): nat { match worker case Ready => 1 case Busy(_) => 2 case Done => 0 }

  function Load(workers: seq<Worker>): nat {
    if workers == [] then 0 else Weight(workers[0]) + Load(workers[1..])
  }

  function Measure<U>(s: State<U>): nat {
    3 * (if s.cursor < |s.slots| then |s.slots| - s.cursor else 0) + Load(s.workers)
  }

  lemma {:induction false} LoadUpdate(workers: seq<Worker>, k: nat, worker: Worker)
    requires k < |workers|
    ensures Load(workers[k := worker]) == Load(workers) - Weight(workers[k]) + Weight(worker)
  {
    if k == 0 {
      assert workers[0 := worker][1..] == workers[1..];
    } else {
      LoadUpdate(workers[1..], k - 1, worker);
      assert workers[k := worker][1..] == workers[1..][k - 1 := worker];
    }
  }

  lemma {:induction false} LoadOfReady(n: nat)
    ensures Load(seq(n, _ => Ready)) == n
  {
    if n > 0 {
      LoadOfReady(n - 1);
      assert seq<Worker>(n, _ => Ready)[1..] == seq<Worker>(n - 1, _ => Ready);
    }
  }

  lemma StepDecreases<U>(fn: nat -> U, n: nat, s: State<U>, t: State<U>)
    requires Inv(fn, n, s) && Step(fn, s, t)
    ensures Measure(t) < Measure(s)
  {
    var k: nat :| StepOf(fn, s, t, k);
    LoadUpdate(s.workers, k, t.workers[k]);
    assert t.workers == s.workers[k := t.workers[k]];
  }

  ghost predicate AllDone<U>(s: State<U>) { forall k | 0 <= k < |s.workers| :: s.workers[k].Done? }

  /** Until every worker has returned, some step can be made. */
  lemma NeverStuck<U>(fn: nat -> U, n: nat, s: State<U>)
    requires Inv(fn, n, s) && !AllDone(s)
    ensures exists t :: Step(fn, s, t)
  {
    var k :| 0 <= k < |s.workers| && !s.workers[k].Done?;
    if s.workers[k].Ready? {
      assert StepOf(fn, s, Take(s, k), k) && Step(fn, s, Take(s, k));
    } else {
      FinishKeeps(fn, n, s, k);
      var t := Finish(s, k, fn(s.workers[k].i));
      assert StepOf(fn, s, t, k) && Step(fn, s, t);
    }
  }

  // ----- whole runs -----

  ghost predicate IsRun<U>(fn: nat -> U, n: nat, workers: int, run: seq<State<U>>) {
    run != [] && run[0] == Init(n, workers) && forall i | 0 <= i < |run| - 1 :: Step(fn, run[i], run[i + 1])
  }

  lemma {:induction false} RunKeeps<U>(fn: nat -> U, n: nat, workers: int, run: seq<State<U>>, i: nat)
    requires IsRun(fn, n, workers, run) && i < |run|
    ensures Inv(fn, n, run[i]) && Measure(run[i]) + i <= 3 * n + WorkerCount(workers)
  {
    if i == 0 {
      InitKeeps(fn, n, workers);
      LoadOfReady(WorkerCount(workers));
      assert Init<U>(n, workers).workers == seq(WorkerCount(workers), _ => Ready);
    } else {
      RunKeeps(fn, n, workers, run, i - 1);
      assert Step(fn, run[i - 1], run[(i - 1) + 1]);
      StepKeeps(fn, n, run[i - 1], run[i]);
      StepDecreases(fn, n, run[i - 1], run[i]);
    }
  }

  /** Under any interleaving of any number of workers: each index is handed out at most once and
      in order, no two workers wait on the same index, and the run has bounded length. */
  lemma RunIsSafe<U>(fn: nat -> U, n: nat, workers: int, run: seq<State<U>>, i: nat)
    requires IsRun(fn, n, workers, run) && i < |run|
    ensures HandsOut(run[i].calls, |run[i].calls|) && |run[i].calls| <= n
    ensures forall k: nat, l: nat, x: nat | BusyWith(run[i], k, x) && BusyWith(run[i], l, x) :: k == l
    ensures |run| <= 3 * n + WorkerCount(workers) + 1
  {
    RunKeeps(fn, n, workers, run, i);
    RunKeeps(fn, n, workers, run, |run| - 1);
  }

  lemma DoneIsComplete<U>(fn: nat -> U, n: nat, s: State<U>)
    requires Inv(fn, n, s) && AllDone(s)
    ensures HandsOut(s.calls, n) && forall i | 0 <= i < n :: s.slots[i] == Some(fn(i))
  {
    assert s.workers[0].Done?;
    assert forall k: nat, i: nat :: !BusyWith(s, k, i);
  }

  /** When every worker has returned, each index was called exactly once and every slot holds
      what its call returned, whatever the interleaving. */
  lemma FinishedRunIsComplete<U>(fn: nat -> U, n: nat, workers: int, run: seq<State<U>>)
    requires IsRun(fn, n, workers, run) && AllDone(run[|run| - 1])
    ensures HandsOut(run[|run| - 1].calls, n)
    ensures |run[|run| - 1].slots| == n
    ensures forall i | 0 <= i < n :: run[|run| - 1].slots[i] == Some(fn(i))
  {
    RunKeeps(fn, n, workers, run, |run| - 1);
    DoneIsComplete(fn, n, run[|run| - 1]);
  }

  ghost function InFlight<U>(s: State<U>): set<nat> { set k: nat | k < |s.workers| && s.workers[k].Busy? }

  lemma {:induction false} AtMost(below: set<nat>, n: nat)
    requires forall k | k in below :: k < n
    ensures |below| <= n
  {
    if n > 0 {
      AtMost(below - {n - 1}, n - 1);
    } else {
      assert below == {};
    }
  }

  lemma {:induction false} WorkersStay<U>(fn: nat -> U, n: nat, workers: int, run: seq<State<U>>, i: nat)
    requires IsRun(fn, n, workers, run) && i < |run|
    ensures |run[i].workers| == WorkerCount(workers)
  {
    if i > 0 {
      WorkersStay(fn, n, workers, run, i - 1);
      RunKeeps(fn, n, workers, run, i - 1);
      assert Step(fn, run[i - 1], run[(i - 1) + 1]);
      StepKeeps(fn, n, run[i - 1], run[i]);
    }
  }

  /** No more calls are ever in flight than the caller asked for; one is always allowed. */
  lemma InFlightIsBounded<U>(fn: nat -> U, n: nat, workers: int, run: seq<State<U>>, i: nat)
    requires IsRun(fn, n, workers, run) && i < |run|
    ensures |InFlight(run[i])| <= 1 || |InFlight(run[i])| <= workers
  {
    WorkersStay(fn, n, workers, run, i);
    AtMost(InFlight(run[i]), |run[i].workers|);
  }

  /** The pool after its first `j` workers have each taken an index. */
  ghost function Started<U>(n: nat, workers: int, j: nat): State<U> {
    State(j, seq(WorkerCount(workers), (k: nat) => if k < j then Busy(k) else Ready), seq(n, _ => None),
          seq(j, (k: nat) => k))
  }

  lemma StartedSteps<U>(fn: nat -> U, n: nat, workers: int, j: nat)
    requires j < n && j < WorkerCount(workers)
    ensures Step(fn, Started(n, workers, j), Started(n, workers, j + 1))
  {
    var s, t := Started<U>(n, workers, j), Started<U>(n, workers, j + 1);
    assert t.workers == s.workers[j := Busy(j)];
    assert t.calls == s.calls + [j];
    assert StepOf(fn, s, t, j);
  }

  /** And that many can be in flight at once. */
  lemma AllCanBeInFlight<U>(fn: nat -> U, n: nat, workers: int) returns (run: seq<State<U>>)
    ensures IsRun(fn, n, workers, run)
    ensures var last := run[|run| - 1];
            forall k: nat | k < n && (k == 0 || k < workers) :: BusyWith(last, k, k)
  {
    var most := if n < WorkerCount(workers) then n else WorkerCount(workers);
    run := seq(most + 1, (j: nat) => Started(n, workers, j));
    assert run[0] == Init(n, workers) by {
      assert Started<U>(n, workers, 0).workers == Init<U>(n, workers).workers;
      assert Started<U>(n, workers, 0).slots == Init<U>(n, workers).slots;
    }
    forall j | 0 <= j < most ensures Step(fn, run[j], run[j + 1]) {
      StartedSteps(fn, n, workers, j);
    }
  }

  // ----- the pool as it runs -----

  /** What the call for the `k`th item returns; `fn` is asked about the item's own index. */
  function CallFor<U>(fn: nat -> U, targets: seq<nat>): nat -> U {
    (k: nat) => if k < |targets| then fn(targets[k]) else fn(0)
  }

  predicate DistinctTargets(targets: seq<nat>) { forall j, k | 0 <= j < k < |targets| :: targets[j] != targets[k] }

  /** The results stored so far: what the finished calls returned, in the places of their targets. */
  ghost predicate Stored<U>(fn: nat -> U, targets: seq<nat>, st: State<U>, now: seq<U>, was: seq<U>) {
    && |now| == |was| && |st.slots| == |targets|
    && (forall k | 0 <= k < |targets| :: targets[k] < |now|)
    && (forall k | 0 <= k < |targets| :: st.slots[k].Some? ==> now[targets[k]] == fn(targets[k]))
    && forall i: nat | i < |now| && i !in targets :: now[i] == was[i]
  }

  lemma StoreOne<U>(fn: nat -> U, targets: seq<nat>, st: State<U>, now: seq<U>, was: seq<U>, k: nat, after: seq<U>)
    requires DistinctTargets(targets) && Stored(fn, targets, st, now, was)
    requires k < |st.workers| && st.workers[k].Busy? && st.workers[k].i < |targets|
    requires after == now[targets[st.workers[k].i] := fn(targets[st.workers[k].i])]
    ensures Stored(fn, targets, Finish(st, k, CallFor(fn, targets)(st.workers[k].i)), after, was)
  {
  }

  lemma AllStored<U>(fn: nat -> U, targets: seq<nat>, st: State<U>, now: seq<U>, was: seq<U>)
    requires Stored(fn, targets, st, now, was)
    requires Inv(CallFor(fn, targets), |targets|, st) && AllDone(st)
    ensures HandsOut(st.calls, |targets|)
    ensures forall i: nat | i < |now| :: now[i] == if i in targets then fn(i) else was[i]
  {
    DoneIsComplete(CallFor(fn, targets), |targets|, st);
    forall i: nat | i < |now| && i in targets ensures now[i] == fn(i) {
      var k :| 0 <= k < |targets| && targets[k] == i;
    }
  }

  /** Each call handed out asked about the target in its place. */
  ghost predicate Asked<U>(targets: seq<nat>, st: State<U>, asked: seq<nat>) {
    |asked| == |st.calls| <= |targets| && asked == targets[..|asked|]
  }

  /** The variables of a running pool match state `st`. */
  ghost predicate Running<U>(fn: nat -> U, targets: seq<nat>, st: State<U>, pool: seq<Worker>, cursor: nat,
                             asked: seq<nat>, now: seq<U>, was: seq<U>) {
    && st.cursor == cursor && st.workers == pool && Inv(CallFor(fn, targets), |targets|, st)
    && Stored(fn, targets, st, now, was) && Asked(targets, st, asked)
  }

  lemma TakeRuns<U>(fn: nat -> U, targets: seq<nat>, st: State<U>, pool: seq<Worker>, cursor: nat,
                    asked: seq<nat>, now: seq<U>, was: seq<U>, k: nat)
    requires Running(fn, targets, st, pool, cursor, asked, now, was) && k < |pool| && pool[k].Ready?
    ensures var taken := cursor < |targets|;
            Running(fn, targets, Take(st, k), pool[k := if taken then Busy(cursor) else Done], cursor + 1,
                    if taken then asked + [targets[cursor]] else asked, now, was)
    ensures Measure(Take(st, k)) < Measure(st)
  {
    var call := CallFor(fn, targets);
    TakeKeeps(call, |targets|, st, k);
    assert StepOf(call, st, Take(st, k), k);
    StepDecreases(call, |targets|, st, Take(st, k));
  }

  lemma FinishRuns<U>(fn: nat -> U, targets: seq<nat>, st: State<U>, pool: seq<Worker>, cursor: nat,
                      asked: seq<nat>, now: seq<U>, was: seq<U>, k: nat)
    requires Running(fn, targets, st, pool, cursor, asked, now, was) && DistinctTargets(targets)
    requires k < |pool| && pool[k].Busy?
    ensures st.workers[k] == pool[k] && pool[k].i < |targets| == |st.slots| && targets[pool[k].i] < |now|
    ensures var i := pool[k].i; var t := Finish(st, k, fn(targets[i]));
            Running(fn, targets, t, pool[k := Ready], cursor, asked, now[targets[i] := fn(targets[i])], was)
            && Measure(t) < Measure(st)
  {
    var call := CallFor(fn, targets);
    FinishKeeps(call, |targets|, st, k);
    var i := pool[k].i;
    var t := Finish(st, k, call(i));
    StoreOne(fn, targets, st, now, was, k, now[targets[i] := fn(targets[i])]);
    assert StepOf(call, st, t, k);
    StepDecreases(call, |targets|, st, t);
  }

  /** The pool over the indices `targets`, the result for each index written to its own place in
      `store`. Which worker goes on next is chosen arbitrarily at every turn. `asked` logs the
      calls made: each target once. */
  method RunInto<U>(store: array<U>, targets: seq<nat>, workers: int, fn: nat -> U) returns (asked: seq<nat>)
    requires DistinctTargets(targets) && forall k | 0 <= k < |targets| :: targets[k] < store.Length
    modifies store
    ensures forall i | 0 <= i < store.Length :: store[i] == if i in targets then fn(i) else old(store[i])
    ensures asked == targets
  {
    asked := [];
    var pool := new Worker[WorkerCount(workers)](_ => Ready);
    var cursor := 0;
    ghost var was := store[..];
    ghost var st: State<U> := Init(|targets|, workers);
    InitKeeps(CallFor(fn, targets), |targets|, workers);
    assert pool[..] == st.workers;
    while exists k | 0 <= k < pool.Length :: !pool[k].Done?
      invariant cursor >= 0 && Running(fn, targets, st, pool[..], cursor, asked, store[..], was)
      decreases Measure(st)
    {
      var k :| 0 <= k < pool.Length && !pool[k].Done?;
      ghost var ws, now := pool[..], store[..];
      match pool[k] {
        case Ready =>
          TakeRuns(fn, targets, st, ws, cursor, asked, now, was, k);
          st := Take(st, k);
          if cursor < |targets| {
            pool[k] := Busy(cursor);
            asked := asked + [targets[cursor]];
          } else {
            pool[k] := Done;
          }
          cursor := cursor + 1;
        case Busy(i) =>
          FinishRuns(fn, targets, st, ws, cursor, asked, now, was, k);
          st := Finish(st, k, fn(targets[i]));
          store[targets[i]] := fn(targets[i]);
          assert store[..] == now[targets[i] := fn(targets[i])];
          pool[k] := Ready;
      }
    }
    AllStored(fn, targets, st, store[..], was);
    assert forall i | 0 <= i < store.Length :: store[i] == store[..][i];
  }

  /** Every result in its item's place, for any worker count and any interleaving. */
  method RunWithConcurrency<T, U(0)>(items: seq<T>, workers: int, fn: (T, nat) -> U) returns (results: array<U>)
    ensures fresh(results) && results.Length == |items|
    ensures forall i | 0 <= i < |items| :: results[i] == fn(items[i], i)
  {
    results := new U[|items|];
    if items != [] {
      var all := seq(|items|, (i: nat) => i);
      assert forall i | 0 <= i < |items| :: all[i] == i;
      var _ := RunInto(results, all, workers, (i: nat) => if i < |items| then fn(items[i], i) else fn(items[0], i));
      forall i | 0 <= i < |items| ensures results[i] == fn(items[i], i) {
        assert all[i] in all;
      }
    }
  }
}
