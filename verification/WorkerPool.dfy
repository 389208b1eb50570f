/** `runTasksWithConcurrency` as a step system: workers claim task indices from one shared
    counter, their tasks finish or reject in any order, and an abort may come at any time. */
module WorkerPool {
  import opened Prelude

  // ----- The abort error -----

  /** `AbortSignal.reason`: an error, a string, or any other value. */
  datatype Reason = ErrorReason(error: Thrown) | StringReason(text: string) | OtherReason

  datatype Thrown = Thrown(name: string, message: string)

  /** `/cancel/i.test(message)`. */
  predicate MentionsCancel(message: string) {
    exists i :: 0 <= i < |message| && CancelAt(message, i)
  }

  predicate CancelAt(message: string, i: nat) {
    i + 6 <= |message| && forall j :: 0 <= j < 6 ==> message[i + j] == "cancel"[j] || message[i + j] == "CANCEL"[j]
  }

  /** An error that callers recognise as a cancellation, by its name or by its message. */
  predicate IsCancellation(e: Thrown) {
    EndsWith(e.name, "CancelledError") || MentionsCancel(e.message)
  }

  const CANCELLED := "Task execution cancelled"

  /** `errorFromAbortSignal`. */
  function ErrorFromAbortSignal(reason: Reason): Thrown {
    match reason
    case ErrorReason(e) => if IsCancellation(e) then e else Thrown("Error", CANCELLED + ": " + e.message)
    case StringReason(text) => Thrown("Error", if IsBlank(text) then CANCELLED else CANCELLED + ": " + text)
    case OtherReason => Thrown("Error", CANCELLED)
  }

  /** Whatever the reason, the error that is thrown is recognised as a cancellation, and a pool
      around this one that is aborted with it throws it on unchanged. An error reason is thrown
      as it is exactly when it is recognised already. */
  lemma AbortErrorIsCancellation(reason: Reason)
    ensures var e := ErrorFromAbortSignal(reason); IsCancellation(e) && ErrorFromAbortSignal(ErrorReason(e)) == e
    ensures reason.ErrorReason? ==>
      (ErrorFromAbortSignal(reason) == reason.error <==>
         EndsWith(reason.error.name, "CancelledError") || MentionsCancel(reason.error.message))
    ensures var e := ErrorFromAbortSignal(reason);
      match reason
      case ErrorReason(cause) => e == cause || e == Thrown("Error", "Task execution cancelled: " + cause.message)
      case StringReason(text) =>
        && e.name == "Error"
        && e.message == if Trim(text) == "" then "Task execution cancelled" else "Task execution cancelled: " + text
      case OtherReason => e == Thrown("Error", "Task execution cancelled")
  {
    var e := ErrorFromAbortSignal(reason);
    assert CANCELLED + ": " == "Task execution cancelled: ";
    if reason.StringReason? {
      BlankIsTrimmedEmpty(reason.text);
    }
    if CANCELLED <= e.message {
      assert forall j :: 0 <= j < |CANCELLED| ==> e.message[j] == CANCELLED[j];
      assert CancelAt(e.message, 15);
    }
  }

  // ----- The pool -----

  /** A worker between two awaits, awaiting the task it claimed, or settled. */
  datatype Worker<E> = Ready | Running(index: nat) | Returned | Rejected(error: E)

  datatype Outcome<T, E> = Values(results: seq<Option<T>>) | TaskError(error: E) | AbortError(abort: Thrown)

  /** `claims` logs the indices in the order in which their tasks were started. */
  datatype Pool<T, E> = Pool(
    nextIndex: nat, workers: seq<Worker<E>>, results: seq<Option<T>>, aborted: Option<Reason>,
    claims: seq<nat>, outcome: Option<Outcome<T, E>>)

  datatype Action<T, E> =
    | Resume(w: nat)
    | Complete(w: nat, value: T)
    | Reject(w: nat, error: E)
    | Abort(reason: Reason)
    | Settle

  /** `Math.max(1, Math.min(concurrency, tasks.length || 1))`. */
  function WorkerCount(concurrency: int, taskCount: nat): (r: nat)
    ensures 1 <= r <= Max(1, taskCount) && r <= Max(1, concurrency)
    ensures concurrency <= r || taskCount <= r
  {
    Max(1, Min(concurrency, if taskCount == 0 then 1 else taskCount))
  }

  function Start<T, E>(concurrency: int, taskCount: nat): Pool<T, E> {
    Pool(0, seq(WorkerCount(concurrency, taskCount), _ => Ready), seq(taskCount, _ => None), None, [], None)
  }

  predicate Settled<E>(w: Worker<E>) {
    w.Returned? || w.Rejected?
  }

  /** The call is not over, and `w` is one of its workers. */
  predicate IsWorker<T, E>(s: Pool<T, E>, w: nat) {
    s.outcome.None? && w < |s.workers|
  }

  predicate Enabled<T, E>(s: Pool<T, E>, act: Action<T, E>) {
    match act
    case Resume(w) => IsWorker(s, w) && s.workers[w].Ready?
    case Complete(w, _) => IsWorker(s, w) && s.workers[w].Running? && s.workers[w].index < |s.results|
    case Reject(w, _) => IsWorker(s, w) && s.workers[w].Running?
    case Abort(_) => s.outcome.None? && s.aborted.None?
    case Settle => s.outcome.None? && forall w :: 0 <= w < |s.workers| ==> Settled(s.workers[w])
  }

  function Apply<T, E>(s: Pool<T, E>, act: Action<T, E>): Pool<T, E>
    requires Enabled(s, act)
  {
    match act
    case Resume(w) =>
      if s.nextIndex >= |s.results| || s.aborted.Some? then s.(workers := s.workers[w := Returned])
      else
        s.(workers := s.workers[w := Running(s.nextIndex)],
           nextIndex := s.nextIndex + 1, claims := s.claims + [s.nextIndex])
    case Complete(w, value) =>
      s.(results := s.results[s.workers[w].index := Some(value)], workers := s.workers[w := Ready])
    case Reject(w, error) => s.(workers := s.workers[w := Rejected(error)])
    case Abort(reason) => s.(aborted := Some(reason))
    case Settle => s.(outcome := Some(Result(s)))
  }

  /** What the call settles to once all workers have. */
  function Result<T, E>(s: Pool<T, E>): Outcome<T, E> {
    if s.aborted.Some? then AbortError(ErrorFromAbortSignal(s.aborted.value))
    else
      var first := FirstRejected(s.workers, 0);
      if first < |s.workers| then TaskError(s.workers[first].error) else Values(s.results)
  }

  /** `settled.find(...)`: the position of the first rejected worker from `i` on, or the length. */
  function FirstRejected<E>(workers: seq<Worker<E>>, i: nat): (r: nat)
    requires i <= |workers|
    ensures i <= r <= |workers|
    ensures forall j :: i <= j < r ==> !workers[j].Rejected?
    ensures r < |workers| ==> workers[r].Rejected?
    decreases |workers| - i
  {
    if i == |workers| || workers[i].Rejected? then i else FirstRejected(workers, i + 1)
  }

  ghost predicate ValidRun<T, E>(states: seq<Pool<T, E>>, acts: seq<Action<T, E>>, concurrency: int, taskCount: nat) {
    && |states| == |acts| + 1 && states[0] == Start(concurrency, taskCount)
    && forall i :: 0 <= i < |acts| ==> Enabled(states[i], acts[i]) && states[i + 1] == Apply(states[i], acts[i])
  }

  // ----- Claims -----

  ghost predicate InFlight<T, E>(s: Pool<T, E>, i: nat) {
    exists w :: 0 <= w < |s.workers| && s.workers[w] == Running(i)
  }

  ghost predicate SomeRejected<T, E>(s: Pool<T, E>) {
    exists w :: 0 <= w < |s.workers| && s.workers[w].Rejected?
  }

  ghost predicate Inv<T, E>(s: Pool<T, E>, concurrency: int, taskCount: nat) {
    && |s.workers| == WorkerCount(concurrency, taskCount)
    && ClaimInv(s, taskCount) && SlotInv(s, taskCount)
  }

  ghost predicate ClaimInv<T, E>(s: Pool<T, E>, taskCount: nat) {
    && |s.results| == taskCount && s.nextIndex <= taskCount
    // Indices are claimed in order, each once.
    && s.claims == seq(s.nextIndex, i => i)
    // No two workers run the same task, and only claimed tasks run.
    && (forall v, w :: 0 <= v < w < |s.workers| && s.workers[v].Running? && s.workers[w].Running? ==>
          s.workers[v].index != s.workers[w].index)
    && (forall w :: 0 <= w < |s.workers| && s.workers[w].Running? ==>
          s.workers[w].index < s.nextIndex && s.results[s.workers[w].index].None?)
    && (forall i :: s.nextIndex <= i < taskCount ==> s.results[i].None?)
  }

  ghost predicate SlotInv<T, E>(s: Pool<T, E>, taskCount: nat)
    requires ClaimInv(s, taskCount)
  {
    // A worker that returned without an abort saw the counter at the end.
    && (s.aborted.None? && (exists w :: 0 <= w < |s.workers| && s.workers[w].Returned?) ==> s.nextIndex == taskCount)
    // A claimed slot without a value is in flight, or its worker rejected.
    && (!SomeRejected(s) ==> forall i :: 0 <= i < s.nextIndex && s.results[i].None? ==> InFlight(s, i))
    && (s.outcome.Some? ==> forall w :: 0 <= w < |s.workers| ==> Settled(s.workers[w]))
  }

  lemma StepKeepsClaimInv<T, E>(s: Pool<T, E>, act: Action<T, E>, taskCount: nat)
    requires ClaimInv(s, taskCount) && Enabled(s, act)
    ensures ClaimInv(Apply(s, act), taskCount)
  {
  }

  lemma RejectedStays<T, E>(s: Pool<T, E>, act: Action<T, E>)
    requires Enabled(s, act) && SomeRejected(s)
    ensures SomeRejected(Apply(s, act))
  {
    var w :| 0 <= w < |s.workers| && s.workers[w].Rejected?;
    assert Apply(s, act).workers[w].Rejected?;
  }

  lemma RunningStays<T, E>(s: Pool<T, E>, act: Action<T, E>, i: nat)
    requires Enabled(s, act) && InFlight(s, i) && i < |s.results| == |Apply(s, act).results|
    requires !SomeRejected(Apply(s, act)) && Apply(s, act).results[i].None?
    ensures InFlight(Apply(s, act), i)
  {
    var w :| 0 <= w < |s.workers| && s.workers[w] == Running(i);
    assert Apply(s, act).workers[w] == Running(i);
  }

  lemma StepKeepsInFlight<T, E>(s: Pool<T, E>, act: Action<T, E>, taskCount: nat, i: nat)
    requires ClaimInv(s, taskCount) && SlotInv(s, taskCount) && Enabled(s, act) && ClaimInv(Apply(s, act), taskCount)
    requires !SomeRejected(Apply(s, act)) && i < Apply(s, act).nextIndex && Apply(s, act).results[i].None?
    ensures InFlight(Apply(s, act), i)
  {
    var t := Apply(s, act);
    if SomeRejected(s) {
      RejectedStays(s, act);
    }
    if i < s.nextIndex {
      assert s.results[i].None?;
      RunningStays(s, act, i);
    } else {
      assert t.workers[act.w] == Running(i);
    }
  }

  lemma StepKeepsInv<T, E>(s: Pool<T, E>, act: Action<T, E>, concurrency: int, taskCount: nat)
    requires Inv(s, concurrency, taskCount) && Enabled(s, act)
    ensures Inv(Apply(s, act), concurrency, taskCount)
  {
    StepKeepsClaimInv(s, act, taskCount);
    var t := Apply(s, act);
    if !SomeRejected(t) {
      forall i | 0 <= i < t.nextIndex && t.results[i].None? ensures InFlight(t, i) {
        StepKeepsInFlight(s, act, taskCount, i);
      }
    }
  }

  lemma {:induction false} RunKeepsInv<T, E>(
    states: seq<Pool<T, E>>, acts: seq<Action<T, E>>, concurrency: int, taskCount: nat, k: nat)
    requires ValidRun(states, acts, concurrency, taskCount) && k < |states|
    ensures Inv(states[k], concurrency, taskCount)
  {
    if k > 0 {
      RunKeepsInv(states, acts, concurrency, taskCount, k - 1);
      StepKeepsInv(states[k - 1], acts[k - 1], concurrency, taskCount);
    }
  }

  /** The tasks in flight. */
  function RunningTasks<E>(workers: seq<Worker<E>>): set<nat> {
    if workers == [] then {}
    else RunningTasks(workers[1..]) + if workers[0].Running? then {workers[0].index} else {}
  }

  lemma {:induction false} RunningTasksFacts<E>(workers: seq<Worker<E>>)
    ensures |RunningTasks(workers)| <= |workers|
    ensures forall i :: i in RunningTasks(workers) <==> exists w :: 0 <= w < |workers| && workers[w] == Running(i)
  {
    if workers != [] {
      RunningTasksFacts(workers[1..]);
      forall i ensures i in RunningTasks(workers) <==> exists w :: 0 <= w < |workers| && workers[w] == Running(i) {
        if i in RunningTasks(workers[1..]) {
          var w :| 0 <= w < |workers[1..]| && workers[1..][w] == Running(i);
          assert workers[w + 1] == Running(i);
        }
        if w :| 0 <= w < |workers| && workers[w] == Running(i) && w > 0 {
          assert workers[1..][w - 1] == Running(i);
        }
      }
    }
  }

  /** In every interleaving the tasks are started in index order, each at most once, and at most
      max(1, min(concurrency, n)) of them are in flight at a time. */
  lemma ClaimedInOrderAndBounded<T, E>(
    states: seq<Pool<T, E>>, acts: seq<Action<T, E>>, concurrency: int, taskCount: nat, k: nat)
    requires ValidRun(states, acts, concurrency, taskCount) && k < |states|
    ensures states[k].claims == seq(states[k].nextIndex, i => i) && states[k].nextIndex <= taskCount
    ensures |RunningTasks(states[k].workers)| <= WorkerCount(concurrency, taskCount)
    ensures forall i :: i in RunningTasks(states[k].workers) <==> InFlight(states[k], i)
    ensures forall i :: i in RunningTasks(states[k].workers) ==> i in states[k].claims
  {
    RunKeepsInv(states, acts, concurrency, taskCount, k);
    RunningTasksFacts(states[k].workers);
    forall i | i in RunningTasks(states[k].workers) ensures i in states[k].claims {
      assert states[k].claims[i] == i;
    }
  }

  /** The task with index `i` finishes with value `v`. */
  ghost predicate Completes<T, E>(s: Pool<T, E>, act: Action<T, E>, i: nat, v: T) {
    act.Complete? && act.value == v && act.w < |s.workers| && s.workers[act.w] == Running(i)
  }

  /** ... in step `j` of a run. */
  ghost predicate Finishes<T, E>(states: seq<Pool<T, E>>, acts: seq<Action<T, E>>, j: nat, i: nat, v: T) {
    j < |acts| < |states| && Completes(states[j], acts[j], i, v)
  }

  lemma SlotStep<T, E>(s: Pool<T, E>, act: Action<T, E>, taskCount: nat, i: nat, v: T)
    requires ClaimInv(s, taskCount) && Enabled(s, act) && i < taskCount
    ensures |Apply(s, act).results| == taskCount
    ensures Apply(s, act).results[i] == Some(v) <==> s.results[i] == Some(v) || Completes(s, act, i, v)
  {
  }

  /** A slot holds a value exactly when its own task has finished with that value. */
  lemma {:induction false} SlotIffTaskFinished<T, E>(
    states: seq<Pool<T, E>>, acts: seq<Action<T, E>>, concurrency: int, taskCount: nat, k: nat, i: nat, v: T)
    requires ValidRun(states, acts, concurrency, taskCount) && k < |states| && i < taskCount
    ensures |states[k].results| == taskCount
    ensures states[k].results[i] == Some(v) <==> exists j :: 0 <= j < k && Finishes(states, acts, j, i, v)
  {
    if k > 0 {
      RunKeepsInv(states, acts, concurrency, taskCount, k - 1);
      hide ClaimInv, SlotInv, Enabled, Apply, Start, Completes;
      SlotIffTaskFinished(states, acts, concurrency, taskCount, k - 1, i, v);
      SlotStep(states[k - 1], acts[k - 1], taskCount, i, v);
      assert Completes(states[k - 1], acts[k - 1], i, v) <==> Finishes(states, acts, k - 1, i, v);
    }
  }

  /** How the call settles. It settles only when no task is in flight. Unless it was aborted, it
      throws the error of the lowest-numbered worker that rejected; if none did, every task was
      started and every slot holds the value its task finished with. */
  lemma SettlesCorrectly<T, E>(
    states: seq<Pool<T, E>>, acts: seq<Action<T, E>>, concurrency: int, taskCount: nat, k: nat)
    requires ValidRun(states, acts, concurrency, taskCount) && k < |acts| && acts[k].Settle?
    ensures var s, end := states[k], states[k + 1];
      && end.outcome.Some? && (forall i :: !InFlight(s, i))
      && (s.aborted.Some? ==> end.outcome == Some(AbortError(ErrorFromAbortSignal(s.aborted.value))))
      && (s.aborted.None? && SomeRejected(s) ==>
            exists w: nat :: IsFirstRejected(s, w) && end.outcome == Some(TaskError(s.workers[w].error)))
      && (s.aborted.None? && !SomeRejected(s) ==>
            && s.nextIndex == taskCount
            && end.outcome == Some(Values(s.results)) && |s.results| == taskCount
            && forall i :: 0 <= i < taskCount ==>
                 s.results[i].Some? && exists j :: 0 <= j < k && Finishes(states, acts, j, i, s.results[i].value))
  {
    var s := states[k];
    RunKeepsInv(states, acts, concurrency, taskCount, k);
    var first := FirstRejected(s.workers, 0);
    if s.aborted.None? {
      if SomeRejected(s) {
        assert IsFirstRejected(s, first);
      } else {
        assert s.workers[0].Returned?;
        forall i | 0 <= i < taskCount
          ensures s.results[i].Some? && exists j :: 0 <= j < k && Finishes(states, acts, j, i, s.results[i].value)
        {
          assert !InFlight(s, i);
          SlotIffTaskFinished(states, acts, concurrency, taskCount, k, i, s.results[i].value);
        }
      }
    }
  }

  ghost predicate IsFirstRejected<T, E>(s: Pool<T, E>, w: nat) {
    w < |s.workers| && s.workers[w].Rejected? && forall v :: 0 <= v < w ==> !s.workers[v].Rejected?
  }

  /** Failures do not stop the others: without an abort, if at least one worker did not reject,
      every task had been started by the time the call settles. */
  lemma AllStartedUnlessAllReject<T, E>(
    states: seq<Pool<T, E>>, acts: seq<Action<T, E>>, concurrency: int, taskCount: nat, k: nat, w: nat)
    requires ValidRun(states, acts, concurrency, taskCount) && k < |acts| && acts[k].Settle? && states[k].aborted.None?
    requires w < |states[k].workers| && !states[k].workers[w].Rejected?
    ensures states[k].nextIndex == taskCount && states[k].claims == seq(taskCount, i => i)
  {
    RunKeepsInv(states, acts, concurrency, taskCount, k);
    assert states[k].workers[w].Returned?;
  }

  /** After an abort no further task is started. */
  lemma {:induction false} NoStartAfterAbort<T, E>(
    states: seq<Pool<T, E>>, acts: seq<Action<T, E>>, concurrency: int, taskCount: nat, j: nat, k: nat)
    requires ValidRun(states, acts, concurrency, taskCount) && j <= k < |states| && states[j].aborted.Some?
    ensures states[k].aborted == states[j].aborted && states[k].claims == states[j].claims
  {
    if k > j {
      NoStartAfterAbort(states, acts, concurrency, taskCount, j, k - 1);
    }
  }

  // ----- Every run ends -----

  function Weight<E>(w: Worker<E>): nat {
    match w case Ready => 1 case Running(_) => 2 case _ => 0
  }

  function Weights<E>(workers: seq<Worker<E>>): nat {
    if workers == [] then 0 else Weight(workers[0]) + Weights(workers[1..])
  }

  lemma {:induction false} WeightsUpdate<E>(workers: seq<Worker<E>>, w: nat, next: Worker<E>)
    requires w < |workers|
    ensures Weights(workers[w := next]) == Weights(workers) - Weight(workers[w]) + Weight(next)
  {
    if w == 0 {
      assert workers[w := next][1..] == workers[1..];
    } else {
      WeightsUpdate(workers[1..], w - 1, next);
      assert workers[w := next][1..] == workers[1..][w - 1 := next];
    }
  }

  lemma {:induction false} WeightsOfReady<E>(n: nat)
    ensures Weights(seq<Worker<E>>(n, _ => Ready)) == n
  {
    if n > 0 {
      assert seq<Worker<E>>(n, _ => Ready)[1..] == seq<Worker<E>>(n - 1, _ => Ready);
      WeightsOfReady<E>(n - 1);
    }
  }

  /** An upper bound for the number of steps still to come. */
  function StepsLeft<T, E>(s: Pool<T, E>, taskCount: nat): int {
    3 * (taskCount - s.nextIndex) + Weights(s.workers)
    + (if s.aborted.Some? then 0 else 1) + (if s.outcome.Some? then 0 else 1)
  }

  lemma StepShrinks<T, E>(s: Pool<T, E>, act: Action<T, E>, taskCount: nat)
    requires ClaimInv(s, taskCount) && Enabled(s, act)
    ensures StepsLeft(Apply(s, act), taskCount) < StepsLeft(s, taskCount)
  {
    if act.Resume? || act.Complete? || act.Reject? {
      WeightsUpdate(s.workers, act.w, Apply(s, act).workers[act.w]);
    }
  }

  /** Every run is short: at most three steps a task, one a worker, one abort and one settlement. */
  lemma {:induction false} RunsAreBounded<T, E>(
    states: seq<Pool<T, E>>, acts: seq<Action<T, E>>, concurrency: int, taskCount: nat, k: nat)
    requires ValidRun(states, acts, concurrency, taskCount) && k < |states|
    ensures 0 <= StepsLeft(states[k], taskCount) <= 3 * taskCount + WorkerCount(concurrency, taskCount) + 2 - k
  {
    RunKeepsInv(states, acts, concurrency, taskCount, k);
    if k == 0 {
      WeightsOfReady<E>(WorkerCount(concurrency, taskCount));
    } else {
      RunsAreBounded(states, acts, concurrency, taskCount, k - 1);
      RunKeepsInv(states, acts, concurrency, taskCount, k - 1);
      StepShrinks(states[k - 1], acts[k - 1], taskCount);
    }
  }

  /** ... and no run gets stuck before the call has settled: if no task is in flight, some worker
      can go on or the call can settle. */
  lemma NeverStuck<T, E>(states: seq<Pool<T, E>>, acts: seq<Action<T, E>>, concurrency: int, taskCount: nat, k: nat)
    requires ValidRun(states, acts, concurrency, taskCount) && k < |states| && states[k].outcome.None?
    requires forall i :: !InFlight(states[k], i)
    ensures Enabled(states[k], Settle) || exists w :: Enabled(states[k], Resume(w))
  {
    var s := states[k];
    if w :| 0 <= w < |s.workers| && !Settled(s.workers[w]) {
      assert s.workers[w].Running? ==> InFlight(s, s.workers[w].index);
      assert Enabled(s, Resume(w));
    }
  }
}
