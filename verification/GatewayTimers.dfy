/** The retention timer of the gateway under reloads, fatal errors and shutdown requests, with
    every callback of the runner free to throw. */
module GatewayTimers {
  import opened Prelude

  /** The part of a runtime snapshot that the schedule looks at. */
  datatype Runtime = Runtime(retentionOlderThan: Option<string>)

  /** What a callback that returns a runtime does. */
  datatype Callback = Returns(runtime: Runtime) | Throws

  /** `beginGracefulShutdown`: how often it calls the clear function it is given, and whether it throws. */
  datatype Shutdown = Shutdown(clears: nat, throws: bool)

  datatype Event =
    | Reload(reload: Callback, sideEffectsThrow: bool, logsThrow: bool, onFailure: Callback)
    | Fatal(mark: Callback, logThrows: bool, shutdown: Shutdown)
    | Terminate(shutdown: Shutdown)

  /** The event fails before it syncs or clears the schedule, or never clears it. */
  predicate LeavesSchedule(e: Event) {
    match e
    case Reload(reload, sideEffectsThrow, _, _) => reload.Throws? || sideEffectsThrow
    case Fatal(mark, logThrows, shutdown) => mark.Throws? || logThrows || shutdown.clears == 0
    case Terminate(shutdown) => shutdown.clears == 0
  }

  class Lifecycle {
    var activeRuntime: Runtime
    var retentionPruneTimer: Option<nat>
    /** The intervals that the event loop has scheduled. */
    var live: set<nat>
    var nextId: nat
    /** What the last completed schedule sync or clear asked for. */
    ghost var wanted: bool

    /** At most one interval is live, it is the one the variable holds, and there is one exactly
        when the last sync found retention configured and nothing has cleared it since. */
    ghost predicate Valid()
      reads this
    {
      && live == (if retentionPruneTimer.Some? then {retentionPruneTimer.value} else {})
      && (retentionPruneTimer.Some? <==> wanted)
      && (forall id :: id in live ==> id < nextId)
    }

    /** The runner starts with side effects that did not throw, and a first sync. */
    constructor (initial: Runtime)
      ensures Valid() && activeRuntime == initial && (live != {} <==> initial.retentionOlderThan.Some?)
    {
      activeRuntime := initial;
      retentionPruneTimer, live, nextId, wanted := None, {}, 0, false;
      new;
      SyncRetentionPruneSchedule();
    }

    method ClearRetentionPruneTimer()
      requires Valid()
      modifies this`retentionPruneTimer, this`live, this`wanted
      ensures Valid() && live == {}
    {
      if retentionPruneTimer.Some? {
        live := live - {retentionPruneTimer.value};
        retentionPruneTimer := None;
      }
      wanted := false;
    }

    /** After a completed sync an interval is live exactly when the active runtime configures retention. */
    method SyncRetentionPruneSchedule()
      requires Valid()
      modifies this
      ensures Valid() && activeRuntime == old(activeRuntime)
      ensures live != {} <==> activeRuntime.retentionOlderThan.Some?
      ensures wanted <==> activeRuntime.retentionOlderThan.Some?
    {
      ClearRetentionPruneTimer();
      if activeRuntime.retentionOlderThan.None? {
        return;
      }
      retentionPruneTimer := Some(nextId);
      live := live + {nextId};
      nextId := nextId + 1;
      wanted := true;
    }

    method TriggerGracefulShutdown(shutdown: Shutdown) returns (threw: bool)
      requires Valid()
      modifies this
      ensures Valid() && activeRuntime == old(activeRuntime) && threw == shutdown.throws
      ensures if shutdown.clears > 0 then live == {} else live == old(live)
    {
      for i := 0 to shutdown.clears
        invariant Valid() && activeRuntime == old(activeRuntime) && nextId == old(nextId)
        invariant i > 0 ==> live == {}
        invariant i == 0 ==>
          live == old(live) && wanted == old(wanted) && retentionPruneTimer == old(retentionPruneTimer)
      {
        ClearRetentionPruneTimer();
      }
      return shutdown.throws;
    }

    /** `reloadActiveConfig`: the new runtime is active as soon as it is loaded, but the schedule
        follows only if the side effects before it did not throw. */
    method ReloadActiveConfig(e: Event) returns (threw: bool)
      requires Valid() && e.Reload?
      modifies this
      ensures Valid()
      ensures e.reload.Throws? ==> threw && activeRuntime == old(activeRuntime) && live == old(live)
      ensures e.reload.Returns? ==> activeRuntime == e.reload.runtime && (threw <==> e.sideEffectsThrow || e.logsThrow)
      ensures e.reload.Returns? && e.sideEffectsThrow ==> live == old(live)
      ensures e.reload.Returns? && !e.sideEffectsThrow ==> (live != {} <==> e.reload.runtime.retentionOlderThan.Some?)
    {
      if e.reload.Throws? {
        return true;
      }
      activeRuntime := e.reload.runtime;
      if e.sideEffectsThrow {
        return true;
      }
      SyncRetentionPruneSchedule();
      return e.logsThrow;
    }

    /** The signal and error handlers. An exception that leaves one does not undo what it did. */
    method Handle(e: Event)
      requires Valid()
      modifies this
      ensures Valid()
      ensures e.Reload? && e.reload.Returns? && !e.sideEffectsThrow ==>
        (live != {} <==> e.reload.runtime.retentionOlderThan.Some?)
      ensures !e.Reload? && !LeavesSchedule(e) ==> live == {}
      ensures LeavesSchedule(e) ==> live == old(live)
      ensures match e
        case Reload(reload, sideEffectsThrow, logsThrow, onFailure) =>
          activeRuntime ==
            if onFailure.Returns? && (reload.Throws? || sideEffectsThrow || logsThrow) then onFailure.runtime
            else if reload.Returns? then reload.runtime else old(activeRuntime)
        case Fatal(mark, _, _) => activeRuntime == if mark.Returns? then mark.runtime else old(activeRuntime)
        case Terminate(_) => activeRuntime == old(activeRuntime)
    {
      match e
      case Reload(_, _, _, onFailure) =>
        var threw := ReloadActiveConfig(e);
        if threw && onFailure.Returns? {
          activeRuntime := onFailure.runtime;
        }
      case Fatal(mark, logThrows, shutdown) =>
        if mark.Returns? {
          activeRuntime := mark.runtime;
          if !logThrows {
            var threw := TriggerGracefulShutdown(shutdown);
          }
        }
      case Terminate(shutdown) =>
        var threw := TriggerGracefulShutdown(shutdown);
    }
  }

  /** What the schedule looks like after a run, from the events alone: the last event that synced
      or cleared it decides. */
  function LiveAfter(initial: Runtime, events: seq<Event>): bool {
    if events == [] then initial.retentionOlderThan.Some?
    else
      var before := LiveAfter(initial, events[..|events| - 1]);
      match events[|events| - 1]
      case Reload(reload, sideEffectsThrow, _, _) =>
        if reload.Returns? && !sideEffectsThrow then reload.runtime.retentionOlderThan.Some? else before
      case Fatal(mark, logThrows, shutdown) =>
        if mark.Returns? && !logThrows && shutdown.clears > 0 then false else before
      case Terminate(shutdown) => if shutdown.clears > 0 then false else before
  }

  /** Over every sequence of events at most one interval is ever live, the variable holds it, and
      whether there is one is decided by the last completed sync or clear. */
  method RunLifecycle(initial: Runtime, events: seq<Event>) returns (l: Lifecycle)
    ensures fresh(l) && l.Valid() && |l.live| <= 1
    ensures l.live != {} <==> LiveAfter(initial, events)
  {
    l := new Lifecycle(initial);
    for i := 0 to |events|
      invariant fresh(l) && l.Valid() && (l.live != {} <==> LiveAfter(initial, events[..i]))
    {
      assert events[..i + 1][..i] == events[..i];
      l.Handle(events[i]);
    }
    assert events[..|events|] == events;
  }

  /** Any number of failed reloads, and of shutdowns that never reach the clear, leave the schedule
      of the last completed sync in place. */
  lemma {:induction false} FailuresKeepSchedule(initial: Runtime, events: seq<Event>, failures: seq<Event>)
    requires forall i :: 0 <= i < |failures| ==> LeavesSchedule(failures[i])
    ensures LiveAfter(initial, events + failures) == LiveAfter(initial, events)
    decreases |failures|
  {
    if failures == [] {
      assert events + failures == events;
    } else {
      var init := failures[..|failures| - 1];
      assert (events + failures)[..|events + failures| - 1] == events + init;
      FailuresKeepSchedule(initial, events, init);
    }
  }
}
