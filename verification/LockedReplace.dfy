/** The lock and the replacement together: attempts that have entered `fn` write the config file,
    one write after another, while everybody's calls interleave. */
module LockedReplace {
  import opened Prelude
  import Lock = ConfigLock
  import opened ConfigReplace
  import opened ConcurrentReplace
  import opened BackupPromises

  /** `owner` tells which attempt a writer works for. */
  datatype Joint = Joint(lock: Lock.State, sys: System, owner: map<nat, nat>)

  datatype Event = LockStep(act: Lock.Action) | Write(a: nat, doc: Version) | WriterCall(id: nat, ok: bool)

  predicate Works(j: Joint, id: nat) {
    id in j.sys.writers && !j.sys.writers[id].pc.Done?
  }

  ghost predicate WorksFor(j: Joint, id: nat, a: nat) {
    Works(j, id) && id in j.owner && j.owner[id] == a
  }

  /** The attempt is inside `fn` and is not in the middle of a write. */
  ghost predicate Idle(j: Joint, a: nat) {
    Lock.IsInside(j.lock, a) && forall id :: !WorksFor(j, id, a)
  }

  /** Writing is synchronous: an attempt begins a write, or leaves `fn`, only when it is idle. */
  ghost predicate CanHappen(j: Joint, e: Event, accepts: Version -> bool) {
    match e
    case LockStep(act) => Lock.Enabled(j.lock, act) && (act.LeaveFn? ==> Idle(j, act.a))
    case Write(a, _) => Idle(j, a)
    case WriterCall(id, ok) =>
      CanMove(j.sys, Call(id, ok), accepts) && id in j.owner && Lock.IsInside(j.lock, j.owner[id])
  }

  /** The writers whose attempt has crashed. */
  function Killed(j: Joint, lock: Lock.State): set<nat> {
    set id | id in j.sys.writers && !j.sys.writers[id].pc.Done? && id in j.owner
          && j.owner[id] in lock.attempts && lock.attempts[j.owner[id]].pc.Crashed?
  }

  /** The writers are gone, and nobody removes their temp files. */
  function Buried(s: System, dead: set<nat>): System {
    s.(writers := s.writers - dead, abandoned := s.abandoned + (set id <- dead, p <- TempsOf(id) :: p))
  }

  ghost function Happened(j: Joint, e: Event, accepts: Version -> bool): Joint
    requires CanHappen(j, e, accepts)
  {
    match e
    case LockStep(act) =>
      var lock := Lock.Apply(j.lock, act);
      var dead := Killed(j, lock);
      j.(lock := lock, sys := Buried(j.sys, dead))
    case Write(a, doc) => j.(sys := Moved(j.sys, Enter(doc), accepts), owner := j.owner[j.sys.next := a])
    case WriterCall(id, ok) => j.(sys := Moved(j.sys, Call(id, ok), accepts))
  }

  ghost predicate ValidRun(states: seq<Joint>, events: seq<Event>, accepts: Version -> bool) {
    && |states| == |events| + 1
    && Lock.Initial(states[0].lock) && StartsClean(states[0].sys) && states[0].owner == map[]
    && forall i :: 0 <= i < |events| ==>
         CanHappen(states[i], events[i], accepts) && states[i + 1] == Happened(states[i], events[i], accepts)
  }

  ghost predicate TheftAt(states: seq<Joint>, events: seq<Event>, i: nat) {
    && i < |events| < |states| && events[i].LockStep?
    && exists r, x :: Lock.RootTheft(states[i].lock, events[i].act, r, x)
  }

  /** In this step the read with which a writer looks for a key in the source throws. */
  ghost predicate FallbackAt(states: seq<Joint>, events: seq<Event>, i: nat) {
    && i < |events| < |states| && events[i].WriterCall?
    && FallsBackIn(states[i].sys, Call(events[i].id, events[i].ok))
  }

  ghost predicate NoFallbackBefore(states: seq<Joint>, events: seq<Event>, k: nat) {
    forall i :: 0 <= i < k ==> !FallbackAt(states, events, i)
  }

  /** Who works is inside `fn`, and an attempt has one writer at a time. */
  ghost predicate WorkersInside(j: Joint) {
    && (forall id :: Works(j, id) ==> id in j.owner && Lock.IsInside(j.lock, j.owner[id]))
    && (forall id, other, a :: WorksFor(j, id, a) && WorksFor(j, other, a) ==> id == other)
  }

  ghost predicate JointInv(j: Joint) {
    Lock.HoldersOwn(j.lock) && WorkersInside(j) && Numbered(j.sys)
  }

  /** Only one attempt owns the lock file, so only one writer works. */
  lemma WorkersExclude(j: Joint)
    requires Lock.HoldersOwn(j.lock) && WorkersInside(j)
    ensures Exclusive(j.sys)
  {
    if id :| Works(j, id) {
      forall other | other in j.sys.writers && !j.sys.writers[other].pc.Done? ensures other == id {
        assert Works(j, other);
        assert Lock.Holds(j.lock, j.owner[id]) && Lock.Holds(j.lock, j.owner[other]);
        assert Lock.Owns(j.lock, j.owner[id]) && Lock.Owns(j.lock, j.owner[other]);
        assert WorksFor(j, id, j.owner[id]) && WorksFor(j, other, j.owner[id]);
      }
      assert OnlyActive(j.sys, Some(id));
    } else {
      assert OnlyActive(j.sys, None) by {
        forall id | id in j.sys.writers && !j.sys.writers[id].pc.Done? ensures false { assert Works(j, id); }
      }
    }
  }

  /** An attempt inside `fn` stays inside, unless it leaves or crashes. */
  lemma InsideStays(s: Lock.State, act: Lock.Action, a: nat)
    requires Lock.Enabled(s, act) && Lock.IsInside(s, a) && !(act.LeaveFn? && act.a == a)
    ensures var t := Lock.Apply(s, act); a in t.attempts && (t.attempts[a].pc.Inside? || t.attempts[a].pc.Crashed?)
  {
  }

  lemma LockStepKeepsWorkers(j: Joint, act: Lock.Action, accepts: Version -> bool)
    requires CanHappen(j, LockStep(act), accepts) && WorkersInside(j)
    ensures WorkersInside(Happened(j, LockStep(act), accepts))
  {
    var t := Happened(j, LockStep(act), accepts);
    forall id | Works(t, id) ensures Works(j, id) && id in j.owner && Lock.IsInside(t.lock, j.owner[id]) {
      assert Works(j, id) && WorksFor(j, id, j.owner[id]);
      InsideStays(j.lock, act, j.owner[id]);
    }
    assert forall id, a :: WorksFor(t, id, a) ==> WorksFor(j, id, a);
  }

  lemma WriteKeepsWorkers(j: Joint, a: nat, doc: Version, accepts: Version -> bool)
    requires CanHappen(j, Write(a, doc), accepts) && WorkersInside(j) && Numbered(j.sys)
    ensures WorkersInside(Happened(j, Write(a, doc), accepts))
  {
    hide Lock.IsInside;
    var t := Happened(j, Write(a, doc), accepts);
    assert j.sys.next !in j.sys.writers;
    forall id, b | WorksFor(t, id, b) ensures if id == j.sys.next then b == a else WorksFor(j, id, b) && b != a {
      if id != j.sys.next {
        assert WorksFor(j, id, b) && !WorksFor(j, id, a);
      }
    }
    forall id | Works(t, id) ensures id in t.owner && Lock.IsInside(t.lock, t.owner[id]) {
      assert id != j.sys.next ==> Works(j, id);
    }
  }

  lemma CallKeepsWorkers(j: Joint, id: nat, ok: bool, accepts: Version -> bool)
    requires CanHappen(j, WriterCall(id, ok), accepts) && WorkersInside(j)
    ensures WorkersInside(Happened(j, WriterCall(id, ok), accepts))
  {
    hide Lock.IsInside, Moved, Enabled;
    CallKeepsOtherWriters(j.sys, id, ok, accepts);
    var t := Happened(j, WriterCall(id, ok), accepts);
    assert Works(j, id) by { CallerWorks(j.sys, id, ok, accepts); }
    assert forall other :: Works(t, other) ==> Works(j, other);
    assert forall other, a :: WorksFor(t, other, a) ==> WorksFor(j, other, a);
  }

  lemma CallerWorks(s: System, id: nat, ok: bool, accepts: Version -> bool)
    requires CanMove(s, Call(id, ok), accepts)
    ensures !s.writers[id].pc.Done?
  {
  }

  /** A crash kills at most the one writer at work. */
  lemma KillIsDie(j: Joint, lock: Lock.State, accepts: Version -> bool) returns (moves: seq<Move>)
    requires Exclusive(j.sys)
    ensures var dead := Killed(j, lock);
      var t := Buried(j.sys, dead);
      || (moves == [] && t == j.sys)
      || (|moves| == 1 && moves[0].Die? && CanMove(j.sys, moves[0], accepts) && t == Moved(j.sys, moves[0], accepts))
  {
    var dead := Killed(j, lock);
    if id :| id in dead {
      var cur :| OnlyActive(j.sys, cur);
      assert dead == {id};
      moves := [Die(id)];
    } else {
      assert dead == {} && Buried(j.sys, {}) == j.sys;
      moves := [];
    }
  }

  lemma EventKeepsInv(j: Joint, e: Event, accepts: Version -> bool)
    requires CanHappen(j, e, accepts) && JointInv(j)
    requires e.LockStep? ==> forall r, x :: !Lock.RootTheft(j.lock, e.act, r, x)
    ensures JointInv(Happened(j, e, accepts))
  {
    hide Lock.Enabled, Lock.Apply, WorkersInside, Lock.HoldersOwn, Enabled, Idle;
    match e
    case LockStep(act) =>
      Lock.StepKeepsHoldersOwn(j.lock, act);
      LockStepKeepsWorkers(j, act, accepts);
    case Write(a, doc) =>
      WriteKeepsWorkers(j, a, doc, accepts);
      MoveKeepsNumbered(j.sys, Enter(doc), accepts);
    case WriterCall(id, ok) =>
      CallKeepsWorkers(j, id, ok, accepts);
      MoveKeepsNumbered(j.sys, Call(id, ok), accepts);
      hide Moved;
  }

  /** What an event does to the directory is at most one move of the writers. */
  lemma EventMoves(j: Joint, e: Event, accepts: Version -> bool) returns (moves: seq<Move>)
    requires CanHappen(j, e, accepts) && Exclusive(j.sys)
    ensures var t := Happened(j, e, accepts);
      || (moves == [] && t.sys == j.sys)
      || (|moves| == 1 && CanMove(j.sys, moves[0], accepts) && t.sys == Moved(j.sys, moves[0], accepts)
          && (moves[0].Call? ==> e == WriterCall(moves[0].id, moves[0].ok)))
  {
    hide Lock.Apply, Lock.Enabled, Moved, Enabled, Killed;
    match e
    case LockStep(act) => moves := KillIsDie(j, Lock.Apply(j.lock, act), accepts);
    case Write(a, doc) => moves := [Enter(doc)];
    case WriterCall(id, ok) => moves := [Call(id, ok)];
  }

  lemma {:induction false} ExtendExclusiveRun(s: System, moves: seq<Move>, m: Move, accepts: Version -> bool)
    requires ExclusiveRun(s, moves, accepts) && Exec(s, moves, accepts).Some?
    requires var t := Exec(s, moves, accepts).value; CanMove(t, m, accepts) && Exclusive(Moved(t, m, accepts))
    ensures ExclusiveRun(s, moves + [m], accepts)
    ensures Exec(s, moves + [m], accepts) == Some(Moved(Exec(s, moves, accepts).value, m, accepts))
    ensures NoFallbackIn(s, moves, accepts) && !FallsBackIn(Exec(s, moves, accepts).value, m) ==>
      NoFallbackIn(s, moves + [m], accepts)
    decreases |moves|
  {
    hide Moved, Enabled, Exclusive, FallsBackIn;
    if moves == [] {
      assert moves + [m] == [m] && [m][1..] == [];
      var t := Moved(s, m, accepts);
      assert Exec(t, [], accepts) == Some(t) && ExclusiveRun(t, [], accepts) && NoFallbackIn(t, [], accepts);
    } else {
      assert (moves + [m])[0] == moves[0] && (moves + [m])[1..] == moves[1..] + [m];
      ExtendExclusiveRun(Moved(s, moves[0], accepts), moves[1..], m, accepts);
    }
  }

  /** A run without theft: what the writers do is a run of theirs in which they exclude each other. */
  lemma {:induction false} RunIsExclusive(states: seq<Joint>, events: seq<Event>, accepts: Version -> bool, k: nat)
    returns (moves: seq<Move>)
    requires ValidRun(states, events, accepts) && k < |states|
    requires forall i :: 0 <= i < k ==> !TheftAt(states, events, i)
    ensures JointInv(states[k]) && ExclusiveRun(states[0].sys, moves, accepts)
    ensures Exec(states[0].sys, moves, accepts) == Some(states[k].sys)
    ensures NoFallbackBefore(states, events, k) ==> NoFallbackIn(states[0].sys, moves, accepts)
  {
    hide Happened, CanHappen;
    if k == 0 {
      WorkersExclude(states[0]);
      moves := [];
    } else {
      moves := RunIsExclusive(states, events, accepts, k - 1);
      var j, e := states[k - 1], events[k - 1];
      assert !TheftAt(states, events, k - 1);
      hide Exec, ExclusiveRun, JointInv, NoFallbackIn;
      NextEvent(j, e, accepts);
      var more := EventMoves(j, e, accepts);
      if more != [] {
        assert !FallbackAt(states, events, k - 1) ==> !FallsBackIn(j.sys, more[0]);
        ExtendExclusiveRun(states[0].sys, moves, more[0], accepts);
        moves := moves + [more[0]];
      }
    }
  }

  lemma NextEvent(j: Joint, e: Event, accepts: Version -> bool)
    requires CanHappen(j, e, accepts) && JointInv(j)
    requires e.LockStep? ==> forall r, x :: !Lock.RootTheft(j.lock, e.act, r, x)
    ensures JointInv(Happened(j, e, accepts)) && Exclusive(j.sys) && Exclusive(Happened(j, e, accepts).sys)
  {
    EventKeepsInv(j, e, accepts);
    hide CanHappen, Happened, WorkersInside, Lock.HoldersOwn, Exclusive;
    WorkersExclude(j);
    WorkersExclude(Happened(j, e, accepts));
  }

  /** At every point of every run of attempts and their writers, with failures and crashes anywhere,
      up to the first theft of a lock file: one writer works at a time, the source is complete, the
      backup is the current or the previous version, and every key is private if a key in the first
      source was, or if it could be parsed and no read that looks for it threw. */
  lemma LockedWritesKeepPromises(states: seq<Joint>, events: seq<Event>, accepts: Version -> bool, k: nat)
    requires ValidRun(states, events, accepts) && k < |states|
    requires forall i :: 0 <= i < k ==> !TheftAt(states, events, i)
    ensures var s, initial := states[k].sys, |states[0].sys.history|;
      Exclusive(s) && SourceComplete(Base(s), initial, accepts) && BackupFresh(Base(s))
    ensures
      (KeyPrivate(states[0].sys.files) || (Guarded(states[0].sys.files) && NoFallbackBefore(states, events, k))) ==>
        KeysPrivate(Base(states[k].sys), |states[0].sys.history|)
  {
    var moves := RunIsExclusive(states, events, accepts, k);
    WorkersExclude(states[k]);
    hide Exec, ExclusiveRun, Exclusive, Happened, CanHappen;
    ExclusiveWritersKeepBackup(states[0].sys, moves, accepts);
    ConcurrentSafety(states[0].sys, moves, accepts);
  }
}
