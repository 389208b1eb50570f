/** The config mutation lock as a transition system: any number of attempts of
    `withConfigMutationLock` on one lock path, interleaved at every file-system call,
    with any call free to fail and any process free to die. */
module ConfigLock {
  import opened Prelude

  const STALE_AFTER_MS := 30_000

  /** What `parseConfigMutationLockMetadata` returns. */
  datatype Metadata = Metadata(pid: Option<nat>, createdAtMs: Option<int>, hostname: Option<string>)

  const NO_METADATA := Metadata(None, None, None)

  /** A file at the lock path. `creator` is the attempt whose exclusive create made this inode;
      it is `None` for a file that was there before the run. `meta` is what parsing its text gives. */
  datatype LockFile = LockFile(creator: Option<nat>, meta: Metadata, mtimeMs: int)

  /** Where an attempt stands. `read` is the lock file whose text the stale check read, if any. */
  datatype Pc =
    | Opening
    | ReadingMetadata
    | CheckingPid(read: Option<LockFile>)
    | CheckingAge(read: Option<LockFile>)
    | RemovingStale(read: Option<LockFile>)
    | Notifying(read: Option<LockFile>)
    | Reopening
    | WritingMetadata
    | Inside
    | CleaningUp(holdsFd: bool)
    | Finished
    | Crashed

  datatype Attempt = Attempt(host: string, pid: nat, pc: Pc)

  datatype State = State(lock: Option<LockFile>, attempts: map<nat, Attempt>)

  datatype Action =
    | Start(a: nat, host: string, pid: nat)
    | OpenCreated(a: nat, now: int)
    | OpenExists(a: nat)
    | OpenFailed(a: nat)
    | ReadMetadata(a: nat, readable: bool)
    | CheckPid(a: nat, live: bool)
    | CheckAge(a: nat, now: int, statOk: bool)
    | RemoveStale(a: nat, ok: bool)
    | Notify(a: nat, ok: bool)
    | WriteMetadata(a: nat, now: int, ok: bool)
    | LeaveFn(a: nat)
    | Cleanup(a: nat, ok: bool)
    | Crash(host: string, pid: nat)

  predicate Running(pc: Pc) {
    !pc.Finished? && !pc.Crashed?
  }

  /** The attempt's `lockFd` is not null. */
  predicate HoldsFd(pc: Pc) {
    pc.WritingMetadata? || pc.Inside? || (pc.CleaningUp? && pc.holdsFd)
  }

  /** The metadata an attempt writes, as a later parse sees it: a blank host name parses to null. */
  function WrittenMetadata(host: string, pid: nat, now: int): Metadata {
    Metadata(Some(pid), Some(now), if IsBlank(host) then None else Some(host))
  }

  function ReadResult(read: Option<LockFile>): Metadata {
    if read.Some? then read.value.meta else NO_METADATA
  }

  /** `metadata.pid !== null && metadata.hostname === currentHostname`. */
  predicate NamesSameHostPid(meta: Metadata, host: string) {
    meta.pid.Some? && meta.hostname == Some(host)
  }

  /** `getConfigMutationLockAgeMs`: from the metadata, else from the file's mtime. */
  function AgeMs(meta: Metadata, mtimeMs: Option<int>, now: int): Option<int> {
    if meta.createdAtMs.Some? then Some(Max(0, now - meta.createdAtMs.value))
    else if mtimeMs.Some? then Some(Max(0, now - mtimeMs.value))
    else None
  }

  predicate TooOld(age: Option<int>) {
    age.Some? && age.value > STALE_AFTER_MS
  }

  function Mtime(lock: Option<LockFile>, statOk: bool): Option<int> {
    if statOk && lock.Some? then Some(lock.value.mtimeMs) else None
  }

  /** Some attempt of this run is certainly a live process with this pid on this host. */
  ghost predicate LivePid(s: State, host: string, pid: nat) {
    exists b :: b in s.attempts && Running(s.attempts[b].pc) && s.attempts[b].host == host && s.attempts[b].pid == pid
  }

  /** When an action can happen. `kill(pid, 0)` must report a live attempt of the run as live;
      for every other pid its answer is free, since unrelated processes may own that pid. */
  ghost predicate Enabled(s: State, act: Action) {
    match act
    case Start(a, host, pid) => a !in s.attempts && pid > 0
    case OpenCreated(a, _) =>
      a in s.attempts && (s.attempts[a].pc.Opening? || s.attempts[a].pc.Reopening?) && s.lock.None?
    case OpenExists(a) => a in s.attempts && (s.attempts[a].pc.Opening? || s.attempts[a].pc.Reopening?) && s.lock.Some?
    case OpenFailed(a) => a in s.attempts && (s.attempts[a].pc.Opening? || s.attempts[a].pc.Reopening?)
    case ReadMetadata(a, _) => a in s.attempts && s.attempts[a].pc.ReadingMetadata?
    case CheckPid(a, live) => a in s.attempts && s.attempts[a].pc.CheckingPid? &&
      var meta := ReadResult(s.attempts[a].pc.read);
      (meta.pid.Some? && LivePid(s, s.attempts[a].host, meta.pid.value) ==> live)
    case CheckAge(a, _, _) => a in s.attempts && s.attempts[a].pc.CheckingAge?
    case RemoveStale(a, _) => a in s.attempts && s.attempts[a].pc.RemovingStale?
    case Notify(a, _) => a in s.attempts && s.attempts[a].pc.Notifying?
    case WriteMetadata(a, _, _) => a in s.attempts && s.attempts[a].pc.WritingMetadata?
    case LeaveFn(a) => a in s.attempts && s.attempts[a].pc.Inside?
    case Cleanup(a, _) => a in s.attempts && s.attempts[a].pc.CleaningUp?
    case Crash(_, _) => true
  }

  function Goto(s: State, a: nat, pc: Pc): State
    requires a in s.attempts
  {
    s.(attempts := s.attempts[a := s.attempts[a].(pc := pc)])
  }

  ghost function Apply(s: State, act: Action): State
    requires Enabled(s, act)
  {
    match act
    case Start(a, host, pid) => s.(attempts := s.attempts[a := Attempt(host, pid, Opening)])
    case OpenCreated(a, now) => Goto(s.(lock := Some(LockFile(Some(a), NO_METADATA, now))), a, WritingMetadata)
    case OpenExists(a) => Goto(s, a, if s.attempts[a].pc.Opening? then ReadingMetadata else CleaningUp(false))
    case OpenFailed(a) => Goto(s, a, CleaningUp(false))
    case ReadMetadata(a, readable) => Goto(s, a, CheckingPid(if readable then s.lock else None))
    case CheckPid(a, live) =>
      var read := s.attempts[a].pc.read;
      if NamesSameHostPid(ReadResult(read), s.attempts[a].host) && live then Goto(s, a, CleaningUp(false))
      else Goto(s, a, CheckingAge(read))
    case CheckAge(a, now, statOk) =>
      var read := s.attempts[a].pc.read;
      if TooOld(AgeMs(ReadResult(read), Mtime(s.lock, statOk), now)) then Goto(s, a, RemovingStale(read))
      else Goto(s, a, CleaningUp(false))
    case RemoveStale(a, ok) =>
      if ok then Goto(s.(lock := None), a, Notifying(s.attempts[a].pc.read)) else Goto(s, a, CleaningUp(false))
    case Notify(a, ok) => Goto(s, a, if ok then Reopening else CleaningUp(false))
    case WriteMetadata(a, now, ok) =>
      // The write goes through the attempt's own descriptor: it changes the file at the lock path
      // only while that file is still the inode this attempt created.
      if !ok then Goto(s, a, CleaningUp(true))
      else if s.lock.Some? && s.lock.value.creator == Some(a) then
        var meta := WrittenMetadata(s.attempts[a].host, s.attempts[a].pid, now);
        Goto(s.(lock := Some(LockFile(Some(a), meta, now))), a, Inside)
      else Goto(s, a, Inside)
    case LeaveFn(a) => Goto(s, a, CleaningUp(true))
    case Cleanup(a, ok) => Goto(if ok then s.(lock := None) else s, a, Finished)
    case Crash(host, pid) =>
      s.(attempts := map a | a in s.attempts :: CrashAttempt(s.attempts[a], host, pid))
  }

  function CrashAttempt(t: Attempt, host: string, pid: nat): Attempt {
    if t.host == host && t.pid == pid && Running(t.pc) then t.(pc := Crashed) else t
  }

  /** A run starts with no attempts and at most one file that nobody of the run created. */
  ghost predicate Initial(s: State) {
    s.attempts == map[] && (s.lock.Some? ==> s.lock.value.creator.None?)
  }

  ghost predicate Linked(states: seq<State>, acts: seq<Action>) {
    && |states| == |acts| + 1
    && forall i :: 0 <= i < |acts| ==> Enabled(states[i], acts[i]) && states[i + 1] == Apply(states[i], acts[i])
  }

  ghost predicate ValidRun(states: seq<State>, acts: seq<Action>) {
    Linked(states, acts) && Initial(states[0])
  }

  // ----- What can go wrong with the lock file -----

  ghost predicate IsInside(s: State, a: nat) {
    a in s.attempts && s.attempts[a].pc.Inside?
  }

  /** The file at the lock path is the one `x` created. */
  ghost predicate Owns(s: State, x: nat) {
    s.lock.Some? && s.lock.value.creator == Some(x)
  }

  ghost predicate Holds(s: State, x: nat) {
    x in s.attempts && HoldsFd(s.attempts[x].pc)
  }

  /** `act` deletes the file at the lock path on behalf of `r`. */
  ghost predicate RemovesLockBy(act: Action, r: nat) {
    (act.RemoveStale? || act.Cleanup?) && act.a == r && act.ok
  }

  /** In `s`, `act` deletes the lock file of `x`, which is somebody else's and still in use. */
  ghost predicate Robs(s: State, act: Action, r: nat, x: nat) {
    Enabled(s, act) && RemovesLockBy(act, r) && r != x && Owns(s, x) && Holds(s, x)
  }

  /** ... and `r` never had the lock itself: it was refused, or it acts on a stale verdict. */
  ghost predicate RootTheft(s: State, act: Action, r: nat, x: nat) {
    Robs(s, act, r, x) && (act.RemoveStale? || s.attempts[r].pc == CleaningUp(false))
  }

  ghost predicate RootTheftAt(states: seq<State>, acts: seq<Action>, i: nat) {
    i < |acts| < |states| && exists r, x :: RootTheft(states[i], acts[i], r, x)
  }

  ghost predicate RobbedAt(states: seq<State>, acts: seq<Action>, j: nat, x: nat) {
    j < |acts| < |states| && exists r :: Robs(states[j], acts[j], r, x)
  }

  /** Everybody with an open lock descriptor owns the file at the lock path. */
  ghost predicate HoldersOwn(s: State) {
    forall a :: Holds(s, a) ==> Owns(s, a)
  }

  lemma StepKeepsHoldersOwn(s: State, act: Action)
    requires Enabled(s, act) && HoldersOwn(s)
    requires forall r, x :: !RootTheft(s, act, r, x)
    ensures HoldersOwn(Apply(s, act))
  {
    var t := Apply(s, act);
    forall x | Holds(t, x) ensures Owns(t, x) {
      if act.RemoveStale? || act.Cleanup? {
        if x != act.a && act.ok {
          assert Holds(s, x);
          assert Holds(s, act.a) ==> Owns(s, act.a);
          assert RootTheft(s, act, act.a, x);
        } else {
          assert Holds(s, x);
        }
      } else if !act.OpenCreated? || x != act.a {
        assert Holds(s, x);
      }
    }
  }

  lemma {:induction false} RunKeepsHoldersOwn(states: seq<State>, acts: seq<Action>, k: nat)
    requires ValidRun(states, acts) && k < |states|
    requires forall i :: 0 <= i < k ==> !RootTheftAt(states, acts, i)
    ensures HoldersOwn(states[k])
  {
    if k > 0 {
      RunKeepsHoldersOwn(states, acts, k - 1);
      assert !RootTheftAt(states, acts, k - 1);
      StepKeepsHoldersOwn(states[k - 1], acts[k - 1]);
    }
  }

  /** An attempt between its exclusive create and the end of `fn` owns the lock file
      unless some other attempt deleted that file in the meantime. */
  lemma {:induction false} ActiveOwnsOrWasRobbed(states: seq<State>, acts: seq<Action>, k: nat, x: nat)
    requires ValidRun(states, acts) && k < |states|
    requires x in states[k].attempts && (states[k].attempts[x].pc.WritingMetadata? || states[k].attempts[x].pc.Inside?)
    ensures Owns(states[k], x) || exists j :: 0 <= j < k && RobbedAt(states, acts, j, x)
  {
    if k > 0 {
      var s, act := states[k - 1], acts[k - 1];
      if act.OpenCreated? && act.a == x {
      } else {
        assert x in s.attempts && (s.attempts[x].pc.WritingMetadata? || s.attempts[x].pc.Inside?);
        ActiveOwnsOrWasRobbed(states, acts, k - 1, x);
        if Owns(s, x) && !Owns(states[k], x) {
          if act.RemoveStale? || act.Cleanup? {
            assert Robs(s, act, act.a, x);
            assert RobbedAt(states, acts, k - 1, x);
          }
        }
      }
    }
  }

  /** Lock safety. Two attempts are inside `fn` together only if the lock file of one of them
      was deleted under it by another attempt, and that can only start with a deletion by an
      attempt that was refused or that acts on a stale verdict. */
  lemma MutualExclusionUnlessTheft(states: seq<State>, acts: seq<Action>, k: nat, p: nat, q: nat)
    requires ValidRun(states, acts) && k < |states|
    requires p != q && IsInside(states[k], p) && IsInside(states[k], q)
    ensures exists j, x :: 0 <= j < k && (x == p || x == q) && RobbedAt(states, acts, j, x)
    ensures exists i :: 0 <= i < k && RootTheftAt(states, acts, i)
  {
    ActiveOwnsOrWasRobbed(states, acts, k, p);
    ActiveOwnsOrWasRobbed(states, acts, k, q);
    if forall i :: 0 <= i < k ==> !RootTheftAt(states, acts, i) {
      RunKeepsHoldersOwn(states, acts, k);
      assert Holds(states[k], p) && Holds(states[k], q);
      assert false;
    }
  }

  // ----- The condition is needed -----

  lemma JoinRuns(states: seq<State>, acts: seq<Action>, more: seq<State>, moreActs: seq<Action>)
    requires Linked(states, acts) && Linked(more, moreActs) && states[|acts|] == more[0]
    ensures Linked(states + more[1..], acts + moreActs)
  {
    forall i | 0 <= i < |acts + moreActs|
      ensures Enabled((states + more[1..])[i], (acts + moreActs)[i])
      ensures (states + more[1..])[i + 1] == Apply((states + more[1..])[i], (acts + moreActs)[i])
    {
      if i < |acts| {
        assert (states + more[1..])[i] == states[i] && (states + more[1..])[i + 1] == states[i + 1];
      } else {
        assert (states + more[1..])[i] == more[i - |acts|] && (states + more[1..])[i + 1] == more[i - |acts| + 1];
        assert (acts + moreActs)[i] == moreActs[i - |acts|];
      }
    }
  }

  /** The step is a crash or a call that fails. */
  ghost predicate Failing(act: Action) {
    match act
    case OpenFailed(_) => true
    case ReadMetadata(_, readable) => !readable
    case CheckAge(_, _, statOk) => !statOk
    case RemoveStale(_, ok) => !ok
    case Notify(_, ok) => !ok
    case WriteMetadata(_, _, ok) => !ok
    case Cleanup(_, ok) => !ok
    case Crash(_, _) => true
    case _ => false
  }

  ghost predicate FailingOrCleanup(act: Action) {
    Failing(act) || act.Cleanup?
  }

  /** An attempt that finds no lock file is inside `fn` three steps later, beside whoever is
      inside already: once the file of an attempt inside `fn` is gone, exclusion is broken. */
  lemma NewcomerEntersFreeLock(s: State, y: nat, host: string, pid: nat, now: int)
    returns (states: seq<State>, acts: seq<Action>)
    requires s.lock.None? && y !in s.attempts && pid > 0
    ensures Linked(states, acts) && states[0] == s && |acts| == 3 && forall i :: 0 <= i < 3 ==> !Failing(acts[i])
    ensures states[3] ==
      State(Some(LockFile(Some(y), WrittenMetadata(host, pid, now), now)), s.attempts[y := Attempt(host, pid, Inside)])
    ensures forall x :: IsInside(s, x) ==> IsInside(states[3], x)
  {
    acts := [Start(y, host, pid), OpenCreated(y, now), WriteMetadata(y, now, true)];
    var s1 := Apply(s, acts[0]);
    var s2 := Apply(s1, acts[1]);
    var s3 := Apply(s2, acts[2]);
    states := [s, s1, s2, s3];
  }

  /** An attempt that finds the lock of a live process of its own host is refused, and its
      cleanup then deletes that lock file. */
  lemma RefusedAttemptRemovesLock(s: State, x: nat, y: nat, host: string, pid: nat)
    returns (states: seq<State>, acts: seq<Action>)
    requires IsInside(s, x) && Owns(s, x) && NamesSameHostPid(s.lock.value.meta, host)
    requires y !in s.attempts && pid > 0
    ensures Linked(states, acts) && states[0] == s && |acts| == 5 && forall i :: 0 <= i < 5 ==> !Failing(acts[i])
    ensures states[5] == State(None, s.attempts[y := Attempt(host, pid, Finished)])
    ensures RootTheft(states[4], acts[4], y, x)
  {
    acts := [Start(y, host, pid), OpenExists(y), ReadMetadata(y, true), CheckPid(y, true), Cleanup(y, true)];
    var at := (pc: Pc) => State(s.lock, s.attempts[y := Attempt(host, pid, pc)]);
    states := [s, at(Opening), at(ReadingMetadata), at(CheckingPid(s.lock)), at(CleaningUp(false)),
               State(None, s.attempts[y := Attempt(host, pid, Finished)])];
    assert x in states[4].attempts;
  }

  /** Three live processes of one host, no crash and no failing call: the second attempt is
      refused because the first one's pid is live, its cleanup deletes the first one's lock
      file, and the third attempt enters `fn` beside the first. */
  lemma RefusedCleanupWitness() returns (states: seq<State>, acts: seq<Action>)
    ensures ValidRun(states, acts) && RootTheftAt(states, acts, 7) && forall i :: 0 <= i < |acts| ==> !Failing(acts[i])
    ensures IsInside(states[|acts|], 1) && IsInside(states[|acts|], 3) && Owns(states[|acts|], 3)
  {
    assert !IsBlank("host") by { assert !IsSpace("host"[0]); }
    states, acts := NewcomerEntersFreeLock(State(None, map[]), 1, "host", 11, 0);
    assert IsInside(states[3], 1);
    var states2, acts2 := RefusedAttemptRemovesLock(states[3], 1, 2, "host", 12);
    assert IsInside(states2[5], 1);
    JoinRuns(states, acts, states2, acts2);
    states, acts := states + states2[1..], acts + acts2;
    assert RootTheft(states[7], acts[7], 2, 1);
    var states3, acts3 := NewcomerEntersFreeLock(states[8], 3, "host", 13, 0);
    JoinRuns(states, acts, states3, acts3);
    assert (states + states3[1..])[7] == states[7] && (acts + acts3)[7] == acts[7];
    states, acts := states + states3[1..], acts + acts3;
  }

  /** Deleting the lock file of an attempt inside `fn`: the run can go on through the theft so that
      the robbed attempt and a newcomer are inside together. */
  lemma TheftFromInside(s: State, act: Action, r: nat, x: nat, y: nat, host: string, pid: nat)
    returns (states: seq<State>, acts: seq<Action>)
    requires Robs(s, act, r, x) && IsInside(s, x) && y !in s.attempts && pid > 0
    ensures Linked(states, acts) && states[0] == s && |acts| == 4 && acts[0] == act
    ensures IsInside(states[4], x) && IsInside(states[4], y)
  {
    var t := Apply(s, act);
    assert IsInside(t, x) && y !in t.attempts && t.lock.None?;
    var more, moreActs := NewcomerEntersFreeLock(t, y, host, pid, 0);
    JoinRuns([s, t], [act], more, moreActs);
    states, acts := [s, t] + more[1..], [act] + moreActs;
  }

  /** What a theft leaves: no lock file, the victim as it was, and nobody else changed. */
  lemma TheftFreesLock(s: State, act: Action, r: nat, x: nat, y: nat)
    requires Robs(s, act, r, x)
    ensures var t := Apply(s, act);
      && t.lock.None? && x in t.attempts && t.attempts[x] == s.attempts[x] && (y !in s.attempts ==> y !in t.attempts)
  {
  }

  /** A newcomer after a theft: it has the lock and is inside `fn`, and the victim is where it was. */
  lemma NewcomerAfterTheft(s: State, act: Action, r: nat, x: nat, y: nat, host: string, pid: nat)
    returns (states: seq<State>, acts: seq<Action>)
    requires Robs(s, act, r, x) && y !in s.attempts && pid > 0
    ensures Linked(states, acts) && states[0] == s && |acts| == 4 && acts[0] == act
    ensures IsInside(states[4], y) && Owns(states[4], y) && x != y
    ensures x in states[4].attempts && states[4].attempts[x] == s.attempts[x]
    ensures forall z :: z !in s.attempts && z != y ==> z !in states[4].attempts
  {
    forall z ensures z !in s.attempts ==> z !in Apply(s, act).attempts { TheftFreesLock(s, act, r, x, z); }
    TheftFreesLock(s, act, r, x, y);
    var t := Apply(s, act);
    assert Linked([s, t], [act]);
    hide Enabled, Apply;
    var more, moreActs := NewcomerEntersFreeLock(t, y, host, pid, 0);
    JoinRuns([s, t], [act], more, moreActs);
    states, acts := [s, t] + more[1..], [act] + moreActs;
  }

  /** The converse of lock safety: deleting the lock file of any attempt that still uses it breaks
      exclusion. Whoever the robber is, the run can go on through the theft itself so that two
      attempts are inside together: the victim and a newcomer, or, when the victim is past `fn`,
      the newcomer whose file the victim's cleanup deletes and one more. */
  lemma TheftBreaksExclusion(s: State, act: Action, r: nat, x: nat, y: nat, z: nat, host: string, pid: nat)
    returns (states: seq<State>, acts: seq<Action>, p: nat, q: nat)
    requires Robs(s, act, r, x) && y !in s.attempts && z !in s.attempts && y != z && pid > 0
    ensures Linked(states, acts) && states[0] == s && |acts| >= 1 && acts[0] == act
    ensures p != q && IsInside(states[|acts|], p) && IsInside(states[|acts|], q)
  {
    states, acts := NewcomerAfterTheft(s, act, r, x, y, host, pid);
    p, q := x, y;
    var t := states[4];
    match s.attempts[x].pc
    case Inside =>
    case WritingMetadata =>
      var next := Apply(t, WriteMetadata(x, 0, true));
      Extend(states, acts, WriteMetadata(x, 0, true), next);
      states, acts := states + [next], acts + [WriteMetadata(x, 0, true)];
    case CleaningUp(_) =>
      assert Robs(t, Cleanup(x, true), x, y);
      var more, moreActs := TheftFromInside(t, Cleanup(x, true), x, y, z, host, pid);
      JoinRuns(states, acts, more, moreActs);
      states, acts := states + more[1..], acts + moreActs;
      p := z;
  }

  /** What makes an attempt take the file it found for stale. */
  ghost predicate JudgedStale(s: State, file: LockFile, host: string, now: int) {
    && (file.meta.pid.Some? ==> !LivePid(s, host, file.meta.pid.value))
    && TooOld(AgeMs(file.meta, Some(file.mtimeMs), now))
  }

  /** `s` with attempt `a` at `pc`. */
  function Joined(s: State, a: nat, host: string, pid: nat, pc: Pc): State {
    s.(attempts := s.attempts[a := Attempt(host, pid, pc)])
  }

  lemma AttemptReadsLock(s: State, file: LockFile, a: nat, host: string, pid: nat)
    returns (states: seq<State>, acts: seq<Action>)
    requires s.lock == Some(file) && a !in s.attempts && pid > 0
    ensures Linked(states, acts) && states[0] == s && |acts| == 3
    ensures forall i :: 0 <= i < 3 ==> !FailingOrCleanup(acts[i])
    ensures states[3] == Joined(s, a, host, pid, CheckingPid(Some(file)))
  {
    var reading, checking := Joined(s, a, host, pid, ReadingMetadata), Joined(s, a, host, pid, CheckingPid(Some(file)));
    states, acts := [s, Joined(s, a, host, pid, Opening), reading], [Start(a, host, pid), OpenExists(a)];
    Extend(states, acts, ReadMetadata(a, true), checking);
    states, acts := states + [checking], acts + [ReadMetadata(a, true)];
  }

  /** An attempt that finds a stale lock stands before its removal five steps later. */
  lemma AttemptJudgesStale(s: State, file: LockFile, a: nat, host: string, pid: nat, now: int)
    returns (states: seq<State>, acts: seq<Action>)
    requires s.lock == Some(file) && a !in s.attempts && pid > 0 && JudgedStale(s, file, host, now)
    requires file.meta.pid != Some(pid)
    ensures Linked(states, acts) && states[0] == s && |acts| == 5
    ensures forall i :: 0 <= i < 5 ==> !FailingOrCleanup(acts[i])
    ensures states[5] == Joined(s, a, host, pid, RemovingStale(Some(file)))
  {
    states, acts := AttemptReadsLock(s, file, a, host, pid);
    hide Linked;
    var ageing, removing :=
      Joined(s, a, host, pid, CheckingAge(Some(file))), Joined(s, a, host, pid, RemovingStale(Some(file)));
    Extend(states, acts, CheckPid(a, false), ageing);
    states, acts := states + [ageing], acts + [CheckPid(a, false)];
    Extend(states, acts, CheckAge(a, now, true), removing);
    states, acts := states + [removing], acts + [CheckAge(a, now, true)];
  }

  /** From there it removes whatever file is at the lock path and enters `fn` in four steps. */
  lemma StaleRemoverEnters(s: State, a: nat, now: int) returns (states: seq<State>, acts: seq<Action>)
    requires a in s.attempts && s.attempts[a].pc.RemovingStale?
    ensures Linked(states, acts) && states[0] == s && |acts| == 4 && acts[0] == RemoveStale(a, true)
    ensures forall i :: 0 <= i < 4 ==> !FailingOrCleanup(acts[i])
    ensures Owns(states[4], a) && states[4].attempts == s.attempts[a := s.attempts[a].(pc := Inside)]
  {
    acts := [RemoveStale(a, true), Notify(a, true), OpenCreated(a, now), WriteMetadata(a, now, true)];
    var at := (lock: Option<LockFile>, pc: Pc) => State(lock, s.attempts[a := s.attempts[a].(pc := pc)]);
    var file := LockFile(Some(a), WrittenMetadata(s.attempts[a].host, s.attempts[a].pid, now), now);
    states := [s, at(None, Notifying(s.attempts[a].pc.read)), at(None, Reopening),
               at(Some(LockFile(Some(a), NO_METADATA, now)), WritingMetadata), at(Some(file), Inside)];
  }

  /** The second way to lose exclusion, with no cleanup, no crash and no failing call: two attempts
      find the same old lock and judge it stale, the first recovers and enters `fn`, and the
      second then removes the first one's new file on its own verdict and enters as well. */
  lemma StaleRecoveryRaceWitness() returns (states: seq<State>, acts: seq<Action>)
    ensures ValidRun(states, acts) && |acts| == 18 && forall i :: 0 <= i < |acts| ==> !FailingOrCleanup(acts[i])
    ensures acts[14].RemoveStale? && RootTheftAt(states, acts, 14)
    ensures IsInside(states[18], 1) && IsInside(states[18], 2)
  {
    var file := LockFile(None, NO_METADATA, 0);
    states, acts := AttemptJudgesStale(State(Some(file), map[]), file, 1, "host", 11, 40_000);
    var states2, acts2 := AttemptJudgesStale(states[5], file, 2, "host", 12, 40_000);
    JoinRuns(states, acts, states2, acts2);
    states, acts := states + states2[1..], acts + acts2;
    var states3, acts3 := StaleRemoverEnters(states[10], 1, 40_000);
    JoinRuns(states, acts, states3, acts3);
    states, acts := states + states3[1..], acts + acts3;
    assert IsInside(states[14], 1) && Owns(states[14], 1);
    var states4, acts4 := StaleRemoverEnters(states[14], 2, 40_000);
    assert RootTheft(states[14], acts4[0], 2, 1);
    JoinRuns(states, acts, states4, acts4);
    states, acts := states + states4[1..], acts + acts4;
    assert RootTheft(states[14], acts[14], 2, 1);
  }

  /** One step at the end of a run. */
  lemma Extend(states: seq<State>, acts: seq<Action>, act: Action, next: State)
    requires Linked(states, acts) && Enabled(states[|acts|], act) && Apply(states[|acts|], act) == next
    ensures Linked(states + [next], acts + [act])
  {
  }

  /** After a first theft even an attempt that did get the lock deletes somebody else's file:
      when the robbed attempt of the run above ends, its cleanup removes the newcomer's lock. */
  lemma RobbedHolderRobsWitness() returns (states: seq<State>, acts: seq<Action>)
    ensures ValidRun(states, acts) && |acts| > 0
    ensures Robs(states[|acts| - 1], acts[|acts| - 1], 1, 3) && Holds(states[|acts| - 1], 1)
    ensures IsInside(states[|acts|], 3)
  {
    states, acts := RefusedCleanupWitness();
    var s1 := Apply(states[|acts|], LeaveFn(1));
    Extend(states, acts, LeaveFn(1), s1);
    states, acts := states + [s1], acts + [LeaveFn(1)];
    var s2 := Apply(s1, Cleanup(1, true));
    Extend(states, acts, Cleanup(1, true), s2);
    assert Holds(s1, 3) && Owns(s1, 3);
    states, acts := states + [s2], acts + [Cleanup(1, true)];
  }

  // ----- What a stale verdict can be mistaken about -----

  /** A file created by `x` carries either no metadata yet or exactly what `x` wrote. */
  ghost predicate Authentic(s: State, file: LockFile) {
    file.creator.Some? ==>
      && file.creator.value in s.attempts
      && (file.meta == NO_METADATA ||
          var author := s.attempts[file.creator.value];
          exists now :: file.meta == WrittenMetadata(author.host, author.pid, now))
  }

  ghost predicate Decided(pc: Pc) {
    pc.CheckingAge? || pc.RemovingStale? || pc.Notifying?
  }

  /** The attempt holds a lock file that it has read. */
  ghost predicate HasRead(pc: Pc) {
    (pc.CheckingPid? || Decided(pc)) && pc.read.Some?
  }

  /** If the checked file was complete and written on this host, then its author is no longer running. */
  ghost predicate VerdictSound(s: State, r: nat)
    requires r in s.attempts && Decided(s.attempts[r].pc)
  {
    var read := s.attempts[r].pc.read;
    read.Some? && read.value.creator.Some? && read.value.creator.value in s.attempts &&
    NamesSameHostPid(read.value.meta, s.attempts[r].host) ==>
      !Running(s.attempts[read.value.creator.value].pc)
  }

  ghost predicate JudgeInv(s: State) {
    && (s.lock.Some? ==> Authentic(s, s.lock.value))
    && (forall r :: r in s.attempts && HasRead(s.attempts[r].pc) ==> Authentic(s, s.attempts[r].pc.read.value))
    && (forall r :: r in s.attempts && Decided(s.attempts[r].pc) ==> VerdictSound(s, r))
  }

  lemma AuthenticStays(s: State, act: Action, file: LockFile)
    requires Enabled(s, act) && Authentic(s, file)
    ensures Authentic(Apply(s, act), file)
  {
    if file.creator.Some? {
      var x := file.creator.value;
      assert x in Apply(s, act).attempts && Apply(s, act).attempts[x].host == s.attempts[x].host
          && Apply(s, act).attempts[x].pid == s.attempts[x].pid;
    }
  }

  lemma LockStaysAuthentic(s: State, act: Action)
    requires Enabled(s, act) && (s.lock.Some? ==> Authentic(s, s.lock.value))
    ensures var t := Apply(s, act); t.lock.Some? ==> Authentic(t, t.lock.value)
  {
    var t := Apply(s, act);
    if t.lock.Some? {
      if t.lock == s.lock {
        AuthenticStays(s, act, s.lock.value);
      } else if act.WriteMetadata? {
        assert t.lock.value.meta == WrittenMetadata(t.attempts[act.a].host, t.attempts[act.a].pid, act.now);
      }
    }
  }

  lemma ReadStaysAuthentic(s: State, act: Action, r: nat)
    requires Enabled(s, act) && (s.lock.Some? ==> Authentic(s, s.lock.value))
    requires r in s.attempts && HasRead(s.attempts[r].pc) ==> Authentic(s, s.attempts[r].pc.read.value)
    requires r in Apply(s, act).attempts && HasRead(Apply(s, act).attempts[r].pc)
    ensures Authentic(Apply(s, act), Apply(s, act).attempts[r].pc.read.value)
  {
    if act.ReadMetadata? && act.a == r {
      AuthenticStays(s, act, s.lock.value);
    } else {
      assert Apply(s, act).attempts[r].pc.read == s.attempts[r].pc.read;
      AuthenticStays(s, act, s.attempts[r].pc.read.value);
    }
  }

  lemma StepKeepsJudgeInv(s: State, act: Action)
    requires Enabled(s, act) && JudgeInv(s)
    ensures JudgeInv(Apply(s, act))
  {
    hide Enabled, Apply, Authentic, VerdictSound;
    var t := Apply(s, act);
    LockStaysAuthentic(s, act);
    forall r | r in t.attempts && HasRead(t.attempts[r].pc) ensures Authentic(t, t.attempts[r].pc.read.value) {
      ReadStaysAuthentic(s, act, r);
    }
    forall r | r in t.attempts && Decided(t.attempts[r].pc) ensures VerdictSound(t, r) {
      StepKeepsVerdict(s, act, r);
    }
  }

  lemma StepKeepsVerdict(s: State, act: Action, r: nat)
    requires Enabled(s, act) && r in Apply(s, act).attempts && Decided(Apply(s, act).attempts[r].pc)
    requires r in s.attempts && HasRead(s.attempts[r].pc) ==> Authentic(s, s.attempts[r].pc.read.value)
    requires r in s.attempts && Decided(s.attempts[r].pc) ==> VerdictSound(s, r)
    ensures VerdictSound(Apply(s, act), r)
  {
    var t := Apply(s, act);
    var read := t.attempts[r].pc.read;
    if read.Some? && read.value.creator.Some? && NamesSameHostPid(read.value.meta, t.attempts[r].host) {
      assert r in s.attempts && s.attempts[r].pc.read == read;
      var x := read.value.creator.value;
      assert Authentic(s, read.value) && x in s.attempts;
      assert !(act.CheckPid? && act.a == r) ==> VerdictSound(s, r);
    }
  }

  lemma {:induction false} RunKeepsJudgeInv(states: seq<State>, acts: seq<Action>, k: nat)
    requires ValidRun(states, acts) && k < |states|
    ensures JudgeInv(states[k])
  {
    if k > 0 {
      RunKeepsJudgeInv(states, acts, k - 1);
      StepKeepsJudgeInv(states[k - 1], acts[k - 1]);
    }
  }

  /** A removal after a stale verdict hits a running attempt on the same host only when the
      verdict was not about that attempt's finished lock file: the check read another file,
      read nothing, or read the file before its metadata was written. */
  lemma StaleTheftCause(states: seq<State>, acts: seq<Action>, k: nat, r: nat, x: nat)
    requires ValidRun(states, acts) && k < |acts|
    requires acts[k].RemoveStale? && Robs(states[k], acts[k], r, x)
    requires states[k].attempts[r].host == states[k].attempts[x].host && !IsBlank(states[k].attempts[x].host)
    ensures var read := states[k].attempts[r].pc.read;
      read.None? || read.value.creator != Some(x) || read.value.meta == NO_METADATA
  {
    RunKeepsJudgeInv(states, acts, k);
    assert VerdictSound(states[k], r);
  }

  // ----- What a completed lock file says -----

  /** In step `i` the creator of `file` has completed it, at the time `t`. */
  ghost predicate CompletedAt(states: seq<State>, acts: seq<Action>, i: nat, t: int, file: LockFile) {
    && i < |acts| < |states| && file.creator.Some?
    && acts[i] == WriteMetadata(file.creator.value, t, true) && Owns(states[i], file.creator.value)
    && states[i + 1].lock == Some(file)
  }

  /** Some attempt of the run made the file, and it has its metadata. */
  ghost predicate Complete(file: LockFile) {
    file.creator.Some? && file.meta != NO_METADATA
  }

  ghost predicate CompletedBefore(states: seq<State>, acts: seq<Action>, k: nat, file: LockFile) {
    Complete(file) ==> exists i, t :: 0 <= i < k && CompletedAt(states, acts, i, t, file)
  }

  lemma CompletedLater(states: seq<State>, acts: seq<Action>, k: nat, file: LockFile)
    requires CompletedBefore(states, acts, k, file)
    ensures CompletedBefore(states, acts, k + 1, file)
  {
  }

  /** The lock file that a step leaves is the one it found, is not complete, or was completed by it. */
  lemma StepCompletes(s: State, act: Action)
    requires Enabled(s, act)
    ensures var t := Apply(s, act);
      t.lock.Some? && t.lock != s.lock && Complete(t.lock.value) ==>
        && act.WriteMetadata? && act.ok && t.lock.value.creator == Some(act.a) && Owns(s, act.a)
  {
  }

  /** What an attempt has read was at the lock path in some step before. */
  lemma StepReads(s: State, act: Action, r: nat)
    requires Enabled(s, act) && r in Apply(s, act).attempts && HasRead(Apply(s, act).attempts[r].pc)
    ensures var read := Apply(s, act).attempts[r].pc.read;
      read == s.lock || (r in s.attempts && HasRead(s.attempts[r].pc) && s.attempts[r].pc.read == read)
  {
  }

  /** At every point of every run, each complete file at the lock path or in an attempt's hands was
      completed by its creator in an earlier step. */
  lemma {:induction false} CompleteFilesWereWritten(states: seq<State>, acts: seq<Action>, k: nat)
    requires ValidRun(states, acts) && k < |states|
    ensures states[k].lock.Some? ==> CompletedBefore(states, acts, k, states[k].lock.value)
    ensures forall r :: r in states[k].attempts && HasRead(states[k].attempts[r].pc) ==>
      CompletedBefore(states, acts, k, states[k].attempts[r].pc.read.value)
  {
    if k > 0 {
      CompleteFilesWereWritten(states, acts, k - 1);
      hide Enabled, Apply, Complete, HasRead;
      var s, act, t := states[k - 1], acts[k - 1], states[k];
      StepCompletes(s, act);
      if t.lock.Some? {
        if t.lock == s.lock {
          CompletedLater(states, acts, k - 1, t.lock.value);
        } else if Complete(t.lock.value) {
          assert CompletedAt(states, acts, k - 1, act.now, t.lock.value);
        }
      }
      forall r | r in t.attempts && HasRead(t.attempts[r].pc)
        ensures CompletedBefore(states, acts, k, t.attempts[r].pc.read.value)
      {
        StepReads(s, act, r);
        HasReadSome(t.attempts[r].pc);
        CompletedLater(states, acts, k - 1, t.attempts[r].pc.read.value);
      }
    }
  }

  lemma HasReadSome(pc: Pc)
    requires HasRead(pc)
    ensures (pc.CheckingPid? || Decided(pc)) && pc.read.Some?
  {
  }

  /** The verdict on a complete file, at every point of every run: whatever the file's mtime and
      whether or not it can be had, the check finds the file stale exactly when more than thirty
      seconds have passed since its creator completed it. */
  lemma StaleExactlyAfterThirtySeconds(states: seq<State>, acts: seq<Action>, k: nat, r: nat, now: int, statOk: bool)
    requires ValidRun(states, acts) && k < |acts| && acts[k] == CheckAge(r, now, statOk)
    requires states[k].attempts[r].pc.read.Some? && Complete(states[k].attempts[r].pc.read.value)
    ensures exists i, t ::
      && 0 <= i < k && CompletedAt(states, acts, i, t, states[k].attempts[r].pc.read.value)
      && states[k + 1].attempts[r].pc ==
           if now > t + 30_000 then RemovingStale(states[k].attempts[r].pc.read) else CleaningUp(false)
  {
    CompleteFilesWereWritten(states, acts, k);
    var file := states[k].attempts[r].pc.read.value;
    assert HasRead(states[k].attempts[r].pc);
    var i, t :| 0 <= i < k && CompletedAt(states, acts, i, t, file);
    CompletionStamps(states[i], acts[i]);
  }

  /** A completed file carries the time of its completion, and names its creator's process. */
  lemma CompletionStamps(s: State, act: Action)
    requires Enabled(s, act) && act.WriteMetadata? && act.ok && Owns(s, act.a)
    ensures var t := Apply(s, act); t.lock.Some? && t.lock.value.meta.createdAtMs == Some(act.now)
    ensures var t, x := Apply(s, act), s.attempts[act.a];
      t.lock.Some? && t.lock.value.meta.pid == Some(x.pid) &&
      t.lock.value.meta.hostname == if IsBlank(x.host) then None else Some(x.host)
  {
  }

  lemma {:induction false} AttemptsKeepTheirProcess(states: seq<State>, acts: seq<Action>, i: nat, k: nat, x: nat)
    requires ValidRun(states, acts) && i <= k < |states| && x in states[i].attempts
    ensures x in states[k].attempts
    ensures states[k].attempts[x].host == states[i].attempts[x].host
    ensures states[k].attempts[x].pid == states[i].attempts[x].pid
  {
    if k > i {
      AttemptsKeepTheirProcess(states, acts, i, k - 1, x);
    }
  }

  /** A running attempt is not robbed on a pid check: whoever has read its completed file on the
      same host, however old the file is, is refused. */
  lemma LiveCreatorRefuses(states: seq<State>, acts: seq<Action>, k: nat, r: nat, x: nat, live: bool)
    requires ValidRun(states, acts) && k < |acts| && acts[k] == CheckPid(r, live)
    requires states[k].attempts[r].pc.read.Some? && Complete(states[k].attempts[r].pc.read.value)
    requires states[k].attempts[r].pc.read.value.creator == Some(x) && x in states[k].attempts
    requires Running(states[k].attempts[x].pc)
    requires states[k].attempts[r].host == states[k].attempts[x].host && !IsBlank(states[k].attempts[x].host)
    ensures states[k + 1].attempts[r].pc == CleaningUp(false)
  {
    CompleteFilesWereWritten(states, acts, k);
    var s := states[k];
    var file := s.attempts[r].pc.read.value;
    assert HasRead(s.attempts[r].pc);
    var i, t :| 0 <= i < k && CompletedAt(states, acts, i, t, file);
    CompletionStamps(states[i], acts[i]);
    AttemptsKeepTheirProcess(states, acts, i, k, x);
    assert LivePid(s, s.attempts[r].host, s.attempts[x].pid);
  }

  /** The attempt has had its look at the lock file, and could not read it. */
  ghost predicate SawNothing(pc: Pc) {
    !pc.Opening? && !pc.ReadingMetadata? && (pc.CheckingPid? || Decided(pc) ==> pc.read.None?)
  }

  lemma SawNothingStays(s: State, act: Action, r: nat)
    requires Enabled(s, act) && r in s.attempts
    requires act == ReadMetadata(r, false) || SawNothing(s.attempts[r].pc)
    ensures r in Apply(s, act).attempts && SawNothing(Apply(s, act).attempts[r].pc)
  {
  }

  lemma {:induction false} SawNothingAfter(states: seq<State>, acts: seq<Action>, j: nat, k: nat, r: nat)
    requires ValidRun(states, acts) && j < k < |states| && acts[j] == ReadMetadata(r, false)
    ensures r in states[k].attempts && SawNothing(states[k].attempts[r].pc)
    decreases k
  {
    if k > j + 1 {
      SawNothingAfter(states, acts, j, k - 1, r);
    }
    assert r in states[k - 1].attempts;
    hide Apply, SawNothing;
    SawNothingStays(states[k - 1], acts[k - 1], r);
  }

  /** The verdict without metadata: when the lock file could not be read, the age is that of whatever
      file is at the lock path at the check, by its mtime; if that cannot be had, the attempt is
      refused. */
  lemma UnreadableJudgedByMtime(
    states: seq<State>, acts: seq<Action>, j: nat, k: nat, r: nat, now: int, statOk: bool)
    requires ValidRun(states, acts) && j < k < |acts|
    requires acts[j] == ReadMetadata(r, false) && acts[k] == CheckAge(r, now, statOk)
    ensures states[k + 1].attempts[r].pc ==
      if statOk && states[k].lock.Some? && now > states[k].lock.value.mtimeMs + 30_000 then RemovingStale(None)
      else CleaningUp(false)
  {
    SawNothingAfter(states, acts, j, k, r);
  }

  // ----- How an attempt ends -----

  /** The attempt is over, but for its cleanup. */
  predicate Ending(pc: Pc) {
    pc.CleaningUp? || pc.Finished? || pc.Crashed?
  }

  /** The step makes attempt `a` throw: a call fails that it cannot do without, or it finds a lock
      file again after it has removed a stale one. */
  ghost predicate Fatal(s: State, act: Action, a: nat) {
    && Enabled(s, act) && a in s.attempts
    && (|| act == OpenFailed(a) || act == RemoveStale(a, false) || act == Notify(a, false)
        || (act.WriteMetadata? && act.a == a && !act.ok)
        || (act == OpenExists(a) && s.attempts[a].pc.Reopening?))
  }

  lemma EndingStays(s: State, act: Action, a: nat)
    requires Enabled(s, act) && a in s.attempts && Ending(s.attempts[a].pc)
    ensures a in Apply(s, act).attempts && Ending(Apply(s, act).attempts[a].pc)
  {
  }

  lemma FatalEnds(s: State, act: Action, a: nat)
    requires Fatal(s, act, a)
    ensures a in Apply(s, act).attempts && Apply(s, act).attempts[a].pc.CleaningUp?
  {
  }

  /** After such a step the attempt never comes to `fn`: all that is left is its cleanup. */
  lemma {:induction false} FatalIsFinal(states: seq<State>, acts: seq<Action>, j: nat, k: nat, a: nat)
    requires ValidRun(states, acts) && j < k < |states| && Fatal(states[j], acts[j], a)
    ensures a in states[k].attempts && Ending(states[k].attempts[a].pc)
    ensures k == j + 1 ==> states[k].attempts[a].pc.CleaningUp?
    decreases k
  {
    hide Enabled, Apply, Fatal, Ending;
    if k == j + 1 {
      FatalEnds(states[j], acts[j], a);
      CleaningUpIsEnding(states[k].attempts[a].pc);
    } else {
      FatalIsFinal(states, acts, j, k - 1, a);
      EndingStays(states[k - 1], acts[k - 1], a);
    }
  }

  lemma CleaningUpIsEnding(pc: Pc)
    ensures pc.CleaningUp? ==> Ending(pc)
  {
  }

  /** No attempt returns or throws without its cleanup: one that is finished has made it. */
  lemma {:induction false} FinishedByCleanup(states: seq<State>, acts: seq<Action>, k: nat, a: nat)
    requires ValidRun(states, acts) && k < |states|
    requires a in states[k].attempts && states[k].attempts[a].pc.Finished?
    ensures exists j :: 0 <= j < k && acts[j].Cleanup? && acts[j].a == a
    decreases k
  {
    if k > 0 && !(acts[k - 1].Cleanup? && acts[k - 1].a == a) {
      FinishedByCleanup(states, acts, k - 1, a);
    }
  }

  /** An attempt has an open lock descriptor exactly from its exclusive create to its end. */
  lemma {:induction false} HoldsExactlyAfterCreate(states: seq<State>, acts: seq<Action>, k: nat, a: nat)
    requires ValidRun(states, acts) && k < |states| && a in states[k].attempts
    ensures Holds(states[k], a) <==>
      Running(states[k].attempts[a].pc) && exists j :: 0 <= j < k && acts[j].OpenCreated? && acts[j].a == a
    decreases k
  {
    if k > 0 {
      var s, act := states[k - 1], acts[k - 1];
      if a in s.attempts {
        HoldsExactlyAfterCreate(states, acts, k - 1, a);
      } else {
        NeverSeen(states, acts, k - 1, a);
      }
    }
  }

  lemma {:induction false} NeverSeen(states: seq<State>, acts: seq<Action>, k: nat, a: nat)
    requires ValidRun(states, acts) && k < |states| && a !in states[k].attempts
    ensures forall j :: 0 <= j < k ==> !(acts[j].OpenCreated? && acts[j].a == a)
    decreases k
  {
    if k > 0 {
      assert a !in states[k - 1].attempts;
      NeverSeen(states, acts, k - 1, a);
    }
  }

  // ----- One attempt on its own -----

  /** `isStaleConfigMutationLock` on a file that nobody else touches. */
  predicate IsStale(file: LockFile, host: string, isPidLive: nat -> bool, now: int) {
    && !(NamesSameHostPid(file.meta, host) && isPidLive(file.meta.pid.value))
    && TooOld(AgeMs(file.meta, Some(file.mtimeMs), now))
  }

  ghost predicate PassesThroughFn(states: seq<State>, a: nat) {
    exists i :: 0 <= i < |states| && IsInside(states[i], a)
  }

  /** The state in which `a` is the only attempt. */
  function Solo(lock: Option<LockFile>, a: nat, host: string, pid: nat, pc: Pc): State {
    State(lock, map[a := Attempt(host, pid, pc)])
  }

  lemma SoloGoto(lock: Option<LockFile>, a: nat, host: string, pid: nat, pc: Pc, next: Pc)
    ensures Goto(Solo(lock, a, host, pid, pc), a, next) == Solo(lock, a, host, pid, next)
  {
    assert map[a := Attempt(host, pid, pc)][a := Attempt(host, pid, next)] == map[a := Attempt(host, pid, next)];
  }

  /** The first four steps of an attempt that finds a lock file, up to the pid check. */
  lemma SoloMeetsLock(file: LockFile, a: nat, host: string, pid: nat, live: bool)
    returns (states: seq<State>, acts: seq<Action>)
    requires pid > 0 && (file.meta.pid == Some(pid) ==> live)
    ensures Linked(states, acts) && |acts| == 4 && states[0] == State(Some(file), map[]) && !PassesThroughFn(states, a)
    ensures states[4] == Solo(Some(file), a, host, pid,
                              if NamesSameHostPid(file.meta, host) && live then CleaningUp(false)
                              else CheckingAge(Some(file)))
  {
    var l := Some(file);
    var s1, s2, s3 :=
      Solo(l, a, host, pid, Opening), Solo(l, a, host, pid, ReadingMetadata), Solo(l, a, host, pid, CheckingPid(l));
    SoloGoto(l, a, host, pid, Opening, ReadingMetadata);
    SoloGoto(l, a, host, pid, ReadingMetadata, CheckingPid(l));
    var pc := if NamesSameHostPid(file.meta, host) && live then CleaningUp(false) else CheckingAge(l);
    SoloGoto(l, a, host, pid, CheckingPid(l), pc);
    states := [State(l, map[]), s1, s2, s3, Solo(l, a, host, pid, pc)];
    acts := [Start(a, host, pid), OpenExists(a), ReadMetadata(a, true), CheckPid(a, live)];
  }

  lemma SoloRefused(file: LockFile, a: nat, host: string, pid: nat, isPidLive: nat -> bool, now: int)
    returns (states: seq<State>, acts: seq<Action>)
    requires pid > 0 && isPidLive(pid) && !IsStale(file, host, isPidLive, now)
    ensures Linked(states, acts) && states[0] == State(Some(file), map[]) && !PassesThroughFn(states, a)
    ensures states[|acts|] == Solo(None, a, host, pid, Finished)
  {
    var l := Some(file);
    var live := file.meta.pid.Some? && isPidLive(file.meta.pid.value);
    states, acts := SoloMeetsLock(file, a, host, pid, live);
    if !(NamesSameHostPid(file.meta, host) && live) {
      SoloGoto(l, a, host, pid, CheckingAge(l), CleaningUp(false));
      Extend(states, acts, CheckAge(a, now, true), Solo(l, a, host, pid, CleaningUp(false)));
      states, acts := states + [Solo(l, a, host, pid, CleaningUp(false))], acts + [CheckAge(a, now, true)];
    }
    SoloGoto(None, a, host, pid, CleaningUp(false), Finished);
    Extend(states, acts, Cleanup(a, true), Solo(None, a, host, pid, Finished));
    states, acts := states + [Solo(None, a, host, pid, Finished)], acts + [Cleanup(a, true)];
  }

  lemma SoloRecovers(file: LockFile, a: nat, host: string, pid: nat, isPidLive: nat -> bool, now: int)
    returns (states: seq<State>, acts: seq<Action>)
    requires pid > 0 && isPidLive(pid) && IsStale(file, host, isPidLive, now)
    ensures Linked(states, acts) && states[0] == State(Some(file), map[])
    ensures states[|acts|] == Solo(None, a, host, pid, Reopening)
  {
    var l := Some(file);
    var live := file.meta.pid.Some? && isPidLive(file.meta.pid.value);
    states, acts := SoloMeetsLock(file, a, host, pid, live);
    SoloGoto(l, a, host, pid, CheckingAge(l), RemovingStale(l));
    Extend(states, acts, CheckAge(a, now, true), Solo(l, a, host, pid, RemovingStale(l)));
    states, acts := states + [Solo(l, a, host, pid, RemovingStale(l))], acts + [CheckAge(a, now, true)];
    SoloGoto(None, a, host, pid, RemovingStale(l), Notifying(l));
    Extend(states, acts, RemoveStale(a, true), Solo(None, a, host, pid, Notifying(l)));
    states, acts := states + [Solo(None, a, host, pid, Notifying(l))], acts + [RemoveStale(a, true)];
    SoloGoto(None, a, host, pid, Notifying(l), Reopening);
    Extend(states, acts, Notify(a, true), Solo(None, a, host, pid, Reopening));
    states, acts := states + [Solo(None, a, host, pid, Reopening)], acts + [Notify(a, true)];
  }

  lemma SoloEnters(a: nat, host: string, pid: nat, pc: Pc, now: int) returns (states: seq<State>, acts: seq<Action>)
    requires pc == Opening || pc == Reopening
    ensures Linked(states, acts) && states[0] == Solo(None, a, host, pid, pc) && PassesThroughFn(states[1..], a)
    ensures states[|acts|] == Solo(None, a, host, pid, Finished)
  {
    var created, written :=
      Some(LockFile(Some(a), NO_METADATA, now)), Some(LockFile(Some(a), WrittenMetadata(host, pid, now), now));
    SoloGoto(created, a, host, pid, pc, WritingMetadata);
    SoloGoto(written, a, host, pid, WritingMetadata, Inside);
    SoloGoto(written, a, host, pid, Inside, CleaningUp(true));
    SoloGoto(None, a, host, pid, CleaningUp(true), Finished);
    states, acts := [Solo(None, a, host, pid, pc), Solo(created, a, host, pid, WritingMetadata)], [OpenCreated(a, now)];
    Extend(states, acts, WriteMetadata(a, now, true), Solo(written, a, host, pid, Inside));
    states, acts := states + [Solo(written, a, host, pid, Inside)], acts + [WriteMetadata(a, now, true)];
    Extend(states, acts, LeaveFn(a), Solo(written, a, host, pid, CleaningUp(true)));
    states, acts := states + [Solo(written, a, host, pid, CleaningUp(true))], acts + [LeaveFn(a)];
    Extend(states, acts, Cleanup(a, true), Solo(None, a, host, pid, Finished));
    states, acts := states + [Solo(None, a, host, pid, Finished)], acts + [Cleanup(a, true)];
    assert IsInside(states[1..][1], a);
  }

  lemma SoloGoesOn(states: seq<State>, acts: seq<Action>, a: nat, host: string, pid: nat, pc: Pc, now: int)
    returns (all: seq<State>, allActs: seq<Action>)
    requires Linked(states, acts) && states[|acts|] == Solo(None, a, host, pid, pc)
    requires pc == Opening || pc == Reopening
    ensures Linked(all, allActs) && all[0] == states[0] && PassesThroughFn(all, a)
    ensures all[|allActs|] == Solo(None, a, host, pid, Finished)
  {
    var more, moreActs := SoloEnters(a, host, pid, pc, now);
    JoinRuns(states, acts, more, moreActs);
    var i :| 0 <= i < |more[1..]| && IsInside(more[1..][i], a);
    all, allActs := states + more[1..], acts + moreActs;
    assert all[|states| + i] == more[1..][i];
  }

  /** The run an undisturbed attempt makes: it ends with no lock file, and it passes through
      `fn` exactly when there was no lock or the lock was stale. */
  lemma SoloRun(lock: Option<LockFile>, a: nat, host: string, pid: nat, isPidLive: nat -> bool, now: int)
    returns (states: seq<State>, acts: seq<Action>)
    requires pid > 0 && isPidLive(pid)
    ensures Linked(states, acts) && states[0] == State(lock, map[])
    ensures states[|acts|] == Solo(None, a, host, pid, Finished)
    ensures PassesThroughFn(states, a) <==> lock.None? || IsStale(lock.value, host, isPidLive, now)
  {
    if lock.Some? && !IsStale(lock.value, host, isPidLive, now) {
      states, acts := SoloRefused(lock.value, a, host, pid, isPidLive, now);
    } else {
      if lock.Some? {
        states, acts := SoloRecovers(lock.value, a, host, pid, isPidLive, now);
      } else {
        states, acts := [State(None, map[]), Solo(None, a, host, pid, Opening)], [Start(a, host, pid)];
      }
      states, acts := SoloGoesOn(states, acts, a, host, pid, if lock.Some? then Reopening else Opening, now);
    }
  }

  // ----- Every undisturbed run -----

  /** A step of attempt `a` alone, in which no call fails, the pid check answers as `isPidLive`
      and the age is taken at `now`. */
  ghost predicate SoloStep(
    act: Action, a: nat, host: string, pid: nat, file: Option<LockFile>, isPidLive: nat -> bool, now: int)
  {
    match act
    case Start(b, h, p) => b == a && h == host && p == pid
    case OpenCreated(b, _) => b == a
    case OpenExists(b) => b == a
    case ReadMetadata(b, readable) => b == a && readable
    case CheckPid(b, live) =>
      b == a && (file.Some? && file.value.meta.pid.Some? ==> live == isPidLive(file.value.meta.pid.value))
    case CheckAge(b, t, statOk) => b == a && t == now && statOk
    case RemoveStale(b, ok) => b == a && ok
    case Notify(b, ok) => b == a && ok
    case WriteMetadata(b, _, ok) => b == a && ok
    case LeaveFn(b) => b == a
    case Cleanup(b, ok) => b == a && ok
    case _ => false
  }

  /** Where such a run can be: the lock path and the verdict so far determine each other. */
  ghost predicate SoloState(
    s: State, a: nat, host: string, pid: nat, file: Option<LockFile>, isPidLive: nat -> bool, now: int)
  {
    var recovers := file.Some? && IsStale(file.value, host, isPidLive, now);
    if a !in s.attempts then s.lock == file && s.attempts == map[]
    else
      && s.attempts.Keys == {a} && s.attempts[a].host == host && s.attempts[a].pid == pid
      && match s.attempts[a].pc
         case Opening => s.lock == file
         case ReadingMetadata => s.lock == file && file.Some?
         case CheckingPid(read) => s.lock == file && file.Some? && read == file
         case CheckingAge(read) =>
           && s.lock == file && file.Some? && read == file
           && !(NamesSameHostPid(file.value.meta, host) && isPidLive(file.value.meta.pid.value))
         case RemovingStale(_) => s.lock == file && recovers
         case Notifying(_) => s.lock.None? && recovers
         case Reopening => s.lock.None? && recovers
         case CleaningUp(holdsFd) =>
           if holdsFd then Owns(s, a) && (file.None? || recovers) else s.lock == file && file.Some? && !recovers
         case Finished => s.lock.None?
         case Crashed => false
         case _ => Owns(s, a) && (file.None? || recovers)
  }

  lemma SoloStepKeepsState(
    s: State, act: Action, a: nat, host: string, pid: nat, file: Option<LockFile>, isPidLive: nat -> bool, now: int)
    requires Enabled(s, act) && SoloStep(act, a, host, pid, file, isPidLive, now)
    requires SoloState(s, a, host, pid, file, isPidLive, now)
    ensures SoloState(Apply(s, act), a, host, pid, file, isPidLive, now)
  {
  }

  /** `s` lies behind the entry of `fn`. */
  ghost predicate HasEntered(s: State, a: nat) {
    a in s.attempts && (s.attempts[a].pc.Inside? || s.attempts[a].pc == CleaningUp(true))
  }

  /** The attempt has entered `fn`, or can no longer tell because it is finished. */
  lemma {:induction false} SoloHistory(
    states: seq<State>, acts: seq<Action>, a: nat, host: string, pid: nat, isPidLive: nat -> bool, now: int, k: nat)
    requires Linked(states, acts) && states[0].attempts == map[] && k < |states|
    requires forall i :: 0 <= i < |acts| ==> SoloStep(acts[i], a, host, pid, states[0].lock, isPidLive, now)
    ensures SoloState(states[k], a, host, pid, states[0].lock, isPidLive, now)
    ensures HasEntered(states[k], a) ==> PassesThroughFn(states[..k + 1], a)
    ensures a in states[k].attempts && states[k].attempts[a].pc.Finished? ==>
      (PassesThroughFn(states[..k + 1], a) <==>
         states[0].lock.None? || IsStale(states[0].lock.value, host, isPidLive, now))
    ensures a !in states[k].attempts || !(HasEntered(states[k], a) || states[k].attempts[a].pc.Finished?) ==>
      !PassesThroughFn(states[..k + 1], a)
  {
    if k > 0 {
      SoloHistory(states, acts, a, host, pid, isPidLive, now, k - 1);
      SoloStepKeepsState(states[k - 1], acts[k - 1], a, host, pid, states[0].lock, isPidLive, now);
      PassesThroughOneMore(states, a, k);
    }
  }

  lemma PassesThroughOneMore(states: seq<State>, a: nat, k: nat)
    requires k < |states|
    ensures PassesThroughFn(states[..k + 1], a) <==> PassesThroughFn(states[..k], a) || IsInside(states[k], a)
  {
    var before, upTo := states[..k], states[..k + 1];
    assert forall i :: 0 <= i < k ==> before[i] == upTo[i];
    assert upTo[k] == states[k];
  }

  /** Every run that attempt `a` makes on its own with no failing call, once it is finished, has
      left no lock file, and has passed through `fn` exactly when it found no lock or a stale one. */
  lemma EverySoloRun(
    states: seq<State>, acts: seq<Action>, a: nat, host: string, pid: nat, isPidLive: nat -> bool, now: int)
    requires Linked(states, acts) && states[0].attempts == map[]
    requires forall i :: 0 <= i < |acts| ==> SoloStep(acts[i], a, host, pid, states[0].lock, isPidLive, now)
    requires a in states[|acts|].attempts && states[|acts|].attempts[a].pc.Finished?
    ensures states[|acts|].lock.None?
    ensures PassesThroughFn(states, a) <==> states[0].lock.None? || IsStale(states[0].lock.value, host, isPidLive, now)
  {
    SoloHistory(states, acts, a, host, pid, isPidLive, now, |acts|);
    assert states[..|acts| + 1] == states;
  }

  datatype Outcome = Returned | FnThrew | RefusedActive

  /** The lock path with a single caller. */
  class LockPath {
    var lock: Option<LockFile>

    constructor (lock: Option<LockFile>)
      ensures this.lock == lock
    {
      this.lock := lock;
    }

    /** `withConfigMutationLock` from start to end with no other attempt in between and no failing
        call. Whatever happens no lock file is left, and there is a run of the transition system
        with the same effect that passes through `fn` exactly when the outcome says so. */
    method WithConfigMutationLock(a: nat, host: string, pid: nat, isPidLive: nat -> bool, now: int, fnThrows: bool)
      returns (r: Outcome, ghost states: seq<State>, ghost acts: seq<Action>)
      requires pid > 0 && isPidLive(pid)
      modifies this
      ensures lock == None
      ensures r == RefusedActive || r == if fnThrows then FnThrew else Returned
      ensures old(lock).None? ==> r != RefusedActive
      // A lock is honoured if it names a live process of this host, at any age, or if it is at most
      // 30 s old by its own time stamp, or by the file's if it has none; otherwise it is recovered.
      ensures old(lock).Some? ==> var file := old(lock).value;
        (r == RefusedActive <==>
           || (file.meta.pid.Some? && file.meta.hostname == Some(host) && isPidLive(file.meta.pid.value))
           || now - file.meta.createdAtMs.GetOr(file.mtimeMs) <= 30_000)
      ensures Linked(states, acts) && states[0] == State(old(lock), map[])
      ensures states[|acts|] == State(lock, map[a := Attempt(host, pid, Finished)])
      ensures r != RefusedActive <==> PassesThroughFn(states, a)
    {
      states, acts := SoloRun(lock, a, host, pid, isPidLive, now);
      var lockFd := false;
      r := RefusedActive;
      if lock.None? {
        lock, lockFd := Some(LockFile(Some(a), NO_METADATA, now)), true;
      } else if IsStale(lock.value, host, isPidLive, now) {
        lock := None;
        lock, lockFd := Some(LockFile(Some(a), NO_METADATA, now)), true;
      }
      if lockFd {
        lock := Some(LockFile(Some(a), WrittenMetadata(host, pid, now), now));
        r := if fnThrows then FnThrew else Returned;
      }
      // The `finally` block: it deletes the lock path whether or not this call created it.
      lock := None;
    }
  }
}
