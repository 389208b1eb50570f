/** The replacement of the config file with any number of writers at a time. The writers are meant
    to hold the mutation lock, but that lock can be lost, so this is what is left without it. */
module ConcurrentReplace {
  import opened Prelude
  import opened ConfigReplace

  /** Writers of `ConfigReplace` that share one directory. */
  datatype System = System(
    files: map<Path, File>, writers: map<nat, Writer>, next: nat,
    history: seq<Version>, backedUp: bool, abandoned: set<Path>)

  datatype Move = Enter(doc: Version) | Call(id: nat, ok: bool) | Die(id: nat)

  /** The system as one of its writers sees it. */
  function View(s: System, id: nat): State
    requires id in s.writers
  {
    State(s.files, Some(s.writers[id]), s.next, s.history, s.backedUp, s.abandoned)
  }

  /** The directory and its history, without writers. */
  function Base(s: System): State {
    State(s.files, None, s.next, s.history, s.backedUp, s.abandoned)
  }

  predicate CanMove(s: System, m: Move, accepts: Version -> bool) {
    match m
    case Enter(_) => true
    case Call(id, ok) => id in s.writers && Enabled(View(s, id), Step(ok), accepts)
    case Die(id) => id in s.writers && !s.writers[id].pc.Done?
  }

  function Moved(s: System, m: Move, accepts: Version -> bool): System
    requires CanMove(s, m, accepts)
  {
    match m
    case Enter(doc) => s.(writers := s.writers[s.next := Writer(s.next, doc, OpenTemp)], next := s.next + 1)
    case Call(id, ok) =>
      var t := Apply(View(s, id), Step(ok), accepts);
      System(t.files, s.writers[id := t.writer.value], s.next, t.history, t.backedUp, t.abandoned)
    case Die(id) => s.(writers := s.writers - {id}, abandoned := s.abandoned + TempsOf(id))
  }

  /** The system after a sequence of moves, if they can all be made. */
  function Exec(s: System, moves: seq<Move>, accepts: Version -> bool): Option<System>
    decreases |moves|
  {
    if moves == [] then Some(s)
    else if CanMove(s, moves[0], accepts) then Exec(Moved(s, moves[0], accepts), moves[1..], accepts)
    else None
  }

  ghost predicate StartsClean(s: System) {
    s.writers == map[] && Initial(Base(s))
  }

  // ----- What survives every interleaving -----

  ghost predicate HoldsVersion(s: System, p: Path) {
    p in s.files && s.files[p].content.Some? && s.files[p].content.value in s.history
  }

  predicate AfterValidation(pc: Pc) {
    pc == CheckSource || InBackup(pc) || pc == RenameTemp
  }

  predicate InBackup(pc: Pc) {
    CopyCall(pc) || pc.CloseBackup? || pc.SetBackupMode? || pc == RenameBackup
  }

  /** What a writer can rely on whatever the others do: its own temp files, the validator's word,
      and that a source that was there stays there. */
  ghost predicate WriterSound(s: System, w: Writer, accepts: Version -> bool) {
    && (w.pc == WriteTemp ==> Holds(s.files, Temp(w.id), File(None, PRIVATE_MODE)))
    && (w.pc == CloseTemp || w.pc == SetMode || w.pc == Validate || AfterValidation(w.pc) ==> TempWritten(Base(s), w))
    && (AfterValidation(w.pc) ==> accepts(w.doc))
    && (InBackup(w.pc) ==> Source in s.files)
    && (w.pc.OpenBackup? || w.pc.WriteBackup? ==> w.pc.copy in s.history)
    && (w.pc.WriteBackup? ==> Holds(s.files, BackupTemp(w.id), File(None, PRIVATE_MODE)))
    && (w.pc.CloseBackup? || w.pc.SetBackupMode? || w.pc == RenameBackup ==> HoldsVersion(s, BackupTemp(w.id)))
  }

  ghost predicate WritersSound(s: System, accepts: Version -> bool) {
    forall id :: id in s.writers ==> s.writers[id].id == id && id < s.next && WriterSound(s, s.writers[id], accepts)
  }

  /** A backup made in the run is some version that the source has held. */
  ghost predicate BackupFromHistory(s: System) {
    s.backedUp ==> HoldsVersion(s, Backup)
  }

  /** Temp files belong to writers at work or are abandoned. */
  ghost predicate Tidy(s: System) {
    forall p :: p in s.files && (p.Temp? || p.BackupTemp?) ==>
      p in s.abandoned || (p.id in s.writers && !s.writers[p.id].pc.Done?)
  }

  ghost predicate BackupTidy(s: System) {
    forall n :: BackupTemp(n) in s.files ==>
      BackupTemp(n) in s.abandoned || (n in s.writers && MayHoldBackupTemp(s.writers[n].pc))
  }

  /** Numbers are given out once. */
  ghost predicate Numbered(s: System) {
    && (forall id :: id in s.writers ==> s.writers[id].id == id && id < s.next)
    && (forall p :: p in s.abandoned ==> (p.Temp? || p.BackupTemp?) && p.id < s.next)
  }

  lemma MoveKeepsNumbered(s: System, m: Move, accepts: Version -> bool)
    requires Numbered(s) && CanMove(s, m, accepts)
    ensures Numbered(Moved(s, m, accepts))
  {
  }

  ghost predicate Inv(s: System, initial: nat, accepts: Version -> bool) {
    && SourceComplete(Base(s), initial, accepts) && WritersSound(s, accepts) && BackupFromHistory(s)
    && DocumentsPrivate(Base(s), initial) && Tidy(s) && BackupTidy(s) && Numbered(s)
  }

  /** The final rename puts a validated document in place, ... */
  lemma RenameKeepsSource(s: System, id: nat, initial: nat, accepts: Version -> bool)
    requires CanMove(s, Call(id, true), accepts) && s.writers[id].id == id && WriterSound(s, s.writers[id], accepts)
    requires SourceComplete(Base(s), initial, accepts) && s.writers[id].pc == RenameTemp
    ensures SourceComplete(Base(Moved(s, Call(id, true), accepts)), initial, accepts)
  {
    var w := s.writers[id];
    assert TempWritten(Base(s), w) && accepts(w.doc);
    assert Moved(s, Call(id, true), accepts)
        == s.(files := Rename(s.files, Temp(id), Source), history := s.history + [w.doc],
              writers := s.writers[id := w.(pc := Done(true))]);
    hide Moved, WriterSound, Enabled, Apply;
  }

  /** ... and no other call touches the source. */
  lemma CallKeepsSource(s: System, id: nat, ok: bool, initial: nat, accepts: Version -> bool)
    requires CanMove(s, Call(id, ok), accepts) && s.writers[id].id == id && WriterSound(s, s.writers[id], accepts)
    requires SourceComplete(Base(s), initial, accepts)
    ensures SourceComplete(Base(Moved(s, Call(id, ok), accepts)), initial, accepts)
  {
    hide Apply, Enabled, WriterSound;
    if Replaces(View(s, id), Step(ok)) {
      RenameKeepsSource(s, id, initial, accepts);
    } else {
      StepKeepsSource(View(s, id), Step(ok), Apply(View(s, id), Step(ok), accepts), accepts);
    }
  }

  /** The temp file of a document is private while its text is incomplete or has a key. */
  lemma OwnTempStaysPrivate(s: System, id: nat, ok: bool, accepts: Version -> bool)
    requires CanMove(s, Call(id, ok), accepts) && s.writers[id].id == id && WriterSound(s, s.writers[id], accepts)
    requires Temp(id) in s.files ==> Private(s.files[Temp(id)])
    ensures var t := Moved(s, Call(id, ok), accepts); Temp(id) in t.files ==> Private(t.files[Temp(id)])
  {
  }

  lemma CallKeepsPrivacy(s: System, id: nat, ok: bool, initial: nat, accepts: Version -> bool)
    requires CanMove(s, Call(id, ok), accepts) && s.writers[id].id == id && WriterSound(s, s.writers[id], accepts)
    requires DocumentsPrivate(Base(s), initial) && initial <= |s.history|
    ensures DocumentsPrivate(Base(Moved(s, Call(id, ok), accepts)), initial)
  {
    var t := Moved(s, Call(id, ok), accepts);
    OwnTempStaysPrivate(s, id, ok, accepts);
    forall p | p in t.files && p.Temp? ensures Private(t.files[p]) {
      CallTouchesOwnFiles(s, id, ok, accepts, p);
    }
    if !Replaces(View(s, id), Step(ok)) {
      StepKeepsSource(View(s, id), Step(ok), Apply(View(s, id), Step(ok), accepts), accepts);
      hide Apply, Enabled;
    }
  }

  /** The history only grows, so its versions stay versions. */
  lemma CallGrowsHistory(s: System, id: nat, ok: bool, accepts: Version -> bool)
    requires CanMove(s, Call(id, ok), accepts)
    ensures var t := Moved(s, Call(id, ok), accepts);
      t.history == s.history || t.history == s.history + [s.writers[id].doc]
    ensures forall v :: v in s.history ==> v in Moved(s, Call(id, ok), accepts).history
  {
  }

  /** A call touches only the files of its own writer, the source and the backup, and removes neither. */
  lemma CallTouchesOwnFiles(s: System, id: nat, ok: bool, accepts: Version -> bool, p: Path)
    requires CanMove(s, Call(id, ok), accepts) && s.writers[id].id == id
    ensures p != Source && p != Backup && p != Temp(id) && p != BackupTemp(id) ==>
      var t := Moved(s, Call(id, ok), accepts);
      (p in t.files <==> p in s.files) && (p in s.files ==> t.files[p] == s.files[p])
    ensures p == Source || p == Backup ==> (p in s.files ==> p in Moved(s, Call(id, ok), accepts).files)
  {
  }

  lemma CallKeepsBackup(s: System, id: nat, ok: bool, initial: nat, accepts: Version -> bool)
    requires CanMove(s, Call(id, ok), accepts) && s.writers[id].id == id && WriterSound(s, s.writers[id], accepts)
    requires BackupFromHistory(s)
    ensures BackupFromHistory(Moved(s, Call(id, ok), accepts))
  {
    CallGrowsHistory(s, id, ok, accepts);
  }

  /** The backup temp of a writer at this point may be there. */
  predicate MayHoldBackupTemp(pc: Pc) {
    Handler(pc) == CatchBackup || pc == CatchBackup
  }

  lemma CallKeepsOtherWriters(s: System, id: nat, ok: bool, accepts: Version -> bool)
    requires CanMove(s, Call(id, ok), accepts)
    ensures var t := Moved(s, Call(id, ok), accepts);
      s.abandoned <= t.abandoned && t.writers == s.writers[id := t.writers[id]]
  {
  }

  /** A writer that is past its backup has no backup temp unless it is abandoned, ... */
  lemma OwnBackupTempTidy(s: System, id: nat, ok: bool, accepts: Version -> bool)
    requires CanMove(s, Call(id, ok), accepts) && s.writers[id].id == id
    requires BackupTemp(id) in s.files ==> BackupTemp(id) in s.abandoned || MayHoldBackupTemp(s.writers[id].pc)
    ensures var t := Moved(s, Call(id, ok), accepts);
      BackupTemp(id) in t.files ==> BackupTemp(id) in t.abandoned || MayHoldBackupTemp(t.writers[id].pc)
  {
    hide TargetMode, ResolvedMode;
  }

  /** ... and one that is done has no temp file at all. */
  lemma OwnTempTidy(s: System, id: nat, ok: bool, accepts: Version -> bool)
    requires CanMove(s, Call(id, ok), accepts) && s.writers[id].id == id
    ensures var t := Moved(s, Call(id, ok), accepts);
      Temp(id) in t.files ==> Temp(id) in t.abandoned || !t.writers[id].pc.Done?
  {
  }

  lemma CallKeepsTidy(s: System, id: nat, ok: bool, accepts: Version -> bool)
    requires CanMove(s, Call(id, ok), accepts) && s.writers[id].id == id && WriterSound(s, s.writers[id], accepts)
    requires Tidy(s) && BackupTidy(s)
    ensures Tidy(Moved(s, Call(id, ok), accepts)) && BackupTidy(Moved(s, Call(id, ok), accepts))
  {
    CallKeepsOtherWriters(s, id, ok, accepts);
    OwnBackupTempTidy(s, id, ok, accepts);
    OwnTempTidy(s, id, ok, accepts);
    var t := Moved(s, Call(id, ok), accepts);
    hide Moved, WriterSound;
    forall n | BackupTemp(n) in t.files
      ensures BackupTemp(n) in t.abandoned || (n in t.writers && MayHoldBackupTemp(t.writers[n].pc))
    {
      CallTouchesOwnFiles(s, id, ok, accepts, BackupTemp(n));
    }
    forall p | p in t.files && (p.Temp? || p.BackupTemp?)
      ensures p in t.abandoned || (p.id in t.writers && !t.writers[p.id].pc.Done?)
    {
      CallTouchesOwnFiles(s, id, ok, accepts, p);
    }
  }

  /** The caller keeps what it relies on: when a call throws or cleans up, ... */
  lemma FailureKeepsCaller(s: System, id: nat, ok: bool, accepts: Version -> bool)
    requires CanMove(s, Call(id, ok), accepts) && s.writers[id].id == id && WriterSound(s, s.writers[id], accepts)
    requires !ok || s.writers[id].pc.Catch? || s.writers[id].pc.CatchBackup?
    ensures var t := Moved(s, Call(id, ok), accepts); t.writers[id].id == id && WriterSound(t, t.writers[id], accepts)
  {
    if s.writers[id].pc.ResolveBackupMode? {
      FallbackKeepsCaller(s, id, accepts);
    } else {
      var pc := Moved(s, Call(id, ok), accepts).writers[id].pc;
      assert pc == Catch || pc == CatchBackup || pc == Done(false);
    }
  }

  /** (A read for the mode that throws changes nothing but the point the writer is at.) */
  lemma FallbackKeepsCaller(s: System, id: nat, accepts: Version -> bool)
    requires CanMove(s, Call(id, false), accepts) && s.writers[id].id == id && WriterSound(s, s.writers[id], accepts)
    requires s.writers[id].pc.ResolveBackupMode?
    ensures var t := Moved(s, Call(id, false), accepts);
      t.writers[id].id == id && WriterSound(t, t.writers[id], accepts)
  {
    assert Moved(s, Call(id, false), accepts) ==
      s.(writers := s.writers[id := s.writers[id].(pc := ReadSource(s.writers[id].pc.mode))]);
    hide Moved, Enabled;
  }

  /** ... before the backup, ... */
  lemma EarlyCallKeepsCaller(s: System, id: nat, accepts: Version -> bool)
    requires CanMove(s, Call(id, true), accepts) && s.writers[id].id == id && WriterSound(s, s.writers[id], accepts)
    requires EarlyCall(s.writers[id].pc)
    ensures var t := Moved(s, Call(id, true), accepts); t.writers[id].id == id && WriterSound(t, t.writers[id], accepts)
  {
  }

  /** ... while the copy is made, ... */
  lemma CopyCallKeepsCaller(s: System, id: nat, initial: nat, accepts: Version -> bool)
    requires CanMove(s, Call(id, true), accepts) && s.writers[id].id == id && WriterSound(s, s.writers[id], accepts)
    requires CopyCall(s.writers[id].pc) && SourceComplete(Base(s), initial, accepts)
    ensures var t := Moved(s, Call(id, true), accepts); t.writers[id].id == id && WriterSound(t, t.writers[id], accepts)
  {
  }

  /** ... and when it is put in place. */
  lemma LateCallKeepsCaller(s: System, id: nat, accepts: Version -> bool)
    requires CanMove(s, Call(id, true), accepts) && s.writers[id].id == id && WriterSound(s, s.writers[id], accepts)
    requires !EarlyCall(s.writers[id].pc) && !CopyCall(s.writers[id].pc)
    requires !s.writers[id].pc.Catch? && !s.writers[id].pc.CatchBackup?
    ensures var t := Moved(s, Call(id, true), accepts); t.writers[id].id == id && WriterSound(t, t.writers[id], accepts)
  {
  }

  lemma CallKeepsCaller(s: System, id: nat, ok: bool, initial: nat, accepts: Version -> bool)
    requires CanMove(s, Call(id, ok), accepts) && s.writers[id].id == id && WriterSound(s, s.writers[id], accepts)
    requires SourceComplete(Base(s), initial, accepts)
    ensures var t := Moved(s, Call(id, ok), accepts); t.writers[id].id == id && WriterSound(t, t.writers[id], accepts)
  {
    hide Moved, WriterSound, SourceComplete;
    if !ok || s.writers[id].pc.Catch? || s.writers[id].pc.CatchBackup? {
      FailureKeepsCaller(s, id, ok, accepts);
    } else if EarlyCall(s.writers[id].pc) {
      EarlyCallKeepsCaller(s, id, accepts);
    } else if CopyCall(s.writers[id].pc) {
      CopyCallKeepsCaller(s, id, initial, accepts);
    } else {
      LateCallKeepsCaller(s, id, accepts);
    }
  }

  /** ... and all the others keep what they rely on. */
  lemma CallKeepsOthers(s: System, id: nat, ok: bool, accepts: Version -> bool, other: nat)
    requires CanMove(s, Call(id, ok), accepts) && s.writers[id].id == id
    requires other in s.writers && other != id && s.writers[other].id == other
    requires WriterSound(s, s.writers[other], accepts)
    ensures WriterSound(Moved(s, Call(id, ok), accepts), s.writers[other], accepts)
  {
    CallGrowsHistory(s, id, ok, accepts);
    CallTouchesOwnFiles(s, id, ok, accepts, Temp(other));
    CallTouchesOwnFiles(s, id, ok, accepts, BackupTemp(other));
    CallTouchesOwnFiles(s, id, ok, accepts, Source);
    hide Moved;
  }

  lemma HistoryBound(s: System, initial: nat, accepts: Version -> bool)
    requires SourceComplete(Base(s), initial, accepts)
    ensures initial <= |s.history|
  {
  }

  lemma CallKeepsInv(s: System, id: nat, ok: bool, initial: nat, accepts: Version -> bool)
    requires Inv(s, initial, accepts) && CanMove(s, Call(id, ok), accepts)
    ensures Inv(Moved(s, Call(id, ok), accepts), initial, accepts)
  {
    hide Apply, Enabled, SourceComplete, DocumentsPrivate, Tidy, BackupTidy, BackupFromHistory, WriterSound;
    MoveKeepsNumbered(s, Call(id, ok), accepts);
    CallKeepsSource(s, id, ok, initial, accepts);
    assert initial <= |s.history| by { HistoryBound(s, initial, accepts); }
    CallKeepsPrivacy(s, id, ok, initial, accepts);
    CallKeepsBackup(s, id, ok, initial, accepts);
    CallKeepsTidy(s, id, ok, accepts);
    CallKeepsCaller(s, id, ok, initial, accepts);
    var t := Moved(s, Call(id, ok), accepts);
    forall other | other in t.writers
      ensures t.writers[other].id == other && other < t.next && WriterSound(t, t.writers[other], accepts)
    {
      if other != id {
        CallKeepsOthers(s, id, ok, accepts, other);
      }
    }
  }

  lemma SameFilesKeepSound(s: System, t: System, w: Writer, accepts: Version -> bool)
    requires t.files == s.files && t.history == s.history && WriterSound(s, w, accepts)
    ensures WriterSound(t, w, accepts)
  {
  }

  /** A writer that arrives or dies touches no file and no other writer. */
  lemma EnterKeepsInv(s: System, doc: Version, initial: nat, accepts: Version -> bool)
    requires Inv(s, initial, accepts)
    ensures Inv(Moved(s, Enter(doc), accepts), initial, accepts)
  {
    EnterKeepsWriters(s, doc, accepts);
    EnterKeepsTidy(s, doc, accepts);
    MoveKeepsNumbered(s, Enter(doc), accepts);
    hide Numbered, WritersSound, Tidy, BackupTidy;
  }

  lemma EnterKeepsWriters(s: System, doc: Version, accepts: Version -> bool)
    requires WritersSound(s, accepts)
    ensures WritersSound(Moved(s, Enter(doc), accepts), accepts)
  {
    hide WriterSound;
    var t := Moved(s, Enter(doc), accepts);
    NewWriterSound(t, doc, s.next, accepts);
    forall id | id in t.writers
      ensures t.writers[id].id == id && id < t.next && WriterSound(t, t.writers[id], accepts)
    {
      if id != s.next {
        SameFilesKeepSound(s, t, s.writers[id], accepts);
      }
    }
  }

  lemma EnterKeepsTidy(s: System, doc: Version, accepts: Version -> bool)
    requires WritersSound(s, accepts) && Tidy(s) && BackupTidy(s)
    ensures Tidy(Moved(s, Enter(doc), accepts)) && BackupTidy(Moved(s, Enter(doc), accepts))
  {
    hide Apply, Enabled, WriterSound, MayHoldBackupTemp;
    var t := Moved(s, Enter(doc), accepts);
    assert forall n :: n in s.writers ==> n in t.writers && t.writers[n] == s.writers[n];
  }

  lemma NewWriterSound(s: System, doc: Version, id: nat, accepts: Version -> bool)
    ensures WriterSound(s, Writer(id, doc, OpenTemp), accepts)
  {
  }

  lemma DieKeepsInv(s: System, id: nat, initial: nat, accepts: Version -> bool)
    requires Inv(s, initial, accepts) && CanMove(s, Die(id), accepts)
    ensures Inv(Moved(s, Die(id), accepts), initial, accepts)
  {
    hide Apply, Enabled, WriterSound, Handler;
    var t := Moved(s, Die(id), accepts);
    MoveKeepsNumbered(s, Die(id), accepts);
    forall other | other in t.writers
      ensures t.writers[other].id == other && other < t.next && WriterSound(t, t.writers[other], accepts)
    {
      SameFilesKeepSound(s, t, s.writers[other], accepts);
    }
  }

  lemma MoveKeepsInv(s: System, m: Move, initial: nat, accepts: Version -> bool)
    requires Inv(s, initial, accepts) && CanMove(s, m, accepts)
    ensures Inv(Moved(s, m, accepts), initial, accepts)
  {
    hide Moved, Inv;
    match m
    case Call(id, ok) => CallKeepsInv(s, id, ok, initial, accepts);
    case Enter(doc) => EnterKeepsInv(s, doc, initial, accepts);
    case Die(id) => DieKeepsInv(s, id, initial, accepts);
  }

  lemma {:induction false} ExecKeepsInv(s: System, moves: seq<Move>, initial: nat, accepts: Version -> bool)
    requires Inv(s, initial, accepts) && Exec(s, moves, accepts).Some?
    ensures Inv(Exec(s, moves, accepts).value, initial, accepts)
    decreases |moves|
  {
    if moves != [] {
      MoveKeepsInv(s, moves[0], initial, accepts);
      ExecKeepsInv(Moved(s, moves[0], accepts), moves[1..], initial, accepts);
    }
  }

  /** In every interleaving of any number of writers, with throws and deaths anywhere: the source
      still holds one complete version that was there at the start or was accepted, a backup is
      some version the source has held, a key in the source or in a temp file of a document is
      private, and every temp file belongs to a writer at work or to one that died or whose unlink
      of that very file threw. */
  lemma ConcurrentSafety(s: System, moves: seq<Move>, accepts: Version -> bool)
    requires StartsClean(s) && Exec(s, moves, accepts).Some?
    ensures var t := Exec(s, moves, accepts).value;
      && SourceComplete(Base(t), |s.history|, accepts) && DocumentsPrivate(Base(t), |s.history|)
      && BackupFromHistory(t)
    ensures var t := Exec(s, moves, accepts).value;
      forall p :: p in t.files && (p.Temp? || p.BackupTemp?) ==>
        (p.id in t.writers && !t.writers[p.id].pc.Done?) || GivenUpIn(s, moves, accepts, p)
  {
    ExecKeepsInv(s, moves, |s.history|, accepts);
    forall p ensures p in Exec(s, moves, accepts).value.abandoned ==> GivenUpIn(s, moves, accepts, p) {
      AbandonedInExactly(s, moves, accepts, p);
    }
  }

  /** With the move the temp file `p` loses its last chance to be removed. */
  ghost predicate GivesUpIn(s: System, m: Move, p: Path) {
    match m
    case Enter(_) => false
    case Die(id) => p in TempsOf(id)
    case Call(id, ok) => id in s.writers && GivesUp(View(s, id), Step(ok), p)
  }

  /** ... in some move of the run. */
  ghost predicate GivenUpIn(s: System, moves: seq<Move>, accepts: Version -> bool, p: Path)
    decreases |moves|
  {
    && moves != [] && CanMove(s, moves[0], accepts)
    && (GivesUpIn(s, moves[0], p) || GivenUpIn(Moved(s, moves[0], accepts), moves[1..], accepts, p))
  }

  lemma MoveAbandons(s: System, m: Move, accepts: Version -> bool, p: Path)
    requires CanMove(s, m, accepts)
    ensures p in Moved(s, m, accepts).abandoned <==> p in s.abandoned || GivesUpIn(s, m, p)
  {
    if m.Call? {
      StepAbandons(View(s, m.id), Step(m.ok), accepts, p);
      hide Apply, Enabled, GivesUp;
    }
  }

  lemma {:induction false} AbandonedInExactly(s: System, moves: seq<Move>, accepts: Version -> bool, p: Path)
    requires Exec(s, moves, accepts).Some?
    ensures p in Exec(s, moves, accepts).value.abandoned <==> p in s.abandoned || GivenUpIn(s, moves, accepts, p)
    decreases |moves|
  {
    hide Moved, GivesUpIn;
    if moves != [] {
      MoveAbandons(s, moves[0], accepts, p);
      AbandonedInExactly(Moved(s, moves[0], accepts), moves[1..], accepts, p);
    }
  }

  // ----- Undisturbed stretches of a run -----

  /** Writer `id` makes `n` calls, none of which throws. */
  function Calls(id: nat, n: nat): seq<Move> {
    seq(n, _ => Call(id, true))
  }

  function At(s: System, w: Writer, files: map<Path, File>): System {
    s.(files := files, writers := s.writers[w.id := w])
  }

  lemma {:induction false} ExecConcat(s: System, first: seq<Move>, second: seq<Move>, accepts: Version -> bool)
    requires Exec(s, first, accepts).Some?
    ensures Exec(s, first + second, accepts) == Exec(Exec(s, first, accepts).value, second, accepts)
    decreases |first|
  {
    if first == [] {
      assert first + second == second;
    } else {
      ExecConcat(Moved(s, first[0], accepts), first[1..], second, accepts);
      assert (first + second)[1..] == first[1..] + second;
    }
  }

  lemma CallFirst(s: System, id: nat, n: nat, accepts: Version -> bool)
    requires CanMove(s, Call(id, true), accepts)
    ensures Exec(s, Calls(id, n + 1), accepts) == Exec(Moved(s, Call(id, true), accepts), Calls(id, n), accepts)
  {
    assert Calls(id, n + 1)[1..] == Calls(id, n);
  }

  // The phases of one write that nobody disturbs, from any state.

  /** The mode of the staged file of a document, when there is a source. */
  function StagedMode(files: map<Path, File>, doc: Version): nat
    requires Source in files
  {
    if doc.keyed then PRIVATE_MODE else files[Source].mode
  }

  function Alone(s: System, w: Writer, files: map<Path, File>): State {
    State(files, Some(w), s.next, s.history, s.backedUp, s.abandoned)
  }

  /** One call that does not throw and is not a rename of the source or the backup. */
  lemma OneCall(
    s: System, w: Writer, files: map<Path, File>, pc: Pc, files': map<Path, File>, n: nat, accepts: Version -> bool)
    requires accepts(w.doc) && !w.pc.Done? && !w.pc.Catch? && !w.pc.CatchBackup?
    requires StepDefined(Alone(s, w, files), true)
    requires ApplyCall(Alone(s, w, files)) == Alone(s, w.(pc := pc), files')
    ensures Exec(At(s, w, files), Calls(w.id, n + 1), accepts) ==
      Exec(At(s, w.(pc := pc), files'), Calls(w.id, n), accepts)
  {
    hide Exec, Calls, ApplyCall, StepDefined;
    assert View(At(s, w, files), w.id) == Alone(s, w, files);
    assert At(s, w, files).writers[w.id := w.(pc := pc)] == At(s, w.(pc := pc), files').writers;
    CallFirst(At(s, w, files), w.id, n, accepts);
  }

  lemma NoCalls(s: System, id: nat, accepts: Version -> bool)
    ensures Exec(s, Calls(id, 0), accepts) == Some(s)
  {
  }

  lemma Writing(s: System, id: nat, doc: Version, n: nat, accepts: Version -> bool)
    requires accepts(doc)
    ensures Exec(At(s, Writer(id, doc, OpenTemp), s.files), Calls(id, n + 3), accepts)
         == Exec(At(s, Writer(id, doc, SetMode), s.files[Temp(id) := File(Some(doc), PRIVATE_MODE)]),
                 Calls(id, n), accepts)
  {
    hide Exec, Calls, At;
    var w := Writer(id, doc, OpenTemp);
    var created := s.files[Temp(id) := File(None, PRIVATE_MODE)];
    var written := s.files[Temp(id) := File(Some(doc), PRIVATE_MODE)];
    OneCall(s, w, s.files, WriteTemp, created, n + 2, accepts);
    OneCall(s, w.(pc := WriteTemp), created, CloseTemp, written, n + 1, accepts);
    OneCall(s, w.(pc := CloseTemp), written, SetMode, written, n, accepts);
  }

  lemma Staging(s: System, id: nat, doc: Version, accepts: Version -> bool)
    requires Source in s.files && accepts(doc)
    ensures Exec(At(s, Writer(id, doc, OpenTemp), s.files), Calls(id, 6), accepts)
         == Some(At(s, Writer(id, doc, StatSource),
                    s.files[Temp(id) := File(Some(doc), StagedMode(s.files, doc))]))
  {
    hide Exec, Calls, At;
    var w := Writer(id, doc, SetMode);
    var written := s.files[Temp(id) := File(Some(doc), PRIVATE_MODE)];
    var staged := s.files[Temp(id) := File(Some(doc), StagedMode(s.files, doc))];
    Writing(s, id, doc, 3, accepts);
    OneCall(s, w, written, Validate, staged, 2, accepts);
    Checking(s, id, doc, staged, accepts);
  }

  lemma Checking(s: System, id: nat, doc: Version, staged: map<Path, File>, accepts: Version -> bool)
    requires Source in staged && accepts(doc)
    ensures Exec(At(s, Writer(id, doc, Validate), staged), Calls(id, 2), accepts)
         == Some(At(s, Writer(id, doc, StatSource), staged))
  {
    hide Exec, Calls, At;
    var w := Writer(id, doc, Validate);
    OneCall(s, w, staged, CheckSource, staged, 1, accepts);
    OneCall(s, w.(pc := CheckSource), staged, StatSource, staged, 0, accepts);
    NoCalls(At(s, w.(pc := StatSource), staged), id, accepts);
  }

  lemma CopyWriting(s: System, id: nat, doc: Version, copy: Version, mode: nat, n: nat, accepts: Version -> bool)
    requires accepts(doc)
    ensures Exec(At(s, Writer(id, doc, OpenBackup(copy, mode)), s.files), Calls(id, n + 2), accepts)
         == Exec(At(s, Writer(id, doc, CloseBackup(mode)), s.files[BackupTemp(id) := File(Some(copy), PRIVATE_MODE)]),
                 Calls(id, n), accepts)
  {
    hide Exec, Calls, At;
    var w := Writer(id, doc, OpenBackup(copy, mode));
    var created := s.files[BackupTemp(id) := File(None, PRIVATE_MODE)];
    var written := s.files[BackupTemp(id) := File(Some(copy), PRIVATE_MODE)];
    OneCall(s, w, s.files, WriteBackup(copy, mode), created, n + 1, accepts);
    OneCall(s, w.(pc := WriteBackup(copy, mode)), created, CloseBackup(mode), written, n, accepts);
  }

  lemma Copying(s: System, id: nat, doc: Version, copy: Version, mode: nat, accepts: Version -> bool)
    requires accepts(doc)
    ensures Exec(At(s, Writer(id, doc, OpenBackup(copy, mode)), s.files), Calls(id, 4), accepts)
         == Some(At(s, Writer(id, doc, RenameBackup), s.files[BackupTemp(id) := File(Some(copy), mode)]))
  {
    hide Exec, Calls, At;
    var w := Writer(id, doc, CloseBackup(mode));
    var written := s.files[BackupTemp(id) := File(Some(copy), PRIVATE_MODE)];
    var copied := s.files[BackupTemp(id) := File(Some(copy), mode)];
    CopyWriting(s, id, doc, copy, mode, 2, accepts);
    OneCall(s, w, written, SetBackupMode(mode), written, 1, accepts);
    OneCall(s, w.(pc := SetBackupMode(mode)), written, RenameBackup, copied, 0, accepts);
    NoCalls(At(s, w.(pc := RenameBackup), copied), id, accepts);
  }

  /** The mode comes from the source as it is now, the bytes from the source as it is later. */
  lemma Stating(s: System, id: nat, doc: Version, accepts: Version -> bool)
    requires accepts(doc) && Source in s.files
    ensures Exec(At(s, Writer(id, doc, StatSource), s.files), Calls(id, 1), accepts)
         == Some(At(s, Writer(id, doc, ResolveBackupMode(s.files[Source].mode)), s.files))
  {
    hide Exec, Calls, At;
    var w := Writer(id, doc, StatSource);
    OneCall(s, w, s.files, ResolveBackupMode(s.files[Source].mode), s.files, 0, accepts);
    NoCalls(At(s, w.(pc := ResolveBackupMode(s.files[Source].mode)), s.files), id, accepts);
  }

  lemma Resolving(s: System, id: nat, doc: Version, accepts: Version -> bool)
    requires accepts(doc) && Source in s.files
    ensures Exec(At(s, Writer(id, doc, StatSource), s.files), Calls(id, 2), accepts)
         == Some(At(s, Writer(id, doc, ReadSource(BackupMode(s.files[Source]))), s.files))
  {
    hide Exec, Calls, At;
    var w, mode := Writer(id, doc, StatSource), s.files[Source].mode;
    OneCall(s, w, s.files, ResolveBackupMode(mode), s.files, 1, accepts);
    OneCall(s, w.(pc := ResolveBackupMode(mode)), s.files,
            ReadSource(BackupMode(s.files[Source])), s.files, 0, accepts);
    NoCalls(At(s, w.(pc := ReadSource(BackupMode(s.files[Source]))), s.files), id, accepts);
  }

  lemma Reading(s: System, id: nat, doc: Version, mode: nat, accepts: Version -> bool)
    requires accepts(doc) && Source in s.files && s.files[Source].content.Some?
    ensures Exec(At(s, Writer(id, doc, ReadSource(mode)), s.files), Calls(id, 5), accepts)
         == Some(At(s, Writer(id, doc, RenameBackup), s.files[BackupTemp(id) := File(s.files[Source].content, mode)]))
  {
    hide Exec, Calls, At;
    OneCall(s, Writer(id, doc, ReadSource(mode)), s.files,
            OpenBackup(s.files[Source].content.value, mode), s.files, 4, accepts);
    Copying(s, id, doc, s.files[Source].content.value, mode, accepts);
  }

  lemma PlacingBackup(s: System, id: nat, doc: Version, accepts: Version -> bool)
    requires BackupTemp(id) in s.files
    ensures Exec(At(s, Writer(id, doc, RenameBackup), s.files), Calls(id, 1), accepts)
         == Some(At(s.(backedUp := true), Writer(id, doc, RenameTemp), Rename(s.files, BackupTemp(id), Backup)))
  {
    hide Exec, Calls;
    var t := At(s, Writer(id, doc, RenameBackup), s.files);
    var w := Writer(id, doc, RenameTemp);
    assert t.writers[id := w] == s.writers[id := w];
    CallFirst(t, id, 0, accepts);
    NoCalls(Moved(t, Call(id, true), accepts), id, accepts);
  }

  lemma PlacingSource(s: System, id: nat, doc: Version, accepts: Version -> bool)
    requires Temp(id) in s.files
    ensures Exec(At(s, Writer(id, doc, RenameTemp), s.files), Calls(id, 1), accepts)
         == Some(At(s.(history := s.history + [doc]), Writer(id, doc, Done(true)), Rename(s.files, Temp(id), Source)))
  {
    hide Exec, Calls;
    var t := At(s, Writer(id, doc, RenameTemp), s.files);
    var w := Writer(id, doc, Done(true));
    assert t.writers[id := w] == s.writers[id := w];
    CallFirst(t, id, 0, accepts);
    NoCalls(Moved(t, Call(id, true), accepts), id, accepts);
  }

  ghost predicate Reaches(s: System, t: System, accepts: Version -> bool) {
    exists moves :: Exec(s, moves, accepts) == Some(t)
  }

  lemma ReachesOn(s: System, t: System, u: System, accepts: Version -> bool)
    requires Reaches(s, t, accepts) && Reaches(t, u, accepts)
    ensures Reaches(s, u, accepts)
  {
    var first :| Exec(s, first, accepts) == Some(t);
    var second :| Exec(t, second, accepts) == Some(u);
    ExecConcat(s, first, second, accepts);
  }

  /** A new writer stages its document and resolves the mode of the backup. */
  function Resolved(s: System, doc: Version): System
    requires Source in s.files
  {
    At(s.(next := s.next + 1), Writer(s.next, doc, ReadSource(BackupMode(s.files[Source]))),
       s.files[Temp(s.next) := File(Some(doc), StagedMode(s.files, doc))])
  }

  lemma EnterResolves(s: System, doc: Version, accepts: Version -> bool)
    requires Source in s.files && accepts(doc)
    ensures Reaches(s, Resolved(s, doc), accepts)
  {
    hide Calls, StagedMode, BackupMode;
    var id, s1 := s.next, s.(next := s.next + 1);
    var staged := s.files[Temp(id) := File(Some(doc), StagedMode(s.files, doc))];
    var s2 := s1.(files := staged);
    assert Exec(s, [Enter(doc)], accepts) == Some(At(s1, Writer(id, doc, OpenTemp), s1.files)) by {
      assert Exec(At(s1, Writer(id, doc, OpenTemp), s1.files), [], accepts) ==
        Some(At(s1, Writer(id, doc, OpenTemp), s1.files));
    }
    hide Exec;
    Staging(s1, id, doc, accepts);
    Resolving(s2, id, doc, accepts);
    assert At(s1, Writer(id, doc, StatSource), staged) == At(s2, Writer(id, doc, StatSource), s2.files);
    ReachesOn(s, At(s1, Writer(id, doc, OpenTemp), s1.files),
              At(s1, Writer(id, doc, StatSource), staged), accepts);
    ReachesOn(s, At(s2, Writer(id, doc, StatSource), s2.files), Resolved(s, doc), accepts);
  }

  /** A new writer has put `doc` in place of the source. */
  function Replaced(s: System, doc: Version): System
    requires Source in s.files
  {
    s.(files := s.files[Backup := File(s.files[Source].content, BackupMode(s.files[Source]))]
                       [Source := File(Some(doc), StagedMode(s.files, doc))],
       writers := s.writers[s.next := Writer(s.next, doc, Done(true))],
       next := s.next + 1, history := s.history + [doc], backedUp := true)
  }

  lemma CallsOn(s: System, t: System, id: nat, a: nat, b: nat, accepts: Version -> bool)
    requires Exec(s, Calls(id, a), accepts) == Some(t)
    ensures Exec(s, Calls(id, a + b), accepts) == Exec(t, Calls(id, b), accepts)
  {
    ExecConcat(s, Calls(id, a), Calls(id, b), accepts);
    assert Calls(id, a) + Calls(id, b) == Calls(id, a + b);
  }

  /** The calls of a whole write that nobody disturbs, after its first move. */
  lemma WholeWriteCalls(s: System, doc: Version, accepts: Version -> bool)
    requires Source in s.files && s.files[Source].content.Some? && accepts(doc)
    requires Temp(s.next) !in s.files && BackupTemp(s.next) !in s.files
    ensures Exec(Moved(s, Enter(doc), accepts), Calls(s.next, 15), accepts) == Some(Replaced(s, doc))
  {
    hide Calls, StagedMode, BackupMode, Exec;
    var id, mode, source := s.next, BackupMode(s.files[Source]), File(Some(doc), StagedMode(s.files, doc));
    var backup := File(s.files[Source].content, mode);
    var s0 := s.(next := id + 1);
    var s1 := s0.(files := s.files[Temp(id) := source]);
    var s2 := s1.(files := s1.files[BackupTemp(id) := backup]);
    var s3 := s2.(files := s1.files[Backup := backup], backedUp := true);
    var t0, t1 := At(s0, Writer(id, doc, OpenTemp), s0.files), At(s1, Writer(id, doc, StatSource), s1.files);
    var t2, t3 := At(s1, Writer(id, doc, ReadSource(mode)), s1.files), At(s2, Writer(id, doc, RenameBackup), s2.files);
    var t4 := At(s3, Writer(id, doc, RenameTemp), s3.files);
    assert Moved(s, Enter(doc), accepts) == t0;
    Staging(s0, id, doc, accepts);
    CallsOn(t0, t1, id, 6, 9, accepts);
    Resolving(s1, id, doc, accepts);
    CallsOn(t1, t2, id, 2, 7, accepts);
    Reading(s1, id, doc, mode, accepts);
    CallsOn(t2, t3, id, 5, 2, accepts);
    PlacingBackup(s2, id, doc, accepts);
    assert Rename(s2.files, BackupTemp(id), Backup) == s3.files;
    CallsOn(t3, t4, id, 1, 1, accepts);
    PlacingSource(s3, id, doc, accepts);
    assert Rename(s3.files, Temp(id), Source) == Replaced(s, doc).files;
  }

  /** A whole write that nobody disturbs. */
  lemma WholeWrite(s: System, doc: Version, accepts: Version -> bool)
    requires Source in s.files && s.files[Source].content.Some? && accepts(doc)
    requires Temp(s.next) !in s.files && BackupTemp(s.next) !in s.files
    ensures Reaches(s, Replaced(s, doc), accepts)
  {
    hide Replaced, Calls;
    WholeWriteCalls(s, doc, accepts);
    var moves := [Enter(doc)] + Calls(s.next, 15);
    assert moves[0] == Enter(doc) && moves[1..] == Calls(s.next, 15);
    assert Exec(s, moves, accepts) == Some(Replaced(s, doc));
  }

  /** The writer that is about to put its backup in place, seen from a state that holds it. */
  lemma BackupPlaced(s: System, id: nat, doc: Version, accepts: Version -> bool)
    requires id in s.writers && s.writers[id] == Writer(id, doc, RenameBackup) && BackupTemp(id) in s.files
    ensures exists t ::
      && Reaches(s, t, accepts) && t.history == s.history && t.backedUp
      && Holds(t.files, Backup, s.files[BackupTemp(id)])
  {
    hide Calls, Exec;
    assert At(s, Writer(id, doc, RenameBackup), s.files) == s;
    PlacingBackup(s, id, doc, accepts);
  }

  /** What a slow writer has copied: the bytes of the source as it is now, under a mode resolved before. */
  lemma SourceCopied(s: System, id: nat, doc: Version, mode: nat, accepts: Version -> bool) returns (t: System)
    requires id in s.writers && s.writers[id] == Writer(id, doc, ReadSource(mode)) && accepts(doc)
    requires Source in s.files && s.files[Source].content.Some?
    ensures t == s.(files := s.files[BackupTemp(id) := File(s.files[Source].content, mode)],
                    writers := s.writers[id := Writer(id, doc, RenameBackup)])
    ensures Reaches(s, t, accepts)
  {
    hide Calls, Exec;
    assert At(s, Writer(id, doc, ReadSource(mode)), s.files) == s;
    Reading(s, id, doc, mode, accepts);
    t := At(s, Writer(id, doc, RenameBackup), s.files[BackupTemp(id) := File(s.files[Source].content, mode)]);
  }
}
