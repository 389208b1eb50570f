/** The promises about the backup when writers overlap: that it is no older than the previous
    version, and that a key in it is private. Each has one kind of move that can break it. */
module BackupPromises {
  import opened Prelude
  import opened ConfigReplace
  import opened ConcurrentReplace

  // ----- Privacy -----

  /** A writer reads a source with a key for a backup whose mode it has resolved to a readable one. */
  predicate MixedRead(s: System, m: Move) {
    && m.Call? && m.ok && m.id in s.writers
    && s.writers[m.id].pc.ReadSource? && s.writers[m.id].pc.mode != PRIVATE_MODE
    && Source in s.files && s.files[Source].content.Some? && s.files[Source].content.value.keyed
  }

  /** The run can be made, and no move of it is a mixed read. */
  ghost predicate NoMixedRead(s: System, moves: seq<Move>, accepts: Version -> bool)
    decreases |moves|
  {
    moves == [] ||
    (&& CanMove(s, moves[0], accepts) && !MixedRead(s, moves[0])
     && NoMixedRead(Moved(s, moves[0], accepts), moves[1..], accepts))
  }

  /** The copy that a writer is making will be private if it has a key. */
  ghost predicate CopyPrivate(s: System, w: Writer) {
    && (w.pc.OpenBackup? || w.pc.WriteBackup? ==> (w.pc.copy.keyed ==> w.pc.mode == PRIVATE_MODE))
    && (w.pc.CloseBackup? || w.pc.SetBackupMode? ==>
          && BackupTemp(w.id) in s.files && s.files[BackupTemp(w.id)].content.Some?
          && (s.files[BackupTemp(w.id)].content.value.keyed ==> w.pc.mode == PRIVATE_MODE))
  }

  ghost predicate CopiesPrivate(s: System) {
    BackupsPrivate(Base(s)) && forall id :: id in s.writers ==> CopyPrivate(s, s.writers[id])
  }

  lemma CallKeepsCallerCopy(s: System, id: nat, ok: bool, accepts: Version -> bool)
    requires CanMove(s, Call(id, ok), accepts) && !MixedRead(s, Call(id, ok))
    requires s.writers[id].id == id && CopyPrivate(s, s.writers[id])
    ensures var t := Moved(s, Call(id, ok), accepts); CopyPrivate(t, t.writers[id])
  {
  }

  /** The caller's own backup temp stays private, ... */
  lemma CallKeepsOwnBackupTemp(s: System, id: nat, ok: bool, accepts: Version -> bool)
    requires CanMove(s, Call(id, ok), accepts)
    requires s.writers[id].id == id && WriterSound(s, s.writers[id], accepts) && CopyPrivate(s, s.writers[id])
    requires BackupTemp(id) in s.files ==> Private(s.files[BackupTemp(id)])
    ensures var t := Moved(s, Call(id, ok), accepts);
      BackupTemp(id) in t.files ==> Private(t.files[BackupTemp(id)])
  {
  }

  /** ... and so does the backup that it may place. */
  lemma CallKeepsPlacedBackup(s: System, id: nat, ok: bool, accepts: Version -> bool)
    requires CanMove(s, Call(id, ok), accepts) && s.writers[id].id == id
    requires BackupTemp(id) in s.files ==> Private(s.files[BackupTemp(id)])
    requires s.backedUp && Backup in s.files ==> Private(s.files[Backup])
    ensures var t := Moved(s, Call(id, ok), accepts);
      t.backedUp && Backup in t.files ==> Private(t.files[Backup])
  {
  }

  lemma CallKeepsCopiesPrivate(s: System, id: nat, ok: bool, accepts: Version -> bool)
    requires CanMove(s, Call(id, ok), accepts) && !MixedRead(s, Call(id, ok))
    requires WritersSound(s, accepts) && CopiesPrivate(s)
    ensures CopiesPrivate(Moved(s, Call(id, ok), accepts))
  {
    var t := Moved(s, Call(id, ok), accepts);
    CallKeepsCallerCopy(s, id, ok, accepts);
    CallKeepsOwnBackupTemp(s, id, ok, accepts);
    CallKeepsPlacedBackup(s, id, ok, accepts);
    CallKeepsOtherWriters(s, id, ok, accepts);
    hide Moved, WriterSound, Enabled;
    forall p | p in t.files && p.BackupTemp? ensures Private(t.files[p]) {
      CallTouchesOwnFiles(s, id, ok, accepts, p);
    }
    forall other | other in t.writers ensures CopyPrivate(t, t.writers[other]) {
      CallTouchesOwnFiles(s, id, ok, accepts, BackupTemp(other));
    }
  }

  lemma MoveKeepsCopiesPrivate(s: System, m: Move, accepts: Version -> bool)
    requires CanMove(s, m, accepts) && !MixedRead(s, m) && WritersSound(s, accepts) && CopiesPrivate(s)
    ensures CopiesPrivate(Moved(s, m, accepts))
  {
    hide WriterSound;
    match m
    case Call(id, ok) => CallKeepsCopiesPrivate(s, id, ok, accepts);
    case Enter(_) =>
    case Die(_) =>
  }

  lemma {:induction false} RunKeepsCopiesPrivate(s: System, moves: seq<Move>, initial: nat, accepts: Version -> bool)
    requires ConcurrentReplace.Inv(s, initial, accepts) && CopiesPrivate(s) && NoMixedRead(s, moves, accepts)
    ensures Exec(s, moves, accepts).Some? && CopiesPrivate(Exec(s, moves, accepts).value)
    decreases |moves|
  {
    if moves != [] {
      hide Moved, CopiesPrivate;
      MoveKeepsInv(s, moves[0], initial, accepts);
      MoveKeepsCopiesPrivate(s, moves[0], accepts);
      RunKeepsCopiesPrivate(Moved(s, moves[0], accepts), moves[1..], initial, accepts);
    }
  }

  /** Every run without a mixed read, however its writers overlap, keeps every key private. */
  lemma PrivateWithoutMixedRead(s: System, moves: seq<Move>, accepts: Version -> bool)
    requires StartsClean(s) && NoMixedRead(s, moves, accepts)
    ensures Exec(s, moves, accepts).Some? && KeysPrivate(Base(Exec(s, moves, accepts).value), |s.history|)
  {
    RunKeepsCopiesPrivate(s, moves, |s.history|, accepts);
    ExecKeepsInv(s, moves, |s.history|, accepts);
  }

  lemma MixedReadIsAccepted(s: System, m: Move, initial: nat, accepts: Version -> bool)
    requires ConcurrentReplace.Inv(s, initial, accepts)
    ensures MixedRead(s, m) ==> accepts(s.writers[m.id].doc)
  {
    if m.Call? && m.id in s.writers {
      assert WriterSound(s, s.writers[m.id], accepts);
    }
  }

  lemma MixedReadEffect(s: System, m: Move, accepts: Version -> bool)
    requires CanMove(s, m, accepts) && MixedRead(s, m)
    ensures var w := s.writers[m.id];
      Moved(s, m, accepts) ==
        s.(writers := s.writers[m.id := w.(pc := OpenBackup(s.files[Source].content.value, w.pc.mode))])
  {
  }

  /** After a mixed read the run can go on to a backup with the key and the readable mode. */
  lemma MixedReadLeaks(s: System, m: Move, initial: nat, accepts: Version -> bool)
    requires ConcurrentReplace.Inv(s, initial, accepts) && CanMove(s, m, accepts) && MixedRead(s, m)
    ensures exists t ::
      && Reaches(Moved(s, m, accepts), t, accepts) && !BackupsPrivate(Base(t))
      && Holds(t.files, Backup, File(s.files[Source].content, s.writers[m.id].pc.mode))
  {
    var w := s.writers[m.id];
    MixedReadEffect(s, m, accepts);
    MixedReadIsAccepted(s, m, initial, accepts);
    assert w.id == m.id;
    hide Moved, Exec, Reaches, ConcurrentReplace.Inv;
    var next := w.(pc := OpenBackup(s.files[Source].content.value, w.pc.mode));
    var s1 := Moved(s, m, accepts);
    assert At(s1, next, s1.files) == s1;
    Copying(s1, m.id, w.doc, next.pc.copy, w.pc.mode, accepts);
    var s2 := At(s1, w.(pc := RenameBackup), s1.files[BackupTemp(m.id) := File(Some(next.pc.copy), w.pc.mode)]);
    assert Reaches(s1, s2, accepts) by { ExecReaches(s1, Calls(m.id, 4), accepts); }
    BackupPlaced(s2, m.id, w.doc, accepts);
    var t :|
      && Reaches(s2, t, accepts) && t.history == s2.history && t.backedUp
      && Holds(t.files, Backup, s2.files[BackupTemp(m.id)]);
    ReachesOn(s1, s2, t, accepts);
  }

  lemma ExecReaches(s: System, moves: seq<Move>, accepts: Version -> bool)
    requires Exec(s, moves, accepts).Some?
    ensures Reaches(s, Exec(s, moves, accepts).value, accepts)
  {
  }

  lemma MoveReaches(s: System, m: Move, accepts: Version -> bool)
    requires CanMove(s, m, accepts)
    ensures Reaches(s, Moved(s, m, accepts), accepts)
  {
    assert [m][1..] == [];
    assert Exec(Moved(s, m, accepts), [], accepts) == Some(Moved(s, m, accepts));
    assert Exec(s, [m], accepts) == Some(Moved(s, m, accepts));
  }

  /** No state that `s` leads to can make a mixed read. */
  ghost predicate NeverMixes(s: System, accepts: Version -> bool) {
    forall t, m :: Reaches(s, t, accepts) && CanMove(t, m, accepts) ==> !MixedRead(t, m)
  }

  lemma {:induction false} NeverMixesRun(s: System, t: System, moves: seq<Move>, accepts: Version -> bool)
    requires NeverMixes(s, accepts) && Reaches(s, t, accepts) && Exec(t, moves, accepts).Some?
    ensures NoMixedRead(t, moves, accepts)
    decreases |moves|
  {
    hide Reaches, Moved, MixedRead;
    if moves != [] {
      MoveReaches(t, moves[0], accepts);
      ReachesOn(s, t, Moved(t, moves[0], accepts), accepts);
      NeverMixesRun(s, Moved(t, moves[0], accepts), moves[1..], accepts);
    }
  }

  /** A leaking state behind a mixed read. */
  lemma MixedReadReachesLeak(s: System, t: System, m: Move, accepts: Version -> bool)
    requires StartsClean(s) && Reaches(s, t, accepts) && CanMove(t, m, accepts) && MixedRead(t, m)
    ensures exists u :: Reaches(s, u, accepts) && !BackupsPrivate(Base(u))
  {
    CleanInv(s, accepts);
    ReachesKeepsInv(s, t, |s.history|, accepts);
    hide Moved, Reaches, ConcurrentReplace.Inv, BackupsPrivate;
    MixedReadLeaks(t, m, |s.history|, accepts);
    hide MixedRead;
    var u :| Reaches(Moved(t, m, accepts), u, accepts) && !BackupsPrivate(Base(u));
    MoveReaches(t, m, accepts);
    ReachesOn(s, t, Moved(t, m, accepts), accepts);
    ReachesOn(s, Moved(t, m, accepts), u, accepts);
  }

  /** The exact condition: the backups are private at every point of every interleaving exactly
      when no interleaving comes to a mixed read. */
  lemma BackupsPrivateExactly(s: System, accepts: Version -> bool)
    requires StartsClean(s)
    ensures (forall t :: Reaches(s, t, accepts) ==> BackupsPrivate(Base(t))) <==> NeverMixes(s, accepts)
  {
    hide MixedRead, BackupsPrivate;
    if NeverMixes(s, accepts) {
      forall t | Reaches(s, t, accepts) ensures BackupsPrivate(Base(t)) {
        var moves :| Exec(s, moves, accepts) == Some(t);
        NowhereReaches(s, accepts);
        NeverMixesRun(s, s, moves, accepts);
        PrivateWithoutMixedRead(s, moves, accepts);
      }
    } else {
      hide Reaches;
      var t, m :| Reaches(s, t, accepts) && CanMove(t, m, accepts) && MixedRead(t, m);
      MixedReadReachesLeak(s, t, m, accepts);
    }
  }

  // ----- Freshness -----

  /** The writer holds a copy of the source that it has not put in place. */
  predicate Copied(pc: Pc) {
    pc.OpenBackup? || pc.WriteBackup? || pc.CloseBackup? || pc.SetBackupMode? || pc == RenameBackup
  }

  function CopyOf(s: System, w: Writer): Option<Version> {
    if w.pc.OpenBackup? || w.pc.WriteBackup? then Some(w.pc.copy)
    else if BackupTemp(w.id) in s.files then s.files[BackupTemp(w.id)].content
    else None
  }

  /** With `doc` in the source the copy of `w` is outdated, or so is the backup that was in place
      when `w` came to its final rename. */
  predicate Outdates(s: System, w: Writer, doc: Version) {
    || (Copied(w.pc) && CopyOf(s, w) != Some(doc))
    || (w.pc == RenameTemp && s.backedUp && Backup in s.files
        && s.files[Backup].content != Some(doc) && s.files[Backup].content != Some(w.doc))
  }

  /** A writer makes its final rename while another stands between its read and its own rename. */
  ghost predicate Overtakes(s: System, m: Move) {
    && m.Call? && m.ok && m.id in s.writers && s.writers[m.id].pc == RenameTemp
    && exists o :: o in s.writers && o != m.id && Outdates(s, s.writers[o], s.writers[m.id].doc)
  }

  /** The run can be made, and nobody is overtaken in it. */
  ghost predicate NoOvertaking(s: System, moves: seq<Move>, accepts: Version -> bool)
    decreases |moves|
  {
    moves == [] ||
    (&& CanMove(s, moves[0], accepts) && !Overtakes(s, moves[0])
     && NoOvertaking(Moved(s, moves[0], accepts), moves[1..], accepts))
  }

  /** The copy of a writer is the current version; before its final rename so is the backup,
      unless it is the version that the writer is about to install. */
  ghost predicate CopyCurrent(s: System, w: Writer) {
    && (Copied(w.pc) ==> Source in s.files && CopyOf(s, w) == s.files[Source].content)
    && (w.pc == RenameTemp && s.backedUp ==>
          && Backup in s.files && Source in s.files
          && (s.files[Backup].content == s.files[Source].content || s.files[Backup].content == Some(w.doc)))
  }

  ghost predicate CopiesCurrent(s: System) {
    BackupFresh(Base(s)) && forall id :: id in s.writers ==> CopyCurrent(s, s.writers[id])
  }

  /** The calls that change neither the source nor the backup, ... */
  predicate Renames(s: System, id: nat)
    requires id in s.writers
  {
    s.writers[id].pc == RenameTemp || s.writers[id].pc == RenameBackup
  }

  ghost predicate SameFile(s: System, t: System, p: Path) {
    (p in t.files <==> p in s.files) && (p in s.files ==> t.files[p] == s.files[p])
  }

  ghost predicate SamePlaced(s: System, t: System) {
    t.history == s.history && t.backedUp == s.backedUp && SameFile(s, t, Source) && SameFile(s, t, Backup)
  }

  lemma SameKeepsCurrent(s: System, t: System, w: Writer)
    requires SamePlaced(s, t) && SameFile(s, t, BackupTemp(w.id)) && CopyCurrent(s, w)
    ensures CopyCurrent(t, w)
  {
  }

  lemma SameKeepsFresh(s: System, t: System)
    requires SamePlaced(s, t) && BackupFresh(Base(s))
    ensures BackupFresh(Base(t))
  {
  }

  lemma PlainCallKeepsPlaced(s: System, id: nat, ok: bool, accepts: Version -> bool)
    requires CanMove(s, Call(id, ok), accepts) && (!ok || !Renames(s, id))
    ensures SamePlaced(s, Moved(s, Call(id, ok), accepts))
  {
  }

  /** A writer comes to its final rename without a backup only while there is none, ... */
  lemma CallToRename(s: System, id: nat, ok: bool, initial: nat, accepts: Version -> bool)
    requires CanMove(s, Call(id, ok), accepts) && (!ok || !Renames(s, id))
    requires SourceComplete(Base(s), initial, accepts) && BackupFromHistory(s)
    ensures var t := Moved(s, Call(id, ok), accepts); t.writers[id].pc == RenameTemp ==> !t.backedUp
  {
  }

  /** ... and has a copy of what is in the source. */
  lemma CallToCopy(s: System, id: nat, ok: bool, accepts: Version -> bool)
    requires CanMove(s, Call(id, ok), accepts) && (!ok || !Renames(s, id))
    requires s.writers[id].id == id && CopyCurrent(s, s.writers[id])
    ensures var t := Moved(s, Call(id, ok), accepts);
      Copied(t.writers[id].pc) ==> Source in s.files && CopyOf(t, t.writers[id]) == s.files[Source].content
  {
  }

  lemma PlainCallKeepsCaller(s: System, id: nat, ok: bool, initial: nat, accepts: Version -> bool)
    requires CanMove(s, Call(id, ok), accepts) && (!ok || !Renames(s, id))
    requires s.writers[id].id == id && CopyCurrent(s, s.writers[id])
    requires SourceComplete(Base(s), initial, accepts) && BackupFromHistory(s)
    ensures var t := Moved(s, Call(id, ok), accepts); CopyCurrent(t, t.writers[id])
  {
    CallToRename(s, id, ok, initial, accepts);
    CallToCopy(s, id, ok, accepts);
    PlainCallKeepsPlaced(s, id, ok, accepts);
    hide Moved, Enabled, CopyOf, SourceComplete;
  }

  /** ... keep the copies of the caller and of all others current. */
  lemma PlainCallKeepsCurrent(s: System, id: nat, ok: bool, initial: nat, accepts: Version -> bool)
    requires CanMove(s, Call(id, ok), accepts) && (!ok || !Renames(s, id))
    requires ConcurrentReplace.Inv(s, initial, accepts) && CopiesCurrent(s)
    ensures CopiesCurrent(Moved(s, Call(id, ok), accepts))
  {
    hide Moved, Enabled, WriterSound, CopyCurrent, BackupFresh, SourceComplete, BackupFromHistory, SamePlaced;
    var t := Moved(s, Call(id, ok), accepts);
    PlainCallKeepsPlaced(s, id, ok, accepts);
    PlainCallKeepsCaller(s, id, ok, initial, accepts);
    CallKeepsOtherWriters(s, id, ok, accepts);
    SameKeepsFresh(s, t);
    forall o | o in t.writers ensures CopyCurrent(t, t.writers[o]) {
      if o != id {
        CallTouchesOwnFiles(s, id, ok, accepts, BackupTemp(o));
        SameKeepsCurrent(s, t, s.writers[o]);
      }
    }
  }

  /** The system after the rename of a backup, and after the rename of a document. */
  function BackupRenamed(s: System, w: Writer): System
    requires BackupTemp(w.id) in s.files
  {
    s.(files := Rename(s.files, BackupTemp(w.id), Backup), backedUp := true,
       writers := s.writers[w.id := w.(pc := RenameTemp)])
  }

  function SourceRenamed(s: System, w: Writer): System
    requires Temp(w.id) in s.files
  {
    s.(files := Rename(s.files, Temp(w.id), Source), history := s.history + [w.doc],
       writers := s.writers[w.id := w.(pc := Done(true))])
  }

  lemma BackupCallEffect(s: System, id: nat, accepts: Version -> bool)
    requires CanMove(s, Call(id, true), accepts) && s.writers[id].pc == RenameBackup && s.writers[id].id == id
    ensures BackupTemp(id) in s.files
    ensures Moved(s, Call(id, true), accepts) == BackupRenamed(s, s.writers[id])
  {
  }

  lemma SourceCallEffect(s: System, id: nat, accepts: Version -> bool)
    requires CanMove(s, Call(id, true), accepts) && s.writers[id].pc == RenameTemp && s.writers[id].id == id
    ensures Temp(id) in s.files
    ensures Moved(s, Call(id, true), accepts) == SourceRenamed(s, s.writers[id])
  {
  }

  /** A backup is placed while it is current. */
  lemma BackupRenamedFresh(s: System, w: Writer, initial: nat, accepts: Version -> bool)
    requires SourceComplete(Base(s), initial, accepts) && BackupTemp(w.id) in s.files
    requires w.pc == RenameBackup && CopyCurrent(s, w)
    ensures BackupFresh(Base(BackupRenamed(s, w)))
  {
  }

  lemma BackupRenamedCurrent(s: System, w: Writer, o: Writer)
    requires BackupTemp(w.id) in s.files && w.pc == RenameBackup && CopyCurrent(s, w)
    requires o.id != w.id && CopyCurrent(s, o)
    ensures CopyCurrent(BackupRenamed(s, w), o)
  {
  }

  lemma BackupCallKeepsCurrent(s: System, id: nat, initial: nat, accepts: Version -> bool)
    requires CanMove(s, Call(id, true), accepts) && s.writers[id].pc == RenameBackup
    requires Numbered(s) && SourceComplete(Base(s), initial, accepts) && CopiesCurrent(s)
    ensures CopiesCurrent(Moved(s, Call(id, true), accepts))
  {
    var w := s.writers[id];
    BackupCallEffect(s, id, accepts);
    hide Moved, Enabled;
    assert CopyCurrent(s, w);
    BackupRenamedFresh(s, w, initial, accepts);
    var t := BackupRenamed(s, w);
    assert CopyCurrent(t, t.writers[id]);
    hide CopyCurrent, BackupFresh, SourceComplete;
    forall o | o in t.writers ensures CopyCurrent(t, t.writers[o]) {
      if o != id {
        BackupRenamedCurrent(s, w, s.writers[o]);
      }
    }
  }

  /** A final rename that overtakes nobody leaves the backup fresh and all copies current. */
  lemma SourceRenamedFresh(s: System, w: Writer, initial: nat, accepts: Version -> bool)
    requires SourceComplete(Base(s), initial, accepts) && Temp(w.id) in s.files
    requires w.pc == RenameTemp && CopyCurrent(s, w) && BackupFromHistory(s)
    ensures BackupFresh(Base(SourceRenamed(s, w)))
  {
  }

  lemma SourceRenamedCurrent(s: System, w: Writer, o: Writer)
    requires TempWritten(Base(s), w) && CopyCurrent(s, o) && !Outdates(s, o, w.doc)
    ensures CopyCurrent(SourceRenamed(s, w), o)
  {
  }

  lemma SourceCallKeepsCurrent(s: System, id: nat, initial: nat, accepts: Version -> bool)
    requires CanMove(s, Call(id, true), accepts) && s.writers[id].pc == RenameTemp && !Overtakes(s, Call(id, true))
    requires Numbered(s) && SourceComplete(Base(s), initial, accepts) && BackupFromHistory(s)
    requires TempWritten(Base(s), s.writers[id]) && CopiesCurrent(s)
    ensures CopiesCurrent(Moved(s, Call(id, true), accepts))
  {
    var w := s.writers[id];
    SourceCallEffect(s, id, accepts);
    hide Moved, Enabled;
    SourceRenamedFresh(s, w, initial, accepts);
    var t := SourceRenamed(s, w);
    assert CopyCurrent(t, t.writers[id]);
    hide CopyCurrent, BackupFresh, SourceComplete, TempWritten, Outdates;
    forall o | o in t.writers ensures CopyCurrent(t, t.writers[o]) {
      if o != id {
        SourceRenamedCurrent(s, w, s.writers[o]);
      }
    }
  }

  lemma CallKeepsCurrent(s: System, id: nat, ok: bool, initial: nat, accepts: Version -> bool)
    requires CanMove(s, Call(id, ok), accepts) && !Overtakes(s, Call(id, ok))
    requires ConcurrentReplace.Inv(s, initial, accepts) && CopiesCurrent(s)
    ensures CopiesCurrent(Moved(s, Call(id, ok), accepts))
  {
    hide Overtakes, Enabled, Moved, CopiesCurrent, SourceComplete;
    assert s.writers[id].pc == RenameTemp ==> TempWritten(Base(s), s.writers[id]) by {
      assert WriterSound(s, s.writers[id], accepts);
    }
    hide WriterSound;
    if !ok || !Renames(s, id) {
      PlainCallKeepsCurrent(s, id, ok, initial, accepts);
    } else if s.writers[id].pc == RenameBackup {
      BackupCallKeepsCurrent(s, id, initial, accepts);
    } else {
      SourceCallKeepsCurrent(s, id, initial, accepts);
    }
  }

  lemma MoveKeepsCurrent(s: System, m: Move, initial: nat, accepts: Version -> bool)
    requires CanMove(s, m, accepts) && !Overtakes(s, m)
    requires ConcurrentReplace.Inv(s, initial, accepts) && CopiesCurrent(s)
    ensures CopiesCurrent(Moved(s, m, accepts))
  {
    hide Overtakes, ConcurrentReplace.Inv, Moved, CopiesCurrent;
    match m
    case Call(id, ok) => CallKeepsCurrent(s, id, ok, initial, accepts);
    case Enter(_) => IdleMoveKeepsCurrent(s, m, accepts);
    case Die(_) => IdleMoveKeepsCurrent(s, m, accepts);
  }

  /** A writer that arrives has no copy, and one that arrives or dies touches no file. */
  lemma IdleMoveKeepsCurrent(s: System, m: Move, accepts: Version -> bool)
    requires CanMove(s, m, accepts) && !m.Call? && CopiesCurrent(s)
    ensures CopiesCurrent(Moved(s, m, accepts))
  {
    hide Apply, Enabled;
    var t := Moved(s, m, accepts);
    forall o | o in t.writers ensures CopyCurrent(t, t.writers[o]) {
      if o in s.writers && t.writers[o] == s.writers[o] {
        SameKeepsCurrent(s, t, s.writers[o]);
      }
    }
  }

  lemma {:induction false} RunKeepsCurrent(s: System, moves: seq<Move>, initial: nat, accepts: Version -> bool)
    requires ConcurrentReplace.Inv(s, initial, accepts) && CopiesCurrent(s) && NoOvertaking(s, moves, accepts)
    ensures Exec(s, moves, accepts).Some? && CopiesCurrent(Exec(s, moves, accepts).value)
    decreases |moves|
  {
    hide Moved, CopiesCurrent, ConcurrentReplace.Inv, Overtakes;
    if moves != [] {
      MoveKeepsInv(s, moves[0], initial, accepts);
      MoveKeepsCurrent(s, moves[0], initial, accepts);
      RunKeepsCurrent(Moved(s, moves[0], accepts), moves[1..], initial, accepts);
    }
  }

  /** Every run in which nobody is overtaken, however its writers overlap, keeps the backup fresh. */
  lemma FreshWithoutOvertaking(s: System, moves: seq<Move>, accepts: Version -> bool)
    requires StartsClean(s) && NoOvertaking(s, moves, accepts)
    ensures Exec(s, moves, accepts).Some? && BackupFresh(Base(Exec(s, moves, accepts).value))
  {
    RunKeepsCurrent(s, moves, |s.history|, accepts);
  }

  /** How many calls a writer is away from placing its copy. */
  function CopyCallsLeft(pc: Pc): nat {
    match pc
    case OpenBackup(_, _) => 4
    case WriteBackup(_, _) => 3
    case CloseBackup(_) => 2
    case SetBackupMode(_) => 1
    case _ => 0
  }

  lemma CopyStep(s: System, id: nat, accepts: Version -> bool)
    requires id in s.writers && s.writers[id].id == id && WriterSound(s, s.writers[id], accepts)
    requires Copied(s.writers[id].pc) && s.writers[id].pc != RenameBackup
    ensures CanMove(s, Call(id, true), accepts)
    ensures var t := Moved(s, Call(id, true), accepts);
      && Copied(t.writers[id].pc) && CopyCallsLeft(t.writers[id].pc) < CopyCallsLeft(s.writers[id].pc)
      && CopyOf(t, t.writers[id]) == CopyOf(s, s.writers[id]) && t.history == s.history
  {
  }

  /** A writer that holds a copy can go on to the point where it places it. */
  lemma {:induction false} CopyCompletes(s: System, id: nat, initial: nat, accepts: Version -> bool)
    returns (t: System)
    requires ConcurrentReplace.Inv(s, initial, accepts) && id in s.writers && Copied(s.writers[id].pc)
    ensures Reaches(s, t, accepts) && ConcurrentReplace.Inv(t, initial, accepts) && t.history == s.history
    ensures id in t.writers && t.writers[id].pc == RenameBackup
    ensures CopyOf(t, t.writers[id]) == CopyOf(s, s.writers[id])
    decreases CopyCallsLeft(s.writers[id].pc)
  {
    hide Moved, Enabled, CopyOf, WriterSound, Reaches, CopyCallsLeft, SourceComplete;
    if s.writers[id].pc == RenameBackup {
      NowhereReaches(s, accepts);
      t := s;
    } else {
      CopyStep(s, id, accepts);
      CallKeepsOtherWriters(s, id, true, accepts);
      MoveKeepsInv(s, Call(id, true), initial, accepts);
      var next := Moved(s, Call(id, true), accepts);
      MoveReaches(s, Call(id, true), accepts);
      t := CopyCompletes(next, id, initial, accepts);
      ReachesOn(s, next, t, accepts);
    }
  }

  lemma NowhereReaches(s: System, accepts: Version -> bool)
    ensures Reaches(s, s, accepts)
  {
    assert Exec(s, [], accepts) == Some(s);
  }

  /** No temp file has the number of the next writer. */
  lemma NextIsFresh(s: System, initial: nat, accepts: Version -> bool)
    requires ConcurrentReplace.Inv(s, initial, accepts)
    ensures Temp(s.next) !in s.files && BackupTemp(s.next) !in s.files
    ensures Source in s.files ==> s.files[Source].content.Some?
  {
  }

  /** An outdated copy goes stale: one more write of the same document, and then it is placed. */
  lemma OutdatedCopyGoesStale(s: System, o: nat, doc: Version, initial: nat, accepts: Version -> bool)
    requires ConcurrentReplace.Inv(s, initial, accepts) && accepts(doc)
    requires s.history != [] && s.history[|s.history| - 1] == doc
    requires o in s.writers && Copied(s.writers[o].pc) && CopyOf(s, s.writers[o]) != Some(doc)
    ensures exists t :: Reaches(s, t, accepts) && !BackupFresh(Base(t))
  {
    hide Reaches, WriterSound, StagedMode, BackupMode;
    assert Source in s.files;
    NextIsFresh(s, initial, accepts);
    WholeWrite(s, doc, accepts);
    var s1 := Replaced(s, doc);
    assert s.writers[o].id == o && o < s.next;
    assert CopyOf(s1, s1.writers[o]) == CopyOf(s, s.writers[o]);
    ReachesKeepsInv(s, s1, initial, accepts);
    hide ConcurrentReplace.Inv;
    var s2 := CopyCompletes(s1, o, initial, accepts);
    ReachesOn(s, s1, s2, accepts);
    CopyIsPlaced(s2, o, initial, accepts);
    var t :|
      && Reaches(s2, t, accepts) && t.history == s2.history && t.backedUp
      && Backup in t.files && t.files[Backup].content == CopyOf(s2, s2.writers[o]);
    ReachesOn(s, s2, t, accepts);
  }

  lemma CopyIsPlaced(s: System, id: nat, initial: nat, accepts: Version -> bool)
    requires ConcurrentReplace.Inv(s, initial, accepts) && id in s.writers && s.writers[id].pc == RenameBackup
    ensures exists t ::
      && Reaches(s, t, accepts) && t.history == s.history && t.backedUp
      && Backup in t.files && t.files[Backup].content == CopyOf(s, s.writers[id])
  {
    hide Reaches;
    assert s.writers[id].id == id && WriterSound(s, s.writers[id], accepts);
    BackupPlaced(s, id, s.writers[id].doc, accepts);
  }

  lemma ReachesKeepsInv(s: System, t: System, initial: nat, accepts: Version -> bool)
    requires ConcurrentReplace.Inv(s, initial, accepts) && Reaches(s, t, accepts)
    ensures ConcurrentReplace.Inv(t, initial, accepts)
  {
    var moves :| Exec(s, moves, accepts) == Some(t);
    ExecKeepsInv(s, moves, initial, accepts);
  }

  /** An outdated backup goes stale when the writer that waits behind it makes its rename. */
  lemma OutdatedBackupGoesStale(s: System, o: nat, doc: Version, initial: nat, accepts: Version -> bool)
    requires ConcurrentReplace.Inv(s, initial, accepts)
    requires s.history != [] && s.history[|s.history| - 1] == doc
    requires o in s.writers && s.writers[o].pc == RenameTemp && s.backedUp && Backup in s.files
    requires s.files[Backup].content != Some(doc) && s.files[Backup].content != Some(s.writers[o].doc)
    ensures exists t :: Reaches(s, t, accepts) && !BackupFresh(Base(t))
  {
    hide Moved, Enabled, Reaches, ConcurrentReplace.Inv, BackupFresh, TempWritten, SourceRenamed;
    RenamerCanMove(s, o, initial, accepts);
    SourceCallEffect(s, o, accepts);
    MoveReaches(s, Call(o, true), accepts);
    RenamedIsStale(s, s.writers[o]);
  }

  lemma RenamedIsStale(s: System, w: Writer)
    requires Temp(w.id) in s.files && s.history != [] && s.backedUp && Backup in s.files
    requires s.files[Backup].content != Some(s.history[|s.history| - 1]) && s.files[Backup].content != Some(w.doc)
    ensures !BackupFresh(Base(SourceRenamed(s, w)))
  {
  }

  lemma RenamerCanMove(s: System, id: nat, initial: nat, accepts: Version -> bool)
    requires ConcurrentReplace.Inv(s, initial, accepts) && id in s.writers && s.writers[id].pc == RenameTemp
    ensures CanMove(s, Call(id, true), accepts) && s.writers[id].id == id
    ensures TempWritten(Base(s), s.writers[id]) && accepts(s.writers[id].doc)
  {
    assert WriterSound(s, s.writers[id], accepts);
  }

  lemma RenamedOutdates(s: System, w: Writer, o: Writer)
    requires Temp(w.id) in s.files && o.id != w.id && Outdates(s, o, w.doc)
    ensures Outdates(SourceRenamed(s, w), o, w.doc)
  {
  }

  lemma OutdatedGoesStale(s: System, o: nat, doc: Version, initial: nat, accepts: Version -> bool)
    requires ConcurrentReplace.Inv(s, initial, accepts) && accepts(doc)
    requires s.history != [] && s.history[|s.history| - 1] == doc
    requires o in s.writers && Outdates(s, s.writers[o], doc)
    ensures exists t :: Reaches(s, t, accepts) && !BackupFresh(Base(t))
  {
    hide ConcurrentReplace.Inv, Reaches, BackupFresh, CopyOf, Copied;
    if Copied(s.writers[o].pc) && CopyOf(s, s.writers[o]) != Some(doc) {
      OutdatedCopyGoesStale(s, o, doc, initial, accepts);
    } else {
      OutdatedBackupGoesStale(s, o, doc, initial, accepts);
    }
  }

  /** After a rename that overtakes a writer the run can go on to a backup that is neither the
      current nor the previous version. */
  lemma OvertakingGoesStale(s: System, m: Move, initial: nat, accepts: Version -> bool)
    requires ConcurrentReplace.Inv(s, initial, accepts) && CanMove(s, m, accepts) && Overtakes(s, m)
    ensures exists t :: Reaches(Moved(s, m, accepts), t, accepts) && !BackupFresh(Base(t))
  {
    hide Moved, Enabled, Reaches, BackupFresh, Outdates, WriterSound, SourceComplete, TempWritten;
    var w := s.writers[m.id];
    var o :| o in s.writers && o != m.id && Outdates(s, s.writers[o], w.doc);
    RenamerCanMove(s, m.id, initial, accepts);
    SourceCallEffect(s, m.id, accepts);
    RenamedOutdates(s, w, s.writers[o]);
    MoveKeepsInv(s, m, initial, accepts);
    OutdatedGoesStale(SourceRenamed(s, w), o, w.doc, initial, accepts);
  }

  /** No state that `s` leads to can overtake a writer. */
  ghost predicate NeverOvertakes(s: System, accepts: Version -> bool) {
    forall t, m :: Reaches(s, t, accepts) && CanMove(t, m, accepts) ==> !Overtakes(t, m)
  }

  lemma {:induction false} NeverOvertakesRun(s: System, t: System, moves: seq<Move>, accepts: Version -> bool)
    requires NeverOvertakes(s, accepts) && Reaches(s, t, accepts) && Exec(t, moves, accepts).Some?
    ensures NoOvertaking(t, moves, accepts)
    decreases |moves|
  {
    hide Reaches, Moved, Overtakes;
    if moves != [] {
      MoveReaches(t, moves[0], accepts);
      ReachesOn(s, t, Moved(t, moves[0], accepts), accepts);
      NeverOvertakesRun(s, Moved(t, moves[0], accepts), moves[1..], accepts);
    }
  }

  /** A stale state behind an overtaking move. */
  lemma OvertakingReachesStale(s: System, t: System, m: Move, accepts: Version -> bool)
    requires StartsClean(s) && Reaches(s, t, accepts) && CanMove(t, m, accepts) && Overtakes(t, m)
    ensures exists u :: Reaches(s, u, accepts) && !BackupFresh(Base(u))
  {
    CleanInv(s, accepts);
    ReachesKeepsInv(s, t, |s.history|, accepts);
    hide Moved, Overtakes, Reaches, ConcurrentReplace.Inv, BackupFresh;
    OvertakingGoesStale(t, m, |s.history|, accepts);
    var u :| Reaches(Moved(t, m, accepts), u, accepts) && !BackupFresh(Base(u));
    MoveReaches(t, m, accepts);
    ReachesOn(s, t, Moved(t, m, accepts), accepts);
    ReachesOn(s, Moved(t, m, accepts), u, accepts);
  }

  lemma CleanInv(s: System, accepts: Version -> bool)
    requires StartsClean(s)
    ensures ConcurrentReplace.Inv(s, |s.history|, accepts) && CopiesPrivate(s) && CopiesCurrent(s)
  {
  }

  /** The exact condition: the backup is fresh at every point of every interleaving exactly when no
      interleaving overtakes a writer. */
  lemma BackupFreshExactly(s: System, accepts: Version -> bool)
    requires StartsClean(s)
    ensures (forall t :: Reaches(s, t, accepts) ==> BackupFresh(Base(t))) <==> NeverOvertakes(s, accepts)
  {
    hide Overtakes, BackupFresh;
    if NeverOvertakes(s, accepts) {
      forall t | Reaches(s, t, accepts) ensures BackupFresh(Base(t)) {
        var moves :| Exec(s, moves, accepts) == Some(t);
        NowhereReaches(s, accepts);
        NeverOvertakesRun(s, s, moves, accepts);
        FreshWithoutOvertaking(s, moves, accepts);
      }
    } else {
      hide Reaches;
      var t, m :| Reaches(s, t, accepts) && CanMove(t, m, accepts) && Overtakes(t, m);
      OvertakingReachesStale(s, t, m, accepts);
    }
  }

  // ----- Writers that exclude each other -----

  /** At most `cur` is at work. */
  ghost predicate OnlyActive(s: System, cur: Option<nat>) {
    && (cur.Some? ==> cur.value in s.writers)
    && forall id :: id in s.writers && !s.writers[id].pc.Done? ==> cur == Some(id)
  }

  ghost predicate Exclusive(s: System) {
    exists cur: Option<nat> :: OnlyActive(s, cur)
  }

  /** Every state of the run has at most one writer at work. */
  ghost predicate ExclusiveRun(s: System, moves: seq<Move>, accepts: Version -> bool)
    decreases |moves|
  {
    && Exclusive(s)
    && (moves != [] ==> CanMove(s, moves[0], accepts) && ExclusiveRun(Moved(s, moves[0], accepts), moves[1..], accepts))
  }

  ghost function Sequential(s: System, cur: Option<nat>): State
    requires OnlyActive(s, cur)
  {
    if cur.Some? then View(s, cur.value) else Base(s)
  }

  lemma StepKeepsNext(s: State, ok: bool, accepts: Version -> bool)
    requires Enabled(s, Step(ok), accepts)
    ensures var t := Apply(s, Step(ok), accepts); t.next == s.next && t.writer.Some?
  {
  }

  /** An exclusive move is a step of the sequential system. */
  lemma ExclusiveMoveIsSequential(s: System, m: Move, accepts: Version -> bool, cur: Option<nat>)
    returns (act: Action, after: Option<nat>)
    requires OnlyActive(s, cur) && CanMove(s, m, accepts) && Exclusive(Moved(s, m, accepts)) && Numbered(s)
    ensures OnlyActive(Moved(s, m, accepts), after)
    ensures Enabled(Sequential(s, cur), act, accepts) && (FallsBack(Sequential(s, cur), act) ==> FallsBackIn(s, m))
    ensures Sequential(Moved(s, m, accepts), after) == Apply(Sequential(s, cur), act, accepts)
  {
    match m
    case Enter(doc) =>
      act, after := Begin(doc), Some(s.next);
      var others :| OnlyActive(Moved(s, m, accepts), others);
      assert others == Some(s.next);
    case Call(id, ok) =>
      act, after := Step(ok), cur;
      StepKeepsNext(View(s, id), ok, accepts);
      hide Apply, Enabled;
    case Die(id) =>
      act, after := Crash, None;
  }

  /** The read with which a writer looks for a key in the source throws. */
  predicate FallsBackIn(s: System, m: Move) {
    m.Call? && m.id in s.writers && FallsBack(View(s, m.id), Step(m.ok))
  }

  ghost predicate NoFallbackIn(s: System, moves: seq<Move>, accepts: Version -> bool)
    decreases |moves|
  {
    moves == [] ||
    (&& CanMove(s, moves[0], accepts) && !FallsBackIn(s, moves[0])
     && NoFallbackIn(Moved(s, moves[0], accepts), moves[1..], accepts))
  }

  /** The only writer at work overtakes nobody, and reads what it has resolved the mode of. */
  lemma ExclusiveMoveIsHarmless(s: System, m: Move, accepts: Version -> bool, cur: Option<nat>)
    requires OnlyActive(s, cur) && CanMove(s, m, accepts)
    ensures !Overtakes(s, m) && (GuardInv(Sequential(s, cur)) ==> !MixedRead(s, m))
  {
    hide Apply;
  }

  lemma {:induction false} ExclusiveRunIsHarmless(
    s: System, moves: seq<Move>, accepts: Version -> bool, cur: Option<nat>, initial: nat)
    requires ExclusiveRun(s, moves, accepts) && OnlyActive(s, cur) && Numbered(s)
    requires ConfigReplace.Inv(Sequential(s, cur), initial, accepts)
    ensures NoOvertaking(s, moves, accepts)
    ensures GuardInv(Sequential(s, cur)) && (KeyPrivate(s.files) || NoFallbackIn(s, moves, accepts)) ==>
      NoMixedRead(s, moves, accepts)
    decreases |moves|
  {
    hide Moved, Apply, Enabled, Overtakes, MixedRead, GuardInv, KeyPrivate, FallsBack;
    if moves != [] {
      var t := Moved(s, moves[0], accepts);
      assert ExclusiveRun(t, moves[1..], accepts) && Exclusive(t);
      ExclusiveMoveIsHarmless(s, moves[0], accepts, cur);
      var act, after := ExclusiveMoveIsSequential(s, moves[0], accepts, cur);
      StepKeepsInv(Sequential(s, cur), act, initial, accepts);
      if GuardInv(Sequential(s, cur)) && (KeyPrivate(s.files) || NoFallbackIn(s, moves, accepts)) {
        StepKeepsGuard(Sequential(s, cur), act, initial, accepts);
      }
      MoveKeepsNumbered(s, moves[0], accepts);
      ExclusiveRunIsHarmless(t, moves[1..], accepts, after, initial);
    }
  }

  /** As long as the writers exclude each other, the backup is the current or the previous version
      at the end of every run, and every key is private if a key in the first source is, or if it
      can be parsed and no read that looks for it throws. */
  lemma ExclusiveWritersKeepBackup(s: System, moves: seq<Move>, accepts: Version -> bool)
    requires StartsClean(s) && ExclusiveRun(s, moves, accepts)
    ensures Exec(s, moves, accepts).Some? && BackupFresh(Base(Exec(s, moves, accepts).value))
    ensures KeyPrivate(s.files) || (Guarded(s.files) && NoFallbackIn(s, moves, accepts)) ==>
      KeysPrivate(Base(Exec(s, moves, accepts).value), |s.history|)
  {
    ExclusiveRunIsHarmless(s, moves, accepts, None, |s.history|);
    FreshWithoutOvertaking(s, moves, accepts);
    if KeyPrivate(s.files) || (Guarded(s.files) && NoFallbackIn(s, moves, accepts)) {
      PrivateWithoutMixedRead(s, moves, accepts);
    }
  }
}
