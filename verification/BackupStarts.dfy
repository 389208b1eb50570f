/** From which starts the promises about the backup hold: conditions on the source file that is
    there and on the documents that the validator accepts. */
module BackupStarts {
  import opened Prelude
  import opened ConfigReplace
  import opened ConcurrentReplace
  import opened BackupPromises

  // ----- A source whose key the backup does not see -----

  /** All moves are calls of writer `id`. */
  ghost predicate CallsOf(id: nat, moves: seq<Move>) {
    forall i :: 0 <= i < |moves| ==> moves[i].Call? && moves[i].id == id
  }

  lemma {:induction false} SoloCallsExclusive(s: System, id: nat, moves: seq<Move>, accepts: Version -> bool)
    requires OnlyActive(s, Some(id)) && CallsOf(id, moves) && Exec(s, moves, accepts).Some?
    ensures ExclusiveRun(s, moves, accepts)
    decreases |moves|
  {
    hide Enabled, Apply;
    if moves != [] {
      assert moves[0] == Call(id, moves[0].ok);
      var t := Moved(s, moves[0], accepts);
      CallKeepsOtherWriters(s, id, moves[0].ok, accepts);
      assert OnlyActive(t, Some(id));
      SoloCallsExclusive(t, id, moves[1..], accepts);
    }
  }

  /** One writer, alone from its first move on. */
  lemma SoloWriteExclusive(s: System, doc: Version, calls: seq<Move>, accepts: Version -> bool)
    requires s.writers == map[] && CallsOf(s.next, calls) && Exec(Moved(s, Enter(doc), accepts), calls, accepts).Some?
    ensures ExclusiveRun(s, [Enter(doc)] + calls, accepts)
    ensures Exec(s, [Enter(doc)] + calls, accepts) == Exec(Moved(s, Enter(doc), accepts), calls, accepts)
  {
    var t, moves := Moved(s, Enter(doc), accepts), [Enter(doc)] + calls;
    assert moves[0] == Enter(doc) && moves[1..] == calls;
    assert OnlyActive(t, Some(s.next)) && OnlyActive(s, None);
    SoloCallsExclusive(t, s.next, calls, accepts);
  }

  /** The moves of one whole write, and of one in which the read that looks for a key throws. */
  function WriteMoves(id: nat, doc: Version): seq<Move> {
    [Enter(doc)] + Calls(id, 15)
  }

  function BlindWriteCalls(id: nat): seq<Move> {
    Calls(id, 7) + ([Call(id, false)] + Calls(id, 6))
  }

  function BlindWriteMoves(id: nat, doc: Version): seq<Move> {
    [Enter(doc)] + BlindWriteCalls(id)
  }

  lemma {:induction false} CallsNeverFallBack(s: System, id: nat, n: nat, accepts: Version -> bool)
    requires Exec(s, Calls(id, n), accepts).Some?
    ensures NoFallbackIn(s, Calls(id, n), accepts)
    decreases n
  {
    hide Moved, Enabled;
    if n > 0 {
      assert Calls(id, n)[0] == Call(id, true) && Calls(id, n)[1..] == Calls(id, n - 1);
      CallsNeverFallBack(Moved(s, Call(id, true), accepts), id, n - 1, accepts);
    }
  }

  /** One undisturbed write, with no call that throws, puts a key that cannot be parsed in a backup
      of the source's mode. */
  lemma UnguardedWriteLeaks(s: System, doc: Version, accepts: Version -> bool)
    requires StartsClean(s) && !Guarded(s.files) && accepts(doc)
    ensures ExclusiveRun(s, WriteMoves(s.next, doc), accepts) && NoFallbackIn(s, WriteMoves(s.next, doc), accepts)
    ensures var r := Exec(s, WriteMoves(s.next, doc), accepts);
      r.Some? && Holds(r.value.files, Backup, s.files[Source]) && !BackupsPrivate(Base(r.value))
  {
    hide Exec, Calls, StagedMode, ExclusiveRun;
    WholeWriteCalls(s, doc, accepts);
    SoloWriteExclusive(s, doc, Calls(s.next, 15), accepts) by { CallsAreCalls(s.next, 15); }
    CallsNeverFallBack(Moved(s, Enter(doc), accepts), s.next, 15, accepts);
    assert WriteMoves(s.next, doc)[0] == Enter(doc) && WriteMoves(s.next, doc)[1..] == Calls(s.next, 15);
  }

  lemma CallsAreCalls(id: nat, n: nat)
    ensures CallsOf(id, Calls(id, n))
  {
  }

  /** Up to the fallback: the mode is the source's, and nothing has looked for a key. */
  lemma BlindResolving(s: System, doc: Version, accepts: Version -> bool)
    requires Source in s.files && accepts(doc)
    ensures var id, s1 := s.next, s.(next := s.next + 1,
                                     files := s.files[Temp(s.next) := File(Some(doc), StagedMode(s.files, doc))]);
      Exec(Moved(s, Enter(doc), accepts), Calls(id, 7) + [Call(id, false)], accepts)
        == Some(At(s1, Writer(id, doc, ReadSource(s.files[Source].mode)), s1.files))
  {
    hide Calls, StagedMode;
    var id, mode, s0 := s.next, s.files[Source].mode, s.(next := s.next + 1);
    var s1 := s0.(files := s.files[Temp(id) := File(Some(doc), StagedMode(s.files, doc))]);
    var t0, t1 := At(s0, Writer(id, doc, OpenTemp), s0.files), At(s1, Writer(id, doc, StatSource), s1.files);
    var t2 := At(s1, Writer(id, doc, ResolveBackupMode(mode)), s1.files);
    var t3 := At(s1, Writer(id, doc, ReadSource(mode)), s1.files);
    assert Moved(s, Enter(doc), accepts) == t0;
    FallbackEffect(s1, id, doc, mode, accepts);
    assert Exec(t2, [Call(id, false)], accepts) == Some(t3) by {
      assert [Call(id, false)][1..] == [] && Exec(t3, [], accepts) == Some(t3);
    }
    hide Exec, Moved;
    Staging(s0, id, doc, accepts);
    CallsOn(t0, t1, id, 6, 1, accepts);
    Stating(s1, id, doc, accepts);
    ExecConcat(t0, Calls(id, 7), [Call(id, false)], accepts);
  }

  lemma FallbackEffect(s: System, id: nat, doc: Version, mode: nat, accepts: Version -> bool)
    ensures var t := At(s, Writer(id, doc, ResolveBackupMode(mode)), s.files);
      && CanMove(t, Call(id, false), accepts)
      && Moved(t, Call(id, false), accepts) == At(s, Writer(id, doc, ReadSource(mode)), s.files)
  {
    var t, w := At(s, Writer(id, doc, ResolveBackupMode(mode)), s.files), Writer(id, doc, ReadSource(mode));
    assert t.writers[id := w] == s.writers[id := w];
  }

  lemma BlindWriting(s: System, doc: Version, accepts: Version -> bool)
    requires Source in s.files && s.files[Source].content.Some? && accepts(doc)
    ensures var r := Exec(Moved(s, Enter(doc), accepts), BlindWriteCalls(s.next), accepts);
      r.Some? && r.value.backedUp && Holds(r.value.files, Backup, s.files[Source])
  {
    hide Exec, Moved, Calls, StagedMode;
    var id, mode := s.next, s.files[Source].mode;
    var s1 := s.(next := s.next + 1, files := s.files[Temp(id) := File(Some(doc), StagedMode(s.files, doc))]);
    var s2 := s1.(files := s1.files[BackupTemp(id) := File(s.files[Source].content, mode)]);
    var t0, t3 := Moved(s, Enter(doc), accepts), At(s1, Writer(id, doc, ReadSource(mode)), s1.files);
    var t4 := At(s2, Writer(id, doc, RenameBackup), s2.files);
    BlindResolving(s, doc, accepts);
    Reading(s1, id, doc, mode, accepts);
    assert At(s1, Writer(id, doc, RenameBackup), s2.files) == t4;
    PlacingBackup(s2, id, doc, accepts);
    CallsOn(t3, t4, id, 5, 1, accepts);
    ExecConcat(t0, Calls(id, 7) + [Call(id, false)], Calls(id, 6), accepts);
    assert BlindWriteCalls(id) == Calls(id, 7) + [Call(id, false)] + Calls(id, 6);
  }

  /** One undisturbed write in which the read that looks for a key throws puts any key in a backup of
      the source's mode. */
  lemma BlindWriteLeaks(s: System, doc: Version, accepts: Version -> bool)
    requires StartsClean(s) && !KeyPrivate(s.files) && accepts(doc)
    ensures ExclusiveRun(s, BlindWriteMoves(s.next, doc), accepts)
    ensures var r := Exec(s, BlindWriteMoves(s.next, doc), accepts);
      r.Some? && Holds(r.value.files, Backup, s.files[Source]) && !BackupsPrivate(Base(r.value))
  {
    hide Exec, Moved, Calls, ExclusiveRun;
    BlindWriting(s, doc, accepts);
    assert CallsOf(s.next, BlindWriteCalls(s.next)) by {
      CallsAreCalls(s.next, 7);
      CallsAreCalls(s.next, 6);
    }
    SoloWriteExclusive(s, doc, BlindWriteCalls(s.next), accepts);
  }

  lemma {:induction false} NothingAcceptedNoMixedRead(
    s: System, moves: seq<Move>, initial: nat, accepts: Version -> bool)
    requires ConcurrentReplace.Inv(s, initial, accepts) && Exec(s, moves, accepts).Some?
    requires forall doc :: !accepts(doc)
    ensures NoMixedRead(s, moves, accepts)
    decreases |moves|
  {
    hide Moved;
    if moves != [] {
      MixedReadIsAccepted(s, moves[0], initial, accepts);
      MoveKeepsInv(s, moves[0], initial, accepts);
      NothingAcceptedNoMixedRead(Moved(s, moves[0], accepts), moves[1..], initial, accepts);
    }
  }

  /** Runs of writers that exclude each other, with or without reads that throw. */
  ghost predicate ExclusiveTo(s: System, moves: seq<Move>, t: System, accepts: Version -> bool, blind: bool) {
    && ExclusiveRun(s, moves, accepts) && Exec(s, moves, accepts) == Some(t)
    && (blind || NoFallbackIn(s, moves, accepts))
  }

  /** The exact condition for writers that exclude each other: every run keeps all keys private
      exactly when a key in the first source is private, or no document is ever accepted. If no
      read that looks for a key throws, a key that can be parsed is enough. */
  lemma ExclusivePrivacyExactly(s: System, accepts: Version -> bool, blind: bool)
    requires StartsClean(s)
    ensures (forall moves, t :: ExclusiveTo(s, moves, t, accepts, blind) ==> KeysPrivate(Base(t), |s.history|))
       <==> (if blind then KeyPrivate(s.files) else Guarded(s.files)) || forall doc :: !accepts(doc)
  {
    hide KeysPrivate, ExclusiveRun, NoFallbackIn;
    if (if blind then KeyPrivate(s.files) else Guarded(s.files)) || forall doc :: !accepts(doc) {
      forall moves, t | ExclusiveTo(s, moves, t, accepts, blind) ensures KeysPrivate(Base(t), |s.history|) {
        if forall doc :: !accepts(doc) {
          CleanInv(s, accepts);
          NothingAcceptedNoMixedRead(s, moves, |s.history|, accepts);
          PrivateWithoutMixedRead(s, moves, accepts);
        } else {
          ExclusiveWritersKeepBackup(s, moves, accepts);
        }
      }
    } else {
      var doc :| accepts(doc);
      LeakyExclusiveRun(s, doc, accepts, blind);
    }
  }

  lemma LeakyExclusiveRun(s: System, doc: Version, accepts: Version -> bool, blind: bool)
    requires StartsClean(s) && accepts(doc) && if blind then !KeyPrivate(s.files) else !Guarded(s.files)
    ensures exists moves, t :: ExclusiveTo(s, moves, t, accepts, blind) && !KeysPrivate(Base(t), |s.history|)
  {
    hide Exec, ExclusiveRun, NoFallbackIn, WriteMoves, BlindWriteMoves, Guarded, KeyPrivate;
    var moves := if blind then BlindWriteMoves(s.next, doc) else WriteMoves(s.next, doc);
    if blind {
      BlindWriteLeaks(s, doc, accepts);
    } else {
      UnguardedWriteLeaks(s, doc, accepts);
    }
    var t := Exec(s, moves, accepts).value;
    assert ExclusiveTo(s, moves, t, accepts, blind);
  }

  // ----- Ways to lose the promises -----

  /** From every state with a source: a writer that copies it, is overtaken by two others and then
      places its copy leaves a backup that is neither the current nor the previous version. */
  lemma LateBackupWitness(
    s: System, slow: Version, second: Version, third: Version, initial: nat, accepts: Version -> bool)
    requires ConcurrentReplace.Inv(s, initial, accepts) && s.history != []
    requires accepts(slow) && accepts(second) && accepts(third)
    requires second != s.history[|s.history| - 1] && third != s.history[|s.history| - 1]
    ensures exists t :: Reaches(s, t, accepts) && t.history == s.history + [second, third] && !BackupFresh(Base(t))
  {
    hide StagedMode, BackupMode, Exec, Reaches, WriterSound;
    NextIsFresh(s, initial, accepts);
    assert Temp(s.next + 1) !in s.files && BackupTemp(s.next + 1) !in s.files;
    assert Temp(s.next + 2) !in s.files && BackupTemp(s.next + 2) !in s.files;
    assert s.files[Source].content == Some(s.history[|s.history| - 1]);
    hide ConcurrentReplace.Inv;
    var id, mode := s.next, BackupMode(s.files[Source]);
    EnterResolves(s, slow, accepts);
    var s1 := Resolved(s, slow);
    var s2 := SourceCopied(s1, id, slow, mode, accepts);
    ReachesOn(s, s1, s2, accepts);
    WholeWrite(s2, second, accepts);
    var s3 := Replaced(s2, second);
    ReachesOn(s, s2, s3, accepts);
    WholeWrite(s3, third, accepts);
    var s4 := Replaced(s3, third);
    ReachesOn(s, s3, s4, accepts);
    assert s4.files[BackupTemp(id)].content == s.files[Source].content && s4.history == s.history + [second, third];
    BackupPlaced(s4, id, slow, accepts);
    var t :|
      && Reaches(s4, t, accepts) && t.history == s4.history && t.backedUp
      && Holds(t.files, Backup, s4.files[BackupTemp(id)]);
    ReachesOn(s, s4, t, accepts);
  }

  /** From every state with a readable source without a key: a writer that resolves the backup's
      mode from it, and reads the source after another writer has put a key in it, leaves the key
      in a backup file of that mode. */
  lemma ReadableKeyWitness(s: System, slow: Version, keyed: Version, initial: nat, accepts: Version -> bool)
    requires ConcurrentReplace.Inv(s, initial, accepts)
    requires Source in s.files && !SourceKeyed(s.files) && s.files[Source].mode != PRIVATE_MODE
    requires accepts(slow) && accepts(keyed) && keyed.keyed
    ensures exists t ::
      && Reaches(s, t, accepts) && !BackupsPrivate(Base(t))
      && Holds(t.files, Backup, File(Some(keyed), s.files[Source].mode))
  {
    hide StagedMode, Exec, Reaches, WriterSound;
    NextIsFresh(s, initial, accepts);
    assert Temp(s.next + 1) !in s.files && BackupTemp(s.next + 1) !in s.files;
    hide ConcurrentReplace.Inv;
    var id, mode := s.next, s.files[Source].mode;
    assert BackupMode(s.files[Source]) == mode;
    EnterResolves(s, slow, accepts);
    var s1 := Resolved(s, slow);
    WholeWrite(s1, keyed, accepts);
    var s2 := Replaced(s1, keyed);
    ReachesOn(s, s1, s2, accepts);
    var s3 := SourceCopied(s2, id, slow, mode, accepts);
    ReachesOn(s, s2, s3, accepts);
    BackupPlaced(s3, id, slow, accepts);
    var t :|
      && Reaches(s3, t, accepts) && t.history == s3.history && t.backedUp
      && Holds(t.files, Backup, s3.files[BackupTemp(id)]);
    ReachesOn(s, s3, t, accepts);
  }

  // ----- From which starts the keys are safe -----

  /** The source is readable, a document is accepted, and a key comes from the one or the other. */
  ghost predicate CanLeak(s: System, accepts: Version -> bool) {
    && Source in s.files && s.files[Source].mode != PRIVATE_MODE
    && ((SourceKeyed(s.files) && exists doc :: accepts(doc)) || exists doc :: accepts(doc) && doc.keyed)
  }

  /** The source and all staged documents are private, whatever they hold, and so is every mode
      that was read off the source. */
  ghost predicate ModesPrivate(s: System) {
    && (Source in s.files ==> s.files[Source].mode == PRIVATE_MODE)
    && (forall p :: p in s.files && p.Temp? ==> s.files[p].mode == PRIVATE_MODE)
    && (forall id :: id in s.writers ==> ReadPrivate(s.writers[id].pc))
  }

  predicate ReadPrivate(pc: Pc) {
    pc.ResolveBackupMode? || pc.ReadSource? ==> pc.mode == PRIVATE_MODE
  }

  lemma CallKeepsTempMode(s: System, id: nat, ok: bool, accepts: Version -> bool)
    requires CanMove(s, Call(id, ok), accepts) && s.writers[id].id == id
    requires Source in s.files ==> s.files[Source].mode == PRIVATE_MODE
    requires Temp(id) in s.files ==> s.files[Temp(id)].mode == PRIVATE_MODE
    ensures var t := Moved(s, Call(id, ok), accepts);
      Temp(id) in t.files ==> t.files[Temp(id)].mode == PRIVATE_MODE
  {
  }

  lemma CallKeepsSourceMode(s: System, id: nat, ok: bool, accepts: Version -> bool)
    requires CanMove(s, Call(id, ok), accepts) && s.writers[id].id == id
    requires Source in s.files ==> s.files[Source].mode == PRIVATE_MODE
    requires Temp(id) in s.files ==> s.files[Temp(id)].mode == PRIVATE_MODE
    ensures var t := Moved(s, Call(id, ok), accepts); Source in t.files ==> t.files[Source].mode == PRIVATE_MODE
  {
    if ok && s.writers[id].pc == RenameTemp {
      SourceCallEffect(s, id, accepts);
    } else {
      SourceStays(s, id, ok, accepts);
    }
    hide Moved, Enabled;
  }

  lemma SourceStays(s: System, id: nat, ok: bool, accepts: Version -> bool)
    requires CanMove(s, Call(id, ok), accepts) && !(ok && s.writers[id].pc == RenameTemp)
    ensures SameFile(s, Moved(s, Call(id, ok), accepts), Source)
  {
    StepKeepsSource(View(s, id), Step(ok), Apply(View(s, id), Step(ok), accepts), accepts);
    hide Apply, Enabled;
  }

  lemma CallKeepsReadPrivate(s: System, id: nat, ok: bool, accepts: Version -> bool)
    requires CanMove(s, Call(id, ok), accepts) && ReadPrivate(s.writers[id].pc)
    requires Source in s.files ==> s.files[Source].mode == PRIVATE_MODE
    ensures ReadPrivate(Moved(s, Call(id, ok), accepts).writers[id].pc)
  {
  }

  lemma MoveKeepsModes(s: System, m: Move, accepts: Version -> bool)
    requires CanMove(s, m, accepts) && Numbered(s) && ModesPrivate(s)
    ensures ModesPrivate(Moved(s, m, accepts))
  {
    hide Enabled;
    if m.Call? {
      var t := Moved(s, m, accepts);
      CallKeepsTempMode(s, m.id, m.ok, accepts);
      CallKeepsSourceMode(s, m.id, m.ok, accepts);
      CallKeepsReadPrivate(s, m.id, m.ok, accepts);
      CallKeepsOtherWriters(s, m.id, m.ok, accepts);
      hide Moved;
      forall p | p in t.files && p.Temp? ensures t.files[p].mode == PRIVATE_MODE {
        CallTouchesOwnFiles(s, m.id, m.ok, accepts, p);
      }
    }
  }

  lemma {:induction false} PrivateModesNeverMix(s: System, moves: seq<Move>, accepts: Version -> bool)
    requires Numbered(s) && ModesPrivate(s) && Exec(s, moves, accepts).Some?
    ensures NoMixedRead(s, moves, accepts)
    decreases |moves|
  {
    hide Moved;
    if moves != [] {
      MoveKeepsNumbered(s, moves[0], accepts);
      MoveKeepsModes(s, moves[0], accepts);
      PrivateModesNeverMix(Moved(s, moves[0], accepts), moves[1..], accepts);
    }
  }

  /** Without keys in the history or in what is accepted there is none to be read. */
  ghost predicate NoKeys(s: System, accepts: Version -> bool) {
    (forall v :: v in s.history ==> !v.keyed) && forall doc :: accepts(doc) ==> !doc.keyed
  }

  lemma MoveKeepsNoKeys(s: System, m: Move, initial: nat, accepts: Version -> bool)
    requires CanMove(s, m, accepts) && ConcurrentReplace.Inv(s, initial, accepts) && NoKeys(s, accepts)
    ensures ConcurrentReplace.Inv(Moved(s, m, accepts), initial, accepts) && NoKeys(Moved(s, m, accepts), accepts)
    ensures !MixedRead(s, m)
  {
    MoveKeepsInv(s, m, initial, accepts);
    if m.Call? {
      CallGrowsHistory(s, m.id, m.ok, accepts);
      hide Moved, Enabled, WritersSound;
      var t := Moved(s, m, accepts);
      HistoryBound(s, initial, accepts);
      assert t.history != s.history ==> accepts(t.history[|t.history| - 1]);
    }
  }

  lemma {:induction false} NoKeysNeverMix(s: System, moves: seq<Move>, initial: nat, accepts: Version -> bool)
    requires ConcurrentReplace.Inv(s, initial, accepts) && NoKeys(s, accepts) && Exec(s, moves, accepts).Some?
    ensures NoMixedRead(s, moves, accepts)
    decreases |moves|
  {
    hide Moved, ConcurrentReplace.Inv, NoKeys, MixedRead;
    if moves != [] {
      MoveKeepsNoKeys(s, moves[0], initial, accepts);
      NoKeysNeverMix(Moved(s, moves[0], accepts), moves[1..], initial, accepts);
    }
  }

  lemma LeakyStartLeaks(s: System, accepts: Version -> bool)
    requires StartsClean(s) && CanLeak(s, accepts)
    ensures exists t :: Reaches(s, t, accepts) && !BackupsPrivate(Base(t))
  {
    hide Reaches;
    if SourceKeyed(s.files) && exists doc :: accepts(doc) {
      var doc :| accepts(doc);
      BlindWriteLeaks(s, doc, accepts);
      ExecReaches(s, BlindWriteMoves(s.next, doc), accepts);
    } else {
      var keyed :| accepts(keyed) && keyed.keyed;
      CleanInv(s, accepts);
      ReadableKeyWitness(s, keyed, keyed, |s.history|, accepts);
    }
  }

  /** The exact condition on the start: the backups are private at every point of every
      interleaving exactly when the first source and the accepted documents cannot leak. */
  lemma BackupsPrivateFromStart(s: System, accepts: Version -> bool)
    requires StartsClean(s)
    ensures (forall t :: Reaches(s, t, accepts) ==> BackupsPrivate(Base(t))) <==> !CanLeak(s, accepts)
  {
    hide BackupsPrivate;
    if CanLeak(s, accepts) {
      hide Reaches;
      LeakyStartLeaks(s, accepts);
    } else {
      CleanInv(s, accepts);
      forall t | Reaches(s, t, accepts) ensures BackupsPrivate(Base(t)) {
        var moves :| Exec(s, moves, accepts) == Some(t);
        if forall doc :: !accepts(doc) {
          NothingAcceptedNoMixedRead(s, moves, |s.history|, accepts);
        } else if Source in s.files && s.files[Source].mode != PRIVATE_MODE {
          NoKeysNeverMix(s, moves, |s.history|, accepts);
        } else {
          PrivateModesNeverMix(s, moves, accepts);
        }
        PrivateWithoutMixedRead(s, moves, accepts);
      }
    }
  }

  // ----- From which starts the backup stays fresh -----

  /** Two different versions can follow each other. */
  ghost predicate CanGoStale(s: System, accepts: Version -> bool) {
    exists u, v :: u != v && accepts(v) && (accepts(u) || u in s.history)
  }

  /** The first write, when there is no source. */
  lemma FirstStaging(s: System, id: nat, doc: Version, accepts: Version -> bool)
    requires Source !in s.files && accepts(doc)
    ensures Exec(At(s, Writer(id, doc, OpenTemp), s.files), Calls(id, 6), accepts)
         == Some(At(s, Writer(id, doc, RenameTemp), s.files[Temp(id) := File(Some(doc), PRIVATE_MODE)]))
  {
    hide Exec, Calls, At;
    var w := Writer(id, doc, SetMode);
    var written := s.files[Temp(id) := File(Some(doc), PRIVATE_MODE)];
    Writing(s, id, doc, 3, accepts);
    OneCall(s, w, written, Validate, written, 2, accepts);
    OneCall(s, w.(pc := Validate), written, CheckSource, written, 1, accepts);
    OneCall(s, w.(pc := CheckSource), written, RenameTemp, written, 0, accepts);
    NoCalls(At(s, w.(pc := RenameTemp), written), id, accepts);
  }

  lemma FirstWrite(s: System, doc: Version, accepts: Version -> bool)
    requires Source !in s.files && accepts(doc)
    ensures exists t :: Reaches(s, t, accepts) && t.history == s.history + [doc]
  {
    var id, s0 := s.next, s.(next := s.next + 1);
    var t0 := At(s0, Writer(id, doc, OpenTemp), s0.files);
    assert Moved(s, Enter(doc), accepts) == t0;
    MoveReaches(s, Enter(doc), accepts);
    hide Exec, Calls, Moved, Reaches;
    var s1 := s0.(files := s.files[Temp(id) := File(Some(doc), PRIVATE_MODE)]);
    var t1 := At(s1, Writer(id, doc, RenameTemp), s1.files);
    FirstStaging(s0, id, doc, accepts);
    ExecReaches(t0, Calls(id, 6), accepts);
    assert At(s0, Writer(id, doc, RenameTemp), s1.files) == t1;
    ReachesOn(s, t0, t1, accepts);
    PlacingSource(s1, id, doc, accepts);
    ExecReaches(t1, Calls(id, 1), accepts);
    ReachesOn(s, t1, Exec(t1, Calls(id, 1), accepts).value, accepts);
  }

  lemma DifferentVersionsGoStale(s: System, doc: Version, initial: nat, accepts: Version -> bool)
    requires ConcurrentReplace.Inv(s, initial, accepts) && s.history != []
    requires accepts(doc) && doc != s.history[|s.history| - 1]
    ensures exists t :: Reaches(s, t, accepts) && !BackupFresh(Base(t))
  {
    hide Reaches, ConcurrentReplace.Inv, BackupFresh;
    LateBackupWitness(s, doc, doc, doc, initial, accepts);
  }

  lemma StaleStartGoesStale(s: System, u: Version, v: Version, accepts: Version -> bool)
    requires StartsClean(s) && u != v && accepts(v) && (accepts(u) || u in s.history)
    ensures exists t :: Reaches(s, t, accepts) && !BackupFresh(Base(t))
  {
    hide Reaches, BackupFresh;
    CleanInv(s, accepts);
    if s.history == [] {
      FirstWrite(s, u, accepts);
      var s1 :| Reaches(s, s1, accepts) && s1.history == s.history + [u];
      ReachesKeepsInv(s, s1, |s.history|, accepts);
      hide ConcurrentReplace.Inv;
      DifferentVersionsGoStale(s1, v, |s.history|, accepts);
      var t :| Reaches(s1, t, accepts) && !BackupFresh(Base(t));
      ReachesOn(s, s1, t, accepts);
    } else {
      hide ConcurrentReplace.Inv;
      DifferentVersionsGoStale(s, if v != s.history[0] then v else u, |s.history|, accepts);
    }
  }

  /** With one version only, the backup is that version. */
  lemma OneVersionIsFresh(s: System, t: System, accepts: Version -> bool)
    requires StartsClean(s) && !CanGoStale(s, accepts) && ConcurrentReplace.Inv(t, |s.history|, accepts)
    requires |s.history| <= |t.history| && t.history[..|s.history|] == s.history
    ensures BackupFresh(Base(t))
  {
    hide WritersSound;
    if t.backedUp {
      var b, last := t.files[Backup].content.value, t.history[|t.history| - 1];
      assert b in t.history;
      var i :| 0 <= i < |t.history| && t.history[i] == b;
      assert if i < |s.history| then b == s.history[i] else accepts(b);
      if |t.history| > |s.history| {
        assert accepts(last) && (accepts(b) || b in s.history);
        assert b == last;
      } else {
        assert t.history == s.history;
      }
    }
  }

  lemma {:induction false} HistoryGrows(s: System, moves: seq<Move>, accepts: Version -> bool)
    requires Exec(s, moves, accepts).Some?
    ensures var t := Exec(s, moves, accepts).value;
      |s.history| <= |t.history| && t.history[..|s.history|] == s.history
    decreases |moves|
  {
    hide Apply, Enabled;
    if moves != [] {
      var next := Moved(s, moves[0], accepts);
      if moves[0].Call? {
        CallGrowsHistory(s, moves[0].id, moves[0].ok, accepts);
      }
      hide Moved;
      HistoryGrows(next, moves[1..], accepts);
    }
  }

  /** The exact condition on the start: the backup is fresh at every point of every interleaving
      exactly when no two different versions can follow each other. */
  lemma BackupFreshFromStart(s: System, accepts: Version -> bool)
    requires StartsClean(s)
    ensures (forall t :: Reaches(s, t, accepts) ==> BackupFresh(Base(t))) <==> !CanGoStale(s, accepts)
  {
    hide BackupFresh;
    if CanGoStale(s, accepts) {
      hide Reaches;
      var u, v :| u != v && accepts(v) && (accepts(u) || u in s.history);
      StaleStartGoesStale(s, u, v, accepts);
    } else {
      CleanInv(s, accepts);
      hide CanGoStale;
      forall t | Reaches(s, t, accepts) ensures BackupFresh(Base(t)) {
        var moves :| Exec(s, moves, accepts) == Some(t);
        ExecKeepsInv(s, moves, |s.history|, accepts);
        HistoryGrows(s, moves, accepts);
        OneVersionIsFresh(s, t, accepts);
      }
    }
  }
}
