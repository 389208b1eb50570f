/** Atomic replacement of the config file: temp file, validation, backup, rename. The writes of
    a run come one after another, as the mutation lock wants it; every file-system call may throw
    and the process may die between any two of them. `ConcurrentReplace` drops the lock. */
module ConfigReplace {
  import opened Prelude

  const PRIVATE_MODE := 0x180  // 0o600

  /** A complete file content. `keyed`: the document has an inline provider key. `parseable`: its
      text is JSON within bounds, so that the backup can see the key. */
  datatype Version = Version(text: string, keyed: bool, parseable: bool)

  /** `content` is `None` while the text has only been written in part. */
  datatype File = File(content: Option<Version>, mode: nat)

  /** The random suffix of a temp name is modelled as the number of the write. */
  datatype Path = Source | Backup | Temp(id: nat) | BackupTemp(id: nat)

  datatype Pc =
    | OpenTemp | WriteTemp | CloseTemp | SetMode | Validate | CheckSource
    | StatSource | ResolveBackupMode(mode: nat) | ReadSource(mode: nat)
    | OpenBackup(copy: Version, mode: nat) | WriteBackup(copy: Version, mode: nat)
    | CloseBackup(mode: nat) | SetBackupMode(mode: nat) | RenameBackup | RenameTemp
    | CatchBackup | Catch | Done(ok: bool)

  datatype Writer = Writer(id: nat, doc: Version, pc: Pc)

  /** `history` lists the versions the source path has held, `backedUp` tells whether a backup was
      put in place during the run, `abandoned` the temp files that nobody will remove any more. */
  datatype State = State(
    files: map<Path, File>, writer: Option<Writer>, next: nat,
    history: seq<Version>, backedUp: bool, abandoned: set<Path>)

  /** `Step(ok)` performs the next call of the current write, which throws when `ok` is false. */
  datatype Action = Begin(doc: Version) | Step(ok: bool) | Crash

  function TargetMode(files: map<Path, File>, doc: Version): Option<nat> {
    if doc.keyed then Some(PRIVATE_MODE)
    else if Source in files then Some(files[Source].mode)
    else None
  }

  /** The mode of a backup, from the mode of the source and the text that is read to look for a key. */
  function ResolvedMode(mode: nat, content: Option<Version>): nat {
    if content.Some? && content.value.parseable && content.value.keyed then PRIVATE_MODE else mode
  }

  function BackupMode(source: File): nat {
    ResolvedMode(source.mode, source.content)
  }

  /** `chmodSync` to `mode`, skipped when the mode is already the one the file was created with. */
  function ChmodUnlessPrivate(files: map<Path, File>, p: Path, mode: nat): map<Path, File>
    requires p in files
  {
    if mode == PRIVATE_MODE then files else files[p := files[p].(mode := mode)]
  }

  function Rename(files: map<Path, File>, from: Path, to: Path): map<Path, File>
    requires from in files && from != to
  {
    (files - {from})[to := files[from]]
  }

  function TempsOf(id: nat): set<Path> {
    {Temp(id), BackupTemp(id)}
  }

  predicate Active(s: State) {
    s.writer.Some? && !s.writer.value.pc.Done?
  }

  /** Where a throwing call leads: the backup's own handler first, then the outer one. A read that
      throws while the backup's mode is resolved leads to neither: the mode is then the source's. */
  function Handler(pc: Pc): Pc {
    if pc.OpenBackup? || pc.WriteBackup? || pc.CloseBackup? || pc.SetBackupMode? || pc == RenameBackup then CatchBackup
    else Catch
  }

  predicate Enabled(s: State, act: Action, accepts: Version -> bool) {
    match act
    case Begin(_) => !Active(s)
    case Step(ok) =>
      Active(s) && (s.writer.value.pc == Validate && ok ==> accepts(s.writer.value.doc)) && StepDefined(s, ok)
    case Crash => true
  }

  /** The files that the next call works on exist. */
  predicate StepDefined(s: State, ok: bool)
    requires Active(s)
  {
    var w := s.writer.value;
    ok ==>
      match w.pc
      case WriteTemp => Temp(w.id) in s.files
      case SetMode => Temp(w.id) in s.files
      case RenameTemp => Temp(w.id) in s.files
      case StatSource => Source in s.files
      case ResolveBackupMode(_) => Source in s.files
      case ReadSource(_) => Source in s.files && s.files[Source].content.Some?
      case WriteBackup(_, _) => BackupTemp(w.id) in s.files
      case SetBackupMode(_) => BackupTemp(w.id) in s.files
      case RenameBackup => BackupTemp(w.id) in s.files
      case _ => true
  }

  function Goto(s: State, pc: Pc): State
    requires s.writer.Some?
  {
    s.(writer := Some(s.writer.value.(pc := pc)))
  }

  function Apply(s: State, act: Action, accepts: Version -> bool): State
    requires Enabled(s, act, accepts)
  {
    match act
    case Begin(doc) => s.(writer := Some(Writer(s.next, doc, OpenTemp)), next := s.next + 1)
    case Crash =>
      if Active(s) then s.(writer := None, abandoned := s.abandoned + TempsOf(s.writer.value.id))
      else s.(writer := None)
    case Step(ok) =>
      var w := s.writer.value;
      if w.pc == CatchBackup then
        Goto(if ok then s.(files := s.files - {BackupTemp(w.id)})
             else s.(abandoned := s.abandoned + {BackupTemp(w.id)}), Catch)
      else if w.pc == Catch then
        Goto(if ok then s.(files := s.files - {Temp(w.id)})
             else s.(abandoned := s.abandoned + {Temp(w.id)}), Done(false))
      else if !ok then Goto(s, if w.pc.ResolveBackupMode? then ReadSource(w.pc.mode) else Handler(w.pc))
      else ApplyCall(s)
  }

  /** The effect of a call that succeeds. */
  function ApplyCall(s: State): State
    requires Active(s) && !s.writer.value.pc.Catch? && !s.writer.value.pc.CatchBackup? && StepDefined(s, true)
  {
    var w := s.writer.value;
    match w.pc
    case OpenTemp => Goto(s.(files := s.files[Temp(w.id) := File(None, PRIVATE_MODE)]), WriteTemp)
    case WriteTemp => Goto(s.(files := s.files[Temp(w.id) := s.files[Temp(w.id)].(content := Some(w.doc))]), CloseTemp)
    case CloseTemp => Goto(s, SetMode)
    case SetMode =>
      var target := TargetMode(s.files, w.doc);
      Goto(if target.Some? then s.(files := ChmodUnlessPrivate(s.files, Temp(w.id), target.value)) else s, Validate)
    case Validate => Goto(s, CheckSource)
    case CheckSource => Goto(s, if Source in s.files then StatSource else RenameTemp)
    case StatSource => Goto(s, ResolveBackupMode(s.files[Source].mode))
    case ResolveBackupMode(mode) => Goto(s, ReadSource(ResolvedMode(mode, s.files[Source].content)))
    case ReadSource(mode) => Goto(s, OpenBackup(s.files[Source].content.value, mode))
    case OpenBackup(copy, mode) =>
      Goto(s.(files := s.files[BackupTemp(w.id) := File(None, PRIVATE_MODE)]), WriteBackup(copy, mode))
    case WriteBackup(copy, mode) =>
      Goto(s.(files := s.files[BackupTemp(w.id) := s.files[BackupTemp(w.id)].(content := Some(copy))]),
           CloseBackup(mode))
    case CloseBackup(mode) => Goto(s, SetBackupMode(mode))
    case SetBackupMode(mode) => Goto(s.(files := ChmodUnlessPrivate(s.files, BackupTemp(w.id), mode)), RenameBackup)
    case RenameBackup => Goto(s.(files := Rename(s.files, BackupTemp(w.id), Backup), backedUp := true), RenameTemp)
    case RenameTemp =>
      Goto(s.(files := Rename(s.files, Temp(w.id), Source), history := s.history + [w.doc]), Done(true))
  }

  /** At the start the source, if any, is a complete file, and there are no temp files. */
  ghost predicate Initial(s: State) {
    && s.writer.None? && !s.backedUp && s.abandoned == {}
    && (forall p :: p in s.files ==> p == Source || p == Backup)
    && (Source in s.files <==> |s.history| == 1) && |s.history| <= 1
    && (Source in s.files ==> s.files[Source].content == Some(s.history[0]))
  }

  ghost predicate ValidRun(states: seq<State>, acts: seq<Action>, accepts: Version -> bool) {
    && |states| == |acts| + 1 && Initial(states[0])
    && forall i :: 0 <= i < |acts| ==>
         Enabled(states[i], acts[i], accepts) && states[i + 1] == Apply(states[i], acts[i], accepts)
  }

  // ----- Invariants -----

  /** The source path holds one complete version, the last of the history, and every version
      after the first one was accepted by the validator. */
  ghost predicate SourceComplete(s: State, initial: nat, accepts: Version -> bool) {
    && (Source in s.files <==> s.history != [])
    && (Source in s.files ==> s.files[Source].content == Some(s.history[|s.history| - 1]))
    && initial <= |s.history|
    && (forall i :: initial <= i < |s.history| ==> accepts(s.history[i]))
  }

  /** The backup is the current source version or the one before it. */
  ghost predicate BackupFresh(s: State) {
    s.backedUp ==>
      && Backup in s.files && s.files[Backup].content.Some? && s.history != []
      && var b := s.files[Backup].content.value;
         || b == s.history[|s.history| - 1]
         || (|s.history| >= 2 && b == s.history[|s.history| - 2])
  }

  ghost predicate Holds(files: map<Path, File>, p: Path, f: File) {
    p in files && files[p] == f
  }

  ghost predicate TempWritten(s: State, w: Writer) {
    Temp(w.id) in s.files && s.files[Temp(w.id)].content == Some(w.doc)
  }

  /** The validated temp file is in place, and there is a source to back up. */
  ghost predicate BackingUp(s: State, w: Writer, accepts: Version -> bool) {
    TempWritten(s, w) && accepts(w.doc) && Source in s.files
  }

  /** What the current write has established when it reaches its program counter. */
  ghost predicate WriterProgress(s: State, accepts: Version -> bool) {
    s.writer.Some? ==> s.writer.value.id < s.next && Established(s, s.writer.value, accepts)
  }

  ghost predicate Established(s: State, w: Writer, accepts: Version -> bool) {
    match w.pc
    case WriteTemp => Holds(s.files, Temp(w.id), File(None, PRIVATE_MODE))
    case CloseTemp => TempWritten(s, w)
    case SetMode => TempWritten(s, w)
    case Validate => TempWritten(s, w)
    case CheckSource => TempWritten(s, w) && accepts(w.doc)
    case StatSource => BackingUp(s, w, accepts)
    case ResolveBackupMode(mode) => BackingUp(s, w, accepts) && mode == s.files[Source].mode
    case ReadSource(_) => BackingUp(s, w, accepts)
    case OpenBackup(copy, _) => BackingUp(s, w, accepts) && s.files[Source].content == Some(copy)
    case WriteBackup(copy, _) =>
      && BackingUp(s, w, accepts) && s.files[Source].content == Some(copy)
      && Holds(s.files, BackupTemp(w.id), File(None, PRIVATE_MODE))
    case CloseBackup(_) =>
      BackingUp(s, w, accepts) && Holds(s.files, BackupTemp(w.id), File(s.files[Source].content, PRIVATE_MODE))
    case SetBackupMode(_) =>
      BackingUp(s, w, accepts) && Holds(s.files, BackupTemp(w.id), File(s.files[Source].content, PRIVATE_MODE))
    case RenameBackup =>
      && BackingUp(s, w, accepts)
      && BackupTemp(w.id) in s.files && s.files[BackupTemp(w.id)].content == s.files[Source].content
    case RenameTemp =>
      && TempWritten(s, w) && accepts(w.doc)
      && (Source in s.files ==> s.backedUp && Backup in s.files && s.files[Backup].content == s.files[Source].content)
    case _ => true
  }

  /** Temp files belong to the write under way or are abandoned. */
  ghost predicate NoLitter(s: State) {
    forall p :: p in s.files && (p.Temp? || p.BackupTemp?) ==>
      p in s.abandoned || (Active(s) && s.writer.value.id == p.id)
  }

  /** ... and the backup temp only to a write in its backup phase. */
  ghost predicate NoBackupLitter(s: State) {
    forall n :: BackupTemp(n) in s.files ==>
      || BackupTemp(n) in s.abandoned
      || (Active(s) && s.writer.value.id == n &&
          (Handler(s.writer.value.pc) == CatchBackup || s.writer.value.pc == CatchBackup))
  }

  ghost predicate Private(f: File) {
    f.content.None? || f.content.value.keyed ==> f.mode == PRIVATE_MODE
  }

  /** Every file the run has put in place is private if its content has an inline key. Only a
      source that was there before the run may have another mode. */
  ghost predicate KeysPrivate(s: State, initial: nat) {
    DocumentsPrivate(s, initial) && BackupsPrivate(s)
  }

  /** ... the documents it wrote, ... */
  ghost predicate DocumentsPrivate(s: State, initial: nat) {
    && (forall p :: p in s.files && p.Temp? ==> Private(s.files[p]))
    && (Source in s.files && |s.history| > initial ==> Private(s.files[Source]))
  }

  /** ... and the backups it made. */
  ghost predicate BackupsPrivate(s: State) {
    && (forall p :: p in s.files && p.BackupTemp? ==> Private(s.files[p]))
    && (s.backedUp && Backup in s.files ==> Private(s.files[Backup]))
  }

  predicate SourceKeyed(files: map<Path, File>) {
    Source in files && files[Source].content.Some? && files[Source].content.value.keyed
  }

  /** A key in the source is private. */
  predicate KeyPrivate(files: map<Path, File>) {
    SourceKeyed(files) ==> files[Source].mode == PRIVATE_MODE
  }

  /** A key in the source is private, or at least one that a backup can see. */
  predicate Guarded(files: map<Path, File>) {
    SourceKeyed(files) ==> files[Source].mode == PRIVATE_MODE || files[Source].content.value.parseable
  }

  /** The read that looks for a key throws, and the backup gets the mode of the source. */
  predicate FallsBack(s: State, act: Action) {
    act == Step(false) && s.writer.Some? && s.writer.value.pc.ResolveBackupMode?
  }

  /** The mode of the backup that is being made is private if the source has a key. */
  ghost predicate ModeGuarded(s: State) {
    s.writer.Some? && SourceKeyed(s.files) ==>
      match s.writer.value.pc
      case ReadSource(mode) => mode == PRIVATE_MODE
      case OpenBackup(_, mode) => mode == PRIVATE_MODE
      case WriteBackup(_, mode) => mode == PRIVATE_MODE
      case CloseBackup(mode) => mode == PRIVATE_MODE
      case SetBackupMode(mode) => mode == PRIVATE_MODE
      case _ => true
  }

  ghost predicate Inv(s: State, initial: nat, accepts: Version -> bool) {
    && SourceComplete(s, initial, accepts) && BackupFresh(s) && WriterProgress(s, accepts)
    && NoLitter(s) && NoBackupLitter(s) && DocumentsPrivate(s, initial)
  }

  /** What is kept in addition when the run starts with a guarded source. */
  ghost predicate GuardInv(s: State) {
    Guarded(s.files) && BackupsPrivate(s) && ModeGuarded(s)
  }

  /** The next call of the current write is an ordinary one, not a handler, and succeeds. */
  ghost predicate CallReady(s: State, accepts: Version -> bool) {
    Enabled(s, Step(true), accepts) && !s.writer.value.pc.Catch? && !s.writer.value.pc.CatchBackup?
  }

  lemma CallKeepsSource(s: State, initial: nat, accepts: Version -> bool)
    requires CallReady(s, accepts)
    requires SourceComplete(s, initial, accepts) && WriterProgress(s, accepts)
    ensures SourceComplete(ApplyCall(s), initial, accepts)
  {
  }

  lemma CallKeepsBackup(s: State, initial: nat, accepts: Version -> bool)
    requires CallReady(s, accepts)
    requires SourceComplete(s, initial, accepts) && BackupFresh(s) && WriterProgress(s, accepts)
    ensures BackupFresh(ApplyCall(s))
  {
  }

  /** The calls before the backup. */
  predicate EarlyCall(pc: Pc) {
    pc == OpenTemp || pc == WriteTemp || pc == CloseTemp || pc == SetMode || pc == Validate || pc == CheckSource
  }

  lemma EarlyCallKeepsProgress(s: State, initial: nat, accepts: Version -> bool)
    requires CallReady(s, accepts) && EarlyCall(s.writer.value.pc)
    requires SourceComplete(s, initial, accepts) && WriterProgress(s, accepts)
    ensures WriterProgress(ApplyCall(s), accepts)
  {
  }

  /** The calls that make the copy for the backup. */
  predicate CopyCall(pc: Pc) {
    pc == StatSource || pc.ResolveBackupMode? || pc.ReadSource? || pc.OpenBackup? || pc.WriteBackup?
  }

  lemma CopyCallKeepsProgress(s: State, initial: nat, accepts: Version -> bool)
    requires CallReady(s, accepts) && CopyCall(s.writer.value.pc)
    requires SourceComplete(s, initial, accepts) && WriterProgress(s, accepts)
    ensures WriterProgress(ApplyCall(s), accepts)
  {
  }

  lemma LateCallKeepsProgress(s: State, initial: nat, accepts: Version -> bool)
    requires CallReady(s, accepts) && !EarlyCall(s.writer.value.pc) && !CopyCall(s.writer.value.pc)
    requires SourceComplete(s, initial, accepts) && WriterProgress(s, accepts)
    ensures WriterProgress(ApplyCall(s), accepts)
  {
  }

  lemma CallKeepsTidy(s: State, accepts: Version -> bool)
    requires CallReady(s, accepts)
    requires NoLitter(s) && NoBackupLitter(s)
    ensures NoLitter(ApplyCall(s))
  {
  }

  lemma CallKeepsBackupTidy(s: State, accepts: Version -> bool)
    requires CallReady(s, accepts)
    requires NoBackupLitter(s)
    ensures NoBackupLitter(ApplyCall(s))
  {
  }

  lemma CallKeepsDocumentsPrivate(s: State, initial: nat, accepts: Version -> bool)
    requires CallReady(s, accepts)
    requires WriterProgress(s, accepts) && DocumentsPrivate(s, initial)
    ensures DocumentsPrivate(ApplyCall(s), initial)
  {
  }

  lemma CallKeepsGuard(s: State, initial: nat, accepts: Version -> bool)
    requires CallReady(s, accepts)
    requires WriterProgress(s, accepts) && DocumentsPrivate(s, initial) && Guarded(s.files)
    ensures Guarded(ApplyCall(s).files) && (KeyPrivate(s.files) ==> KeyPrivate(ApplyCall(s).files))
  {
  }

  lemma CallKeepsModeGuarded(s: State, initial: nat, accepts: Version -> bool)
    requires CallReady(s, accepts)
    requires SourceComplete(s, initial, accepts) && WriterProgress(s, accepts) && GuardInv(s)
    ensures ModeGuarded(ApplyCall(s))
  {
  }

  lemma CallKeepsBackupsPrivate(s: State, initial: nat, accepts: Version -> bool)
    requires CallReady(s, accepts)
    requires SourceComplete(s, initial, accepts) && WriterProgress(s, accepts) && GuardInv(s)
    ensures BackupsPrivate(ApplyCall(s))
  {
  }

  /** `t` differs from `s` at most by missing temp files and by its writer. */
  ghost predicate OnlyTempsDropped(s: State, t: State) {
    && (forall p :: p in t.files ==> p in s.files && t.files[p] == s.files[p])
    && (Source in s.files ==> Source in t.files) && (Backup in s.files ==> Backup in t.files)
    && t.history == s.history && t.backedUp == s.backedUp
  }

  lemma DroppingTempsKeeps(s: State, t: State, initial: nat, accepts: Version -> bool)
    requires SourceComplete(s, initial, accepts) && BackupFresh(s) && DocumentsPrivate(s, initial)
    requires OnlyTempsDropped(s, t)
    ensures SourceComplete(t, initial, accepts) && BackupFresh(t) && DocumentsPrivate(t, initial)
    ensures Guarded(s.files) && BackupsPrivate(s) ==> Guarded(t.files) && BackupsPrivate(t)
    ensures KeyPrivate(s.files) ==> KeyPrivate(t.files)
  {
  }

  lemma FailureKeepsTidy(s: State, ok: bool, accepts: Version -> bool)
    requires NoLitter(s) && NoBackupLitter(s) && Enabled(s, Step(ok), accepts)
    requires !ok || s.writer.value.pc.Catch? || s.writer.value.pc.CatchBackup?
    ensures NoLitter(Apply(s, Step(ok), accepts)) && NoBackupLitter(Apply(s, Step(ok), accepts))
  {
  }

  lemma FailureDropsTemps(s: State, ok: bool, accepts: Version -> bool)
    requires Enabled(s, Step(ok), accepts) && WriterProgress(s, accepts)
    requires !ok || s.writer.value.pc.Catch? || s.writer.value.pc.CatchBackup?
    ensures OnlyTempsDropped(s, Apply(s, Step(ok), accepts)) && WriterProgress(Apply(s, Step(ok), accepts), accepts)
  {
  }

  /** A call that throws only moves to the handler; the handlers only delete temp files. */
  lemma FailureKeepsInv(s: State, ok: bool, initial: nat, accepts: Version -> bool)
    requires Inv(s, initial, accepts) && Enabled(s, Step(ok), accepts)
    requires !ok || s.writer.value.pc.Catch? || s.writer.value.pc.CatchBackup?
    ensures Inv(Apply(s, Step(ok), accepts), initial, accepts)
    ensures OnlyTempsDropped(s, Apply(s, Step(ok), accepts))
  {
    var t := Apply(s, Step(ok), accepts);
    FailureDropsTemps(s, ok, accepts);
    FailureKeepsTidy(s, ok, accepts);
    hide Apply, Enabled, NoLitter, NoBackupLitter, SourceComplete, BackupFresh, DocumentsPrivate;
    hide OnlyTempsDropped;
    DroppingTempsKeeps(s, t, initial, accepts);
  }

  lemma StepKeepsInv(s: State, act: Action, initial: nat, accepts: Version -> bool)
    requires Inv(s, initial, accepts) && Enabled(s, act, accepts)
    ensures Inv(Apply(s, act, accepts), initial, accepts)
  {
    match act
    case Begin(_) =>
    case Crash =>
    case Step(ok) =>
      if !ok || s.writer.value.pc.Catch? || s.writer.value.pc.CatchBackup? {
        FailureKeepsInv(s, ok, initial, accepts);
      } else {
        CallKeepsSource(s, initial, accepts);
        CallKeepsBackup(s, initial, accepts);
        if EarlyCall(s.writer.value.pc) {
          EarlyCallKeepsProgress(s, initial, accepts);
        } else if CopyCall(s.writer.value.pc) {
          CopyCallKeepsProgress(s, initial, accepts);
        } else {
          LateCallKeepsProgress(s, initial, accepts);
        }
        CallKeepsTidy(s, accepts);
        CallKeepsBackupTidy(s, accepts);
        CallKeepsDocumentsPrivate(s, initial, accepts);
      }
  }

  lemma StepKeepsGuard(s: State, act: Action, initial: nat, accepts: Version -> bool)
    requires Inv(s, initial, accepts) && GuardInv(s) && Enabled(s, act, accepts)
    requires KeyPrivate(s.files) || !FallsBack(s, act)
    ensures GuardInv(Apply(s, act, accepts)) && (KeyPrivate(s.files) ==> KeyPrivate(Apply(s, act, accepts).files))
  {
    match act
    case Begin(_) =>
    case Crash =>
    case Step(ok) =>
      if !ok || s.writer.value.pc.Catch? || s.writer.value.pc.CatchBackup? {
        FailureKeepsGuard(s, ok, initial, accepts);
      } else {
        CallKeepsGuard(s, initial, accepts);
        CallKeepsModeGuarded(s, initial, accepts);
        CallKeepsBackupsPrivate(s, initial, accepts);
      }
  }

  lemma FailureKeepsGuard(s: State, ok: bool, initial: nat, accepts: Version -> bool)
    requires Inv(s, initial, accepts) && GuardInv(s) && Enabled(s, Step(ok), accepts)
    requires !ok || s.writer.value.pc.Catch? || s.writer.value.pc.CatchBackup?
    requires KeyPrivate(s.files) || !FallsBack(s, Step(ok))
    ensures var t := Apply(s, Step(ok), accepts); GuardInv(t) && (KeyPrivate(s.files) ==> KeyPrivate(t.files))
  {
    var t := Apply(s, Step(ok), accepts);
    FailureKeepsInv(s, ok, initial, accepts);
    FailureKeepsModeGuarded(s, ok, accepts);
    hide Apply, Enabled, BackupsPrivate, Guarded, KeyPrivate, ModeGuarded, OnlyTempsDropped, FallsBack;
    DroppingTempsKeeps(s, t, initial, accepts);
  }

  lemma FailureKeepsModeGuarded(s: State, ok: bool, accepts: Version -> bool)
    requires WriterProgress(s, accepts) && ModeGuarded(s) && Enabled(s, Step(ok), accepts)
    requires !ok || s.writer.value.pc.Catch? || s.writer.value.pc.CatchBackup?
    requires KeyPrivate(s.files) || !FallsBack(s, Step(ok))
    ensures ModeGuarded(Apply(s, Step(ok), accepts))
  {
  }

  lemma {:induction false} RunKeepsInv(states: seq<State>, acts: seq<Action>, accepts: Version -> bool, k: nat)
    requires ValidRun(states, acts, accepts) && k < |states|
    ensures Inv(states[k], |states[0].history|, accepts)
  {
    if k > 0 {
      RunKeepsInv(states, acts, accepts, k - 1);
      StepKeepsInv(states[k - 1], acts[k - 1], |states[0].history|, accepts);
    }
  }

  /** In the first `k` steps no read that looks for a key throws. */
  ghost predicate NoFallback(states: seq<State>, acts: seq<Action>, k: nat) {
    k <= |acts| <= |states| && forall i :: 0 <= i < k ==> !FallsBack(states[i], acts[i])
  }

  lemma {:induction false} RunKeepsGuard(states: seq<State>, acts: seq<Action>, accepts: Version -> bool, k: nat)
    requires ValidRun(states, acts, accepts) && k < |states|
    requires KeyPrivate(states[0].files) || NoFallback(states, acts, k)
    requires Guarded(states[0].files)
    ensures GuardInv(states[k]) && (KeyPrivate(states[0].files) ==> KeyPrivate(states[k].files))
  {
    if k > 0 {
      RunKeepsGuard(states, acts, accepts, k - 1);
      RunKeepsInv(states, acts, accepts, k - 1);
      hide Enabled, Apply, Inv, GuardInv, Initial, KeyPrivate, FallsBack;
      StepKeepsGuard(states[k - 1], acts[k - 1], |states[0].history|, accepts);
    }
  }

  // ----- Temp files that nobody removes -----

  /** With `act` the temp file `p` loses its last chance to be removed: its write dies, or the unlink
      of that file throws. */
  ghost predicate GivesUp(s: State, act: Action, p: Path) {
    && Active(s) && (p == Temp(s.writer.value.id) || p == BackupTemp(s.writer.value.id))
    && (|| act.Crash?
        || (act == Step(false) && s.writer.value.pc == if p.Temp? then Catch else CatchBackup))
  }

  ghost predicate GivenUpBefore(states: seq<State>, acts: seq<Action>, k: nat, p: Path) {
    k <= |acts| <= |states| && exists j :: 0 <= j < k && GivesUp(states[j], acts[j], p)
  }

  lemma StepAbandons(s: State, act: Action, accepts: Version -> bool, p: Path)
    requires Enabled(s, act, accepts)
    ensures p in Apply(s, act, accepts).abandoned <==> p in s.abandoned || GivesUp(s, act, p)
  {
  }

  /** Exactly the temp files that were given up in an earlier step count as abandoned. */
  lemma {:induction false} AbandonedExactly(
    states: seq<State>, acts: seq<Action>, accepts: Version -> bool, k: nat, p: Path)
    requires ValidRun(states, acts, accepts) && k < |states|
    ensures p in states[k].abandoned <==> GivenUpBefore(states, acts, k, p)
  {
    hide Enabled, Apply, GivesUp;
    if k > 0 {
      AbandonedExactly(states, acts, accepts, k - 1, p);
      StepAbandons(states[k - 1], acts[k - 1], accepts, p);
    }
  }

  // ----- Results -----

  /** At every step of every run, with throws and crashes anywhere: the source path holds one
      complete version, which was there at the start or was accepted by the validator; once a
      backup was made it is the current or the previous version; a document with an inline key is
      private, and so is a backup with one if a key in the first source was private, or could be
      parsed and no read that looks for it threw; and every temp file belongs to the write under
      way or to one that died or whose unlink of that very file threw. */
  lemma ReplacementSafety(states: seq<State>, acts: seq<Action>, accepts: Version -> bool, k: nat)
    requires ValidRun(states, acts, accepts) && k < |states|
    ensures SourceComplete(states[k], |states[0].history|, accepts)
    ensures BackupFresh(states[k]) && DocumentsPrivate(states[k], |states[0].history|)
    ensures forall p :: p in states[k].files && (p.Temp? || p.BackupTemp?) ==>
      (Active(states[k]) && states[k].writer.value.id == p.id) || GivenUpBefore(states, acts, k, p)
    ensures KeyPrivate(states[0].files) || (Guarded(states[0].files) && NoFallback(states, acts, k)) ==>
      KeysPrivate(states[k], |states[0].history|)
  {
    RunKeepsInv(states, acts, accepts, k);
    forall p ensures p in states[k].abandoned ==> GivenUpBefore(states, acts, k, p) {
      AbandonedExactly(states, acts, accepts, k, p);
    }
    if KeyPrivate(states[0].files) || (Guarded(states[0].files) && NoFallback(states, acts, k)) {
      RunKeepsGuard(states, acts, accepts, k);
    }
  }

  ghost predicate SameSource(s: State, t: State) {
    && t.history == s.history
    && (Source in t.files <==> Source in s.files)
    && (Source in s.files ==> t.files[Source] == s.files[Source])
  }

  /** `act` is the final rename of a write. */
  ghost predicate Replaces(s: State, act: Action) {
    act == Step(true) && s.writer.Some? && s.writer.value.pc == RenameTemp
  }

  lemma StepKeepsSource(s: State, act: Action, t: State, accepts: Version -> bool)
    requires Enabled(s, act, accepts) && t == Apply(s, act, accepts) && !Replaces(s, act)
    ensures SameSource(s, t)
  {
  }

  /** Only the final rename of a write changes the source: between any two points of a run with
      no such step, writes may begin, fail or die, and the source file stays exactly what it was. */
  lemma {:induction false} FailedWritesKeepSource(
    states: seq<State>, acts: seq<Action>, accepts: Version -> bool, i: nat, k: nat)
    requires ValidRun(states, acts, accepts) && i <= k < |states|
    requires forall j :: i <= j < k ==> !Replaces(states[j], acts[j])
    ensures SameSource(states[i], states[k])
  {
    hide Enabled, Apply, Initial, Replaces;
    if k > i {
      FailedWritesKeepSource(states, acts, accepts, i, k - 1);
      StepKeepsSource(states[k - 1], acts[k - 1], states[k], accepts);
    }
  }

  /** The writer at `k` is the one with number `id`, and it has not succeeded. */
  ghost predicate Unfinished(states: seq<State>, k: nat, id: nat) {
    k < |states| && states[k].writer.Some? && states[k].writer.value.id == id && states[k].writer.value.pc != Done(true)
  }

  lemma {:induction false} NumbersGrow(states: seq<State>, acts: seq<Action>, accepts: Version -> bool, i: nat, k: nat)
    requires ValidRun(states, acts, accepts) && i <= k < |states|
    ensures states[i].next <= states[k].next
  {
    if k > i {
      NumbersGrow(states, acts, accepts, i, k - 1);
    }
  }

  /** One step back an unfinished write was unfinished too, and the step was no final rename. */
  lemma UnfinishedBefore(s: State, act: Action, t: State, accepts: Version -> bool, id: nat)
    requires Enabled(s, act, accepts) && t == Apply(s, act, accepts) && id < s.next
    requires t.writer.Some? && t.writer.value.id == id && t.writer.value.pc != Done(true)
    ensures s.writer.Some? && s.writer.value.id == id && s.writer.value.pc != Done(true) && !Replaces(s, act)
  {
  }

  /** A write that has not succeeded, be it under way or failed, with or without clean-up, leaves
      the source file exactly what it was when the write began. */
  lemma {:induction false} UnfinishedWriteKeepsSource(
    states: seq<State>, acts: seq<Action>, accepts: Version -> bool, i: nat, k: nat)
    requires ValidRun(states, acts, accepts) && i < k < |states| && acts[i].Begin?
    requires Unfinished(states, k, states[i].next)
    ensures SameSource(states[i], states[k])
    decreases k
  {
    hide Enabled, Apply, Initial, Replaces;
    if k == i + 1 {
      BeginKeepsSource(states[i], acts[i], states[k], accepts);
    } else {
      BeginTakesNumber(states[i], acts[i], states[i + 1], accepts);
      NumbersGrow(states, acts, accepts, i + 1, k - 1);
      UnfinishedBefore(states[k - 1], acts[k - 1], states[k], accepts, states[i].next);
      StepKeepsSource(states[k - 1], acts[k - 1], states[k], accepts);
      UnfinishedWriteKeepsSource(states, acts, accepts, i, k - 1);
    }
  }

  lemma BeginKeepsSource(s: State, act: Action, t: State, accepts: Version -> bool)
    requires Enabled(s, act, accepts) && t == Apply(s, act, accepts) && act.Begin?
    ensures SameSource(s, t)
  {
  }

  lemma BeginTakesNumber(s: State, act: Action, t: State, accepts: Version -> bool)
    requires Enabled(s, act, accepts) && t == Apply(s, act, accepts) && act.Begin?
    ensures t.next == s.next + 1
  {
  }

  /** A write that is over has left a temp file only if the unlink of that file threw. */
  lemma FailedWriteLeavesNoTemp(states: seq<State>, acts: seq<Action>, accepts: Version -> bool, k: nat, p: Path)
    requires ValidRun(states, acts, accepts) && k < |states|
    requires states[k].writer.Some? && states[k].writer.value.pc.Done? && p in TempsOf(states[k].writer.value.id)
    requires !GivenUpBefore(states, acts, k, p)
    ensures p !in states[k].files
  {
    RunKeepsInv(states, acts, accepts, k);
    AbandonedExactly(states, acts, accepts, k, p);
  }

  /** A write that succeeds on an existing source leaves the version it replaced as the backup. */
  lemma SuccessfulWriteBacksUp(states: seq<State>, acts: seq<Action>, accepts: Version -> bool, k: nat)
    requires ValidRun(states, acts, accepts) && k < |acts|
    requires acts[k] == Step(true) && Active(states[k]) && states[k].writer.value.pc == RenameTemp
    ensures states[k + 1].history == states[k].history + [states[k].writer.value.doc]
    ensures Source in states[k + 1].files && states[k + 1].files[Source].content == Some(states[k].writer.value.doc)
    ensures Source in states[k].files ==>
      Backup in states[k + 1].files && states[k + 1].files[Backup].content == states[k].files[Source].content
  {
    RunKeepsInv(states, acts, accepts, k);
  }

  /** No write gets stuck: in every reachable state the next call of the write under way can
      happen, and it can also throw. */
  lemma NeverStuck(states: seq<State>, acts: seq<Action>, accepts: Version -> bool, k: nat)
    requires ValidRun(states, acts, accepts) && k < |states| && Active(states[k])
    ensures Enabled(states[k], Step(false), accepts)
    ensures states[k].writer.value.pc != Validate ==> Enabled(states[k], Step(true), accepts)
  {
    RunKeepsInv(states, acts, accepts, k);
  }

  // ----- One write from start to end -----

  /** The calls of a write that may throw. */
  datatype Call =
    | OpenTempCall | WriteTempCall | CloseTempCall | ModeCall | BackupPrepareCall | LookForKeyCall | BackupOpenCall
    | BackupWriteCall | BackupCloseCall | BackupModeCall | BackupRenameCall | RenameCall
    | UnlinkTempCall | UnlinkBackupTempCall

  /** The directory of the config file, and a writer that does not die. `throws` tells which
      calls throw, the best-effort clean-up of the handlers included. */
  class ConfigDirectory {
    var files: map<Path, File>

    constructor (files: map<Path, File>)
      ensures this.files == files
    {
      this.files := files;
    }

    /** `writeConfigBackupSnapshot`: the backup is in place, or nothing has changed but for a temp
        file that could not be unlinked. */
    method WriteBackupSnapshot(id: nat, throws: Call -> bool) returns (ok: bool)
      requires Source in files && files[Source].content.Some? && BackupTemp(id) !in files
      modifies this
      ensures ok <==> !throws(BackupPrepareCall) && !throws(BackupOpenCall) && !throws(BackupWriteCall)
                      && !throws(BackupCloseCall) && !throws(BackupModeCall) && !throws(BackupRenameCall)
      ensures ok ==> files == BackedUp(old(files), throws(LookForKeyCall))
      ensures !ok ==> files - {BackupTemp(id)} == old(files)
      ensures !throws(UnlinkBackupTempCall) ==> BackupTemp(id) !in files
    {
      ok := false;
      if throws(BackupPrepareCall) {
        return;
      }
      var mode, copy, temp := files[Source].mode, files[Source].content, BackupTemp(id);
      if !throws(LookForKeyCall) {
        mode := ResolvedMode(mode, files[Source].content);
      }
      label Try: {
        if throws(BackupOpenCall) { break Try; }
        files := files[temp := File(None, PRIVATE_MODE)];
        if throws(BackupWriteCall) { break Try; }
        files := files[temp := files[temp].(content := copy)];
        if throws(BackupCloseCall) || throws(BackupModeCall) { break Try; }
        files := ChmodUnlessPrivate(files, temp, mode);
        if throws(BackupRenameCall) { break Try; }
        files := Rename(files, temp, Backup);
        ok := true;
      }
      if !ok && !throws(UnlinkBackupTempCall) {
        files := files - {temp};
      }
    }

    /** The first half of the write's `try` block: fill the temp file and give it its mode. */
    method StageTemp(id: nat, doc: Version, throws: Call -> bool) returns (ok: bool)
      requires Temp(id) !in files
      modifies this
      ensures ok <==> !throws(OpenTempCall) && !throws(WriteTempCall) && !throws(CloseTempCall) && !throws(ModeCall)
      ensures files - {Temp(id)} == old(files)
      ensures ok ==>
        Temp(id) in files && files[Temp(id)] == File(Some(doc), TargetMode(old(files), doc).GetOr(PRIVATE_MODE))
    {
      var temp := Temp(id);
      if throws(OpenTempCall) { return false; }
      files := files[temp := File(None, PRIVATE_MODE)];
      if throws(WriteTempCall) { return false; }
      files := files[temp := files[temp].(content := Some(doc))];
      if throws(CloseTempCall) || throws(ModeCall) { return false; }
      var target := TargetMode(files, doc);
      if target.Some? {
        files := ChmodUnlessPrivate(files, temp, target.value);
      }
      return true;
    }

    /** `writeConfigJsonDocumentAtomically`: all or nothing at the source path. A failed write
        changes nothing but the backup file, if that was already renamed, and leaves a temp file
        only if it could not unlink it. */
    method WriteAtomically(id: nat, doc: Version, accepts: Version -> bool, throws: Call -> bool) returns (ok: bool)
      requires Temp(id) !in files && BackupTemp(id) !in files
      requires Source in files ==> files[Source].content.Some?
      modifies this
      ensures (forall c :: !throws(c)) ==> (ok <==> accepts(doc))
      ensures ok ==> accepts(doc)
      ensures ok ==> files == Installed(old(files), doc, throws(LookForKeyCall))
      ensures !ok ==> AtMostBackedUp(files - {Temp(id), BackupTemp(id)}, old(files), throws(LookForKeyCall))
      ensures !throws(UnlinkTempCall) ==> Temp(id) !in files
      ensures !throws(UnlinkBackupTempCall) ==> BackupTemp(id) !in files
    {
      ok := false;
      ghost var before := files;
      label Try: {
        var staged := StageTemp(id, doc, throws);
        if !staged || !accepts(doc) {
          assert files - {Temp(id), BackupTemp(id)} == before;
          break Try;
        }
        ghost var withTemp := files;
        if Source in files {
          var backedUp := WriteBackupSnapshot(id, throws);
          if !backedUp {
            SameWithoutTemps(files, withTemp, before, id);
            break Try;
          }
        }
        assert files - {Temp(id)} == BackedUp(before, throws(LookForKeyCall));
        if throws(RenameCall) {
          assert files - {Temp(id), BackupTemp(id)} == BackedUp(before, throws(LookForKeyCall));
          break Try;
        }
        files := Rename(files, Temp(id), Source);
        ok := true;
      }
      if !ok && !throws(UnlinkTempCall) {
        ghost var failed := files;
        files := files - {Temp(id)};
        assert files - {Temp(id), BackupTemp(id)} == failed - {Temp(id), BackupTemp(id)};
      }
    }
  }

  lemma SameWithoutTemps(files: map<Path, File>, withTemp: map<Path, File>, before: map<Path, File>, id: nat)
    requires files - {BackupTemp(id)} == withTemp && withTemp - {Temp(id)} == before
    ensures files - {Temp(id), BackupTemp(id)} == before
  {
    assert files - {Temp(id), BackupTemp(id)} == (files - {BackupTemp(id)}) - {Temp(id)};
  }

  /** The directory after its source was backed up, if it has one. `blind`: the read that looks for
      a key threw. */
  function BackedUp(files: map<Path, File>, blind: bool): map<Path, File> {
    if Source !in files then files
    else
      files[Backup := File(files[Source].content, if blind then files[Source].mode else BackupMode(files[Source]))]
  }

  predicate AtMostBackedUp(files: map<Path, File>, before: map<Path, File>, blind: bool) {
    files == before || files == BackedUp(before, blind)
  }

  /** ... and after `doc` has then taken its place. */
  function Installed(files: map<Path, File>, doc: Version, blind: bool): map<Path, File> {
    BackedUp(files, blind)[Source := File(Some(doc), TargetMode(files, doc).GetOr(PRIVATE_MODE))]
  }
}
