/** Several processes bring one SQLite file up to date at start: lock, check, back up, stamp,
    upgrade, prune. Any of them may fail or be killed anywhere. */
module StartupMigration {
  import opened Backups
  import opened Options

  type Pid = nat

  /** What `infer_legacy_stamp_revision` finds in a database without a revision. */
  datatype Fingerprint = NoLegacyTables | Legacy(revision: nat) | Ambiguous

  /** The database file; `rows` stands for everything stored in it. */
  datatype Db = Db(present: bool, revision: Option<nat>, tables: bool, fingerprint: Fingerprint, rows: nat)

  datatype Config = Config(head: nat, known: set<nat>, generations: nat)

  /** Where a process is. `was` is the database as the process read it under the lock. */
  datatype Process =
    | Waiting(auto: bool)
    | Inside(auto: bool)
    | BackingUp(was: Db, stamp: Option<nat>, file: BackupName)
    | Stamping(was: Db, target: nat)
    | Upgrading(was: Db)
    | Checking(was: Db)
    | Pruning
    | Returned
    | Failed

  /** A write that a migration made, with the database it had read, the backups there were, and the
      database before and after the write. */
  datatype Write = Write(pid: Pid, was: Db, backups: map<BackupName, Option<Db>>, isStamp: bool, before: Db, after: Db)

  /** `upgrades` counts the upgrades that completed, `autos` holds each process's setting. */
  datatype State = State(db: Db, lock: Option<Pid>, processes: map<Pid, Process>, backups: map<BackupName, Option<Db>>,
                         autos: map<Pid, bool>, writes: seq<Write>, upgrades: nat)

  datatype Step =
    | Start(pid: Pid, auto: bool)
    | TimeOut(pid: Pid)
    | TakeLock(pid: Pid)
    | Read(pid: Pid, file: BackupName) // the name a backup would get
    | CopyBackup(pid: Pid)
    | Stamp(pid: Pid)
    | UpgradePart(pid: Pid, db: Db)
    | UpgradeEnd(pid: Pid, rows: nat, reached: bool)
    | Check(pid: Pid)
    | Prune(pid: Pid, removed: set<BackupName>)
    | Fail(pid: Pid)  // an exception: the lock is released
    | Crash(pid: Pid) // the system releases the lock
    | AppWrite(pid: Pid, rows: nat)

  predicate AtHead(config: Config, db: Db) {
    db.revision == Some(config.head)
  }

  /** The revisions that old databases are stamped with are older than the head. */
  predicate WellFormed(config: Config, db: Db) {
    && (db.revision.Some? || db.fingerprint != NoLegacyTables ==> db.tables)
    && (db.tables ==> db.present)
    && (db.fingerprint.Legacy? ==> db.fingerprint.revision != config.head)
  }

  function Initial(db: Db, backups: map<BackupName, Option<Db>>): State {
    State(db, None, map[], backups, map[], [], 0)
  }

  function Move(s: State, pid: Pid, to: Process): State {
    s.(processes := s.processes[pid := to])
  }

  function Leave(s: State, pid: Pid, to: Process): State {
    s.(processes := s.processes[pid := to], lock := None)
  }

  function StartStep(s: State, pid: Pid, auto: bool): State {
    if pid in s.processes then s else
    Move(s, pid, if !auto && !s.db.present then Failed else Waiting(auto)).(autos := s.autos[pid := auto])
  }

  function TakeLockStep(s: State, pid: Pid): State {
    if pid in s.processes && s.processes[pid].Waiting? && s.lock.None?
    then Move(s, pid, Inside(s.processes[pid].auto)).(lock := Some(pid)) else s
  }

  /** Connecting creates a missing file. */
  function Opened(s: State): State {
    s.(db := s.db.(present := true))
  }

  /** Everything `_migrate` decides before it changes anything. */
  function ReadStep(config: Config, s: State, pid: Pid, file: BackupName): State {
    if pid !in s.processes || !s.processes[pid].Inside? then s else
    var found := Opened(s);
    if AtHead(config, found.db) then Leave(found, pid, Returned)
    else if !s.processes[pid].auto then Leave(found, pid, Failed)
    else if found.db.revision.Some? && found.db.revision.value !in config.known then Leave(found, pid, Failed)
    else if found.db.revision.None? && found.db.fingerprint.Ambiguous? then Leave(found, pid, Failed)
    else
      var stamp := if found.db.revision.None? && found.db.fingerprint.Legacy?
                   then Some(found.db.fingerprint.revision) else None;
      if found.db.tables then
        if file in s.backups || file.Foreign? then Leave(found, pid, Failed) // created exclusively
        else Move(found, pid, BackingUp(found.db, stamp, file)).(backups := s.backups[file := None])
      else Move(found, pid, AfterBackup(found.db, stamp))
  }

  function AfterBackup(was: Db, stamp: Option<nat>): Process {
    if stamp.Some? then Stamping(was, stamp.value) else Upgrading(was)
  }

  function CopyStep(s: State, pid: Pid): State {
    if pid !in s.processes || !s.processes[pid].BackingUp? then s else
    var p := s.processes[pid];
    Move(s, pid, AfterBackup(p.was, p.stamp)).(backups := s.backups[p.file := Some(s.db)])
  }

  function Written(s: State, pid: Pid, was: Db, isStamp: bool, db: Db): State {
    s.(db := db, writes := s.writes + [Write(pid, was, s.backups, isStamp, s.db, db)])
  }

  function StampStep(s: State, pid: Pid): State {
    if pid !in s.processes || !s.processes[pid].Stamping? then s else
    var p := s.processes[pid];
    Move(Written(s, pid, p.was, true, s.db.(revision := Some(p.target), tables := true)), pid, Upgrading(p.was))
  }

  /** Part of an upgrade has reached the file: any change that is not yet the head revision. */
  function UpgradePartStep(config: Config, s: State, pid: Pid, db: Db): State {
    if pid !in s.processes || !s.processes[pid].Upgrading? || AtHead(config, db) || !WellFormed(config, db) then s else
    Written(s, pid, s.processes[pid].was, false, db)
  }

  function UpgradeEndStep(config: Config, s: State, pid: Pid, rows: nat, reached: bool): State {
    if pid !in s.processes || !s.processes[pid].Upgrading? then s else
    var was := s.processes[pid].was;
    if !reached then Move(s, pid, Checking(was)) else
    Move(Written(s, pid, was, false, Db(true, Some(config.head), true, s.db.fingerprint, rows)), pid, Checking(was))
      .(upgrades := s.upgrades + 1)
  }

  function CheckStep(config: Config, s: State, pid: Pid): State {
    if pid !in s.processes || !s.processes[pid].Checking? then s else
    if !AtHead(config, s.db) then Leave(s, pid, Failed)
    else if s.processes[pid].was.tables then Move(s, pid, Pruning) else Leave(s, pid, Returned)
  }

  /** A removal that fails part way is only logged. */
  function PruneStep(config: Config, s: State, pid: Pid, removed: set<BackupName>): State {
    if pid !in s.processes || !s.processes[pid].Pruning? then s else
    Leave(s, pid, Returned).(backups := s.backups - (removed * Stale(s.backups.Keys, config.generations)))
  }

  /** A failed backup removes its file; every other failure leaves the files as they are. */
  function FailStep(s: State, pid: Pid): State {
    if pid !in s.processes || !InSection(s.processes[pid]) then s else
    var left := Leave(s, pid, Failed);
    if s.processes[pid].BackingUp? then left.(backups := s.backups - {s.processes[pid].file}) else left
  }

  function Apply(config: Config, s: State, step: Step): State {
    match step
    case Start(pid, auto) => StartStep(s, pid, auto)
    case TimeOut(pid) => if pid in s.processes && s.processes[pid].Waiting? then Move(s, pid, Failed) else s
    case TakeLock(pid) => TakeLockStep(s, pid)
    case Read(pid, file) => ReadStep(config, s, pid, file)
    case CopyBackup(pid) => CopyStep(s, pid)
    case Stamp(pid) => StampStep(s, pid)
    case UpgradePart(pid, db) => UpgradePartStep(config, s, pid, db)
    case UpgradeEnd(pid, rows, reached) => UpgradeEndStep(config, s, pid, rows, reached)
    case Check(pid) => CheckStep(config, s, pid)
    case Prune(pid, removed) => PruneStep(config, s, pid, removed)
    case Fail(pid) => FailStep(s, pid)
    case Crash(pid) => if pid in s.processes && InSection(s.processes[pid]) then Leave(s, pid, Failed) else s
    case AppWrite(pid, rows) =>
      if pid in s.processes && s.processes[pid].Returned? then s.(db := s.db.(rows := rows)) else s
  }

  /** Inside the locked section. */
  predicate InSection(process: Process) {
    !process.Waiting? && !process.Returned? && !process.Failed?
  }

  function Run(config: Config, s: State, steps: seq<Step>): State
    decreases |steps|
  {
    if steps == [] then s else Apply(config, Run(config, s, steps[..|steps| - 1]), steps[|steps| - 1])
  }

  lemma RunOfMore(config: Config, s: State, steps: seq<Step>, step: Step)
    ensures Run(config, s, []) == s && Run(config, s, steps + [step]) == Apply(config, Run(config, s, steps), step)
  {
    assert (steps + [step])[..|steps|] == steps;
  }

  /** What goes wrong, and what others write: giving up the wait, failing in the locked section (an
      incomplete backup goes), being killed there (it stays), part of an upgrade, and the application. */
  lemma DisturbingSteps(config: Config, s: State, pid: Pid, db: Db, rows: nat)
    requires pid in s.processes
    ensures var process := s.processes[pid];
            var failed := s.(processes := s.processes[pid := Failed]);
            match process
            case Waiting(_) =>
              Apply(config, s, TimeOut(pid)) == failed
                && Apply(config, s, Fail(pid)) == Apply(config, s, Crash(pid)) == s
            case Returned => Apply(config, s, AppWrite(pid, rows)) == s.(db := s.db.(rows := rows))
            case Failed => Apply(config, s, AppWrite(pid, rows)) == s
            case _ =>
              && Apply(config, s, Crash(pid)) == failed.(lock := None)
              && Apply(config, s, Fail(pid)) == failed.(lock := None,
                   backups := if process.BackingUp? then s.backups - {process.file} else s.backups)
              && Apply(config, s, TimeOut(pid)) == Apply(config, s, AppWrite(pid, rows)) == s
    ensures s.processes[pid].Upgrading? && WellFormed(config, db) && db.revision != Some(config.head) ==>
              Apply(config, s, UpgradePart(pid, db))
              == s.(db := db, writes := s.writes + [Write(pid, s.processes[pid].was, s.backups, false, s.db, db)])
  {
  }

  // ---- what every run keeps

  /** A complete backup holds `db`, if there was anything in it. */
  ghost predicate Saved(backups: map<BackupName, Option<Db>>, db: Db) {
    db.tables ==> exists n :: n in backups && backups[n] == Some(db)
  }

  /** The locked sections of different processes never overlap. */
  ghost predicate Exclusive(s: State) {
    forall p :: p in s.processes && InSection(s.processes[p]) ==> s.lock == Some(p)
  }

  /** What the process in the locked section may rely on. `first` is the database before the run. */
  ghost predicate SectionInv(config: Config, first: Db, s: State, process: Process) {
    match process
    case BackingUp(was, stamp, file) =>
      && s.db == was && was.tables && !AtHead(config, was) && file in s.backups && s.backups[file] == None
      && (stamp.Some? ==> stamp.value != config.head)
    case Stamping(was, stamp) =>
      && s.db == was && was.tables && !AtHead(config, was) && stamp != config.head
      && Saved(s.backups, was) && (NeedsMigration(config, first) ==> Saved(s.backups, first))
    case Upgrading(was) =>
      !AtHead(config, s.db) && Saved(s.backups, was) && (NeedsMigration(config, first) ==> Saved(s.backups, first))
    case Pruning => AtHead(config, s.db)
    case _ => true
  }

  ghost predicate NeedsMigration(config: Config, first: Db) {
    !AtHead(config, first)
  }

  /** The database of before the run is still there, or saved, or no longer needed. */
  ghost predicate Recoverable(config: Config, first: Db, s: State) {
    NeedsMigration(config, first) && (!AtHead(config, s.db) || config.generations == 0) ==>
      s.db == first || Saved(s.backups, first)
  }

  /** The revision that a database without one is stamped with, if its tables are known. */
  function StampFor(was: Db): Option<nat> {
    if was.revision.None? && was.fingerprint.Legacy? then Some(was.fingerprint.revision) else None
  }

  /** What an upgrade starts from: what the process read, with its stamp if it needs one. */
  function StartsFrom(was: Db): Db {
    if StampFor(was).Some? then was.(revision := StampFor(was), tables := true) else was
  }

  ghost predicate NoWritesOf(writes: seq<Write>, pid: Pid) {
    forall i :: 0 <= i < |writes| ==> writes[i].pid != pid
  }

  /** The stamp comes first, exactly if it is needed, and writes just the revision; the upgrade
      starts from there, and each of its parts from where the one before ended. */
  ghost predicate WriteInOrder(writes: seq<Write>, i: nat)
    requires i < |writes|
  {
    var w := writes[i];
    if NoWritesOf(writes[..i], w.pid)
    then w.before == w.was && (w.isStamp <==> StampFor(w.was).Some?) && (w.isStamp ==> w.after == StartsFrom(w.was))
    else writes[i - 1].pid == w.pid && !w.isStamp && w.was == writes[i - 1].was && w.before == writes[i - 1].after
  }

  /** The last write is this process's. */
  ghost predicate LastWriteOf(s: State, pid: Pid) {
    s.writes != [] && s.writes[|s.writes| - 1].pid == pid
  }

  /** Where a process stands between its writes. */
  ghost predicate Continues(s: State, pid: Pid, process: Process) {
    match process
    case Waiting(_) => NoWritesOf(s.writes, pid)
    case Inside(_) => NoWritesOf(s.writes, pid)
    case BackingUp(was, stamp, _) => NoWritesOf(s.writes, pid) && stamp == StampFor(was)
    case Stamping(was, target) => NoWritesOf(s.writes, pid) && StampFor(was) == Some(target)
    case Upgrading(was) =>
      if NoWritesOf(s.writes, pid) then s.db == was && StampFor(was).None?
      else LastWriteOf(s, pid) && s.db == s.writes[|s.writes| - 1].after && was == s.writes[|s.writes| - 1].was
    case _ => true
  }

  ghost predicate WritesInOrder(s: State) {
    forall i :: 0 <= i < |s.writes| ==> WriteInOrder(s.writes, i) && s.writes[i].pid in s.processes
  }

  ghost predicate InOrder(s: State) {
    && WritesInOrder(s)
    && (forall p :: p in s.processes ==> Continues(s, p, s.processes[p]))
  }

  ghost predicate HeadInv(config: Config, s: State) {
    && (forall p :: p in s.processes && s.processes[p].Returned? ==> AtHead(config, s.db))
    && s.upgrades <= 1 && (s.upgrades == 1 ==> AtHead(config, s.db))
  }

  ghost predicate WritesInv(s: State) {
    && s.autos.Keys == s.processes.Keys && (forall p :: p in s.processes ==> AutoOf(s.processes[p], s.autos[p]))
    && (forall i :: 0 <= i < |s.writes| ==>
          Saved(s.writes[i].backups, s.writes[i].was) && s.writes[i].pid in s.autos && s.autos[s.writes[i].pid])
  }

  ghost predicate AutoOf(process: Process, auto: bool) {
    match process
    case Waiting(a) => a == auto
    case Inside(a) => a == auto
    case Returned => true
    case Failed => true
    case _ => auto
  }

  ghost predicate Inv(config: Config, first: Db, s: State) {
    && WellFormed(config, s.db) && Exclusive(s) && HeadInv(config, s) && WritesInv(s) && Recoverable(config, first, s)
    && (forall p :: p in s.processes && InSection(s.processes[p]) ==> SectionInv(config, first, s, s.processes[p]))
  }

  /** Complete backups stay when only other files come and go. */
  lemma SavedStays(a: map<BackupName, Option<Db>>, b: map<BackupName, Option<Db>>, db: Db)
    requires forall n :: n in a && a[n].Some? ==> n in b && b[n] == a[n]
    ensures Saved(a, db) ==> Saved(b, db)
  {
  }

  lemma LeaveKeeps(config: Config, first: Db, s: State, pid: Pid, to: Process)
    requires Inv(config, first, s) && pid in s.processes && InSection(s.processes[pid])
    requires to.Failed? || (to.Returned? && AtHead(config, s.db))
    ensures Inv(config, first, Leave(s, pid, to))
  {
  }

  lemma OpenedKeeps(config: Config, first: Db, s: State, pid: Pid)
    requires Inv(config, first, s) && pid in s.processes && s.processes[pid].Inside?
    ensures Inv(config, first, Opened(s))
  {
  }

  lemma BackingUpKeeps(config: Config, first: Db, s: State, pid: Pid, stamp: Option<nat>, file: BackupName)
    requires Inv(config, first, s) && pid in s.processes && s.processes[pid] == Inside(true)
    requires s.db.tables && !AtHead(config, s.db) && (stamp.Some? ==> stamp.value != config.head) && file !in s.backups
    ensures Inv(config, first, Move(s, pid, BackingUp(s.db, stamp, file)).(backups := s.backups[file := None]))
  {
    SavedStays(s.backups, s.backups[file := None], first);
  }

  lemma NoTablesKeeps(config: Config, first: Db, s: State, pid: Pid)
    requires Inv(config, first, s) && pid in s.processes && s.processes[pid] == Inside(true)
    requires !s.db.tables && !AtHead(config, s.db)
    ensures Inv(config, first, Move(s, pid, Upgrading(s.db)))
  {
  }

  lemma ReadKeeps(config: Config, first: Db, s: State, pid: Pid, file: BackupName)
    requires Inv(config, first, s)
    ensures Inv(config, first, ReadStep(config, s, pid, file))
  {
    if pid in s.processes && s.processes[pid].Inside? {
      OpenedKeeps(config, first, s, pid);
      var found, t := Opened(s), ReadStep(config, s, pid, file);
      var to := t.processes[pid];
      if to.BackingUp? {
        BackingUpKeeps(config, first, found, pid, to.stamp, file);
      } else if to.Upgrading? {
        NoTablesKeeps(config, first, found, pid);
      } else {
        LeaveKeeps(config, first, found, pid, to);
      }
    }
  }

  lemma CopyKeeps(config: Config, first: Db, s: State, pid: Pid)
    requires Inv(config, first, s)
    ensures Inv(config, first, CopyStep(s, pid))
  {
    if pid in s.processes && s.processes[pid].BackingUp? {
      var t := CopyStep(s, pid);
      SavedStays(s.backups, t.backups, first);
      assert t.backups[s.processes[pid].file] == Some(s.db);
    }
  }

  lemma StampKeeps(config: Config, first: Db, s: State, pid: Pid)
    requires Inv(config, first, s)
    ensures Inv(config, first, StampStep(s, pid))
  {
  }

  lemma UpgradePartKeeps(config: Config, first: Db, s: State, pid: Pid, db: Db)
    requires Inv(config, first, s)
    ensures Inv(config, first, UpgradePartStep(config, s, pid, db))
  {
  }

  lemma UpgradeEndKeeps(config: Config, first: Db, s: State, pid: Pid, rows: nat, reached: bool)
    requires Inv(config, first, s)
    ensures Inv(config, first, UpgradeEndStep(config, s, pid, rows, reached))
  {
  }

  lemma PruneKeeps(config: Config, first: Db, s: State, pid: Pid, removed: set<BackupName>)
    requires Inv(config, first, s)
    ensures Inv(config, first, PruneStep(config, s, pid, removed))
  {
    if config.generations == 0 { SavedStays(s.backups, PruneStep(config, s, pid, removed).backups, first); }
  }

  /** A backup that is not complete may go. */
  lemma IncompleteBackupGoes(config: Config, first: Db, s: State, file: BackupName)
    requires Inv(config, first, s) && file in s.backups && s.backups[file] == None
    requires forall p :: p in s.processes ==> !InSection(s.processes[p])
    ensures Inv(config, first, s.(backups := s.backups - {file}))
  {
    SavedStays(s.backups, s.backups - {file}, first);
  }

  lemma FailKeeps(config: Config, first: Db, s: State, pid: Pid)
    requires Inv(config, first, s)
    ensures Inv(config, first, FailStep(s, pid))
  {
    if pid in s.processes && InSection(s.processes[pid]) {
      var left := Leave(s, pid, Failed);
      LeaveKeeps(config, first, s, pid, Failed);
      assert SectionInv(config, first, s, s.processes[pid]);
      if s.processes[pid].BackingUp? { IncompleteBackupGoes(config, first, left, s.processes[pid].file); }
    }
  }

  lemma CheckKeeps(config: Config, first: Db, s: State, pid: Pid)
    requires Inv(config, first, s)
    ensures Inv(config, first, CheckStep(config, s, pid))
  {
    if pid in s.processes && s.processes[pid].Checking? {
      var to := CheckStep(config, s, pid).processes[pid];
      if !to.Pruning? { LeaveKeeps(config, first, s, pid, to); }
    }
  }

  lemma NewcomerKeeps(config: Config, first: Db, s: State, pid: Pid, auto: bool, process: Process)
    requires Inv(config, first, s) && pid !in s.processes && (process == Waiting(auto) || process == Failed)
    ensures Inv(config, first, Move(s, pid, process).(autos := s.autos[pid := auto]))
  {
    var t := Move(s, pid, process).(autos := s.autos[pid := auto]);
    assert WritesInv(t);
    assert Recoverable(config, first, t) && HeadInv(config, t);
    forall p | p in t.processes && InSection(t.processes[p]) ensures SectionInv(config, first, t, t.processes[p]) {
      assert p != pid && SectionInv(config, first, s, s.processes[p]);
    }
  }

  lemma StartKeeps(config: Config, first: Db, s: State, pid: Pid, auto: bool)
    requires Inv(config, first, s)
    ensures Inv(config, first, StartStep(s, pid, auto))
  {
    if pid !in s.processes {
      NewcomerKeeps(config, first, s, pid, auto, if !auto && !s.db.present then Failed else Waiting(auto));
    }
  }

  lemma TakeLockKeeps(config: Config, first: Db, s: State, pid: Pid)
    requires Inv(config, first, s)
    ensures Inv(config, first, TakeLockStep(s, pid))
  {
  }

  lemma TimeOutKeeps(config: Config, first: Db, s: State, pid: Pid)
    requires Inv(config, first, s)
    ensures Inv(config, first, Apply(config, s, TimeOut(pid)))
  {
  }

  lemma CrashKeeps(config: Config, first: Db, s: State, pid: Pid)
    requires Inv(config, first, s)
    ensures Inv(config, first, Apply(config, s, Crash(pid)))
  {
    if pid in s.processes && InSection(s.processes[pid]) { LeaveKeeps(config, first, s, pid, Failed); }
  }

  predicate IsWrite(step: Step) {
    step.CopyBackup? || step.Stamp? || step.UpgradePart? || step.UpgradeEnd? || step.Prune?
  }

  lemma WriteKeeps(config: Config, first: Db, s: State, step: Step)
    requires Inv(config, first, s) && IsWrite(step)
    ensures Inv(config, first, Apply(config, s, step))
  {
    match step
    case CopyBackup(pid) => CopyKeeps(config, first, s, pid);
    case Stamp(pid) => StampKeeps(config, first, s, pid);
    case UpgradePart(pid, db) => UpgradePartKeeps(config, first, s, pid, db);
    case UpgradeEnd(pid, rows, reached) => UpgradeEndKeeps(config, first, s, pid, rows, reached);
    case Prune(pid, removed) => PruneKeeps(config, first, s, pid, removed);
  }

  lemma MoveKeeps(config: Config, first: Db, s: State, step: Step)
    requires Inv(config, first, s) && !IsWrite(step)
    ensures Inv(config, first, Apply(config, s, step))
  {
    match step
    case Start(pid, auto) => StartKeeps(config, first, s, pid, auto);
    case TimeOut(pid) => TimeOutKeeps(config, first, s, pid);
    case TakeLock(pid) => TakeLockKeeps(config, first, s, pid);
    case Read(pid, file) => ReadKeeps(config, first, s, pid, file);
    case Check(pid) => CheckKeeps(config, first, s, pid);
    case Fail(pid) => FailKeeps(config, first, s, pid);
    case Crash(pid) => CrashKeeps(config, first, s, pid);
    case AppWrite(pid, rows) => AppWriteKeeps(config, first, s, pid, rows);
  }

  lemma StepKeeps(config: Config, first: Db, s: State, step: Step)
    requires Inv(config, first, s)
    ensures Inv(config, first, Apply(config, s, step))
  {
    if IsWrite(step) { WriteKeeps(config, first, s, step); } else { MoveKeeps(config, first, s, step); }
  }

  // ---- each write starts where it should

  lemma EarlierWritesStay(writes: seq<Write>, write: Write, i: nat)
    requires i < |writes| && WriteInOrder(writes, i)
    ensures WriteInOrder(writes + [write], i)
  {
    assert (writes + [write])[..i] == writes[..i];
  }

  /** A step of `pid` that writes nothing. */
  lemma MoveKeepsOrder(s: State, t: State, pid: Pid)
    requires InOrder(s) && t.writes == s.writes && pid in t.processes && Continues(t, pid, t.processes[pid])
    requires t.processes == s.processes[pid := t.processes[pid]]
    requires forall p :: p in s.processes && p != pid && s.processes[p].Upgrading? ==> t.db == s.db
    ensures InOrder(t)
  {
    forall p | p in t.processes ensures Continues(t, p, t.processes[p]) {
      if p != pid { assert Continues(s, p, s.processes[p]); }
    }
  }

  /** A write of the only process in the section. */
  lemma WriteKeepsOrder(s: State, t: State, pid: Pid, write: Write)
    requires InOrder(s) && Exclusive(s) && pid in s.processes && InSection(s.processes[pid]) && write.pid == pid
    requires t.writes == s.writes + [write] && t.db == write.after
    requires t.processes.Keys == s.processes.Keys && forall p :: p in s.processes && p != pid ==>
               t.processes[p] == s.processes[p]
    requires t.processes[pid] == Upgrading(write.was) || t.processes[pid] == Checking(write.was)
    requires WriteInOrder(t.writes, |s.writes|)
    ensures InOrder(t)
  {
    WritesStayInOrder(s, t, write);
    NewestContinues(t, write);
    forall p | p in t.processes ensures Continues(t, p, t.processes[p]) {
      if p != pid { OtherContinues(s, t, p, write); }
    }
  }

  lemma WritesStayInOrder(s: State, t: State, write: Write)
    requires WritesInOrder(s) && t.writes == s.writes + [write] && WriteInOrder(t.writes, |s.writes|)
    requires t.processes.Keys == s.processes.Keys && write.pid in s.processes
    ensures WritesInOrder(t)
  {
    assert t.writes[|s.writes|] == write;
    forall i | 0 <= i < |t.writes| ensures WriteInOrder(t.writes, i) && t.writes[i].pid in t.processes {
      if i < |s.writes| { EarlierWritesStay(s.writes, write, i); }
    }
  }

  lemma NewestContinues(t: State, write: Write)
    requires t.writes != [] && t.writes[|t.writes| - 1] == write && t.db == write.after
    ensures Continues(t, write.pid, Upgrading(write.was)) && Continues(t, write.pid, Checking(write.was))
  {
  }

  lemma OtherContinues(s: State, t: State, p: Pid, write: Write)
    requires p in s.processes && Continues(s, p, s.processes[p]) && !s.processes[p].Upgrading?
    requires t.writes == s.writes + [write] && write.pid != p
    ensures Continues(t, p, s.processes[p])
  {
  }

  /** The write that follows the last one. */
  lemma NextWriteInOrder(s: State, pid: Pid, was: Db, write: Write)
    requires Continues(s, pid, Upgrading(was)) && write.pid == pid && write.was == was && !write.isStamp
             && write.before == s.db
    ensures WriteInOrder(s.writes + [write], |s.writes|)
  {
    var writes := s.writes + [write];
    assert writes[..|s.writes|] == s.writes && writes[|s.writes|] == write;
  }

  lemma StampInOrder(s: State, pid: Pid, was: Db, write: Write)
    requires NoWritesOf(s.writes, pid) && StampFor(was).Some? && write.pid == pid && write.was == was && write.isStamp
    requires write.before == was && write.after == StartsFrom(was)
    ensures WriteInOrder(s.writes + [write], |s.writes|)
  {
    var writes := s.writes + [write];
    assert writes[..|s.writes|] == s.writes && writes[|s.writes|] == write;
  }

  lemma StampKeepsOrder(config: Config, first: Db, s: State, pid: Pid)
    requires Inv(config, first, s) && InOrder(s)
    ensures InOrder(StampStep(s, pid))
  {
    if pid in s.processes && s.processes[pid].Stamping? {
      var p, t := s.processes[pid], StampStep(s, pid);
      assert Continues(s, pid, p) && SectionInv(config, first, s, p);
      var write := t.writes[|s.writes|];
      StampInOrder(s, pid, p.was, write);
      WriteKeepsOrder(s, t, pid, write);
    }
  }

  lemma UpgradePartKeepsOrder(config: Config, first: Db, s: State, pid: Pid, db: Db)
    requires Inv(config, first, s) && InOrder(s)
    ensures InOrder(UpgradePartStep(config, s, pid, db))
  {
    var t := UpgradePartStep(config, s, pid, db);
    if t != s {
      assert Continues(s, pid, s.processes[pid]);
      var write := t.writes[|s.writes|];
      NextWriteInOrder(s, pid, s.processes[pid].was, write);
      WriteKeepsOrder(s, t, pid, write);
    }
  }

  lemma UpgradeEndKeepsOrder(config: Config, first: Db, s: State, pid: Pid, rows: nat, reached: bool)
    requires Inv(config, first, s) && InOrder(s)
    ensures InOrder(UpgradeEndStep(config, s, pid, rows, reached))
  {
    var t := UpgradeEndStep(config, s, pid, rows, reached);
    if pid in s.processes && s.processes[pid].Upgrading? {
      assert Continues(s, pid, s.processes[pid]);
      if reached {
        var write := t.writes[|s.writes|];
        NextWriteInOrder(s, pid, s.processes[pid].was, write);
        WriteKeepsOrder(s, t, pid, write);
      } else {
        MoveKeepsOrder(s, t, pid);
      }
    }
  }

  lemma ReadKeepsOrder(config: Config, first: Db, s: State, pid: Pid, file: BackupName)
    requires Inv(config, first, s) && InOrder(s)
    ensures InOrder(ReadStep(config, s, pid, file))
  {
    if pid in s.processes && s.processes[pid].Inside? {
      var t := ReadStep(config, s, pid, file);
      assert Continues(s, pid, s.processes[pid]);
      MoveKeepsOrder(s, t, pid);
    }
  }

  lemma CopyKeepsOrder(config: Config, first: Db, s: State, pid: Pid)
    requires Inv(config, first, s) && InOrder(s)
    ensures InOrder(CopyStep(s, pid))
  {
    if pid in s.processes && s.processes[pid].BackingUp? {
      assert Continues(s, pid, s.processes[pid]) && SectionInv(config, first, s, s.processes[pid]);
      MoveKeepsOrder(s, CopyStep(s, pid), pid);
    }
  }

  /** Steps that start, end or let in a process, and writes of the application. */
  lemma OtherStepsKeepOrder(config: Config, first: Db, s: State, step: Step)
    requires Inv(config, first, s) && InOrder(s)
    requires !step.Read? && !step.CopyBackup? && !step.Stamp? && !step.UpgradePart? && !step.UpgradeEnd?
             && !step.AppWrite?
    ensures InOrder(Apply(config, s, step))
  {
    var t := Apply(config, s, step);
    if t != s {
      NewStateContinues(config, s, step);
      MoveKeepsOrder(s, t, step.pid);
    }
  }

  lemma NewStateContinues(config: Config, s: State, step: Step)
    requires InOrder(s) && Apply(config, s, step) != s
    requires !step.Read? && !step.CopyBackup? && !step.Stamp? && !step.UpgradePart? && !step.UpgradeEnd?
             && !step.AppWrite?
    ensures var t := Apply(config, s, step);
            && t.writes == s.writes && t.db == s.db && step.pid in t.processes
            && t.processes == s.processes[step.pid := t.processes[step.pid]]
            && Continues(t, step.pid, t.processes[step.pid])
  {
    if step.pid in s.processes { assert Continues(s, step.pid, s.processes[step.pid]); }
  }

  lemma NobodyUpgradesTheHead(config: Config, first: Db, s: State)
    requires Inv(config, first, s) && AtHead(config, s.db)
    ensures forall p :: p in s.processes ==> !s.processes[p].Upgrading?
  {
    assert forall p :: p in s.processes && InSection(s.processes[p]) ==> SectionInv(config, first, s, s.processes[p]);
  }

  /** An application writes only when the head is reached, when nobody upgrades. */
  lemma AppWriteKeepsOrder(config: Config, first: Db, s: State, pid: Pid, rows: nat)
    requires Inv(config, first, s) && InOrder(s)
    ensures InOrder(Apply(config, s, AppWrite(pid, rows)))
  {
    var t := Apply(config, s, AppWrite(pid, rows));
    if t != s {
      assert t.processes == s.processes[pid := s.processes[pid]];
      NobodyUpgradesTheHead(config, first, s);
      MoveKeepsOrder(s, t, pid);
    }
  }

  lemma StepKeepsOrder(config: Config, first: Db, s: State, step: Step)
    requires Inv(config, first, s) && InOrder(s)
    ensures InOrder(Apply(config, s, step))
  {
    match step
    case Read(pid, file) => ReadKeepsOrder(config, first, s, pid, file);
    case CopyBackup(pid) => CopyKeepsOrder(config, first, s, pid);
    case Stamp(pid) => StampKeepsOrder(config, first, s, pid);
    case UpgradePart(pid, db) => UpgradePartKeepsOrder(config, first, s, pid, db);
    case UpgradeEnd(pid, rows, reached) => UpgradeEndKeepsOrder(config, first, s, pid, rows, reached);
    case AppWrite(pid, rows) => AppWriteKeepsOrder(config, first, s, pid, rows);
    case _ => OtherStepsKeepOrder(config, first, s, step);
  }

  lemma {:induction false} RunKeepsOrder(config: Config, db: Db, backups: map<BackupName, Option<Db>>, steps: seq<Step>)
    requires WellFormed(config, db)
    ensures InOrder(Run(config, Initial(db, backups), steps))
    decreases |steps|
  {
    if steps != [] {
      var front, last := steps[..|steps| - 1], steps[|steps| - 1];
      RunKeepsOrder(config, db, backups, front);
      RunKeeps(config, db, backups, front);
      StepKeepsOrder(config, db, Run(config, Initial(db, backups), front), last);
    }
  }

  lemma AppWriteKeeps(config: Config, first: Db, s: State, pid: Pid, rows: nat)
    requires Inv(config, first, s)
    ensures Inv(config, first, Apply(config, s, AppWrite(pid, rows)))
  {
  }

  lemma {:induction false} RunKeeps(config: Config, db: Db, backups: map<BackupName, Option<Db>>, steps: seq<Step>)
    requires WellFormed(config, db)
    ensures Inv(config, db, Run(config, Initial(db, backups), steps))
    decreases |steps|
  {
    if steps != [] {
      RunKeeps(config, db, backups, steps[..|steps| - 1]);
      StepKeeps(config, db, Run(config, Initial(db, backups), steps[..|steps| - 1]), steps[|steps| - 1]);
    }
  }

  // ---- main results

  /** However many processes start, fail or are killed: at most one is in the locked section,
      at most one upgrade completes, and whoever returned normally left the head revision. */
  lemma OneMigratesAndAllReturnAtHead(config: Config, db: Db, backups: map<BackupName, Option<Db>>, steps: seq<Step>)
    requires WellFormed(config, db)
    ensures var s := Run(config, Initial(db, backups), steps);
            && (forall p, q ::
                  p in s.processes && q in s.processes && InSection(s.processes[p]) && InSection(s.processes[q]) ==>
                    p == q)
            && s.upgrades <= 1
            && (forall p :: p in s.processes && s.processes[p].Returned? ==> AtHead(config, s.db))
  {
    RunKeeps(config, db, backups, steps);
  }

  /** Every stamp and every part of an upgrade of a database with tables came after a complete
      backup of just what was there; only processes that may migrate write. */
  lemma WritesFollowBackups(config: Config, db: Db, backups: map<BackupName, Option<Db>>, steps: seq<Step>)
    requires WellFormed(config, db)
    ensures var s := Run(config, Initial(db, backups), steps);
            forall i :: 0 <= i < |s.writes| ==>
              && Saved(s.writes[i].backups, s.writes[i].was) && s.writes[i].pid in s.autos && s.autos[s.writes[i].pid]
              && WriteInOrder(s.writes, i)
  {
    RunKeeps(config, db, backups, steps);
    RunKeepsOrder(config, db, backups, steps);
  }

  /** A process that is about to upgrade, and has not begun to, finds what it read, stamped with the
      revision of its tables if it had none. */
  lemma UpgradeStartsFromStamp(config: Config, db: Db, backups: map<BackupName, Option<Db>>, steps: seq<Step>, pid: Pid)
    requires WellFormed(config, db)
    requires var s := Run(config, Initial(db, backups), steps);
             pid in s.processes && s.processes[pid].Upgrading?
             && forall i :: 0 <= i < |s.writes| && s.writes[i].pid == pid ==> s.writes[i].isStamp
    ensures var s := Run(config, Initial(db, backups), steps);
            var was := s.processes[pid].was;
            s.db == if was.revision.None? && was.fingerprint.Legacy?
                    then was.(revision := Some(was.fingerprint.revision), tables := true) else was
  {
    RunKeepsOrder(config, db, backups, steps);
    var s := Run(config, Initial(db, backups), steps);
    assert Continues(s, pid, s.processes[pid]);
    if s.writes != [] { assert WriteInOrder(s.writes, |s.writes| - 1); }
  }

  /** Until the head is reached the database of before the run can be had back, whoever crashed
      where; with 0 generations, which keeps every backup, it can be had back for good. */
  lemma FirstDatabaseIsRecoverable(config: Config, db: Db, backups: map<BackupName, Option<Db>>, steps: seq<Step>)
    requires WellFormed(config, db) && !AtHead(config, db) && db.tables
    ensures var s := Run(config, Initial(db, backups), steps);
            !AtHead(config, s.db) || config.generations == 0 ==>
              s.db == db || exists n :: n in s.backups && s.backups[n] == Some(db)
  {
    RunKeeps(config, db, backups, steps);
  }

  /** Once at the head, no migration changes the database again. */
  lemma {:induction false} HeadIsFinal(config: Config, db: Db, backups: map<BackupName, Option<Db>>, steps: seq<Step>,
                                       more: seq<Step>)
    requires WellFormed(config, db) && AtHead(config, Run(config, Initial(db, backups), steps).db)
    ensures var s, t := Run(config, Initial(db, backups), steps), Run(config, Initial(db, backups), steps + more);
            AtHead(config, t.db) && t.writes == s.writes && t.upgrades == s.upgrades
    decreases |more|
  {
    if more == [] {
      assert steps + more == steps;
    } else {
      var front := more[..|more| - 1];
      HeadIsFinal(config, db, backups, steps, front);
      RunKeeps(config, db, backups, steps + front);
      assert (steps + more)[..|steps + more| - 1] == steps + front;
      StaysAtHead(config, db, Run(config, Initial(db, backups), steps + front), more[|more| - 1]);
    }
  }

  lemma StaysAtHead(config: Config, first: Db, s: State, step: Step)
    requires Inv(config, first, s) && AtHead(config, s.db)
    ensures var t := Apply(config, s, step); AtHead(config, t.db) && t.writes == s.writes && t.upgrades == s.upgrades
  {
  }

  /** A database that automatic migration takes on. */
  predicate Migratable(config: Config, db: Db) {
    if db.revision.Some? then AtHead(config, db) || db.revision.value in config.known else !db.fingerprint.Ambiguous?
  }

  /** All steps of one process alone; a step that its database does not need is not possible
      and changes nothing. */
  function Undisturbed(config: Config, db: Db, backups: map<BackupName, Option<Db>>, pid: Pid, file: BackupName,
                       rows: nat): State {
    var backed := CopyStep(ReadStep(config, Entered(db, backups, pid), pid, file), pid);
    var upgraded := UpgradeEndStep(config, StampStep(backed, pid), pid, rows, true);
    PruneStep(config, CheckStep(config, upgraded, pid), pid, upgraded.backups.Keys)
  }

  lemma TwoMoreSteps(config: Config, s: State, steps: seq<Step>, a: Step, b: Step)
    ensures Run(config, s, steps + [a] + [b]) == Apply(config, Apply(config, Run(config, s, steps), a), b)
  {
    RunOfMore(config, s, steps, a);
    RunOfMore(config, s, steps + [a], b);
  }

  lemma StampAndUpgrade(config: Config, s: State, steps: seq<Step>, pid: Pid, rows: nat, backed: State)
    requires Run(config, s, steps) == backed
    ensures Run(config, s, steps + [Stamp(pid)] + [UpgradeEnd(pid, rows, true)])
            == UpgradeEndStep(config, StampStep(backed, pid), pid, rows, true)
  {
    TwoMoreSteps(config, s, steps, Stamp(pid), UpgradeEnd(pid, rows, true));
  }

  lemma CheckAndPrune(config: Config, s: State, steps: seq<Step>, pid: Pid, removed: set<BackupName>, upgraded: State)
    requires Run(config, s, steps) == upgraded
    ensures Run(config, s, steps + [Check(pid)] + [Prune(pid, removed)])
            == PruneStep(config, CheckStep(config, upgraded, pid), pid, removed)
  {
    TwoMoreSteps(config, s, steps, Check(pid), Prune(pid, removed));
  }

  lemma ReadAndCopy(config: Config, s: State, steps: seq<Step>, pid: Pid, file: BackupName, entered: State)
    requires Run(config, s, steps) == entered
    ensures Run(config, s, steps + [Read(pid, file)] + [CopyBackup(pid)])
            == CopyStep(ReadStep(config, entered, pid, file), pid)
  {
    TwoMoreSteps(config, s, steps, Read(pid, file), CopyBackup(pid));
  }

  lemma EnteredIsRun(config: Config, db: Db, backups: map<BackupName, Option<Db>>, pid: Pid)
    ensures Run(config, Initial(db, backups), [Start(pid, true), TakeLock(pid)]) == Entered(db, backups, pid)
  {
    TwoMoreSteps(config, Initial(db, backups), [], Start(pid, true), TakeLock(pid));
    assert [] + [Start(pid, true)] + [TakeLock(pid)] == [Start(pid, true), TakeLock(pid)];
  }

  /** These are the steps of a run. */
  lemma UndisturbedIsRun(config: Config, db: Db, backups: map<BackupName, Option<Db>>, pid: Pid, file: BackupName,
                         rows: nat) returns (removed: set<BackupName>)
    ensures Undisturbed(config, db, backups, pid, file, rows)
            == Run(config, Initial(db, backups),
                 [Start(pid, true), TakeLock(pid)] + [Read(pid, file)] + [CopyBackup(pid)] + [Stamp(pid)]
                 + [UpgradeEnd(pid, rows, true)] + [Check(pid)] + [Prune(pid, removed)])
  {
    var s, entering, entered := Initial(db, backups), [Start(pid, true), TakeLock(pid)], Entered(db, backups, pid);
    EnteredIsRun(config, db, backups, pid);
    ReadAndCopy(config, s, entering, pid, file, entered);
    var backing, backed := entering + [Read(pid, file)] + [CopyBackup(pid)],
      CopyStep(ReadStep(config, entered, pid, file), pid);
    StampAndUpgrade(config, s, backing, pid, rows, backed);
    var upgraded := UpgradeEndStep(config, StampStep(backed, pid), pid, rows, true);
    removed := upgraded.backups.Keys;
    CheckAndPrune(config, s, backing + [Stamp(pid)] + [UpgradeEnd(pid, rows, true)], pid, removed, upgraded);
  }

  function Entered(db: Db, backups: map<BackupName, Option<Db>>, pid: Pid): State {
    TakeLockStep(StartStep(Initial(db, backups), pid, true), pid)
  }

  /** What it leaves: the file at the head, and a backup of what was there, the oldest of all
      backups pruned. */
  ghost predicate Completed(config: Config, db: Db, backups: map<BackupName, Option<Db>>, pid: Pid, file: BackupName,
                            rows: nat, s: State) {
    var all := backups[file := Some(db)];
    && s.processes == map[pid := Returned] && s.lock.None? && AtHead(config, s.db)
    && (if AtHead(config, db) then s.db == db && s.writes == []
        else s.db == Db(true, Some(config.head), true, db.fingerprint, rows) && s.upgrades == 1
             && s.writes == Writes(config, db.(present := true), if db.tables then all else backups, pid, rows))
    && s.backups == if db.tables && !AtHead(config, db) then all - Stale(all.Keys, config.generations) else backups
  }

  /** The stamp, if one is needed, and then the upgrade, both after the backup. */
  ghost function Writes(config: Config, was: Db, backups: map<BackupName, Option<Db>>, pid: Pid,
                        rows: nat): seq<Write> {
    var target := Db(true, Some(config.head), true, was.fingerprint, rows);
    var upgrade := Write(pid, was, backups, false, StartsFrom(was), target);
    if StampFor(was).Some? then [Write(pid, was, backups, true, was, StartsFrom(was)), upgrade] else [upgrade]
  }

  /** An undisturbed process completes exactly if the database has a revision that is known, or
      none and no ambiguous tables; otherwise it fails and at most an empty file is new. */
  lemma UndisturbedProcessCompletes(config: Config, db: Db, backups: map<BackupName, Option<Db>>, pid: Pid,
                                    file: BackupName, rows: nat)
    requires WellFormed(config, db) && file.Own? && file !in backups
    ensures var s := Undisturbed(config, db, backups, pid, file, rows);
            if Migratable(config, db) then Completed(config, db, backups, pid, file, rows, s)
            else (s.processes == map[pid := Failed] && s.lock.None? && s.db == db.(present := true)
                  && s.backups == backups)
  {
    if AtHead(config, db) || !Migratable(config, db) {
      UndisturbedIsOver(config, db, backups, pid, file, rows);
    } else {
      var stamp := if db.revision.None? && db.fingerprint.Legacy? then Some(db.fingerprint.revision) else None;
      var backed := UndisturbedRead(config, db, backups, pid, file, stamp);
      UndisturbedUpgrade(config, db.(present := true), backed, pid, stamp, rows);
    }
  }

  /** Nobody may migrate; whoever got past the start found a file. */
  ghost predicate OnlyChecks(db: Db, backups: map<BackupName, Option<Db>>, s: State) {
    && s.writes == [] && s.upgrades == 0 && s.backups == backups && s.db.present == db.present
    && s.db.(rows := db.rows) == db && (!db.present ==> s.db == db)
    && (forall p :: p in s.processes ==>
          || s.processes[p].Failed?
          || (db.present && (s.processes[p] == Waiting(false) || s.processes[p] == Inside(false)
                             || s.processes[p].Returned?)))
  }

  lemma OnlyChecksStays(config: Config, db: Db, backups: map<BackupName, Option<Db>>, s: State, step: Step)
    requires OnlyChecks(db, backups, s) && (step.Start? ==> !step.auto)
    ensures OnlyChecks(db, backups, Apply(config, s, step))
  {
  }

  /** Without automatic migration no run writes anything or makes a backup, and where there is no
      file none appears and every process fails. */
  lemma {:induction false} WithoutAutoNothingIsWritten(config: Config, db: Db, backups: map<BackupName, Option<Db>>,
                                                       steps: seq<Step>)
    requires forall i :: 0 <= i < |steps| && steps[i].Start? ==> !steps[i].auto
    ensures OnlyChecks(db, backups, Run(config, Initial(db, backups), steps))
    decreases |steps|
  {
    if steps != [] {
      WithoutAutoNothingIsWritten(config, db, backups, steps[..|steps| - 1]);
      OnlyChecksStays(config, db, backups, Run(config, Initial(db, backups), steps[..|steps| - 1]), steps[|steps| - 1]);
    }
  }

  /** A process that may not migrate returns from an existing file exactly if that is at the head. */
  lemma UndisturbedCheckOnly(config: Config, db: Db, backups: map<BackupName, Option<Db>>, pid: Pid, file: BackupName)
    requires db.present
    ensures var s := ReadStep(config, TakeLockStep(StartStep(Initial(db, backups), pid, false), pid), pid, file);
            && s.db == db && s.backups == backups && s.lock.None?
            && s.processes == map[pid := if AtHead(config, db) then Returned else Failed]
  {
  }

  /** The process has returned or failed without a change. */
  function Over(config: Config, db: Db, backups: map<BackupName, Option<Db>>, pid: Pid): State {
    var end := if AtHead(config, db) then Returned else Failed;
    State(db.(present := true), None, map[pid := end], backups, map[pid := true], [], 0)
  }

  lemma NothingAfterTheEnd(config: Config, s: State, pid: Pid, rows: nat)
    requires pid in s.processes && (s.processes[pid].Returned? || s.processes[pid].Failed?)
    ensures StampStep(CopyStep(s, pid), pid) == s
    ensures CheckStep(config, UpgradeEndStep(config, s, pid, rows, true), pid) == s
    ensures PruneStep(config, s, pid, s.backups.Keys) == s
  {
  }

  lemma UndisturbedIsOver(config: Config, db: Db, backups: map<BackupName, Option<Db>>, pid: Pid, file: BackupName,
                          rows: nat)
    requires WellFormed(config, db) && (AtHead(config, db) || !Migratable(config, db))
    ensures Undisturbed(config, db, backups, pid, file, rows) == Over(config, db, backups, pid)
  {
    var over := Over(config, db, backups, pid);
    assert ReadStep(config, Entered(db, backups, pid), pid, file) == over;
    NothingAfterTheEnd(config, over, pid, rows);
  }

  lemma UndisturbedRead(config: Config, db: Db, backups: map<BackupName, Option<Db>>, pid: Pid, file: BackupName,
                        stamp: Option<nat>)
    returns (backed: State)
    requires WellFormed(config, db) && !AtHead(config, db) && Migratable(config, db) && file.Own? && file !in backups
    requires stamp == if db.revision.None? && db.fingerprint.Legacy? then Some(db.fingerprint.revision) else None
    ensures backed == CopyStep(ReadStep(config, Entered(db, backups, pid), pid, file), pid)
    ensures backed == State(db.(present := true), Some(pid), map[pid := AfterBackup(db.(present := true), stamp)],
                            if db.tables then backups[file := Some(db)] else backups, map[pid := true], [], 0)
  {
    var inside := Entered(db, backups, pid);
    assert inside == State(db, Some(pid), map[pid := Inside(true)], backups, map[pid := true], [], 0);
    backed := CopyStep(ReadStep(config, inside, pid, file), pid);
    assert backups[file := None][file := Some(db)] == backups[file := Some(db)];
  }

  lemma UndisturbedStamp(config: Config, db: Db, backed: State, pid: Pid, stamp: Option<nat>, rows: nat)
    requires backed.processes == map[pid := AfterBackup(db, stamp)] && backed.db == db && backed.upgrades == 0
    requires backed.writes == [] && stamp == StampFor(db)
    ensures var upgraded := UpgradeEndStep(config, StampStep(backed, pid), pid, rows, true);
            && upgraded.processes == map[pid := Checking(db)] && upgraded.backups == backed.backups
            && upgraded.db == Db(true, Some(config.head), true, db.fingerprint, rows) && upgraded.upgrades == 1
            && upgraded.writes == Writes(config, db, backed.backups, pid, rows)
  {
    var stamped := StampStep(backed, pid);
    assert stamped.processes == map[pid := Upgrading(db)] && stamped.backups == backed.backups;
    assert stamped.db == StartsFrom(db) && stamped.upgrades == 0;
    assert [] + [Write(pid, db, backed.backups, true, db, StartsFrom(db))]
        == [Write(pid, db, backed.backups, true, db, StartsFrom(db))];
  }

  lemma UndisturbedUpgrade(config: Config, db: Db, backed: State, pid: Pid, stamp: Option<nat>, rows: nat)
    requires backed.processes == map[pid := AfterBackup(db, stamp)] && backed.db == db && backed.upgrades == 0
    requires backed.writes == [] && stamp == StampFor(db)
    ensures var upgraded := UpgradeEndStep(config, StampStep(backed, pid), pid, rows, true);
            var s := PruneStep(config, CheckStep(config, upgraded, pid), pid, upgraded.backups.Keys);
            && s.processes == map[pid := Returned] && s.lock.None? && s.upgrades == 1
            && s.writes == Writes(config, db, backed.backups, pid, rows)
            && s.db == Db(true, Some(config.head), true, db.fingerprint, rows)
            && s.backups == if db.tables then backed.backups - Stale(backed.backups.Keys, config.generations)
              else backed.backups
  {
    UndisturbedStamp(config, db, backed, pid, stamp, rows);
    UndisturbedEnd(config, db, UpgradeEndStep(config, StampStep(backed, pid), pid, rows, true), pid);
  }

  lemma UndisturbedEnd(config: Config, was: Db, upgraded: State, pid: Pid)
    requires upgraded.processes == map[pid := Checking(was)] && AtHead(config, upgraded.db)
    ensures var s := PruneStep(config, CheckStep(config, upgraded, pid), pid, upgraded.backups.Keys);
            && s.processes == map[pid := Returned] && s.lock.None? && s.upgrades == upgraded.upgrades
            && s.writes == upgraded.writes && s.db == upgraded.db
            && s.backups == if was.tables then upgraded.backups - Stale(upgraded.backups.Keys, config.generations)
                            else upgraded.backups
  {
    var checked := CheckStep(config, upgraded, pid);
    var stale := Stale(upgraded.backups.Keys, config.generations);
    assert checked.backups == upgraded.backups && upgraded.backups.Keys * stale == stale;
  }
}
